/**
  Synchronising two nodes: ancestors, batches of main-list descendants, rewinding to a common
  block, and the predicate that says who must sync from whom.
*/
module Sync {
  import opened Hashing
  import opened Ancestry
  import opened ForkChoice
  import opened Runs

  const MAX_BATCH: int := 100
  const REWIND_STEP: nat := 10
  const SYNC_BATCH: int := 10

  // ---------- Ancestors ----------

  datatype AncestorAnswer = InvalidArg | Unknown | Nothing | Ancestor(block: Block)

  function Min(a: nat, b: nat): nat {
    if a < b then a else b
  }

  /** The ancestor `max` generations above a block, or the genesis if that is closer. */
  method FindAncestor(d: Dag, child: Hash, max: int) returns (answer: AncestorAnswer)
    requires Consistent(d)
    ensures answer == InvalidArg <==> child == d.genesis
    ensures answer == Unknown <==> child != d.genesis && child !in d.blocks
    ensures answer == Nothing <==> child != d.genesis && child in d.blocks && max <= 0
    ensures answer.Ancestor? ==>
      var h := Up(d.blocks, child, Min(max, d.blocks[child].depth)); h in d.blocks && answer.block == d.blocks[h]
  {
    if child == d.genesis {
      return InvalidArg;
    }
    if child !in d.nodes {
      return Unknown;
    }
    answer := Nothing;
    var bs, left := d.blocks, max;
    GenesisOnPath(bs, d.genesis, child);
    assert NodeOk(bs, d.genesis, child, d.nodes[child]);
    var node := d.nodes[child];
    while node.depth > 0 && left > 0
      invariant left <= max && (max > 0 ==> left >= 0)
      invariant max > 0 ==> max - left <= bs[child].depth && node.hash == Up(bs, child, max - left)
      invariant max <= 0 ==> left == max && answer == Nothing
      invariant node.hash in d.nodes && node == d.nodes[node.hash] && NodeMatches(node, bs[node.hash])
      invariant left < max ==> answer == Ancestor(bs[node.hash])
      invariant left == max ==> answer == Nothing && node.hash == child
      decreases left
    {
      UpStored(bs, d.genesis, child, max - left);
      ParentStored(bs, d.genesis, node.hash);
      UpAdd(bs, child, max - left, 1);
      assert Up(bs, node.hash, 1) == Up(bs, node.parent, 0);
      assert NodeOk(bs, d.genesis, node.parent, d.nodes[node.parent]);
      answer := Ancestor(bs[node.parent]);
      node := d.nodes[node.parent];
      left := left - 1;
    }
    if max > 0 {
      UpStored(bs, d.genesis, child, max - left);
    }
  }

  // ---------- Batches of descendants ----------

  /** The main-list block at level k. */
  function MainAt(d: Dag, k: nat): Hash
    requires k <= d.tip.depth
  {
    Up(d.blocks, d.tip.hash, d.tip.depth - k)
  }

  lemma MainAtIs(d: Dag, k: nat)
    requires Consistent(d) && k <= d.tip.depth
    ensures MainAt(d, k) in d.nodes && d.nodes[MainAt(d, k)].isMain
    ensures d.blocks[MainAt(d, k)].depth == k && d.nodes[MainAt(d, k)].hash == MainAt(d, k)
    ensures forall h :: h in d.nodes && d.nodes[h].isMain && d.blocks[h].depth == k ==> h == MainAt(d, k)
  {
    UpStored(d.blocks, d.genesis, d.tip.hash, d.tip.depth - k);
    UpOnPath(d.blocks, d.genesis, d.tip.hash, d.tip.depth - k);
    assert NodeOk(d.blocks, d.genesis, MainAt(d, k), d.nodes[MainAt(d, k)]);
  }

  /** Looking for the main-list child of a main-list block finds the one a level down, if the block is not the tip. */
  lemma NextMain(d: Dag, k: nat, next: Option<ChainNode>)
    requires Consistent(d) && k <= d.tip.depth && MainAt(d, k) in d.nodes
    requires FoundChild(d.nodes, d.nodes[MainAt(d, k)], None, next)
    ensures k < d.tip.depth ==> MainAt(d, k + 1) in d.nodes && next == Some(d.nodes[MainAt(d, k + 1)])
    ensures k == d.tip.depth ==> next == None
  {
    var h := MainAt(d, k);
    MainAtIs(d, k);
    OneMainChild(d, h);
    assert NodeOk(d.blocks, d.genesis, h, d.nodes[h]);
    forall c
      ensures FlaggedChild(d.nodes, d.nodes[h], None, c) <==> MainChild(d, h, c)
      ensures MainChild(d, h, c) ==> k < d.tip.depth && c == MainAt(d, k + 1)
    {
      if MainChild(d, h, c) {
        ParentStored(d.blocks, d.genesis, c);
        MainAtIs(d, k + 1);
      }
    }
    if k < d.tip.depth {
      assert h != d.tip.hash;
    } else {
      assert h == d.tip.hash;
    }
  }

  lemma UnclesStored(d: Dag, h: Hash)
    requires Consistent(d) && h in d.blocks
    ensures forall u :: u in d.blocks[h].uncles ==> u in d.blocks
  {
    if h != d.genesis {
      assert Sound(d.blocks, d.blocks[h]);
    }
  }

  ghost predicate AllStored(bs: Blocks, hs: seq<Hash>) {
    forall h :: h in hs ==> h in bs
  }

  function Fetch(bs: Blocks, hs: seq<Hash>): seq<Block>
    requires AllStored(bs, hs)
  {
    seq(|hs|, i requires 0 <= i < |hs| => assert hs[i] in hs; bs[hs[i]])
  }

  /**
    The uncles of the main-list block at level k, then for each of the next j levels the block's uncles
    and the block.
  */
  function Batch(d: Dag, k: nat, j: nat): seq<Hash>
    requires k + j <= d.tip.depth && forall i :: k <= i <= k + j ==> MainAt(d, i) in d.blocks
  {
    var h := MainAt(d, k + j);
    if j == 0 then d.blocks[h].uncles else Batch(d, k, j - 1) + d.blocks[h].uncles + [h]
  }

  /** The first j levels after k fit in the limit, and no longer run does. */
  ghost predicate LongestRun(d: Dag, k: nat, j: nat, limit: nat)
    requires k + j <= d.tip.depth && forall i :: k <= i <= d.tip.depth ==> MainAt(d, i) in d.blocks
  {
    && (j > 0 ==> |Batch(d, k, j)| <= limit)
    && (k + j < d.tip.depth ==> |Batch(d, k, j + 1)| > limit)
  }

  lemma {:induction false} BatchStored(d: Dag, k: nat, j: nat)
    requires Consistent(d) && k + j <= d.tip.depth
    ensures forall i :: k <= i <= d.tip.depth ==> MainAt(d, i) in d.blocks
    ensures AllStored(d.blocks, Batch(d, k, j))
    decreases j
  {
    forall i | k <= i <= d.tip.depth
      ensures MainAt(d, i) in d.blocks
    {
      MainAtIs(d, i);
    }
    UnclesStored(d, MainAt(d, k + j));
    if j > 0 {
      BatchStored(d, k, j - 1);
    }
  }

  /** How many hashes come before the uncles of level k + j. */
  ghost function UpTo(d: Dag, k: nat, j: nat): nat
    requires k + j <= d.tip.depth && forall i :: k <= i <= k + j ==> MainAt(d, i) in d.blocks
  {
    if j == 0 then 0
    else UpTo(d, k, j - 1) + |d.blocks[MainAt(d, k + j - 1)].uncles| + if j == 1 then 0 else 1
  }

  ghost predicate MainStored(d: Dag, k: nat) {
    forall i :: k <= i <= d.tip.depth ==> MainAt(d, i) in d.blocks
  }

  lemma {:induction false} BatchLength(d: Dag, k: nat, j: nat)
    requires MainStored(d, k) && k + j <= d.tip.depth
    ensures |Batch(d, k, j)| == UpTo(d, k, j) + |d.blocks[MainAt(d, k + j)].uncles| + if j == 0 then 0 else 1
    decreases j
  {
    if j > 0 {
      BatchLength(d, k, j - 1);
    }
  }

  /**
    A level's uncles sit at their place in the batch, in their order, and unless it is the first level
    the block follows.
  */
  ghost predicate LevelSits(d: Dag, k: nat, i: nat, hs: seq<Hash>)
    requires MainStored(d, k) && k + i <= d.tip.depth
  {
    var us, at := d.blocks[MainAt(d, k + i)].uncles, UpTo(d, k, i);
    && at + |us| + (if i == 0 then 0 else 1) <= |hs|
    && hs[at..at + |us|] == us && (i > 0 ==> hs[at + |us|] == MainAt(d, k + i))
  }

  /** Every level sits at its place in a batch. */
  lemma {:induction false} BatchLayout(d: Dag, k: nat, j: nat, i: nat)
    requires MainStored(d, k) && k + j <= d.tip.depth && i <= j
    ensures LevelSits(d, k, i, Batch(d, k, j))
    decreases j
  {
    if i < j {
      var short, us := Batch(d, k, j - 1), d.blocks[MainAt(d, k + i)].uncles;
      BatchLayout(d, k, j - 1, i);
      assert Batch(d, k, j)[..|short|] == short;
      assert Batch(d, k, j)[UpTo(d, k, i)..UpTo(d, k, i) + |us|] == short[UpTo(d, k, i)..UpTo(d, k, i) + |us|];
    } else {
      BatchLength(d, k, j);
      if j > 0 {
        BatchLength(d, k, j - 1);
      }
    }
  }

  datatype DescendentsAnswer = Missing | NotMainList | Blocks(blocks: seq<Block>)

  /**
    A batch goes out: the stored blocks of the longest run that fits, or nothing if the parent's uncles
    alone fill it.
  */
  ghost predicate IsBatch(d: Dag, k: nat, limit: nat, blocks: seq<Block>)
    requires Consistent(d) && k <= d.tip.depth && MainAt(d, k) in d.blocks
  {
    if |d.blocks[MainAt(d, k)].uncles| >= limit then blocks == []
    else exists j :: RunOf(d, k, j, limit, blocks)
  }

  ghost predicate RunOf(d: Dag, k: nat, j: nat, limit: nat, blocks: seq<Block>)
    requires Consistent(d)
  {
    && k + j <= d.tip.depth
    && (forall i :: k <= i <= d.tip.depth ==> MainAt(d, i) in d.blocks)
    && AllStored(d.blocks, Batch(d, k, j)) && blocks == Fetch(d.blocks, Batch(d, k, j))
    && LongestRun(d, k, j, limit)
  }

  /** Fetches the listed blocks one by one. */
  method FetchAll(bs: Blocks, hs: seq<Hash>) returns (blocks: seq<Block>)
    requires AllStored(bs, hs)
    ensures blocks == Fetch(bs, hs)
  {
    blocks := [];
    for i := 0 to |hs|
      invariant |blocks| == i && forall j :: 0 <= j < i ==> hs[j] in bs && blocks[j] == bs[hs[j]]
    {
      assert hs[i] in hs;
      blocks := blocks + [bs[hs[i]]];
    }
  }

  lemma FetchAppend(bs: Blocks, hs: seq<Hash>, ks: seq<Hash>)
    requires AllStored(bs, hs) && AllStored(bs, ks)
    ensures AllStored(bs, hs + ks) && Fetch(bs, hs + ks) == Fetch(bs, hs) + Fetch(bs, ks)
  {
  }

  /** What has been collected when the walk reaches level k + n. */
  ghost function Collected(d: Dag, k: nat, n: nat): seq<Hash>
    requires Consistent(d) && k <= d.tip.depth && n <= d.tip.depth - k + 1
  {
    if n == 0 then [] else BatchStored(d, k, n - 1); Batch(d, k, n - 1)
  }

  lemma CollectedNext(d: Dag, k: nat, n: nat)
    requires Consistent(d) && k + n <= d.tip.depth
    ensures MainAt(d, k + n) in d.blocks && AllStored(d.blocks, d.blocks[MainAt(d, k + n)].uncles)
    ensures AllStored(d.blocks, Collected(d, k, n)) && AllStored(d.blocks, Collected(d, k, n + 1))
    ensures Collected(d, k, n + 1)
            == Collected(d, k, n) + d.blocks[MainAt(d, k + n)].uncles + if n == 0 then [] else [MainAt(d, k + n)]
  {
    MainAtIs(d, k + n);
    BatchStored(d, k, n);
    UnclesStored(d, MainAt(d, k + n));
    if n > 0 {
      BatchStored(d, k, n - 1);
    }
  }

  /** Stopping where the next level's uncles would fill the batch, or past the tip, leaves the longest run that fits. */
  lemma StopsAtLongest(d: Dag, k: nat, n: nat, limit: nat, found: seq<Block>)
    requires Consistent(d) && k <= d.tip.depth && n <= d.tip.depth - k + 1 && MainAt(d, k) in d.blocks
    requires AllStored(d.blocks, Collected(d, k, n)) && found == Fetch(d.blocks, Collected(d, k, n)) && |found| <= limit
    requires n > 0 <==> |d.blocks[MainAt(d, k)].uncles| < limit
    requires k + n <= d.tip.depth ==>
      MainAt(d, k + n) in d.blocks && |found| + |d.blocks[MainAt(d, k + n)].uncles| >= limit
    ensures IsBatch(d, k, limit, found)
  {
    if n > 0 {
      BatchStored(d, k, n - 1);
      if k + n <= d.tip.depth {
        CollectedNext(d, k, n);
        BatchStored(d, k, n);
      }
      assert RunOf(d, k, n - 1, limit, found);
    }
  }

  /** The main-list successors of a block, with their uncles, as many as fit. */
  method Descendents(d: Dag, parent: Hash, max: int) returns (answer: DescendentsAnswer)
    requires Consistent(d) && max >= 0
    ensures answer == Missing <==> parent !in d.blocks
    ensures answer == NotMainList <==> parent in d.blocks && !d.nodes[parent].isMain
    ensures answer.Blocks? ==>
      var limit := if max > MAX_BATCH then MAX_BATCH else max;
      && d.blocks[parent].depth <= d.tip.depth && MainAt(d, d.blocks[parent].depth) == parent
      && |answer.blocks| <= limit
      && IsBatch(d, d.blocks[parent].depth, limit, answer.blocks)
  {
    var limit := if max > MAX_BATCH then MAX_BATCH else max;
    if parent !in d.nodes {
      return Missing;
    }
    if !d.nodes[parent].isMain {
      return NotMainList;
    }
    ghost var k, n := d.blocks[parent].depth, 0;
    MainAtIs(d, k);
    var found: seq<Block> := [];
    var node := Some(d.nodes[parent]);
    var count := 0;
    while node.Some? && count < limit
      invariant n <= d.tip.depth - k + 1 && count == |found| <= limit
      invariant n > 0 ==> |d.blocks[parent].uncles| < limit
      invariant k + n <= d.tip.depth ==> MainAt(d, k + n) in d.nodes && node == Some(d.nodes[MainAt(d, k + n)])
      invariant k + n == d.tip.depth + 1 ==> node == None
      invariant AllStored(d.blocks, Collected(d, k, n)) && found == Fetch(d.blocks, Collected(d, k, n))
      decreases d.tip.depth - k + 1 - n
    {
      MainAtIs(d, k + n);
      CollectedNext(d, k, n);
      var block := d.blocks[node.value.hash];
      if count + |block.uncles| >= limit {
        break;
      }
      var uncles := FetchAll(d.blocks, block.uncles);
      FetchAppend(d.blocks, Collected(d, k, n), block.uncles);
      found := found + uncles;
      count := count + |uncles|;
      if block.hash != parent {
        FetchAppend(d.blocks, Collected(d, k, n) + block.uncles, [block.hash]);
        found := found + [block];
        count := count + 1;
      }
      var next := FindMainListChild(d.nodes, node.value, None);
      NextMain(d, k + n, next);
      node := next;
      n := n + 1;
    }
    StopsAtLongest(d, k, n, limit, found);
    return Blocks(found);
  }

  // ---------- Rewinding ----------

  /** The genesis is an ancestor of every block, so its children can have no uncles. */
  lemma NoUncleOfGenesis(bs: Blocks, g: Hash, u: Hash)
    requires Rooted(bs, g)
    ensures !UncleOk(bs, g, u)
  {
    if u in bs {
      GenesisOnPath(bs, g, u);
    }
  }

  lemma NoUnclesAtLevelOne(d: Dag, h: Hash)
    requires Consistent(d) && h in d.blocks && d.blocks[h].depth <= 1
    ensures d.blocks[h].uncles == []
  {
    var us := d.blocks[h].uncles;
    if h != d.genesis && us != [] {
      assert Sound(d.blocks, d.blocks[h]);
      ParentStored(d.blocks, d.genesis, h);
      GenesisOnPath(d.blocks, d.genesis, d.blocks[h].parent);
      NoUncleOfGenesis(d.blocks, d.genesis, us[0]);
    }
  }

  /** A node past genesis always has an answer to a request from genesis. */
  lemma AnswersFromGenesis(d: Dag, limit: nat, blocks: seq<Block>)
    requires Consistent(d) && d.tip.hash != d.genesis && limit > 0
    requires MainAt(d, 0) in d.blocks && IsBatch(d, 0, limit, blocks)
    ensures |blocks| > 0
  {
    GenesisOnPath(d.blocks, d.genesis, d.tip.hash);
    MainAtIs(d, 0);
    MainAtIs(d, 1);
    NoUnclesAtLevelOne(d, MainAt(d, 0));
    NoUnclesAtLevelOne(d, MainAt(d, 1));
    assert |Batch(d, 0, 1)| == 1;
    var j :| RunOf(d, 0, j, limit, blocks);
    assert j > 0 && |Batch(d, 0, j)| >= 1;
  }

  /** How many rewinds take a block of this depth back to genesis. */
  function RewindsToGenesis(depth: nat): nat {
    (depth + REWIND_STEP - 1) / REWIND_STEP
  }

  /** How many generations that many rewinds go back from a block of this depth. */
  function Rewound(steps: nat, depth: nat): nat {
    Min(REWIND_STEP * steps, depth)
  }

  lemma RewoundNext(steps: nat, depth: nat)
    ensures Rewound(steps + 1, depth) == Rewound(steps, depth) + Min(REWIND_STEP, depth - Rewound(steps, depth))
    ensures Rewound(steps, depth) < depth ==> steps < RewindsToGenesis(depth)
  {
  }

  /** One rewind lowers the depth by the step, or to genesis. */
  lemma RewindStep(bs: Blocks, g: Hash, start: Hash, steps: nat, last: Hash)
    requires Rooted(bs, g) && start in bs && last == Up(bs, start, Rewound(steps, bs[start].depth))
    ensures last in bs && bs[last].depth == bs[start].depth - Rewound(steps, bs[start].depth)
    ensures Up(bs, last, Min(REWIND_STEP, bs[last].depth)) == Up(bs, start, Rewound(steps + 1, bs[start].depth))
    ensures bs[last].depth > 0 ==> steps < RewindsToGenesis(bs[start].depth)
  {
    var n := Rewound(steps, bs[start].depth);
    UpStored(bs, g, start, n);
    RewoundNext(steps, bs[start].depth);
    UpAdd(bs, start, n, Min(REWIND_STEP, bs[last].depth));
  }

  /**
    A requester rewinds from its best block, ten generations at a time, until the responder
    answers. Both share a genesis and the responder is past it; the two block trees may
    otherwise have nothing in common.
  */
  method RewindUntilAnswered(requester: Dag, responder: Dag, start: Hash)
    returns (last: Hash, steps: nat, answer: seq<Block>)
    requires Consistent(requester) && Consistent(responder) && requester.genesis == responder.genesis
    requires responder.tip.hash != responder.genesis && start in requester.blocks
    ensures |answer| > 0
    ensures steps <= RewindsToGenesis(requester.blocks[start].depth)
    ensures last == Up(requester.blocks, start, Rewound(steps, requester.blocks[start].depth))
    ensures last in responder.nodes && responder.nodes[last].isMain
    ensures IsBatch(responder, responder.blocks[last].depth, SYNC_BATCH, answer)
  {
    var bs := requester.blocks;
    last, steps := start, 0;
    while true
      invariant last in bs && last == Up(bs, start, Rewound(steps, bs[start].depth))
      invariant steps <= RewindsToGenesis(bs[start].depth)
      decreases bs[last].depth
    {
      var response := Descendents(responder, last, SYNC_BATCH);
      answer := if response.Blocks? then response.blocks else [];
      if |answer| > 0 {
        return;
      }
      RewindStep(bs, requester.genesis, start, steps, last);
      if last == requester.genesis {
        GenesisOnPath(responder.blocks, responder.genesis, responder.tip.hash);
        assert response.Blocks?;
        AnswersFromGenesis(responder, SYNC_BATCH, answer);
      }
      GenesisOnPath(bs, requester.genesis, last);
      var ancestor := FindAncestor(requester, last, REWIND_STEP);
      UpStored(bs, requester.genesis, last, Min(REWIND_STEP, bs[last].depth));
      last := ancestor.block.hash;
      steps := steps + 1;
    }
  }

  // ---------- Who syncs from whom ----------

  /** Does a node whose best block has the first rank need to sync from a peer announcing the second? */
  predicate IsSyncNeeded(weight: nat, numeric: nat, peerWeight: nat, peerNumeric: nat) {
    peerWeight > weight || (peerWeight == weight && peerNumeric < numeric)
  }

  /** Does d need to sync from a peer whose tip is t? */
  predicate NeedsSync(d: Dag, t: Block) {
    IsSyncNeeded(d.tip.weight, Numeric(d.tip.hash), t.weight, Numeric(t.hash))
  }

  /**
    A node needs to sync exactly when the announced tip is heavier than its own, or as heavy with a lower
    number; and that is when the announced tip would win.
  */
  lemma SyncIsForkChoice(d: Dag, t: Block)
    requires Consistent(d)
    ensures NeedsSync(d, t) <==>
      || t.weight > d.tip.weight
      || (t.weight == d.tip.weight && Numeric(t.hash) < Numeric(d.tip.hash))
    ensures NeedsSync(d, t) <==> Wins(d, t)
  {
  }

  /** Two nodes never both need to sync from each other. */
  lemma NeverBothSync(d1: Dag, d2: Dag)
    ensures !(NeedsSync(d1, d2.tip) && NeedsSync(d2, d1.tip))
  {
  }

  /** Once a peer's announced tip has been stored, no later submission makes syncing to it necessary again. */
  lemma SyncedStaysSynced(d: Dag, t: Block, run: seq<Submission>)
    requires Consistent(d) && t.hash in d.blocks && d.blocks[t.hash] == t && Undisturbed(d, run)
    ensures !NeedsSync(Run(d, run), t)
  {
    assert !Better(d.blocks[t.hash], d.tip);
    RunConsistent(d, run);
    NotBetterTransitive(t, d.tip, Run(d, run).tip);
  }

  /** Two nodes that hold each other's tips are level, and neither needs to sync. */
  lemma ExchangedTipsAreLevel(d1: Dag, d2: Dag)
    requires Consistent(d1) && Consistent(d2)
    requires d2.tip.hash in d1.blocks && d1.blocks[d2.tip.hash] == d2.tip
    requires d1.tip.hash in d2.blocks && d2.blocks[d1.tip.hash] == d1.tip
    ensures d1.weight == d2.weight && Numeric(d1.tip.hash) == Numeric(d2.tip.hash)
    ensures !NeedsSync(d1, d2.tip) && !NeedsSync(d2, d1.tip)
  {
    assert !Better(d1.blocks[d2.tip.hash], d1.tip);
    assert !Better(d2.blocks[d1.tip.hash], d2.tip);
  }
}
