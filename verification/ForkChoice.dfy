/**
  The fork-choice block DAG as a value, and what inserting a block does to it.

  `Insert` says declaratively what the engine's reorganisation walks must achieve: after a
  better block arrives the main-list flags are exactly the path from genesis to it. The
  engine class refines it; here the invariant is proved for one insertion.
*/
module ForkChoice {
  import opened Hashing
  import opened Ancestry

  const MAX_UNCLE_DISTANCE: nat := 5

  datatype ChainNode = ChainNode(
    parent: Hash,
    depth: nat,
    weight: nat,
    isMain: bool,
    children: seq<Hash>,
    hash: Hash)

  /** The engine's tables and fields. `dagTip` is the tip hash saved in the database. */
  datatype Dag = Dag(
    genesis: Hash,
    blocks: Blocks,
    nodes: map<Hash, ChainNode>,
    txIndex: map<Hash, Hash>,
    dagTip: Option<Hash>,
    tip: Block,
    weight: nat,
    stateRoot: Hash)

  function NewChainNode(b: Block): ChainNode {
    ChainNode(b.parent, b.depth, b.weight, false, [], b.hash)
  }

  // ---------- Fork choice order ----------

  function ByteSum(s: Bytes): nat {
    if s == [] then 0 else s[0] + ByteSum(s[1..])
  }

  /** The tie-breaking number of a hashed block. */
  function Numeric(h: Hash): nat {
    ByteSum(RawBytes(h))
  }

  /** (weight, number) a is strictly better than b: heavier, or as heavy with a lower number. */
  predicate BetterRank(aw: nat, an: nat, bw: nat, bn: nat) {
    aw > bw || (aw == bw && an < bn)
  }

  predicate Better(a: Block, b: Block) {
    BetterRank(a.weight, Numeric(a.hash), b.weight, Numeric(b.hash))
  }

  // ---------- Uncles ----------

  /** a and b have a common ancestor at most k generations above either of them. */
  ghost predicate CommonWithin(bs: Blocks, a: Hash, b: Hash, k: nat)
    requires a in bs && b in bs
  {
    exists c :: OnPath(bs, c, a) && OnPath(bs, c, b) && bs[a].depth - bs[c].depth <= k && bs[b].depth - bs[c].depth <= k
  }

  /** u may be an uncle of a child of p: stored, on neither side of p's own line, and close by. */
  ghost predicate UncleOk(bs: Blocks, p: Hash, u: Hash) {
    && p in bs && u in bs
    && !OnPath(bs, u, p) && !OnPath(bs, p, u)
    && CommonWithin(bs, p, u, MAX_UNCLE_DISTANCE)
  }

  /** What validation demands of a block. */
  ghost predicate Sound(bs: Blocks, b: Block) {
    && HangsBelow(bs, b)
    && (forall u :: u in b.uncles ==> UncleOk(bs, b.parent, u))
    && b.weight == bs[b.parent].weight + 1 + |b.uncles|
  }

  ghost predicate AllSound(bs: Blocks, g: Hash) {
    forall h {:trigger Sound(bs, bs[h])} :: h in bs && h != g ==> Sound(bs, bs[h])
  }

  // ---------- The invariant ----------

  predicate NodeMatches(n: ChainNode, b: Block) {
    n.parent == b.parent && n.depth == b.depth && n.weight == b.weight && n.hash == b.hash
  }

  ghost predicate NoDuplicates(s: seq<Hash>) {
    forall i, j :: 0 <= i < j < |s| ==> s[i] != s[j]
  }

  /** cs lists the blocks whose parent is p, each once. */
  ghost predicate ListsChildren(bs: Blocks, g: Hash, p: Hash, cs: seq<Hash>) {
    && NoDuplicates(cs)
    && (forall c :: c in cs <==> IsChild(bs, g, p, c))
  }

  /** The chain node n mirrors the block stored at h and lists its children. */
  ghost predicate NodeOk(bs: Blocks, g: Hash, h: Hash, n: ChainNode) {
    h in bs && NodeMatches(n, bs[h]) && ListsChildren(bs, g, h, n.children)
  }

  ghost predicate NodesMatch(d: Dag) {
    && d.nodes.Keys == d.blocks.Keys
    && (forall h {:trigger NodeOk(d.blocks, d.genesis, h, d.nodes[h])} ::
          h in d.nodes ==> NodeOk(d.blocks, d.genesis, h, d.nodes[h]))
  }

  /** The main-list flags are exactly the path from genesis to the tip. */
  ghost predicate FlagsMatch(d: Dag)
    requires d.nodes.Keys == d.blocks.Keys
  {
    forall h :: h in d.nodes ==> (d.nodes[h].isMain <==> OnPath(d.blocks, h, d.tip.hash))
  }

  /** The tip is stored, no stored block is better, and the saved tip and state root follow it. */
  ghost predicate TipMatches(d: Dag) {
    && d.tip.hash in d.blocks && d.blocks[d.tip.hash] == d.tip
    && (forall h {:trigger Better(d.blocks[h], d.tip)} :: h in d.blocks ==> !Better(d.blocks[h], d.tip))
    && d.weight == d.tip.weight
    && d.dagTip == Some(d.tip.hash)
    && d.stateRoot == d.tip.state
  }

  ghost predicate Consistent(d: Dag) {
    && Rooted(d.blocks, d.genesis)
    && AllSound(d.blocks, d.genesis)
    && d.blocks[d.genesis].uncles == [] && d.blocks[d.genesis].parent == Null
    && NodesMatch(d)
    && FlagsMatch(d)
    && TipMatches(d)
  }

  /** The engine as created on an empty database. */
  function Initial(genesis: Block): Dag {
    Dag(genesis.hash, map[genesis.hash := genesis],
        map[genesis.hash := NewChainNode(genesis).(isMain := true)],
        map[], Some(genesis.hash), genesis, genesis.weight, genesis.state)
  }

  // ---------- Transactions ----------

  datatype Status = Found(block: Block) | NotFound | NotApplied | Corrupt

  /** Where the main list finalised a transaction. */
  function TransactionStatus(d: Dag, tx: Hash): Status {
    if tx !in d.txIndex then NotFound
    else
      var h := d.txIndex[tx];
      if h !in d.nodes then Corrupt
      else if !d.nodes[h].isMain then NotApplied
      else if h !in d.blocks then Corrupt
      else Found(d.blocks[h])
  }

  function Register(index: map<Hash, Hash>, txs: seq<Hash>, h: Hash): map<Hash, Hash> {
    map tx | tx in index.Keys + (set t | t in txs) :: if tx in txs then h else index[tx]
  }

  /** Registers the transactions of h and of its ancestors, up to the first one that is main-list. */
  function RegisterUp(bs: Blocks, nodes: map<Hash, ChainNode>, index: map<Hash, Hash>, h: Hash, n: nat): map<Hash, Hash>
    decreases n
  {
    if h !in bs || (h in nodes && nodes[h].isMain) then index
    else
      var index' := Register(index, bs[h].txs, h);
      if n == 0 then index' else RegisterUp(bs, nodes, index', bs[h].parent, n - 1)
  }

  /**
    In generations: u may be an uncle of a child of p exactly if neither is an ancestor of the other and
    going up at most five generations from each leads to the same block.
  */
  lemma UncleGenerations(bs: Blocks, g: Hash, p: Hash, u: Hash)
    requires Rooted(bs, g)
    ensures UncleOk(bs, p, u) <==>
      && p in bs && u in bs && !OnPath(bs, p, u) && !OnPath(bs, u, p)
      && exists a: nat, b: nat :: MeetAfter(bs, p, u, a, b) && a <= 5 && b <= 5
  {
    if UncleOk(bs, p, u) {
      var c :| OnPath(bs, c, p) && OnPath(bs, c, u)
               && bs[p].depth - bs[c].depth <= MAX_UNCLE_DISTANCE && bs[u].depth - bs[c].depth <= MAX_UNCLE_DISTANCE;
      assert MeetAfter(bs, p, u, bs[p].depth - bs[c].depth, bs[u].depth - bs[c].depth);
    }
    if p in bs && u in bs && exists a: nat, b: nat :: MeetAfter(bs, p, u, a, b) && a <= 5 && b <= 5 {
      var a: nat, b: nat :| MeetAfter(bs, p, u, a, b) && a <= 5 && b <= 5;
      UpStored(bs, g, p, a);
      UpStored(bs, g, u, b);
      UpOnPath(bs, g, p, a);
      UpOnPath(bs, g, u, b);
      assert CommonWithin(bs, p, u, MAX_UNCLE_DISTANCE);
    }
  }

  /** Going up a generations from p and b from u leads to the same block. */
  ghost predicate MeetAfter(bs: Blocks, p: Hash, u: Hash, a: nat, b: nat)
    requires p in bs && u in bs
  {
    a <= bs[p].depth && b <= bs[u].depth && Up(bs, p, a) == Up(bs, u, b)
  }

  // ---------- Inserting a validated block ----------

  datatype Outcome = Accepted | DuplicateBlock | DuplicateTx | StateMissing

  predicate CarriesFinalised(d: Dag, b: Block) {
    exists tx :: tx in b.txs && TransactionStatus(d, tx).Found?
  }

  /** The chain nodes once b hangs in its parent's child list (b's own node is not yet stored). */
  function Attached(d: Dag, b: Block): map<Hash, ChainNode>
    requires b.parent in d.nodes
  {
    var p := d.nodes[b.parent];
    d.nodes[b.parent := p.(children := p.children + [b.hash])]
  }

  predicate Wins(d: Dag, b: Block) {
    BetterRank(b.weight, Numeric(b.hash), d.weight, Numeric(d.tip.hash))
  }

  /** The nodes with the main-list flags laid along the path to h. */
  function Flagged(nodes: map<Hash, ChainNode>, bs: Blocks, h: Hash): map<Hash, ChainNode> {
    map k | k in nodes :: nodes[k].(isMain := OnPath(bs, k, h))
  }

  /** The DAG with b stored as a side block. */
  function Sidelined(d: Dag, b: Block): Dag
    requires b.parent in d.nodes
  {
    d.(blocks := d.blocks[b.hash := b], nodes := Attached(d, b)[b.hash := NewChainNode(b)])
  }

  /** The DAG with b as its new tip. */
  function Promoted(d: Dag, b: Block): Dag
    requires b.parent in d.nodes
  {
    var bs := d.blocks[b.hash := b];
    d.(blocks := bs,
       nodes := Flagged(Attached(d, b)[b.hash := NewChainNode(b)], bs, b.hash),
       txIndex := RegisterUp(bs, d.nodes, d.txIndex, b.hash, b.depth),
       tip := b, weight := b.weight, dagTip := Some(b.hash), stateRoot := b.state)
  }

  /** What is left behind when b wins but its state root cannot be rebased to. */
  function Stranded(d: Dag, b: Block): Dag
    requires b.parent in d.nodes
  {
    d.(blocks := d.blocks[b.hash := b], nodes := Attached(d, b), tip := b, weight := b.weight, dagTip := Some(b.hash))
  }

  /** What adding a validated block does. `rebasable` holds the state roots the trie can move to. */
  function Insert(d: Dag, b: Block, rebasable: set<Hash>): (Dag, Outcome)
    requires b.parent in d.nodes
  {
    if b.hash in d.nodes then (d, DuplicateBlock)
    else if CarriesFinalised(d, b) then (d, DuplicateTx)
    else if !Wins(d, b) then (Sidelined(d, b), Accepted)
    else if b.state in rebasable then (Promoted(d, b), Accepted)
    else (Stranded(d, b), StateMissing)
  }

  // ---------- Validation is stable under later blocks ----------

  lemma UncleOkExtends(bs: Blocks, bs': Blocks, g: Hash, p: Hash, u: Hash)
    requires Rooted(bs, g) && Rooted(bs', g) && Extends(bs, bs')
    requires UncleOk(bs, p, u)
    ensures UncleOk(bs', p, u)
  {
    OnPathExtends(bs, bs', g, u, p);
    OnPathExtends(bs, bs', g, p, u);
    var c :| OnPath(bs, c, p) && OnPath(bs, c, u)
             && bs[p].depth - bs[c].depth <= MAX_UNCLE_DISTANCE && bs[u].depth - bs[c].depth <= MAX_UNCLE_DISTANCE;
    OnPathExtends(bs, bs', g, c, p);
    OnPathExtends(bs, bs', g, c, u);
  }

  /** A block that validates keeps validating after any later blocks. */
  lemma SoundExtends(bs: Blocks, bs': Blocks, g: Hash, b: Block)
    requires Rooted(bs, g) && Rooted(bs', g) && Extends(bs, bs')
    requires Sound(bs, b)
    ensures Sound(bs', b)
  {
    forall u | u in b.uncles
      ensures UncleOk(bs', b.parent, u)
    {
      UncleOkExtends(bs, bs', g, b.parent, u);
    }
  }

  lemma AllSoundAdd(bs: Blocks, g: Hash, b: Block)
    requires Rooted(bs, g) && AllSound(bs, g) && b.hash !in bs && Sound(bs, b)
    ensures Rooted(bs[b.hash := b], g) && AllSound(bs[b.hash := b], g)
  {
    var bs' := bs[b.hash := b];
    RootedAdd(bs, g, b);
    forall h | h in bs' && h != g
      ensures Sound(bs', bs'[h])
    {
      SoundExtends(bs, bs', g, bs'[h]);
    }
  }

  // ---------- Insert keeps the invariant ----------

  lemma InitialConsistent(genesis: Block)
    requires genesis.depth == 0 && genesis.uncles == [] && genesis.parent == Null
    ensures Consistent(Initial(genesis))
  {
    var d := Initial(genesis);
    assert NodeOk(d.blocks, d.genesis, genesis.hash, d.nodes[genesis.hash]);
  }

  /** The new block joins its parent's child list and no other. */
  lemma ListsChildrenOld(bs: Blocks, g: Hash, p: Hash, cs: seq<Hash>, b: Block)
    requires Rooted(bs, g) && HangsBelow(bs, b) && b.hash !in bs
    requires p in bs && ListsChildren(bs, g, p, cs)
    ensures ListsChildren(bs[b.hash := b], g, p, if p == b.parent then cs + [b.hash] else cs)
  {
    assert b.hash !in cs;
  }

  lemma ListsChildrenNew(bs: Blocks, g: Hash, b: Block)
    requires Rooted(bs, g) && HangsBelow(bs, b) && b.hash !in bs
    ensures ListsChildren(bs[b.hash := b], g, b.hash, [])
  {
    var bs' := bs[b.hash := b];
    forall c | c in bs' && c != g
      ensures bs'[c].parent != b.hash
    {
      if c != b.hash {
        ParentStored(bs, g, c);
      }
    }
  }

  /** The node at h once b's node is stored, flags aside. */
  predicate PlacedAs(d: Dag, b: Block, h: Hash, n: ChainNode)
    requires b.parent in d.nodes && h in d.nodes.Keys + {b.hash}
  {
    n.(isMain := false) == Attached(d, b)[b.hash := NewChainNode(b)][h].(isMain := false)
  }

  /** A node placed that way mirrors its block. */
  lemma PlacedOk(d: Dag, b: Block, h: Hash, n: ChainNode)
    requires Rooted(d.blocks, d.genesis) && NodesMatch(d) && HangsBelow(d.blocks, b) && b.hash !in d.nodes
    requires h in d.nodes.Keys + {b.hash} && PlacedAs(d, b, h, n)
    ensures NodeOk(d.blocks[b.hash := b], d.genesis, h, n)
  {
    if h == b.hash {
      ListsChildrenNew(d.blocks, d.genesis, b);
    } else {
      assert NodeOk(d.blocks, d.genesis, h, d.nodes[h]);
      ListsChildrenOld(d.blocks, d.genesis, h, d.nodes[h].children, b);
    }
  }

  /** With b's node in place, whatever the flags, nodes and blocks still match. */
  lemma NodesMatchInsert(d: Dag, b: Block, d': Dag)
    requires Rooted(d.blocks, d.genesis) && NodesMatch(d) && HangsBelow(d.blocks, b) && b.hash !in d.nodes
    requires d'.genesis == d.genesis && d'.blocks == d.blocks[b.hash := b]
    requires d'.nodes.Keys == d.nodes.Keys + {b.hash}
    requires forall h {:trigger PlacedAs(d, b, h, d'.nodes[h])} :: h in d'.nodes ==> PlacedAs(d, b, h, d'.nodes[h])
    ensures NodesMatch(d')
  {
    forall h | h in d'.nodes
      ensures NodeOk(d'.blocks, d'.genesis, h, d'.nodes[h])
    {
      PlacedOk(d, b, h, d'.nodes[h]);
    }
  }

  /** The block is new and hangs in the tree. */
  ghost predicate Fits(d: Dag, b: Block) {
    Consistent(d) && Sound(d.blocks, b) && b.hash !in d.blocks
  }

  /** If b does not beat the tip the tip stays best; if it does, b is best. */
  lemma BestAfter(d: Dag, b: Block, bs: Blocks, tip: Block)
    requires TipMatches(d) && bs == d.blocks[b.hash := b] && tip == if Wins(d, b) then b else d.tip
    ensures forall h {:trigger Better(bs[h], tip)} :: h in bs ==> !Better(bs[h], tip)
  {
    forall h | h in bs
      ensures !Better(bs[h], tip)
    {
      if h != b.hash {
        assert !Better(d.blocks[h], d.tip);
      }
    }
  }

  lemma SidelinedNodes(d: Dag, b: Block)
    requires Fits(d, b)
    ensures NodesMatch(Sidelined(d, b)) && FlagsMatch(Sidelined(d, b))
  {
    var d' := Sidelined(d, b);
    RootedAdd(d.blocks, d.genesis, b);
    NodesMatchInsert(d, b, d');
    forall h | h in d'.nodes
      ensures d'.nodes[h].isMain <==> OnPath(d'.blocks, h, d'.tip.hash)
    {
      OnPathExtends(d.blocks, d'.blocks, d.genesis, h, d.tip.hash);
    }
  }

  lemma PromotedNodes(d: Dag, b: Block)
    requires Fits(d, b)
    ensures NodesMatch(Promoted(d, b)) && FlagsMatch(Promoted(d, b))
  {
    NodesMatchInsert(d, b, Promoted(d, b));
  }

  lemma SidelinedConsistent(d: Dag, b: Block)
    requires Fits(d, b) && !Wins(d, b)
    ensures Consistent(Sidelined(d, b))
  {
    AllSoundAdd(d.blocks, d.genesis, b);
    SidelinedNodes(d, b);
    BestAfter(d, b, d.blocks[b.hash := b], d.tip);
  }

  lemma PromotedConsistent(d: Dag, b: Block)
    requires Fits(d, b) && Wins(d, b)
    ensures Consistent(Promoted(d, b))
  {
    AllSoundAdd(d.blocks, d.genesis, b);
    PromotedNodes(d, b);
    BestAfter(d, b, d.blocks[b.hash := b], b);
  }

  /** Inserting b does not need its state root, or finds it. */
  predicate FindsState(d: Dag, b: Block, rebasable: set<Hash>) {
    b.hash in d.nodes || CarriesFinalised(d, b) || !Wins(d, b) || b.state in rebasable
  }

  /**
    The invariant survives exactly if the block is known, carries a finalised transaction, does not
    beat the tip, or has a state root that can be rebased to. In the one case left the tip has moved
    although its chain node is not stored.
  */
  lemma InsertConsistent(d: Dag, b: Block, rebasable: set<Hash>)
    requires Consistent(d) && Sound(d.blocks, b)
    ensures Consistent(Insert(d, b, rebasable).0) <==> FindsState(d, b, rebasable)
    ensures Insert(d, b, rebasable).1 == StateMissing <==> !FindsState(d, b, rebasable)
  {
    if b.hash in d.nodes || CarriesFinalised(d, b) {
    } else if !Wins(d, b) {
      SidelinedConsistent(d, b);
    } else if b.state in rebasable {
      PromotedConsistent(d, b);
    } else {
      assert b.hash in Stranded(d, b).blocks.Keys && b.hash !in Stranded(d, b).nodes.Keys;
    }
  }

  // ---------- Which block is the tip ----------

  /** No stored block is heavier than the tip, and none of its weight has a lower number. */
  lemma TipIsBest(d: Dag, h: Hash)
    requires Consistent(d) && h in d.blocks
    ensures || d.blocks[h].weight < d.tip.weight
            || (d.blocks[h].weight == d.tip.weight && Numeric(d.tip.hash) <= Numeric(h))
  {
    assert !Better(d.blocks[h], d.tip);
  }

  /** A new block becomes the tip exactly if it is heavier, or as heavy with a lower number; otherwise the tip stays. */
  lemma InsertMovesTip(d: Dag, b: Block, rebasable: set<Hash>)
    requires Consistent(d) && Sound(d.blocks, b)
    ensures var (d', outcome) := Insert(d, b, rebasable);
      if outcome.DuplicateBlock? || outcome.DuplicateTx? then d' == d
      else if b.weight > d.tip.weight || (b.weight == d.tip.weight && Numeric(b.hash) < Numeric(d.tip.hash))
      then d'.tip == b && d'.weight == b.weight && d'.dagTip == Some(b.hash)
      else d'.tip == d.tip && d'.weight == d.weight && d'.dagTip == d.dagTip && outcome == Accepted
  {
  }

  lemma {:induction false} ByteSumChange(s: Bytes, i: nat, b: Byte)
    requires i < |s|
    ensures ByteSum(s[i := b]) + s[i] == ByteSum(s) + b
    decreases s
  {
    if i == 0 {
      assert s[0 := b][1..] == s[1..];
    } else {
      ByteSumChange(s[1..], i - 1, b);
      assert s[i := b][1..] == s[1..][i - 1 := b];
    }
  }

  lemma {:induction false} ByteSumZeros(s: Bytes)
    requires forall i :: 0 <= i < |s| ==> s[i] == 0
    ensures ByteSum(s) == 0
  {
    if s != [] {
      ByteSumZeros(s[1..]);
    }
  }

  /**
    The number counts each of the 64 bytes once: it is 0 when all are, and changing one changes it by
    the difference.
  */
  lemma NumericCountsBytes(h: Hash, k: Hash, i: nat)
    requires i < HASH_LENGTH
    ensures (forall j :: 0 <= j < HASH_LENGTH ==> RawBytes(h)[j] == 0) ==> Numeric(h) == 0
    ensures RawBytes(k) == RawBytes(h)[i := RawBytes(k)[i]] ==>
      Numeric(k) + RawBytes(h)[i] == Numeric(h) + RawBytes(k)[i]
  {
    if forall j :: 0 <= j < HASH_LENGTH ==> RawBytes(h)[j] == 0 {
      ByteSumZeros(RawBytes(h));
    }
    ByteSumChange(RawBytes(h), i, RawBytes(k)[i]);
  }

  // ---------- Finding the main-list child ----------

  /** c is a stored, flagged child in n's list other than the one to skip. */
  predicate FlaggedChild(nodes: map<Hash, ChainNode>, n: ChainNode, skip: Option<Hash>, c: Hash) {
    c in n.children && c in nodes && nodes[c].isMain && skip != Some(nodes[c].hash)
  }

  /** next is what looking for a flagged child of n finds. */
  ghost predicate FoundChild(nodes: map<Hash, ChainNode>, n: ChainNode, skip: Option<Hash>, next: Option<ChainNode>) {
    && (next.None? ==> forall c :: !FlaggedChild(nodes, n, skip, c))
    && (next.Some? ==> exists c :: FlaggedChild(nodes, n, skip, c) && next.value == nodes[c])
  }

  /** The first flagged child of a node, if there is one. */
  method FindMainListChild(nodes: map<Hash, ChainNode>, n: ChainNode, skip: Option<Hash>)
    returns (child: Option<ChainNode>)
    ensures FoundChild(nodes, n, skip, child)
  {
    for i := 0 to |n.children|
      invariant forall j :: 0 <= j < i ==> !FlaggedChild(nodes, n, skip, n.children[j])
    {
      var c := n.children[i];
      if c in nodes && nodes[c].isMain && (skip.None? || skip.value != nodes[c].hash) {
        assert FlaggedChild(nodes, n, skip, c);
        return Some(nodes[c]);
      }
    }
    return None;
  }
}
