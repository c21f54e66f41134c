/**
  The consensus engine: its tables, its fields and its world state, updated in place. Adding a
  validated block runs the two reorganisation walks, and is proved to do exactly what
  `ForkChoice.Insert` says. The blocks handed in have their own world states on the same database.
*/
module Consensus {
  import opened Hashing
  import opened Ancestry
  import opened ForkChoice
  import opened Reorganise
  import opened Runs
  import opened Uncles
  import opened Trie
  import opened NodeStore
  import opened Persistence
  import opened WorldState
  import opened Flush
  import opened Overlay
  import opened FixedBytes
  import opened Mining
  import opened Commitments

  /** Every chain node mirrors its block. */
  ghost predicate Mirrors(bs: Blocks, g: Hash, nodes: map<Hash, ChainNode>) {
    forall h {:trigger NodeOk(bs, g, h, nodes[h])} :: h in nodes ==> NodeOk(bs, g, h, nodes[h])
  }

  /** nodes are n0 with only the flags changed. */
  ghost predicate Reflagged(n0: map<Hash, ChainNode>, nodes: map<Hash, ChainNode>) {
    nodes.Keys == n0.Keys && forall h :: h in n0 ==> nodes[h] == n0[h].(isMain := nodes[h].isMain)
  }

  lemma ReflaggedMirrors(bs: Blocks, g: Hash, n0: map<Hash, ChainNode>, nodes: map<Hash, ChainNode>)
    requires Mirrors(bs, g, n0) && Reflagged(n0, nodes)
    ensures Mirrors(bs, g, nodes)
  {
    forall h | h in nodes
      ensures NodeOk(bs, g, h, nodes[h])
    {
      assert NodeOk(bs, g, h, n0[h]);
    }
  }

  lemma RegisterNext(index: map<Hash, Hash>, txs: seq<Hash>, tx: Hash, h: Hash)
    ensures Register(index, txs + [tx], h) == Register(index, txs, h)[tx := h]
  {
    forall t ensures t in txs + [tx] <==> t in txs || t == tx {}
  }

  /** The upward walk stands at the block of `at`, with the flags set below it along top's path. */
  ghost predicate WalkingUp(bs: Blocks, g: Hash, n0: map<Hash, ChainNode>, was: Hash, top: Hash,
                            nodes: map<Hash, ChainNode>, at: ChainNode, below: Hash)
  {
    && Reflagged(n0, nodes)
    && at.hash in nodes && at == nodes[at.hash]
    && (forall h {:trigger nodes[h]} :: h in nodes ==> (nodes[h].isMain <==> UpFlag(bs, was, top, at.hash, h)))
    && OnPath(bs, at.hash, top)
    && IsChild(bs, g, at.hash, below) && OnPath(bs, below, top) && !OnPath(bs, below, was)
  }

  /** What the walks may rely on: the flags of n0 are the path to `was`, and only top's node is missing. */
  ghost predicate Walkable(bs: Blocks, g: Hash, n0: map<Hash, ChainNode>, was: Hash, top: Hash) {
    && Rooted(bs, g) && Mirrors(bs, g, n0)
    && top in bs && top != g && n0.Keys == bs.Keys - {top}
    && was in n0 && !OnPath(bs, top, was)
    && (forall h {:trigger n0[h]} :: h in n0 ==> (n0[h].isMain <==> OnPath(bs, h, was)))
  }

  lemma WalkUpStarts(bs: Blocks, g: Hash, n0: map<Hash, ChainNode>, was: Hash, top: Hash)
    requires Walkable(bs, g, n0, was, top)
    ensures bs[top].parent in n0 && WalkingUp(bs, g, n0, was, top, n0, n0[bs[top].parent], top)
    ensures n0[bs[top].parent].hash == bs[top].parent
  {
    var p := bs[top].parent;
    ParentStored(bs, g, top);
    OnPathParent(bs, g, p, top);
    assert NodeOk(bs, g, p, n0[p]);
  }

  lemma WalkUpStep(bs: Blocks, g: Hash, n0: map<Hash, ChainNode>, was: Hash, top: Hash,
                   nodes: map<Hash, ChainNode>, at: ChainNode, below: Hash, index: map<Hash, Hash>)
    requires Walkable(bs, g, n0, was, top)
    requires WalkingUp(bs, g, n0, was, top, nodes, at, below) && !at.isMain
    ensures !n0[at.hash].isMain && at.parent == bs[at.hash].parent && at.parent in nodes
    ensures nodes[at.parent].hash == at.parent && bs[at.hash].depth == bs[at.parent].depth + 1
    ensures RegisterUp(bs, n0, index, at.hash, bs[at.hash].depth)
            == RegisterUp(bs, n0, Register(index, bs[at.hash].txs, at.hash), at.parent, bs[at.parent].depth)
    ensures var nodes' := nodes[at.hash := at.(isMain := true)];
      WalkingUp(bs, g, n0, was, top, nodes', nodes'[at.parent], at.hash)
  {
    var cur := at.hash;
    GenesisOnPath(bs, g, was);
    UpStep(bs, g, was, top, cur);
    ParentStored(bs, g, cur);
    assert NodeOk(bs, g, cur, n0[cur]);
    assert NodeOk(bs, g, at.parent, n0[at.parent]);
  }

  function HashAt(n: Option<ChainNode>): Option<Hash> {
    if n.None? then None else Some(n.value.hash)
  }

  /** The downward walk stands at the block of `at` on the old path, or has finished. */
  ghost predicate WalkingDown(bs: Blocks, n1: map<Hash, ChainNode>, was: Hash, top: Hash,
                              nodes: map<Hash, ChainNode>, at: Option<ChainNode>)
  {
    && Reflagged(n1, nodes)
    && (at.Some? ==> at.value.hash in nodes && nodes[at.value.hash] == at.value
                     && OnPath(bs, at.value.hash, was) && !OnPath(bs, at.value.hash, top))
    && (forall h {:trigger nodes[h]} :: h in nodes ==> (nodes[h].isMain <==> DownFlag(bs, was, top, HashAt(at), h)))
  }

  /** n1 holds a node for every block, flagged along both paths. */
  ghost predicate BothFlagged(bs: Blocks, g: Hash, n1: map<Hash, ChainNode>, was: Hash, top: Hash) {
    && Rooted(bs, g) && Mirrors(bs, g, n1)
    && top in bs && was in bs && n1.Keys == bs.Keys
    && (forall h {:trigger n1[h]} :: h in n1 ==> (n1[h].isMain <==> OnPath(bs, h, was) || OnPath(bs, h, top)))
  }

  /** In nodes that mirror the blocks, flagged children are the children whose flag is set. */
  lemma FlaggedChildIs(bs: Blocks, g: Hash, nodes: map<Hash, ChainNode>, p: Hash, skip: Option<Hash>, c: Hash)
    requires Mirrors(bs, g, nodes) && nodes.Keys == bs.Keys && p in nodes
    requires Rooted(bs, g)
    ensures FlaggedChild(nodes, nodes[p], skip, c) <==> IsChild(bs, g, p, c) && nodes[c].isMain && skip != Some(c)
    ensures c in nodes ==> nodes[c].hash == c
  {
    assert NodeOk(bs, g, p, nodes[p]);
    if c in nodes {
      assert NodeOk(bs, g, c, nodes[c]);
    }
  }

  lemma WalkDownStarts(bs: Blocks, g: Hash, n1: map<Hash, ChainNode>, was: Hash, top: Hash,
                       fork: Hash, below: Hash, next: Option<ChainNode>)
    requires BothFlagged(bs, g, n1, was, top) && fork in n1 && OnPath(bs, fork, was)
    requires IsChild(bs, g, fork, below) && OnPath(bs, below, top) && !OnPath(bs, below, was)
    requires FoundChild(n1, n1[fork], Some(below), next)
    ensures WalkingDown(bs, n1, was, top, n1, next)
  {
    forall c
      ensures FlaggedChild(n1, n1[fork], Some(below), c) <==> IsChild(bs, g, fork, c) && n1[c].isMain && c != below
    {
      FlaggedChildIs(bs, g, n1, fork, Some(below), c);
    }
    if next.Some? {
      var c :| FlaggedChild(n1, n1[fork], Some(below), c) && next.value == n1[c];
      FlaggedChildIs(bs, g, n1, fork, Some(below), c);
    }
    DownStart(bs, g, was, top, fork, below, HashAt(next));
  }

  lemma WalkDownStep(bs: Blocks, g: Hash, n1: map<Hash, ChainNode>, was: Hash, top: Hash,
                     nodes: map<Hash, ChainNode>, at: ChainNode, next: Option<ChainNode>)
    requires BothFlagged(bs, g, n1, was, top) && WalkingDown(bs, n1, was, top, nodes, Some(at))
    requires FoundChild(nodes[at.hash := at.(isMain := false)], at.(isMain := false), None, next)
    ensures WalkingDown(bs, n1, was, top, nodes[at.hash := at.(isMain := false)], next)
    ensures next.Some? ==> bs[next.value.hash].depth == bs[at.hash].depth + 1
  {
    var nodes' := nodes[at.hash := at.(isMain := false)];
    var cur := at.hash;
    ReflaggedMirrors(bs, g, n1, nodes');
    forall c ensures FlaggedChild(nodes', nodes'[cur], None, c) <==> IsChild(bs, g, cur, c) && nodes[c].isMain {
      FlaggedChildIs(bs, g, nodes', cur, None, c);
      if IsChild(bs, g, cur, c) {
        ParentStored(bs, g, c);
      }
    }
    if next.Some? {
      var c :| FlaggedChild(nodes', nodes'[cur], None, c) && next.value == nodes'[c];
      FlaggedChildIs(bs, g, nodes', cur, None, c);
    }
    DownNext(bs, g, was, top, cur, HashAt(next));
  }

  /** Once the new block hangs in its parent's list, the upward walk can start. */
  lemma AttachedReady(d: Dag, b: Block)
    requires Consistent(d) && HangsBelow(d.blocks, b) && b.hash !in d.blocks
    ensures Walkable(d.blocks[b.hash := b], d.genesis, Attached(d, b), d.tip.hash, b.hash)
  {
    var bs, n0 := d.blocks[b.hash := b], Attached(d, b);
    RootedAdd(d.blocks, d.genesis, b);
    forall h | h in n0
      ensures NodeOk(bs, d.genesis, h, n0[h])
      ensures n0[h].isMain <==> OnPath(bs, h, d.tip.hash)
    {
      assert NodeOk(d.blocks, d.genesis, h, d.nodes[h]);
      ListsChildrenOld(d.blocks, d.genesis, h, d.nodes[h].children, b);
      OnPathExtends(d.blocks, bs, d.genesis, h, d.tip.hash);
    }
    OnPathExtends(d.blocks, bs, d.genesis, b.hash, d.tip.hash);
  }

  /** Registration only looks at the flags. */
  lemma {:induction false} RegisterUpSame(bs: Blocks, n: map<Hash, ChainNode>, n': map<Hash, ChainNode>,
                                          index: map<Hash, Hash>, h: Hash, k: nat)
    requires n.Keys == n'.Keys && forall a :: a in n ==> n[a].isMain == n'[a].isMain
    ensures RegisterUp(bs, n, index, h, k) == RegisterUp(bs, n', index, h, k)
    decreases k
  {
    if h in bs && !(h in n && n[h].isMain) && k > 0 {
      RegisterUpSame(bs, n, n', Register(index, bs[h].txs, h), bs[h].parent, k - 1);
    }
  }

  lemma RegisterUpFromTop(d: Dag, b: Block)
    requires b.parent in d.nodes && b.hash !in d.nodes && b.depth > 0
    ensures RegisterUp(d.blocks[b.hash := b], d.nodes, d.txIndex, b.hash, b.depth)
            == RegisterUp(d.blocks[b.hash := b], Attached(d, b), Register(d.txIndex, b.txs, b.hash),
                          b.parent, b.depth - 1)
  {
    RegisterUpSame(d.blocks[b.hash := b], d.nodes, Attached(d, b), Register(d.txIndex, b.txs, b.hash),
                   b.parent, b.depth - 1);
  }

  /** Everything the reorganisation needs, and what its transaction registration amounts to. */
  lemma InsertReady(d: Dag, b: Block)
    requires Consistent(d) && HangsBelow(d.blocks, b) && b.hash !in d.blocks
    ensures var bs := d.blocks[b.hash := b];
      && Walkable(bs, d.genesis, Attached(d, b), d.tip.hash, b.hash)
      && ListsChildren(bs, d.genesis, b.hash, [])
      && RegisterUp(bs, d.nodes, d.txIndex, b.hash, b.depth)
         == RegisterUp(bs, Attached(d, b), Register(d.txIndex, b.txs, b.hash), b.parent, b.depth - 1)
  {
    AttachedReady(d, b);
    ListsChildrenNew(d.blocks, d.genesis, b);
    RegisterUpFromTop(d, b);
  }

  /** The downward walk can start at the fork: below it begins top's branch, which is not on the old path. */
  ghost predicate AtFork(bs: Blocks, g: Hash, n1: map<Hash, ChainNode>, was: Hash, top: Hash, fork: ChainNode,
                         below: Hash) {
    && BothFlagged(bs, g, n1, was, top)
    && fork.hash in n1 && fork == n1[fork.hash] && OnPath(bs, fork.hash, was)
    && IsChild(bs, g, fork.hash, below) && OnPath(bs, below, top) && !OnPath(bs, below, was)
  }

  /** With the new block's node stored, the nodes mirror the blocks and carry both paths. */
  lemma UpThenStored(bs: Blocks, g: Hash, n0: map<Hash, ChainNode>, was: Hash, b: Block,
                     nodes: map<Hash, ChainNode>, fork: ChainNode, below: Hash, n1: map<Hash, ChainNode>)
    requires Walkable(bs, g, n0, was, b.hash) && bs[b.hash] == b && ListsChildren(bs, g, b.hash, [])
    requires WalkingUp(bs, g, n0, was, b.hash, nodes, fork, below) && fork.isMain
    requires n1 == nodes[b.hash := NewChainNode(b).(isMain := true)]
    ensures AtFork(bs, g, n1, was, b.hash, fork, below)
    ensures Reflagged(n0, nodes) && b.hash !in n0
  {
    UpDone(bs, was, b.hash, fork.hash);
    ReflaggedMirrors(bs, g, n0, nodes);
    forall h | h in n1
      ensures NodeOk(bs, g, h, n1[h])
    {
      if h != b.hash {
        assert NodeOk(bs, g, h, nodes[h]);
      }
    }
  }

  /** Nodes that differ from n0 and top's node only in flags laid along top's path are what Flagged says. */
  lemma FlaggedIs(bs: Blocks, n0: map<Hash, ChainNode>, b: Block,
                  up: map<Hash, ChainNode>, nodes: map<Hash, ChainNode>)
    requires b.hash !in n0 && Reflagged(n0, up)
    requires Reflagged(up[b.hash := NewChainNode(b).(isMain := true)], nodes)
    requires forall h :: h in nodes ==> (nodes[h].isMain <==> OnPath(bs, h, b.hash))
    ensures nodes == Flagged(n0[b.hash := NewChainNode(b)], bs, b.hash)
  {
    var expected := Flagged(n0[b.hash := NewChainNode(b)], bs, b.hash);
    forall h | h in nodes
      ensures h in expected && nodes[h] == expected[h]
    {
    }
  }

  /** Only whether the replayed root is rebasable matters to a submission. */
  lemma SubmitRoots(d: Dag, s: Submission, rebasable: set<Hash>)
    requires d.nodes.Keys == d.blocks.Keys && (s.replayed in s.rebasable <==> s.replayed in rebasable)
    ensures Submit(d, s) == Submit(d, s.(rebasable := rebasable))
  {
  }

  /** What is kept does not depend on where the world states stand. */
  lemma KeepsRootsViews(w: World, w': World, v: World, v': World, cleaned: set<Hash>)
    requires KeepsRoots(w, w', cleaned) && v.trees == w.trees && v.roots == w.roots && v'.trees == w'.trees
    requires v'.roots == w'.roots
    ensures KeepsRoots(v, v', cleaned)
  {
    forall t | Rebasable(v, t) && HashOf(t) !in cleaned ensures Rebasable(v', t) {
      assert Rebasable(w, t) && Rebasable(w', t);
    }
    forall t | Readable(v, t) ensures Readable(v', t) {
      assert Readable(w, t) && Readable(w', t);
    }
  }

  /** A flush seen by the block's own world state is an event of the database. */
  lemma FlushHappens(d: Dag, e: Event, w: World, w': World, v: World, v': World, nodes: map<Hash, Rec>)
    requires d.nodes.Keys == d.blocks.Keys && !e.submitted && ContentAddressed(nodes, v'.trees)
    requires v.trees == w.trees && v.roots == w.roots && v'.trees == w'.trees && v'.roots == w'.roots
    requires IsFlush(e.start, e.writes, e.end) && HashOf(e.start) !in e.cleaned && HashOf(e.end) !in e.cleaned
    requires (forall h :: h in e.cleaned ==> Passes(e.start, e.writes, h)) && KeepsRoots(w, w', e.cleaned)
    requires (Rebasable(w, e.start) ==> e.ready) && (Rebasable(w', e.end) <==> e.ready)
    ensures Happens(d, v, e, d, v') && (e.ready <==> HashOf(e.end) in Roots(v'))
  {
    StoreAddressed(nodes, v'.trees, v');
    KeepsRootsViews(w, w', v, v', e.cleaned);
    RootsOfTree(v', e.end);
  }

  /**
    A block was submitted: the engine's new state and the verdict are those of the submission. The
    invariant holds exactly if that was safe, and always if the block's root was ready. A block that
    validates changes the database as the event says, any other not at all.
  */
  ghost predicate Submitted(d: Dag, w: World, e: Event, d': Dag, w': World, v: Verdict) {
    && d.nodes.Keys == d.blocks.Keys && (d', v) == Submit(d, Arrived(e))
    && (Consistent(d') <==> SafeToSubmit(d, Arrived(e)))
    && (e.ready ==> Consistent(d') && v != Checked(StateMissing))
    && (if Validate(d.blocks, e.block).Some? then w' == w else Happens(d, w, e, d', w'))
  }

  /** A block was not submitted, because it does not validate or no nonce was found for it. */
  ghost predicate NotSubmitted(d: Dag, w: World, e: Event, d': Dag, w': World, v: Verdict) {
    && d.nodes.Keys == d.blocks.Keys && d' == d
    && (if Validate(d.blocks, e.block).Some? then w' == w && v == Validate(d.blocks, e.block).value
        else Happens(d, w, e, d', w') && v == Unhashed)
  }

  lemma EventEnds(d: Dag, w: World, e: Event, d': Dag, w': World, v: Verdict)
    requires Consistent(d) && (d', v) == Submit(d, Arrived(e))
    requires Validate(d.blocks, e.block) == None && Happens(d, w, e, d', w')
    ensures Submitted(d, w, e, d', w', v)
  {
    EventSubmits(d, e);
  }

  /** A block that fails validation is rejected for what it fails. */
  lemma FailedSubmit(d: Dag, w: World, e: Event)
    requires Consistent(d) && Validate(d.blocks, e.block).Some?
    ensures Submitted(d, w, e, d, w, Validate(d.blocks, e.block).value)
  {
    EventSubmits(d, e);
  }

  /** Hashing changes nothing that validation looks at. */
  lemma SameVerdict(bs: Blocks, b: Block, b': Block)
    requires b'.parent == b.parent && b'.depth == b.depth && b'.uncles == b.uncles && b'.weight == b.weight
    ensures Validate(bs, b') == Validate(bs, b)
  {
  }

  /** A submission that reached another state than its own changes nothing but the database. */
  lemma BadStateHappens(d: Dag, w: World, e: Event, w': World)
    requires d.nodes.Keys == d.blocks.Keys && Happens(d, w, e, d, w')
    requires Validate(d.blocks, e.block) == None && HashOf(e.end) != e.block.state
    ensures Submit(d, Arrived(e.(submitted := true))) == (d, BadState)
    ensures Happens(d, w, e.(submitted := true), d, w')
  {
  }

  /** A flush and the insertion after it are one event. */
  lemma SubmitHappens(d: Dag, w: World, e: Event, w1: World, outcome: Outcome, d': Dag, w': World, nodes: map<Hash,
                      Rec>)
    requires d.nodes.Keys == d.blocks.Keys && Happens(d, w, e.(submitted := false), d, w1) && e.submitted
    requires Validate(d.blocks, e.block) == None && HashOf(e.end) == e.block.state
    requires (e.ready <==> HashOf(e.end) in Roots(w1))
    requires (d', outcome) == Insert(d, e.block, Roots(w1)) && KeepsRoots(w1, w', {})
    requires ContentAddressed(nodes, w'.trees)
    ensures Submit(d, Arrived(e)) == (d', Checked(outcome)) && Happens(d, w, e, d', w')
  {
    StoreAddressed(nodes, w'.trees, w');
    KeepsRootsTransitive(w, w1, w', e.cleaned, {});
    assert e.cleaned + {} == e.cleaned;
    SubmitRoots(d, Arrived(e), Roots(w1));
  }

  /** A rebase loses no root, and moves to the root if that can be rebased to. */
  lemma RebaseMoves(w: World, root: Hash, w': World)
    requires Next(w, Op.Rebase(ME, root), w')
    ensures KeepsRoots(w, w', {}) && ME in w'.at
    ensures HashOf(w'.at[ME]) == if root in Roots(w) then root else HashOf(w.at[ME])
    ensures Roots(w) <= Roots(w')
  {
    StepKeepsRoots(w, Op.Rebase(ME, root), w', {});
  }

  lemma NewRoots(w: World, w': World)
    requires Next(w, Op.New(ME), w')
    ensures Roots(w') == Roots(w) + {HashOf(EMPTY)}
  {
  }

  lemma NewThenRebase(w: World, w1: World, root: Hash, w': World)
    requires Next(w, Op.New(ME), w1) && Next(w1, Op.Rebase(ME, root), w')
    ensures KeepsRoots(w, w', {}) && Roots(w1) == Roots(w) + {HashOf(EMPTY)} && Roots(w1) <= Roots(w')
    ensures root in Roots(w1) ==> ME in w'.at && HashOf(w'.at[ME]) == root
  {
    StepKeepsRoots(w, Op.New(ME), w1, {});
    NewRoots(w, w1);
    RebaseMoves(w1, root, w');
    KeepsRootsTransitive(w, w1, w', {}, {});
  }

  /** A new world state on the database, moved to a root if that can be rebased to. */
  method NewStateAt(db: Database, root: Hash) returns (worldState: MptWorldState, ok: bool)
    requires db.Ok()
    modifies db
    ensures fresh(worldState) && worldState.Valid() && worldState.db == db
    ensures KeepsRoots(old(db.View()), db.View(), {}) && Roots(old(db.View())) <= Roots(db.View())
    ensures Addressed(db.View()) && HashOf(EMPTY) in Roots(db.View())
    ensures ok <==> root in Roots(old(db.View())) + {HashOf(EMPTY)}
    ensures ok ==> worldState.rootHash == root && root in Roots(db.View())
  {
    ghost var before := db.View();
    worldState := new MptWorldState(db);
    ghost var created := worldState.View();
    ok := worldState.Rebase(root);
    NewThenRebase(before, created, root, worldState.View());
    KeepsRootsViews(before, worldState.View(), before, db.View(), {});
    StoreAddressed(db.nodes, db.trees, db.View());
  }

  /** A block without hash or writes on a world state of its own. */
  method NewBlock(spec: BlockSpec, isNetworkBlock: bool, worldState: MptWorldState, miners: seq<Bytes>)
    returns (child: MinableBlock)
    requires worldState.Valid()
    ensures fresh(child) && fresh(child.body) && child.Valid() && child.body.worldState == worldState
    ensures child.spec == spec && child.hash.None? && child.pow.None? && child.uncleMiners == miners
    ensures child.isNetworkBlock == isNetworkBlock && child.body.variables == map[]
  {
    var body := new BlockState(worldState);
    child := new MinableBlock(spec, isNetworkBlock, body);
    child.uncleMiners := miners;
  }

  /** A candidate's wire fields, before it has transactions. */
  function CandidateSpec(c: Candidate, state: Hash, ts: U64, tipTime: U64): BlockSpec {
    BlockSpec(c.parent, c.miner, state, [], ts, Minus(ts, Minus(ts, tipTime)),
              c.depth % TWO64, c.weight % TWO64, c.uncles, 0)
  }

  /** 64-bit subtraction. */
  function Minus(x: U64, y: U64): U64 {
    if x >= y then x - y else x - y + TWO64
  }

  /** What a candidate carries as the time since its parent is its parent's time: the difference is taken twice. */
  lemma DeltaIsTipTime(c: Candidate, state: Hash, ts: U64, tipTime: U64)
    ensures CandidateSpec(c, state, ts, tipTime).delta == tipTime
  {
  }

  /** Hashing leaves a block with the hash it had, or with its own; a network block keeps all its fields. */
  ghost predicate HashKept(s: BlockSpec, root: Hash, network: bool, s': BlockSpec, hash: Option<Digest64>,
                           was: Option<Digest64>) {
    (network ==> s' == s) && (hash == was || hash == Some(BlockHash(s', root)))
  }

  /** A local block is hashed with a nonce the rule accepts, exactly if it does not reject all that may be tried. */
  ghost predicate Mines(s: BlockSpec, root: Hash, pow: Option<Approver>, budget: nat, ok: bool, s': BlockSpec,
                        hash: Option<Digest64>) {
    && s' == s.(nonce := s'.nonce, state := root)
    && (ok <==> !AllRejected(s, root, pow, budget)) && (ok ==> HashAccepted(s', root, hash, pow))
  }

  /** A network block's only try succeeds exactly if the rule accepts its hash. */
  ghost predicate PassesCheck(s: BlockSpec, root: Hash, pow: Option<Approver>, budget: nat, ok: bool,
                              hash: Option<Digest64>) {
    && (ok <==> budget > 0 && (pow.None? || pow.value(BlockHash(s, root), s.ts, s.delta)))
    && (ok ==> HashAccepted(s, root, hash, pow))
  }

  /** What hashing a block comes to, by whether it is local or from the network. */
  ghost predicate HashOutcome(s: BlockSpec, root: Hash, pow: Option<Approver>, budget: nat, network: bool,
                              ok: bool, s': BlockSpec, hash: Option<Digest64>, was: Option<Digest64>) {
    && HashKept(s, root, network, s', hash, was) && (was.Some? || (pow.None? && budget > 0) ==> hash.Some?)
    && (if network then PassesCheck(s, root, pow, budget, ok, hash) else Mines(s, root, pow, budget, ok, s', hash))
    && (!ok ==> hash == was)
  }

  lemma Rehashed(s: BlockSpec, root: Hash, pow: Option<Approver>, budget: nat, network: bool,
                 ok: bool, s': BlockSpec, hash: Option<Digest64>, was: Option<Digest64>)
    requires HashingEnds(s, root, pow, budget, network, ok, s', hash, was)
    ensures HashOutcome(s, root, pow, budget, network, ok, s', hash, was)
  {
    if network {
      NetworkHashed(s, root, pow, budget, ok, s', hash, was);
    } else {
      LocalHashed(s, root, pow, budget, ok, s', hash, was);
    }
    if ok {
      HashedIsApproved(s, root, pow, budget, network, ok, s', hash, was);
    }
  }

  class BlockChainConsensus {
    const genesis: Hash
    const state: MptWorldState
    var blocks: Blocks
    var nodes: map<Hash, ChainNode>
    var txIndex: map<Hash, Hash>
    var dagTip: Option<Hash>
    var tip: Block
    var weight: nat

    function View(): Dag
      reads this, state
    {
      Dag(genesis, blocks, nodes, txIndex, dagTip, tip, weight, state.rootHash)
    }

    ghost predicate Valid()
      reads this, state, state.db
    {
      Consistent(View()) && state.Valid()
    }

    constructor (view: Dag, state: MptWorldState)
      requires view.stateRoot == state.rootHash
      ensures View() == view && this.state == state
    {
      genesis, this.state := view.genesis, state;
      blocks, nodes, txIndex, dagTip := view.blocks, view.nodes, view.txIndex, view.dagTip;
      tip, weight := view.tip, view.weight;
    }

    method RegisterTransactions(txs: seq<Hash>, h: Hash)
      modifies this`txIndex
      ensures txIndex == Register(old(txIndex), txs, h)
    {
      assert txIndex == Register(txIndex, txs[..0], h);
      for i := 0 to |txs|
        invariant txIndex == Register(old(txIndex), txs[..i], h)
      {
        RegisterNext(old(txIndex), txs[..i], txs[i], h);
        assert txs[..i + 1] == txs[..i] + [txs[i]];
        txIndex := txIndex[txs[i] := h];
      }
      assert txs[..|txs|] == txs;
    }

    /**
      Walks up from the new block's parent setting flags and registering transactions, to the first block
      already flagged.
    */
    method WalkUp(ghost was: Hash, top: Hash) returns (fork: ChainNode, below: Hash)
      requires Walkable(blocks, genesis, nodes, was, top)
      modifies this`nodes, this`txIndex
      ensures WalkingUp(blocks, genesis, old(nodes), was, top, nodes, fork, below) && fork.isMain
      ensures txIndex == RegisterUp(blocks, old(nodes), old(txIndex), blocks[top].parent, blocks[top].depth - 1)
    {
      var bs := blocks;
      ghost var g, n0, index0 := genesis, nodes, txIndex;
      WalkUpStarts(bs, g, n0, was, top);
      ParentStored(bs, g, top);
      fork := nodes[bs[top].parent];
      below := top;
      while !fork.isMain
        invariant WalkingUp(bs, g, n0, was, top, nodes, fork, below)
        invariant RegisterUp(bs, n0, txIndex, fork.hash, bs[fork.hash].depth)
                  == RegisterUp(bs, n0, index0, bs[top].parent, bs[top].depth - 1)
        decreases bs[fork.hash].depth
      {
        WalkUpStep(bs, g, n0, was, top, nodes, fork, below, txIndex);
        nodes := nodes[fork.hash := fork.(isMain := true)];
        RegisterTransactions(bs[fork.hash].txs, fork.hash);
        below := fork.hash;
        fork := nodes[fork.parent];
      }
    }

    /** Walks down the old branch from the fork clearing flags, until no flagged child is left. */
    method WalkDown(ghost was: Hash, ghost top: Hash, fork: ChainNode, below: Hash)
      requires AtFork(blocks, genesis, nodes, was, top, fork, below)
      modifies this`nodes
      ensures Reflagged(old(nodes), nodes)
      ensures forall h :: h in nodes ==> (nodes[h].isMain <==> OnPath(blocks, h, top))
    {
      ghost var bs, g, n1 := blocks, genesis, nodes;
      var at := FindMainListChild(nodes, fork, Some(below));
      WalkDownStarts(bs, g, n1, was, top, fork.hash, below, at);
      while at.Some?
        invariant WalkingDown(bs, n1, was, top, nodes, at)
        decreases if at.Some? then bs[was].depth - bs[at.value.hash].depth + 1 else 0
      {
        ghost var before := nodes;
        var node := at.value.(isMain := false);
        nodes := nodes[node.hash := node];
        var next := FindMainListChild(nodes, node, None);
        WalkDownStep(bs, g, n1, was, top, before, at.value, next);
        at := next;
      }
    }

    /** Does the block carry a transaction the main list has already finalised? */
    method CarriesDuplicate(child: Block) returns (duplicate: bool)
      requires Valid()
      ensures duplicate == CarriesFinalised(View(), child)
    {
      for i := 0 to |child.txs|
        invariant forall j :: 0 <= j < i ==> !TransactionStatus(View(), child.txs[j]).Found?
      {
        var status := TransactionStatus(View(), child.txs[i]);
        if status.Found? {
          var b := status.block;
          if nodes[b.hash].isMain || BetterRank(b.weight, Numeric(b.hash), child.weight, Numeric(child.hash)) {
            return true;
          }
        }
      }
      return false;
    }

    /** Moves the engine's world state to another root, if that can be rebased to. */
    method MoveState(root: Hash) returns (ok: bool)
      requires state.Valid()
      modifies state, state.db
      ensures state.Valid() && ok == (root in Roots(old(state.db.View())))
      ensures state.rootHash == if ok then root else old(state.rootHash)
      ensures KeepsRoots(old(state.db.View()), state.db.View(), {})
    {
      ghost var before, seen := state.View(), state.db.View();
      ok := state.Rebase(root);
      RebaseMoves(before, root, state.View());
      KeepsRootsViews(before, state.View(), seen, state.db.View(), {});
    }

    /** Adds a block that passed validation, moving the tip and the main list when it wins. */
    method AddValidatedBlock(child: Block) returns (outcome: Outcome)
      requires Valid() && Sound(blocks, child)
      modifies this, state, state.db
      ensures (View(), outcome) == Insert(old(View()), child, Roots(old(state.db.View()))) && state.Valid()
      ensures KeepsRoots(old(state.db.View()), state.db.View(), {})
    {
      ghost var d := View();
      if child.hash in nodes {
        return DuplicateBlock;
      }
      var duplicate := CarriesDuplicate(child);
      if duplicate {
        return DuplicateTx;
      }
      var childNode := NewChainNode(child);
      blocks := blocks[child.hash := child];
      var parentNode := nodes[child.parent];
      parentNode := parentNode.(children := parentNode.children + [child.hash]);
      nodes := nodes[child.parent := parentNode];
      if BetterRank(childNode.weight, Numeric(child.hash), weight, Numeric(tip.hash)) {
        weight, tip := childNode.weight, child;
        dagTip := Some(child.hash);
        var ok := MoveState(child.state);
        if !ok {
          return StateMissing;
        }
        InsertReady(d, child);
        Reorganise(d.tip.hash, child, childNode);
      } else {
        nodes := nodes[child.hash := childNode];
      }
      return Accepted;
    }

    /** Lays the main list along the path to the new block and registers its transactions. */
    method Reorganise(ghost was: Hash, child: Block, childNode: ChainNode)
      requires Walkable(blocks, genesis, nodes, was, child.hash)
      requires blocks[child.hash] == child && childNode == NewChainNode(child)
      requires ListsChildren(blocks, genesis, child.hash, [])
      requires child.depth > 0
      modifies this`nodes, this`txIndex
      ensures nodes == Flagged(old(nodes)[child.hash := NewChainNode(child)], blocks, child.hash)
      ensures txIndex == RegisterUp(blocks, old(nodes), Register(old(txIndex), child.txs, child.hash),
                                    child.parent, child.depth - 1)
    {
      ghost var bs, g, n0 := blocks, genesis, nodes;
      RegisterTransactions(child.txs, child.hash);
      ghost var index := txIndex;
      var fork, below := WalkUp(was, child.hash);
      assert txIndex == RegisterUp(bs, n0, index, child.parent, child.depth - 1);
      ghost var up := nodes;
      var n1 := nodes[child.hash := childNode.(isMain := true)];
      UpThenStored(bs, g, n0, was, child, up, fork, below, n1);
      nodes := n1;
      WalkDown(was, child.hash, fork, below);
      FlaggedIs(bs, n0, child, up, nodes);
    }

    /** The block has a world state of its own on the engine's database. */
    ghost predicate Shares(child: MinableBlock) {
      child.body.worldState != state && child.body.worldState.db == state.db
    }

    /** The event of a block whose world state was `was` before its writes were flushed. */
    ghost function Flushed(child: MinableBlock, was: Snapshot, cleaned: set<Hash>, submitted: bool): Event
      reads child, child.body, child.body.worldState
    {
      Event(Sealed(child.spec, child.hash), was.tree, child.body.variables, child.body.worldState.tree,
            cleaned, Overlay.Ready(was, child.body.variables), submitted)
    }

    /** Flushes a block's writes and hashes it, which leaves the engine and its world state as they were. */
    method HashBlock(child: MinableBlock, budget: nat) returns (ok: bool, ghost e: Event)
      requires state.Valid() && nodes.Keys == blocks.Keys && child.Valid() && Shares(child)
      modifies child`spec, child`hash, child.body.worldState, state.db
      ensures state.Valid() && child.Valid() && View() == old(View())
      ensures Happens(View(), old(state.db.View()), e, View(), state.db.View())
      ensures e == Flushed(child, old(child.body.worldState.Now()), e.cleaned, false)
      ensures e.ready <==> HashOf(e.end) in Roots(state.db.View())
      ensures HashOutcome(old(child.spec), HashOf(e.end), child.pow, budget, child.isNetworkBlock,
                          ok, child.spec, child.hash, old(child.hash))
    {
      ghost var before, was := state.db.View(), child.body.worldState.Now();
      ghost var cleaned;
      ok, cleaned := child.ComputeHash(budget);
      e := Flushed(child, was, cleaned, false);
      Rehashed(old(child.spec), HashOf(e.end), child.pow, budget, child.isNetworkBlock,
               ok, child.spec, child.hash, old(child.hash));
      FlushHappens(View(), e, was.world, child.body.worldState.View(), before, state.db.View(), state.db.nodes);
      assert Readable(before, state.tree) && Readable(state.db.View(), state.tree);
    }

    /** Adds a validated block right after its writes were flushed. */
    method AddHashedBlock(b: Block, ghost w: World, ghost e: Event) returns (outcome: Outcome)
      requires Valid() && Validate(blocks, b) == None && !e.submitted && e.block == b && HashOf(e.end) == b.state
      requires Happens(View(), w, e, View(), state.db.View()) && (e.ready <==> HashOf(e.end) in Roots(state.db.View()))
      modifies this, state, state.db
      ensures state.Valid() && (View(), Checked(outcome)) == Submit(old(View()), Arrived(e.(submitted := true)))
      ensures Happens(old(View()), w, e.(submitted := true), View(), state.db.View())
    {
      ghost var d, flushed := View(), state.db.View();
      ValidateSound(d.blocks, b);
      outcome := AddValidatedBlock(b);
      SubmitHappens(d, w, e.(submitted := true), flushed, outcome, View(), state.db.View(), state.db.nodes);
    }

    /** Adds a validated block if its replay, which was flushed just now, reached its state. */
    method AddReplayedBlock(b: Block, root: Hash, ghost w: World, ghost e: Event) returns (verdict: Verdict)
      requires Valid() && Validate(blocks, b) == None && !e.submitted && e.block == b && HashOf(e.end) == root
      requires Happens(View(), w, e, View(), state.db.View()) && (e.ready <==> HashOf(e.end) in Roots(state.db.View()))
      modifies this, state, state.db
      ensures state.Valid() && (root == b.state ==> verdict.Checked?)
      ensures Submitted(old(View()), w, e.(submitted := true), View(), state.db.View(), verdict)
    {
      ghost var d := View();
      if root != b.state {
        BadStateHappens(d, w, e, state.db.View());
        verdict := BadState;
      } else {
        var outcome := AddHashedBlock(b, w, e);
        verdict := Checked(outcome);
      }
      EventEnds(d, w, e.(submitted := true), View(), state.db.View(), verdict);
    }

    /**
      Checks a network block's proof of work: its writes are flushed, and nothing is submitted. Other
      blocks are refused.
    */
    method CheckNetworkBlockPoW(child: MinableBlock, approver: Approver, budget: nat) returns (ok: bool, ghost e: Event)
      requires Valid() && child.Valid() && Shares(child)
      modifies child`spec, child`hash, child`pow, child.body.worldState, state.db
      ensures Valid() && child.Valid() && View() == old(View())
      ensures child.isNetworkBlock ==> child.spec == old(child.spec) && child.pow == Some(approver)
      ensures child.isNetworkBlock && budget > 0 ==>
        (ok <==> approver(BlockHash(child.spec, child.body.worldState.rootHash), child.spec.ts, child.spec.delta))
      ensures ok ==> child.isNetworkBlock && budget > 0
      ensures ok ==> HashAccepted(child.spec, child.body.worldState.rootHash, child.hash, Some(approver))
      ensures !ok ==> child.hash == old(child.hash)
      ensures child.isNetworkBlock ==> e == Flushed(child, old(child.body.worldState.Now()), e.cleaned, false)
      ensures child.isNetworkBlock ==> Happens(View(), old(state.db.View()), e, View(), state.db.View())
      ensures child.isNetworkBlock ==> (e.ready <==> HashOf(e.end) in Roots(state.db.View()))
      ensures !child.isNetworkBlock ==> !ok && unchanged(child, child.body.worldState, state.db)
    {
      if !child.isNetworkBlock {
        e := *;
        return false, e;
      }
      child.pow := Some(approver);
      ok, e := HashBlock(child, budget);
    }

    /** Validates a block, which lists its uncles' miners once more, and then hashes it. */
    method ValidateAndHash(child: MinableBlock, budget: nat) returns (failed: Option<Verdict>, ok: bool, ghost e: Event)
      requires Valid() && child.Valid() && Shares(child)
      modifies child`spec, child`hash, child`uncleMiners, child.body.worldState, state.db
      ensures Valid() && child.Valid() && View() == old(View())
      ensures e == Flushed(child, old(child.body.worldState.Now()), e.cleaned, false)
      ensures failed == Validate(blocks, e.block)
      ensures failed.Some? ==> !ok && unchanged(child`spec, child`hash, child.body.worldState, state.db)
      ensures failed.None? ==> child.uncleMiners == old(child.uncleMiners) + MinersOf(blocks, child.spec.uncles)
      ensures failed.None? ==> Happens(View(), old(state.db.View()), e, View(), state.db.View())
      ensures failed.None? ==> (e.ready <==> HashOf(e.end) in Roots(state.db.View()))
      ensures failed.None? ==> HashOutcome(old(child.spec), HashOf(e.end), child.pow, budget, child.isNetworkBlock,
                                           ok, child.spec, child.hash, old(child.hash))
    {
      failed, child.uncleMiners := ValidateBlock(View(), Sealed(child.spec, child.hash), child.uncleMiners);
      if failed.Some? {
        ok := false;
        e := Flushed(child, child.body.worldState.Now(), {}, false);
        return;
      }
      ghost var b := Sealed(child.spec, child.hash);
      ok, e := HashBlock(child, budget);
      SameVerdict(blocks, b, e.block);
    }

    /**
      Submits a network block. It is validated and hashed, the root its writes lead to is compared with
      its state, and it is inserted. Whether the engine can move to its state is settled before the
      call: the root it starts from can be rebased to, or one of its writes touches.
    */
    method AcceptNetworkBlock(child: MinableBlock, budget: nat) returns (verdict: Verdict, ghost e: Event)
      requires Valid() && child.Valid() && Shares(child)
      requires child.hash.Some? || (child.pow.None? && budget > 0)
      modifies this, state, state.db, child`spec, child`hash, child`uncleMiners, child.body.worldState
      ensures state.Valid() && e == Flushed(child, old(child.body.worldState.Now()), e.cleaned, true)
      ensures Submitted(old(View()), old(state.db.View()), e, View(), state.db.View(), verdict)
      ensures HashKept(old(child.spec), HashOf(e.end), child.isNetworkBlock, child.spec, child.hash, old(child.hash))
      ensures Validate(old(blocks), e.block).Some? ==> unchanged(this, state, state.db, child.body.worldState)
    {
      ghost var d, w := View(), state.db.View();
      var failed, ok;
      failed, ok, e := ValidateAndHash(child, budget);
      if failed.Some? {
        verdict, e := failed.value, e.(submitted := true);
        FailedSubmit(d, w, e);
        return;
      }
      verdict := AddReplayedBlock(Sealed(child.spec, child.hash), child.body.worldState.rootHash, w, e);
      e := e.(submitted := true);
    }

    /** Mines a local block: it is validated, hashed under the proof-of-work rule, and inserted if a nonce was found. */
    method MineCandidateBlock(child: MinableBlock, pow: Option<Approver>, budget: nat)
      returns (verdict: Verdict, ghost e: Event)
      requires Valid() && child.Valid() && Shares(child) && !child.isNetworkBlock
      modifies this, state, state.db, child`spec, child`hash, child`pow, child`uncleMiners, child.body.worldState
      ensures state.Valid() && e == Flushed(child, old(child.body.worldState.Now()), e.cleaned, e.submitted)
      ensures if e.submitted
              then verdict.Checked? && Submitted(old(View()), old(state.db.View()), e, View(), state.db.View(), verdict)
              else NotSubmitted(old(View()), old(state.db.View()), e, View(), state.db.View(), verdict)
      ensures Validate(old(blocks), e.block) == None ==>
        Mines(old(child.spec), HashOf(e.end), pow, budget, e.submitted, child.spec, child.hash)
      ensures Validate(old(blocks), e.block).Some? ==>
        !e.submitted && unchanged(this, state, state.db, child`spec, child.body.worldState)
    {
      ghost var w := state.db.View();
      child.pow := pow;
      var failed, ok;
      failed, ok, e := ValidateAndHash(child, budget);
      if failed.Some? || !ok {
        verdict := if failed.Some? then failed.value else Unhashed;
        return;
      }
      verdict := AddReplayedBlock(Sealed(child.spec, child.hash), child.body.worldState.rootHash, w, e);
      e := e.(submitted := true);
    }

    /** A new world state beside the engine's, which stays as it is. */
    method StateAt(root: Hash) returns (worldState: MptWorldState, ok: bool)
      requires Valid()
      modifies state.db
      ensures Valid() && View() == old(View()) && Addressed(state.db.View())
      ensures KeepsRoots(old(state.db.View()), state.db.View(), {})
      ensures fresh(worldState) && worldState.Valid() && worldState.db == state.db
      ensures ok <==> root in Roots(old(state.db.View())) + {HashOf(EMPTY)}
      ensures ok ==> worldState.rootHash == root && root in Roots(state.db.View())
    {
      ghost var before := state.db.View();
      worldState, ok := NewStateAt(state.db, root);
      assert Readable(before, state.tree) && Readable(state.db.View(), state.tree);
    }

    /** A block on a new world state at the given root; null if that cannot be rebased to. */
    method NewBlockAt(spec: BlockSpec, isNetworkBlock: bool, root: Hash, miners: seq<Bytes>)
      returns (child: MinableBlock?)
      requires Valid()
      modifies state.db
      ensures Valid() && View() == old(View())
      ensures Happens(View(), old(state.db.View()), Quiet(Sealed(spec, None), state.db.View()), View(), state.db.View())
      ensures Careful(View(), Quiet(Sealed(spec, None), state.db.View()))
      ensures child != null <==> root in Roots(old(state.db.View())) + {HashOf(EMPTY)}
      ensures child != null ==> fresh(child) && fresh(child.body) && fresh(child.body.worldState)
      ensures child != null ==> StandsAt(child, spec, isNetworkBlock, root, miners)
    {
      ghost var before := state.db.View();
      var worldState, ok := StateAt(root);
      QuietHappens(View(), before, Sealed(spec, None), state.db.View());
      if !ok {
        return null;
      }
      child := NewBlock(spec, isNetworkBlock, worldState, miners);
    }

    /** A block without hash or writes, whose world state stands at a root that can be rebased to. */
    ghost predicate StandsAt(child: MinableBlock, spec: BlockSpec, isNetworkBlock: bool, root: Hash, miners: seq<Bytes>)
      reads this, state, state.db, child, child.body, child.body.worldState, child.body.worldState.db
    {
      && child.Valid() && Shares(child) && child.isNetworkBlock == isNetworkBlock
      && child.spec == spec && child.hash.None? && child.pow.None? && child.uncleMiners == miners
      && child.body.variables == map[] && child.body.worldState.rootHash == root && root in Roots(state.db.View())
    }

    /** Rebuilds a received block at its parent's state; null if it does not validate or that state is gone. */
    method DecodeNetworkBlockSpec(spec: BlockSpec) returns (child: MinableBlock?)
      requires Valid()
      modifies state.db
      ensures Valid() && View() == old(View())
      ensures child != null <==>
        && Validate(blocks, Sealed(spec, None)) == None
        && blocks[spec.phash].state in Roots(old(state.db.View())) + {HashOf(EMPTY)}
      ensures child != null ==> fresh(child) && fresh(child.body) && fresh(child.body.worldState)
      ensures child != null ==> StandsAt(child, spec, true, blocks[spec.phash].state, MinersOf(blocks, spec.uncles))
      ensures Validate(blocks, Sealed(spec, None)) == None ==>
        && Happens(View(), old(state.db.View()), Quiet(Sealed(spec, None), state.db.View()), View(), state.db.View())
        && Careful(View(), Quiet(Sealed(spec, None), state.db.View()))
      ensures Validate(blocks, Sealed(spec, None)).Some? ==> unchanged(state.db)
    {
      var failed, miners := ValidateBlock(View(), Sealed(spec, None), []);
      if failed.Some? {
        return null;
      }
      child := NewBlockAt(spec, true, blocks[spec.phash].state, miners);
    }

    /**
      A new local block on the tip, with every uncle nearby, at the engine's state; null if that cannot
      be rebased to. Depth and weight are 64-bit numbers.
    */
    method NewCandidateBlock(minerId: Bytes, ts: U64, tipTime: U64) returns (child: MinableBlock?, ghost c: Candidate)
      requires Valid()
      modifies state.db
      ensures Valid() && View() == old(View())
      ensures IsCandidate(View(), minerId, c)
      ensures child != null <==> state.rootHash in Roots(old(state.db.View())) + {HashOf(EMPTY)}
      ensures child != null ==> fresh(child) && fresh(child.body) && fresh(child.body.worldState)
      ensures child != null ==>
        StandsAt(child, CandidateSpec(c, state.rootHash, ts, tipTime), false, state.rootHash, c.uncleMiners)
      ensures var e := Quiet(Sealed(CandidateSpec(c, state.rootHash, ts, tipTime), None), state.db.View());
        Happens(View(), old(state.db.View()), e, View(), state.db.View()) && Careful(View(), e)
    {
      var candidate := Uncles.NewCandidateBlock(View(), minerId);
      c := candidate;
      var spec := CandidateSpec(candidate, state.rootHash, ts, tipTime);
      child := NewBlockAt(spec, false, state.rootHash, candidate.uncleMiners);
    }

    /** Creates the engine on a database. */
    static method Open(genesisBlock: Block, stored: Tables, db: Database) returns (engine: BlockChainConsensus?)
      requires db.Ok() && genesisBlock.state == HashOf(EMPTY)
      modifies db
      ensures var rebasable := Roots(old(db.View())) + {HashOf(EMPTY)};
        if engine == null then Opened(genesisBlock, stored, rebasable) == None
        else Some(engine.View()) == Opened(genesisBlock, stored, rebasable)
      ensures engine != null ==> fresh(engine) && fresh(engine.state) && engine.state.db == db && engine.state.Valid()
      ensures engine != null ==> engine.state.rootHash in Roots(db.View())
      ensures Addressed(db.View()) && Roots(old(db.View())) <= Roots(db.View())
    {
      ghost var before := db.View();
      var state := new MptWorldState(db);
      ghost var created := state.View();
      StoreAddressed(db.nodes, db.trees, db.View());
      NewRoots(before, created);
      var genesisNode := NewChainNode(genesisBlock).(isMain := true);
      if stored.dagTip.None? {
        engine := new BlockChainConsensus(Dag(
          genesisBlock.hash,
          stored.blocks[genesisBlock.hash := genesisBlock],
          stored.nodes[genesisBlock.hash := genesisNode],
          stored.txIndex, Some(genesisBlock.hash), genesisBlock, genesisBlock.weight, genesisBlock.state), state);
        return;
      }
      var h := stored.dagTip.value;
      if h !in stored.blocks {
        return null;
      }
      var tip := stored.blocks[h];
      var ok := state.Rebase(tip.state);
      NewThenRebase(before, created, tip.state, state.View());
      StoreAddressed(db.nodes, db.trees, db.View());
      if !ok {
        return null;
      }
      engine := new BlockChainConsensus(Dag(
        genesisBlock.hash, stored.blocks, stored.nodes, stored.txIndex, stored.dagTip,
        tip, tip.weight, tip.state), state);
    }
  }
}
