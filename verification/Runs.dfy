/**
  Whole runs of the engine: submitted blocks are validated, checked against the state their
  replay reached, and inserted or rejected. The invariant, convergence, and the transaction
  index are followed across every run.
*/
module Runs {
  import opened Hashing
  import opened Ancestry
  import opened ForkChoice

  // ---------- Validation and submission ----------

  datatype Verdict = Orphan | BadDepth | BadUncle | BadWeight | Unhashed | BadState | Checked(outcome: Outcome)

  /** The first check a block fails, if any. */
  ghost function Validate(bs: Blocks, b: Block): Option<Verdict> {
    if b.parent !in bs then Some(Orphan)
    else if b.depth != bs[b.parent].depth + 1 then Some(BadDepth)
    else if exists u :: u in b.uncles && !UncleOk(bs, b.parent, u) then Some(BadUncle)
    else if b.weight != bs[b.parent].weight + 1 + |b.uncles| then Some(BadWeight)
    else None
  }

  lemma ValidateSound(bs: Blocks, b: Block)
    ensures Validate(bs, b) == None <==> Sound(bs, b)
  {
    if b.parent in bs {
      assert HangsBelow(bs, b) <==> b.depth == bs[b.parent].depth + 1;
    }
  }

  /** A block as the application submits it, with the root its replay reached and the roots the trie can rebase to. */
  datatype Submission = Submission(block: Block, replayed: Hash, rebasable: set<Hash>)

  ghost function Submit(d: Dag, s: Submission): (Dag, Verdict)
    requires d.nodes.Keys == d.blocks.Keys
  {
    var failed := Validate(d.blocks, s.block);
    if failed.Some? then (d, failed.value)
    else if s.replayed != s.block.state then (d, BadState)
    else
      var (d', outcome) := Insert(d, s.block, s.rebasable);
      (d', Checked(outcome))
  }

  /** Every winning block of the run finds its state root in the trie. */
  ghost predicate Undisturbed(d: Dag, run: seq<Submission>)
    requires d.nodes.Keys == d.blocks.Keys
    decreases |run|
  {
    run == [] || (
      var (d', v) := Submit(d, run[0]);
      v != Checked(StateMissing) && d'.nodes.Keys == d'.blocks.Keys && Undisturbed(d', run[1..]))
  }

  ghost function Run(d: Dag, run: seq<Submission>): Dag
    requires d.nodes.Keys == d.blocks.Keys && Undisturbed(d, run)
    decreases |run|
  {
    if run == [] then d else Run(Submit(d, run[0]).0, run[1..])
  }

  /** The submission is rejected before it is inserted, or its insertion does not need its state root, or finds it. */
  ghost predicate SafeToSubmit(d: Dag, s: Submission) {
    Validate(d.blocks, s.block).Some? || s.replayed != s.block.state || FindsState(d, s.block, s.rebasable)
  }

  lemma SubmitConsistent(d: Dag, s: Submission)
    requires Consistent(d)
    ensures var (d', v) := Submit(d, s);
      (Consistent(d') <==> SafeToSubmit(d, s)) && (v == Checked(StateMissing) <==> !SafeToSubmit(d, s))
  {
    if Validate(d.blocks, s.block) == None && s.replayed == s.block.state {
      ValidateSound(d.blocks, s.block);
      InsertConsistent(d, s.block, s.rebasable);
    }
  }

  /** If every submitted block's state root can be rebased to, the run is undisturbed. */
  lemma {:induction false} RebasableUndisturbed(d: Dag, run: seq<Submission>)
    requires Consistent(d)
    requires forall s :: s in run ==> s.block.state in s.rebasable
    ensures Undisturbed(d, run)
    decreases |run|
  {
    if run != [] {
      assert run[0] in run;
      assert Submit(d, run[0]).1 != Checked(StateMissing);
      SubmitConsistent(d, run[0]);
      RebasableUndisturbed(Submit(d, run[0]).0, run[1..]);
    }
  }

  // ---------- Repeated uncles ----------

  lemma NoDuplicatesFront(front: seq<Hash>, last: Hash)
    ensures NoDuplicates(front + [last]) <==> NoDuplicates(front) && last !in front
  {
    var s := front + [last];
    if NoDuplicates(s) {
      forall i, j | 0 <= i < j < |front| ensures front[i] != front[j] {
        assert s[i] != s[j];
      }
      forall i | 0 <= i < |front| ensures front[i] != last {
        assert s[i] != s[|front|];
      }
    }
  }

  lemma {:induction false} DistinctCount(s: seq<Hash>)
    ensures |set u | u in s| <= |s|
    ensures |set u | u in s| == |s| <==> NoDuplicates(s)
  {
    if s != [] {
      var front, last := s[..|s| - 1], s[|s| - 1];
      var all, some := set u | u in s, set u | u in front;
      DistinctCount(front);
      NoDuplicatesFront(front, last);
      assert s == front + [last];
      assert all == some + {last};
      assert last in some <==> last in front;
    }
  }

  /**
    A block that validates weighs its parent's weight, one, and the number of different uncles exactly
    when it lists no uncle twice.
  */
  lemma WeightCountsUncles(bs: Blocks, b: Block)
    requires Sound(bs, b)
    ensures b.weight == bs[b.parent].weight + 1 + |set u | u in b.uncles| <==> NoDuplicates(b.uncles)
  {
    DistinctCount(b.uncles);
  }

  /**
    The validator does accept repetitions: one valid uncle, listed often enough, makes a child of any
    block that has it the tip.
  */
  lemma RepeatedUncleWins(d: Dag, b: Block, u: Hash, n: nat, rebasable: set<Hash>)
    requires Consistent(d) && UncleOk(d.blocks, b.parent, u) && n >= d.weight && n > 1
    requires b.depth == d.blocks[b.parent].depth + 1 && b.uncles == seq(n, _ => u)
    requires b.weight == d.blocks[b.parent].weight + 1 + n
    requires b.hash !in d.nodes && !CarriesFinalised(d, b) && b.state in rebasable
    ensures Validate(d.blocks, b) == None && !NoDuplicates(b.uncles)
    ensures Submit(d, Submission(b, b.state, rebasable)).1 == Checked(Accepted)
    ensures Submit(d, Submission(b, b.state, rebasable)).0.tip == b
  {
    assert b.uncles[0] == b.uncles[1];
  }

  /** A submission only adds a block, and the tip never gets worse. */
  lemma SubmitGrows(d: Dag, s: Submission)
    requires d.nodes.Keys == d.blocks.Keys && d.weight == d.tip.weight
    ensures var d' := Submit(d, s).0;
      d'.genesis == d.genesis && Extends(d.blocks, d'.blocks) && !Better(d.tip, d'.tip)
  {
  }

  lemma NotBetterTransitive(a: Block, b: Block, c: Block)
    requires !Better(a, b) && !Better(b, c)
    ensures !Better(a, c)
  {
  }

  /** The invariant holds after every run: the flags are exactly the path to the tip, and the tip is best. */
  lemma {:induction false} RunConsistent(d: Dag, run: seq<Submission>)
    requires Consistent(d) && Undisturbed(d, run)
    ensures Consistent(Run(d, run))
    ensures Run(d, run).genesis == d.genesis
    ensures Extends(d.blocks, Run(d, run).blocks)
    ensures !Better(d.tip, Run(d, run).tip)
    decreases |run|
  {
    if run != [] {
      var d' := Submit(d, run[0]).0;
      SubmitConsistent(d, run[0]);
      SubmitGrows(d, run[0]);
      RunConsistent(d', run[1..]);
      NotBetterTransitive(d.tip, d'.tip, Run(d', run[1..]).tip);
    }
  }

  /** After every run no stored block is heavier than the tip, and none of its weight has a lower number. */
  lemma TipAfterRun(genesis: Block, run: seq<Submission>, h: Hash)
    requires genesis.depth == 0 && genesis.uncles == [] && genesis.parent == Null
    requires Undisturbed(Initial(genesis), run) && h in Run(Initial(genesis), run).blocks
    ensures var d := Run(Initial(genesis), run);
      || d.blocks[h].weight < d.tip.weight
      || (d.blocks[h].weight == d.tip.weight && Numeric(d.tip.hash) <= Numeric(h))
  {
    InitialConsistent(genesis);
    RunConsistent(Initial(genesis), run);
    TipIsBest(Run(Initial(genesis), run), h);
  }

  // ---------- Shape of the main list ----------

  predicate MainChild(d: Dag, h: Hash, c: Hash) {
    h in d.nodes && c in d.nodes[h].children && c in d.nodes && d.nodes[c].isMain
  }

  /** In a consistent DAG a main-list block has a main-list child exactly when it is not the tip, and then only one. */
  lemma OneMainChild(d: Dag, h: Hash)
    requires Consistent(d) && h in d.nodes && d.nodes[h].isMain
    ensures h != d.tip.hash <==> exists c :: MainChild(d, h, c)
    ensures forall c, c' :: MainChild(d, h, c) && MainChild(d, h, c') ==> c == c'
  {
    assert NodeOk(d.blocks, d.genesis, h, d.nodes[h]);
    forall c
      ensures MainChild(d, h, c) <==> IsChild(d.blocks, d.genesis, h, c) && OnPath(d.blocks, c, d.tip.hash)
    {
    }
    PathChild(d.blocks, d.genesis, h, d.tip.hash);
  }

  // ---------- Convergence ----------

  /** Among all stored blocks only the tip has the tip's rank. */
  ghost predicate UniqueBest(d: Dag) {
    forall h ::
      h in d.blocks && d.blocks[h].weight == d.tip.weight && Numeric(h) == Numeric(d.tip.hash) ==> h == d.tip.hash
  }

  /**
    Two consistent engines that hold the same blocks agree on the best rank, and on everything when the
    best is unique.
  */
  lemma SameBlocksAgree(d1: Dag, d2: Dag)
    requires Consistent(d1) && Consistent(d2) && d1.genesis == d2.genesis && d1.blocks == d2.blocks
    ensures d1.weight == d2.weight && Numeric(d1.tip.hash) == Numeric(d2.tip.hash)
    ensures UniqueBest(d1) ==>
      && d1.tip == d2.tip && d1.dagTip == d2.dagTip && d1.stateRoot == d2.stateRoot
      && d1.nodes.Keys == d2.nodes.Keys
      && forall h :: h in d1.nodes ==> d1.nodes[h].isMain == d2.nodes[h].isMain
  {
    assert !Better(d1.blocks[d2.tip.hash], d1.tip);
    assert !Better(d2.blocks[d1.tip.hash], d2.tip);
  }

  /** Convergence: runs from one genesis that end with the same blocks, whatever the orders and rejections. */
  lemma RunsConverge(genesis: Block, run1: seq<Submission>, run2: seq<Submission>)
    requires genesis.depth == 0 && genesis.uncles == [] && genesis.parent == Null
    requires Undisturbed(Initial(genesis), run1) && Undisturbed(Initial(genesis), run2)
    requires Run(Initial(genesis), run1).blocks == Run(Initial(genesis), run2).blocks
    ensures
      var d1, d2 := Run(Initial(genesis), run1), Run(Initial(genesis), run2);
      && d1.weight == d2.weight && Numeric(d1.tip.hash) == Numeric(d2.tip.hash)
      && (UniqueBest(d1) ==>
            && d1.tip == d2.tip && d1.stateRoot == d2.stateRoot
            && forall h :: h in d1.nodes ==> h in d2.nodes && d1.nodes[h].isMain == d2.nodes[h].isMain)
  {
    InitialConsistent(genesis);
    RunConsistent(Initial(genesis), run1);
    RunConsistent(Initial(genesis), run2);
    SameBlocksAgree(Run(Initial(genesis), run1), Run(Initial(genesis), run2));
  }

  // ---------- The transaction index ----------

  /** Every transaction of a main-list block is indexed under that block. */
  ghost predicate TxIndexed(d: Dag)
    requires d.nodes.Keys == d.blocks.Keys
  {
    forall h, tx :: h in d.nodes && d.nodes[h].isMain && tx in d.blocks[h].txs ==> tx in d.txIndex && d.txIndex[tx] == h
  }

  /** An indexed transaction is carried by the block it is indexed under. */
  ghost predicate IndexSound(d: Dag) {
    forall tx :: tx in d.txIndex ==> d.txIndex[tx] in d.blocks && tx in d.blocks[d.txIndex[tx]].txs
  }

  /** No transaction occurs in two blocks of the path to h. */
  ghost predicate BranchDistinct(bs: Blocks, h: Hash) {
    forall a, c, tx :: OnPath(bs, a, h) && OnPath(bs, c, h) && tx in bs[a].txs && tx in bs[c].txs ==> a == c
  }

  /** No branch of the whole tree repeats a transaction. */
  ghost predicate BranchesDistinct(bs: Blocks) {
    forall h :: h in bs ==> BranchDistinct(bs, h)
  }

  /** A status query finds exactly the transactions of main-list blocks, and the block that carries each. */
  lemma StatusExact(d: Dag, tx: Hash, b: Block)
    requires IndexExact(d)
    ensures TransactionStatus(d, tx) == Found(b) <==>
      b.hash in d.nodes && d.nodes[b.hash].isMain && d.blocks[b.hash] == b && tx in b.txs
  {
  }

  /** tx is carried by a main-list block. */
  ghost predicate OnMainList(d: Dag, tx: Hash) {
    exists h :: h in d.nodes && h in d.blocks && d.nodes[h].isMain && tx in d.blocks[h].txs
  }

  /**
    With an exact index a query never finds the tables damaged, and the three answers tell where the
    transaction is.
  */
  lemma StatusAnswers(d: Dag, tx: Hash)
    requires IndexExact(d)
    ensures TransactionStatus(d, tx) != Corrupt
    ensures TransactionStatus(d, tx).Found? <==> OnMainList(d, tx)
    ensures TransactionStatus(d, tx) == NotApplied ==> exists h :: h in d.blocks && tx in d.blocks[h].txs
  {
    if OnMainList(d, tx) {
      var h :| h in d.nodes && h in d.blocks && d.nodes[h].isMain && tx in d.blocks[h].txs;
      StatusExact(d, tx, d.blocks[h]);
    }
  }

  /** A new block is refused for its transactions exactly when a main-list block carries one of them. */
  lemma RefusedForTransactions(d: Dag, b: Block, rebasable: set<Hash>)
    requires IndexExact(d) && Sound(d.blocks, b) && b.hash !in d.nodes
    ensures Insert(d, b, rebasable).1 == DuplicateTx <==> exists tx :: tx in b.txs && OnMainList(d, tx)
  {
    forall tx | tx in b.txs
      ensures TransactionStatus(d, tx).Found? <==> OnMainList(d, tx)
    {
      StatusAnswers(d, tx);
    }
  }

  /** h is on the path being registered and was not yet main-list. */
  ghost predicate Fresh(bs: Blocks, nodes: map<Hash, ChainNode>, a: Hash, h: Hash) {
    OnPath(bs, a, h) && !(a in nodes && nodes[a].isMain)
  }

  /** Main-list flags are closed under taking parents, and the genesis is flagged. */
  ghost predicate MainClosed(bs: Blocks, g: Hash, nodes: map<Hash, ChainNode>) {
    && (g in nodes && nodes[g].isMain)
    && forall a, h :: h in nodes && nodes[h].isMain && OnPath(bs, a, h) ==> a in nodes && nodes[a].isMain
  }

  /** a is among the newly registered blocks and carries tx. */
  ghost predicate FreshCarrier(bs: Blocks, nodes: map<Hash, ChainNode>, a: Hash, h: Hash, tx: Hash) {
    Fresh(bs, nodes, a, h) && tx in bs[a].txs
  }

  /** The blocks to register from h are h itself and those to register from its parent. */
  lemma FreshParent(bs: Blocks, g: Hash, nodes: map<Hash, ChainNode>, h: Hash)
    requires Rooted(bs, g) && MainClosed(bs, g, nodes) && h in bs && !(h in nodes && nodes[h].isMain)
    ensures bs[h].parent in bs && bs[h].depth == bs[bs[h].parent].depth + 1
    ensures forall a :: Fresh(bs, nodes, a, h) <==> a == h || Fresh(bs, nodes, a, bs[h].parent)
    ensures !Fresh(bs, nodes, h, bs[h].parent)
  {
    ParentStored(bs, g, h);
    forall a
      ensures Fresh(bs, nodes, a, h) <==> a == h || Fresh(bs, nodes, a, bs[h].parent)
    {
      OnPathParent(bs, g, a, h);
    }
    OnPathParent(bs, g, h, h);
  }

  lemma {:induction false} RegisterUpNone(bs: Blocks, g: Hash, nodes: map<Hash, ChainNode>, index: map<Hash, Hash>,
                                          h: Hash, tx: Hash)
    requires Rooted(bs, g) && MainClosed(bs, g, nodes) && h in bs
    requires forall a :: !FreshCarrier(bs, nodes, a, h, tx)
    ensures var index' := RegisterUp(bs, nodes, index, h, bs[h].depth);
      (tx in index' <==> tx in index) && (tx in index ==> index'[tx] == index[tx])
    decreases bs[h].depth
  {
    if !(h in nodes && nodes[h].isMain) {
      FreshParent(bs, g, nodes, h);
      assert Fresh(bs, nodes, h, h) && !FreshCarrier(bs, nodes, h, h, tx);
      forall a ensures !FreshCarrier(bs, nodes, a, bs[h].parent, tx) {
        assert !FreshCarrier(bs, nodes, a, h, tx);
      }
      RegisterUpNone(bs, g, nodes, Register(index, bs[h].txs, h), bs[h].parent, tx);
    }
  }

  /** A transaction that only a carries among the newly registered blocks ends up under a. */
  lemma {:induction false} RegisterUpOnly(bs: Blocks, g: Hash, nodes: map<Hash, ChainNode>, index: map<Hash, Hash>,
                                          h: Hash, tx: Hash, a: Hash)
    requires Rooted(bs, g) && MainClosed(bs, g, nodes) && h in bs
    requires FreshCarrier(bs, nodes, a, h, tx)
    requires forall c :: FreshCarrier(bs, nodes, c, h, tx) ==> c == a
    ensures var index' := RegisterUp(bs, nodes, index, h, bs[h].depth); tx in index' && index'[tx] == a
    decreases bs[h].depth
  {
    if h in nodes && nodes[h].isMain {
      assert false;
    } else {
      FreshParent(bs, g, nodes, h);
      var index1 := Register(index, bs[h].txs, h);
      forall c | FreshCarrier(bs, nodes, c, bs[h].parent, tx) ensures c == a {
        assert FreshCarrier(bs, nodes, c, h, tx);
      }
      if a == h {
        RegisterUpNone(bs, g, nodes, index1, bs[h].parent, tx);
      } else {
        RegisterUpOnly(bs, g, nodes, index1, bs[h].parent, tx, a);
      }
    }
  }

  /** Registration only points a transaction at a newly registered block that carries it. */
  lemma {:induction false} RegisterUpSound(bs: Blocks, g: Hash, nodes: map<Hash, ChainNode>, index: map<Hash, Hash>,
                                           h: Hash, tx: Hash)
    requires Rooted(bs, g) && MainClosed(bs, g, nodes) && h in bs
    requires tx in RegisterUp(bs, nodes, index, h, bs[h].depth)
    ensures var index' := RegisterUp(bs, nodes, index, h, bs[h].depth);
      (tx in index && index'[tx] == index[tx]) || FreshCarrier(bs, nodes, index'[tx], h, tx)
    decreases bs[h].depth
  {
    if !(h in nodes && nodes[h].isMain) {
      FreshParent(bs, g, nodes, h);
      RegisterUpSound(bs, g, nodes, Register(index, bs[h].txs, h), bs[h].parent, tx);
      assert Fresh(bs, nodes, h, h);
    }
  }

  // ---------- The index across insertions ----------

  lemma MainIsClosed(d: Dag, b: Block)
    requires Fits(d, b)
    ensures MainClosed(d.blocks[b.hash := b], d.genesis, d.nodes)
  {
    var bs := d.blocks[b.hash := b];
    RootedAdd(d.blocks, d.genesis, b);
    GenesisOnPath(d.blocks, d.genesis, d.tip.hash);
    forall a, h | h in d.nodes && d.nodes[h].isMain && OnPath(bs, a, h)
      ensures a in d.nodes && d.nodes[a].isMain
    {
      OnPathExtends(d.blocks, bs, d.genesis, a, h);
      OnPathTransitive(d.blocks, a, h, d.tip.hash);
    }
  }

  /**
    After registration a block of the branch that carries tx is what tx is indexed under, if the branch
    does not repeat tx.
  */
  lemma IndexedOnBranch(bs: Blocks, g: Hash, nodes: map<Hash, ChainNode>, index: map<Hash, Hash>, top: Hash, h: Hash,
                        tx: Hash)
    requires Rooted(bs, g) && MainClosed(bs, g, nodes) && top in bs
    requires BranchDistinct(bs, top) && OnPath(bs, h, top) && tx in bs[h].txs
    requires h in nodes && nodes[h].isMain ==> tx in index && index[tx] == h
    ensures var index' := RegisterUp(bs, nodes, index, top, bs[top].depth); tx in index' && index'[tx] == h
  {
    forall c | FreshCarrier(bs, nodes, c, top, tx) ensures c == h {
      assert OnPath(bs, c, top);
    }
    if Fresh(bs, nodes, h, top) {
      RegisterUpOnly(bs, g, nodes, index, top, tx, h);
    } else {
      RegisterUpNone(bs, g, nodes, index, top, tx);
    }
  }

  lemma PromotedIndexSound(d: Dag, b: Block)
    requires Fits(d, b) && IndexSound(d)
    ensures IndexSound(Promoted(d, b))
  {
    var bs := d.blocks[b.hash := b];
    var index := RegisterUp(bs, d.nodes, d.txIndex, b.hash, b.depth);
    MainIsClosed(d, b);
    RootedAdd(d.blocks, d.genesis, b);
    forall tx | tx in index
      ensures index[tx] in bs && tx in bs[index[tx]].txs
    {
      RegisterUpSound(bs, d.genesis, d.nodes, d.txIndex, b.hash, tx);
    }
    assert Promoted(d, b).txIndex == index;
  }

  lemma IndexedOnWin(d: Dag, b: Block, h: Hash, tx: Hash)
    requires Fits(d, b) && TxIndexed(d)
    requires var bs := d.blocks[b.hash := b]; BranchDistinct(bs, b.hash) && OnPath(bs, h, b.hash) && tx in bs[h].txs
    ensures var index' := RegisterUp(d.blocks[b.hash := b], d.nodes, d.txIndex, b.hash, b.depth);
      tx in index' && index'[tx] == h
  {
    var bs := d.blocks[b.hash := b];
    MainIsClosed(d, b);
    RootedAdd(d.blocks, d.genesis, b);
    assert h in d.nodes && d.nodes[h].isMain ==> tx in d.blocks[h].txs;
    IndexedOnBranch(bs, d.genesis, d.nodes, d.txIndex, b.hash, h, tx);
  }

  lemma PromotedIndexed(d: Dag, b: Block)
    requires Fits(d, b) && TxIndexed(d) && BranchDistinct(d.blocks[b.hash := b], b.hash)
    ensures var d' := Promoted(d, b); d'.nodes.Keys == d'.blocks.Keys && TxIndexed(d')
  {
    var d' := Promoted(d, b);
    var bs := d.blocks[b.hash := b];
    var index := RegisterUp(bs, d.nodes, d.txIndex, b.hash, b.depth);
    assert d'.blocks == bs && d'.txIndex == index;
    forall h, tx | h in d'.nodes && d'.nodes[h].isMain && tx in bs[h].txs
      ensures tx in index && index[tx] == h
    {
      IndexedOnWin(d, b, h, tx);
    }
  }

  /** A complete index tells that the main list carries no transaction twice. */
  lemma IndexedDistinct(d: Dag)
    requires d.nodes.Keys == d.blocks.Keys && FlagsMatch(d) && TxIndexed(d)
    ensures BranchDistinct(d.blocks, d.tip.hash)
  {
    forall a, c, tx |
      && OnPath(d.blocks, a, d.tip.hash) && OnPath(d.blocks, c, d.tip.hash)
      && tx in d.blocks[a].txs && tx in d.blocks[c].txs
      ensures a == c
    {
      assert d.nodes[a].isMain && d.txIndex[tx] == a;
      assert d.nodes[c].isMain && d.txIndex[tx] == c;
    }
  }

  /** Moving the tip keeps the index complete exactly when the new main list does not carry a transaction twice. */
  lemma PromotedIndexedIff(d: Dag, b: Block)
    requires Fits(d, b) && Wins(d, b) && TxIndexed(d)
    ensures var d' := Promoted(d, b);
      && d'.nodes.Keys == d'.blocks.Keys
      && (TxIndexed(d') <==> BranchDistinct(d'.blocks, b.hash))
  {
    PromotedConsistent(d, b);
    if TxIndexed(Promoted(d, b)) {
      IndexedDistinct(Promoted(d, b));
    } else if BranchDistinct(d.blocks[b.hash := b], b.hash) {
      PromotedIndexed(d, b);
    }
  }

  lemma ParentRepeats(bs: Blocks, g: Hash, b: Block, tx: Hash)
    requires Rooted(bs, g) && HangsBelow(bs, b) && b.hash !in bs && tx in b.txs && tx in bs[b.parent].txs
    ensures !BranchDistinct(bs[b.hash := b], b.hash)
  {
    var bs' := bs[b.hash := b];
    RootedAdd(bs, g, b);
    OnPathParent(bs', g, b.parent, b.hash);
    assert OnPath(bs', b.parent, b.hash) && OnPath(bs', b.hash, b.hash);
    assert tx in bs'[b.parent].txs && tx in bs'[b.hash].txs;
  }

  /**
    The engine does accept such a branch: only the current main list is searched for duplicates, so a
    block repeating a transaction of its side-branch parent wins, and the index is no longer complete.
  */
  lemma SideBranchMayRepeat(d: Dag, b: Block, tx: Hash, rebasable: set<Hash>)
    requires Fits(d, b) && Wins(d, b) && TxIndexed(d) && b.state in rebasable && b.txs == [tx]
    requires !d.nodes[b.parent].isMain && tx in d.blocks[b.parent].txs && tx !in d.txIndex
    ensures var (d', outcome) := Insert(d, b, rebasable);
      outcome == Accepted && d'.nodes.Keys == d'.blocks.Keys && !TxIndexed(d')
  {
    PromotedIndexedIff(d, b);
    ParentRepeats(d.blocks, d.genesis, b, tx);
  }

  lemma SidelinedIndexed(d: Dag, b: Block)
    requires Fits(d, b) && TxIndexed(d) && IndexSound(d)
    ensures var d' := Sidelined(d, b); d'.nodes.Keys == d'.blocks.Keys && TxIndexed(d') && IndexSound(d')
  {
  }

  lemma BranchDistinctExtends(bs: Blocks, bs': Blocks, g: Hash, h: Hash)
    requires Rooted(bs, g) && Rooted(bs', g) && Extends(bs, bs') && h in bs && BranchDistinct(bs', h)
    ensures BranchDistinct(bs, h)
  {
    forall a, c, tx | OnPath(bs, a, h) && OnPath(bs, c, h) && tx in bs[a].txs && tx in bs[c].txs
      ensures a == c
    {
      OnPathExtends(bs, bs', g, a, h);
      OnPathExtends(bs, bs', g, c, h);
    }
  }

  /** The transaction index is exact: status queries find precisely what the main list carries. */
  ghost predicate IndexExact(d: Dag) {
    Consistent(d) && TxIndexed(d) && IndexSound(d)
  }

  lemma PromotedIndexExact(d: Dag, b: Block, final: Blocks)
    requires IndexExact(d) && Fits(d, b) && Wins(d, b)
    requires Rooted(final, d.genesis) && Extends(d.blocks[b.hash := b], final) && BranchDistinct(final, b.hash)
    ensures IndexExact(Promoted(d, b))
  {
    RootedAdd(d.blocks, d.genesis, b);
    BranchDistinctExtends(d.blocks[b.hash := b], final, d.genesis, b.hash);
    PromotedConsistent(d, b);
    PromotedIndexed(d, b);
    PromotedIndexSound(d, b);
  }

  lemma InsertIndexExact(d: Dag, b: Block, rebasable: set<Hash>, final: Blocks)
    requires IndexExact(d) && Sound(d.blocks, b) && Insert(d, b, rebasable).1 == Accepted
    requires Rooted(final, d.genesis) && Extends(d.blocks[b.hash := b], final) && BranchDistinct(final, b.hash)
    ensures IndexExact(Insert(d, b, rebasable).0)
  {
    if Wins(d, b) {
      PromotedIndexExact(d, b, final);
    } else {
      SidelinedConsistent(d, b);
      SidelinedIndexed(d, b);
    }
  }

  /** An accepted submission is its insertion; any other that found its state changes nothing. */
  lemma SubmitCases(d: Dag, s: Submission)
    requires d.nodes.Keys == d.blocks.Keys
    ensures var (d', v) := Submit(d, s);
      if v == Checked(Accepted)
      then
        && Validate(d.blocks, s.block) == None && (d', Accepted) == Insert(d, s.block, s.rebasable)
        && d'.blocks == d.blocks[s.block.hash := s.block]
      else v != Checked(StateMissing) ==> d' == d
  {
  }

  lemma SubmitIndexExact(d: Dag, s: Submission, final: Blocks)
    requires IndexExact(d) && Submit(d, s).1 != Checked(StateMissing)
    requires Rooted(final, d.genesis) && BranchesDistinct(final) && Extends(Submit(d, s).0.blocks, final)
    ensures IndexExact(Submit(d, s).0)
  {
    SubmitCases(d, s);
    if Submit(d, s).1 == Checked(Accepted) {
      ValidateSound(d.blocks, s.block);
      assert s.block.hash in Submit(d, s).0.blocks;
      InsertIndexExact(d, s.block, s.rebasable, final);
    }
  }

  /** Across any run that never lets a branch repeat a transaction, the index stays exact. */
  lemma {:induction false} RunIndexExact(d: Dag, run: seq<Submission>)
    requires IndexExact(d) && Undisturbed(d, run)
    requires BranchesDistinct(Run(d, run).blocks)
    ensures IndexExact(Run(d, run))
    decreases |run|
  {
    if run != [] {
      var d' := Submit(d, run[0]).0;
      RunConsistent(d, run);
      SubmitConsistent(d, run[0]);
      RunConsistent(d', run[1..]);
      SubmitIndexExact(d, run[0], Run(d, run).blocks);
      RunIndexExact(d', run[1..]);
    }
  }

  /**
    From an empty database, after any run without repeats on a branch, a status query finds exactly the
    main list's transactions.
  */
  lemma StatusAfterRun(genesis: Block, run: seq<Submission>, tx: Hash, b: Block)
    requires genesis.depth == 0 && genesis.uncles == [] && genesis.parent == Null && genesis.txs == []
    requires Undisturbed(Initial(genesis), run) && BranchesDistinct(Run(Initial(genesis), run).blocks)
    ensures var d := Run(Initial(genesis), run);
      TransactionStatus(d, tx) == Found(b) <==>
        b.hash in d.nodes && b.hash in d.blocks && d.nodes[b.hash].isMain && d.blocks[b.hash] == b && tx in b.txs
  {
    InitialConsistent(genesis);
    RunIndexExact(Initial(genesis), run);
    StatusExact(Run(Initial(genesis), run), tx, b);
  }

  // ---------- Reopening the database ----------

  /** What the database keeps when the engine stops. */
  datatype Tables = Tables(blocks: Blocks, nodes: map<Hash, ChainNode>, txIndex: map<Hash, Hash>, dagTip: Option<Hash>)

  function Saved(d: Dag): Tables {
    Tables(d.blocks, d.nodes, d.txIndex, d.dagTip)
  }

  /** The engine created on a database: on the genesis if there is no saved tip, else on the saved tip. */
  function Opened(genesis: Block, t: Tables, rebasable: set<Hash>): Option<Dag> {
    if t.dagTip.None? then
      Some(Dag(genesis.hash, t.blocks[genesis.hash := genesis],
               t.nodes[genesis.hash := NewChainNode(genesis).(isMain := true)],
               t.txIndex, Some(genesis.hash), genesis, genesis.weight, genesis.state))
    else
      var h := t.dagTip.value;
      if h !in t.blocks || t.blocks[h].state !in rebasable then None
      else Some(Dag(genesis.hash, t.blocks, t.nodes, t.txIndex, t.dagTip,
                    t.blocks[h], t.blocks[h].weight, t.blocks[h].state))
  }

  /** Opening an empty database gives the engine every run starts from. */
  lemma OpenedEmpty(genesis: Block, rebasable: set<Hash>)
    ensures Opened(genesis, Tables(map[], map[], map[], None), rebasable) == Some(Initial(genesis))
  {
  }

  /**
    After a winning block's state was found missing, its block is saved and named as the tip but has no
    chain node: reopening stops at that block once its state can be rebased to, and fails until then.
  */
  lemma ReopenAfterMissing(genesis: Block, d: Dag, b: Block, rebasable: set<Hash>, later: set<Hash>)
    requires Consistent(d) && genesis.hash == d.genesis && Sound(d.blocks, b)
    requires Insert(d, b, rebasable).1 == StateMissing
    ensures var again := Opened(genesis, Saved(Insert(d, b, rebasable).0), later);
      && (again.None? <==> b.state !in later)
      && (again.Some? ==>
            && again.value.tip == b && again.value.weight == b.weight && again.value.stateRoot == b.state
            && b.hash !in again.value.nodes && again.value.blocks == d.blocks[b.hash := b]
            && again.value.txIndex == d.txIndex)
  {
  }

  /**
    After any run, reopening the saved tables recovers the engine as it was: tip, weight, state root,
    flags and index.
  */
  lemma ReopenAfterRun(genesis: Block, run: seq<Submission>, rebasable: set<Hash>)
    requires genesis.depth == 0 && genesis.uncles == [] && genesis.parent == Null
    requires Undisturbed(Initial(genesis), run)
    ensures var d := Run(Initial(genesis), run);
      Opened(genesis, Saved(d), rebasable) == if d.stateRoot in rebasable then Some(d) else None
  {
    InitialConsistent(genesis);
    RunConsistent(Initial(genesis), run);
  }
}
