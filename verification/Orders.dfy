/**
  The same blocks submitted in different orders: when every block comes after what it refers to
  and no two blocks share a transaction, each run stores all of them, so the runs converge.
*/
module Orders {
  import opened Hashing
  import opened Ancestry
  import opened ForkChoice
  import opened Runs

  /** Every submission comes after what it refers to, with the state its replay reached at hand. */
  ghost predicate InOrder(d: Dag, run: seq<Submission>)
    requires d.nodes.Keys == d.blocks.Keys
    decreases |run|
  {
    run == [] || (
      var s := run[0];
      && Validate(d.blocks, s.block) == None && s.replayed == s.block.state && s.block.state in s.rebasable
      && Submit(d, s).0.nodes.Keys == Submit(d, s).0.blocks.Keys && InOrder(Submit(d, s).0, run[1..]))
  }

  /** b is submitted in the run. */
  predicate Submitted(run: seq<Submission>, b: Block) {
    exists i :: 0 <= i < |run| && run[i].block == b
  }

  /** Each hash belongs to one block and each transaction to at most one. */
  ghost predicate NothingShared(bs: Blocks, run: seq<Submission>) {
    forall b, c {:trigger Among(bs, run, b), Among(bs, run, c)} ::
      Among(bs, run, b) && Among(bs, run, c) && (b.hash == c.hash || exists tx :: tx in b.txs && tx in c.txs) ==> b == c
  }

  ghost predicate Among(bs: Blocks, run: seq<Submission>, b: Block) {
    (b.hash in bs && bs[b.hash] == b) || Submitted(run, b)
  }

  /** A submission that comes in order and shares no transaction with another block is stored. */
  lemma SubmitStores(d: Dag, s: Submission)
    requires Consistent(d) && IndexSound(d) && Validate(d.blocks, s.block) == None
    requires s.replayed == s.block.state && s.block.state in s.rebasable
    requires forall h ::
      h in d.blocks && (h == s.block.hash || exists tx :: tx in d.blocks[h].txs && tx in s.block.txs) ==>
        d.blocks[h] == s.block
    ensures var d' := Submit(d, s).0; Consistent(d') && IndexSound(d') && d'.blocks == d.blocks[s.block.hash := s.block]
  {
    SubmitConsistent(d, s);
    ValidateSound(d.blocks, s.block);
    if s.block.hash in d.nodes {
      assert d.blocks[s.block.hash] == s.block;
    } else {
      assert !CarriesFinalised(d, s.block);
      if Wins(d, s.block) {
        PromotedIndexSound(d, s.block);
      }
    }
  }

  /** A run in order, whose blocks share no transaction, ends with exactly the blocks submitted to it. */
  lemma {:induction false} RunStores(d: Dag, run: seq<Submission>)
    requires Consistent(d) && IndexSound(d) && InOrder(d, run) && NothingShared(d.blocks, run)
    ensures Undisturbed(d, run)
    ensures forall b :: Among(Run(d, run).blocks, [], b) <==> Among(d.blocks, run, b)
    decreases |run|
  {
    if run != [] {
      var s, rest := run[0], run[1..];
      assert Submitted(run, s.block);
      forall h | h in d.blocks && (h == s.block.hash || exists tx :: tx in d.blocks[h].txs && tx in s.block.txs)
        ensures d.blocks[h] == s.block
      {
        assert Among(d.blocks, run, d.blocks[h]) && Among(d.blocks, run, s.block);
      }
      SubmitStores(d, s);
      var d' := Submit(d, s).0;
      forall b ensures Among(d'.blocks, rest, b) <==> Among(d.blocks, run, b) {
        AmongNext(d.blocks, run, b);
      }
      RunStores(d', rest);
    }
  }

  lemma AmongNext(bs: Blocks, run: seq<Submission>, b: Block)
    requires run != [] && (forall h :: h in bs ==> bs[h].hash == h) && NothingShared(bs, run)
    ensures Among(bs[run[0].block.hash := run[0].block], run[1..], b) <==> Among(bs, run, b)
  {
    var s, rest := run[0].block, run[1..];
    assert Submitted(run, s);
    if Submitted(rest, b) {
      var i :| 0 <= i < |rest| && rest[i].block == b;
      assert run[i + 1].block == b;
    }
    if Submitted(run, b) && b != s {
      var i :| 0 <= i < |run| && run[i].block == b;
      assert rest[i - 1].block == b;
    }
    if b.hash in bs && bs[b.hash] == b {
      assert Among(bs, run, b) && Among(bs, run, s);
    }
  }

  lemma SameAmong(bs1: Blocks, bs2: Blocks)
    requires (forall h :: h in bs1 ==> bs1[h].hash == h) && (forall h :: h in bs2 ==> bs2[h].hash == h)
    requires forall b :: Among(bs1, [], b) <==> Among(bs2, [], b)
    ensures bs1 == bs2
  {
    forall h | h in bs1 ensures h in bs2 && bs2[h] == bs1[h] {
      assert Among(bs1, [], bs1[h]);
    }
    forall h | h in bs2 ensures h in bs1 && bs1[h] == bs2[h] {
      assert Among(bs2, [], bs2[h]);
    }
  }

  /**
    Two runs in order of the same blocks, none sharing a transaction with another, end with the same
    blocks, and so converge.
  */
  lemma SameSubmissionsConverge(genesis: Block, run1: seq<Submission>, run2: seq<Submission>)
    requires genesis.depth == 0 && genesis.uncles == [] && genesis.parent == Null
    requires InOrder(Initial(genesis), run1) && InOrder(Initial(genesis), run2)
    requires forall b :: Submitted(run1, b) <==> Submitted(run2, b)
    requires NothingShared(Initial(genesis).blocks, run1)
    ensures Undisturbed(Initial(genesis), run1) && Undisturbed(Initial(genesis), run2)
    ensures
      var d1, d2 := Run(Initial(genesis), run1), Run(Initial(genesis), run2);
      && d1.blocks == d2.blocks && d1.weight == d2.weight && Numeric(d1.tip.hash) == Numeric(d2.tip.hash)
      && (UniqueBest(d1) ==>
            && d1.tip == d2.tip && d1.stateRoot == d2.stateRoot
            && forall h :: h in d1.nodes ==> h in d2.nodes && d1.nodes[h].isMain == d2.nodes[h].isMain)
  {
    var d := Initial(genesis);
    InitialConsistent(genesis);
    forall b ensures Among(d.blocks, run1, b) <==> Among(d.blocks, run2, b) {
    }
    RunStores(d, run1);
    RunStores(d, run2);
    RunConsistent(d, run1);
    RunConsistent(d, run2);
    SameAmong(Run(d, run1).blocks, Run(d, run2).blocks);
    RunsConverge(genesis, run1, run2);
  }
}
