/**
  Concrete runs on which the engine does not do what one would expect. Only the blocks' shapes are
  fixed; hashes, and with them the tie-breaking numbers, are arbitrary.
*/
module Counterexamples {
  import opened Hashing
  import opened Ancestry
  import opened ForkChoice
  import opened Runs
  import opened Trie
  import opened NodeStore
  import opened Persistence
  import opened Flush
  import opened Overlay
  import opened Commitments

  predicate IsGenesis(g: Block) {
    g.depth == 0 && g.uncles == [] && g.parent == Null && g.txs == []
  }

  /** b is a valid child of p as far as depth and weight go. */
  predicate Hangs(b: Block, p: Block, uncles: seq<Hash>, txs: seq<Hash>) {
    && b.parent == p.hash && b.depth == p.depth + 1 && b.txs == txs
    && b.uncles == uncles && b.weight == p.weight + 1 + |uncles|
  }

  function Sent(b: Block): Submission {
    Submission(b, b.state, {b.state})
  }

  /** A new block without transactions on top of the tip becomes the tip and leaves the index alone. */
  lemma ExtendTip(d: Dag, b: Block)
    requires Consistent(d) && Hangs(b, d.tip, [], []) && b.hash !in d.blocks
    ensures Submit(d, Sent(b)) == (Promoted(d, b), Checked(Accepted))
    ensures Consistent(Promoted(d, b)) && Promoted(d, b).txIndex == d.txIndex
  {
    ValidateSound(d.blocks, b);
    PromotedConsistent(d, b);
    var bs := d.blocks[b.hash := b];
    assert Register(d.txIndex, [], b.hash) == d.txIndex;
    assert OnPath(d.blocks, d.tip.hash, d.tip.hash) && d.nodes[d.tip.hash].isMain;
    assert RegisterUp(bs, d.nodes, d.txIndex, d.tip.hash, b.depth - 1) == d.txIndex;
    assert RegisterUp(bs, d.nodes, d.txIndex, b.hash, b.depth) == d.txIndex;
  }

  // ---------- A branch that repeats a transaction ----------

  /** Some run from an empty database ends with d. */
  ghost predicate Reachable(g: Block, d: Dag) {
    exists run :: Undisturbed(Initial(g), run) && Run(Initial(g), run) == d
  }

  lemma ReachableStart(g: Block)
    ensures Reachable(g, Initial(g))
  {
    assert Undisturbed(Initial(g), []) && Run(Initial(g), []) == Initial(g);
  }

  lemma {:induction false} RunAppend(d: Dag, run: seq<Submission>, s: Submission)
    requires d.nodes.Keys == d.blocks.Keys && Undisturbed(d, run) && Run(d, run).nodes.Keys == Run(d, run).blocks.Keys
    requires var (d', v) := Submit(Run(d, run), s); v == Checked(Accepted) && d'.nodes.Keys == d'.blocks.Keys
    ensures Undisturbed(d, run + [s]) && Run(d, run + [s]) == Submit(Run(d, run), s).0
    decreases |run|
  {
    if run == [] {
      assert (run + [s])[1..] == [] && (run + [s])[0] == s;
    } else {
      RunAppend(Submit(d, run[0]).0, run[1..], s);
      assert (run + [s])[1..] == run[1..] + [s] && (run + [s])[0] == run[0];
    }
  }

  lemma ReachableNext(g: Block, d: Dag, b: Block, d': Dag)
    requires Reachable(g, d) && Consistent(d) && Consistent(d') && Submit(d, Sent(b)) == (d', Checked(Accepted))
    ensures Reachable(g, d')
  {
    var d0 := Initial(g);
    var run :| Undisturbed(d0, run) && Run(d0, run) == d;
    RunAppend(d0, run, Sent(b));
    assert Undisturbed(d0, run + [Sent(b)]) && Run(d0, run + [Sent(b)]) == d';
  }

  predicate Different(g: Block, a: Block, a2: Block, p: Block) {
    a.hash != g.hash && a2.hash !in {g.hash, a.hash} && p.hash !in {g.hash, a.hash, a2.hash}
  }

  /** A run can put a block without transactions on top of the tip. */
  lemma NextBlock(g: Block, d: Dag, b: Block) returns (d': Dag)
    requires Reachable(g, d) && Consistent(d) && Hangs(b, d.tip, [], []) && b.hash !in d.blocks
    ensures Reachable(g, d') && Consistent(d') && d'.txIndex == d.txIndex && d'.tip == b
    ensures d'.blocks == d.blocks[b.hash := b]
  {
    ExtendTip(d, b);
    d' := Promoted(d, b);
    ReachableNext(g, d, b, d');
  }

  lemma FirstBlock(g: Block, a: Block) returns (d: Dag)
    requires IsGenesis(g) && Hangs(a, g, [], []) && a.hash != g.hash
    ensures Reachable(g, d) && Consistent(d) && d.txIndex == map[] && d.tip == a
    ensures d.blocks == map[g.hash := g, a.hash := a]
  {
    InitialConsistent(g);
    ReachableStart(g);
    d := NextBlock(g, Initial(g), a);
  }

  /** After two blocks on the genesis line, a sibling of the first that carries tx is a side block. */
  lemma ForkRun(g: Block, a: Block, a2: Block, p: Block, tx: Hash) returns (d: Dag)
    requires IsGenesis(g) && Hangs(a, g, [], []) && Hangs(a2, a, [], []) && Hangs(p, g, [], [tx])
    requires Different(g, a, a2, p)
    ensures Reachable(g, d) && Consistent(d) && d.txIndex == map[] && d.tip == a2 && d.weight == a2.weight
    ensures d.blocks == map[g.hash := g, a.hash := a, a2.hash := a2, p.hash := p]
  {
    var d1 := FirstBlock(g, a);
    var d2 := NextBlock(g, d1, a2);
    SideBlock(d2, p, g);
    d := Sidelined(d2, p);
    ReachableNext(g, d2, p, d);
  }

  lemma SideBlock(d: Dag, p: Block, g: Block)
    requires Consistent(d) && d.txIndex == map[] && g.hash in d.blocks && d.blocks[g.hash] == g
    requires Hangs(p, g, [], p.txs) && p.hash !in d.blocks && p.weight < d.weight
    ensures Submit(d, Sent(p)) == (Sidelined(d, p), Checked(Accepted)) && Consistent(Sidelined(d, p))
  {
    ValidateSound(d.blocks, p);
    SidelinedConsistent(d, p);
  }

  /** A sibling of p may be an uncle of p's children. */
  lemma SiblingIsUncle(bs: Blocks, g: Block, a: Block, p: Block)
    requires g.hash in bs && a.hash in bs && p.hash in bs && bs[g.hash] == g && bs[a.hash] == a && bs[p.hash] == p
    requires a.parent == g.hash && p.parent == g.hash && a.depth == p.depth == g.depth + 1 && a.hash != p.hash
    ensures UncleOk(bs, p.hash, a.hash) && !OnPath(bs, p.hash, a.hash)
  {
    assert Up(bs, p.hash, 1) == Up(bs, g.hash, 0) && Up(bs, a.hash, 1) == Up(bs, g.hash, 0);
    assert OnPath(bs, g.hash, p.hash) && OnPath(bs, g.hash, a.hash);
  }

  lemma RepeatWins(d: Dag, p: Block, b: Block, tx: Hash)
    requires Consistent(d) && d.txIndex == map[] && p.hash in d.blocks && d.blocks[p.hash] == p && tx in p.txs
    requires (forall h :: h in d.blocks && h != p.hash ==> d.blocks[h].txs == [])
    requires !OnPath(d.blocks, p.hash, d.tip.hash)
    requires Hangs(b, p, b.uncles, [tx]) && b.hash !in d.blocks && b.weight > d.weight
    requires forall u :: u in b.uncles ==> UncleOk(d.blocks, p.hash, u)
    ensures TxIndexed(d)
    ensures var (d', verdict) := Submit(d, Sent(b));
      verdict == Checked(Accepted) && d'.nodes.Keys == d'.blocks.Keys && !TxIndexed(d')
  {
    ValidateSound(d.blocks, b);
    SideBranchMayRepeat(d, b, tx, {b.state});
  }

  /**
    A block on the side branch that repeats its parent's transaction, made heavier by an uncle, is
    accepted and wins, and the index is no longer complete.
  */
  lemma RepeatIsReachable(g: Block, a: Block, a2: Block, p: Block, b: Block, tx: Hash) returns (d: Dag)
    requires IsGenesis(g) && Hangs(a, g, [], []) && Hangs(a2, a, [], []) && Hangs(p, g, [], [tx])
    requires Hangs(b, p, [a.hash], [tx])
    requires Different(g, a, a2, p) && b.hash !in {g.hash, a.hash, a2.hash, p.hash}
    ensures Reachable(g, d) && d.nodes.Keys == d.blocks.Keys && TxIndexed(d)
    ensures var (d', verdict) := Submit(d, Sent(b));
      verdict == Checked(Accepted) && d'.nodes.Keys == d'.blocks.Keys && !TxIndexed(d')
  {
    d := ForkRun(g, a, a2, p, tx);
    SiblingIsUncle(d.blocks, g, a, p);
    assert Up(d.blocks, a2.hash, 1) == Up(d.blocks, a.hash, 0);
    RepeatWins(d, p, b, tx);
  }

  // ---------- The order of two siblings ----------

  /**
    Two siblings carrying one transaction: whichever comes second is rejected, so the same submissions
    leave different blocks.
  */
  lemma SiblingsRace(g: Block, x: Block, y: Block, tx: Hash)
    requires IsGenesis(g) && Hangs(x, g, [], [tx]) && Hangs(y, g, [], [tx]) && x.hash != g.hash
    requires y.hash !in {g.hash, x.hash}
    ensures var d := Submit(Initial(g), Sent(x)).0;
      && d.nodes.Keys == d.blocks.Keys && Submit(d, Sent(y)) == (d, Checked(DuplicateTx))
      && d.blocks == map[g.hash := g, x.hash := x]
  {
    var d0 := Initial(g);
    InitialConsistent(g);
    ValidateSound(d0.blocks, x);
    var bs := d0.blocks[x.hash := x];
    var d := Promoted(d0, x);
    PromotedConsistent(d0, x);
    assert Submit(d0, Sent(x)) == (d, Checked(Accepted));
    assert RegisterUp(bs, d0.nodes, d0.txIndex, x.hash, 1) == Register(d0.txIndex, [tx], x.hash);
    assert TransactionStatus(d, tx) == Found(x);
    ValidateSound(d.blocks, y);
  }

  // ---------- A state that goes missing ----------

  /** Executes an operation, storing as few trees as possible. */
  ghost function Executed(w: World, op: Op): World {
    match op
    case New(id) => World(w.trees[HashOf(EMPTY) := EMPTY], w.roots + {HashOf(EMPTY)}, w.at[id := EMPTY])
    case Update(id, key, value) =>
      if id in w.at && WF(w.at[id]) then
        var t := Put(w.at[id], Hex(key), value);
        World(w.trees[HashOf(t) := t], w.roots + {HashOf(w.at[id]), HashOf(t)}, w.at[id := t])
      else w
    case Rebase(id, h) =>
      if id in w.at && h in Roots(w) then World(w.trees, w.roots + {HashOf(w.at[id])}, w.at[id := w.trees[h]]) else w
    case Cleanup(h) => World(w.trees, w.roots - {h}, w.at)
    case Delete(_, _) => w
  }

  /** The world states involved: the engine's, and those of three blocks. */
  const ENGINE: Id := 0
  const FIRST: Id := 1
  const EMPTY_BLOCK: Id := 2
  const OTHER: Id := 3

  /** The operation is one that Executed executes as a step. */
  ghost predicate Fine(w: World, op: Op) {
    match op
    case New(_) => true
    case Update(id, _, _) => id in w.at && WF(w.at[id])
    case Rebase(id, h) => id in w.at
    case Cleanup(h) => h in w.trees && h != HashOf(EMPTY)
    case Delete(_, _) => false
  }

  lemma ExecutedIsNext(w: World, op: Op)
    requires Addressed(w) && Fine(w, op)
    ensures Next(w, op, Executed(w, op))
  {
    StoresSame(w, EMPTY);
    if op.Update? {
      StoresSame(w, Put(w.at[op.id], Hex(op.key), op.value));
    }
  }

  lemma StoresSame(w: World, t: Tree)
    requires Addressed(w) && WF(t)
    ensures HashOf(t) in w.trees ==> w.trees[HashOf(t)] == t
  {
    if HashOf(t) in w.trees {
      HashBinds(t, w.trees[HashOf(t)]);
    }
  }

  /** The operations lead from the empty database to w. */
  ghost predicate Leads(ops: seq<Op>, w: World) {
    Addressed(w) && exists ws :: IsRun(ws, ops) && ws[0] == World(map[], {}, map[]) && ws[|ops|] == w
  }

  lemma LeadsStart()
    ensures Leads([], World(map[], {}, map[]))
  {
    assert IsRun([World(map[], {}, map[])], []);
  }

  lemma LeadsNext(ops: seq<Op>, w: World, op: Op)
    requires Leads(ops, w) && Fine(w, op)
    ensures Leads(ops + [op], Executed(w, op))
  {
    var ws :| IsRun(ws, ops) && ws[0] == World(map[], {}, map[]) && ws[|ops|] == w;
    ExecutedIsNext(w, op);
    var ws' := ws + [Executed(w, op)];
    forall i | 0 <= i < |ops + [op]|
      ensures Next(ws'[i], (ops + [op])[i], ws'[i + 1])
    {
      if i < |ops| {
        assert Next(ws[i], ops[i], ws[i + 1]);
      }
    }
    assert IsRun(ws', ops + [op]);
  }

  /** A tree with one key, and its root. */
  function One(k: Bytes, v: Bytes): (t: Tree)
    ensures WF(t)
  {
    Put(EMPTY, Hex(k), v)
  }

  lemma OneIsNotEmpty(k: Bytes, v: Bytes)
    requires v != []
    ensures HashOf(One(k, v)) != HashOf(EMPTY)
  {
    EmptyReadsNothing(Hex(k));
    RawPut(EMPTY, Hex(k), v, Hex(k));
    if HashOf(One(k, v)) == HashOf(EMPTY) {
      HashBinds(One(k, v), EMPTY);
    }
  }

  /** A first block writes k := v and becomes the tip; a block without writes is set up on top of it. */
  function Setup(k: Bytes, v: Bytes): seq<Op> {
    [New(ENGINE),
     New(FIRST), Op.Rebase(FIRST, HashOf(EMPTY)), Op.Update(FIRST, k, v), Op.Rebase(ENGINE, HashOf(One(k, v))),
     New(EMPTY_BLOCK), Op.Rebase(EMPTY_BLOCK, HashOf(One(k, v)))]
  }

  /** Another block is set up on the first one's parent. */
  function SetupOther(): seq<Op> {
    [New(OTHER), Op.Rebase(OTHER, HashOf(EMPTY))]
  }

  /** It flushes k := v and then k2 := v2, and cleans up the root it has passed. */
  function FlushOther(k: Bytes, v: Bytes, k2: Bytes, v2: Bytes): seq<Op> {
    [Op.Update(OTHER, k, v), Op.Update(OTHER, k2, v2), Cleanup(HashOf(One(k, v)))]
  }

  function Two(k: Bytes, v: Bytes, k2: Bytes, v2: Bytes): (t: Tree)
    ensures WF(t)
  {
    Put(One(k, v), Hex(k2), v2)
  }

  function TwoWrites(k: Bytes, v: Bytes, k2: Bytes, v2: Bytes): Writes {
    map[k := Some(v), k2 := Some(v2)]
  }

  lemma SetupLeads(k: Bytes, v: Bytes) returns (w: World)
    requires v != []
    ensures Leads(Setup(k, v), w)
    ensures w.at == map[ENGINE := One(k, v), FIRST := One(k, v), EMPTY_BLOCK := One(k, v)]
    ensures w.trees == map[HashOf(EMPTY) := EMPTY, HashOf(One(k, v)) := One(k, v)] && w.roots == w.trees.Keys
  {
    OneIsNotEmpty(k, v);
    LeadsStart();
    var h, t := HashOf(One(k, v)), One(k, v);
    var w0 := World(map[], {}, map[]);
    var w1 := World(map[HashOf(EMPTY) := EMPTY], {HashOf(EMPTY)}, map[ENGINE := EMPTY]);
    LeadsNext([], w0, New(ENGINE));
    assert Executed(w0, New(ENGINE)) == w1;
    var w2 := w1.(at := w1.at[FIRST := EMPTY]);
    LeadsNext([] + [New(ENGINE)], w1, New(FIRST));
    assert Executed(w1, New(FIRST)) == w2;
    LeadsNext([] + [New(ENGINE)] + [New(FIRST)], w2, Op.Rebase(FIRST, HashOf(EMPTY)));
    assert Executed(w2, Op.Rebase(FIRST, HashOf(EMPTY))) == w2;
    LeadsNext([] + [New(ENGINE)] + [New(FIRST)] + [Op.Rebase(FIRST, HashOf(EMPTY))], w2, Op.Update(FIRST, k, v));
    var w4 := World(w2.trees[h := t], w2.roots + {h}, w2.at[FIRST := t]);
    assert Executed(w2, Op.Update(FIRST, k, v)) == w4;
    var ops4 := [New(ENGINE), New(FIRST), Op.Rebase(FIRST, HashOf(EMPTY)), Op.Update(FIRST, k, v)];
    assert [] + [New(ENGINE)] + [New(FIRST)] + [Op.Rebase(FIRST, HashOf(EMPTY))] + [Op.Update(FIRST, k, v)] == ops4;
    w := SetupRest(k, v, ops4, w4);
    assert Setup(k, v) == ops4 + [Op.Rebase(ENGINE, h)] + [New(EMPTY_BLOCK)] + [Op.Rebase(EMPTY_BLOCK, h)];
  }

  lemma SetupRest(k: Bytes, v: Bytes, ops: seq<Op>, w4: World) returns (w: World)
    requires Leads(ops, w4) && w4.trees == map[HashOf(EMPTY) := EMPTY, HashOf(One(k, v)) := One(k, v)]
    requires w4.roots == w4.trees.Keys
    requires w4.at == map[ENGINE := EMPTY, FIRST := One(k, v)]
    ensures var h := HashOf(One(k, v));
      Leads(ops + [Op.Rebase(ENGINE, h)] + [New(EMPTY_BLOCK)] + [Op.Rebase(EMPTY_BLOCK, h)], w)
    ensures w == w4.(at := map[ENGINE := One(k, v), FIRST := One(k, v), EMPTY_BLOCK := One(k, v)])
  {
    var h, t := HashOf(One(k, v)), One(k, v);
    assert w4.trees[h] == t;
    var w5 := w4.(at := w4.at[ENGINE := t]);
    LeadsNext(ops, w4, Op.Rebase(ENGINE, h));
    assert Executed(w4, Op.Rebase(ENGINE, h)) == w5;
    var w6 := w5.(at := w5.at[EMPTY_BLOCK := EMPTY]);
    LeadsNext(ops + [Op.Rebase(ENGINE, h)], w5, New(EMPTY_BLOCK));
    StoresSame(w5, EMPTY);
    assert Executed(w5, New(EMPTY_BLOCK)) == w6;
    w := w6.(at := w6.at[EMPTY_BLOCK := t]);
    LeadsNext(ops + [Op.Rebase(ENGINE, h)] + [New(EMPTY_BLOCK)], w6, Op.Rebase(EMPTY_BLOCK, h));
    assert Executed(w6, Op.Rebase(EMPTY_BLOCK, h)) == w;
  }

  /** The other block is set up on the empty state. */
  lemma OtherStarts(ops: seq<Op>, w: World) returns (w': World)
    requires Leads(ops, w) && HashOf(EMPTY) in Roots(w) && OTHER !in w.at
    ensures Leads(ops + SetupOther(), w') && w'.at == w.at[OTHER := EMPTY]
  {
    StoresSame(w, EMPTY);
    LeadsNext(ops, w, New(OTHER));
    var w1 := Executed(w, New(OTHER));
    LeadsNext(ops + [New(OTHER)], w1, Op.Rebase(OTHER, HashOf(EMPTY)));
    w' := Executed(w1, Op.Rebase(OTHER, HashOf(EMPTY)));
    assert w'.at == w.at[OTHER := EMPTY];
    assert ops + [New(OTHER)] + [Op.Rebase(OTHER, HashOf(EMPTY))] == ops + SetupOther();
  }

  /** The second write changes the tree. */
  lemma TwoDiffers(k: Bytes, v: Bytes, k2: Bytes, v2: Bytes)
    requires k != k2 && v2 != []
    ensures Two(k, v, k2, v2) != One(k, v) && HashOf(Two(k, v, k2, v2)) != HashOf(One(k, v))
  {
    if Hex(k) == Hex(k2) {
      HexInjective(k, k2);
    }
    EmptyReadsNothing(Hex(k2));
    RawPut(EMPTY, Hex(k), v, Hex(k2));
    PutSame(One(k, v), Hex(k2), v2);
    if HashOf(Two(k, v, k2, v2)) == HashOf(One(k, v)) {
      HashBinds(Two(k, v, k2, v2), One(k, v));
    }
  }

  /** The first write of the flush leaves the parent's root alone. */
  lemma FlushFirst(k: Bytes, v: Bytes, w: World)
    requires Addressed(w) && OTHER in w.at && w.at[OTHER] == EMPTY && v != []
    ensures var w1 := Executed(w, Op.Update(OTHER, k, v));
      && Next(w, Op.Update(OTHER, k, v), w1) && w1.at == w.at[OTHER := One(k, v)]
      && Flushing(EMPTY, w, map[k := Some(v)], One(k, v), w1, true, {})
  {
    var op := Op.Update(OTHER, k, v);
    var w1 := Executed(w, op);
    OneIsNotEmpty(k, v);
    ExecutedIsNext(w, op);
    StepKeepsRoots(w, op, w1, {});
    FlushNothing(EMPTY);
    var none: Writes := map[];
    assert Flushing(EMPTY, w, none, EMPTY, w, false, {});
    assert none[k := Some(v)] == map[k := Some(v)];
    var cleaned: set<Hash> := {};
    assert cleaned + {} == cleaned;
    FlushingMoves(EMPTY, w, none, EMPTY, w, false, {}, k, Some(v), One(k, v), w1, {});
  }

  /** The second write cleans up the root of the first. */
  lemma FlushSecond(k: Bytes, v: Bytes, k2: Bytes, v2: Bytes, first: World, w1: World)
    requires Addressed(w1) && OTHER in w1.at && w1.at[OTHER] == One(k, v) && v != [] && k != k2 && v2 != []
    requires Flushing(EMPTY, first, map[k := Some(v)], One(k, v), w1, true, {})
    ensures var w2 := Executed(w1, Op.Update(OTHER, k2, v2));
      var w3 := Executed(w2, Cleanup(HashOf(One(k, v))));
      && Fine(w2, Cleanup(HashOf(One(k, v)))) && w3.at == w1.at[OTHER := Two(k, v, k2, v2)]
      && Flushing(EMPTY, first, TwoWrites(k, v, k2, v2), Two(k, v, k2, v2), w3, true, {HashOf(One(k, v))})
  {
    var h := HashOf(One(k, v));
    var w2 := Executed(w1, Op.Update(OTHER, k2, v2));
    var w3 := Executed(w2, Cleanup(h));
    OneIsNotEmpty(k, v);
    TwoDiffers(k, v, k2, v2);
    ExecutedIsNext(w1, Op.Update(OTHER, k2, v2));
    ExecutedIsNext(w2, Cleanup(h));
    StepKeepsRoots(w1, Op.Update(OTHER, k2, v2), w2, {});
    StepKeepsRoots(w2, Cleanup(h), w3, {h});
    KeepsRootsTransitive(w1, w2, w3, {}, {h});
    var done: Writes := map[k := Some(v)];
    assert done[k2 := Some(v2)] == TwoWrites(k, v, k2, v2);
    var none: set<Hash> := {};
    assert none + {h} == {h};
    FlushingMoves(EMPTY, first, done, One(k, v), w1, true, {}, k2, Some(v2), Two(k, v, k2, v2), w3, {h});
  }

  /** The three operations are a flush of both writes that has cleaned up exactly the root of the first. */
  lemma FlushLeads(k: Bytes, v: Bytes, k2: Bytes, v2: Bytes, ops: seq<Op>, w: World) returns (w': World)
    requires Leads(ops, w) && OTHER in w.at && w.at[OTHER] == EMPTY && v != [] && k != k2 && v2 != []
    ensures Leads(ops + FlushOther(k, v, k2, v2), w') && w'.at == w.at[OTHER := Two(k, v, k2, v2)]
    ensures Flushing(EMPTY, w, TwoWrites(k, v, k2, v2), Two(k, v, k2, v2), w', true, {HashOf(One(k, v))})
  {
    var o1, o2, o3 := Op.Update(OTHER, k, v), Op.Update(OTHER, k2, v2), Cleanup(HashOf(One(k, v)));
    FlushFirst(k, v, w);
    FlushSecond(k, v, k2, v2, w, Executed(w, o1));
    w' := LeadsThree(ops, w, o1, o2, o3);
  }

  lemma LeadsThree(ops: seq<Op>, w: World, o1: Op, o2: Op, o3: Op) returns (w': World)
    requires Leads(ops, w) && Fine(w, o1) && Fine(Executed(w, o1), o2) && Fine(Executed(Executed(w, o1), o2), o3)
    ensures Leads(ops + [o1, o2, o3], w') && w' == Executed(Executed(Executed(w, o1), o2), o3)
  {
    var w1 := Executed(w, o1);
    var w2 := Executed(w1, o2);
    LeadsNext(ops, w, o1);
    LeadsNext(ops + [o1], w1, o2);
    LeadsNext(ops + [o1] + [o2], w2, o3);
    w' := Executed(w2, o3);
    assert ops + [o1] + [o2] + [o3] == ops + [o1, o2, o3];
  }

  /** The flush of the other block: it is not careful, because it passes the first block's state. */
  function OtherFlush(b: Block, k: Bytes, v: Bytes, k2: Bytes, v2: Bytes): Event {
    Event(b, EMPTY, TwoWrites(k, v, k2, v2), Two(k, v, k2, v2), {HashOf(One(k, v))}, true, false)
  }

  /** The submission of a block without writes whose root is gone. */
  function EmptyBlock(c: Block, k: Bytes, v: Bytes): Event {
    Event(c, One(k, v), map[], One(k, v), {}, false, true)
  }

  lemma OtherIsNotCareful(d: Dag, a: Hash, b: Block, k: Bytes, v: Bytes, k2: Bytes, v2: Bytes)
    requires a in d.blocks && d.blocks[a].state == HashOf(One(k, v)) && v != [] && k != k2 && v2 != []
    ensures !Careful(d, OtherFlush(b, k, v, k2, v2))
  {
    OneIsNotEmpty(k, v);
    TwoDiffers(k, v, k2, v2);
    FlushNothing(EMPTY);
    var none: Writes := map[];
    FlushNext(EMPTY, none, EMPTY, k, Some(v));
    assert none[k := Some(v)] == map[k := Some(v)];
    PassesNow(EMPTY, map[k := Some(v)], One(k, v), k2, Some(v2));
    assert map[k := Some(v)][k2 := Some(v2)] == TwoWrites(k, v, k2, v2);
  }

  /** The database before and after the other block's flush. */
  lemma RootGoes(k: Bytes, v: Bytes, k2: Bytes, v2: Bytes) returns (w: World, w': World)
    requires v != [] && k != k2 && v2 != []
    ensures Leads(Setup(k, v) + SetupOther(), w) && Leads(Setup(k, v) + SetupOther() + FlushOther(k, v, k2, v2), w')
    ensures w'.at == map[ENGINE := One(k, v), FIRST := One(k, v), EMPTY_BLOCK := One(k, v), OTHER := Two(k, v, k2, v2)]
    ensures Flushing(EMPTY, w, TwoWrites(k, v, k2, v2), Two(k, v, k2, v2), w', true, {HashOf(One(k, v))})
  {
    var w0 := SetupLeads(k, v);
    w := OtherStarts(Setup(k, v), w0);
    w' := FlushLeads(k, v, k2, v2, Setup(k, v) + SetupOther(), w);
  }

  lemma OtherHappens(d: Dag, b: Block, k: Bytes, v: Bytes, k2: Bytes, v2: Bytes, w: World, w': World)
    requires d.nodes.Keys == d.blocks.Keys && Addressed(w')
    requires Flushing(EMPTY, w, TwoWrites(k, v, k2, v2), Two(k, v, k2, v2), w', true, {HashOf(One(k, v))})
    ensures Happens(d, w, OtherFlush(b, k, v, k2, v2), d, w') && HashOf(One(k, v)) !in w'.roots
  {
    FlushingHappens(d, b, EMPTY, w, TwoWrites(k, v, k2, v2), Two(k, v, k2, v2), w', {HashOf(One(k, v))});
    assert Gone(HashOf(One(k, v)), EMPTY, TwoWrites(k, v, k2, v2), Two(k, v, k2, v2), w');
  }

  /**
    The first block a has the state of k := v. Block c on top of it writes nothing, so it has the same
    state, and its world state stands there. Another block b on a's parent flushes k := v and k2 := v2
    and cleans up that root. Now c wins but the engine cannot move to its state: the invariant is lost.
  */
  lemma StateGoesMissing(g: Block, a: Block, b: Block, c: Block, k: Bytes, v: Bytes, k2: Bytes, v2: Bytes)
    returns (d: Dag, w: World, w': World, d': Dag)
    requires IsGenesis(g) && g.state == HashOf(EMPTY) && v != [] && k != k2 && v2 != []
    requires Hangs(a, g, [], []) && Hangs(c, a, [], []) && a.state == c.state == HashOf(One(k, v))
    requires a.hash != g.hash && c.hash !in {g.hash, a.hash}
    ensures Reachable(g, d) && Consistent(d) && d.tip == a
    ensures Leads(Setup(k, v) + SetupOther(), w) && Leads(Setup(k, v) + SetupOther() + FlushOther(k, v, k2, v2), w')
    ensures w'.at == map[ENGINE := One(k, v), FIRST := One(k, v), EMPTY_BLOCK := One(k, v), OTHER := Two(k, v, k2, v2)]
    ensures Happens(d, w, OtherFlush(b, k, v, k2, v2), d, w') && !Careful(d, OtherFlush(b, k, v, k2, v2))
    ensures Happens(d, w', EmptyBlock(c, k, v), d', w')
    ensures Submit(d, Arrived(EmptyBlock(c, k, v))) == (d', Checked(StateMissing)) && !Consistent(d')
  {
    d := FirstBlock(g, a);
    w, w' := RootGoes(k, v, k2, v2);
    OtherHappens(d, b, k, v, k2, v2, w, w');
    OtherIsNotCareful(d, a.hash, b, k, v, k2, v2);
    d' := MissingState(d, c, k, v, w');
  }

  lemma MissingState(d: Dag, c: Block, k: Bytes, v: Bytes, w: World) returns (d': Dag)
    requires Consistent(d) && Hangs(c, d.tip, [], []) && c.hash !in d.blocks && Addressed(w)
    requires c.state == HashOf(One(k, v)) && c.state !in w.roots
    ensures Happens(d, w, EmptyBlock(c, k, v), d', w)
    ensures Submit(d, Arrived(EmptyBlock(c, k, v))) == (d', Checked(StateMissing)) && !Consistent(d')
  {
    ValidateSound(d.blocks, c);
    SubmitConsistent(d, Arrived(EmptyBlock(c, k, v)));
    FlushNothing(One(k, v));
    d' := Submit(d, Arrived(EmptyBlock(c, k, v))).0;
  }
}
