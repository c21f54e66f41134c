/**
  Which state roots stay rebasable while blocks come in. A flush may clean up a root it passes, and
  such a root may be another block's state. As long as that does not happen, every stored block's
  state can be rebased to and the engine's invariant holds.
*/
module Commitments {
  import opened Hashing
  import opened Ancestry
  import opened ForkChoice
  import opened Runs
  import opened Trie
  import opened Persistence
  import opened Flush
  import opened Overlay

  /**
    A block's writes are flushed over the tree it started from. `cleaned` are the roots cleaned up on
    the way, `ready` tells whether the root it ended at can be rebased to, and `submitted` whether the
    block then went to the engine or only had its hash checked.
  */
  datatype Event = Event(
    block: Block,
    start: Tree,
    writes: Writes,
    end: Tree,
    cleaned: set<Hash>,
    ready: bool,
    submitted: bool)

  /** What an event does to the engine and to the database. */
  ghost predicate Happens(d: Dag, w: World, e: Event, d': Dag, w': World)
    requires d.nodes.Keys == d.blocks.Keys
  {
    && Addressed(w')
    && IsFlush(e.start, e.writes, e.end)
    && HashOf(e.start) !in e.cleaned && HashOf(e.end) !in e.cleaned
    && (forall h :: h in e.cleaned ==> Passes(e.start, e.writes, h))
    && KeepsRoots(w, w', e.cleaned)
    && (Rebasable(w, e.start) ==> e.ready) && (e.ready ==> Rebasable(w', e.end))
    && d' == if e.submitted then Submit(d, Arrived(e)).0 else d
  }

  function Arrived(e: Event): Submission {
    Submission(e.block, HashOf(e.end), if e.ready then {HashOf(e.end)} else {})
  }

  /** Every stored block's state can be rebased to. */
  ghost predicate Committed(d: Dag, w: World) {
    forall h :: h in d.blocks ==> d.blocks[h].state in Roots(w)
  }

  /** The flush passes no stored block's state but those it starts from or ends at. */
  ghost predicate PassesNoState(d: Dag, e: Event) {
    forall h :: h in d.blocks && d.blocks[h].state !in {HashOf(e.start), HashOf(e.end)} ==>
      !Passes(e.start, e.writes, d.blocks[h].state)
  }

  /**
    The flush passes no stored block's state, and a submitted block that is not ready stands at its
    parent's state. A block whose hash was checked before stands at the root of its own writes, which
    the check has made ready.
  */
  ghost predicate Careful(d: Dag, e: Event) {
    && (e.submitted && !e.ready && e.block.parent in d.blocks ==> HashOf(e.start) == d.blocks[e.block.parent].state)
    && PassesNoState(d, e)
  }

  /**
    Anything that cleans up no root and does not concern the engine, like setting up a world state, is
    an event without writes.
  */
  function Quiet(b: Block, w': World): Event {
    Event(b, EMPTY, map[], EMPTY, {}, HashOf(EMPTY) in Roots(w'), false)
  }

  lemma QuietHappens(d: Dag, w: World, b: Block, w': World)
    requires d.nodes.Keys == d.blocks.Keys && Addressed(w') && KeepsRoots(w, w', {})
    ensures Happens(d, w, Quiet(b, w'), d, w') && Careful(d, Quiet(b, w'))
  {
    FlushNothing(EMPTY);
    RootsOfTree(w', EMPTY);
  }

  lemma RootsOfTree(w: World, t: Tree)
    requires Addressed(w) && WF(t)
    ensures HashOf(t) in Roots(w) <==> Rebasable(w, t)
  {
    if HashOf(t) in w.trees {
      HashBinds(t, w.trees[HashOf(t)]);
    }
  }

  /** A finished flush that changed the root is an event. */
  lemma FlushingHappens(d: Dag, b: Block, start: Tree, w: World, ws: Writes, end: Tree, w': World, cleaned: set<Hash>)
    requires d.nodes.Keys == d.blocks.Keys && Addressed(w') && Flushing(start, w, ws, end, w', true, cleaned)
    ensures Happens(d, w, Event(b, start, ws, end, cleaned, true, false), d, w')
  {
    FlushEnds(start, w, ws, end, w', true, cleaned);
  }

  lemma CommittedRebasable(d: Dag, w: World, h: Hash, t: Tree)
    requires Committed(d, w) && Addressed(w) && h in d.blocks && WF(t) && HashOf(t) == d.blocks[h].state
    ensures Rebasable(w, t)
  {
    HashBinds(t, w.trees[HashOf(t)]);
  }

  lemma EventKeepsRoot(d: Dag, w: World, e: Event, d': Dag, w': World, h: Hash)
    requires d.nodes.Keys == d.blocks.Keys && Addressed(w) && Committed(d, w) && Happens(d, w, e, d', w')
    requires Careful(d, e) && h in d.blocks
    ensures d.blocks[h].state in Roots(w')
  {
    var s := d.blocks[h].state;
    assert Rebasable(w, w.trees[s]) && s !in e.cleaned;
    assert Rebasable(w', w.trees[s]);
  }

  /** A submission stores nothing but its block, and that only after validation, with the state its replay reached. */
  lemma SubmitAdds(d: Dag, s: Submission)
    requires d.nodes.Keys == d.blocks.Keys
    ensures var bs := Submit(d, s).0.blocks;
      || bs == d.blocks
      || (bs == d.blocks[s.block.hash := s.block] && Validate(d.blocks, s.block) == None && s.replayed == s.block.state)
  {
  }

  /** What a submitted event comes to: a ready one is safe, and only an unsafe one finds its state missing. */
  lemma EventSubmits(d: Dag, e: Event)
    requires Consistent(d)
    ensures var (d', v) := Submit(d, Arrived(e));
      && (Consistent(d') <==> SafeToSubmit(d, Arrived(e)))
      && (e.ready ==> SafeToSubmit(d, Arrived(e)) && v != Checked(StateMissing))
  {
    SubmitConsistent(d, Arrived(e));
  }

  /** A careful event over committed states is ready when it passes validation, and safe to submit. */
  lemma EventReady(d: Dag, w: World, e: Event, d': Dag, w': World)
    requires d.nodes.Keys == d.blocks.Keys && Addressed(w) && Committed(d, w) && Happens(d, w, e, d', w')
    requires Careful(d, e) && e.submitted
    ensures Validate(d.blocks, e.block) == None ==> e.ready && HashOf(e.end) in Roots(w')
    ensures SafeToSubmit(d, Arrived(e))
  {
    if Validate(d.blocks, e.block) == None && !e.ready {
      CommittedRebasable(d, w, e.block.parent, e.start);
    }
  }

  lemma EventKeepsCommitted(d: Dag, w: World, e: Event, d': Dag, w': World)
    requires d.nodes.Keys == d.blocks.Keys && Addressed(w) && Committed(d, w) && Happens(d, w, e, d', w')
    requires Careful(d, e)
    ensures Committed(d', w')
  {
    if e.submitted {
      EventReady(d, w, e, d', w');
      SubmitAdds(d, Arrived(e));
    }
    forall h | h in d'.blocks ensures d'.blocks[h].state in Roots(w') {
      if h in d.blocks {
        EventKeepsRoot(d, w, e, d', w', h);
      }
    }
  }

  /** One careful event keeps every committed state and the engine's invariant, and so never finds a state missing. */
  lemma EventCommits(d: Dag, w: World, e: Event, d': Dag, w': World)
    requires Consistent(d) && Addressed(w) && Committed(d, w) && Happens(d, w, e, d', w') && Careful(d, e)
    ensures Consistent(d') && Committed(d', w')
    ensures e.submitted ==> Submit(d, Arrived(e)).1 != Checked(StateMissing)
  {
    EventKeepsCommitted(d, w, e, d', w');
    if e.submitted {
      EventReady(d, w, e, d', w');
      SubmitConsistent(d, Arrived(e));
    }
  }

  /** The invariant holds and every stored block's state can be rebased to. */
  ghost predicate Intact(d: Dag, w: World) {
    Consistent(d) && Addressed(w) && Committed(d, w)
  }

  ghost predicate CarefulStep(d: Dag, w: World, e: Event, d': Dag, w': World) {
    d.nodes.Keys == d.blocks.Keys && Happens(d, w, e, d', w') && Careful(d, e)
  }

  lemma StepStaysIntact(d: Dag, w: World, e: Event, d': Dag, w': World)
    requires CarefulStep(d, w, e, d', w') && Intact(d, w)
    ensures Intact(d', w')
  {
    EventCommits(d, w, e, d', w');
  }

  ghost predicate CarefulRun(ds: seq<Dag>, ws: seq<World>, es: seq<Event>) {
    && |ds| == |ws| == |es| + 1
    && forall k :: 0 <= k < |es| ==> CarefulStep(ds[k], ws[k], es[k], ds[k + 1], ws[k + 1])
  }

  /** Over every run of careful events all stored states stay rebasable and the invariant holds. */
  lemma {:induction false} RunCommits(ds: seq<Dag>, ws: seq<World>, es: seq<Event>, i: nat)
    requires CarefulRun(ds, ws, es) && i <= |es| && Intact(ds[0], ws[0])
    ensures Intact(ds[i], ws[i])
    decreases i
  {
    if i > 0 {
      RunCommits(ds, ws, es, i - 1);
      assert CarefulStep(ds[i - 1], ws[i - 1], es[i - 1], ds[i], ws[i]);
      StepStaysIntact(ds[i - 1], ws[i - 1], es[i - 1], ds[i], ws[i]);
    }
  }

  /** A new engine on a database that has the empty root starts intact. */
  lemma InitialIntact(genesis: Block, w: World)
    requires genesis.depth == 0 && genesis.uncles == [] && genesis.parent == Null && Addressed(w)
    requires genesis.state in Roots(w)
    ensures Intact(Initial(genesis), w)
  {
    InitialConsistent(genesis);
  }
}
