/**
  A block's pending writes over its world state, and flushing them into the trie.

  Go iterates a map in an unspecified order; `PersistState` picks any order, cleans up the
  roots it passes on the way, and must still end at one root with the parent's root intact.
*/
module Overlay {
  import opened Hashing
  import opened Trie
  import opened NodeStore
  import opened Persistence
  import opened WorldState
  import opened Flush

  /**
    Every tree rebasable in w whose root is not among the cleaned ones is rebasable in w', and what
    could be read still can.
  */
  ghost predicate KeepsRoots(w: World, w': World, cleaned: set<Hash>) {
    && (forall t :: Rebasable(w, t) && HashOf(t) !in cleaned ==> Rebasable(w', t))
    && (forall t {:trigger Readable(w', t)} :: Readable(w, t) ==> Readable(w', t))
  }

  /** h is the root of a tree the flush has left behind. */
  ghost predicate LeftBehind(h: Hash, cur: Tree, done: Writes) {
    exists c :: HashOf(c) == h && Outdated(c, cur, done)
  }

  /** h was passed on the way, has been left behind, and cannot be rebased to. */
  ghost predicate Gone(h: Hash, start: Tree, done: Writes, cur: Tree, now: World) {
    LeftBehind(h, cur, done) && Passes(start, done, h) && h !in now.roots
  }

  /**
    A flush in progress: the writes in `done` are in, the roots in `cleaned` are gone, and `moved` tells
    whether the root has changed yet.
  */
  ghost predicate Flushing(start: Tree, first: World, done: Writes, cur: Tree, now: World, moved: bool,
                           cleaned: set<Hash>) {
    && IsFlush(start, done, cur)
    && (if moved then Outdated(start, cur, done) && Rebasable(now, cur) else cur == start)
    && HashOf(start) !in cleaned
    && (forall h :: h in cleaned ==> Gone(h, start, done, cur, now))
    && KeepsRoots(first, now, cleaned)
    && OnlyEndsAdded(first.roots, now.roots, HashOf(start), HashOf(cur))
  }

  /** No root is registered that was not, but the first and the one stood at. */
  ghost predicate OnlyEndsAdded(roots: set<Hash>, now: set<Hash>, start: Hash, cur: Hash) {
    now <= roots + {start, cur}
  }

  lemma OnlyEndsNext(roots: set<Hash>, now: set<Hash>, now': set<Hash>, start: Hash, cur: Hash, next: Hash,
                     more: set<Hash>)
    requires OnlyEndsAdded(roots, now, start, cur) && now' <= now + {cur, next} - more
    requires cur == start || cur in more || cur == next
    ensures OnlyEndsAdded(roots, now', start, next)
  {
  }

  lemma OutdatedDiffers(c: Tree, cur: Tree, done: Writes)
    requires Outdated(c, cur, done)
    ensures HashOf(c) != HashOf(cur)
  {
    if HashOf(c) == HashOf(cur) {
      HashBinds(c, cur);
    }
  }

  lemma LeftBehindDiffers(h: Hash, cur: Tree, done: Writes)
    requires LeftBehind(h, cur, done)
    ensures h != HashOf(cur)
  {
    var c :| HashOf(c) == h && Outdated(c, cur, done);
    OutdatedDiffers(c, cur, done);
  }

  /** What is left behind stays so after the next write. */
  lemma LeftBehindNext(h: Hash, cur: Tree, done: Writes, key: Bytes, write: Option<Bytes>)
    requires WF(cur) && LeftBehind(h, cur, done) && key !in done
    ensures LeftBehind(h, Apply(cur, key, write), done[key := write]) && h != HashOf(Apply(cur, key, write))
  {
    var c :| HashOf(c) == h && Outdated(c, cur, done);
    OutdatedNext(c, cur, done, key, write);
    LeftBehindDiffers(h, Apply(cur, key, write), done[key := write]);
  }

  /**
    What is gone stays so after the next write, which registers no root but the one it leaves and the
    one it reaches.
  */
  lemma GoneNext(h: Hash, start: Tree, done: Writes, cur: Tree, now: World, key: Bytes, write: Option<Bytes>,
                 now': World)
    requires WF(cur) && Gone(h, start, done, cur, now) && key !in done
    requires now'.roots <= now.roots + {HashOf(cur), HashOf(Apply(cur, key, write))}
    ensures Gone(h, start, done[key := write], Apply(cur, key, write), now')
  {
    LeftBehindDiffers(h, cur, done);
    LeftBehindNext(h, cur, done, key, write);
    PassesNext(start, done, h, key, write);
  }

  /** The root a changing write leaves is gone once it is cleaned up. */
  lemma GoneNow(start: Tree, done: Writes, cur: Tree, key: Bytes, write: Option<Bytes>, now': World)
    requires IsFlush(start, done, cur) && key !in done && Apply(cur, key, write) != cur && HashOf(cur) !in now'.roots
    ensures Gone(HashOf(cur), start, done[key := write], Apply(cur, key, write), now')
  {
    OutdatedNow(cur, done, key, write);
    PassesNow(start, done, cur, key, write);
  }

  lemma GoneAll(start: Tree, done: Writes, cur: Tree, now: World, key: Bytes, write: Option<Bytes>, now': World,
                cleaned: set<Hash>, more: set<Hash>)
    requires IsFlush(start, done, cur) && key !in done && Apply(cur, key, write) != cur && more <= {HashOf(cur)}
    requires forall h :: h in cleaned ==> Gone(h, start, done, cur, now)
    requires now'.roots <= now.roots + {HashOf(cur), HashOf(Apply(cur, key, write))} - more
    ensures forall h :: h in cleaned + more ==> Gone(h, start, done[key := write], Apply(cur, key, write), now')
  {
    forall h | h in cleaned + more
      ensures Gone(h, start, done[key := write], Apply(cur, key, write), now')
    {
      if h in cleaned {
        GoneNext(h, start, done, cur, now, key, write, now');
      } else {
        GoneNow(start, done, cur, key, write, now');
      }
    }
  }

  /** A step keeps every root but one it cleans up, and everything readable. */
  lemma StepKeepsRoots(w: World, op: Op, w': World, cleaned: set<Hash>)
    requires Next(w, op, w') && (op.Cleanup? ==> op.hash in cleaned)
    ensures KeepsRoots(w, w', cleaned)
  {
    forall t | Rebasable(w, t) && HashOf(t) !in cleaned
      ensures Rebasable(w', t)
    {
      StepKeepsRoot(w, op, w', t);
    }
    forall t | Readable(w, t)
      ensures Readable(w', t)
    {
      StepKeepsReadable(w, op, w', t);
    }
  }

  lemma KeepsRootsTransitive(w: World, w': World, w'': World, cleaned: set<Hash>, more: set<Hash>)
    requires KeepsRoots(w, w', cleaned) && KeepsRoots(w', w'', more)
    ensures KeepsRoots(w, w'', cleaned + more)
  {
    forall t | Readable(w, t)
      ensures Readable(w'', t)
    {
      assert Readable(w', t);
    }
  }

  /** One write that leaves the root alone. */
  lemma FlushingSame(start: Tree, first: World, done: Writes, cur: Tree, now: World, moved: bool, cleaned: set<Hash>,
                     key: Bytes, write: Option<Bytes>, now': World)
    requires Flushing(start, first, done, cur, now, moved, cleaned) && key !in done
    requires Apply(cur, key, write) == cur && KeepsRoots(now, now', {}) && now'.roots <= now.roots + {HashOf(cur)}
    ensures Flushing(start, first, done[key := write], cur, now', moved, cleaned)
  {
    FlushNext(start, done, cur, key, write);
    forall h | h in cleaned ensures Gone(h, start, done[key := write], cur, now') {
      GoneNext(h, start, done, cur, now, key, write, now');
    }
    if moved {
      OutdatedNext(start, cur, done, key, write);
      OutdatedDiffers(start, cur, done);
    }
    OnlyEndsNext(first.roots, now.roots, now'.roots, HashOf(start), HashOf(cur), HashOf(cur), {});
    KeepsRootsTransitive(first, now, now', cleaned, {});
    assert cleaned + {} == cleaned;
  }

  /**
    One write that changes the root; if the root had changed before, the old one is cleaned up and is
    not the first.
  */
  lemma FlushingMoves(start: Tree, first: World, done: Writes, cur: Tree, now: World, moved: bool, cleaned: set<Hash>,
                      key: Bytes, write: Option<Bytes>, next: Tree, now': World, more: set<Hash>)
    requires Flushing(start, first, done, cur, now, moved, cleaned) && key !in done
    requires next == Apply(cur, key, write) != cur && Rebasable(now', next)
    requires more == (if moved then {HashOf(cur)} else {}) && KeepsRoots(now, now', more)
    requires now'.roots <= now.roots + {HashOf(cur), HashOf(next)} - more
    ensures Flushing(start, first, done[key := write], next, now', true, cleaned + more)
  {
    var done' := done[key := write];
    FlushNext(start, done, cur, key, write);
    assert IsFlush(start, done', next);
    OutdatedNow(cur, done, key, write);
    if moved {
      OutdatedNext(start, cur, done, key, write);
      OutdatedDiffers(start, cur, done);
    }
    GoneAll(start, done, cur, now, key, write, now', cleaned, more);
    OnlyEndsNext(first.roots, now.roots, now'.roots, HashOf(start), HashOf(cur), HashOf(next), more);
    KeepsRootsTransitive(first, now, now', cleaned, more);
  }

  /** The flag tells whether the tree has changed. */
  lemma MovedTells(start: Tree, first: World, done: Writes, cur: Tree, now: World, moved: bool, cleaned: set<Hash>)
    requires Flushing(start, first, done, cur, now, moved, cleaned)
    ensures moved <==> cur != start
  {
    if moved {
      OutdatedDiffers(start, cur, done);
    }
  }

  /**
    A finished flush never cleaned up the root it ends at, which can be rebased to if it is new or the
    first root could be.
  */
  lemma FlushEnds(start: Tree, first: World, done: Writes, cur: Tree, now: World, moved: bool, cleaned: set<Hash>)
    requires Flushing(start, first, done, cur, now, moved, cleaned)
    ensures HashOf(cur) !in cleaned
    ensures cur != start || Rebasable(first, start) ==> Rebasable(now, cur)
  {
    if HashOf(cur) in cleaned {
      LeftBehindDiffers(HashOf(cur), cur, done);
    }
  }

  // ---------- Which roots are cleaned up ----------

  /** The writes in this order lead to cur, and all roots on the way but the first and the last have been cleaned up. */
  ghost predicate CleansAlong(start: Tree, ws: Writes, order: seq<Bytes>, cur: Tree, cleaned: set<Hash>) {
    && WF(start) && EachOnce(order, ws) && cur == TreeAfter(start, ws, order)
    && cleaned == RootsAlong(start, ws, order) - {HashOf(start), HashOf(cur)}
  }

  /** For some order of all the writes, exactly the roots between the first and the last have been cleaned up. */
  ghost predicate CleansBetween(start: Tree, ws: Writes, end: Tree, cleaned: set<Hash>) {
    exists order :: (forall k :: k in ws ==> k in order) && CleansAlong(start, ws, order, end, cleaned)
  }

  /** One more write: the root it leaves is cleaned up if it is not the first and the root changes. */
  lemma CleansNext(start: Tree, ws: Writes, order: seq<Bytes>, cur: Tree, cleaned: set<Hash>, key: Bytes,
                   next: Tree, cleaned': set<Hash>)
    requires CleansAlong(start, ws, order, cur, cleaned) && key in ws && key !in order
    requires next == Apply(cur, key, ws[key]) && HashOf(next) !in cleaned'
    requires cleaned' == cleaned + if next != cur && cur != start then {HashOf(cur)} else {}
    ensures CleansAlong(start, ws, order + [key], next, cleaned')
  {
    AlongNext(start, ws, order, key);
    if HashOf(cur) == HashOf(start) {
      HashBinds(cur, start);
    }
  }

  // ---------- Which flushes register their root ----------

  /** The write stores the root it ends at: every update, and every delete whose path can be followed. */
  ghost predicate Touches(s: Snapshot, key: Bytes, write: Option<Bytes>) {
    write.Some? || Follows(s.nodes, s.rootNode, Hex(key))
  }

  ghost predicate TouchesAny(s: Snapshot, ws: Writes) {
    exists k :: k in ws && Touches(s, k, ws[k])
  }

  /** After flushing these writes the root can be rebased to: it can be already, or some write touches. */
  ghost predicate Ready(s: Snapshot, ws: Writes) {
    Rebasable(s.world, s.tree) || TouchesAny(s, ws)
  }

  /** A write that touches makes the root it ends at rebasable; any other changes nothing. */
  ghost predicate Registers(s: Snapshot, key: Bytes, write: Option<Bytes>, s': Snapshot) {
    if Touches(s, key, write) then Rebasable(s'.world, s'.tree) else s' == s
  }

  ghost predicate ReadySoFar(first: Snapshot, done: Writes, now: Snapshot) {
    if Ready(first, done) then Rebasable(now.world, now.tree) else now == first
  }

  lemma ReadyNext(first: Snapshot, done: Writes, now: Snapshot, key: Bytes, write: Option<Bytes>, now': Snapshot)
    requires ReadySoFar(first, done, now) && key !in done && Registers(now, key, write, now')
    ensures ReadySoFar(first, done[key := write], now')
  {
    var done' := done[key := write];
    if TouchesAny(first, done) {
      var k :| k in done && Touches(first, k, done[k]);
      assert k in done' && Touches(first, k, done'[k]);
    }
    if Touches(first, key, write) {
      assert key in done' && Touches(first, key, done'[key]);
    }
  }

  /** Everything known of a flush whose writes in `done` are in, in this order. */
  ghost predicate FlushSoFar(was: Snapshot, ws: Writes, done: Writes, order: seq<Bytes>, now: Snapshot, moved: bool,
                             cleaned: set<Hash>) {
    && PartInOrder(ws, done, order)
    && Flushing(was.tree, was.world, done, now.tree, now.world, moved, cleaned)
    && ReadySoFar(was, done, now) && CleansAlong(was.tree, ws, order, now.tree, cleaned)
  }

  /** The writes in `done` are those to the keys in this order. */
  ghost predicate PartInOrder(ws: Writes, done: Writes, order: seq<Bytes>) {
    && (forall k :: k in done ==> k in ws && done[k] == ws[k])
    && (forall k :: k in order <==> k in done)
  }

  lemma PartInOrderNext(ws: Writes, done: Writes, order: seq<Bytes>, key: Bytes)
    requires PartInOrder(ws, done, order) && key in ws && key !in done
    ensures PartInOrder(ws, done[key := ws[key]], order + [key]) && key !in order
  {
  }

  lemma FlushSoFarNext(was: Snapshot, ws: Writes, done: Writes, order: seq<Bytes>, now: Snapshot, moved: bool,
                       cleaned: set<Hash>, key: Bytes, now': Snapshot, moved': bool, cleaned': set<Hash>)
    requires FlushSoFar(was, ws, done, order, now, moved, cleaned) && key in ws && key !in done
    requires Flushing(was.tree, was.world, done[key := ws[key]], now'.tree, now'.world, moved', cleaned')
    requires WF(now.tree) && now'.tree == Apply(now.tree, key, ws[key]) && Registers(now, key, ws[key], now')
    requires cleaned' == cleaned + if now'.tree != now.tree && now.tree != was.tree then {HashOf(now.tree)} else {}
    ensures FlushSoFar(was, ws, done[key := ws[key]], order + [key], now', moved', cleaned')
  {
    PartInOrderNext(ws, done, order, key);
    FlushEnds(was.tree, was.world, done[key := ws[key]], now'.tree, now'.world, moved', cleaned');
    CleansNext(was.tree, ws, order, now.tree, cleaned, key, now'.tree, cleaned');
    ReadyNext(was, done, now, key, ws[key], now');
  }

  /**
    A write loses no root but, if it cleans up, the one it leaves; it registers none but the two; a new
    root can be rebased to.
  */
  ghost predicate Leaves(s: Snapshot, s': Snapshot, cleans: bool) {
    var more := if cleans then {HashOf(s.tree)} else {};
    && KeepsRoots(s.world, s'.world, more)
    && s'.world.roots <= s.world.roots + {HashOf(s.tree), HashOf(s'.tree)} - more
    && (s'.tree != s.tree ==> Rebasable(s'.world, s'.tree))
  }

  class BlockState {
    const worldState: MptWorldState
    var variables: Writes

    ghost predicate Valid()
      reads this, worldState, worldState.db
    {
      worldState.Valid()
    }

    /** What the block returns for a key. */
    ghost function Sees(key: Bytes): Option<Bytes>
      requires Valid()
      reads this, worldState, worldState.db
    {
      Seen(worldState.tree, variables, key)
    }

    constructor (state: MptWorldState)
      requires state.Valid()
      ensures worldState == state && variables == map[] && Valid()
    {
      worldState, variables := state, map[];
    }

    method Update(key: Bytes, value: Bytes)
      requires Valid()
      modifies this`variables
      ensures Valid() && variables == old(variables)[key := Some(value)]
      ensures forall k :: Sees(k) == if k == key then Some(value) else old(Sees(k))
    {
      variables := variables[key := Some(value)];
    }

    method Delete(key: Bytes)
      requires Valid()
      modifies this`variables
      ensures Valid() && variables == old(variables)[key := None]
      ensures forall k :: Sees(k) == if k == key then None else old(Sees(k))
    {
      variables := variables[key := None];
    }

    /** Reads a key, and remembers a value that came from the world state. */
    method Lookup(key: Bytes) returns (value: Option<Bytes>)
      requires Valid()
      modifies this`variables
      ensures Valid() && value == old(Sees(key))
      ensures forall k :: Sees(k) == old(Sees(k))
      ensures forall t' :: IsFlush(worldState.tree, old(variables), t') ==> IsFlush(worldState.tree, variables, t')
    {
      if key in variables {
        return variables[key];
      }
      value := worldState.Lookup(key);
      if value.Some? {
        forall t' | IsFlush(worldState.tree, variables, t')
          ensures IsFlush(worldState.tree, variables[key := value], t')
        {
          CachingIsInvisible(worldState.tree, variables, key, t');
        }
        variables := variables[key := value];
      }
    }

    /** Applies one pending write to the trie. */
    method ApplyWrite(key: Bytes, write: Option<Bytes>) returns (newHash: Hash)
      requires Valid()
      modifies worldState, worldState.db
      ensures Valid() && worldState.tree == Apply(old(worldState.tree), key, write) && newHash == worldState.rootHash
      ensures KeepsRoots(old(worldState.View()), worldState.View(), {})
      ensures worldState.View().roots <= old(worldState.View().roots) + {old(worldState.rootHash), newHash}
      ensures Registers(old(worldState.Now()), key, write, worldState.Now())
    {
      ghost var before := worldState.View();
      if write.None? {
        newHash := worldState.Delete(key);
      } else {
        newHash := worldState.Update(key, write.value);
      }
      ghost var op := if write.None? then Op.Delete(ME, key) else Op.Update(ME, key, write.value);
      ghost var after := worldState.View();
      assert Next(before, op, after);
      StepKeepsRoots(before, op, after, {});
    }

    /** Forgets a root that was only passed on the way. */
    method Forget(root: Hash)
      requires Valid()
      modifies worldState.db
      ensures Valid() && KeepsRoots(old(worldState.View()), worldState.View(), {root})
      ensures root in old(worldState.db.trees) ==> worldState.View().roots == old(worldState.View().roots) - {root}
    {
      ghost var before, db := worldState.View(), worldState.db;
      ghost var seen := db.View();
      var _ := worldState.db.Cleanup(root);
      ghost var after := worldState.View();
      assert Next(seen, Op.Cleanup(root), db.View());
      assert Next(before, Op.Cleanup(root), after);
      StepKeepsRoots(before, Op.Cleanup(root), after, {root});
      StepKeepsReadable(before, Op.Cleanup(root), after, worldState.tree);
    }

    /** Applies one pending write and, once the root has moved before, cleans up the root this one leaves. */
    method WriteAndLeave(key: Bytes, write: Option<Bytes>, moved: bool) returns (changed: bool)
      requires Valid() && (moved ==> Rebasable(worldState.View(), worldState.tree))
      modifies worldState, worldState.db
      ensures Valid() && worldState.tree == Apply(old(worldState.tree), key, write)
      ensures changed <==> worldState.tree != old(worldState.tree)
      ensures Leaves(old(worldState.Now()), worldState.Now(), moved && changed)
      ensures Registers(old(worldState.Now()), key, write, worldState.Now())
    {
      ghost var was := worldState.Now();
      var oldHash := worldState.rootHash;
      var newHash := ApplyWrite(key, write);
      changed := newHash != oldHash;
      if !changed {
        HashBinds(was.tree, worldState.tree);
        return;
      }
      if moved {
        ghost var written := worldState.View();
        Forget(oldHash);
        KeepsRootsTransitive(was.world, written, worldState.View(), {}, {oldHash});
        assert {} + {oldHash} == {oldHash};
      }
    }

    /**
      Flushes one pending write: the first change of root leaves the parent's root alone, later ones clean
      up the root they leave.
    */
    method FlushOne(key: Bytes, write: Option<Bytes>, moved: bool,
                    ghost start: Tree, ghost first: World, ghost done: Writes, ghost cleaned: set<Hash>)
      returns (moved': bool, ghost cleaned': set<Hash>)
      requires Valid() && key !in done
      requires Flushing(start, first, done, worldState.tree, worldState.View(), moved, cleaned)
      modifies worldState, worldState.db
      ensures Valid()
      ensures Flushing(start, first, done[key := write], worldState.tree, worldState.View(), moved', cleaned')
      ensures worldState.tree == Apply(old(worldState.tree), key, write)
      ensures cleaned' == cleaned
        + if worldState.tree != old(worldState.tree) && old(worldState.tree) != start
          then {old(worldState.rootHash)} else {}
      ensures Registers(old(worldState.Now()), key, write, worldState.Now())
    {
      ghost var cur, now := worldState.tree, worldState.View();
      MovedTells(start, first, done, cur, now, moved, cleaned);
      var changed := WriteAndLeave(key, write, moved);
      moved', cleaned' := moved || changed, cleaned;
      if !changed {
        FlushingSame(start, first, done, cur, now, moved, cleaned, key, write, worldState.View());
      } else {
        ghost var more := if moved then {HashOf(cur)} else {};
        FlushingMoves(start, first, done, cur, now, moved, cleaned, key, write,
                      worldState.tree, worldState.View(), more);
        cleaned' := cleaned + more;
      }
    }

    /**
      Flushes all pending writes, in any order. `cleaned` are the roots it cleaned up on the way: roots
      reached by part of the writes, which can no longer be rebased to. The root it ends at can be
      rebased to exactly if the first root could be, or some write touches.
    */
    method PersistState() returns (ghost cleaned: set<Hash>)
      requires Valid()
      modifies worldState, worldState.db
      ensures Valid() && IsFlush(old(worldState.tree), variables, worldState.tree)
      ensures HashOf(old(worldState.tree)) !in cleaned && HashOf(worldState.tree) !in cleaned
      ensures forall h :: h in cleaned ==> Passes(old(worldState.tree), variables, h) && h !in worldState.db.txRoots
      ensures CleansBetween(old(worldState.tree), variables, worldState.tree, cleaned)
      ensures KeepsRoots(old(worldState.View()), worldState.View(), cleaned)
      ensures worldState.View().roots <=
        old(worldState.View().roots) + {HashOf(old(worldState.tree)), HashOf(worldState.tree)}
      ensures Rebasable(worldState.View(), worldState.tree) <==> Ready(old(worldState.Now()), variables)
    {
      var ws := variables;
      ghost var was, done: Writes, order: seq<Bytes> := worldState.Now(), map[], [];
      cleaned := {};
      FlushNothing(was.tree);
      var skippedParentState := false;
      var left := ws.Keys;
      while left != {}
        invariant Valid() && left <= ws.Keys && done.Keys == ws.Keys - left
        invariant FlushSoFar(was, ws, done, order, worldState.Now(), skippedParentState, cleaned)
        decreases left
      {
        var key :| key in left;
        ghost var now, before, moved := worldState.Now(), cleaned, skippedParentState;
        skippedParentState, cleaned := FlushOne(key, ws[key], skippedParentState, was.tree, was.world, done, cleaned);
        FlushSoFarNext(was, ws, done, order, now, moved, before, key, worldState.Now(), skippedParentState, cleaned);
        assert ws.Keys - (left - {key}) == ws.Keys - left + {key};
        done, order := done[key := ws[key]], order + [key];
        left := left - {key};
      }
      assert done == ws && PartInOrder(ws, done, order);
      FlushEnds(was.tree, was.world, done, worldState.tree, worldState.View(), skippedParentState, cleaned);
    }
  }
}
