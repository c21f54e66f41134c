/**
  Flushing a block's pending writes into the trie.

  The writes are a map from key to new value, or None for a delete. They are applied in any
  order; `IsFlush` says, without mentioning an order, what tree must come out.
*/
module Flush {
  import opened Hashing
  import opened Trie
  import opened NodeStore

  type Writes = map<Bytes, Option<Bytes>>

  /** One pending write applied to the trie. */
  function Apply(t: Tree, key: Bytes, write: Option<Bytes>): (t': Tree)
    requires WF(t)
    ensures WF(t')
  {
    if write.None? then Del(t, Hex(key)) else Put(t, Hex(key), write.value)
  }

  /** Some written key is the path p. */
  ghost predicate Covered(ws: Writes, p: Path) {
    exists k :: k in ws && Hex(k) == p
  }

  /** Some key that is given a value runs through p and goes on. */
  ghost predicate Crossed(ws: Writes, p: Path) {
    exists k :: k in ws && ws[k].Some? && p < Hex(k)
  }

  /** What a key's path holds after the flush. */
  ghost function KeyAfter(t: Tree, ws: Writes, k: Bytes): Option<Bytes>
    requires WF(t) && k in ws
  {
    if ws[k].Some? then ws[k]
    else if Raw(t, Hex(k)).None? && !Crossed(ws, Hex(k)) then None
    else Some([])
  }

  /** What any other path holds after the flush. */
  ghost function PathAfter(t: Tree, ws: Writes, p: Path): Option<Bytes>
    requires WF(t)
  {
    if Raw(t, p).None? && Crossed(ws, p) then Some([]) else Raw(t, p)
  }

  /** t' is t with all the writes in it. */
  ghost predicate IsFlush(t: Tree, ws: Writes, t': Tree) {
    && WF(t) && WF(t')
    && (forall k :: k in ws ==> Raw(t', Hex(k)) == KeyAfter(t, ws, k))
    && (forall p :: !Covered(ws, p) ==> Raw(t', p) == PathAfter(t, ws, p))
  }

  /** A flush has one result, whatever order the writes were applied in. */
  lemma FlushUnique(t: Tree, ws: Writes, t1: Tree, t2: Tree)
    requires IsFlush(t, ws, t1) && IsFlush(t, ws, t2)
    ensures t1 == t2 && HashOf(t1) == HashOf(t2)
  {
    forall p
      ensures Raw(t1, p) == Raw(t2, p)
    {
      if Covered(ws, p) {
        var k :| k in ws && Hex(k) == p;
      }
    }
    Extensional(t1, t2);
  }

  lemma FlushNothing(t: Tree)
    requires WF(t)
    ensures IsFlush(t, map[], t)
  {
  }

  /** What one write does to a path. */
  lemma RawApply(t: Tree, key: Bytes, write: Option<Bytes>, p: Path)
    requires WF(t)
    ensures Raw(Apply(t, key, write), p) ==
      if p == Hex(key) then (if write.Some? then write else if Raw(t, p).Some? then Some([]) else None)
      else if write.Some? && p < Hex(key) && Raw(t, p).None? then Some([])
      else Raw(t, p)
  {
    if write.None? {
      RawDel(t, Hex(key), p);
    } else {
      RawPut(t, Hex(key), write.value, p);
    }
  }

  lemma CrossedNext(ws: Writes, key: Bytes, write: Option<Bytes>, p: Path)
    requires key !in ws
    ensures Crossed(ws[key := write], p) <==> Crossed(ws, p) || (write.Some? && p < Hex(key))
  {
    var ws' := ws[key := write];
    if Crossed(ws, p) {
      var k :| k in ws && ws[k].Some? && p < Hex(k);
      assert k in ws' && ws'[k].Some?;
    }
    if write.Some? && p < Hex(key) {
      assert key in ws' && ws'[key].Some?;
    }
  }

  lemma NotCovered(ws: Writes, key: Bytes)
    requires key !in ws
    ensures !Covered(ws, Hex(key))
  {
    if Covered(ws, Hex(key)) {
      var k :| k in ws && Hex(k) == Hex(key);
      HexInjective(k, key);
    }
  }

  /** Applying one more write extends the flush by it. */
  lemma FlushNext(t: Tree, ws: Writes, cur: Tree, key: Bytes, write: Option<Bytes>)
    requires IsFlush(t, ws, cur) && key !in ws
    ensures IsFlush(t, ws[key := write], Apply(cur, key, write))
  {
    var ws', next := ws[key := write], Apply(cur, key, write);
    NotCovered(ws, key);
    forall k | k in ws'
      ensures Raw(next, Hex(k)) == KeyAfter(t, ws', k)
    {
      RawApply(cur, key, write, Hex(k));
      CrossedNext(ws, key, write, Hex(k));
      if k != key {
        if Hex(k) == Hex(key) {
          HexInjective(k, key);
        }
        assert Raw(cur, Hex(k)) == KeyAfter(t, ws, k);
      }
    }
    forall p | !Covered(ws', p)
      ensures Raw(next, p) == PathAfter(t, ws', p)
    {
      RawApply(cur, key, write, p);
      CrossedNext(ws, key, write, p);
      assert key in ws' && p != Hex(key);
      assert forall k :: k in ws && Hex(k) == p ==> k in ws';
    }
  }

  /** A write changes the tree exactly when it changes what its own path holds. */
  lemma ApplySame(t: Tree, key: Bytes, write: Option<Bytes>)
    requires WF(t)
    ensures Apply(t, key, write) == t <==> Raw(Apply(t, key, write), Hex(key)) == Raw(t, Hex(key))
    ensures Apply(t, key, write) != t ==> Raw(Apply(t, key, write), Hex(key)).Some?
  {
    RawApply(t, key, write, Hex(key));
    if write.None? {
      DelSame(t, Hex(key));
    } else {
      PutSame(t, Hex(key), write.value);
    }
  }

  // ---------- Flushing again, and reading ----------

  /** Every write of a finished flush is already in the tree, so flushing again changes nothing at any step. */
  lemma FlushTwice(t: Tree, ws: Writes, t': Tree, k: Bytes)
    requires IsFlush(t, ws, t') && k in ws
    ensures Apply(t', k, ws[k]) == t'
  {
    ApplySame(t', k, ws[k]);
    RawApply(t', k, ws[k], Hex(k));
    assert Raw(t', Hex(k)) == KeyAfter(t, ws, k);
  }

  /** A second flush of the same writes ends where the first did. */
  lemma FlushAgain(t: Tree, ws: Writes, t': Tree, t'': Tree)
    requires IsFlush(t, ws, t') && IsFlush(t', ws, t'')
    ensures t'' == t' && HashOf(t'') == HashOf(t')
  {
    forall k | k in ws
      ensures Raw(t', Hex(k)) == KeyAfter(t', ws, k)
    {
      assert Raw(t', Hex(k)) == KeyAfter(t, ws, k);
    }
    forall p | !Covered(ws, p)
      ensures Raw(t', p) == PathAfter(t', ws, p)
    {
      assert Raw(t', p) == PathAfter(t, ws, p);
    }
    assert IsFlush(t', ws, t');
    FlushUnique(t', ws, t', t'');
  }

  /**
    Two peers that start from the same root and flush the same writes, each in its own order and its own
    database, reach the same root.
  */
  lemma PeersFlushAlike(t1: Tree, t2: Tree, ws: Writes, t1': Tree, t2': Tree)
    requires IsFlush(t1, ws, t1') && IsFlush(t2, ws, t2') && HashOf(t1) == HashOf(t2)
    ensures HashOf(t1') == HashOf(t2')
  {
    HashBinds(t1, t2);
    FlushUnique(t1, ws, t1', t2');
  }

  /** What a block with these pending writes over t returns for a key. */
  ghost function Seen(t: Tree, ws: Writes, key: Bytes): Option<Bytes>
    requires WF(t)
  {
    if key in ws then ws[key] else Read(t, key)
  }

  /** What a world state at t returns for a key. */
  ghost function Read(t: Tree, key: Bytes): Option<Bytes>
    requires WF(t)
  {
    if Value(t, Hex(key)) == [] then None else Some(Value(t, Hex(key)))
  }

  /**
    After the flush the trie answers every key as the block did before, unless the block held an empty
    value for it.
  */
  lemma FlushReadsSame(t: Tree, ws: Writes, t': Tree, key: Bytes)
    requires IsFlush(t, ws, t')
    ensures Read(t', key) == Seen(t, ws, key) <==> !(key in ws && ws[key] == Some([]))
  {
    if key !in ws {
      NotCovered(ws, key);
    } else {
      assert Raw(t', Hex(key)) == KeyAfter(t, ws, key);
    }
  }

  /** Remembering a value that was read does not change what the flush produces. */
  lemma CachingIsInvisible(t: Tree, ws: Writes, key: Bytes, t': Tree)
    requires IsFlush(t, ws, t') && key !in ws && Read(t, key).Some?
    ensures IsFlush(t, ws[key := Read(t, key)], t')
  {
    var value := Read(t, key);
    FlushNext(t, ws, t', key, value);
    NotCovered(ws, key);
    assert Raw(t', Hex(key)) == PathAfter(t, ws, Hex(key));
    PutSame(t', Hex(key), value.value);
  }

  // ---------- The roots passed on the way ----------

  /** The keys in this order, each once, are some of the writes. */
  ghost predicate EachOnce(order: seq<Bytes>, ws: Writes) {
    (forall k :: k in order ==> k in ws) && forall i, j :: 0 <= i < j < |order| ==> order[i] != order[j]
  }

  /** The tree after the writes to these keys, one after the other. */
  ghost function TreeAfter(t: Tree, ws: Writes, order: seq<Bytes>): (t': Tree)
    requires WF(t) && forall k :: k in order ==> k in ws
    ensures WF(t')
  {
    if order == [] then t
    else
      var last := order[|order| - 1];
      assert last in order;
      Apply(TreeAfter(t, ws, order[..|order| - 1]), last, ws[last])
  }

  /** The roots on the way, first and last included. */
  ghost function RootsAlong(t: Tree, ws: Writes, order: seq<Bytes>): set<Hash>
    requires WF(t) && forall k :: k in order ==> k in ws
  {
    if order == [] then {HashOf(t)}
    else RootsAlong(t, ws, order[..|order| - 1]) + {HashOf(TreeAfter(t, ws, order))}
  }

  lemma AlongNext(t: Tree, ws: Writes, order: seq<Bytes>, key: Bytes)
    requires WF(t) && EachOnce(order, ws) && key in ws && key !in order
    ensures EachOnce(order + [key], ws)
    ensures TreeAfter(t, ws, order + [key]) == Apply(TreeAfter(t, ws, order), key, ws[key])
    ensures RootsAlong(t, ws, order + [key]) == RootsAlong(t, ws, order) + {HashOf(TreeAfter(t, ws, order + [key]))}
    ensures HashOf(TreeAfter(t, ws, order)) in RootsAlong(t, ws, order)
  {
    assert (order + [key])[..|order|] == order;
  }

  /** part is some, but not all, of the writes. */
  ghost predicate ProperPart(part: Writes, ws: Writes) {
    part.Keys < ws.Keys && forall k :: k in part ==> part[k] == ws[k]
  }

  /** h is the root after some, but not all, of the writes. */
  ghost predicate Passes(start: Tree, ws: Writes, h: Hash) {
    exists part, t :: ProperPart(part, ws) && IsFlush(start, part, t) && HashOf(t) == h
  }

  /** Before each write the flush stands at a root it passes. */
  lemma PassesNow(start: Tree, done: Writes, cur: Tree, key: Bytes, write: Option<Bytes>)
    requires IsFlush(start, done, cur) && key !in done
    ensures Passes(start, done[key := write], HashOf(cur))
  {
    assert ProperPart(done, done[key := write]);
  }

  lemma PassesNext(start: Tree, done: Writes, h: Hash, key: Bytes, write: Option<Bytes>)
    requires Passes(start, done, h) && key !in done
    ensures Passes(start, done[key := write], h)
  {
    var part, t :| ProperPart(part, done) && IsFlush(start, part, t) && HashOf(t) == h;
    assert ProperPart(part, done[key := write]);
  }

  /** Flushing part of the writes again changes nothing either, so a second flush passes no root but its own. */
  lemma PassesAgain(t: Tree, ws: Writes, t': Tree, h: Hash)
    requires IsFlush(t, ws, t') && Passes(t', ws, h)
    ensures h == HashOf(t')
  {
    var part, t'' :| ProperPart(part, ws) && IsFlush(t', part, t'') && HashOf(t'') == h;
    PartAgain(t, ws, t', part);
    FlushUnique(t', part, t', t'');
  }

  lemma PartAgain(t: Tree, ws: Writes, t': Tree, part: Writes)
    requires IsFlush(t, ws, t') && ProperPart(part, ws)
    ensures IsFlush(t', part, t')
  {
    forall k | k in part
      ensures Raw(t', Hex(k)) == KeyAfter(t', part, k)
    {
      assert k in ws && Raw(t', Hex(k)) == KeyAfter(t, ws, k);
      CrossedPart(ws, part, t, t', Hex(k));
    }
    forall p | !Covered(part, p)
      ensures Raw(t', p) == PathAfter(t', part, p)
    {
      CrossedPart(ws, part, t, t', p);
    }
  }

  /** Where a written key with a value runs through, the flushed tree has a node. */
  lemma CrossedPart(ws: Writes, part: Writes, t: Tree, t': Tree, p: Path)
    requires IsFlush(t, ws, t') && ProperPart(part, ws)
    ensures Crossed(part, p) ==> Raw(t', p).Some?
  {
    if Crossed(part, p) {
      var k :| k in part && part[k].Some? && p < Hex(k);
      assert k in ws && Raw(t', Hex(k)) == KeyAfter(t, ws, k);
      RawPrefix(t', p, Hex(k));
    }
  }

  /** Some key already written tells c from cur, and keeps doing so. */
  ghost predicate Outdated(c: Tree, cur: Tree, done: Writes) {
    WF(c) && WF(cur) && exists k :: k in done && Raw(cur, Hex(k)).Some? && Raw(c, Hex(k)) != Raw(cur, Hex(k))
  }

  /** A tree once left behind stays left behind: later writes go to other keys. */
  lemma OutdatedNext(c: Tree, cur: Tree, done: Writes, key: Bytes, write: Option<Bytes>)
    requires Outdated(c, cur, done) && key !in done
    ensures Outdated(c, Apply(cur, key, write), done[key := write])
  {
    var k :| k in done && Raw(cur, Hex(k)).Some? && Raw(c, Hex(k)) != Raw(cur, Hex(k));
    if Hex(k) == Hex(key) {
      HexInjective(k, key);
    }
    RawApply(cur, key, write, Hex(k));
    assert k in done[key := write];
  }

  /** A write that changes the tree leaves the tree it started from behind. */
  lemma OutdatedNow(cur: Tree, done: Writes, key: Bytes, write: Option<Bytes>)
    requires WF(cur) && Apply(cur, key, write) != cur
    ensures Outdated(cur, Apply(cur, key, write), done[key := write])
  {
    ApplySame(cur, key, write);
    assert key in done[key := write];
  }
}
