/**
  Persistence of world states over whole runs: any number of world states write, rebase and
  clean up on one shared database, in any interleaving. The operations of the world-state and
  database classes are contracted to be the steps below.
*/
module Persistence {
  import opened Hashing
  import opened Trie
  import opened NodeStore

  type Id = int

  /** The trees stored, the roots with a transaction root, and the tree each world state is at. */
  datatype World = World(trees: map<Hash, Tree>, roots: set<Hash>, at: map<Id, Tree>)

  datatype Op =
    | New(id: Id)
    | Update(id: Id, key: Bytes, value: Bytes)
    | Delete(id: Id, key: Bytes)
    | Rebase(id: Id, hash: Hash)
    | Cleanup(hash: Hash)

  /** A world state at t can read every value. */
  ghost predicate Readable(w: World, t: Tree) {
    t.Node? && WF(t) && KidsHeld(t, w.trees)
  }

  ghost predicate Stored(w: World, t: Tree) {
    HashOf(t) in w.trees && w.trees[HashOf(t)] == t
  }

  /** Rebasing to t's root would succeed and restore t. */
  ghost predicate Rebasable(w: World, t: Tree) {
    Stored(w, t) && HashOf(t) in w.roots
  }

  /** Every tree is well formed and stored under its own hash. */
  ghost predicate Addressed(w: World) {
    forall h :: h in w.trees ==> WF(w.trees[h]) && HashOf(w.trees[h]) == h
  }

  /** The roots that can be rebased to. */
  function Roots(w: World): set<Hash> {
    w.trees.Keys * w.roots
  }

  /** The tree t is stored and registered, and the world state moves to it. */
  ghost predicate Moves(w: World, id: Id, t: Tree, w': World)
    requires id in w.at
  {
    && Grows(w.trees, w'.trees) && Stored(w', t)
    && w'.roots == w.roots + {HashOf(w.at[id]), HashOf(t)} && w'.at == w.at[id := t]
  }

  ghost predicate Next(w: World, op: Op, w': World) {
    Addressed(w') &&
    match op
    case New(id) =>
      && Grows(w.trees, w'.trees) && Stored(w', EMPTY) && w'.trees.Keys == w.trees.Keys + {HashOf(EMPTY)}
      && w'.roots == w.roots + {HashOf(EMPTY)} && w'.at == w.at[id := EMPTY]
    case Update(id, key, value) =>
      id in w.at && WF(w.at[id]) && Moves(w, id, Put(w.at[id], Hex(key), value), w')
    case Delete(id, key) =>
      && id in w.at && WF(w.at[id])
      && (var t := Del(w.at[id], Hex(key)); Moves(w, id, t, w') || (w' == w && t == w.at[id]))
    case Rebase(id, hash) =>
      && id in w.at && w'.trees == w.trees
      && (if hash in w.trees && hash in w.roots
          then w'.roots == w.roots + {HashOf(w.at[id])} && w'.at == w.at[id := w.trees[hash]]
          else w' == w)
    case Cleanup(hash) =>
      if hash in w.trees
      then LosesAtMostEmpty(w.trees, w'.trees) && (hash != HashOf(EMPTY) ==> w'.trees == w.trees)
           && w'.roots == w.roots - {hash} && w'.at == w.at
      else w' == w
  }

  ghost predicate IsRun(ws: seq<World>, ops: seq<Op>) {
    |ws| == |ops| + 1 && forall i :: 0 <= i < |ops| ==> Next(ws[i], ops[i], ws[i + 1])
  }

  /** Any step but the cleanup of t's own root keeps t rebasable. */
  lemma StepKeepsRoot(w: World, op: Op, w': World, t: Tree)
    requires Next(w, op, w') && Rebasable(w, t) && op != Cleanup(HashOf(t))
    ensures Rebasable(w', t)
  {
  }

  /** Once rebasable, a tree stays so through every run that does not clean up its root. */
  lemma {:induction false} RunKeepsRoot(ws: seq<World>, ops: seq<Op>, i: nat, j: nat, t: Tree)
    requires IsRun(ws, ops) && i <= j < |ws| && Rebasable(ws[i], t)
    requires forall k :: i <= k < j ==> ops[k] != Cleanup(HashOf(t))
    ensures Rebasable(ws[j], t)
    decreases j
  {
    if i < j {
      RunKeepsRoot(ws, ops, i, j - 1, t);
      assert Next(ws[j - 1], ops[j - 1], ws[j]);
      StepKeepsRoot(ws[j - 1], ops[j - 1], ws[j], t);
    }
  }

  /** The operation gives the world state its root: any but a delete or a rebase that did nothing. */
  ghost predicate Produces(w: World, op: Op, w': World, id: Id) {
    match op
    case New(i) => i == id
    case Update(i, _, _) => i == id
    case Delete(i, _) => i == id && id in w.at && id in w'.at && w'.at[id] != w.at[id]
    case Rebase(i, hash) => i == id && hash in w.trees && hash in w.roots
    case Cleanup(_) => false
  }

  /** The root an operation gives a world state can be rebased to. */
  lemma ProducedIsRebasable(w: World, op: Op, w': World, id: Id)
    requires Next(w, op, w') && Produces(w, op, w', id)
    ensures id in w'.at && Rebasable(w', w'.at[id])
  {
  }

  /**
    A root some world state is at can be rebased to, unless it was cleaned up at some point: deletes
    that do nothing included.
  */
  lemma {:induction false} HeldIsRebasable(ws: seq<World>, ops: seq<Op>, i: nat, id: Id)
    requires IsRun(ws, ops) && ws[0].at == map[] && i < |ws| && id in ws[i].at
    requires forall k :: 0 <= k < i ==> ops[k] != Cleanup(HashOf(ws[i].at[id]))
    ensures Rebasable(ws[i], ws[i].at[id])
    decreases i
  {
    if i > 0 {
      var w, op, w' := ws[i - 1], ops[i - 1], ws[i];
      assert Next(w, op, w');
      if Produces(w, op, w', id) {
        ProducedIsRebasable(w, op, w', id);
      } else {
        assert id in w.at && w.at[id] == w'.at[id];
        HeldIsRebasable(ws, ops, i - 1, id);
        StepKeepsRoot(w, op, w', w.at[id]);
      }
    }
  }

  /**
    A world state that moves on by an update or a rebase registers the root it leaves: if the tree is
    still stored it can be rebased to afterwards, even if its root had been cleaned up before.
  */
  lemma LeavingRegisters(w: World, op: Op, w': World, id: Id)
    requires Next(w, op, w') && id in w.at && Stored(w, w.at[id])
    requires (op.Update? && op.id == id) || (op.Rebase? && op.id == id && op.hash in w.trees && op.hash in w.roots)
    ensures Rebasable(w', w.at[id])
  {
  }

  /**
    Persistence: whatever happened since, rebasing any world state to a root that was rebasable
    at some point and has not been cleaned up since restores every value it held then.
  */
  lemma RebaseRestores(ws: seq<World>, ops: seq<Op>, i: nat, j: nat, t: Tree, id: Id, w': World)
    requires IsRun(ws, ops) && i <= j < |ws| && WF(t) && Rebasable(ws[i], t)
    requires forall k :: i <= k < j ==> ops[k] != Cleanup(HashOf(t))
    requires Next(ws[j], Rebase(id, HashOf(t)), w')
    ensures id in w'.at && w'.at[id] == t
    ensures forall key :: Value(w'.at[id], Hex(key)) == Value(t, Hex(key))
  {
    RunKeepsRoot(ws, ops, i, j, t);
  }

  /**
    A root produced by any operation and not cleaned up since is what a later rebase restores, in
    whatever world state.
  */
  lemma ProducedRestores(ws: seq<World>, ops: seq<Op>, i: nat, j: nat, id: Id, other: Id, w': World)
    requires IsRun(ws, ops) && i < j < |ws| && Produces(ws[i], ops[i], ws[i + 1], id)
    requires id in ws[i + 1].at && forall k :: i < k < j ==> ops[k] != Cleanup(HashOf(ws[i + 1].at[id]))
    requires Next(ws[j], Rebase(other, HashOf(ws[i + 1].at[id])), w')
    ensures w'.at == ws[j].at[other := ws[i + 1].at[id]]
  {
    assert Next(ws[i], ops[i], ws[i + 1]);
    ProducedIsRebasable(ws[i], ops[i], ws[i + 1], id);
    RunKeepsRoot(ws, ops, i + 1, j, ws[i + 1].at[id]);
  }

  /** A world state that stays put keeps every value readable, whatever the others do: cleanups included. */
  lemma StepKeepsReadable(w: World, op: Op, w': World, t: Tree)
    requires Next(w, op, w') && Readable(w, t)
    ensures Readable(w', t)
  {
    if op.Cleanup? {
      KidsHeldLoses(t, w.trees, w'.trees);
    } else {
      KidsHeldGrows(t, w.trees, w'.trees);
    }
  }

  // ---------- Reading from the database ----------

  /** Two databases, on one node or on two: equal root hashes read the same everywhere. */
  lemma RootBindsLookups(nodes1: map<Hash, Rec>, trees1: map<Hash, Tree>, nodes2: map<Hash, Rec>, trees2: map<Hash,
                         Tree>, root: Hash, p: Path)
    requires StoreOk(nodes1, trees1) && StoreOk(nodes2, trees2) && root in nodes1 && root in nodes2
    ensures LookupDepthFirst(nodes1, nodes1[root], p) == LookupDepthFirst(nodes2, nodes2[root], p)
  {
    assert Entry(root, nodes1[root], trees1[root]) && Entry(root, nodes2[root], trees2[root]);
    assert KidsHeld(trees1[root], trees1) && KidsHeld(trees2[root], trees2);
    HashBinds(trees1[root], trees2[root]);
    LookupReads(nodes1, trees1, nodes1[root], trees1[root], p);
    LookupReads(nodes2, trees2, nodes2[root], trees2[root], p);
  }

  /** A cleanup leaves every lookup from every node still stored as it was, although nodes are shared between roots. */
  lemma CleanupKeepsLookups(nodes: map<Hash, Rec>, trees: map<Hash, Tree>, nodes': map<Hash, Rec>, trees': map<Hash,
                            Tree>, root: Hash, p: Path)
    requires StoreOk(nodes, trees) && StoreOk(nodes', trees') && LosesAtMostEmpty(trees, trees')
    requires root in nodes && root in nodes'
    ensures LookupDepthFirst(nodes', nodes'[root], p) == LookupDepthFirst(nodes, nodes[root], p)
  {
    RootBindsLookups(nodes', trees', nodes, trees, root, p);
  }

  /** Deleting leaves the root hash unchanged exactly when the key has no value. */
  lemma DeleteKeepsRoot(t: Tree, key: Bytes)
    requires WF(t)
    ensures HashOf(Del(t, Hex(key))) == HashOf(t) <==> Value(t, Hex(key)) == []
  {
    DelSame(t, Hex(key));
    if HashOf(Del(t, Hex(key))) == HashOf(t) {
      HashBinds(Del(t, Hex(key)), t);
    }
  }

  /** Updates and deletes act on the keys' values as on a map. */
  lemma ActsAsMap(t: Tree, key: Bytes, value: Bytes, other: Bytes)
    requires WF(t)
    ensures Value(Put(t, Hex(key), value), Hex(other)) == if other == key then value else Value(t, Hex(other))
    ensures Value(Del(t, Hex(key)), Hex(other)) == if other == key then [] else Value(t, Hex(other))
  {
    RawPut(t, Hex(key), value, Hex(other));
    RawDel(t, Hex(key), Hex(other));
    if Hex(other) == Hex(key) {
      HexInjective(other, key);
    }
  }
}
