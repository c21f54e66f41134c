/**
  What it means for a table of nodes, each stored under its own hash, to hold trees: every
  stored node's children can be read back, except that the empty node may be missing.
*/
module NodeStore {
  import opened Hashing
  import opened Trie

  datatype Tombstone = Uninitialized | Marked | Unmarked

  const NO_IDXS: seq<Hash> := [
    Null, Null, Null, Null, Null, Null, Null, Null,
    Null, Null, Null, Null, Null, Null, Null, Null]

  type Idxs = s: seq<Hash> | |s| == 16 witness NO_IDXS

  /** A stored node. */
  datatype Rec = Rec(idxs: Idxs, value: Bytes, tombstone: Tombstone)

  const EMPTY_REC: Rec := Rec(NO_IDXS, [], Uninitialized)

  // ---------- What the database holds ----------

  /** The record r is the root node of t. */
  ghost predicate Shows(r: Rec, t: Tree) {
    t.Node? && WF(t) && r.idxs == KidHashes(t) && r.value == t.value
  }

  /** The tree can be read back: it is missing or empty, or its node is stored. */
  ghost predicate Held(t: Tree, trees: map<Hash, Tree>) {
    t.Absent? || t == EMPTY || (HashOf(t) in trees && trees[HashOf(t)] == t)
  }

  ghost predicate KidsHeld(t: Tree, trees: map<Hash, Tree>)
    requires t.Node?
  {
    forall i :: 0 <= i < |t.kids| ==> Held(t.kids[i], trees)
  }

  /** h is the hash of the tree t whose node r is stored there. */
  ghost predicate Entry(h: Hash, r: Rec, t: Tree) {
    Shows(r, t) && h == HashOf(t)
  }

  /** Every stored node sits under its own hash. */
  ghost predicate ContentAddressed(nodes: map<Hash, Rec>, trees: map<Hash, Tree>) {
    && nodes.Keys == trees.Keys
    && (forall h {:trigger Entry(h, nodes[h], trees[h])} :: h in nodes ==> Entry(h, nodes[h], trees[h]))
  }

  /** The children of every stored node can be read back. */
  ghost predicate Closed(trees: map<Hash, Tree>) {
    forall h {:trigger KidsHeld(trees[h], trees)} :: h in trees ==> trees[h].Node? && KidsHeld(trees[h], trees)
  }

  /** Only the empty root is ever stored without the unmarked tombstone. */
  ghost predicate Settled(nodes: map<Hash, Rec>) {
    forall h :: h in nodes ==> nodes[h].tombstone == Unmarked || h == HashOf(EMPTY)
  }

  /** The invariant of the database. */
  ghost predicate StoreOk(nodes: map<Hash, Rec>, trees: map<Hash, Tree>) {
    ContentAddressed(nodes, trees) && Closed(trees) && Settled(nodes)
  }

  /** trees' holds every tree of trees. */
  ghost predicate Grows(trees: map<Hash, Tree>, trees': map<Hash, Tree>) {
    forall h :: h in trees ==> h in trees' && trees'[h] == trees[h]
  }

  /** trees' is trees, except that the empty tree may be gone. */
  ghost predicate LosesAtMostEmpty(trees: map<Hash, Tree>, trees': map<Hash, Tree>) {
    && Grows(trees', trees)
    && forall h :: h in trees && h != HashOf(EMPTY) ==> h in trees'
  }

  lemma KidsHeldGrows(t: Tree, trees: map<Hash, Tree>, trees': map<Hash, Tree>)
    requires t.Node? && KidsHeld(t, trees) && Grows(trees, trees')
    ensures KidsHeld(t, trees')
  {
  }

  /** Losing the empty tree makes nothing unreadable. */
  lemma KidsHeldLoses(t: Tree, trees: map<Hash, Tree>, trees': map<Hash, Tree>)
    requires t.Node? && WF(t) && KidsHeld(t, trees) && LosesAtMostEmpty(trees, trees')
    ensures KidsHeld(t, trees')
  {
    forall i | 0 <= i < |t.kids|
      ensures Held(t.kids[i], trees')
    {
      assert Held(t.kids[i], trees);
      if HashOf(t.kids[i]) == HashOf(EMPTY) {
        HashBinds(t.kids[i], EMPTY);
      }
    }
  }

  /** Storing the node of a tree whose children are held. */
  lemma StoreNode(nodes: map<Hash, Rec>, trees: map<Hash, Tree>, r: Rec, t: Tree)
    requires ContentAddressed(nodes, trees) && Closed(trees)
    requires Shows(r, t) && KidsHeld(t, trees)
    ensures ContentAddressed(nodes[HashOf(t) := r], trees[HashOf(t) := t]) && Closed(trees[HashOf(t) := t])
    ensures Grows(trees, trees[HashOf(t) := t])
  {
    var h := HashOf(t);
    var nodes', trees' := nodes[h := r], trees[h := t];
    if h in trees {
      assert Entry(h, nodes[h], trees[h]);
      HashBinds(t, trees[h]);
    }
    assert Grows(trees, trees');
    forall k | k in trees'
      ensures Entry(k, nodes'[k], trees'[k])
      ensures trees'[k].Node? && KidsHeld(trees'[k], trees')
    {
      if k != h {
        assert Entry(k, nodes[k], trees[k]);
        assert KidsHeld(trees[k], trees);
      }
      KidsHeldGrows(trees'[k], trees, trees');
    }
  }

  // ---------- Reading ----------

  /** Follows a path from a node; a missing node on the way reads as no value. */
  function LookupDepthFirst(nodes: map<Hash, Rec>, r: Rec, p: Path): Bytes
    decreases p
  {
    if p == [] then r.value
    else
      var h := r.idxs[p[0]];
      if h != Null && h in nodes then LookupDepthFirst(nodes, nodes[h], p[1..]) else []
  }

  /** The whole path can be followed through stored nodes. */
  predicate Follows(nodes: map<Hash, Rec>, r: Rec, p: Path)
    decreases p
  {
    p == [] || (r.idxs[p[0]] != Null && r.idxs[p[0]] in nodes && Follows(nodes, nodes[r.idxs[p[0]]], p[1..]))
  }

  lemma EmptyReadsNothing(p: Path)
    ensures WF(EMPTY) && Value(EMPTY, p) == []
  {
    if p != [] {
      assert EMPTY.kids[p[0]] == Absent;
      assert Raw(EMPTY, p) == Raw(EMPTY.kids[p[0]], p[1..]);
    }
  }

  /** Reading through the database gives the tree's values. */
  lemma {:induction false} LookupReads(nodes: map<Hash, Rec>, trees: map<Hash, Tree>, r: Rec, t: Tree, p: Path)
    requires ContentAddressed(nodes, trees) && Closed(trees) && Shows(r, t) && KidsHeld(t, trees)
    ensures LookupDepthFirst(nodes, r, p) == Value(t, p)
    decreases p
  {
    if p != [] {
      var kid := t.kids[p[0]];
      var h := r.idxs[p[0]];
      assert h == HashOf(kid) && Held(kid, trees);
      assert Raw(t, p) == Raw(kid, p[1..]);
      if kid.Node? {
        HashOfNode(kid);
        if h in nodes {
          assert Entry(h, nodes[h], trees[h]);
          HashBinds(kid, trees[h]);
          assert KidsHeld(trees[h], trees);
          LookupReads(nodes, trees, nodes[h], kid, p[1..]);
        } else {
          EmptyReadsNothing(p[1..]);
        }
      }
    }
  }

  // ---------- Writing ----------

  lemma EmptyShows(r: Rec, trees: map<Hash, Tree>)
    requires r.idxs == NO_IDXS && r.value == []
    ensures Shows(r, EMPTY) && KidsHeld(EMPTY, trees)
  {
    assert KidHashes(EMPTY) == r.idxs;
  }

  /** The node fetched for a child: the stored one, or a new empty node. */
  function ChildRec(nodes: map<Hash, Rec>, h: Hash): Rec {
    if h != Null && h in nodes then nodes[h] else EMPTY_REC
  }

  /** The fetched child shows the child's tree; it is only invented where that tree is missing or empty. */
  lemma ChildShows(nodes: map<Hash, Rec>, trees: map<Hash, Tree>, r: Rec, t: Tree, i: Nibble)
    requires ContentAddressed(nodes, trees) && Closed(trees) && Shows(r, t) && KidsHeld(t, trees)
    ensures var kid := t.kids[i];
      && r.idxs[i] == HashOf(kid)
      && Shows(ChildRec(nodes, r.idxs[i]), OrEmpty(kid)) && KidsHeld(OrEmpty(kid), trees)
      && (r.idxs[i] == Null <==> kid.Absent?)
      && (r.idxs[i] != Null && r.idxs[i] !in nodes ==> kid == EMPTY)
  {
    var kid, h := t.kids[i], r.idxs[i];
    assert h == HashOf(kid) && Held(kid, trees);
    EmptyShows(EMPTY_REC, trees);
    if kid.Node? {
      HashOfNode(kid);
      if h in nodes {
        assert Entry(h, nodes[h], trees[h]);
        HashBinds(kid, trees[h]);
        assert KidsHeld(trees[h], trees);
      }
    }
  }

  /** Replacing one child in a node. */
  lemma ReplaceChild(r: Rec, t: Tree, i: Nibble, kid: Tree, trees: map<Hash, Tree>)
    requires Shows(r, t) && WF(kid) && KidsHeld(t, trees) && Held(kid, trees)
    ensures var t' := Node(t.kids[i := kid], t.value);
      Shows(r.(idxs := r.idxs[i := HashOf(kid)], tombstone := Unmarked), t') && KidsHeld(t', trees)
  {
    var t' := Node(t.kids[i := kid], t.value);
    assert KidHashes(t') == KidHashes(t)[i := HashOf(kid)];
    forall j | 0 <= j < |t'.kids|
      ensures Held(t'.kids[j], trees)
    {
      assert Held(t.kids[j], trees);
    }
  }

  /** nodes' lacks only nodes that were not held by the unmarked tombstone. */
  ghost predicate Shrinks(nodes: map<Hash, Rec>, nodes': map<Hash, Rec>) {
    && (forall h :: h in nodes' ==> h in nodes && nodes'[h] == nodes[h])
    && (forall h :: h in nodes && nodes[h].tombstone == Unmarked ==> h in nodes')
  }

  lemma RemoveNode(nodes: map<Hash, Rec>, trees: map<Hash, Tree>, h: Hash)
    requires ContentAddressed(nodes, trees)
    ensures ContentAddressed(nodes - {h}, trees - {h}) && Grows(trees - {h}, trees)
  {
    forall k | k in nodes - {h}
      ensures Entry(k, (nodes - {h})[k], (trees - {h})[k])
    {
      assert Entry(k, nodes[k], trees[k]);
    }
  }

  /** A settled database can only lose the empty tree, and stays readable. */
  lemma ClosedLoses(nodes: map<Hash, Rec>, trees: map<Hash, Tree>, nodes': map<Hash, Rec>, trees': map<Hash, Tree>)
    requires StoreOk(nodes, trees) && ContentAddressed(nodes', trees') && Shrinks(nodes, nodes') && Grows(trees', trees)
    ensures StoreOk(nodes', trees') && LosesAtMostEmpty(trees, trees')
  {
    forall h | h in trees'
      ensures trees'[h].Node? && KidsHeld(trees'[h], trees')
    {
      assert Entry(h, nodes'[h], trees'[h]);
      assert KidsHeld(trees[h], trees);
      KidsHeldLoses(trees'[h], trees, trees');
    }
  }

  // ---------- Keys ----------

  /** A key's nibbles: the high and the low half of each byte. */
  function Hex(key: Bytes): Path {
    seq(2 * |key|, i requires 0 <= i < 2 * |key| => if i % 2 == 0 then key[i / 2] / 16 else key[i / 2] % 16)
  }

  /** Each byte gives two nibbles, the high half first. */
  lemma HexHalves(key: Bytes, i: nat)
    requires i < |key|
    ensures |Hex(key)| == 2 * |key|
    ensures var high: int, low: int := Hex(key)[2 * i], Hex(key)[2 * i + 1]; 16 * high + low == key[i]
  {
    assert Hex(key)[2 * i] == key[i] / 16 && Hex(key)[2 * i + 1] == key[i] % 16;
  }

  method MakeHex(key: Bytes) returns (nibbles: Path)
    ensures nibbles == Hex(key)
  {
    var buffer := new Nibble[2 * |key|];
    for i := 0 to |key|
      invariant forall j :: 0 <= j < 2 * i ==> buffer[j] == Hex(key)[j]
    {
      buffer[2 * i] := key[i] / 16;
      buffer[2 * i + 1] := key[i] % 16;
    }
    nibbles := buffer[..];
  }

  /** Different keys have different nibbles. */
  lemma HexInjective(key: Bytes, key': Bytes)
    requires Hex(key) == Hex(key')
    ensures key == key'
  {
    assert |Hex(key)| == 2 * |key| && |Hex(key')| == 2 * |key'|;
    forall i | 0 <= i < |key|
      ensures key[i] == key'[i]
    {
      assert Hex(key)[2 * i] == key[i] / 16 && Hex(key)[2 * i + 1] == key[i] % 16;
      assert Hex(key')[2 * i] == key'[i] / 16 && Hex(key')[2 * i + 1] == key'[i] % 16;
    }
  }
}
