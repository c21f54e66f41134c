/**
  The radix-16 trie as a value: trees, what updates and deletes do to them, and their hashes.

  A tree assigns to a prefix-closed set of nibble paths a value each; deleting a key leaves its
  path in place with an empty value. `Raw` reads that assignment, and it determines the tree.
*/
module Trie {
  import opened Hashing

  type Nibble = n: int | 0 <= n < 16
  type Path = seq<Nibble>

  datatype Tree = Absent | Node(kids: seq<Tree>, value: Bytes)

  predicate WF(t: Tree) {
    t.Node? ==> |t.kids| == 16 && forall i :: 0 <= i < 16 ==> WF(t.kids[i])
  }

  const NO_KIDS: seq<Tree> := [
    Absent, Absent, Absent, Absent, Absent, Absent, Absent, Absent,
    Absent, Absent, Absent, Absent, Absent, Absent, Absent, Absent]

  /** A node without children or value: a new trie's root, and what a deleted leaf becomes. */
  const EMPTY: Tree := Node(NO_KIDS, [])

  function OrEmpty(t: Tree): Tree {
    if t.Absent? then EMPTY else t
  }

  /** What the path p leads to, if it is in the tree. */
  function Raw(t: Tree, p: Path): Option<Bytes>
    requires WF(t)
    decreases p
  {
    if t.Absent? then None
    else if p == [] then Some(t.value)
    else Raw(t.kids[p[0]], p[1..])
  }

  /** The value looked up at p; a missing path and a deleted one read alike. */
  function Value(t: Tree, p: Path): Bytes
    requires WF(t)
  {
    if Raw(t, p).None? then [] else Raw(t, p).value
  }

  function Put(t: Tree, p: Path, v: Bytes): (t': Tree)
    requires WF(t)
    ensures WF(t') && t'.Node?
    decreases p
  {
    var n := OrEmpty(t);
    if p == [] then Node(n.kids, v)
    else Node(n.kids[p[0] := Put(n.kids[p[0]], p[1..], v)], n.value)
  }

  function Del(t: Tree, p: Path): (t': Tree)
    requires WF(t)
    ensures WF(t') && t'.Node? == t.Node?
    decreases p
  {
    if t.Absent? then t
    else if p == [] then Node(t.kids, [])
    else Node(t.kids[p[0] := Del(t.kids[p[0]], p[1..])], t.value)
  }

  // ---------- What the operations do to the assignment ----------

  /** An update sets its path, and creates the missing prefixes of it empty. */
  lemma {:induction false} RawPut(t: Tree, p: Path, v: Bytes, q: Path)
    requires WF(t)
    ensures Raw(Put(t, p, v), q) ==
      if q == p then Some(v) else if q < p && Raw(t, q).None? then Some([]) else Raw(t, q)
    decreases p
  {
    var n := OrEmpty(t);
    if p != [] && q != [] {
      if p[0] == q[0] {
        RawPut(n.kids[p[0]], p[1..], v, q[1..]);
        assert q < p <==> q[1..] < p[1..];
        assert q == p <==> q[1..] == p[1..];
      } else {
        assert !(q < p);
      }
    }
  }

  /** A delete empties its path if that is in the tree, and changes nothing else. */
  lemma {:induction false} RawDel(t: Tree, p: Path, q: Path)
    requires WF(t)
    ensures Raw(Del(t, p), q) == if q == p && Raw(t, p).Some? then Some([]) else Raw(t, q)
    decreases p
  {
    if t.Node? && p != [] && q != [] {
      if p[0] == q[0] {
        RawDel(t.kids[p[0]], p[1..], q[1..]);
        assert q == p <==> q[1..] == p[1..];
      }
    }
  }

  /** Trees that make the same assignment are the same tree. */
  lemma {:induction false} Extensional(t: Tree, t': Tree)
    requires WF(t) && WF(t') && forall p :: Raw(t, p) == Raw(t', p)
    ensures t == t'
    decreases t
  {
    assert Raw(t, []) == Raw(t', []);
    if t.Node? {
      forall i | 0 <= i < 16
        ensures t.kids[i] == t'.kids[i]
      {
        forall q ensures Raw(t.kids[i], q) == Raw(t'.kids[i], q) {
          assert Raw(t, [i] + q) == Raw(t', [i] + q);
          assert ([i] + q)[1..] == q;
        }
        Extensional(t.kids[i], t'.kids[i]);
      }
    }
  }

  /** The tree is prefix closed. */
  lemma {:induction false} RawPrefix(t: Tree, p: Path, q: Path)
    requires WF(t) && p <= q && Raw(t, q).Some?
    ensures Raw(t, p).Some?
    decreases p
  {
    if p != [] {
      RawPrefix(t.kids[p[0]], p[1..], q[1..]);
    }
  }

  /** Writing the value a path already has changes nothing. */
  lemma PutSame(t: Tree, p: Path, v: Bytes)
    requires WF(t)
    ensures Put(t, p, v) == t <==> Raw(t, p) == Some(v)
  {
    RawPut(t, p, v, p);
    if Raw(t, p) == Some(v) {
      forall q ensures Raw(Put(t, p, v), q) == Raw(t, q) {
        RawPut(t, p, v, q);
        if q < p {
          RawPrefix(t, q, p);
        }
      }
      Extensional(Put(t, p, v), t);
    }
  }

  /** Deleting a path that is missing or already empty changes nothing; deleting a value does. */
  lemma DelSame(t: Tree, p: Path)
    requires WF(t)
    ensures Del(t, p) == t <==> Value(t, p) == []
  {
    RawDel(t, p, p);
    if Value(t, p) == [] {
      forall q ensures Raw(Del(t, p), q) == Raw(t, q) {
        RawDel(t, p, q);
      }
      Extensional(Del(t, p), t);
    }
  }

  // ---------- Hashes ----------

  /** The buffer a node's hash is taken of: as many zero bytes as the content is long, then the content. */
  function NodeImage(idxs: seq<Hash>, value: Bytes): seq<Atom> {
    ByteAtoms(seq(16 * HASH_LENGTH + |value|, _ => 0)) + HashAtoms(idxs) + ByteAtoms(value)
  }

  /** The buffer's layout: zeros for half of it in bytes, the sixteen child hashes in order, and the value. */
  lemma NodeImageLayout(idxs: seq<Hash>, value: Bytes, i: nat)
    requires |idxs| == 16
    ensures var image, zeros := NodeImage(idxs, value), 1024 + |value|;
      && |image| == zeros + 16 + |value|
      && (i < zeros ==> image[i] == ByteAtom(0))
      && (i < 16 ==> image[zeros + i] == HashAtom(idxs[i]))
      && (i < |value| ==> image[zeros + 16 + i] == ByteAtom(value[i]))
  {
  }

  function NodeHash(idxs: seq<Hash>, value: Bytes): Hash {
    Sha(NodeImage(idxs, value))
  }

  /** The layout is unambiguous, so node hashes are collision free and never null. */
  lemma NodeHashInjective(idxs: seq<Hash>, value: Bytes, idxs': seq<Hash>, value': Bytes)
    requires |idxs| == |idxs'| == 16 && NodeHash(idxs, value) == NodeHash(idxs', value')
    ensures idxs == idxs' && value == value'
  {
    var a, b := NodeImage(idxs, value), NodeImage(idxs', value');
    assert a == b;
    assert |a| == 16 * HASH_LENGTH + |value| + 16 + |value|;
    assert |value| == |value'|;
    var zeros := 16 * HASH_LENGTH + |value|;
    forall i | 0 <= i < 16
      ensures idxs[i] == idxs'[i]
    {
      assert a[zeros + i] == HashAtom(idxs[i]);
      assert b[zeros + i] == HashAtom(idxs'[i]);
    }
    forall i | 0 <= i < |value|
      ensures value[i] == value'[i]
    {
      assert a[zeros + 16 + i] == ByteAtom(value[i]);
      assert b[zeros + 16 + i] == ByteAtom(value'[i]);
    }
  }

  /** The hash of a tree: null for a missing one, else the hash of its children's hashes and its value. */
  function HashOf(t: Tree): Hash
    decreases t
  {
    if t.Absent? then Null
    else NodeHash(seq(|t.kids|, i requires 0 <= i < |t.kids| => HashOf(t.kids[i])), t.value)
  }

  function KidHashes(t: Tree): seq<Hash>
    requires t.Node?
  {
    seq(|t.kids|, i requires 0 <= i < |t.kids| => HashOf(t.kids[i]))
  }

  lemma HashOfNode(t: Tree)
    requires t.Node?
    ensures HashOf(t) == NodeHash(KidHashes(t), t.value) != Null
  {
    assert KidHashes(t) == seq(|t.kids|, i requires 0 <= i < |t.kids| => HashOf(t.kids[i]));
  }

  /** Root hashes bind contents: equal hashes mean equal trees. */
  lemma {:induction false} HashBinds(t: Tree, t': Tree)
    requires WF(t) && WF(t') && HashOf(t) == HashOf(t')
    ensures t == t'
    decreases t
  {
    if t.Node? {
      HashOfNode(t);
      if t'.Node? {
        HashOfNode(t');
        NodeHashInjective(KidHashes(t), t.value, KidHashes(t'), t'.value);
        forall i | 0 <= i < 16
          ensures t.kids[i] == t'.kids[i]
        {
          assert KidHashes(t)[i] == KidHashes(t')[i];
          HashBinds(t.kids[i], t'.kids[i]);
        }
      }
    } else if t'.Node? {
      HashOfNode(t');
    }
  }
}
