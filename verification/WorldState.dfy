/**
  The world state: a trie kept in a shared database under its nodes' hashes.

  The database maps a hash to the stored node, and a root hash to its entry in the table of
  transaction roots, without which a root cannot be rebased to. `trees` is the tree each stored
  node stands for. Several world states may work on one database; each operation's contract is
  one step of `Persistence.Next`.
*/
module WorldState {
  import opened Hashing
  import opened Trie
  import opened NodeStore
  import opened Persistence

  /** How a world state is called in its own view of the database. */
  const ME: Id := 0

  lemma StoreAddressed(nodes: map<Hash, Rec>, trees: map<Hash, Tree>, w: World)
    requires ContentAddressed(nodes, trees) && w.trees == trees
    ensures Addressed(w)
  {
    forall h | h in trees
      ensures WF(trees[h]) && HashOf(trees[h]) == h
    {
      assert Entry(h, nodes[h], trees[h]);
    }
  }

  /** The database with one world state on it, at t. */
  function Alone(trees: map<Hash, Tree>, roots: set<Hash>, t: Tree): World {
    World(trees, roots, map[ME := t])
  }

  /** The tree t' is stored and registered where the world state was at t. */
  lemma MovesAlone(w: World, t: Tree, w': World, t': Tree)
    requires w == Alone(w.trees, w.roots, t) && w' == Alone(w'.trees, w'.roots, t')
    requires Grows(w.trees, w'.trees) && Stored(w', t') && w'.roots == w.roots + {HashOf(t), HashOf(t')}
    ensures ME in w.at && w.at[ME] == t && Moves(w, ME, t', w')
  {
    assert w'.at == w.at[ME := t'];
  }

  /** What an update leaves behind is a step of the shared database. */
  lemma UpdateIsStep(w: World, key: Bytes, value: Bytes, nodes: map<Hash, Rec>, w': World)
    requires ME in w.at && WF(w.at[ME]) && Moves(w, ME, Put(w.at[ME], Hex(key), value), w')
    requires ContentAddressed(nodes, w'.trees)
    ensures Next(w, Op.Update(ME, key, value), w')
  {
    StoreAddressed(nodes, w'.trees, w');
  }

  /** So is what a delete leaves behind when it stored a tree. */
  lemma DeleteIsStep(w: World, key: Bytes, nodes: map<Hash, Rec>, w': World)
    requires ME in w.at && WF(w.at[ME]) && Moves(w, ME, Del(w.at[ME], Hex(key)), w')
    requires ContentAddressed(nodes, w'.trees)
    ensures Next(w, Op.Delete(ME, key), w') && Rebasable(w', w'.at[ME])
  {
    StoreAddressed(nodes, w'.trees, w');
  }

  /** And when it did not. */
  lemma NoDeleteIsStep(w: World, t: Tree, key: Bytes, nodes: map<Hash, Rec>)
    requires WF(t) && w == Alone(w.trees, w.roots, t) && ContentAddressed(nodes, w.trees) && Del(t, Hex(key)) == t
    ensures Next(w, Op.Delete(ME, key), w)
  {
    StoreAddressed(nodes, w.trees, w);
  }

  /** So is what a rebase leaves behind. */
  lemma RebaseIsStep(w: World, hash: Hash, w': World, nodes: map<Hash, Rec>)
    requires ME in w.at && ContentAddressed(nodes, w'.trees) && w'.trees == w.trees
    requires if hash in w.trees && hash in w.roots
             then w'.roots == w.roots + {HashOf(w.at[ME])} && w'.at == w.at[ME := w.trees[hash]] else w' == w
    ensures Next(w, Op.Rebase(ME, hash), w')
  {
    StoreAddressed(nodes, w'.trees, w');
  }

  /** Marking a stored node as unmarked keeps the database as it is, and its tree can be read. */
  lemma RestoreNode(nodes: map<Hash, Rec>, trees: map<Hash, Tree>, hash: Hash)
    requires StoreOk(nodes, trees) && hash in nodes
    ensures var node := nodes[hash].(tombstone := Unmarked);
      && StoreOk(nodes[hash := node], trees) && Shows(node, trees[hash])
      && KidsHeld(trees[hash], trees) && HashOf(trees[hash]) == hash
  {
    assert Entry(hash, nodes[hash], trees[hash]);
    assert KidsHeld(trees[hash], trees);
    StoreNode(nodes, trees, nodes[hash].(tombstone := Unmarked), trees[hash]);
    assert trees[hash := trees[hash]] == trees;
  }

  /**
    In a settled database only the empty node can be without the unmarked tombstone, so at most the root
    itself goes.
  */
  lemma OnlyRootRemoved(nodes: map<Hash, Rec>, nodes': map<Hash, Rec>, hash: Hash)
    requires Settled(nodes) && Shrinks(nodes, nodes') && hash in nodes
    requires if nodes[hash].tombstone == Unmarked then nodes' == nodes else hash !in nodes'
    ensures nodes' == if nodes[hash].tombstone != Unmarked then nodes - {hash} else nodes
  {
    if nodes[hash].tombstone != Unmarked {
      assert forall h :: h in nodes - {hash} ==> h in nodes';
      assert nodes' == nodes - {hash};
    }
  }

  class Database {
    var nodes: map<Hash, Rec>
    var txRoots: map<Hash, Tombstone>
    ghost var trees: map<Hash, Tree>

    ghost predicate Ok()
      reads this
    {
      StoreOk(nodes, trees)
    }

    /** The database as seen with no world state on it. */
    ghost function View(): World
      reads this
    {
      World(trees, txRoots.Keys, map[])
    }

    constructor ()
      ensures Ok() && nodes == map[] && txRoots == map[]
    {
      nodes, txRoots, trees := map[], map[], map[];
    }

    /** Fills the buffer and hashes it. */
    method HashNode(r: Rec) returns (h: Hash)
      ensures h == NodeHash(r.idxs, r.value)
    {
      var data := ByteAtoms(seq(16 * HASH_LENGTH + |r.value|, _ => 0));
      ghost var zeros := data;
      for i := 0 to 16
        invariant data == zeros + HashAtoms(r.idxs[..i])
      {
        assert HashAtoms(r.idxs[..i + 1]) == HashAtoms(r.idxs[..i]) + HashAtoms([r.idxs[i]]);
        data := data + HashAtoms([r.idxs[i]]);
      }
      assert r.idxs[..16] == r.idxs;
      data := data + ByteAtoms(r.value);
      h := Sha(data);
    }

    /** Stores a node under its hash. */
    method PutState(r: Rec, ghost t: Tree) returns (h: Hash)
      requires Ok() && Shows(r, t) && KidsHeld(t, trees) && r.tombstone == Unmarked
      modifies this`nodes, this`trees
      ensures Ok() && Grows(old(trees), trees)
      ensures h == HashOf(t) && nodes == old(nodes)[h := r] && trees == old(trees)[h := t]
    {
      StoreNode(nodes, trees, r, t);
      HashOfNode(t);
      h := HashNode(r);
      nodes := nodes[h := r];
      trees := trees[h := t];
    }

    /** Writes a value at a path below a node, storing every node on the way under its new hash. */
    method UpdateDepthFirst(r: Rec, p: Path, v: Bytes, ghost t: Tree) returns (r': Rec, h: Hash)
      requires Ok() && Shows(r, t) && KidsHeld(t, trees)
      modifies this`nodes, this`trees
      ensures Ok() && Grows(old(trees), trees)
      ensures var t' := Put(t, p, v);
        Shows(r', t') && KidsHeld(t', trees) && h == HashOf(t') && h in trees && trees[h] == t'
      decreases p
    {
      if p == [] {
        ghost var t' := Node(t.kids, v);
        r' := r.(value := v, tombstone := Unmarked);
        assert KidHashes(t') == KidHashes(t);
        h := PutState(r', t');
        KidsHeldGrows(t', old(trees), trees);
        return;
      }
      ChildShows(nodes, trees, r, t, p[0]);
      ghost var kid := t.kids[p[0]];
      var child := ChildRec(nodes, r.idxs[p[0]]);
      var child', childHash := UpdateDepthFirst(child, p[1..], v, OrEmpty(kid));
      ghost var kid' := Put(kid, p[1..], v);
      KidsHeldGrows(t, old(trees), trees);
      ReplaceChild(r, t, p[0], kid', trees);
      r' := r.(idxs := r.idxs[p[0] := childHash], tombstone := Unmarked);
      ghost var t' := Node(t.kids[p[0] := kid'], t.value);
      ghost var before := trees;
      h := PutState(r', t');
      KidsHeldGrows(t', before, trees);
    }

    /** Empties the value at a path below a node; None, and nothing stored, if the path cannot be followed. */
    method DeleteDepthFirst(r: Rec, p: Path, ghost t: Tree) returns (r': Rec, h: Option<Hash>)
      requires Ok() && Shows(r, t) && KidsHeld(t, trees)
      modifies this`nodes, this`trees
      ensures Ok() && Grows(old(trees), trees)
      ensures var t' := Del(t, p);
        && Shows(r', t') && KidsHeld(t', trees)
        && (h.Some? ==> h.value == HashOf(t') && h.value in trees && trees[h.value] == t')
      ensures h.Some? <==> Follows(old(nodes), r, p)
      ensures h.None? ==> Del(t, p) == t && r' == r && nodes == old(nodes) && trees == old(trees)
      decreases p
    {
      if p == [] {
        ghost var t' := Node(t.kids, []);
        r' := r.(value := [], tombstone := Unmarked);
        assert KidHashes(t') == KidHashes(t);
        var newHash := PutState(r', t');
        h := Some(newHash);
        KidsHeldGrows(t', old(trees), trees);
        return;
      }
      ChildShows(nodes, trees, r, t, p[0]);
      ghost var kid := t.kids[p[0]];
      var childHash := r.idxs[p[0]];
      assert t.kids[p[0] := kid] == t.kids;
      if childHash == Null {
        return r, None;
      }
      if childHash !in nodes {
        EmptyReadsNothing(p[1..]);
        DelSame(EMPTY, p[1..]);
        return r, None;
      }
      var child', newChild := DeleteDepthFirst(nodes[childHash], p[1..], kid);
      if newChild.None? {
        return r, None;
      }
      ghost var kid' := Del(kid, p[1..]);
      KidsHeldGrows(t, old(trees), trees);
      ReplaceChild(r, t, p[0], kid', trees);
      r' := r.(idxs := r.idxs[p[0] := newChild.value], tombstone := Unmarked);
      ghost var t' := Node(t.kids[p[0] := kid'], t.value);
      ghost var before := trees;
      var newHash := PutState(r', t');
      h := Some(newHash);
      KidsHeldGrows(t', before, trees);
    }

    /** Removes a node and, below it, every node that is not held by the unmarked tombstone. */
    method CleanupDepthFirst(r: Rec, ghost t: Tree)
      requires ContentAddressed(nodes, trees) && Shows(r, t)
      requires HashOf(t) in nodes ==> nodes[HashOf(t)] == r
      modifies this`nodes, this`trees
      ensures ContentAddressed(nodes, trees) && Shrinks(old(nodes), nodes) && Grows(trees, old(trees))
      ensures r.tombstone == Unmarked ==> nodes == old(nodes) && trees == old(trees)
      ensures r.tombstone != Unmarked ==> HashOf(t) !in nodes
      decreases t
    {
      if r.tombstone == Unmarked {
        return;
      }
      for i := 0 to 16
        invariant ContentAddressed(nodes, trees) && Shrinks(old(nodes), nodes) && Grows(trees, old(trees))
      {
        var childHash := r.idxs[i];
        if childHash != Null && childHash in nodes {
          ghost var kid := t.kids[i];
          assert Entry(childHash, nodes[childHash], trees[childHash]);
          HashBinds(kid, trees[childHash]);
          CleanupDepthFirst(nodes[childHash], kid);
        }
      }
      HashOfNode(t);
      var h := HashNode(r);
      RemoveNode(nodes, trees, h);
      nodes := nodes - {h};
      trees := trees - {h};
    }

    /** Cleans up from a root and forgets its transaction root; false if the root is not stored. */
    method Cleanup(hash: Hash) returns (ok: bool)
      requires Ok()
      modifies this
      ensures Ok() && ok == (hash in old(nodes))
      ensures Next(old(View()), Op.Cleanup(hash), View())
      ensures nodes == if ok && old(nodes[hash].tombstone) != Unmarked then old(nodes) - {hash} else old(nodes)
    {
      if hash !in nodes {
        StoreAddressed(nodes, trees, View());
        return false;
      }
      assert Entry(hash, nodes[hash], trees[hash]);
      CleanupDepthFirst(nodes[hash], trees[hash]);
      ClosedLoses(old(nodes), old(trees), nodes, trees);
      OnlyRootRemoved(old(nodes), nodes, hash);
      if hash in txRoots {
        txRoots := txRoots - {hash};
      }
      StoreAddressed(nodes, trees, View());
      return true;
    }
  }

  /** A world state at one moment. */
  datatype Snapshot = Snapshot(world: World, tree: Tree, rootNode: Rec, nodes: map<Hash, Rec>)

  class MptWorldState {
    const db: Database
    var rootHash: Hash
    var rootNode: Rec
    var txTombstone: Tombstone
    ghost var tree: Tree

    ghost predicate Valid()
      reads this, db
    {
      db.Ok() && Shows(rootNode, tree) && KidsHeld(tree, db.trees) && rootHash == HashOf(tree)
    }

    /** The database with this world state on it. */
    ghost function View(): World
      reads this, db
    {
      World(db.trees, db.txRoots.Keys, map[ME := tree])
    }

    ghost function Now(): Snapshot
      reads this, db
    {
      Snapshot(View(), tree, rootNode, db.nodes)
    }

    /** A new world state with an empty trie, whose root it stores. */
    constructor (db: Database)
      requires db.Ok()
      modifies db
      ensures this.db == db && Valid() && tree == EMPTY
      ensures Next(old(db.View()), Op.New(ME), View())
    {
      this.db := db;
      rootNode := EMPTY_REC;
      txTombstone := Uninitialized;
      tree := EMPTY;
      rootHash := NodeHash(EMPTY_REC.idxs, EMPTY_REC.value);
      new;
      EmptyShows(EMPTY_REC, db.trees);
      HashOfNode(EMPTY);
      StoreNode(db.nodes, db.trees, EMPTY_REC, EMPTY);
      db.nodes := db.nodes[rootHash := rootNode];
      db.trees := db.trees[rootHash := EMPTY];
      db.txRoots := db.txRoots[rootHash := txTombstone];
      StoreAddressed(db.nodes, db.trees, View());
    }

    /** Moves the transaction root along from the old world-state root to the new one. */
    method MoveTxRoot(newHash: Hash)
      modifies this`txTombstone, this`rootHash, db`txRoots
      ensures rootHash == newHash && db.txRoots.Keys == old(db.txRoots.Keys) + {old(rootHash), newHash}
    {
      txTombstone := Marked;
      db.txRoots := db.txRoots[rootHash := txTombstone];
      txTombstone := Unmarked;
      db.txRoots := db.txRoots[newHash := txTombstone];
      rootHash := newHash;
    }

    /** Takes the root of the tree as stored for the world state's root. */
    method RegisterRoot(newHash: Hash)
      requires db.Ok() && Shows(rootNode, tree) && KidsHeld(tree, db.trees)
      requires newHash == HashOf(tree) && newHash in db.trees && db.trees[newHash] == tree
      modifies this`txTombstone, this`rootHash, db`txRoots
      ensures Valid() && rootHash == newHash && Rebasable(View(), tree)
      ensures View().roots == old(View().roots) + {old(rootHash), newHash}
    {
      MoveTxRoot(newHash);
    }

    method Update(key: Bytes, value: Bytes) returns (h: Hash)
      requires Valid()
      modifies this, db
      ensures Valid() && tree == Put(old(tree), Hex(key), value) && h == rootHash
      ensures Next(old(View()), Op.Update(ME, key, value), View())
    {
      var p := MakeHex(key);
      var newHash;
      rootNode, newHash := db.UpdateDepthFirst(rootNode, p, value, tree);
      tree := Put(tree, p, value);
      RegisterRoot(newHash);
      h := rootHash;
      MovesAlone(old(View()), old(tree), View(), tree);
      UpdateIsStep(old(View()), key, value, db.nodes, View());
    }

    /** Empties a path below the root; None, and nothing changed, if it cannot be followed. */
    method DropPath(p: Path) returns (newHash: Option<Hash>)
      requires Valid()
      modifies this`rootNode, this`tree, db`nodes, db`trees
      ensures db.Ok() && Shows(rootNode, tree) && KidsHeld(tree, db.trees) && Grows(old(db.trees), db.trees)
      ensures tree == Del(old(tree), p) && (newHash.Some? <==> old(Follows(db.nodes, rootNode, p)))
      ensures newHash.Some? ==>
        newHash.value == HashOf(tree) && newHash.value in db.trees && db.trees[newHash.value] == tree
      ensures newHash.None? ==> unchanged(this, db)
    {
      rootNode, newHash := db.DeleteDepthFirst(rootNode, p, tree);
      tree := Del(tree, p);
    }

    method Delete(key: Bytes) returns (h: Hash)
      requires Valid()
      modifies this, db
      ensures Valid() && tree == Del(old(tree), Hex(key)) && h == rootHash
      ensures Next(old(View()), Op.Delete(ME, key), View())
      ensures if old(Follows(db.nodes, rootNode, Hex(key))) then Rebasable(View(), tree)
              else View() == old(View()) && rootNode == old(rootNode) && db.nodes == old(db.nodes)
    {
      var p := MakeHex(key);
      ghost var w, t := View(), tree;
      var newHash := DropPath(p);
      if newHash.None? {
        NoDeleteIsStep(w, t, key, db.nodes);
        return rootHash;
      }
      RegisterRoot(newHash.value);
      MovesAlone(w, t, View(), tree);
      DeleteIsStep(w, key, db.nodes, View());
      return rootHash;
    }

    method Lookup(key: Bytes) returns (value: Option<Bytes>)
      requires Valid()
      ensures value == if Value(tree, Hex(key)) == [] then None else Some(Value(tree, Hex(key)))
    {
      var p := MakeHex(key);
      LookupReads(db.nodes, db.trees, rootNode, tree, p);
      var found := LookupDepthFirst(db.nodes, rootNode, p);
      return if |found| == 0 then None else Some(found);
    }

    /** Moves to another root, which must be stored and have a transaction root. */
    method Rebase(hash: Hash) returns (ok: bool)
      requires Valid()
      modifies this, db
      ensures Valid() && (ok <==> hash in old(db.nodes) && hash in old(db.txRoots))
      ensures Next(old(View()), Op.Rebase(ME, hash), View())
    {
      if hash !in db.nodes || hash !in db.txRoots {
        RebaseIsStep(old(View()), hash, View(), db.nodes);
        return false;
      }
      RestoreNode(db.nodes, db.trees, hash);
      var node := db.nodes[hash].(tombstone := Unmarked);
      db.nodes := db.nodes[hash := node];
      db.txRoots := db.txRoots[hash := Unmarked];
      db.txRoots := db.txRoots[rootHash := Marked];
      rootHash, rootNode, txTombstone := hash, node, Unmarked;
      tree := db.trees[hash];
      RebaseIsStep(old(View()), hash, View(), db.nodes);
      return true;
    }
  }
}
