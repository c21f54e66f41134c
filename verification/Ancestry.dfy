/**
  Blocks, and ancestry in the block tree.

  A stored block never changes, so ancestry is defined over the table of blocks alone.
  `Up(bs, h, n)` is the n-th ancestor of h; everything else is said with it.
*/
module Ancestry {
  import opened Hashing

  /** A validated block, with the fields the chain reads. */
  datatype Block = Block(
    hash: Digest64,
    parent: Hash,
    miner: Bytes,
    state: Hash,
    txs: seq<Hash>,
    depth: nat,
    weight: nat,
    uncles: seq<Hash>)

  type Blocks = map<Hash, Block>

  /** The block b sits one level below a stored parent. */
  predicate HangsBelow(bs: Blocks, b: Block) {
    b.parent in bs && b.depth == bs[b.parent].depth + 1
  }

  /** Every block other than the genesis g hangs below a stored parent. */
  ghost predicate Rooted(bs: Blocks, g: Hash) {
    && g in bs
    && bs[g].depth == 0
    && (forall h :: h in bs ==> bs[h].hash == h)
    && (forall h {:trigger HangsBelow(bs, bs[h])} :: h in bs && h != g ==> HangsBelow(bs, bs[h]))
  }

  lemma ParentStored(bs: Blocks, g: Hash, h: Hash)
    requires Rooted(bs, g) && h in bs && (h != g || bs[h].depth > 0)
    ensures bs[h].parent in bs && bs[h].depth == bs[bs[h].parent].depth + 1
  {
    assert HangsBelow(bs, bs[h]);
  }

  /** The n-th ancestor of h; stays put once it leaves the table. */
  function Up(bs: Blocks, h: Hash, n: nat): Hash
    decreases n
  {
    if n == 0 || h !in bs then h else Up(bs, bs[h].parent, n - 1)
  }

  /** a is h or an ancestor of h. */
  predicate OnPath(bs: Blocks, a: Hash, h: Hash) {
    a in bs && h in bs && bs[a].depth <= bs[h].depth && Up(bs, h, bs[h].depth - bs[a].depth) == a
  }

  lemma {:induction false} UpStored(bs: Blocks, g: Hash, h: Hash, n: nat)
    requires Rooted(bs, g) && h in bs && n <= bs[h].depth
    ensures Up(bs, h, n) in bs
    ensures bs[Up(bs, h, n)].depth == bs[h].depth - n
    decreases n
  {
    if n > 0 {
      ParentStored(bs, g, h);
      UpStored(bs, g, bs[h].parent, n - 1);
    }
  }

  lemma {:induction false} UpAdd(bs: Blocks, h: Hash, m: nat, n: nat)
    ensures Up(bs, Up(bs, h, m), n) == Up(bs, h, m + n)
    decreases m
  {
    if m > 0 && h in bs {
      UpAdd(bs, bs[h].parent, m - 1, n);
    }
  }

  /** The n-th ancestor lies on the path, and the path to it is part of the path to h. */
  lemma UpOnPath(bs: Blocks, g: Hash, h: Hash, n: nat)
    requires Rooted(bs, g) && h in bs && n <= bs[h].depth
    ensures OnPath(bs, Up(bs, h, n), h)
  {
    UpStored(bs, g, h, n);
  }

  /** Only the genesis has depth 0, and it is an ancestor of every block. */
  lemma GenesisOnPath(bs: Blocks, g: Hash, h: Hash)
    requires Rooted(bs, g) && h in bs
    ensures bs[h].depth == 0 <==> h == g
    ensures OnPath(bs, g, h)
  {
    if h != g {
      ParentStored(bs, g, h);
    }
    var top := Up(bs, h, bs[h].depth);
    UpStored(bs, g, h, bs[h].depth);
    if top != g {
      ParentStored(bs, g, top);
    }
  }

  lemma OnPathTransitive(bs: Blocks, a: Hash, b: Hash, c: Hash)
    requires OnPath(bs, a, b) && OnPath(bs, b, c)
    ensures OnPath(bs, a, c)
  {
    UpAdd(bs, c, bs[c].depth - bs[b].depth, bs[b].depth - bs[a].depth);
  }

  /** The ancestors of one block are totally ordered. */
  lemma OnPathLinear(bs: Blocks, a: Hash, b: Hash, c: Hash)
    requires OnPath(bs, a, c) && OnPath(bs, b, c) && bs[a].depth <= bs[b].depth
    ensures OnPath(bs, a, b)
  {
    UpAdd(bs, c, bs[c].depth - bs[b].depth, bs[b].depth - bs[a].depth);
  }

  /** A block's path is the block and its parent's path. */
  lemma OnPathParent(bs: Blocks, g: Hash, a: Hash, h: Hash)
    requires Rooted(bs, g) && h in bs && h != g
    ensures OnPath(bs, a, h) <==> a == h || OnPath(bs, a, bs[h].parent)
    ensures OnPath(bs, a, bs[h].parent) ==> a != h
  {
    var p := bs[h].parent;
    ParentStored(bs, g, h);
    if a in bs && bs[a].depth <= bs[h].depth {
      if bs[a].depth == bs[h].depth {
      } else {
        assert Up(bs, h, bs[h].depth - bs[a].depth) == Up(bs, p, bs[h].depth - bs[a].depth - 1);
      }
    }
  }

  predicate IsChild(bs: Blocks, g: Hash, p: Hash, c: Hash) {
    c in bs && c != g && bs[c].parent == p
  }

  /** p has a child on the path to h exactly when p is on that path and is not its end; the child is unique. */
  lemma PathChild(bs: Blocks, g: Hash, p: Hash, h: Hash)
    requires Rooted(bs, g) && p in bs && h in bs
    ensures OnPath(bs, p, h) && p != h <==> exists c :: IsChild(bs, g, p, c) && OnPath(bs, c, h)
    ensures forall c, c' ::
      IsChild(bs, g, p, c) && OnPath(bs, c, h) && IsChild(bs, g, p, c') && OnPath(bs, c', h) ==> c == c'
    ensures forall c :: IsChild(bs, g, p, c) ==> bs[c].depth == bs[p].depth + 1
  {
    forall c | IsChild(bs, g, p, c)
      ensures bs[c].depth == bs[p].depth + 1
      ensures OnPath(bs, c, h) ==> OnPath(bs, p, h) && p != h && c == Up(bs, h, bs[h].depth - bs[p].depth - 1)
    {
      ParentStored(bs, g, c);
      OnPathParent(bs, g, p, c);
      if OnPath(bs, c, h) {
        OnPathTransitive(bs, p, c, h);
      }
    }
    if OnPath(bs, p, h) && p != h {
      var k := bs[h].depth - bs[p].depth;
      var c := Up(bs, h, k - 1);
      UpOnPath(bs, g, h, k - 1);
      UpStored(bs, g, h, k - 1);
      UpAdd(bs, h, k - 1, 1);
      assert Up(bs, c, 1) == Up(bs, bs[c].parent, 0);
      GenesisOnPath(bs, g, c);
      assert IsChild(bs, g, p, c);
    }
  }

  /** bs' holds every block of bs unchanged. */
  ghost predicate Extends(bs: Blocks, bs': Blocks) {
    forall h :: h in bs ==> h in bs' && bs'[h] == bs[h]
  }

  lemma {:induction false} UpExtends(bs: Blocks, bs': Blocks, g: Hash, h: Hash, n: nat)
    requires Rooted(bs, g) && Extends(bs, bs') && h in bs && n <= bs[h].depth
    ensures Up(bs', h, n) == Up(bs, h, n)
    decreases n
  {
    if n > 0 {
      ParentStored(bs, g, h);
      UpExtends(bs, bs', g, bs[h].parent, n - 1);
    }
  }

  /** Later blocks do not change who is an ancestor of a stored block. */
  lemma OnPathExtends(bs: Blocks, bs': Blocks, g: Hash, a: Hash, h: Hash)
    requires Rooted(bs, g) && Rooted(bs', g) && Extends(bs, bs') && h in bs
    ensures OnPath(bs', a, h) <==> OnPath(bs, a, h)
  {
    if a in bs' && bs'[a].depth <= bs'[h].depth {
      UpExtends(bs, bs', g, h, bs[h].depth - bs'[a].depth);
      UpStored(bs, g, h, bs[h].depth - bs'[a].depth);
    }
  }

  /** Adding a block under a stored parent keeps the tree rooted. */
  lemma RootedAdd(bs: Blocks, g: Hash, b: Block)
    requires Rooted(bs, g) && b.hash !in bs && HangsBelow(bs, b)
    ensures Rooted(bs[b.hash := b], g) && Extends(bs, bs[b.hash := b])
  {
    var bs' := bs[b.hash := b];
    forall h | h in bs' && h != g
      ensures HangsBelow(bs', bs'[h])
    {
      if h != b.hash {
        ParentStored(bs, g, h);
      }
    }
  }
}
