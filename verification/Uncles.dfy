/**
  Uncles: the validator walks two lines up to their meeting point, the producer searches the
  branches beside its own line. The two algorithms are proved against one notion of uncle.
*/
module Uncles {
  import opened Hashing
  import opened Ancestry
  import opened ForkChoice
  import opened Runs

  // ---------- Validating an uncle ----------

  /** No common ancestor of p and u lies deeper than level k. */
  ghost predicate MeetAtOrAbove(bs: Blocks, p: Hash, u: Hash, k: int) {
    forall c :: OnPath(bs, c, p) && OnPath(bs, c, u) ==> bs[c].depth <= k
  }

  /** Where both lines stand at one level: equal exactly when that level is on both lines. */
  lemma SameLevel(bs: Blocks, g: Hash, p: Hash, u: Hash, a: Hash, b: Hash)
    requires Rooted(bs, g) && OnPath(bs, a, p) && OnPath(bs, b, u) && bs[a].depth == bs[b].depth
    requires MeetAtOrAbove(bs, p, u, bs[a].depth)
    ensures a != b ==> a != g && b != g && MeetAtOrAbove(bs, p, u, bs[a].depth - 1)
  {
    GenesisOnPath(bs, g, a);
    GenesisOnPath(bs, g, b);
  }

  /** Two lines brought to the shallower of their levels meet there exactly when one is an ancestor of the other. */
  lemma Levelled(bs: Blocks, p: Hash, u: Hash, a: Hash, b: Hash)
    requires OnPath(bs, a, p) && OnPath(bs, b, u) && bs[a].depth == bs[b].depth
    requires a == p || b == u
    ensures a == b <==> OnPath(bs, u, p) || OnPath(bs, p, u)
    ensures MeetAtOrAbove(bs, p, u, bs[a].depth)
  {
  }

  /** The validator's distance is the deeper block's height above the deepest common ancestor. */
  lemma MeetingDecides(bs: Blocks, g: Hash, p: Hash, u: Hash, c: Hash, k: nat)
    requires Rooted(bs, g) && OnPath(bs, c, p) && OnPath(bs, c, u) && MeetAtOrAbove(bs, p, u, bs[c].depth)
    ensures CommonWithin(bs, p, u, k) <==> bs[p].depth - bs[c].depth <= k && bs[u].depth - bs[c].depth <= k
  {
  }

  function Get(d: Dag, h: Hash): Option<ChainNode> {
    if h in d.nodes then Some(d.nodes[h]) else None
  }

  /** n is the node at a block on the line up from h. */
  ghost predicate OnLine(d: Dag, n: Option<ChainNode>, h: Hash) {
    n.Some? && n.value.hash in d.nodes && n.value == d.nodes[n.value.hash] && OnPath(d.blocks, n.value.hash, h)
    && n.value.depth == d.blocks[n.value.hash].depth
  }

  lemma LineStart(d: Dag, h: Hash)
    requires Consistent(d) && h in d.nodes
    ensures OnLine(d, Get(d, h), h) && d.nodes[h].hash == h
  {
    assert NodeOk(d.blocks, d.genesis, h, d.nodes[h]);
  }

  /** One step up the line. */
  lemma LineStep(d: Dag, n: Option<ChainNode>, h: Hash)
    requires Consistent(d) && OnLine(d, n, h) && n.value.hash != d.genesis
    ensures OnLine(d, Get(d, n.value.parent), h)
    ensures Get(d, n.value.parent).value.depth == n.value.depth - 1
  {
    var a := n.value.hash;
    assert NodeOk(d.blocks, d.genesis, a, d.nodes[a]);
    ParentStored(d.blocks, d.genesis, a);
    assert NodeOk(d.blocks, d.genesis, n.value.parent, d.nodes[n.value.parent]);
    OnPathParent(d.blocks, d.genesis, n.value.parent, a);
    OnPathTransitive(d.blocks, n.value.parent, a, h);
  }

  /** Decides whether the block u may be an uncle of a child of parentHash, and returns its miner if so. */
  method IsUncleValid(d: Dag, parentHash: Hash, u: Hash) returns (miner: Option<Bytes>)
    requires Consistent(d)
    ensures miner.Some? <==> UncleOk(d.blocks, parentHash, u)
    ensures miner.Some? ==> miner.value == d.blocks[u].miner
  {
    var bs := d.blocks;
    var uncle := Get(d, u);
    var parent := Get(d, parentHash);
    if uncle.None? || parent.None? {
      return None;
    }
    LineStart(d, u);
    LineStart(d, parentHash);
    var distance := 0;
    while parent.Some? && parent.value.depth > uncle.value.depth
      invariant OnLine(d, parent, parentHash)
      invariant distance == bs[parentHash].depth - parent.value.depth
      invariant parent.value.depth < uncle.value.depth ==> parent.value.hash == parentHash
      decreases if parent.Some? then parent.value.depth else 0
    {
      GenesisOnPath(bs, d.genesis, parent.value.hash);
      LineStep(d, parent, parentHash);
      parent := Get(d, parent.value.parent);
      distance := distance + 1;
    }
    while parent.Some? && uncle.Some? && uncle.value.depth > parent.value.depth
      invariant OnLine(d, uncle, u)
      invariant parent.value.depth <= uncle.value.depth
      invariant parent.value.hash == parentHash || uncle.value.hash == u
      invariant distance == bs[parentHash].depth - parent.value.depth + bs[u].depth - uncle.value.depth
      decreases if uncle.Some? then uncle.value.depth else 0
    {
      GenesisOnPath(bs, d.genesis, uncle.value.hash);
      LineStep(d, uncle, u);
      uncle := Get(d, uncle.value.parent);
      distance := distance + 1;
    }
    if parent.None? || uncle.None? {
      return None;
    }
    Levelled(bs, parentHash, u, parent.value.hash, uncle.value.hash);
    if parent.value.hash == uncle.value.hash {
      return None;
    }
    ghost var deeper := if bs[parentHash].depth > bs[u].depth then bs[parentHash].depth else bs[u].depth;
    while parent.Some? && uncle.Some? && parent.value.hash != uncle.value.hash
      invariant OnLine(d, parent, parentHash) && OnLine(d, uncle, u)
      invariant parent.value.depth == uncle.value.depth
      invariant distance == deeper - parent.value.depth
      invariant MeetAtOrAbove(bs, parentHash, u, parent.value.depth)
      decreases if parent.Some? then parent.value.depth else 0
    {
      SameLevel(bs, d.genesis, parentHash, u, parent.value.hash, uncle.value.hash);
      LineStep(d, parent, parentHash);
      LineStep(d, uncle, u);
      parent := Get(d, parent.value.parent);
      uncle := Get(d, uncle.value.parent);
      distance := distance + 1;
    }
    MeetingDecides(bs, d.genesis, parentHash, u, parent.value.hash, MAX_UNCLE_DISTANCE);
    if parent.Some? && uncle.Some? && distance <= MAX_UNCLE_DISTANCE && u in bs {
      return Some(bs[u].miner);
    }
    return None;
  }

  // ---------- Validating a block ----------

  /** The miners of the listed blocks, in order. */
  function MinersOf(bs: Blocks, us: seq<Hash>): seq<Bytes> {
    seq(|us|, i requires 0 <= i < |us| => if us[i] in bs then bs[us[i]].miner else [])
  }

  /**
    Runs a block's checks in order. The miners of its uncles are appended to those the block has, so
    validating it again lists them again.
  */
  method ValidateBlock(d: Dag, b: Block, uncleMiners: seq<Bytes>) returns (failed: Option<Verdict>, miners: seq<Bytes>)
    requires Consistent(d)
    ensures failed == Validate(d.blocks, b)
    ensures failed.None? ==> miners == uncleMiners + MinersOf(d.blocks, b.uncles)
    ensures uncleMiners <= miners
  {
    miners := uncleMiners;
    if b.parent !in d.blocks {
      return Some(Orphan), miners;
    }
    var parent := d.blocks[b.parent];
    if b.depth != parent.depth + 1 {
      return Some(BadDepth), miners;
    }
    var weight := parent.weight + 1;
    for i := 0 to |b.uncles|
      invariant weight == parent.weight + 1 + i && miners == uncleMiners + MinersOf(d.blocks, b.uncles[..i])
      invariant forall j :: 0 <= j < i ==> UncleOk(d.blocks, b.parent, b.uncles[j])
    {
      var miner := IsUncleValid(d, b.parent, b.uncles[i]);
      if miner.None? {
        assert b.uncles[i] in b.uncles;
        return Some(BadUncle), miners;
      }
      assert MinersOf(d.blocks, b.uncles[..i + 1]) == MinersOf(d.blocks, b.uncles[..i]) + [miner.value];
      miners := miners + [miner.value];
      weight := weight + 1;
    }
    assert b.uncles[..|b.uncles|] == b.uncles;
    if b.weight != weight {
      return Some(BadWeight), miners;
    }
    return None, miners;
  }

  // ---------- Finding uncles ----------

  datatype Uncle = Uncle(hash: Hash, miner: Bytes, depth: nat)

  /** u lies 1 to k generations below c, no deeper than level m. */
  predicate Below(bs: Blocks, c: Hash, u: Hash, k: nat, m: nat) {
    OnPath(bs, c, u) && bs[c].depth < bs[u].depth <= bs[c].depth + k && bs[u].depth <= m
  }

  /** u branches off p's line at its n-th ancestor, at most r - n + 1 generations down and no deeper than m. */
  predicate BranchesAt(bs: Blocks, p: Hash, u: Hash, r: nat, m: nat, n: nat)
    requires p in bs
  {
    && 1 <= n <= r && n <= bs[p].depth
    && Below(bs, Up(bs, p, n), u, r - n + 1, m) && !OnPath(bs, Up(bs, p, n - 1), u)
  }

  /** u is among the uncles searched for from p with r generations to go. */
  predicate Nearby(bs: Blocks, p: Hash, u: Hash, r: nat, m: nat)
    requires p in bs
  {
    exists n :: 1 <= n <= r && BranchesAt(bs, p, u, r, m, n)
  }

  function Hashes(us: seq<Uncle>): seq<Hash> {
    seq(|us|, i requires 0 <= i < |us| => us[i].hash)
  }

  /** Each entry records its block. */
  predicate Recorded(bs: Blocks, us: seq<Uncle>) {
    forall i :: 0 <= i < |us| ==>
      us[i].hash in bs && us[i].miner == bs[us[i].hash].miner && us[i].depth == bs[us[i].hash].depth
  }

  ghost predicate Disjoint(s: seq<Hash>, t: seq<Hash>) {
    forall u :: u in s ==> u !in t
  }

  lemma HashesAppend(us: seq<Uncle>, vs: seq<Uncle>)
    requires NoDuplicates(Hashes(us)) && NoDuplicates(Hashes(vs)) && Disjoint(Hashes(us), Hashes(vs))
    ensures NoDuplicates(Hashes(us + vs))
    ensures forall u :: u in Hashes(us + vs) <==> u in Hashes(us) || u in Hashes(vs)
  {
    var a, b := Hashes(us), Hashes(vs);
    assert Hashes(us + vs) == a + b;
    forall i, j | 0 <= i < j < |a + b|
      ensures (a + b)[i] != (a + b)[j]
    {
      if i < |a| <= j {
        assert a[i] in a && b[j - |a|] in b;
      }
    }
  }

  /** u is x, or lies at most k generations below it; no deeper than m. */
  predicate Within(bs: Blocks, x: Hash, u: Hash, k: nat, m: nat) {
    OnPath(bs, x, u) && bs[u].depth <= bs[x].depth + k && bs[u].depth <= m
  }

  /** What lies below c lies within one of its children. */
  lemma BelowChildren(bs: Blocks, g: Hash, c: Hash, u: Hash, k: nat, m: nat)
    requires Rooted(bs, g) && c in bs && k > 0
    ensures Below(bs, c, u, k, m) <==> exists x :: IsChild(bs, g, c, x) && Within(bs, x, u, k - 1, m)
  {
    if u in bs {
      PathChild(bs, g, c, u);
    }
  }

  /** The subtrees of two different children do not overlap. */
  lemma ChildrenApart(bs: Blocks, g: Hash, c: Hash, x: Hash, y: Hash, u: Hash)
    requires Rooted(bs, g) && c in bs
    requires IsChild(bs, g, c, x) && IsChild(bs, g, c, y) && OnPath(bs, x, u) && OnPath(bs, y, u)
    ensures x == y
  {
    PathChild(bs, g, c, u);
  }

  /** us is the search of the first i children in cs other than skip, each with k generations below it. */
  ghost predicate Covers(bs: Blocks, cs: seq<Hash>, skip: Hash, i: nat, k: nat, m: nat, us: seq<Uncle>)
    requires i <= |cs|
  {
    && Recorded(bs, us) && NoDuplicates(Hashes(us))
    && forall u :: u in Hashes(us) <==> exists j :: 0 <= j < i && cs[j] != skip && Within(bs, cs[j], u, k, m)
  }

  /** sub is the search below x. */
  ghost predicate CoversBelow(bs: Blocks, x: Hash, k: nat, m: nat, sub: seq<Uncle>) {
    && Recorded(bs, sub) && NoDuplicates(Hashes(sub))
    && forall u :: u in Hashes(sub) <==> Below(bs, x, u, k, m)
  }

  /** A child that is skipped, or already too deep, adds nothing. */
  lemma CoversSkip(bs: Blocks, cs: seq<Hash>, skip: Hash, i: nat, k: nat, m: nat, us: seq<Uncle>)
    requires i < |cs| && Covers(bs, cs, skip, i, k, m, us)
    requires cs[i] == skip || (cs[i] in bs && bs[cs[i]].depth > m)
    ensures Covers(bs, cs, skip, i + 1, k, m, us)
  {
  }

  /** A child and the search below it. */
  lemma SubtreeCovers(bs: Blocks, x: Hash, k: nat, m: nat, entry: Uncle, sub: seq<Uncle>)
    requires x in bs && bs[x].depth <= m && entry.hash == x && CoversBelow(bs, x, k, m, sub)
    ensures NoDuplicates(Hashes([entry] + sub))
    ensures forall u :: u in Hashes([entry] + sub) <==> Within(bs, x, u, k, m)
  {
    assert Hashes([entry]) == [x];
    HashesAppend([entry], sub);
  }

  lemma CoversNext(bs: Blocks, g: Hash, c: Hash, cs: seq<Hash>, skip: Hash, i: nat, k: nat, m: nat,
                   us: seq<Uncle>, entry: Uncle, sub: seq<Uncle>)
    requires Rooted(bs, g) && c in bs && ListsChildren(bs, g, c, cs)
    requires i < |cs| && Covers(bs, cs, skip, i, k, m, us)
    requires cs[i] != skip && cs[i] in bs && bs[cs[i]].depth <= m
    requires entry.hash == cs[i] && Recorded(bs, [entry]) && CoversBelow(bs, cs[i], k, m, sub)
    ensures Covers(bs, cs, skip, i + 1, k, m, us + [entry] + sub)
  {
    var x := cs[i];
    var more := [entry] + sub;
    SubtreeCovers(bs, x, k, m, entry, sub);
    forall u | u in Hashes(us)
      ensures u !in Hashes(more)
    {
      var j :| 0 <= j < i && cs[j] != skip && Within(bs, cs[j], u, k, m);
      assert cs[j] in cs && cs[i] in cs;
      if Within(bs, x, u, k, m) {
        ChildrenApart(bs, g, c, cs[j], x, u);
      }
    }
    HashesAppend(us, more);
    assert us + [entry] + sub == us + more;
    forall u
      ensures u in Hashes(us + more) <==> exists j :: 0 <= j < i + 1 && cs[j] != skip && Within(bs, cs[j], u, k, m)
    {
    }
  }

  /** A finished search covers what lies below c outside the skipped child's subtree. */
  lemma CoversAll(bs: Blocks, g: Hash, c: Hash, cs: seq<Hash>, skip: Hash, k: nat, m: nat, us: seq<Uncle>)
    requires Rooted(bs, g) && c in bs && ListsChildren(bs, g, c, cs) && Covers(bs, cs, skip, |cs|, k, m, us)
    ensures forall u :: u in Hashes(us) <==> Below(bs, c, u, k + 1, m) && !(skip in cs && OnPath(bs, skip, u))
  {
    forall u
      ensures u in Hashes(us) <==> Below(bs, c, u, k + 1, m) && !(skip in cs && OnPath(bs, skip, u))
    {
      BelowChildren(bs, g, c, u, k + 1, m);
      if u in Hashes(us) {
        var j :| 0 <= j < |cs| && cs[j] != skip && Within(bs, cs[j], u, k, m);
        assert cs[j] in cs && IsChild(bs, g, c, cs[j]);
        if skip in cs && OnPath(bs, skip, u) {
          ChildrenApart(bs, g, c, cs[j], skip, u);
        }
      } else if Below(bs, c, u, k + 1, m) {
        var x :| IsChild(bs, g, c, x) && Within(bs, x, u, k, m);
        assert x in cs;
        var j :| 0 <= j < |cs| && cs[j] == x;
      }
    }
  }

  /** All blocks up to `remaining` generations below a child, no deeper than maxDepth. */
  method FindNonDirectAncestors(d: Dag, child: Hash, remaining: nat, maxDepth: nat) returns (uncles: seq<Uncle>)
    requires Consistent(d) && child in d.nodes && remaining <= MAX_UNCLE_DISTANCE
    ensures CoversBelow(d.blocks, child, remaining, maxDepth, uncles)
    decreases remaining
  {
    uncles := [];
    if remaining == 0 {
      return;
    }
    var bs, cs := d.blocks, d.nodes[child].children;
    assert NodeOk(bs, d.genesis, child, d.nodes[child]);
    for i := 0 to |cs|
      invariant Covers(bs, cs, Null, i, remaining - 1, maxDepth, uncles)
    {
      var x := cs[i];
      assert x in cs;
      var block := bs[x];
      if block.depth <= maxDepth {
        var sub := FindNonDirectAncestors(d, x, remaining - 1, maxDepth);
        var entry := Uncle(block.hash, block.miner, block.depth);
        CoversNext(bs, d.genesis, child, cs, Null, i, remaining - 1, maxDepth, uncles, entry, sub);
        uncles := uncles + [entry] + sub;
      } else {
        CoversSkip(bs, cs, Null, i, remaining - 1, maxDepth, uncles);
      }
    }
    CoversAll(bs, d.genesis, child, cs, Null, remaining - 1, maxDepth, uncles);
    assert Null !in cs;
  }

  /** The uncles at one ancestor, and those further up, make up the uncles nearby. */
  lemma NearbyParent(bs: Blocks, g: Hash, p: Hash, u: Hash, r: nat, m: nat)
    requires Rooted(bs, g) && p in bs && p != g && r > 0
    ensures bs[p].parent in bs
    ensures Nearby(bs, p, u, r, m) <==>
      (Below(bs, bs[p].parent, u, r, m) && !OnPath(bs, p, u)) || Nearby(bs, bs[p].parent, u, r - 1, m)
    ensures Nearby(bs, bs[p].parent, u, r - 1, m) ==> !OnPath(bs, bs[p].parent, u)
  {
    var q := bs[p].parent;
    ParentStored(bs, g, p);
    assert Up(bs, p, 1) == Up(bs, q, 0) == q;
    if Nearby(bs, p, u, r, m) {
      var n :| 1 <= n <= r && BranchesAt(bs, p, u, r, m, n);
      if n > 1 {
        assert Up(bs, p, n) == Up(bs, q, n - 1) && Up(bs, p, n - 1) == Up(bs, q, n - 2);
        assert BranchesAt(bs, q, u, r - 1, m, n - 1);
      }
    }
    if Nearby(bs, q, u, r - 1, m) {
      var n :| 1 <= n <= r - 1 && BranchesAt(bs, q, u, r - 1, m, n);
      assert Up(bs, p, n + 1) == Up(bs, q, n) && Up(bs, p, n) == Up(bs, q, n - 1);
      assert BranchesAt(bs, p, u, r, m, n + 1);
      UpOnPath(bs, g, q, n - 1);
      if OnPath(bs, q, u) {
        OnPathTransitive(bs, Up(bs, q, n - 1), q, u);
      }
    }
    if Below(bs, q, u, r, m) && !OnPath(bs, p, u) {
      assert BranchesAt(bs, p, u, r, m, 1);
    }
  }

  /** us is the whole uncle search from p. */
  ghost predicate CoversNearby(bs: Blocks, p: Hash, r: nat, m: nat, us: seq<Uncle>)
    requires p in bs
  {
    && Recorded(bs, us) && NoDuplicates(Hashes(us))
    && forall u :: u in Hashes(us) <==> Nearby(bs, p, u, r, m)
  }

  lemma NearbyCombine(bs: Blocks, g: Hash, p: Hash, r: nat, m: nat, here: seq<Uncle>, further: seq<Uncle>)
    requires Rooted(bs, g) && p in bs && p != g && r > 0 && bs[p].parent in bs
    requires Recorded(bs, here) && NoDuplicates(Hashes(here))
    requires forall u :: u in Hashes(here) <==> Below(bs, bs[p].parent, u, r, m) && !OnPath(bs, p, u)
    requires CoversNearby(bs, bs[p].parent, r - 1, m, further)
    ensures CoversNearby(bs, p, r, m, here + further)
  {
    forall u
      ensures Nearby(bs, p, u, r, m) <==> u in Hashes(here) || u in Hashes(further)
      ensures u in Hashes(here) ==> u !in Hashes(further)
    {
      NearbyParent(bs, g, p, u, r, m);
    }
    HashesAppend(here, further);
  }

  /** All uncles near `parent`, a block whose own parent is `grandParent`. */
  method FindUncles(d: Dag, grandParent: Hash, parent: Hash, remaining: nat, maxDepth: nat) returns (uncles: seq<Uncle>)
    requires Consistent(d) && parent in d.blocks && grandParent == d.blocks[parent].parent
    requires remaining <= MAX_UNCLE_DISTANCE && d.blocks[parent].depth <= maxDepth
    ensures CoversNearby(d.blocks, parent, remaining, maxDepth, uncles)
    decreases remaining
  {
    uncles := [];
    var bs := d.blocks;
    if remaining == 0 || grandParent == Null {
      if remaining > 0 && parent != d.genesis {
        ParentStored(bs, d.genesis, parent);
      }
      GenesisOnPath(bs, d.genesis, parent);
      return;
    }
    ParentStored(bs, d.genesis, parent);
    var node := d.nodes[grandParent];
    var cs := node.children;
    assert NodeOk(bs, d.genesis, grandParent, node);
    for i := 0 to |cs|
      invariant Covers(bs, cs, parent, i, remaining - 1, maxDepth, uncles)
    {
      var x := cs[i];
      assert x in cs;
      if x != parent {
        var block := bs[x];
        ParentStored(bs, d.genesis, x);
        var sub := FindNonDirectAncestors(d, x, remaining - 1, maxDepth);
        var entry := Uncle(block.hash, block.miner, block.depth);
        CoversNext(bs, d.genesis, grandParent, cs, parent, i, remaining - 1, maxDepth, uncles, entry, sub);
        uncles := uncles + [entry] + sub;
      } else {
        CoversSkip(bs, cs, parent, i, remaining - 1, maxDepth, uncles);
      }
    }
    CoversAll(bs, d.genesis, grandParent, cs, parent, remaining - 1, maxDepth, uncles);
    assert parent in cs;
    var further := FindUncles(d, node.parent, node.hash, remaining - 1, maxDepth);
    NearbyCombine(bs, d.genesis, parent, remaining, maxDepth, uncles, further);
    uncles := uncles + further;
  }

  // ---------- Producer and validator agree ----------

  /** Every uncle the producer finds is one the validator accepts. */
  lemma NearbyIsUncle(bs: Blocks, g: Hash, p: Hash, u: Hash, m: nat)
    requires Rooted(bs, g) && p in bs && Nearby(bs, p, u, MAX_UNCLE_DISTANCE, m)
    ensures UncleOk(bs, p, u)
  {
    var n :| 1 <= n <= MAX_UNCLE_DISTANCE && BranchesAt(bs, p, u, MAX_UNCLE_DISTANCE, m, n);
    var fork, side := Up(bs, p, n), Up(bs, p, n - 1);
    UpStored(bs, g, p, n);
    UpOnPath(bs, g, p, n);
    UpStored(bs, g, p, n - 1);
    UpOnPath(bs, g, p, n - 1);
    if OnPath(bs, u, p) {
      OnPathLinear(bs, side, u, p);
    }
    if OnPath(bs, p, u) {
      OnPathTransitive(bs, side, p, u);
    }
    assert OnPath(bs, fork, p) && OnPath(bs, fork, u);
  }

  /** c is a common ancestor whose distances to p and u add up to at most one more than the uncle distance. */
  ghost predicate CommonSum(bs: Blocks, p: Hash, u: Hash, c: Hash)
    requires p in bs && u in bs
  {
    && OnPath(bs, c, p) && OnPath(bs, c, u)
    && (bs[p].depth - bs[c].depth) + (bs[u].depth - bs[c].depth) <= MAX_UNCLE_DISTANCE + 1
  }

  /** Following p's line down from a common ancestor finds where u branches off. */
  lemma {:induction false} BranchPoint(bs: Blocks, g: Hash, p: Hash, u: Hash, c: Hash)
    requires Rooted(bs, g) && p in bs && u in bs && !OnPath(bs, p, u) && !OnPath(bs, u, p)
    requires CommonSum(bs, p, u, c) && bs[u].depth <= bs[p].depth
    ensures Nearby(bs, p, u, MAX_UNCLE_DISTANCE, bs[p].depth)
    decreases bs[p].depth - bs[c].depth
  {
    var n := bs[p].depth - bs[c].depth;
    assert n > 0 && bs[u].depth > bs[c].depth;
    var side := Up(bs, p, n - 1);
    UpStored(bs, g, p, n - 1);
    UpOnPath(bs, g, p, n - 1);
    if OnPath(bs, side, u) {
      BranchPoint(bs, g, p, u, side);
    } else {
      assert BranchesAt(bs, p, u, MAX_UNCLE_DISTANCE, bs[p].depth, n);
    }
  }

  /**
    The producer finds exactly the valid uncles no deeper than its tip whose two distances to a common
    ancestor add up to at most six.
  */
  lemma NearbyExact(bs: Blocks, g: Hash, p: Hash, u: Hash)
    requires Rooted(bs, g) && p in bs
    ensures Nearby(bs, p, u, MAX_UNCLE_DISTANCE, bs[p].depth) <==>
      UncleOk(bs, p, u) && bs[u].depth <= bs[p].depth && exists c :: CommonSum(bs, p, u, c)
  {
    if Nearby(bs, p, u, MAX_UNCLE_DISTANCE, bs[p].depth) {
      NearbyIsUncle(bs, g, p, u, bs[p].depth);
      var n :| 1 <= n <= MAX_UNCLE_DISTANCE && BranchesAt(bs, p, u, MAX_UNCLE_DISTANCE, bs[p].depth, n);
      UpStored(bs, g, p, n);
      UpOnPath(bs, g, p, n);
      assert CommonSum(bs, p, u, Up(bs, p, n));
    } else if UncleOk(bs, p, u) && bs[u].depth <= bs[p].depth && exists c :: CommonSum(bs, p, u, c) {
      var c :| CommonSum(bs, p, u, c);
      BranchPoint(bs, g, p, u, c);
    }
  }

  /** A block under construction: everything but its transactions, state and hash. */
  datatype Candidate = Candidate(
    parent: Hash,
    depth: nat,
    weight: nat,
    miner: Bytes,
    uncles: seq<Hash>,
    uncleMiners: seq<Bytes>)

  function Seal(c: Candidate, hash: Digest64, state: Hash, txs: seq<Hash>): Block {
    Block(hash, c.parent, c.miner, state, txs, c.depth, c.weight, c.uncles)
  }

  /**
    c sits on the tip, with every uncle nearby, none twice, their miners in the same order, and the
    weight counting each.
  */
  ghost predicate IsCandidate(d: Dag, minerId: Bytes, c: Candidate)
    requires d.tip.hash in d.blocks
  {
    && c.parent == d.tip.hash && c.miner == minerId && c.depth == d.tip.depth + 1
    && c.weight == d.tip.weight + 1 + |c.uncles| && NoDuplicates(c.uncles)
    && (forall u :: u in c.uncles <==> Nearby(d.blocks, d.tip.hash, u, MAX_UNCLE_DISTANCE, d.tip.depth))
    && c.uncleMiners == MinersOf(d.blocks, c.uncles)
  }

  /** A new block on top of the tip, with every uncle nearby. */
  method NewCandidateBlock(d: Dag, minerId: Bytes) returns (c: Candidate)
    requires Consistent(d)
    ensures IsCandidate(d, minerId, c)
  {
    c := Candidate(d.tip.hash, d.tip.depth + 1, d.tip.weight + 1, minerId, [], []);
    var found := FindUncles(d, d.tip.parent, d.tip.hash, MAX_UNCLE_DISTANCE, d.tip.depth);
    for i := 0 to |found|
      invariant c == Candidate(d.tip.hash, d.tip.depth + 1, d.tip.weight + 1 + i, minerId,
                               Hashes(found[..i]), c.uncleMiners)
      invariant |c.uncleMiners| == i
      invariant forall j :: 0 <= j < i ==> c.uncleMiners[j] == found[j].miner
    {
      assert Hashes(found[..i + 1]) == Hashes(found[..i]) + [found[i].hash];
      c := c.(
        uncles := c.uncles + [found[i].hash],
        uncleMiners := c.uncleMiners + [found[i].miner],
        weight := c.weight + 1);
    }
    assert found[..|found|] == found;
  }

  /**
    A candidate submitted at once, with a new hash, no finalised transaction and its state at hand,
    becomes the tip.
  */
  lemma CandidateWins(d: Dag, c: Candidate, hash: Digest64, state: Hash, txs: seq<Hash>, rebasable: set<Hash>)
    requires Consistent(d)
    requires c.parent == d.tip.hash && c.depth == d.tip.depth + 1 && c.weight == d.tip.weight + 1 + |c.uncles|
    requires forall u :: u in c.uncles ==> Nearby(d.blocks, d.tip.hash, u, MAX_UNCLE_DISTANCE, d.tip.depth)
    requires var b := Seal(c, hash, state, txs); b.hash !in d.nodes && !CarriesFinalised(d, b) && state in rebasable
    ensures var b := Seal(c, hash, state, txs);
      Submit(d, Submission(b, state, rebasable)) == (Promoted(d, b), Checked(Accepted))
    ensures var tip := Promoted(d, Seal(c, hash, state, txs)).tip;
      && tip.hash == hash && tip.parent == d.tip.hash && tip.miner == c.miner && tip.state == state && tip.txs == txs
      && tip.depth == d.tip.depth + 1 && tip.uncles == c.uncles && tip.weight == d.tip.weight + 1 + |c.uncles|
  {
    CandidateAccepted(d, c, hash, state, txs, []);
  }

  /** What the producer builds the validator accepts, at once and after any later submissions. */
  lemma CandidateAccepted(d: Dag, c: Candidate, hash: Digest64, state: Hash, txs: seq<Hash>, run: seq<Submission>)
    requires Consistent(d) && Undisturbed(d, run)
    requires c.parent == d.tip.hash && c.depth == d.tip.depth + 1 && c.weight == d.tip.weight + 1 + |c.uncles|
    requires forall u :: u in c.uncles ==> Nearby(d.blocks, d.tip.hash, u, MAX_UNCLE_DISTANCE, d.tip.depth)
    ensures Validate(d.blocks, Seal(c, hash, state, txs)) == None
    ensures Validate(Run(d, run).blocks, Seal(c, hash, state, txs)) == None
  {
    var b := Seal(c, hash, state, txs);
    forall u | u in b.uncles
      ensures UncleOk(d.blocks, b.parent, u)
    {
      NearbyIsUncle(d.blocks, d.genesis, d.tip.hash, u, d.tip.depth);
    }
    RunConsistent(d, run);
    SoundExtends(d.blocks, Run(d, run).blocks, d.genesis, b);
    ValidateSound(d.blocks, b);
    ValidateSound(Run(d, run).blocks, b);
  }
}
