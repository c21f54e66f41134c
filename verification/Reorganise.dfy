/**
  What the two reorganisation walks do to the main-list flags, step by step.

  bs already holds the new block `top`. The flags start on the path to the old tip `was`; the
  upward walk adds top's path, and the downward walk takes the rest of the old path away.
*/
module Reorganise {
  import opened Hashing
  import opened Ancestry

  /** The flag of h while the upward walk stands at cur: top's path is already set below cur. */
  ghost predicate UpFlag(bs: Blocks, was: Hash, top: Hash, cur: Hash, h: Hash) {
    OnPath(bs, h, was) || (OnPath(bs, h, top) && cur in bs && bs[h].depth > bs[cur].depth)
  }

  /** The flag of h while the downward walk stands at cur: the old path remains from cur on; None once it is gone. */
  ghost predicate DownFlag(bs: Blocks, was: Hash, top: Hash, cur: Option<Hash>, h: Hash) {
    OnPath(bs, h, top) || (cur.Some? && cur.value in bs && OnPath(bs, h, was) && bs[h].depth >= bs[cur.value].depth)
  }

  /** Setting cur's flag and moving to its parent. */
  lemma UpStep(bs: Blocks, g: Hash, was: Hash, top: Hash, cur: Hash)
    requires Rooted(bs, g) && OnPath(bs, cur, top) && cur != g
    ensures bs[cur].parent in bs && bs[bs[cur].parent].depth < bs[cur].depth && OnPath(bs, bs[cur].parent, top)
    ensures forall h :: UpFlag(bs, was, top, bs[cur].parent, h) <==> h == cur || UpFlag(bs, was, top, cur, h)
  {
    ParentStored(bs, g, cur);
    OnPathParent(bs, g, bs[cur].parent, cur);
    OnPathTransitive(bs, bs[cur].parent, cur, top);
  }

  /** The upward walk has reached the fork: its flags are now the two paths together. */
  lemma UpDone(bs: Blocks, was: Hash, top: Hash, fork: Hash)
    requires OnPath(bs, fork, was) && OnPath(bs, fork, top)
    ensures forall h :: UpFlag(bs, was, top, fork, h) <==> OnPath(bs, h, was) || OnPath(bs, h, top)
  {
    forall h | OnPath(bs, h, top) && bs[h].depth <= bs[fork].depth
      ensures OnPath(bs, h, was)
    {
      OnPathLinear(bs, h, fork, top);
      OnPathTransitive(bs, h, fork, was);
    }
  }

  /** At the fork, the flagged child other than top's own branch starts the old branch. */
  lemma DownStart(bs: Blocks, g: Hash, was: Hash, top: Hash, fork: Hash, below: Hash, next: Option<Hash>)
    requires Rooted(bs, g) && OnPath(bs, fork, was) && top in bs
    requires IsChild(bs, g, fork, below) && OnPath(bs, below, top) && !OnPath(bs, below, was)
    requires next.Some? ==> IsChild(bs, g, fork, next.value) && next.value != below
    requires next.Some? ==> OnPath(bs, next.value, was) || OnPath(bs, next.value, top)
    requires next.None? ==>
      forall c :: IsChild(bs, g, fork, c) && c != below ==> !(OnPath(bs, c, was) || OnPath(bs, c, top))
    ensures next.Some? ==> OnPath(bs, next.value, was) && !OnPath(bs, next.value, top)
    ensures forall h :: OnPath(bs, h, was) || OnPath(bs, h, top) <==> DownFlag(bs, was, top, next, h)
  {
    PathChild(bs, g, fork, was);
    PathChild(bs, g, fork, top);
    forall h | OnPath(bs, h, was)
      ensures DownFlag(bs, was, top, next, h)
    {
      if bs[h].depth <= bs[fork].depth {
        OnPathLinear(bs, h, fork, was);
        OnPathTransitive(bs, h, fork, top);
      }
    }
  }

  /** Clearing cur and moving to its flagged child. */
  lemma DownNext(bs: Blocks, g: Hash, was: Hash, top: Hash, cur: Hash, next: Option<Hash>)
    requires Rooted(bs, g) && OnPath(bs, cur, was) && top in bs && !OnPath(bs, cur, top)
    requires next.Some? ==> IsChild(bs, g, cur, next.value) && DownFlag(bs, was, top, Some(cur), next.value)
    requires next.None? ==> forall c :: IsChild(bs, g, cur, c) ==> !DownFlag(bs, was, top, Some(cur), c)
    ensures next.Some? ==>
      OnPath(bs, next.value, was) && !OnPath(bs, next.value, top) && bs[next.value].depth == bs[cur].depth + 1
    ensures forall h :: DownFlag(bs, was, top, next, h) <==> h != cur && DownFlag(bs, was, top, Some(cur), h)
  {
    PathChild(bs, g, cur, was);
    PathChild(bs, g, cur, top);
    assert forall c :: IsChild(bs, g, cur, c) && OnPath(bs, c, was) ==> DownFlag(bs, was, top, Some(cur), c);
  }
}
