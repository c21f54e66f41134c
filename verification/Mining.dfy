/**
  Hashing a block: its header bytes, the search for an approved nonce, and the peer that must
  arrive at the same hash from what went over the wire. The time limit on the search is a
  number of nonces it may try.
*/
module Mining {
  import opened Hashing
  import opened Ancestry
  import opened FixedBytes
  import opened ForkChoice
  import opened Trie
  import opened Persistence
  import opened Flush
  import opened Overlay

  /** The fields that go over the wire; a transaction is the bytes it is serialised to. */
  datatype BlockSpec = BlockSpec(
    phash: Hash,
    miner: Bytes,
    state: Hash,
    txs: seq<Bytes>,
    ts: U64,
    delta: U64,
    depth: U64,
    weight: U64,
    uncles: seq<Hash>,
    nonce: U64)

  /** A proof-of-work rule: it sees the hash, the timestamp and the time since the parent. */
  type Approver = (Hash, U64, U64) -> bool

  function Joined(parts: seq<Bytes>): Bytes {
    if parts == [] then [] else Joined(parts[..|parts| - 1]) + parts[|parts| - 1]
  }

  /** Everything that is hashed but the nonce. The block's depth is not part of it. */
  function Header(s: BlockSpec, root: Hash): seq<Atom> {
    [HashAtom(s.phash)] + ByteAtoms(s.miner) + ByteAtoms(Uint64ToByte8(s.ts)) + ByteAtoms(Uint64ToByte8(s.delta))
    + [HashAtom(root)] + ByteAtoms(Joined(s.txs)) + ByteAtoms(Uint64ToByte8(s.weight)) + HashAtoms(s.uncles)
  }

  /** Blocks that differ only in their depth have the same hash under every state root. */
  lemma DepthIsNotHashed(s: BlockSpec, depth: U64, root: Hash, nonce: U64)
    ensures HashWith(Header(s.(depth := depth), root), nonce) == HashWith(Header(s, root), nonce)
  {
  }

  function HashWith(header: seq<Atom>, nonce: U64): Digest64 {
    Sha(header + ByteAtoms(Uint64ToByte8(nonce)))
  }

  predicate Approved(pow: Option<Approver>, h: Hash, ts: U64, delta: U64) {
    pow.None? || pow.value(h, ts, delta)
  }

  function NextNonce(nonce: U64): U64 {
    if nonce + 1 == TWO64 then 0 else nonce + 1
  }

  /** A nonce's hash under this header, if the proof-of-work rule approves it. */
  function AttemptWith(header: seq<Atom>, ts: U64, delta: U64, pow: Option<Approver>): U64 -> Option<Digest64> {
    (nonce: U64) =>
      var h := HashWith(header, nonce);
      if Approved(pow, h, ts, delta) then Some(h) else None
  }

  function Attempt(s: BlockSpec, root: Hash, pow: Option<Approver>): U64 -> Option<Digest64> {
    AttemptWith(Header(s, root), s.ts, s.delta, pow)
  }

  /** The nonce search: up to `budget` nonces, or a single one for a block from the network. */
  function Search(attempt: U64 -> Option<Digest64>, nonce: U64, budget: nat, network: bool): Option<(U64, Digest64)>
    decreases budget
  {
    if budget == 0 then None
    else if attempt(nonce).Some? then Some((nonce, attempt(nonce).value))
    else if network then None
    else Search(attempt, NextNonce(nonce), budget - 1, network)
  }

  /** The nonce k steps on, with wrap-around. */
  function After(nonce: U64, k: nat): U64
    decreases k
  {
    if k == 0 then nonce else After(NextNonce(nonce), k - 1)
  }

  lemma {:induction false} AfterNext(nonce: U64, k: nat)
    ensures After(nonce, k + 1) == NextNonce(After(nonce, k))
    decreases k
  {
    if k > 0 {
      AfterNext(NextNonce(nonce), k - 1);
    }
  }

  /** Nonces count up and wrap around at 2^64. */
  lemma {:induction false} AfterWraps(nonce: U64, k: nat)
    ensures After(nonce, k) == (nonce + k) % TWO64
    decreases k
  {
    if k > 0 {
      AfterWraps(NextNonce(nonce), k - 1);
    }
  }

  /** The search returns the first nonce, counting up with wrap-around, whose hash is approved. */
  lemma {:induction false} SearchFindsFirst(attempt: U64 -> Option<Digest64>, nonce: U64, budget: nat, k: nat)
    requires k < budget && attempt(After(nonce, k)).Some?
    requires forall j: nat :: j < k ==> attempt(After(nonce, j)).None?
    ensures Search(attempt, nonce, budget, false) == Some((After(nonce, k), attempt(After(nonce, k)).value))
    decreases k
  {
    if k > 0 {
      assert attempt(After(nonce, 0)).None?;
      forall j: nat | j < k - 1
        ensures attempt(After(NextNonce(nonce), j)).None?
      {
        assert After(NextNonce(nonce), j) == After(nonce, j + 1);
      }
      SearchFindsFirst(attempt, NextNonce(nonce), budget - 1, k - 1);
    }
  }

  lemma {:induction false} SearchTriesAll(attempt: U64 -> Option<Digest64>, nonce: U64, budget: nat, j: nat)
    requires Search(attempt, nonce, budget, false).None? && j < budget
    ensures attempt(After(nonce, j)).None?
    decreases j
  {
    if j > 0 {
      SearchTriesAll(attempt, NextNonce(nonce), budget - 1, j - 1);
    }
  }

  lemma {:induction false} SearchSucceedsAt(attempt: U64 -> Option<Digest64>, nonce: U64, budget: nat) returns (j: nat)
    requires Search(attempt, nonce, budget, false).Some?
    ensures j < budget && attempt(After(nonce, j)).Some?
    decreases budget
  {
    if attempt(nonce).Some? {
      j := 0;
    } else {
      var i := SearchSucceedsAt(attempt, NextNonce(nonce), budget - 1);
      j := i + 1;
    }
  }

  /** The search fails exactly when none of the nonces it may try is approved. */
  lemma SearchFails(attempt: U64 -> Option<Digest64>, nonce: U64, budget: nat)
    ensures Search(attempt, nonce, budget, false).None? <==>
      forall j: nat :: j < budget ==> attempt(After(nonce, j)).None?
  {
    if Search(attempt, nonce, budget, false).None? {
      forall j: nat | j < budget
        ensures attempt(After(nonce, j)).None?
      {
        SearchTriesAll(attempt, nonce, budget, j);
      }
    } else {
      var j := SearchSucceedsAt(attempt, nonce, budget);
      assert attempt(After(nonce, j)).Some?;
    }
  }

  lemma {:induction false} SearchApproved(attempt: U64 -> Option<Digest64>, nonce: U64, budget: nat)
    ensures var r := Search(attempt, nonce, budget, false); r.Some? ==> attempt(r.value.0) == Some(r.value.1)
    decreases budget
  {
    if budget > 0 {
      SearchApproved(attempt, NextNonce(nonce), budget - 1);
    }
  }

  /**
    A block is mined at the root its writes lead to from t and sent. A peer that replays the same
    writes from an equal root approves it on its first nonce with the same hash.
  */
  lemma PeerAgrees(s: BlockSpec, pow: Option<Approver>, budget: nat, ws: Writes, t: Tree, t': Tree, peer: Tree,
                   peer': Tree, peerBudget: nat)
    requires IsFlush(t, ws, t') && IsFlush(peer, ws, peer') && HashOf(t) == HashOf(peer)
    requires peerBudget > 0 && Search(Attempt(s, HashOf(t'), pow), s.nonce, budget, false).Some?
    ensures
      var mined := Search(Attempt(s, HashOf(t'), pow), s.nonce, budget, false);
      var wire := s.(nonce := mined.value.0, state := HashOf(t'));
      Search(Attempt(wire, HashOf(peer'), pow), wire.nonce, peerBudget, true) == mined
  {
    var root := HashOf(t');
    PeersFlushAlike(t, peer, ws, t', peer');
    SearchApproved(Attempt(s, root, pow), s.nonce, budget);
    var mined := Search(Attempt(s, root, pow), s.nonce, budget, false);
    assert Header(s.(nonce := mined.value.0, state := root), root) == Header(s, root);
  }

  // ---------- What the hash binds ----------

  /** Front and back of the hashed buffer: up to the state root, and after it. */
  function FrontOf(s: BlockSpec): seq<Atom> {
    [HashAtom(s.phash)] + ByteAtoms(s.miner) + ByteAtoms(Uint64ToByte8(s.ts)) + ByteAtoms(Uint64ToByte8(s.delta))
  }

  function BackOf(s: BlockSpec, nonce: U64): seq<Atom> {
    ByteAtoms(Joined(s.txs)) + ByteAtoms(Uint64ToByte8(s.weight)) + HashAtoms(s.uncles)
    + ByteAtoms(Uint64ToByte8(nonce))
  }

  lemma FrontLayout(s: BlockSpec, i: nat)
    ensures var f, m := FrontOf(s), |s.miner|;
      && |f| == 17 + m && f[0] == HashAtom(s.phash) && (i < m ==> f[1 + i] == ByteAtom(s.miner[i]))
      && (i < 8 ==> f[1 + m + i] == ByteAtom(Uint64ToByte8(s.ts)[i]))
      && (i < 8 ==> f[9 + m + i] == ByteAtom(Uint64ToByte8(s.delta)[i]))
  {
  }

  lemma BackLayout(s: BlockSpec, nonce: U64, i: nat)
    ensures var b, t, u := BackOf(s, nonce), |Joined(s.txs)|, |s.uncles|;
      && |b| == 16 + t + u && (i < t ==> b[i] == ByteAtom(Joined(s.txs)[i]))
      && (i < 8 ==> b[t + i] == ByteAtom(Uint64ToByte8(s.weight)[i]))
      && (i < u ==> b[8 + t + i] == HashAtom(s.uncles[i]))
      && (i < 8 ==> b[8 + t + u + i] == ByteAtom(Uint64ToByte8(nonce)[i]))
  {
  }

  lemma ImageSplits(s: BlockSpec, root: Hash, nonce: U64)
    ensures HashWith(Header(s, root), nonce) == Sha(FrontOf(s) + [HashAtom(root)] + BackOf(s, nonce))
  {
    Regroup(FrontOf(s) + [HashAtom(root)], ByteAtoms(Joined(s.txs)), ByteAtoms(Uint64ToByte8(s.weight)),
            HashAtoms(s.uncles), ByteAtoms(Uint64ToByte8(nonce)));
  }

  lemma Regroup<T>(front: seq<T>, x: seq<T>, w: seq<T>, u: seq<T>, n: seq<T>)
    ensures front + x + w + u + n == front + (x + w + u + n)
  {
  }

  lemma BytesBind(a: Bytes, b: Bytes)
    requires ByteAtoms(a) == ByteAtoms(b)
    ensures a == b
  {
    assert |ByteAtoms(a)| == |a| && |ByteAtoms(b)| == |b|;
    forall i | 0 <= i < |a| ensures a[i] == b[i] {
      assert ByteAtoms(a)[i] == ByteAtom(a[i]) && ByteAtoms(b)[i] == ByteAtom(b[i]);
    }
  }

  lemma HashesBind(a: seq<Hash>, b: seq<Hash>)
    requires HashAtoms(a) == HashAtoms(b)
    ensures a == b
  {
    assert |HashAtoms(a)| == |a| && |HashAtoms(b)| == |b|;
    forall i | 0 <= i < |a| ensures a[i] == b[i] {
      assert HashAtoms(a)[i] == HashAtom(a[i]) && HashAtoms(b)[i] == HashAtom(b[i]);
    }
  }

  lemma NumbersBind(a: U64, b: U64)
    requires ByteAtoms(Uint64ToByte8(a)) == ByteAtoms(Uint64ToByte8(b))
    ensures a == b
  {
    BytesBind(Uint64ToByte8(a), Uint64ToByte8(b));
    MostSignificantFirst(a);
    MostSignificantFirst(b);
  }

  /** Pieces of equal length that make up equal sequences are equal. */
  lemma PiecesEqual<T>(a: seq<T>, b: seq<T>, a': seq<T>, b': seq<T>)
    requires a + b == a' + b' && |a| == |a'|
    ensures a == a' && b == b'
  {
    assert (a + b)[..|a|] == a && (a' + b')[..|a|] == a';
    assert (a + b)[|a|..] == b && (a' + b')[|a|..] == b';
  }

  lemma FrontBinds(s: BlockSpec, s': BlockSpec)
    requires FrontOf(s) == FrontOf(s')
    ensures s.phash == s'.phash && s.miner == s'.miner && s.ts == s'.ts && s.delta == s'.delta
  {
    var h, h', m, m' := [HashAtom(s.phash)], [HashAtom(s'.phash)], ByteAtoms(s.miner), ByteAtoms(s'.miner);
    var t, t' := ByteAtoms(Uint64ToByte8(s.ts)), ByteAtoms(Uint64ToByte8(s'.ts));
    var d, d' := ByteAtoms(Uint64ToByte8(s.delta)), ByteAtoms(Uint64ToByte8(s'.delta));
    PiecesEqual(h + m + t, d, h' + m' + t', d');
    PiecesEqual(h + m, t, h' + m', t');
    PiecesEqual(h, m, h', m');
    assert h[0] == h'[0];
    BytesBind(s.miner, s'.miner);
    NumbersBind(s.ts, s'.ts);
    NumbersBind(s.delta, s'.delta);
  }

  /** Where the transactions end: at the first uncle, or sixteen bytes before the end. */
  lemma TransactionsEnd(s: BlockSpec, nonce: U64, s': BlockSpec, nonce': U64)
    requires BackOf(s, nonce) == BackOf(s', nonce')
    ensures |Joined(s.txs)| >= |Joined(s'.txs)|
  {
    var back, back' := BackOf(s, nonce), BackOf(s', nonce');
    var n, n' := |Joined(s.txs)|, |Joined(s'.txs)|;
    assert |back| == n + 16 + |s.uncles| && |back'| == n' + 16 + |s'.uncles|;
    assert |s.uncles| > 0 ==> back[n + 8] == HashAtom(s.uncles[0]);
    assert forall i :: 0 <= i < n' + 8 ==> back'[i].ByteAtom?;
  }

  lemma BackBinds(s: BlockSpec, nonce: U64, s': BlockSpec, nonce': U64)
    requires BackOf(s, nonce) == BackOf(s', nonce')
    ensures Joined(s.txs) == Joined(s'.txs) && s.weight == s'.weight && s.uncles == s'.uncles && nonce == nonce'
  {
    TransactionsEnd(s, nonce, s', nonce');
    TransactionsEnd(s', nonce', s, nonce);
    var x, x' := ByteAtoms(Joined(s.txs)), ByteAtoms(Joined(s'.txs));
    var w, w' := ByteAtoms(Uint64ToByte8(s.weight)), ByteAtoms(Uint64ToByte8(s'.weight));
    var u, u' := HashAtoms(s.uncles), HashAtoms(s'.uncles);
    var n, n' := ByteAtoms(Uint64ToByte8(nonce)), ByteAtoms(Uint64ToByte8(nonce'));
    assert |x + w + u + n| == |x' + w' + u' + n'|;
    PiecesEqual(x + w + u, n, x' + w' + u', n');
    PiecesEqual(x + w, u, x' + w', u');
    PiecesEqual(x, w, x', w');
    BytesBind(Joined(s.txs), Joined(s'.txs));
    NumbersBind(s.weight, s'.weight);
    HashesBind(s.uncles, s'.uncles);
    NumbersBind(nonce, nonce');
  }

  /** Two buffers whose fronts are bytes after the first atom, and end at a hash, have fronts of one length. */
  lemma FirstHash(f: seq<Atom>, x: Atom, b: seq<Atom>, f': seq<Atom>, x': Atom, b': seq<Atom>)
    requires f + [x] + b == f' + [x'] + b' && |f| >= 1 && x.HashAtom?
    requires forall i :: 1 <= i < |f'| ==> f'[i].ByteAtom?
    ensures |f| >= |f'|
  {
    assert (f + [x] + b)[|f|] == x;
    assert forall i :: 0 <= i < |f'| ==> (f' + [x'] + b')[i] == f'[i];
  }

  lemma FrontIsBytes(s: BlockSpec)
    ensures |FrontOf(s)| >= 1 && forall i :: 1 <= i < |FrontOf(s)| ==> FrontOf(s)[i].ByteAtom?
  {
  }

  /**
    Two blocks have the same hash exactly if they agree on everything that is hashed: parent, miner,
    times, state root, the transactions' bytes one after the other, weight, uncles and nonce.
  */
  lemma HashBindsBlock(s: BlockSpec, root: Hash, nonce: U64, s': BlockSpec, root': Hash, nonce': U64)
    ensures HashWith(Header(s, root), nonce) == HashWith(Header(s', root'), nonce') <==>
      && s.phash == s'.phash && s.miner == s'.miner && s.ts == s'.ts && s.delta == s'.delta && root == root'
      && Joined(s.txs) == Joined(s'.txs) && s.weight == s'.weight && s.uncles == s'.uncles && nonce == nonce'
  {
    ImageSplits(s, root, nonce);
    ImageSplits(s', root', nonce');
    var f, f', b, b' := FrontOf(s), FrontOf(s'), BackOf(s, nonce), BackOf(s', nonce');
    if f + [HashAtom(root)] + b == f' + [HashAtom(root')] + b' {
      FrontIsBytes(s);
      FrontIsBytes(s');
      FirstHash(f, HashAtom(root), b, f', HashAtom(root'), b');
      FirstHash(f', HashAtom(root'), b', f, HashAtom(root), b);
      PiecesEqual(f + [HashAtom(root)], b, f' + [HashAtom(root')], b');
      PiecesEqual(f, [HashAtom(root)], f', [HashAtom(root')]);
      assert [HashAtom(root)][0] == [HashAtom(root')][0];
      FrontBinds(s, s');
      BackBinds(s, nonce, s', nonce');
    }
  }

  /** Transactions are hashed as their bytes one after the other: appending one appends its bytes, whatever the cut. */
  lemma {:induction false} JoinedAppends(txs: seq<Bytes>, more: seq<Bytes>)
    ensures Joined(txs + more) == Joined(txs) + Joined(more)
    ensures forall tx :: Joined([tx]) == tx
    decreases more
  {
    if more == [] {
      assert txs + more == txs;
    } else {
      var front, last := more[..|more| - 1], more[|more| - 1];
      JoinedAppends(txs, front);
      assert (txs + more)[..|txs + more| - 1] == txs + front;
    }
  }

  /** A replay that reaches another state root gives another hash: the root is bound by the block's hash. */
  lemma ReplayBinds(s: BlockSpec, root: Hash, root': Hash, nonce: U64)
    ensures HashWith(Header(s, root), nonce) == HashWith(Header(s, root'), nonce) <==> root == root'
  {
    var at := 1 + |s.miner| + 8 + 8;
    var a := Header(s, root) + ByteAtoms(Uint64ToByte8(nonce));
    var b := Header(s, root') + ByteAtoms(Uint64ToByte8(nonce));
    assert a[at] == HashAtom(root) && b[at] == HashAtom(root');
  }

  lemma JoinedNext(parts: seq<Bytes>, i: nat)
    requires i < |parts|
    ensures ByteAtoms(Joined(parts[..i + 1])) == ByteAtoms(Joined(parts[..i])) + ByteAtoms(parts[i])
  {
    assert parts[..i + 1][..i] == parts[..i];
  }

  method AppendTransactions(data: seq<Atom>, txs: seq<Bytes>) returns (r: seq<Atom>)
    ensures r == data + ByteAtoms(Joined(txs))
  {
    r := data;
    for i := 0 to |txs|
      invariant r == data + ByteAtoms(Joined(txs[..i]))
    {
      JoinedNext(txs, i);
      r := r + ByteAtoms(txs[i]);
    }
    assert txs[..|txs|] == txs;
  }

  method AppendUncles(data: seq<Atom>, uncles: seq<Hash>) returns (r: seq<Atom>)
    ensures r == data + HashAtoms(uncles)
  {
    r := data;
    for i := 0 to |uncles|
      invariant r == data + HashAtoms(uncles[..i])
    {
      assert HashAtoms(uncles[..i + 1]) == HashAtoms(uncles[..i]) + [HashAtom(uncles[i])];
      r := r + [HashAtom(uncles[i])];
    }
    assert uncles[..|uncles|] == uncles;
  }

  /** Writes the header out, transaction by transaction and uncle by uncle. */
  method BuildHeader(s: BlockSpec, root: Hash) returns (data: seq<Atom>)
    ensures data == Header(s, root)
  {
    data := [HashAtom(s.phash)] + ByteAtoms(s.miner)
            + ByteAtoms(Uint64ToByte8(s.ts)) + ByteAtoms(Uint64ToByte8(s.delta));
    data := data + [HashAtom(root)];
    data := AppendTransactions(data, s.txs);
    data := data + ByteAtoms(Uint64ToByte8(s.weight));
    data := AppendUncles(data, s.uncles);
  }

  /** The nonce a search without success leaves behind. */
  function LastTried(nonce: U64, budget: nat, network: bool): U64 {
    if budget == 0 || network then nonce else After(nonce, budget - 1)
  }

  function TxId(tx: Bytes): Hash {
    Sha(ByteAtoms(tx))
  }

  /** What hashing the block s at this state root comes to: the block s' and its hash, which was `was` before. */
  ghost predicate HashingEnds(s: BlockSpec, root: Hash, pow: Option<Approver>, budget: nat, network: bool,
                         ok: bool, s': BlockSpec, hash: Option<Digest64>, was: Option<Digest64>) {
    var r := Search(Attempt(s, root, pow), s.nonce, budget, network);
    && ok == r.Some?
    && s' == s.(nonce := s'.nonce, state := if network then s.state else root)
    && (if ok then hash == Some(r.value.1) && s'.nonce == r.value.0
        else hash == was && s'.nonce == LastTried(s.nonce, budget, network))
  }

  /** The hash of a block at this state root with the nonce it has. */
  function BlockHash(s: BlockSpec, root: Hash): Digest64 {
    HashWith(Header(s, root), s.nonce)
  }

  /** The block has its own hash at this state root, and the proof-of-work rule accepts it. */
  ghost predicate HashAccepted(s: BlockSpec, root: Hash, hash: Option<Digest64>, pow: Option<Approver>) {
    hash == Some(BlockHash(s, root)) && (pow.Some? ==> pow.value(BlockHash(s, root), s.ts, s.delta))
  }

  /** Every nonce the search may try is rejected. */
  ghost predicate AllRejected(s: BlockSpec, root: Hash, pow: Option<Approver>, budget: nat) {
    forall j: nat :: j < budget ==> Rejected(s, root, pow, After(s.nonce, j))
  }

  /** A hash that was found is the block's hash with the nonce it now has, and the proof-of-work rule accepts it. */
  lemma HashedIsApproved(s: BlockSpec, root: Hash, pow: Option<Approver>, budget: nat, network: bool,
                         ok: bool, s': BlockSpec, hash: Option<Digest64>, was: Option<Digest64>)
    requires HashingEnds(s, root, pow, budget, network, ok, s', hash, was) && ok
    ensures HashAccepted(s', root, hash, pow)
  {
    assert Header(s', root) == Header(s, root);
    if !network {
      SearchApproved(Attempt(s, root, pow), s.nonce, budget);
    }
  }

  /** A network block keeps its nonce, and its only try succeeds exactly if the proof-of-work rule accepts its hash. */
  lemma NetworkHashed(s: BlockSpec, root: Hash, pow: Option<Approver>, budget: nat,
                      ok: bool, s': BlockSpec, hash: Option<Digest64>, was: Option<Digest64>)
    requires HashingEnds(s, root, pow, budget, true, ok, s', hash, was)
    ensures s' == s
    ensures budget > 0 ==> (ok <==> pow.None? || pow.value(BlockHash(s, root), s.ts, s.delta))
    ensures budget == 0 ==> !ok
  {
  }

  /** A local block is left without hash exactly if none of the nonces it may try, from its own on, is accepted. */
  lemma LocalHashed(s: BlockSpec, root: Hash, pow: Option<Approver>, budget: nat,
                    ok: bool, s': BlockSpec, hash: Option<Digest64>, was: Option<Digest64>)
    requires HashingEnds(s, root, pow, budget, false, ok, s', hash, was)
    ensures !ok <==> AllRejected(s, root, pow, budget)
  {
    if !ok {
      forall j: nat | j < budget
        ensures Rejected(s, root, pow, After(s.nonce, j))
      {
        FailedAt(s, root, pow, budget, j);
      }
    } else {
      var j := SucceededAt(s, root, pow, budget);
      assert !Rejected(s, root, pow, After(s.nonce, j));
    }
  }

  lemma FailedAt(s: BlockSpec, root: Hash, pow: Option<Approver>, budget: nat, j: nat)
    requires Search(Attempt(s, root, pow), s.nonce, budget, false).None? && j < budget
    ensures Rejected(s, root, pow, After(s.nonce, j))
  {
    SearchTriesAll(Attempt(s, root, pow), s.nonce, budget, j);
    AttemptRejected(s, root, pow, After(s.nonce, j));
  }

  lemma SucceededAt(s: BlockSpec, root: Hash, pow: Option<Approver>, budget: nat) returns (j: nat)
    requires Search(Attempt(s, root, pow), s.nonce, budget, false).Some?
    ensures j < budget && !Rejected(s, root, pow, After(s.nonce, j))
  {
    j := SearchSucceedsAt(Attempt(s, root, pow), s.nonce, budget);
    AttemptRejected(s, root, pow, After(s.nonce, j));
  }

  /** The rule rejects the block's hash with this nonce. */
  ghost predicate Rejected(s: BlockSpec, root: Hash, pow: Option<Approver>, nonce: U64) {
    pow.Some? && !pow.value(HashWith(Header(s, root), nonce), s.ts, s.delta)
  }

  lemma AttemptRejected(s: BlockSpec, root: Hash, pow: Option<Approver>, nonce: U64)
    ensures Attempt(s, root, pow)(nonce).None? <==> Rejected(s, root, pow, nonce)
  {
  }

  /** Stands for the hash of a block that has none yet. */
  const PENDING: Digest64 := Digest([])

  /** A flush of writes that are in the tree already cleans up nothing. */
  lemma CleansNothing(start: Tree, ws: Writes, t: Tree, cleaned: set<Hash>)
    requires IsFlush(start, ws, t) && HashOf(t) !in cleaned && forall h :: h in cleaned ==> Passes(t, ws, h)
    ensures cleaned == {}
  {
    if cleaned != {} {
      var h :| h in cleaned;
      PassesAgain(start, ws, t, h);
    }
  }

  /** The ids of the transactions, in order. */
  function TxIds(txs: seq<Bytes>): (ids: seq<Hash>)
    ensures |ids| == |txs|
  {
    if txs == [] then [] else TxIds(txs[..|txs| - 1]) + [TxId(txs[|txs| - 1])]
  }

  lemma {:induction false} TxIdsAt(txs: seq<Bytes>, i: nat)
    requires i < |txs|
    ensures TxIds(txs)[i] == Sha(ByteAtoms(txs[i]))
  {
    if i < |txs| - 1 {
      TxIdsAt(txs[..|txs| - 1], i);
    }
  }

  /** b is the block s under its hash: the same fields, and the ids of its transactions in order. */
  ghost predicate Records(b: Block, s: BlockSpec) {
    && b.parent == s.phash && b.miner == s.miner && b.state == s.state && b.depth == s.depth && b.weight == s.weight
    && b.uncles == s.uncles && |b.txs| == |s.txs|
    && forall i :: 0 <= i < |s.txs| ==> b.txs[i] == Sha(ByteAtoms(s.txs[i]))
  }

  lemma SealedRecords(s: BlockSpec, hash: Option<Digest64>)
    ensures Records(Sealed(s, hash), s)
  {
    forall i | 0 <= i < |s.txs| ensures Sealed(s, hash).txs[i] == Sha(ByteAtoms(s.txs[i])) {
      TxIdsAt(s.txs, i);
    }
  }

  /** Different transactions have different ids. */
  lemma TxIdBinds(tx: Bytes, tx': Bytes)
    ensures TxId(tx) == TxId(tx') <==> tx == tx'
  {
    if ByteAtoms(tx) == ByteAtoms(tx') {
      BytesBind(tx, tx');
    }
  }

  /** The block as the chain sees it. */
  function Sealed(s: BlockSpec, hash: Option<Digest64>): Block {
    Block(if hash.Some? then hash.value else PENDING, s.phash, s.miner, s.state,
          TxIds(s.txs), s.depth, s.weight, s.uncles)
  }

  /** A block being mined or checked. */
  class MinableBlock {
    var spec: BlockSpec
    var hash: Option<Digest64>
    var pow: Option<Approver>
    var uncleMiners: seq<Bytes>
    const isNetworkBlock: bool
    const body: BlockState

    ghost predicate Valid()
      reads this, body, body.worldState, body.worldState.db
    {
      body.Valid()
    }

    constructor (spec: BlockSpec, isNetworkBlock: bool, body: BlockState)
      requires body.Valid()
      ensures this.spec == spec && hash == None && pow == None && uncleMiners == []
      ensures this.isNetworkBlock == isNetworkBlock && this.body == body
    {
      this.spec, this.hash, this.pow, this.uncleMiners := spec, None, None, [];
      this.isNetworkBlock, this.body := isNetworkBlock, body;
    }

    /** Tries nonces until one is approved, the budget runs out, or a network block's only nonce fails. */
    method RunSearch(attempt: U64 -> Option<Digest64>, budget: nat) returns (found: Option<Digest64>)
      modifies this`spec
      ensures spec == old(spec).(nonce := spec.nonce)
      ensures var r := Search(attempt, old(spec).nonce, budget, isNetworkBlock);
        if r.Some? then found == Some(r.value.1) && spec.nonce == r.value.0
        else found == None && spec.nonce == LastTried(old(spec).nonce, budget, isNetworkBlock)
    {
      var nonce, left: nat := spec.nonce, budget;
      ghost var s0 := spec;
      while left > 0
        invariant spec == s0.(nonce := spec.nonce)
        invariant left <= budget && (isNetworkBlock ==> left == budget)
        invariant nonce == After(s0.nonce, budget - left)
        invariant spec.nonce == if left == budget then s0.nonce else After(s0.nonce, budget - left - 1)
        invariant Search(attempt, s0.nonce, budget, isNetworkBlock) == Search(attempt, nonce, left, isNetworkBlock)
      {
        AfterNext(s0.nonce, budget - left);
        spec := spec.(nonce := nonce);
        found := attempt(nonce);
        nonce := NextNonce(nonce);
        if found.Some? {
          return;
        }
        if isNetworkBlock {
          return None;
        }
        left := left - 1;
      }
      return None;
    }

    /**
      Flushes the block's writes, takes the resulting root as its state if the block is local, and
      searches for a nonce. `cleaned` are the roots the flush cleaned up.
    */
    method ComputeHash(budget: nat) returns (ok: bool, ghost cleaned: set<Hash>)
      requires Valid()
      modifies this`spec, this`hash, body.worldState, body.worldState.db
      ensures Valid() && IsFlush(old(body.worldState.tree), body.variables, body.worldState.tree)
      ensures HashOf(old(body.worldState.tree)) !in cleaned && HashOf(body.worldState.tree) !in cleaned
      ensures forall h :: h in cleaned ==>
        Passes(old(body.worldState.tree), body.variables, h) && h !in body.worldState.db.txRoots
      ensures KeepsRoots(old(body.worldState.View()), body.worldState.View(), cleaned)
      ensures Rebasable(body.worldState.View(), body.worldState.tree) <==>
        Ready(old(body.worldState.Now()), body.variables)
      ensures CleansBetween(old(body.worldState.tree), body.variables, body.worldState.tree, cleaned)
      ensures body.worldState.View().roots <=
        old(body.worldState.View().roots) + {HashOf(old(body.worldState.tree)), HashOf(body.worldState.tree)}
      ensures HashingEnds(old(spec), body.worldState.rootHash, pow, budget, isNetworkBlock, ok, spec, hash, old(hash))
    {
      cleaned := body.PersistState();
      var root := body.worldState.rootHash;
      if !isNetworkBlock {
        spec := spec.(state := root);
      }
      var data := BuildHeader(spec, root);
      assert data == Header(old(spec), root);
      var found := RunSearch(AttemptWith(data, spec.ts, spec.delta, pow), budget);
      ok := found.Some?;
      if ok {
        hash := found;
      }
    }

    /**
      Hashes a network block that has its hash and whose writes are flushed any number of times again:
      nothing changes.
    */
    method ComputeAgain(budget: nat, times: nat, ghost start: Tree) returns (ok: bool)
      requires Valid() && isNetworkBlock && budget > 0 && IsFlush(start, body.variables, body.worldState.tree)
      requires hash.Some? && Attempt(spec, body.worldState.rootHash, pow)(spec.nonce) == hash
      modifies this`spec, this`hash, body.worldState, body.worldState.db
      ensures Valid() && ok && hash == old(hash) && spec == old(spec)
      ensures body.worldState.tree == old(body.worldState.tree)
      ensures KeepsRoots(old(body.worldState.View()), body.worldState.View(), {})
    {
      ok := true;
      for i := 0 to times
        invariant Valid() && ok && hash == old(hash) && spec == old(spec)
        invariant body.worldState.tree == old(body.worldState.tree)
        invariant KeepsRoots(old(body.worldState.View()), body.worldState.View(), {})
      {
        ghost var before, cleaned := body.worldState.View(), {};
        ok, cleaned := ComputeHash(budget);
        FlushAgain(start, body.variables, old(body.worldState.tree), body.worldState.tree);
        CleansNothing(start, body.variables, old(body.worldState.tree), cleaned);
        KeepsRootsTransitive(old(body.worldState.View()), before, body.worldState.View(), {}, {});
      }
    }

    /** The block as sent: with the root of its world state. */
    method Spec() returns (s: BlockSpec)
      requires Valid()
      ensures s == spec.(state := body.worldState.rootHash)
    {
      s := spec.(state := body.worldState.rootHash);
    }
  }

  /**
    A block is mined under a proof-of-work rule and sent; a peer with its own database rebuilds it
    from what was sent, over an equal root and with the same writes, and computes its hash when it
    checks the proof of work and any number of times again.
  */
  method MineSendCheck(local: MinableBlock, body: BlockState, pow: Option<Approver>, budget: nat, peerBudget: nat,
                       again: nat)
    returns (mined: bool, peer: MinableBlock, agreed: bool)
    requires local.Valid() && !local.isNetworkBlock && body.Valid() && peerBudget > 0
    requires local.body.worldState != body.worldState && local.body.worldState.db != body.worldState.db
    requires local.body.worldState.rootHash == body.worldState.rootHash && local.body.variables == body.variables
    modifies local, local.body.worldState, local.body.worldState.db, body.worldState, body.worldState.db
    ensures local.Valid() && peer.Valid() && peer.isNetworkBlock && peer.body == body
    ensures mined ==> agreed && local.hash.Some? && peer.hash == local.hash && peer.spec == local.spec
    ensures body.worldState.rootHash == local.body.worldState.rootHash == local.spec.state
  {
    ghost var s0, ws, t, peerT := local.spec, body.variables, local.body.worldState.tree, body.worldState.tree;
    local.pow := pow;
    ghost var cleaned;
    mined, cleaned := local.ComputeHash(budget);
    var wire := local.Spec();
    peer := new MinableBlock(wire, true, body);
    peer.pow := pow;
    agreed, cleaned := peer.ComputeHash(peerBudget);
    ghost var t', peerT' := local.body.worldState.tree, body.worldState.tree;
    PeersFlushAlike(t, peerT, ws, t', peerT');
    if mined {
      PeerAgrees(s0, pow, budget, ws, t, t', peerT, peerT', peerBudget);
    }
    if agreed {
      agreed := peer.ComputeAgain(peerBudget, again, peerT);
    }
  }

  // ---------- The tie-breaking number ----------

  lemma {:induction false} ByteSumBound(s: Bytes)
    ensures ByteSum(s) <= 255 * |s|
  {
    if s != [] {
      ByteSumBound(s[1..]);
    }
  }

  lemma {:induction false} ByteSumFront(s: Bytes, b: Byte)
    ensures ByteSum(s + [b]) == ByteSum(s) + b
  {
    if s != [] {
      ByteSumFront(s[1..], b);
      assert (s + [b])[1..] == s[1..] + [b];
    } else {
      assert s + [b] == [b];
    }
  }

  /**
    Adds up the 64 bytes of the hash; a block without hash gets the largest number, so any hashed block
    of its weight beats it.
  */
  method ComputeNumeric(hash: Option<Digest64>) returns (num: U64)
    ensures hash.Some? ==> num == Numeric(hash.value) <= 255 * HASH_LENGTH
    ensures hash.None? ==> num == TWO64 - 1
  {
    num := 0;
    if hash.None? {
      num := (num - 1) % TWO64;
      return;
    }
    var bytes := RawBytes(hash.value);
    for i := 0 to |bytes|
      invariant num == ByteSum(bytes[..i])
    {
      ByteSumFront(bytes[..i], bytes[i]);
      ByteSumBound(bytes[..i + 1]);
      assert bytes[..i + 1] == bytes[..i] + [bytes[i]];
      num := (num + bytes[i]) % TWO64;
    }
    assert bytes[..|bytes|] == bytes;
    ByteSumBound(bytes);
  }
}
