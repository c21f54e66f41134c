/** Fixed-width byte strings and the 64-bit numbers they stand for, most significant byte first. */
module FixedBytes {
  import opened Hashing

  const TWO64: nat := 0x1_0000_0000_0000_0000
  type U64 = n: int | 0 <= n < TWO64

  function Pow256(k: nat): nat {
    if k == 0 then 1 else 256 * Pow256(k - 1)
  }

  /** The k least significant bytes of n. */
  function Encode(n: nat, k: nat): (s: Bytes)
    ensures |s| == k
    decreases k
  {
    if k == 0 then [] else Encode(n / 256, k - 1) + [n % 256]
  }

  function Decode(s: Bytes): nat {
    if s == [] then 0 else Decode(s[..|s| - 1]) * 256 + s[|s| - 1]
  }

  lemma {:induction false} DecodeEncode(n: nat, k: nat)
    requires n < Pow256(k)
    ensures Decode(Encode(n, k)) == n
    decreases k
  {
    if k > 0 {
      DecodeEncode(n / 256, k - 1);
      assert Encode(n, k)[..k - 1] == Encode(n / 256, k - 1);
    }
  }

  lemma {:induction false} EncodeDecode(s: Bytes)
    ensures Decode(s) < Pow256(|s|) && Encode(Decode(s), |s|) == s
  {
    if s != [] {
      var front, last := s[..|s| - 1], s[|s| - 1];
      EncodeDecode(front);
      assert (Decode(front) * 256 + last) / 256 == Decode(front);
      assert front + [last] == s;
    }
  }

  /** The first byte is the most significant one. */
  lemma {:induction false} DecodeLeads(s: Bytes)
    requires s != []
    ensures Decode(s) == s[0] * Pow256(|s| - 1) + Decode(s[1..])
  {
    if |s| > 1 {
      var front, last := s[..|s| - 1], s[|s| - 1];
      DecodeLeads(front);
      assert s[1..][..|s| - 2] == front[1..] && s[1..][|s| - 2] == last;
      Shifted(front[0], Pow256(|s| - 2), Decode(front[1..]), last);
      assert Pow256(|s| - 1) == 256 * Pow256(|s| - 2);
    }
  }

  lemma Shifted(a: nat, p: nat, rest: nat, last: nat)
    ensures (a * p + rest) * 256 + last == a * (256 * p) + (rest * 256 + last)
  {
  }

  lemma Pow256Eight()
    ensures Pow256(8) == TWO64
  {
    assert Pow256(2) == 65536;
    assert Pow256(4) == 65536 * 65536;
    assert Pow256(6) == 65536 * 65536 * 65536;
  }

  function Uint64ToByte8(n: U64): (s: Bytes)
    ensures |s| == 8
  {
    Encode(n, 8)
  }

  function Byte8ToUint64(s: Bytes): (n: U64)
    requires |s| == 8
  {
    EncodeDecode(s);
    Pow256Eight();
    Decode(s)
  }

  /** A number's eight bytes come most significant first: the first one counts 2^56. */
  lemma MostSignificantFirst(n: U64)
    ensures n == Uint64ToByte8(n)[0] * 0x100_0000_0000_0000 + Decode(Uint64ToByte8(n)[1..])
    ensures Byte8ToUint64(Uint64ToByte8(n)) == n
  {
    Pow256Eight();
    DecodeEncode(n, 8);
    DecodeLeads(Uint64ToByte8(n));
    assert Pow256(8) == 256 * Pow256(7);
  }

  /** The first 8 bytes of s, filled up with zero bytes on the right. */
  function Fit8(s: Bytes): (t: Bytes)
    ensures |t| == 8
  {
    seq(8, i requires 0 <= i < 8 => if i < |s| then s[i] else 0)
  }

  /** Longer strings lose what is behind the eighth byte, shorter ones gain zeros behind their end. */
  lemma FitsFront(s: Bytes)
    ensures |s| >= 8 ==> Fit8(s) == s[..8]
    ensures |s| <= 8 ==> exists zeros: Bytes :: (forall i :: 0 <= i < |zeros| ==> zeros[i] == 0) && Fit8(s) == s + zeros
  {
    if |s| <= 8 {
      var zeros: Bytes := seq(8 - |s|, _ => 0);
      assert Fit8(s) == s + zeros;
    }
  }

  /** Copies from the end of what fits down to the start. */
  method CopyBytes(source: Bytes, dest: array<Byte>)
    modifies dest
    ensures forall j :: 0 <= j < dest.Length ==> dest[j] == if j < |source| then source[j] else old(dest[j])
  {
    var i := if |source| > dest.Length then dest.Length else |source|;
    var fits := i;
    while i > 0
      invariant 0 <= i <= fits
      invariant forall j :: 0 <= j < dest.Length ==> dest[j] == if i <= j < fits then source[j] else old(dest[j])
    {
      dest[i - 1] := source[i - 1];
      i := i - 1;
    }
  }

  method BytesToByte8(source: Bytes) returns (s: Bytes)
    ensures s == Fit8(source)
  {
    var buffer := new Byte[8](_ => 0);
    CopyBytes(source, buffer);
    s := buffer[..];
  }

  /** A number written out and read back through the 8-byte buffer is the same number. */
  lemma Uint64RoundTrip(n: U64)
    ensures Byte8ToUint64(Fit8(Uint64ToByte8(n))) == n
  {
    Pow256Eight();
    DecodeEncode(n, 8);
    assert Fit8(Uint64ToByte8(n)) == Uint64ToByte8(n);
  }

  /** Eight bytes read as a number and written out are the same bytes. */
  lemma Byte8RoundTrip(s: Bytes)
    requires |s| == 8
    ensures Uint64ToByte8(Byte8ToUint64(Fit8(s))) == s
  {
    assert Fit8(s) == s;
    EncodeDecode(s);
  }
}
