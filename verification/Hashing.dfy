/**
  Digests, and the idealised SHA-512.

  A digest is a value of `Hash`; `Null` is the all-zero digest the program uses for
  "no hash". What gets hashed is a sequence of atoms: plain bytes, or whole digests
  written into the buffer one after another. `Sha` is an arbitrary collision-free
  function that never yields `Null`; nothing else about it is known anywhere.
*/
module Hashing {

  datatype Option<+T> = None | Some(value: T)

  type Byte = b: int | 0 <= b < 256
  type Bytes = seq<Byte>

  datatype Atom = HashAtom(hash: Hash) | ByteAtom(byte: Byte)
  datatype Hash = Null | Digest(image: seq<Atom>)

  ghost predicate CollisionFree(f: seq<Atom> -> Hash) {
    && (forall a, b :: f(a) == f(b) ==> a == b)
    && (forall a :: f(a) != Null)
  }

  /** Shows that a collision-free function exists. */
  function FreeDigest(image: seq<Atom>): Hash {
    Digest(image)
  }

  /** A digest that is not the all-zero one. */
  type Digest64 = h: Hash | h != Null witness Digest([])

  type HashFunction = f: seq<Atom> -> Hash | CollisionFree(f) witness FreeDigest
  const Sha: HashFunction

  /** The 64 bytes of a digest: an arbitrary function, used only for the tie-breaking number. */
  const HASH_LENGTH := 64
  type Byte64 = s: Bytes | |s| == HASH_LENGTH witness seq(HASH_LENGTH, _ => 0)
  type ByteView = f: Hash -> Byte64 | true witness (_: Hash) => seq(HASH_LENGTH, _ => 0)
  const RawBytes: ByteView

  function ByteAtoms(s: Bytes): seq<Atom> {
    seq(|s|, i requires 0 <= i < |s| => ByteAtom(s[i]))
  }

  function HashAtoms(hs: seq<Hash>): seq<Atom> {
    seq(|hs|, i requires 0 <= i < |hs| => HashAtom(hs[i]))
  }
}
