/**
 * Fixed-width two's-complement words and their byte layouts, as Java's
 * DataOutputStream / DataInputStream write and read them (big-endian) and
 * as Integer.reverseBytes / Long.reverseBytes swap them.  A word of n bytes
 * (n = 4 for int, n = 8 for long) is held as an unbounded integer in the
 * signed range of n bytes.
 */
module Bytes {

  type byte = b: int | 0 <= b < 256

  /** 256^n, the number of distinct n-byte words. */
  function Pow256(n: nat): (p: nat)
    ensures p >= 1
  {
    if n == 0 then 1 else 256 * Pow256(n - 1)
  }

  /** v lies in the signed range of an n-byte word. */
  predicate InRange(v: int, n: nat)
  {
    n >= 1 && -128 * Pow256(n - 1) <= v < 128 * Pow256(n - 1)
  }

  /** The signed range of a Java int. */
  lemma IntRange(v: int)
    ensures InRange(v, 4) <==> -0x8000_0000 <= v < 0x8000_0000
  {
    assert Pow256(3) == 0x100_0000;
  }

  /** The signed range of a Java long. */
  lemma LongRange(v: int)
    ensures InRange(v, 8) <==> -0x8000_0000_0000_0000 <= v < 0x8000_0000_0000_0000
  {
    assert Pow256(7) == 0x100_0000_0000_0000;
  }

  /** s read back to front. */
  function Reverse<T>(s: seq<T>): (r: seq<T>)
    ensures |r| == |s|
    ensures forall i :: 0 <= i < |s| ==> r[i] == s[|s| - 1 - i]
  {
    seq(|s|, i requires 0 <= i < |s| => s[|s| - 1 - i])
  }

  lemma ReverseReverse<T>(s: seq<T>)
    ensures Reverse(Reverse(s)) == s
  {
  }

  /** A slice of the middle part of a concatenation. */
  lemma SliceOfConcat<T>(a: seq<T>, b: seq<T>, c: seq<T>, lo: nat, hi: nat)
    requires lo <= hi <= |b|
    ensures (a + b + c)[|a| + lo..|a| + hi] == b[lo..hi]
  {
  }

  /** The n low-order bytes of u, least significant first. */
  function LittleEndian(u: nat, n: nat): (r: seq<byte>)
    ensures |r| == n
  {
    if n == 0 then [] else [u % 256] + LittleEndian(u / 256, n - 1)
  }

  /** The unsigned value of a byte sequence, least significant byte first. */
  function FromLittleEndian(s: seq<byte>): (u: nat)
    ensures u < Pow256(|s|)
  {
    if s == [] then 0 else s[0] + 256 * FromLittleEndian(s[1..])
  }

  /** Encoding an n-byte unsigned value and decoding it gives the value back. */
  lemma {:induction false} LittleEndianDecodes(u: nat, n: nat)
    requires u < Pow256(n)
    ensures FromLittleEndian(LittleEndian(u, n)) == u
  {
    if n > 0 {
      var s := LittleEndian(u, n);
      assert s[1..] == LittleEndian(u / 256, n - 1);
      LittleEndianDecodes(u / 256, n - 1);
    }
  }

  /** Decoding n bytes and encoding the value in n bytes gives the bytes back. */
  lemma {:induction false} LittleEndianEncodes(s: seq<byte>)
    ensures LittleEndian(FromLittleEndian(s), |s|) == s
  {
    if s != [] {
      var u := FromLittleEndian(s);
      assert u % 256 == s[0] && u / 256 == FromLittleEndian(s[1..]);
      LittleEndianEncodes(s[1..]);
    }
  }

  /** The signed n-byte word whose two's-complement bit pattern is u. */
  function Signed(u: nat, n: nat): (v: int)
    requires n >= 1 && u < Pow256(n)
    ensures InRange(v, n)
  {
    if u < 128 * Pow256(n - 1) then u else u - Pow256(n)
  }

  /** The two's-complement bit pattern of the n-byte word v, as an unsigned value. */
  function Unsigned(v: int, n: nat): (u: nat)
    requires InRange(v, n)
    ensures u < Pow256(n)
  {
    if v < 0 then v + Pow256(n) else v
  }

  /** The bytes DataOutputStream.writeInt (n = 4) or writeLong (n = 8) emits for v. */
  function ToBigEndian(v: int, n: nat): (r: seq<byte>)
    requires InRange(v, n)
    ensures |r| == n
  {
    Reverse(LittleEndian(Unsigned(v, n), n))
  }

  /** The value DataInputStream.readInt (|s| = 4) or readLong (|s| = 8) returns for s. */
  function FromBigEndian(s: seq<byte>): (v: int)
    requires |s| >= 1
    ensures InRange(v, |s|)
  {
    Signed(FromLittleEndian(Reverse(s)), |s|)
  }

  /** Integer.reverseBytes (n = 4) and Long.reverseBytes (n = 8): the word with its bytes swapped end for end. */
  function ReverseBytes(v: int, n: nat): (r: int)
    requires InRange(v, n)
    ensures InRange(r, n)
  {
    FromBigEndian(Reverse(ToBigEndian(v, n)))
  }

  /** Writing a word and reading it back gives the word. */
  lemma BigEndianDecodes(v: int, n: nat)
    requires InRange(v, n)
    ensures FromBigEndian(ToBigEndian(v, n)) == v
  {
    assert Pow256(n) == 256 * Pow256(n - 1);
    ReverseReverse(LittleEndian(Unsigned(v, n), n));
    LittleEndianDecodes(Unsigned(v, n), n);
  }

  /** Reading a word and writing it back gives the bytes. */
  lemma BigEndianEncodes(s: seq<byte>)
    requires |s| >= 1
    ensures ToBigEndian(FromBigEndian(s), |s|) == s
  {
    var n := |s|;
    var u := FromLittleEndian(Reverse(s));
    assert Unsigned(Signed(u, n), n) == u;
    LittleEndianEncodes(Reverse(s));
    ReverseReverse(s);
  }

  /** Only all-zero bytes have the value zero. */
  lemma {:induction false} ZeroValue(s: seq<byte>)
    requires FromLittleEndian(s) == 0
    ensures forall i :: 0 <= i < |s| ==> s[i] == 0
  {
    if s != [] {
      ZeroValue(s[1..]);
      assert forall i :: 1 <= i < |s| ==> s[i] == s[1..][i - 1];
    }
  }

  /** A readInt or readLong returns zero only for all-zero bytes. */
  lemma ZeroWord(s: seq<byte>)
    requires |s| >= 1
    ensures FromBigEndian(s) == 0 ==> forall i :: 0 <= i < |s| ==> s[i] == 0
  {
    if FromBigEndian(s) == 0 {
      var r := Reverse(s);
      assert Pow256(|s|) == 256 * Pow256(|s| - 1);
      ZeroValue(r);
      assert forall i :: 0 <= i < |s| ==> s[i] == r[|s| - 1 - i];
    }
  }

  /** The n bytes of the word v, least significant first. */
  function LittleEndianWord(v: int, n: nat): (r: seq<byte>)
    requires InRange(v, n)
    ensures |r| == n
  {
    LittleEndian(Unsigned(v, n), n)
  }

  /** The word whose bytes, least significant first, are s. */
  function FromLittleEndianWord(s: seq<byte>): (v: int)
    requires |s| >= 1
    ensures InRange(v, |s|)
  {
    Signed(FromLittleEndian(s), |s|)
  }

  /** Writing a word least significant byte first and reading it back the same way gives the word. */
  lemma LittleEndianWordDecodes(v: int, n: nat)
    requires InRange(v, n)
    ensures FromLittleEndianWord(LittleEndianWord(v, n)) == v
  {
    assert Pow256(n) == 256 * Pow256(n - 1);
    LittleEndianDecodes(Unsigned(v, n), n);
  }

  /** Writing reverseBytes(v) emits the bytes of v least significant first. */
  lemma ReversedWordIsLittleEndian(v: int, n: nat)
    requires InRange(v, n)
    ensures ToBigEndian(ReverseBytes(v, n), n) == Reverse(ToBigEndian(v, n))
    ensures ToBigEndian(ReverseBytes(v, n), n) == LittleEndianWord(v, n)
  {
    BigEndianEncodes(Reverse(ToBigEndian(v, n)));
    ReverseReverse(LittleEndian(Unsigned(v, n), n));
  }

  /** Reading a word and swapping its bytes reads it least significant byte first. */
  lemma ReversedReadIsLittleEndian(s: seq<byte>)
    requires |s| >= 1
    ensures ReverseBytes(FromBigEndian(s), |s|) == FromBigEndian(Reverse(s))
    ensures ReverseBytes(FromBigEndian(s), |s|) == FromLittleEndianWord(s)
  {
    BigEndianEncodes(s);
    ReverseReverse(s);
  }

  /** Swapping the bytes twice gives the word back. */
  lemma ReverseBytesInvolution(v: int, n: nat)
    requires InRange(v, n)
    ensures ReverseBytes(ReverseBytes(v, n), n) == v
  {
    ReversedWordIsLittleEndian(v, n);
    ReverseReverse(ToBigEndian(v, n));
    BigEndianDecodes(v, n);
  }

  /** What a writeInt(reverseBytes(v)) puts on the stream, read with readInt and reverseBytes, is v. */
  lemma ReversedRoundTrip(v: int, n: nat)
    requires InRange(v, n)
    ensures ReverseBytes(FromBigEndian(ToBigEndian(ReverseBytes(v, n), n)), n) == v
  {
    BigEndianDecodes(ReverseBytes(v, n), n);
    ReverseBytesInvolution(v, n);
  }
}
