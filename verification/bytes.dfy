/** Bytes and the little-endian integer arithmetic every TDS field uses. */
module Bytes {

  newtype byte = b: int | 0 <= b < 256

  /** 2^32: the weight of the high half of an eight-byte field. */
  const TWO_POW_32: int := 0x1_0000_0000

  /** 256^n, the number of distinct n-byte patterns. */
  function Pow256(n: nat): (r: nat)
    ensures r >= 1
  {
    if n == 0 then 1 else 256 * Pow256(n - 1)
  }

  /** The unsigned little-endian integer spelled by `s`: byte 0 is the least
      significant. */
  function LittleEndian(s: seq<byte>): (r: nat)
    ensures r < Pow256(|s|)
  {
    if |s| == 0 then 0 else s[0] as nat + 256 * LittleEndian(s[1..])
  }

  /** The `width` bytes that spell `n` little-endian; the inverse of
      `LittleEndian` on numbers that fit. */
  function EncodeLittleEndian(n: nat, width: nat): (s: seq<byte>)
    requires n < Pow256(width)
    ensures |s| == width
    ensures LittleEndian(s) == n
  {
    if width == 0 then []
    else
      var rest := EncodeLittleEndian(n / 256, width - 1);
      var s := [(n % 256) as byte] + rest;
      assert s[1..] == rest;
      s
  }

  /** Encoding the value a byte string spells gives that byte string back. */
  lemma {:induction false} EncodeLittleEndianOfDecoded(s: seq<byte>)
    ensures EncodeLittleEndian(LittleEndian(s), |s|) == s
  {
    if |s| > 0 {
      EncodeLittleEndianOfDecoded(s[1..]);
      var n := LittleEndian(s);
      assert n % 256 == s[0] as nat;
      assert n / 256 == LittleEndian(s[1..]);
    }
  }

  /** A little-endian number split into a low part `a` and a high part `b`. */
  lemma {:induction false} LittleEndianAppend(a: seq<byte>, b: seq<byte>)
    ensures LittleEndian(a + b) == LittleEndian(a) + Pow256(|a|) * LittleEndian(b)
  {
    if |a| == 0 {
      assert a + b == b;
    } else {
      var tail := a[1..];
      assert (a + b)[1..] == tail + b;
      LittleEndianAppend(tail, b);
      ShiftByte(a[0] as nat, LittleEndian(tail), Pow256(|tail|), LittleEndian(b));
    }
  }

  /** The arithmetic step of `LittleEndianAppend`: prefixing one byte. */
  lemma ShiftByte(b0: nat, low: nat, p: nat, high: nat)
    ensures b0 + 256 * (low + p * high) == (b0 + 256 * low) + (256 * p) * high
  {
  }

  /** Half the range of a `width`-byte pattern: the first negative pattern
      of two's complement. */
  function SignBit(width: nat): (r: int)
    requires width > 0
    ensures r > 0 && 2 * r == Pow256(width)
  {
    128 * Pow256(width - 1)
  }

  /** Two's-complement reading of an unsigned `width`-byte value. */
  function ToSigned(u: nat, width: nat): (v: int)
    requires width > 0 && u < Pow256(width)
    ensures -SignBit(width) <= v < SignBit(width)
    ensures v == u || v == u - Pow256(width)
    ensures v < 0 <==> u >= SignBit(width)
  {
    if u < SignBit(width) then u else u - Pow256(width)
  }

  /** Two's-complement encoding of a signed value as an unsigned one. */
  function FromSigned(v: int, width: nat): (u: nat)
    requires width > 0 && -SignBit(width) <= v < SignBit(width)
    ensures u < Pow256(width)
    ensures ToSigned(u, width) == v
  {
    if v >= 0 then v else v + Pow256(width)
  }

  /** Reading the two's-complement encoding of a value gives the value back,
      and every pattern is the encoding of its own reading. */
  lemma SignedRoundTrip(u: nat, width: nat)
    requires width > 0 && u < Pow256(width)
    ensures FromSigned(ToSigned(u, width), width) == u
  {
  }

  /** 10^n. */
  function Pow10(n: nat): (r: nat)
    ensures r >= 1
  {
    if n == 0 then 1 else 10 * Pow10(n - 1)
  }
}
