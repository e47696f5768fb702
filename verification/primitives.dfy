/** Fixed-width scalar decoders: integers, IEEE floats, money and bit
    (value-parser.ts, readTinyInt .. readBit). */
module Primitives {
  import opened Wrappers
  import opened Bytes
  import opened Values
  import opened Cursor

  const TWO_POW_31: int := 0x8000_0000
  const TWO_POW_63: int := 0x8000_0000_0000_0000

  /** One unsigned byte. */
  function ReadTinyInt(s: seq<byte>, pos: nat): (r: Decoded<Value>)
    ensures r.Success? <==> pos + 1 <= |s|
    ensures r.Success? ==> r.value.1 == pos + 1 && r.value.0.Int? && 0 <= r.value.0.n < 0x100
  {
    var f :- ReadUnsigned(s, pos, 1);
    Success((Int(f.0), f.1))
  }

  /** A signed 16-bit integer. */
  function ReadSmallInt(s: seq<byte>, pos: nat): (r: Decoded<Value>)
    ensures r.Success? <==> pos + 2 <= |s|
    ensures r.Success? ==> r.value.1 == pos + 2 && r.value.0.Int? && -0x8000 <= r.value.0.n < 0x8000
  {
    var f :- ReadSigned(s, pos, 2);
    Success((Int(f.0), f.1))
  }

  /** A signed 32-bit integer. */
  function ReadInt(s: seq<byte>, pos: nat): (r: Decoded<Value>)
    ensures r.Success? <==> pos + 4 <= |s|
    ensures r.Success? ==> r.value.1 == pos + 4 && r.value.0.Int? && -TWO_POW_31 <= r.value.0.n < TWO_POW_31
  {
    var f :- ReadSigned(s, pos, 4);
    Success((Int(f.0), f.1))
  }

  /** A signed 64-bit integer, which the source hands on as decimal text. */
  function ReadBigInt(s: seq<byte>, pos: nat): (r: Decoded<Value>)
    ensures r.Success? <==> pos + 8 <= |s|
    ensures r.Success? ==> r.value.1 == pos + 8 && r.value.0.BigInt? && -TWO_POW_63 <= r.value.0.n < TWO_POW_63
  {
    var f :- ReadSigned(s, pos, 8);
    Success((BigInt(f.0), f.1))
  }

  /** A 4-byte IEEE-754 single, kept as its bit pattern. */
  function ReadReal(s: seq<byte>, pos: nat): (r: Decoded<Value>)
    ensures r.Success? <==> pos + 4 <= |s|
    ensures r.Success? ==> r.value == (Float(s[pos..pos + 4]), pos + 4)
  {
    var f :- ReadBytes(s, pos, 4);
    Success((Float(f.0), f.1))
  }

  /** An 8-byte IEEE-754 double, kept as its bit pattern. */
  function ReadFloat(s: seq<byte>, pos: nat): (r: Decoded<Value>)
    ensures r.Success? <==> pos + 8 <= |s|
    ensures r.Success? ==> r.value == (Float(s[pos..pos + 8]), pos + 8)
  {
    var f :- ReadBytes(s, pos, 8);
    Success((Float(f.0), f.1))
  }

  /** Small money: a signed 32-bit count of ten-thousandths. */
  function ReadSmallMoney(s: seq<byte>, pos: nat): (r: Decoded<Value>)
    ensures r.Success? <==> pos + 4 <= |s|
    ensures r.Success? ==> r.value.1 == pos + 4 && r.value.0.Money?
    ensures r.Success? ==> -TWO_POW_31 <= r.value.0.tenThousandths < TWO_POW_31
  {
    var f :- ReadSigned(s, pos, 4);
    Success((Money(f.0), f.1))
  }

  /** Money: the signed high 32 bits come first on the wire, then the
      unsigned low 32 bits; the count of ten-thousandths is low + 2^32 * high.
      That is exactly the signed 64-bit number whose little-endian bytes are
      the two halves swapped back into place. */
  function ReadMoney(s: seq<byte>, pos: nat): (r: Decoded<Value>)
    ensures r.Success? <==> pos + 8 <= |s|
    ensures r.Success? ==> r.value.1 == pos + 8
    ensures r.Success? ==>
      r.value.0 == Money(ToSigned(LittleEndian(s[pos + 4..pos + 8] + s[pos..pos + 4]), 8))
    ensures r.Success? ==> -TWO_POW_63 <= r.value.0.tenThousandths < TWO_POW_63
  {
    var high :- ReadSigned(s, pos, 4);
    var low :- ReadUnsigned(s, high.1, 4);
    MoneyIsSwappedInt64(s[pos..pos + 4], s[pos + 4..pos + 8]);
    Success((Money(low.0 + TWO_POW_32 * high.0), low.1))
  }

  /** The money halves, high word first, combine into the two's-complement
      value of the 8 bytes with the words swapped. */
  lemma MoneyIsSwappedInt64(hi: seq<byte>, lo: seq<byte>)
    requires |hi| == 4 && |lo| == 4
    ensures LittleEndian(lo) + TWO_POW_32 * ToSigned(LittleEndian(hi), 4)
         == ToSigned(LittleEndian(lo + hi), 8)
  {
    LittleEndianAppend(lo, hi);
    assert Pow256(4) == TWO_POW_32;
    assert Pow256(8) == TWO_POW_32 * TWO_POW_32;
  }

  /** A bit: any nonzero byte is true. */
  function ReadBit(s: seq<byte>, pos: nat): (r: Decoded<Value>)
    ensures r.Success? <==> pos + 1 <= |s|
    ensures r.Success? ==> r.value == (Bit(s[pos] != 0), pos + 1)
  {
    var f :- ReadUnsigned(s, pos, 1);
    assert s[pos..pos + 1] == [s[pos]];
    Success((Bit(f.0 != 0), f.1))
  }

  // Reference encoders: how a server lays these values out on the wire.

  /** Two's-complement little-endian encoding of `v` in `width` bytes. */
  function EncodeSigned(v: int, width: nat): (e: seq<byte>)
    requires width > 0 && -SignBit(width) <= v < SignBit(width)
    ensures |e| == width
  {
    EncodeLittleEndian(FromSigned(v, width), width)
  }

  /** Money on the wire: the signed high word, then the unsigned low word. */
  function EncodeMoney(tenThousandths: int): (e: seq<byte>)
    requires -TWO_POW_63 <= tenThousandths < TWO_POW_63
    ensures |e| == 8
  {
    assert SignBit(4) == TWO_POW_31;
    EncodeSigned(tenThousandths / TWO_POW_32, 4)
      + EncodeLittleEndian(tenThousandths % TWO_POW_32, 4)
  }

  /** A tinyint reads back the byte it was encoded from, whatever follows
      it in the stream. */
  lemma TinyIntRoundTrip(s: seq<byte>, pos: nat, v: nat)
    requires v < 0x100 && At(s, pos, EncodeLittleEndian(v, 1))
    ensures ReadTinyInt(s, pos) == Success((Int(v), pos + 1))
  {
    ReadUnsignedAt(s, pos, v, 1);
  }

  /** A smallint reads back every 16-bit signed value. */
  lemma SmallIntRoundTrip(s: seq<byte>, pos: nat, v: int)
    requires -0x8000 <= v < 0x8000 && At(s, pos, EncodeSigned(v, 2))
    ensures ReadSmallInt(s, pos) == Success((Int(v), pos + 2))
  {
    ReadSignedAt(s, pos, v, 2);
  }

  /** An int reads back every 32-bit signed value. */
  lemma IntRoundTrip(s: seq<byte>, pos: nat, v: int)
    requires -TWO_POW_31 <= v < TWO_POW_31 && At(s, pos, EncodeSigned(v, 4))
    ensures ReadInt(s, pos) == Success((Int(v), pos + 4))
  {
    ReadSignedAt(s, pos, v, 4);
  }

  /** A bigint reads back every 64-bit signed value. */
  lemma BigIntRoundTrip(s: seq<byte>, pos: nat, v: int)
    requires -TWO_POW_63 <= v < TWO_POW_63 && At(s, pos, EncodeSigned(v, 8))
    ensures ReadBigInt(s, pos) == Success((BigInt(v), pos + 8))
  {
    ReadSignedAt(s, pos, v, 8);
  }

  /** Small money reads back the count of ten-thousandths it encodes. */
  lemma SmallMoneyRoundTrip(s: seq<byte>, pos: nat, tenThousandths: int)
    requires -TWO_POW_31 <= tenThousandths < TWO_POW_31
    requires At(s, pos, EncodeSigned(tenThousandths, 4))
    ensures ReadSmallMoney(s, pos) == Success((Money(tenThousandths), pos + 4))
  {
    ReadSignedAt(s, pos, tenThousandths, 4);
  }

  /** Money reads back every count of ten-thousandths in the 64-bit range. */
  lemma MoneyRoundTrip(s: seq<byte>, pos: nat, tenThousandths: int)
    requires -TWO_POW_63 <= tenThousandths < TWO_POW_63
    requires At(s, pos, EncodeMoney(tenThousandths))
    ensures ReadMoney(s, pos) == Success((Money(tenThousandths), pos + 8))
  {
    var high, low := tenThousandths / TWO_POW_32, tenThousandths % TWO_POW_32;
    assert SignBit(4) == TWO_POW_31;
    assert Pow256(4) == TWO_POW_32;
    AtSplit(s, pos, EncodeSigned(high, 4), EncodeLittleEndian(low, 4));
    ReadSignedAt(s, pos, high, 4);
    ReadUnsignedAt(s, pos + 4, low, 4);
  }

  /** A bit reads back as set exactly when its byte is nonzero, and the
      canonical encodings 1 and 0 read back as true and false. */
  lemma BitRoundTrip(s: seq<byte>, pos: nat, b: byte)
    requires At(s, pos, [b])
    ensures ReadBit(s, pos) == Success((Bit(b != 0), pos + 1))
    ensures b == 1 ==> ReadBit(s, pos).value.0 == Bit(true)
    ensures b == 0 ==> ReadBit(s, pos).value.0 == Bit(false)
  {
    assert s[pos] == [b][0];
  }
}
