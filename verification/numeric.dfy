/** Decimal and numeric values: a sign byte and a 4-, 8-, 12- or 16-byte
    unsigned little-endian magnitude, scaled by a power of ten (section
    2.2.5.5.1.6 of MS-TDS; value-parser.ts readNumeric). */
module Numeric {
  import opened Wrappers
  import opened Bytes
  import opened Values
  import opened Cursor

  /** The data lengths the decoder accepts; each counts the sign byte. */
  predicate SupportedLength(dataLength: int) {
    dataLength == 5 || dataLength == 9 || dataLength == 13 || dataLength == 17
  }

  /** The sign byte is read first; only then is the data length checked, so
      an unsupported length still consumes the sign before failing. Sign 1
      is positive, every other byte negative. */
  function ReadNumeric(s: seq<byte>, pos: nat, dataLength: int, scale: nat): (r: Decoded<Value>)
    ensures r.Success? <==> SupportedLength(dataLength) && pos + dataLength <= |s|
    ensures pos < |s| && !SupportedLength(dataLength) ==> r == Failure(UnsupportedNumericLength(dataLength))
    ensures r.Success? ==> r.value.1 == pos + dataLength && r.value.0.Numeric?
    ensures r.Success? ==> (r.value.0.negative <==> s[pos] != 1)
    ensures r.Success? ==> r.value.0.scale == scale
    ensures r.Success? ==> r.value.0.magnitude < Pow256(dataLength - 1)
  {
    var sign :- ReadUnsigned(s, pos, 1);
    assert s[pos..pos + 1] == [s[pos]];
    if !SupportedLength(dataLength) then Failure(UnsupportedNumericLength(dataLength))
    else
      var magnitude :- ReadUnsigned(s, sign.1, dataLength - 1);
      Success((Numeric(sign.0 != 1, magnitude.0, scale), magnitude.1))
  }

  /** The exact rational a numeric value denotes. */
  function NumericValue(v: Value): real
    requires v.Numeric?
  {
    (if v.negative then -1.0 else 1.0) * (v.magnitude as real) / (Pow10(v.scale) as real)
  }

  /** Scaling the decoded value back up by 10^scale recovers the signed
      magnitude. */
  lemma NumericValueScaled(v: Value)
    requires v.Numeric?
    ensures NumericValue(v) * (Pow10(v.scale) as real)
         == (if v.negative then -(v.magnitude as real) else v.magnitude as real)
  {
  }

  /** A numeric value on the wire: sign byte 1 for positive, 0 for negative,
      then the magnitude in `dataLength - 1` bytes. */
  function EncodeNumeric(negative: bool, magnitude: nat, dataLength: int): (e: seq<byte>)
    requires SupportedLength(dataLength) && magnitude < Pow256(dataLength - 1)
    ensures |e| == dataLength
  {
    [if negative then 0 else 1] + EncodeLittleEndian(magnitude, dataLength - 1)
  }

  /** Every sign and magnitude that fits the width reads back unchanged. */
  lemma NumericRoundTrip(s: seq<byte>, pos: nat, negative: bool, magnitude: nat, dataLength: int, scale: nat)
    requires SupportedLength(dataLength) && magnitude < Pow256(dataLength - 1)
    requires At(s, pos, EncodeNumeric(negative, magnitude, dataLength))
    ensures ReadNumeric(s, pos, dataLength, scale)
         == Success((Numeric(negative, magnitude, scale), pos + dataLength))
  {
    var signByte: byte := if negative then 0 else 1;
    AtSplit(s, pos, [signByte], EncodeLittleEndian(magnitude, dataLength - 1));
    assert s[pos] == signByte;
    ReadUnsignedAt(s, pos + 1, magnitude, dataLength - 1);
  }

  /** Sign 1, magnitude 12345, scale 2 is 123.45; sign 0 makes it -123.45. */
  lemma NumericExamples(s: seq<byte>, t: seq<byte>)
    requires s == [1] + EncodeLittleEndian(12345, 4)
    requires t == [0] + EncodeLittleEndian(12345, 4)
    ensures ReadNumeric(s, 0, 5, 2).Success?
    ensures NumericValue(ReadNumeric(s, 0, 5, 2).value.0) == 123.45
    ensures NumericValue(ReadNumeric(t, 0, 5, 2).value.0) == -123.45
  {
    NumericRoundTrip(s, 0, false, 12345, 5, 2);
    NumericRoundTrip(t, 0, true, 12345, 5, 2);
  }
}
