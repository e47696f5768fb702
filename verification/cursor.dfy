/** The byte cursor: reads of fixed-width fields from a finite byte stream,
    each yielding the field and the position just past it. Running out of
    bytes is an explicit failure. */
module Cursor {
  import opened Wrappers
  import opened Bytes
  import opened Values

  /** `count` raw bytes starting at `pos`. A negative count is refused. */
  function ReadBytes(s: seq<byte>, pos: nat, count: int): (r: Decoded<seq<byte>>)
    ensures r.Success? <==> 0 <= count && pos + count <= |s|
    ensures r.Success? ==> |r.value.0| == count && r.value.1 == pos + count
    ensures r.Success? ==> r.value.0 == s[pos..r.value.1]
  {
    if count < 0 then Failure(NegativeLength(count))
    else if pos + count > |s| then Failure(Truncated(pos, count))
    else Success((s[pos..pos + count], pos + count))
  }

  /** An unsigned little-endian field of `width` bytes. */
  function ReadUnsigned(s: seq<byte>, pos: nat, width: nat): (r: Decoded<nat>)
    ensures r.Success? <==> pos + width <= |s|
    ensures r.Success? ==> r.value.1 == pos + width
    ensures r.Success? ==> r.value.0 == LittleEndian(s[pos..pos + width])
    ensures r.Success? ==> r.value.0 < Pow256(width)
  {
    var field :- ReadBytes(s, pos, width);
    Success((LittleEndian(field.0), field.1))
  }

  /** A two's-complement little-endian field of `width` bytes. */
  function ReadSigned(s: seq<byte>, pos: nat, width: nat): (r: Decoded<int>)
    requires width > 0
    ensures r.Success? <==> pos + width <= |s|
    ensures r.Success? ==> r.value.1 == pos + width
    ensures r.Success? ==> r.value.0 == ToSigned(LittleEndian(s[pos..pos + width]), width)
  {
    var field :- ReadUnsigned(s, pos, width);
    Success((ToSigned(field.0, width), field.1))
  }

  /** The stream holds exactly the bytes `e` starting at `pos`. */
  ghost predicate At(s: seq<byte>, pos: nat, e: seq<byte>) {
    pos + |e| <= |s| && s[pos..pos + |e|] == e
  }

  /** A concatenation found at `pos` is its first part at `pos` followed by
      its second part right after it. */
  lemma AtSplit(s: seq<byte>, pos: nat, a: seq<byte>, b: seq<byte>)
    requires At(s, pos, a + b)
    ensures At(s, pos, a) && At(s, pos + |a|, b)
  {
    assert s[pos..pos + |a|] == (a + b)[..|a|];
    assert s[pos + |a|..pos + |a| + |b|] == (a + b)[|a|..];
  }

  /** Reading raw bytes where they are found returns them. */
  lemma ReadBytesAt(s: seq<byte>, pos: nat, e: seq<byte>)
    requires At(s, pos, e)
    ensures ReadBytes(s, pos, |e|) == Success((e, pos + |e|))
  {
  }

  /** Reading an unsigned field where its encoding is found returns the
      encoded number. */
  lemma ReadUnsignedAt(s: seq<byte>, pos: nat, n: nat, width: nat)
    requires n < Pow256(width)
    requires At(s, pos, EncodeLittleEndian(n, width))
    ensures ReadUnsigned(s, pos, width) == Success((n, pos + width))
  {
  }

  /** Reading a one-byte field where the byte is found returns it. */
  lemma ReadByteAt(s: seq<byte>, pos: nat, b: byte)
    requires At(s, pos, [b])
    ensures ReadUnsigned(s, pos, 1) == Success((b as nat, pos + 1))
  {
    assert LittleEndian(s[pos..pos + 1]) == s[pos] as nat + 256 * LittleEndian([]);
  }

  /** Reading a signed field where its two's-complement encoding is found
      returns the encoded number. */
  lemma ReadSignedAt(s: seq<byte>, pos: nat, v: int, width: nat)
    requires width > 0 && -SignBit(width) <= v < SignBit(width)
    requires At(s, pos, EncodeLittleEndian(FromSigned(v, width), width))
    ensures ReadSigned(s, pos, width) == Success((v, pos + width))
  {
    ReadUnsignedAt(s, pos, FromSigned(v, width), width);
  }
}
