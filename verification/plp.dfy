/** The PLP (partially length-prefixed) engine used by every MAX-length type:
    an 8-byte header that is a null marker, an unknown-length marker or a
    64-bit total, followed by chunks, each a 4-byte length and that many
    bytes, ended by a zero length (section 2.2.5.2.3 of MS-TDS;
    value-parser.ts readMax, readMaxKnownLength, readMaxUnknownLength). */
module Plp {
  import opened Wrappers
  import opened Bytes
  import opened Values
  import opened Cursor

  const TWO_POW_53: int := 0x20_0000_0000_0000

  /** The header of a null value: eight 0xFF bytes. */
  const PLP_NULL: seq<byte> := [0xFF, 0xFF, 0xFF, 0xFF, 0xFF, 0xFF, 0xFF, 0xFF]

  /** The header announcing chunks of unknown total length. */
  const UNKNOWN_PLP_LEN: seq<byte> := [0xFE, 0xFF, 0xFF, 0xFF, 0xFF, 0xFF, 0xFF, 0xFF]

  /** What a PLP header announces. A known total carries the precision
      diagnostic: whether the total lies beyond the integers a JavaScript
      number holds exactly. */
  datatype PlpHeader = NullValue | UnknownLength | KnownLength(total: nat, imprecise: bool)

  /** The diagnostic as the source writes it: `high >= (2 << (53 - 32))`,
      that is high >= 2^22. */
  predicate WarnsAsWritten(high: nat) {
    high >= 2 * 0x20_0000
  }

  /** The diagnostic as its message ("> 53 bits") intends: high >= 2^21. */
  predicate ExceedsExactRange(high: nat) {
    high >= 0x20_0000
  }

  /** The corrected diagnostic fires exactly for totals of 2^53 or more. */
  lemma ExceedsExactRangeIff(low: nat, high: nat)
    requires low < TWO_POW_32
    ensures ExceedsExactRange(high) <==> low + TWO_POW_32 * high >= TWO_POW_53
  {
  }

  /** The diagnostic as written stays silent for the total 2^53 + 1, a length
      that needs 54 bits and that no JavaScript number represents exactly. */
  lemma WarnsAsWrittenMisses54BitTotal()
    ensures var low, high := 1, 0x20_0000;
      low + TWO_POW_32 * high == TWO_POW_53 + 1 && !WarnsAsWritten(high)
  {
  }

  /** The diagnostic as written fires exactly for totals of 2^54 or more. */
  lemma WarnsAsWrittenIff(low: nat, high: nat)
    requires low < TWO_POW_32
    ensures WarnsAsWritten(high) <==> low + TWO_POW_32 * high >= 2 * TWO_POW_53
  {
  }

  /** The header's meaning: the two markers, otherwise the little-endian
      64-bit total read as a low and a high 32-bit word. The `imprecise`
      flag carries the corrected diagnostic; the test as the source writes
      it, on the high word, fires only from 2^54. */
  function ClassifyHeader(header: seq<byte>): (h: PlpHeader)
    requires |header| == 8
    ensures h.NullValue? <==> header == PLP_NULL
    ensures h.UnknownLength? <==> header == UNKNOWN_PLP_LEN
    ensures h.KnownLength? ==> h.total == LittleEndian(header)
    ensures h.KnownLength? ==> (h.imprecise <==> h.total >= TWO_POW_53)
    ensures h.KnownLength? ==> (WarnsAsWritten(LittleEndian(header[4..])) <==> h.total >= 2 * TWO_POW_53)
  {
    if header == PLP_NULL then NullValue
    else if header == UNKNOWN_PLP_LEN then UnknownLength
    else
      var low := LittleEndian(header[..4]);
      var high := LittleEndian(header[4..]);
      assert header == header[..4] + header[4..];
      LittleEndianAppend(header[..4], header[4..]);
      assert Pow256(4) == TWO_POW_32;
      ExceedsExactRangeIff(low, high);
      WarnsAsWrittenIff(low, high);
      KnownLength(low + TWO_POW_32 * high, ExceedsExactRange(high))
  }

  /** Chunks from `pos` up to and including the zero-length terminator,
      concatenated in order; with an unknown total this is the whole value
      (readMaxUnknownLength). */
  function ReadChunks(s: seq<byte>, pos: nat): (r: Decoded<seq<byte>>)
    ensures r.Success? ==> pos + 4 <= r.value.1 <= |s|
    ensures r.Success? ==> |r.value.0| <= r.value.1 - (pos + 4)
    decreases |s| - pos
  {
    var len :- ReadUnsigned(s, pos, 4);
    if len.0 == 0 then Success(([], len.1))
    else
      var chunk :- ReadBytes(s, len.1, len.0);
      var rest :- ReadChunks(s, chunk.1);
      Success((chunk.0 + rest.0, rest.1))
  }

  /** Known total: the chunks must hold exactly `total` bytes, otherwise the
      stream is corrupt. */
  function ReadMaxKnownLength(s: seq<byte>, pos: nat, total: nat): (r: Decoded<seq<byte>>)
    ensures r.Success? <==> ReadChunks(s, pos).Success? && |ReadChunks(s, pos).value.0| == total
    ensures r.Success? ==> r == ReadChunks(s, pos) && |r.value.0| == total
    ensures ReadChunks(s, pos).Success? && |ReadChunks(s, pos).value.0| != total
      ==> r == Failure(PlpLengthMismatch(total, |ReadChunks(s, pos).value.0|))
  {
    var data :- ReadChunks(s, pos);
    if |data.0| != total then Failure(PlpLengthMismatch(total, |data.0|))
    else Success(data)
  }

  /** What follows a classified header: nothing for null, otherwise the
      chunks, checked against the total when one was announced. */
  function ReadPlpBody(s: seq<byte>, pos: nat, header: PlpHeader): (r: Decoded<Option<seq<byte>>>)
    requires pos <= |s|
    ensures r.Success? ==> pos <= r.value.1 <= |s|
    ensures r.Success? ==> (r.value.0.None? <==> header.NullValue?)
    ensures header.NullValue? ==> r == Success((None, pos))
    ensures r.Success? && header.KnownLength? ==> |r.value.0.value| == header.total
  {
    match header
    case NullValue => Success((None, pos))
    case UnknownLength =>
      var data :- ReadChunks(s, pos);
      Success((Some(data.0), data.1))
    case KnownLength(total, _) =>
      var data :- ReadMaxKnownLength(s, pos, total);
      Success((Some(data.0), data.1))
  }

  /** A MAX-length payload: `None` for the null header, otherwise the
      reassembled bytes. */
  function ReadMax(s: seq<byte>, pos: nat): (r: Decoded<Option<seq<byte>>>)
    ensures r.Success? ==> pos + 8 <= r.value.1 <= |s|
    ensures r.Success? && r.value.0.None? ==> r.value.1 == pos + 8
  {
    var header :- ReadBytes(s, pos, 8);
    ReadPlpBody(s, header.1, ClassifyHeader(header.0))
  }

  // The reference encoding of a chunked payload.

  /** Chunks as a server may send them: none empty, each length fitting the
      4-byte length field. */
  ghost predicate ValidChunks(chunks: seq<seq<byte>>) {
    forall i :: 0 <= i < |chunks| ==> 0 < |chunks[i]| < TWO_POW_32
  }

  /** The chunks in order, each behind its 4-byte length, then the
      zero-length terminator. */
  function EncodeChunks(chunks: seq<seq<byte>>): (e: seq<byte>)
    requires ValidChunks(chunks)
    ensures |e| >= 4
  {
    assert Pow256(4) == TWO_POW_32;
    if |chunks| == 0 then EncodeLittleEndian(0, 4)
    else EncodeLittleEndian(|chunks[0]|, 4) + chunks[0] + EncodeChunks(chunks[1..])
  }

  /** The chunks' bytes joined in order. */
  function Flatten(chunks: seq<seq<byte>>): (data: seq<byte>)
  {
    if |chunks| == 0 then [] else chunks[0] + Flatten(chunks[1..])
  }

  /** The sum of the chunk lengths. */
  function SumLengths(chunks: seq<seq<byte>>): nat
  {
    if |chunks| == 0 then 0 else |chunks[0]| + SumLengths(chunks[1..])
  }

  /** The reassembled payload is as long as the chunk lengths add up to. */
  lemma {:induction false} FlattenLength(chunks: seq<seq<byte>>)
    ensures |Flatten(chunks)| == SumLengths(chunks)
  {
    if |chunks| > 0 {
      FlattenLength(chunks[1..]);
    }
  }

  /** The encoded chunks take a 4-byte length per chunk, the chunks
      themselves and the 4-byte terminator. */
  lemma {:induction false} EncodeChunksLength(chunks: seq<seq<byte>>)
    requires ValidChunks(chunks)
    ensures |EncodeChunks(chunks)| == 4 * |chunks| + SumLengths(chunks) + 4
  {
    if |chunks| > 0 {
      EncodeChunksLength(chunks[1..]);
    }
  }

  /** The encoded chunks lie at `pos`, field by field: each nonempty
      chunk behind a length field that reads as its length, then a
      terminator that reads as zero. */
  ghost predicate ChunksAt(s: seq<byte>, pos: nat, chunks: seq<seq<byte>>)
    decreases |chunks|
  {
    if |chunks| == 0 then ReadUnsigned(s, pos, 4) == Success((0, pos + 4))
    else
      && |chunks[0]| > 0
      && ReadUnsigned(s, pos, 4) == Success((|chunks[0]|, pos + 4))
      && At(s, pos + 4, chunks[0])
      && ChunksAt(s, pos + 4 + |chunks[0]|, chunks[1..])
  }

  /** The chunk encoding found at `pos` is found there field by field. */
  lemma {:induction false} ChunksAtFields(s: seq<byte>, pos: nat, chunks: seq<seq<byte>>)
    requires ValidChunks(chunks)
    requires At(s, pos, EncodeChunks(chunks))
    ensures ChunksAt(s, pos, chunks)
    decreases |chunks|
  {
    assert Pow256(4) == TWO_POW_32;
    if |chunks| == 0 {
      ReadUnsignedAt(s, pos, 0, 4);
    } else {
      var length := EncodeLittleEndian(|chunks[0]|, 4);
      var rest := EncodeChunks(chunks[1..]);
      assert EncodeChunks(chunks) == (length + chunks[0]) + rest;
      AtSplit(s, pos, length + chunks[0], rest);
      AtSplit(s, pos, length, chunks[0]);
      ReadUnsignedAt(s, pos, |chunks[0]|, 4);
      ChunksAtFields(s, pos + 4 + |chunks[0]|, chunks[1..]);
    }
  }

  /** Reading chunks laid out field by field gives back their in-order
      concatenation and stops right after the terminator. */
  lemma {:induction false} ReadChunksOfFields(s: seq<byte>, pos: nat, chunks: seq<seq<byte>>)
    requires ChunksAt(s, pos, chunks)
    ensures ReadChunks(s, pos) == Success((Flatten(chunks), pos + 4 * |chunks| + SumLengths(chunks) + 4))
    decreases |chunks|
  {
    if |chunks| == 0 {
      ReadChunksEnd(s, pos);
    } else {
      var first, rest := chunks[0], chunks[1..];
      var next := pos + 4 + |first|;
      ReadBytesAt(s, pos + 4, first);
      ReadChunksOfFields(s, next, rest);
      ReadChunksStep(s, pos, first, Flatten(rest), next + 4 * |rest| + SumLengths(rest) + 4);
    }
  }

  /** The zero-length terminator ends the chunks. */
  lemma ReadChunksEnd(s: seq<byte>, pos: nat)
    requires ReadUnsigned(s, pos, 4) == Success((0, pos + 4))
    ensures ReadChunks(s, pos) == Success(([], pos + 4))
  {
  }

  /** One step of `ReadChunks`: a nonempty chunk followed by the rest. */
  lemma ReadChunksStep(s: seq<byte>, pos: nat, first: seq<byte>, rest: seq<byte>, end: nat)
    requires |first| > 0
    requires ReadUnsigned(s, pos, 4) == Success((|first|, pos + 4))
    requires ReadBytes(s, pos + 4, |first|) == Success((first, pos + 4 + |first|))
    requires ReadChunks(s, pos + 4 + |first|) == Success((rest, end))
    ensures ReadChunks(s, pos) == Success((first + rest, end))
  {
  }

  /** Reading encoded chunks gives back their in-order concatenation and
      stops right after the terminator. */
  lemma ReadChunksRoundTrip(s: seq<byte>, pos: nat, chunks: seq<seq<byte>>)
    requires ValidChunks(chunks)
    requires At(s, pos, EncodeChunks(chunks))
    ensures ReadChunks(s, pos) == Success((Flatten(chunks), pos + |EncodeChunks(chunks)|))
  {
    ChunksAtFields(s, pos, chunks);
    ReadChunksOfFields(s, pos, chunks);
    EncodeChunksLength(chunks);
  }

  /** n bytes of 0xFF spell the largest n-byte number. */
  lemma {:induction false} AllOnes(n: nat)
    ensures LittleEndian(seq(n, _ => 0xFF)) == Pow256(n) - 1
  {
    if n > 0 {
      var ones := seq(n, _ => 0xFF as byte);
      assert ones[1..] == seq(n - 1, _ => 0xFF);
      AllOnes(n - 1);
    }
  }

  /** Read as a total, the null marker is the largest 64-bit number. */
  lemma NullMarkerValue()
    ensures LittleEndian(PLP_NULL) == Pow256(8) - 1
  {
    AllOnes(8);
    assert PLP_NULL == seq(8, _ => 0xFF);
  }

  /** Read as a total, the unknown-length marker is the second largest, so
      no total below the two markers is mistaken for one. */
  lemma UnknownMarkerValue()
    ensures LittleEndian(UNKNOWN_PLP_LEN) == Pow256(8) - 2
  {
    AllOnes(7);
    assert UNKNOWN_PLP_LEN[1..] == seq(7, _ => 0xFF);
  }

  /** The null header reads as null after exactly 8 bytes. */
  lemma ReadMaxNull(s: seq<byte>, pos: nat)
    requires At(s, pos, PLP_NULL)
    ensures ReadMax(s, pos) == Success((None, pos + 8))
  {
    ReadBytesAt(s, pos, PLP_NULL);
  }

  /** The unknown-length header followed by encoded chunks reads as the
      in-order concatenation of the chunks. */
  lemma ReadMaxUnknownRoundTrip(s: seq<byte>, pos: nat, chunks: seq<seq<byte>>)
    requires ValidChunks(chunks)
    requires At(s, pos, UNKNOWN_PLP_LEN) && At(s, pos + 8, EncodeChunks(chunks))
    ensures ReadMax(s, pos)
      == Success((Some(Flatten(chunks)), pos + 8 + |EncodeChunks(chunks)|))
  {
    ReadMaxUnknownHeader(s, pos);
    ReadChunksRoundTrip(s, pos + 8, chunks);
  }

  /** After the unknown-length marker, `ReadMax` reads the chunks right
      behind it. */
  lemma ReadMaxUnknownHeader(s: seq<byte>, pos: nat)
    requires At(s, pos, UNKNOWN_PLP_LEN)
    ensures ReadMax(s, pos) == ReadPlpBody(s, pos + 8, UnknownLength)
  {
    ReadBytesAt(s, pos, UNKNOWN_PLP_LEN);
    assert UNKNOWN_PLP_LEN[0] != PLP_NULL[0];
  }

  /** After any header other than the two markers, `ReadMax` is the
      known-length reader, run right behind the header with the total the
      header spells. */
  lemma ReadMaxKnownHeader(s: seq<byte>, pos: nat, header: seq<byte>)
    requires |header| == 8 && header != PLP_NULL && header != UNKNOWN_PLP_LEN
    requires At(s, pos, header)
    ensures var total := LittleEndian(header);
      ReadMax(s, pos) == ReadPlpBody(s, pos + 8, KnownLength(total, total >= TWO_POW_53))
  {
    ReadBytesAt(s, pos, header);
  }

  /** Behind the header, encoded chunks pass the known-length check exactly
      when their lengths add up to the total. */
  lemma ReadKnownBodyRoundTrip(s: seq<byte>, pos: nat, total: nat, imprecise: bool, chunks: seq<seq<byte>>)
    requires ValidChunks(chunks)
    requires At(s, pos, EncodeChunks(chunks))
    ensures pos <= |s|
    ensures SumLengths(chunks) == total ==>
      ReadPlpBody(s, pos, KnownLength(total, imprecise))
        == Success((Some(Flatten(chunks)), pos + |EncodeChunks(chunks)|))
    ensures SumLengths(chunks) != total ==>
      ReadPlpBody(s, pos, KnownLength(total, imprecise))
        == Failure(PlpLengthMismatch(total, SumLengths(chunks)))
  {
    ReadChunksRoundTrip(s, pos, chunks);
    FlattenLength(chunks);
  }

  /** A known total followed by encoded chunks reads as their concatenation
      exactly when the chunk lengths add up to the total; otherwise it is a
      length mismatch. */
  lemma ReadMaxKnownRoundTrip(s: seq<byte>, pos: nat, header: seq<byte>, chunks: seq<seq<byte>>)
    requires |header| == 8 && header != PLP_NULL && header != UNKNOWN_PLP_LEN
    requires ValidChunks(chunks)
    requires At(s, pos, header) && At(s, pos + 8, EncodeChunks(chunks))
    ensures SumLengths(chunks) == LittleEndian(header) ==>
      ReadMax(s, pos) == Success((Some(Flatten(chunks)), pos + 8 + |EncodeChunks(chunks)|))
    ensures SumLengths(chunks) != LittleEndian(header) ==>
      ReadMax(s, pos) == Failure(PlpLengthMismatch(LittleEndian(header), SumLengths(chunks)))
  {
    var total := LittleEndian(header);
    ReadKnownBodyBehindHeader(s, pos, total, total >= TWO_POW_53, chunks);
    ReadMaxKnownHeader(s, pos, header);
  }

  /** The known-length round trip for a body that starts right behind an
      8-byte header at `pos`. */
  lemma ReadKnownBodyBehindHeader(s: seq<byte>, pos: nat, total: nat, imprecise: bool, chunks: seq<seq<byte>>)
    requires ValidChunks(chunks)
    requires At(s, pos + 8, EncodeChunks(chunks))
    ensures SumLengths(chunks) == total ==>
      ReadPlpBody(s, pos + 8, KnownLength(total, imprecise))
        == Success((Some(Flatten(chunks)), pos + 8 + |EncodeChunks(chunks)|))
    ensures SumLengths(chunks) != total ==>
      ReadPlpBody(s, pos + 8, KnownLength(total, imprecise))
        == Failure(PlpLengthMismatch(total, SumLengths(chunks)))
  {
    ReadKnownBodyRoundTrip(s, pos + 8, total, imprecise, chunks);
  }

  /** Every total below the two markers has a header of its own: its 8-byte
      little-endian encoding is neither marker. */
  lemma KnownTotalHeader(total: nat)
    requires total < Pow256(8) - 2
    ensures var header := EncodeLittleEndian(total, 8);
      header != PLP_NULL && header != UNKNOWN_PLP_LEN && LittleEndian(header) == total
  {
    NullMarkerValue();
    UnknownMarkerValue();
  }
}
