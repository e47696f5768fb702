/** What the dispatcher promises for each framing, stated against wire
    layouts built from the reference encoders. */
module ValueParserProperties {
  import opened Wrappers
  import opened Bytes
  import opened Values
  import opened Cursor
  import opened ValueParser
  import DataType
  import Plp
  import Payloads
  import Numeric
  import Temporal
  import Variant

  // Width-tagged families.

  /** The width-tagged families go straight to their tag reader. */
  lemma DispatchWidthTagged(meta: DataType.Metadata, opts: DataType.Options, ctx: DataType.Context,
                            s: seq<byte>, pos: nat)
    requires FramingOf(meta.typ) == WidthTag
    ensures ValueParse(meta, opts, ctx, s, pos) == ReadWidthTagged(meta.typ, opts, s, pos)
  {
  }

  /** The fixed-width type a family's width tag stands for. */
  function FixedType(typ: DataType.TypeName, width: nat): DataType.TypeName
    requires width in PermittedWidths(typ) && !typ.UniqueIdentifier?
  {
    match (typ, width)
    case (IntN, 1) => DataType.TinyInt
    case (IntN, 2) => DataType.SmallInt
    case (IntN, 4) => DataType.Int
    case (IntN, 8) => DataType.BigInt
    case (FloatN, 4) => DataType.Real
    case (FloatN, 8) => DataType.Float
    case (MoneyN, 4) => DataType.SmallMoney
    case (MoneyN, 8) => DataType.Money
    case (DateTimeN, 4) => DataType.SmallDateTime
    case (DateTimeN, 8) => DataType.DateTime
    case _ => DataType.Bit
  }

  /** Width tag 0 is null and consumes the tag alone. */
  lemma WidthTagNull(meta: DataType.Metadata, opts: DataType.Options, ctx: DataType.Context, s: seq<byte>, pos: nat)
    requires FramingOf(meta.typ) == WidthTag
    requires At(s, pos, [0])
    ensures ValueParse(meta, opts, ctx, s, pos) == Success((Null, pos + 1))
  {
    DispatchWidthTagged(meta, opts, ctx, s, pos);
    ReadByteAt(s, pos, 0);
  }

  /** A nonzero width tag the family does not list is refused. */
  lemma WidthTagRejected(meta: DataType.Metadata, opts: DataType.Options, ctx: DataType.Context,
                         s: seq<byte>, pos: nat, width: byte)
    requires FramingOf(meta.typ) == WidthTag
    requires width != 0 && width as nat !in PermittedWidths(meta.typ)
    requires At(s, pos, [width])
    ensures ValueParse(meta, opts, ctx, s, pos) == Failure(UnsupportedDataLength(meta.typ, width as int))
  {
    DispatchWidthTagged(meta, opts, ctx, s, pos);
    ReadByteAt(s, pos, width);
  }

  /** The fixed-width types go straight to their reader. */
  lemma DispatchFixed(meta: DataType.Metadata, opts: DataType.Options, ctx: DataType.Context,
                      s: seq<byte>, pos: nat)
    requires FramingOf(meta.typ) == FixedWidth
    ensures ValueParse(meta, opts, ctx, s, pos) == ReadFixed(meta.typ, opts, s, pos)
  {
  }

  /** A listed width tag decodes exactly as a column of the matching
      fixed-width type does (see `DispatchFixed`), one byte further on. */
  lemma WidthTagIsFixedType(meta: DataType.Metadata, opts: DataType.Options, ctx: DataType.Context,
                            s: seq<byte>, pos: nat, width: byte)
    requires FramingOf(meta.typ) == WidthTag && !meta.typ.UniqueIdentifier?
    requires width as nat in PermittedWidths(meta.typ)
    requires At(s, pos, [width])
    ensures FramingOf(FixedType(meta.typ, width as nat)) == FixedWidth
    ensures ValueParse(meta, opts, ctx, s, pos) == ReadFixed(FixedType(meta.typ, width as nat), opts, s, pos + 1)
  {
    DispatchWidthTagged(meta, opts, ctx, s, pos);
    WidthTagTable(meta.typ, opts, s, pos, width);
  }

  /** The family switches and the fixed-type readers agree, width by width. */
  lemma WidthTagTable(typ: DataType.TypeName, opts: DataType.Options, s: seq<byte>, pos: nat, width: byte)
    requires FramingOf(typ) == WidthTag && !typ.UniqueIdentifier?
    requires width as nat in PermittedWidths(typ)
    requires At(s, pos, [width])
    ensures FramingOf(FixedType(typ, width as nat)) == FixedWidth
    ensures ReadWidthTagged(typ, opts, s, pos) == ReadFixed(FixedType(typ, width as nat), opts, s, pos + 1)
  {
    ReadByteAt(s, pos, width);
    match typ
    case IntN =>
    case FloatN =>
    case MoneyN =>
    case BitN =>
    case DateTimeN =>
  }

  /** A listed width tag is followed by exactly that many value bytes. */
  lemma WidthTagConsumesWidth(meta: DataType.Metadata, opts: DataType.Options, ctx: DataType.Context,
                              s: seq<byte>, pos: nat, width: byte)
    requires FramingOf(meta.typ) == WidthTag
    requires width as nat in PermittedWidths(meta.typ)
    requires At(s, pos, [width])
    ensures ValueParse(meta, opts, ctx, s, pos).Success? <==> pos + 1 + width as nat <= |s|
    ensures ValueParse(meta, opts, ctx, s, pos).Success? ==>
      ValueParse(meta, opts, ctx, s, pos).value.1 == pos + 1 + width as nat
  {
    DispatchWidthTagged(meta, opts, ctx, s, pos);
    ReadByteAt(s, pos, width);
  }

  /** A GUID column with tag 16 holds the next 16 bytes. */
  lemma GuidTag(meta: DataType.Metadata, opts: DataType.Options, ctx: DataType.Context,
                s: seq<byte>, pos: nat, data: seq<byte>)
    requires meta.typ.UniqueIdentifier?
    requires |data| == 16 && At(s, pos, [16]) && At(s, pos + 1, data)
    ensures ValueParse(meta, opts, ctx, s, pos) == Success((Guid(data, opts.lowerCaseGuids), pos + 17))
  {
    DispatchWidthTagged(meta, opts, ctx, s, pos);
    ReadByteAt(s, pos, 16);
  }

  // Two-byte lengths.

  /** The two-byte null marker is null and consumes the marker alone. */
  lemma ShortLengthNull(meta: DataType.Metadata, opts: DataType.Options, ctx: DataType.Context, s: seq<byte>, pos: nat)
    requires FramingOf(meta.typ) == ShortLength && meta.dataLength != DataType.MAX
    requires ColumnKind(meta).Success?
    requires At(s, pos, [0xFF, 0xFF])
    ensures ValueParse(meta, opts, ctx, s, pos) == Success((Null, pos + 2))
  {
    DispatchShortLength(meta, opts, ctx, s, pos);
    VarLengthNull(meta.dataLength, s, pos, ColumnKind(meta).value);
  }

  /** Char, nchar and binary columns whose collation, if needed, is present
      go to the variable-length reader. */
  lemma DispatchShortLength(meta: DataType.Metadata, opts: DataType.Options, ctx: DataType.Context, s: seq<byte>, pos: nat)
    requires FramingOf(meta.typ) == ShortLength && ColumnKind(meta).Success?
    ensures ValueParse(meta, opts, ctx, s, pos) == ReadVarLength(meta.dataLength, s, pos, ColumnKind(meta).value)
  {
  }

  /** The null marker case of the variable-length reader. */
  lemma VarLengthNull(declaredLength: nat, s: seq<byte>, pos: nat, kind: PayloadKind)
    requires declaredLength != DataType.MAX && At(s, pos, [0xFF, 0xFF])
    ensures ReadVarLength(declaredLength, s, pos, kind) == Success((Null, pos + 2))
  {
    assert s[pos..pos + 2] == [0xFF, 0xFF];
    assert LittleEndian(s[pos..pos + 2]) == 0xFF + 256 * LittleEndian([0xFF]);
  }

  /** The payload case of the variable-length reader. */
  lemma VarLengthPayload(declaredLength: nat, s: seq<byte>, pos: nat, kind: PayloadKind, length: seq<byte>, data: seq<byte>)
    requires declaredLength != DataType.MAX
    requires |length| == 2 && LittleEndian(length) == |data| < NULL_LENGTH
    requires At(s, pos, length) && At(s, pos + 2, data)
    ensures ReadVarLength(declaredLength, s, pos, kind) == Success((PayloadValue(kind, data), pos + 2 + |data|))
  {
    assert ReadShortLength(s, pos) == Success((Some(|data|), pos + 2));
    assert ReadPayload(s, pos + 2, |data|, kind) == Success((PayloadValue(kind, data), pos + 2 + |data|));
  }

  /** Any other two-byte length is followed by exactly that many payload
      bytes, which become the value. */
  lemma ShortLengthPayload(meta: DataType.Metadata, opts: DataType.Options, ctx: DataType.Context,
                           s: seq<byte>, pos: nat, length: seq<byte>, data: seq<byte>)
    requires FramingOf(meta.typ) == ShortLength && meta.dataLength != DataType.MAX
    requires ColumnKind(meta).Success?
    requires |length| == 2 && LittleEndian(length) == |data| < NULL_LENGTH
    requires At(s, pos, length) && At(s, pos + 2, data)
    ensures ValueParse(meta, opts, ctx, s, pos)
         == Success((PayloadValue(ColumnKind(meta).value, data), pos + 2 + |data|))
  {
    DispatchShortLength(meta, opts, ctx, s, pos);
    VarLengthPayload(meta.dataLength, s, pos, ColumnKind(meta).value, length, data);
  }

  /** A char or varchar column without a collation fails before reading
      anything; a text column only once a non-null header is read. */
  lemma NarrowTextNeedsCollation(meta: DataType.Metadata, opts: DataType.Options, ctx: DataType.Context,
                                 s: seq<byte>, pos: nat)
    requires IsNarrowText(meta.typ) && meta.collation.None?
    ensures !meta.typ.Text? ==> ValueParse(meta, opts, ctx, s, pos) == Failure(MissingCollation)
    ensures meta.typ.Text? && pos < |s| && s[pos] == 0 ==>
      ValueParse(meta, opts, ctx, s, pos) == Success((Null, pos + 1))
    ensures meta.typ.Text? && ReadLegacyHeader(s, pos).Success? && s[pos] != 0 ==>
      ValueParse(meta, opts, ctx, s, pos) == Failure(MissingCollation)
  {
    if meta.typ.Text? && pos < |s| && s[pos] == 0 {
      ReadByteAt(s, pos, 0);
    }
  }

  // Legacy text pointers.

  /** A zero text pointer length is null, whatever the column's collation. */
  lemma TextPointerNull(meta: DataType.Metadata, opts: DataType.Options, ctx: DataType.Context, s: seq<byte>, pos: nat)
    requires FramingOf(meta.typ) == TextPointer
    requires At(s, pos, [0])
    ensures ValueParse(meta, opts, ctx, s, pos) == Success((Null, pos + 1))
  {
    ReadByteAt(s, pos, 0);
  }

  /** Otherwise the text pointer and the 8-byte timestamp are skipped,
      whatever they hold, and a four-byte length gives the payload. */
  lemma TextPointerPayload(meta: DataType.Metadata, opts: DataType.Options, ctx: DataType.Context, s: seq<byte>,
                           pos: nat, length: seq<byte>, data: seq<byte>)
    requires FramingOf(meta.typ) == TextPointer && ColumnKind(meta).Success?
    requires pos < |s| && s[pos] != 0
    requires |length| == 4 && LittleEndian(length) == |data|
    requires At(s, pos + 9 + s[pos] as nat, length) && At(s, pos + 13 + s[pos] as nat, data)
    ensures ValueParse(meta, opts, ctx, s, pos)
         == Success((PayloadValue(ColumnKind(meta).value, data), pos + 13 + s[pos] as nat + |data|))
  {
    var kind := ColumnKind(meta).value;
    assert ColumnKind(meta) == Success(kind);
    DispatchLegacy(meta, opts, ctx, s, pos);
    LegacyPayload(s, pos, kind, length, data);
  }

  /** Legacy-framed columns go to the legacy reader, which checks the
      collation only once it needs it. */
  lemma DispatchLegacy(meta: DataType.Metadata, opts: DataType.Options, ctx: DataType.Context, s: seq<byte>, pos: nat)
    requires FramingOf(meta.typ) == TextPointer
    ensures ValueParse(meta, opts, ctx, s, pos) == ReadLegacy(s, pos, ColumnKind(meta))
  {
  }

  /** The payload case of the legacy reader. */
  lemma LegacyPayload(s: seq<byte>, pos: nat, kind: PayloadKind, length: seq<byte>, data: seq<byte>)
    requires pos < |s| && s[pos] != 0
    requires |length| == 4 && LittleEndian(length) == |data|
    requires At(s, pos + 9 + s[pos] as nat, length) && At(s, pos + 13 + s[pos] as nat, data)
    ensures ReadLegacy(s, pos, Success(kind)) == Success((PayloadValue(kind, data), pos + 13 + s[pos] as nat + |data|))
  {
    LegacyHeaderOfLength(s, pos, length);
    LegacyOfHeader(s, pos, pos + 13 + s[pos] as nat, kind, data);
  }

  /** Once a non-null legacy header is read, its length of payload follows. */
  lemma LegacyOfHeader(s: seq<byte>, pos: nat, start: nat, kind: PayloadKind, data: seq<byte>)
    requires ReadLegacyHeader(s, pos) == Success((Some(|data|), start))
    requires At(s, start, data)
    ensures ReadLegacy(s, pos, Success(kind)) == Success((PayloadValue(kind, data), start + |data|))
  {
  }

  /** A non-null legacy header yields the four-byte length at its end,
      whatever its text pointer and timestamp hold. */
  lemma LegacyHeaderOfLength(s: seq<byte>, pos: nat, length: seq<byte>)
    requires pos < |s| && s[pos] != 0 && |length| == 4
    requires At(s, pos + 9 + s[pos] as nat, length)
    ensures ReadLegacyHeader(s, pos) == Success((Some(LittleEndian(length)), pos + 13 + s[pos] as nat))
  {
    ReadByteAt(s, pos, s[pos]);
  }

  // PLP bodies.

  /** The columns whose value is a PLP body: MAX-length char, nchar and
      binary columns, xml and user-defined types. */
  predicate IsPlpColumn(meta: DataType.Metadata) {
    || FramingOf(meta.typ) == PlpOnly
    || (FramingOf(meta.typ) == ShortLength && meta.dataLength == DataType.MAX)
  }

  /** PLP columns go straight to the PLP reader. */
  lemma DispatchPlp(meta: DataType.Metadata, opts: DataType.Options, ctx: DataType.Context, s: seq<byte>, pos: nat)
    requires IsPlpColumn(meta) && ColumnKind(meta).Success?
    ensures ValueParse(meta, opts, ctx, s, pos) == ReadMaxPayload(s, pos, ColumnKind(meta).value)
  {
  }

  /** The null header is null. */
  lemma PlpColumnNull(meta: DataType.Metadata, opts: DataType.Options, ctx: DataType.Context, s: seq<byte>, pos: nat)
    requires IsPlpColumn(meta) && ColumnKind(meta).Success?
    requires At(s, pos, Plp.PLP_NULL)
    ensures ValueParse(meta, opts, ctx, s, pos) == Success((Null, pos + 8))
  {
    DispatchPlp(meta, opts, ctx, s, pos);
    Plp.ReadMaxNull(s, pos);
  }

  /** Chunks of unknown total length are the value, concatenated. */
  lemma PlpColumnUnknownLength(meta: DataType.Metadata, opts: DataType.Options, ctx: DataType.Context,
                               s: seq<byte>, pos: nat, chunks: seq<seq<byte>>)
    requires IsPlpColumn(meta) && ColumnKind(meta).Success?
    requires Plp.ValidChunks(chunks)
    requires At(s, pos, Plp.UNKNOWN_PLP_LEN) && At(s, pos + 8, Plp.EncodeChunks(chunks))
    ensures ValueParse(meta, opts, ctx, s, pos)
         == Success((PayloadValue(ColumnKind(meta).value, Plp.Flatten(chunks)), pos + 8 + |Plp.EncodeChunks(chunks)|))
  {
    DispatchPlp(meta, opts, ctx, s, pos);
    Plp.ReadMaxUnknownRoundTrip(s, pos, chunks);
  }

  /** Chunks behind a known total are the value exactly when their lengths
      add up to the total. */
  lemma PlpColumnKnownLength(meta: DataType.Metadata, opts: DataType.Options, ctx: DataType.Context,
                             s: seq<byte>, pos: nat, header: seq<byte>, chunks: seq<seq<byte>>)
    requires IsPlpColumn(meta) && ColumnKind(meta).Success?
    requires |header| == 8 && header != Plp.PLP_NULL && header != Plp.UNKNOWN_PLP_LEN
    requires Plp.ValidChunks(chunks)
    requires At(s, pos, header) && At(s, pos + 8, Plp.EncodeChunks(chunks))
    ensures Plp.SumLengths(chunks) == LittleEndian(header) ==>
      ValueParse(meta, opts, ctx, s, pos)
        == Success((PayloadValue(ColumnKind(meta).value, Plp.Flatten(chunks)), pos + 8 + |Plp.EncodeChunks(chunks)|))
    ensures Plp.SumLengths(chunks) != LittleEndian(header) ==>
      ValueParse(meta, opts, ctx, s, pos) == Failure(PlpLengthMismatch(LittleEndian(header), Plp.SumLengths(chunks)))
  {
    DispatchPlp(meta, opts, ctx, s, pos);
    Plp.ReadMaxKnownRoundTrip(s, pos, header, chunks);
  }

  // Length-tagged types.

  /** Length-tagged columns go to the length-tagged reader. */
  lemma DispatchLengthTagged(meta: DataType.Metadata, opts: DataType.Options, ctx: DataType.Context, s: seq<byte>, pos: nat)
    requires FramingOf(meta.typ) == LengthTag
    ensures ValueParse(meta, opts, ctx, s, pos) == ReadLengthTagged(meta, opts, s, pos)
  {
  }

  /** A zero length byte is null. */
  lemma LengthTagNull(meta: DataType.Metadata, opts: DataType.Options, ctx: DataType.Context, s: seq<byte>, pos: nat)
    requires FramingOf(meta.typ) == LengthTag
    requires At(s, pos, [0])
    ensures ValueParse(meta, opts, ctx, s, pos) == Success((Null, pos + 1))
  {
    DispatchLengthTagged(meta, opts, ctx, s, pos);
    ReadByteAt(s, pos, 0);
  }

  /** A numeric or decimal payload of a supported length is its sign and
      magnitude, in the column's scale. */
  lemma NumericColumn(meta: DataType.Metadata, opts: DataType.Options, ctx: DataType.Context, s: seq<byte>, pos: nat,
                      negative: bool, magnitude: nat, length: byte)
    requires meta.typ.NumericN? || meta.typ.DecimalN?
    requires Numeric.SupportedLength(length as int) && magnitude < Pow256(length as int - 1)
    requires At(s, pos, [length]) && At(s, pos + 1, Numeric.EncodeNumeric(negative, magnitude, length as int))
    ensures ValueParse(meta, opts, ctx, s, pos)
         == Success((Numeric(negative, magnitude, meta.scale), pos + 1 + length as nat))
  {
    DispatchLengthTagged(meta, opts, ctx, s, pos);
    LengthTaggedNumeric(meta, opts, s, pos, negative, magnitude, length);
  }

  /** The numeric case of the length-tagged reader. */
  lemma LengthTaggedNumeric(meta: DataType.Metadata, opts: DataType.Options, s: seq<byte>, pos: nat,
                            negative: bool, magnitude: nat, length: byte)
    requires meta.typ.NumericN? || meta.typ.DecimalN?
    requires Numeric.SupportedLength(length as int) && magnitude < Pow256(length as int - 1)
    requires At(s, pos, [length]) && At(s, pos + 1, Numeric.EncodeNumeric(negative, magnitude, length as int))
    ensures ReadLengthTagged(meta, opts, s, pos)
         == Success((Numeric(negative, magnitude, meta.scale), pos + 1 + length as nat))
  {
    ReadByteAt(s, pos, length);
    Numeric.NumericRoundTrip(s, pos + 1, negative, magnitude, length as int, meta.scale);
  }

  /** Any other nonzero numeric length is rejected once a payload byte is
      available. */
  lemma NumericColumnBadLength(meta: DataType.Metadata, opts: DataType.Options, ctx: DataType.Context,
                               s: seq<byte>, pos: nat)
    requires meta.typ.NumericN? || meta.typ.DecimalN?
    requires pos + 1 < |s| && s[pos] != 0 && !Numeric.SupportedLength(s[pos] as int)
    ensures ValueParse(meta, opts, ctx, s, pos) == Failure(UnsupportedNumericLength(s[pos] as int))
  {
    DispatchLengthTagged(meta, opts, ctx, s, pos);
    ReadByteAt(s, pos, s[pos]);
  }

  /** A time payload of 3 to 5 bytes counts ticks of the column's scale;
      they become whole milliseconds since midnight and a remainder in
      100-nanosecond units. */
  lemma TimeColumn(meta: DataType.Metadata, opts: DataType.Options, ctx: DataType.Context, s: seq<byte>, pos: nat,
                   ticks: nat, length: byte)
    requires meta.typ.Time?
    requires 3 <= length <= 5 && ticks < Pow256(length as nat)
    requires At(s, pos, [length]) && At(s, pos + 1, EncodeLittleEndian(ticks, length as nat))
    ensures var scaled := Temporal.ScaleTicks(ticks, meta.scale);
      ValueParse(meta, opts, ctx, s, pos)
        == Success((Instant(opts.useUTC, 1970, 1, scaled / Temporal.TICKS_PER_MILLI,
                            Some(scaled % Temporal.TICKS_PER_MILLI)), pos + 1 + length as nat))
  {
    DispatchLengthTagged(meta, opts, ctx, s, pos);
    LengthTaggedTime(meta, opts, s, pos, ticks, length);
  }

  /** The time case of the length-tagged reader. */
  lemma LengthTaggedTime(meta: DataType.Metadata, opts: DataType.Options, s: seq<byte>, pos: nat, ticks: nat, length: byte)
    requires meta.typ.Time?
    requires 3 <= length <= 5 && ticks < Pow256(length as nat)
    requires At(s, pos, [length]) && At(s, pos + 1, EncodeLittleEndian(ticks, length as nat))
    ensures var scaled := Temporal.ScaleTicks(ticks, meta.scale);
      ReadLengthTagged(meta, opts, s, pos)
        == Success((Instant(opts.useUTC, 1970, 1, scaled / Temporal.TICKS_PER_MILLI,
                            Some(scaled % Temporal.TICKS_PER_MILLI)), pos + 1 + length as nat))
  {
    ReadByteAt(s, pos, length);
    Temporal.TimeRoundTrip(s, pos + 1, ticks, length as nat, meta.scale, opts.useUTC);
  }

  /** A time column of any other nonzero length cannot be decoded. */
  lemma TimeColumnBadLength(meta: DataType.Metadata, opts: DataType.Options, ctx: DataType.Context,
                            s: seq<byte>, pos: nat)
    requires meta.typ.Time?
    requires pos < |s| && s[pos] != 0 && !(3 <= s[pos] <= 5)
    ensures ValueParse(meta, opts, ctx, s, pos) == Failure(UnsupportedTimeLength(s[pos] as int))
  {
    DispatchLengthTagged(meta, opts, ctx, s, pos);
    ReadByteAt(s, pos, s[pos]);
  }

  /** A date is always three bytes, whatever nonzero length precedes it,
      and its day number is the wire's. */
  lemma DateColumn(meta: DataType.Metadata, opts: DataType.Options, ctx: DataType.Context, s: seq<byte>, pos: nat)
    requires meta.typ.Date?
    requires pos + 4 <= |s| && s[pos] != 0
    ensures var r := ValueParse(meta, opts, ctx, s, pos);
      && r.Success? && r.value.1 == pos + 4 && r.value.0.Instant? && r.value.0.year >= 1
      && Temporal.InstantDayNumber(r.value.0) == LittleEndian(s[pos + 1..pos + 4])
  {
    DispatchLengthTagged(meta, opts, ctx, s, pos);
    LengthTaggedDate(meta, opts, s, pos);
  }

  /** The date case of the length-tagged reader. */
  lemma LengthTaggedDate(meta: DataType.Metadata, opts: DataType.Options, s: seq<byte>, pos: nat)
    requires meta.typ.Date?
    requires pos + 4 <= |s| && s[pos] != 0
    ensures var r := ReadLengthTagged(meta, opts, s, pos);
      && r.Success? && r.value.1 == pos + 4 && r.value.0.Instant? && r.value.0.year >= 1
      && Temporal.InstantDayNumber(r.value.0) == LittleEndian(s[pos + 1..pos + 4])
  {
    ReadByteAt(s, pos, s[pos]);
    Temporal.DateIsWireDayNumber(s, pos + 1, opts.useUTC);
  }

  /** For the other date and time types the nonzero length byte is the
      width handed to the type's reader, together with the column's scale;
      their wire layouts are stated by the readers' round-trip lemmas. */
  lemma LengthTaggedTemporal(meta: DataType.Metadata, opts: DataType.Options, ctx: DataType.Context,
                             s: seq<byte>, pos: nat)
    requires pos < |s| && s[pos] != 0
    ensures meta.typ.DateTime2? ==>
      ValueParse(meta, opts, ctx, s, pos) == Temporal.ReadDateTime2(s, pos + 1, s[pos] as int, meta.scale, opts.useUTC)
    ensures meta.typ.DateTimeOffset? ==>
      ValueParse(meta, opts, ctx, s, pos) == Temporal.ReadDateTimeOffset(s, pos + 1, s[pos] as int, meta.scale)
  {
    ReadByteAt(s, pos, s[pos]);
  }

  // Variants.

  /** Variant columns go to the variant column reader. */
  lemma DispatchVariant(meta: DataType.Metadata, opts: DataType.Options, ctx: DataType.Context, s: seq<byte>, pos: nat)
    requires meta.typ.Variant?
    ensures ValueParse(meta, opts, ctx, s, pos) == ReadVariantColumn(ctx, opts, s, pos)
  {
  }

  /** A zero total length is null. */
  lemma VariantColumnNull(meta: DataType.Metadata, opts: DataType.Options, ctx: DataType.Context, s: seq<byte>, pos: nat)
    requires meta.typ.Variant?
    requires At(s, pos, [0, 0, 0, 0])
    ensures ValueParse(meta, opts, ctx, s, pos) == Success((Null, pos + 4))
  {
    DispatchVariant(meta, opts, ctx, s, pos);
    assert LittleEndian(s[pos..pos + 4]) == 0 + 256 * LittleEndian([0, 0, 0]);
  }

  /** Any other total length frames one variant. */
  lemma VariantColumn(meta: DataType.Metadata, opts: DataType.Options, ctx: DataType.Context, s: seq<byte>, pos: nat,
                      length: seq<byte>)
    requires meta.typ.Variant?
    requires |length| == 4 && LittleEndian(length) != 0 && At(s, pos, length)
    ensures ValueParse(meta, opts, ctx, s, pos) == Variant.ReadVariant(ctx, opts, s, pos + 4, LittleEndian(length))
  {
    DispatchVariant(meta, opts, ctx, s, pos);
  }

  /** A variant whose base type is a fixed-width scalar, a date or a
      uniqueidentifier holds exactly what a column of that type holds. */
  lemma VariantScalar(ctx: DataType.Context, opts: DataType.Options, s: seq<byte>, pos: nat, dataLength: nat)
    requires pos + 2 <= |s| && s[pos] in ctx.registry
    ensures var typ := ctx.registry[s[pos]];
      && (FramingOf(typ) == FixedWidth ==>
            Variant.ReadVariant(ctx, opts, s, pos, dataLength) == ReadFixed(typ, opts, s, pos + 2))
      && (typ.UniqueIdentifier? ==>
            Variant.ReadVariant(ctx, opts, s, pos, dataLength) == Payloads.ReadUniqueIdentifier(s, pos + 2, opts.lowerCaseGuids))
      && (typ.Date? ==>
            Variant.ReadVariant(ctx, opts, s, pos, dataLength) == Temporal.ReadDate(s, pos + 2, opts.useUTC))
  {
    ReadByteAt(s, pos, s[pos]);
  }
}
