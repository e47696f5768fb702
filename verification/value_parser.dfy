/** The value decoder's entry point (value-parser.ts valueParse): given a
    column's metadata, decode one value of that column from the stream. Each
    logical type has its own framing: fixed types have none, nullable-width
    families a one-byte width tag, short variable-length types a two-byte
    length, legacy text and image types a text pointer and timestamp, MAX
    types a PLP body and variants a four-byte length. */
module ValueParser {
  import opened Wrappers
  import opened Bytes
  import opened Values
  import opened Cursor
  import DataType
  import Primitives
  import Numeric
  import Temporal
  import Payloads
  import Plp
  import Variant

  /** The two-byte length that marks a null short variable-length value. */
  const NULL_LENGTH: nat := 0xFFFF

  /** How a type's value is framed on the wire; the dispatcher first picks
      the framing, then the reader for the type within it. */
  datatype Framing =
    | NoBytes        // the null type: nothing on the wire
    | FixedWidth     // the type's own width, no prefix
    | WidthTag       // a one-byte width: 0 for null, or a width the type lists
    | ShortLength    // a two-byte length, or a PLP body for MAX columns
    | TextPointer    // the legacy text pointer, timestamp and four-byte length
    | PlpOnly        // always a PLP body
    | LengthTag      // a one-byte length, 0 for null
    | VariantLength  // a four-byte length, 0 for null, then a variant
    | Unrecognised

  /** The framing of each type the dispatcher knows. */
  function FramingOf(typ: DataType.TypeName): Framing {
    match typ
    case Null => NoBytes
    case TinyInt | SmallInt | Int | BigInt | Real | Float | SmallMoney | Money | Bit
       | SmallDateTime | DateTime => FixedWidth
    case IntN | FloatN | MoneyN | BitN | DateTimeN | UniqueIdentifier => WidthTag
    case VarChar | Char | NVarChar | NChar | VarBinary | Binary => ShortLength
    case Text | NText | Image => TextPointer
    case Xml | UDT => PlpOnly
    case Time | Date | DateTime2 | DateTimeOffset | NumericN | DecimalN => LengthTag
    case Variant => VariantLength
    case Other(_) => Unrecognised
  }

  // The framing helpers the dispatcher shares between types.

  /** A two-byte length: `None` for the null marker, otherwise the length. */
  function ReadShortLength(s: seq<byte>, pos: nat): (r: Decoded<Option<nat>>)
    ensures r.Success? <==> pos + 2 <= |s|
    ensures r.Success? ==> r.value.1 == pos + 2
    ensures r.Success? ==>
      (r.value.0.None? <==> LittleEndian(s[pos..pos + 2]) == NULL_LENGTH)
    ensures r.Success? && r.value.0.Some? ==>
      r.value.0.value == LittleEndian(s[pos..pos + 2]) < NULL_LENGTH
  {
    var length :- ReadUnsigned(s, pos, 2);
    if length.0 == NULL_LENGTH then Success((None, length.1))
    else Success((Some(length.0), length.1))
  }

  /** The header of a legacy text, ntext or image value: a one-byte text
      pointer length, zero for null; otherwise the text pointer, an 8-byte
      timestamp (both skipped) and a four-byte payload length. */
  function ReadLegacyHeader(s: seq<byte>, pos: nat): (r: Decoded<Option<nat>>)
    ensures r.Success? ==> pos + 1 <= r.value.1 <= |s|
    ensures r.Success? ==> (r.value.0.None? <==> s[pos] == 0)
    ensures r.Success? && r.value.0.None? ==> r.value.1 == pos + 1
    ensures r.Success? && r.value.0.Some? ==>
      var end := pos + 1 + s[pos] as nat + 8;
      r.value.1 == end + 4 && r.value.0.value == LittleEndian(s[end..end + 4])
  {
    var pointerLength :- ReadUnsigned(s, pos, 1);
    assert s[pos..pos + 1] == [s[pos]];
    if pointerLength.0 == 0 then Success((None, pointerLength.1))
    else
      var pointer :- ReadBytes(s, pointerLength.1, pointerLength.0);
      var timestamp :- ReadBytes(s, pointer.1, 8);
      var length :- ReadUnsigned(s, timestamp.1, 4);
      Success((Some(length.0), length.1))
  }

  /** How a length-framed payload is to be read: as narrow text in a
      codepage, as UTF-16 text, or as raw bytes. */
  datatype PayloadKind = NarrowText(codepage: Option<string>) | WideText | RawBytes

  /** The value a payload of the given kind denotes. */
  function PayloadValue(kind: PayloadKind, data: seq<byte>): Value {
    match kind
    case NarrowText(codepage) => Chars(Payloads.CodepageOrDefault(codepage), data)
    case WideText => Chars(Ucs2, data)
    case RawBytes => Binary(data)
  }

  /** How a payload-carrying column's bytes are to be read. Narrow text
      needs the column's collation, which the source dereferences unchecked,
      so a narrow-text column without one fails. */
  function ColumnKind(meta: DataType.Metadata): (r: Result<PayloadKind, Error>)
    requires FramingOf(meta.typ) in {ShortLength, TextPointer, PlpOnly}
    ensures r.Failure? <==> IsNarrowText(meta.typ) && meta.collation.None?
    ensures r.Failure? ==> r.error == MissingCollation
    ensures r.Success? && IsNarrowText(meta.typ) ==> r.value == NarrowText(meta.collation.value.codepage)
    ensures meta.typ.NVarChar? || meta.typ.NChar? || meta.typ.NText? || meta.typ.Xml? ==> r == Success(WideText)
    ensures meta.typ.Binary? || meta.typ.VarBinary? || meta.typ.Image? || meta.typ.UDT? ==> r == Success(RawBytes)
  {
    match meta.typ
    case VarChar | Char | Text =>
      (match meta.collation
       case None => Failure(MissingCollation)
       case Some(collation) => Success(NarrowText(collation.codepage)))
    case NVarChar | NChar | NText | Xml => Success(WideText)
    case _ => Success(RawBytes)
  }

  /** The types whose payload is narrow text. */
  predicate IsNarrowText(typ: DataType.TypeName) {
    typ.VarChar? || typ.Char? || typ.Text?
  }

  /** Exactly `length` payload bytes of the given kind. */
  function ReadPayload(s: seq<byte>, pos: nat, length: nat, kind: PayloadKind): (r: Decoded<Value>)
    ensures r.Success? <==> pos + length <= |s|
    ensures r.Success? ==> r.value == (PayloadValue(kind, s[pos..pos + length]), pos + length)
  {
    match kind
    case NarrowText(codepage) => Payloads.ReadChars(s, pos, length, codepage)
    case WideText => Payloads.ReadNChars(s, pos, length)
    case RawBytes => Payloads.ReadBinary(s, pos, length)
  }

  /** A MAX-length payload of the given kind: null for the null header,
      otherwise the reassembled chunks. */
  function ReadMaxPayload(s: seq<byte>, pos: nat, kind: PayloadKind): (r: Decoded<Value>)
    ensures r.Success? <==> Plp.ReadMax(s, pos).Success?
    ensures r.Success? ==> r.value.1 == Plp.ReadMax(s, pos).value.1
    ensures r.Success? ==> match Plp.ReadMax(s, pos).value.0
      case None => r.value.0 == Null
      case Some(data) => r.value.0 == PayloadValue(kind, data)
  {
    match kind
    case NarrowText(codepage) => Payloads.ReadMaxChars(s, pos, codepage)
    case WideText => Payloads.ReadMaxNChars(s, pos)
    case RawBytes => Payloads.ReadMaxBinary(s, pos)
  }

  /** A char, nchar or binary column: a PLP body when the declared length is
      MAX, otherwise a two-byte length (or the null marker) and the payload. */
  function ReadVarLength(declaredLength: nat, s: seq<byte>, pos: nat, kind: PayloadKind): (r: Decoded<Value>)
    ensures r.Success? ==> pos < r.value.1 <= |s|
  {
    if declaredLength == DataType.MAX then ReadMaxPayload(s, pos, kind)
    else
      var length :- ReadShortLength(s, pos);
      if length.0.None? then Success((Null, length.1))
      else ReadPayload(s, length.1, length.0.value, kind)
  }

  /** A text, ntext or image column: null for a zero text pointer length,
      otherwise the payload behind the legacy header. The kind is only
      needed, and for text only checked, once the header is read. */
  function ReadLegacy(s: seq<byte>, pos: nat, kind: Result<PayloadKind, Error>): (r: Decoded<Value>)
    ensures r.Success? ==> pos < r.value.1 <= |s|
  {
    var header :- ReadLegacyHeader(s, pos);
    if header.0.None? then Success((Null, header.1))
    else
      var k :- kind;
      ReadPayload(s, header.1, header.0.value, k)
  }

  /** A fixed-width value, read by its type's reader. */
  function ReadFixed(typ: DataType.TypeName, opts: DataType.Options, s: seq<byte>, pos: nat): (r: Decoded<Value>)
    requires FramingOf(typ) == FixedWidth
    ensures r.Success? ==> pos < r.value.1 <= |s|
  {
    match typ
    case TinyInt => Primitives.ReadTinyInt(s, pos)
    case SmallInt => Primitives.ReadSmallInt(s, pos)
    case Int => Primitives.ReadInt(s, pos)
    case BigInt => Primitives.ReadBigInt(s, pos)
    case Real => Primitives.ReadReal(s, pos)
    case Float => Primitives.ReadFloat(s, pos)
    case SmallMoney => Primitives.ReadSmallMoney(s, pos)
    case Money => Primitives.ReadMoney(s, pos)
    case Bit => Primitives.ReadBit(s, pos)
    case SmallDateTime => Temporal.ReadSmallDateTime(s, pos, opts.useUTC)
    case DateTime => Temporal.ReadDateTime(s, pos, opts.useUTC)
  }

  /** A variant column: a four-byte total length, zero for null, then the
      variant itself. */
  function ReadVariantColumn(ctx: DataType.Context, opts: DataType.Options, s: seq<byte>, pos: nat): (r: Decoded<Value>)
    ensures r.Success? ==> pos < r.value.1 <= |s|
  {
    var length :- ReadUnsigned(s, pos, 4);
    if length.0 == 0 then Success((Null, length.1))
    else Variant.ReadVariant(ctx, opts, s, length.1, length.0)
  }

  /** The nonzero width tags each family accepts. */
  function PermittedWidths(typ: DataType.TypeName): set<nat> {
    match typ
    case IntN => {1, 2, 4, 8}
    case FloatN | MoneyN | DateTimeN => {4, 8}
    case BitN => {1}
    case UniqueIdentifier => {16}
    case _ => {}
  }

  /** A width-tagged value: the tag, then the reader the family's switch
      picks for it; 0 is null and any width the switch lacks is refused. */
  function ReadWidthTagged(typ: DataType.TypeName, opts: DataType.Options, s: seq<byte>, pos: nat): (r: Decoded<Value>)
    requires FramingOf(typ) == WidthTag
    ensures r.Success? ==> pos < r.value.1 <= |s|
  {
    var width :- ReadUnsigned(s, pos, 1);
    var p := width.1;
    if width.0 == 0 then Success((Null, p))
    else match (typ, width.0)
      case (IntN, 1) => Primitives.ReadTinyInt(s, p)
      case (IntN, 2) => Primitives.ReadSmallInt(s, p)
      case (IntN, 4) => Primitives.ReadInt(s, p)
      case (IntN, 8) => Primitives.ReadBigInt(s, p)
      case (FloatN, 4) => Primitives.ReadReal(s, p)
      case (FloatN, 8) => Primitives.ReadFloat(s, p)
      case (MoneyN, 4) => Primitives.ReadSmallMoney(s, p)
      case (MoneyN, 8) => Primitives.ReadMoney(s, p)
      case (BitN, 1) => Primitives.ReadBit(s, p)
      case (DateTimeN, 4) => Temporal.ReadSmallDateTime(s, p, opts.useUTC)
      case (DateTimeN, 8) => Temporal.ReadDateTime(s, p, opts.useUTC)
      case (UniqueIdentifier, 16) => Payloads.ReadUniqueIdentifier(s, p, opts.lowerCaseGuids)
      case _ => Failure(UnsupportedDataLength(typ, width.0))
  }

  /** A value behind a one-byte length that is zero for null. */
  function ReadLengthTagged(meta: DataType.Metadata, opts: DataType.Options, s: seq<byte>, pos: nat): (r: Decoded<Value>)
    requires FramingOf(meta.typ) == LengthTag
    ensures r.Success? ==> pos < r.value.1 <= |s|
  {
    var length :- ReadUnsigned(s, pos, 1);
    var p := length.1;
    if length.0 == 0 then Success((Null, p))
    else match meta.typ
      case Time => Temporal.ReadTime(s, p, length.0, meta.scale, opts.useUTC)
      case Date => Temporal.ReadDate(s, p, opts.useUTC)
      case DateTime2 => Temporal.ReadDateTime2(s, p, length.0, meta.scale, opts.useUTC)
      case DateTimeOffset => Temporal.ReadDateTimeOffset(s, p, length.0, meta.scale)
      case _ => Numeric.ReadNumeric(s, p, length.0, meta.scale)
  }

  /** Decodes one value of the column described by `meta` at `pos`. Every
      type but the null type consumes at least one byte, and never reads
      past the end of the stream. */
  function ValueParse(meta: DataType.Metadata, opts: DataType.Options, ctx: DataType.Context,
                      s: seq<byte>, pos: nat): (r: Decoded<Value>)
    ensures meta.typ.Null? ==> r == Success((Null, pos))
    ensures r.Success? && !meta.typ.Null? ==> pos < r.value.1 <= |s|
    ensures meta.typ.Other? ==> r == Failure(UnrecognisedType(meta.typ))
  {
    match FramingOf(meta.typ)
    case NoBytes => Success((Null, pos))
    case FixedWidth => ReadFixed(meta.typ, opts, s, pos)
    case WidthTag => ReadWidthTagged(meta.typ, opts, s, pos)
    case ShortLength =>
      var kind :- ColumnKind(meta);
      ReadVarLength(meta.dataLength, s, pos, kind)
    case TextPointer => ReadLegacy(s, pos, ColumnKind(meta))
    case PlpOnly => ReadMaxPayload(s, pos, ColumnKind(meta).value)
    case LengthTag => ReadLengthTagged(meta, opts, s, pos)
    case VariantLength => ReadVariantColumn(ctx, opts, s, pos)
    case Unrecognised => Failure(UnrecognisedType(meta.typ))
  }
}
