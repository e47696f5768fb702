/** The self-describing sql_variant value (section 2.2.5.5.4 of MS-TDS;
    value-parser.ts readVariant): a base-type tag, a count of property
    bytes, the type's properties and the payload. */
module Variant {
  import opened Wrappers
  import opened Bytes
  import opened Values
  import opened Cursor
  import opened DataType
  import Primitives
  import Numeric
  import Temporal
  import Payloads

  /** The payload length left once the tag, the property count and the
      properties are taken off the variant's declared length. It can be
      negative when the header claims more properties than there is room for. */
  function RemainingLength(dataLength: nat, propBytes: nat): int {
    dataLength - propBytes - 2
  }

  /** Decodes one variant of declared total length `dataLength` (nonzero).
      The base type is looked up in the type registry; scalar types read
      their fixed layout directly, the others read their properties first
      and then a payload of the remaining length. */
  function ReadVariant(ctx: Context, opts: Options, s: seq<byte>, pos: nat, dataLength: nat): (r: Decoded<Value>)
    ensures r.Success? ==> pos + 2 <= r.value.1 <= |s|
    ensures r.Success? ==> s[pos] in ctx.registry
  {
    var baseType :- ReadUnsigned(s, pos, 1);
    var propBytes :- ReadUnsigned(s, baseType.1, 1);
    assert s[pos..pos + 1] == [s[pos]];
    var tag := baseType.0 as byte;
    if tag !in ctx.registry then Failure(UnknownBaseType(tag))
    else
      var remaining := RemainingLength(dataLength, propBytes.0);
      var p := propBytes.1;
      match ctx.registry[tag]
      case UniqueIdentifier => Payloads.ReadUniqueIdentifier(s, p, opts.lowerCaseGuids)
      case Bit => Primitives.ReadBit(s, p)
      case TinyInt => Primitives.ReadTinyInt(s, p)
      case SmallInt => Primitives.ReadSmallInt(s, p)
      case Int => Primitives.ReadInt(s, p)
      case BigInt => Primitives.ReadBigInt(s, p)
      case SmallDateTime => Temporal.ReadSmallDateTime(s, p, opts.useUTC)
      case DateTime => Temporal.ReadDateTime(s, p, opts.useUTC)
      case Real => Primitives.ReadReal(s, p)
      case Float => Primitives.ReadFloat(s, p)
      case SmallMoney => Primitives.ReadSmallMoney(s, p)
      case Money => Primitives.ReadMoney(s, p)
      case Date => Temporal.ReadDate(s, p, opts.useUTC)
      case Time =>
        var scale :- ReadUnsigned(s, p, 1);
        Temporal.ReadTime(s, scale.1, remaining, scale.0, opts.useUTC)
      case DateTime2 =>
        var scale :- ReadUnsigned(s, p, 1);
        Temporal.ReadDateTime2(s, scale.1, remaining, scale.0, opts.useUTC)
      case DateTimeOffset =>
        var scale :- ReadUnsigned(s, p, 1);
        Temporal.ReadDateTimeOffset(s, scale.1, remaining, scale.0)
      case VarBinary | Binary =>
        var maxLength :- ReadUnsigned(s, p, 2);
        Payloads.ReadBinary(s, maxLength.1, remaining)
      case NumericN | DecimalN =>
        var precision :- ReadUnsigned(s, p, 1);
        var scale :- ReadUnsigned(s, precision.1, 1);
        Numeric.ReadNumeric(s, scale.1, remaining, scale.0)
      case VarChar | Char =>
        var maxLength :- ReadUnsigned(s, p, 2);
        var collation :- ReadBytes(s, maxLength.1, COLLATION_LENGTH);
        Payloads.ReadChars(s, collation.1, remaining, ctx.collationCodepage(collation.0))
      case NVarChar | NChar =>
        var maxLength :- ReadUnsigned(s, p, 2);
        var collation :- ReadBytes(s, maxLength.1, COLLATION_LENGTH);
        Payloads.ReadNChars(s, collation.1, remaining)
      case other => Failure(InvalidVariantType(other))
  }

  /** The base types a variant can carry. */
  predicate Supports(typ: TypeName) {
    match typ
    case UniqueIdentifier | Bit | TinyInt | SmallInt | Int | BigInt | SmallDateTime | DateTime | Real | Float
       | SmallMoney | Money | Date | Time | DateTime2 | DateTimeOffset | VarBinary | Binary | NumericN | DecimalN
       | VarChar | Char | NVarChar | NChar => true
    case _ => false
  }

  /** A variant decodes only when its tag is registered to a base type it
      supports; otherwise the tag, or its type, is the error. */
  lemma TagDecides(ctx: Context, opts: Options, s: seq<byte>, pos: nat, dataLength: nat)
    requires pos + 2 <= |s|
    ensures ReadVariant(ctx, opts, s, pos, dataLength).Success? ==>
      s[pos] in ctx.registry && Supports(ctx.registry[s[pos]])
    ensures s[pos] !in ctx.registry ==> ReadVariant(ctx, opts, s, pos, dataLength) == Failure(UnknownBaseType(s[pos]))
    ensures s[pos] in ctx.registry && !Supports(ctx.registry[s[pos]]) ==>
      ReadVariant(ctx, opts, s, pos, dataLength) == Failure(InvalidVariantType(ctx.registry[s[pos]]))
  {
    ReadByteAt(s, pos, s[pos]);
  }

  /** A numeric variant reads its precision and scale properties, then a
      numeric payload of the remaining length in that scale. */
  lemma NumericVariant(ctx: Context, opts: Options, s: seq<byte>, pos: nat, dataLength: nat,
                       negative: bool, magnitude: nat)
    requires pos + 4 <= |s| && s[pos] in ctx.registry
    requires ctx.registry[s[pos]].NumericN? || ctx.registry[s[pos]].DecimalN?
    requires var remaining := RemainingLength(dataLength, s[pos + 1] as nat);
      && Numeric.SupportedLength(remaining) && magnitude < Pow256(remaining - 1)
      && At(s, pos + 4, Numeric.EncodeNumeric(negative, magnitude, remaining))
    ensures var remaining := RemainingLength(dataLength, s[pos + 1] as nat);
      ReadVariant(ctx, opts, s, pos, dataLength)
        == Success((Numeric(negative, magnitude, s[pos + 3] as nat), pos + 4 + remaining))
  {
    var remaining := RemainingLength(dataLength, s[pos + 1] as nat);
    ReadByteAt(s, pos, s[pos]);
    ReadByteAt(s, pos + 1, s[pos + 1]);
    ReadByteAt(s, pos + 3, s[pos + 3]);
    Numeric.NumericRoundTrip(s, pos + 4, negative, magnitude, remaining, s[pos + 3] as nat);
  }

  /** A binary variant skips its two-byte maximum length; the rest of the
      declared length is the data. */
  lemma BinaryVariant(ctx: Context, opts: Options, s: seq<byte>, pos: nat, dataLength: nat, data: seq<byte>)
    requires pos + 4 <= |s| && s[pos] in ctx.registry
    requires ctx.registry[s[pos]].VarBinary? || ctx.registry[s[pos]].Binary?
    requires RemainingLength(dataLength, s[pos + 1] as nat) == |data| && At(s, pos + 4, data)
    ensures ReadVariant(ctx, opts, s, pos, dataLength) == Success((Value.Binary(data), pos + 4 + |data|))
  {
    ReadByteAt(s, pos, s[pos]);
    ReadByteAt(s, pos + 1, s[pos + 1]);
  }

  /** A binary variant whose properties overrun its declared length fails
      with that negative length. */
  lemma BinaryVariantOverrun(ctx: Context, opts: Options, s: seq<byte>, pos: nat, dataLength: nat)
    requires pos + 4 <= |s| && s[pos] in ctx.registry
    requires ctx.registry[s[pos]].VarBinary? || ctx.registry[s[pos]].Binary?
    requires RemainingLength(dataLength, s[pos + 1] as nat) < 0
    ensures ReadVariant(ctx, opts, s, pos, dataLength)
         == Failure(NegativeLength(RemainingLength(dataLength, s[pos + 1] as nat)))
  {
    ReadByteAt(s, pos, s[pos]);
    ReadByteAt(s, pos + 1, s[pos + 1]);
  }

  /** A narrow text variant skips its maximum length, and its five-byte
      collation chooses the codepage of the data that follows. */
  lemma CharsVariant(ctx: Context, opts: Options, s: seq<byte>, pos: nat, dataLength: nat, data: seq<byte>)
    requires pos + 9 <= |s| && s[pos] in ctx.registry
    requires ctx.registry[s[pos]].VarChar? || ctx.registry[s[pos]].Char?
    requires RemainingLength(dataLength, s[pos + 1] as nat) == |data| && At(s, pos + 9, data)
    ensures ReadVariant(ctx, opts, s, pos, dataLength)
         == Success((Chars(Payloads.CodepageOrDefault(ctx.collationCodepage(s[pos + 4..pos + 9])), data),
                     pos + 9 + |data|))
  {
    ReadByteAt(s, pos, s[pos]);
    ReadByteAt(s, pos + 1, s[pos + 1]);
  }

  /** A UTF-16 text variant has the same header as a narrow one, but its
      collation plays no part in the value. */
  lemma NCharsVariant(ctx: Context, opts: Options, s: seq<byte>, pos: nat, dataLength: nat, data: seq<byte>)
    requires pos + 9 <= |s| && s[pos] in ctx.registry
    requires ctx.registry[s[pos]].NVarChar? || ctx.registry[s[pos]].NChar?
    requires RemainingLength(dataLength, s[pos + 1] as nat) == |data| && At(s, pos + 9, data)
    ensures ReadVariant(ctx, opts, s, pos, dataLength) == Success((Chars(Ucs2, data), pos + 9 + |data|))
  {
    ReadByteAt(s, pos, s[pos]);
    ReadByteAt(s, pos + 1, s[pos + 1]);
  }

  /** A time, datetime2 or datetimeoffset variant carries its own scale,
      which replaces the column's, and the remaining length is the width
      of the temporal payload. */
  lemma TemporalVariant(ctx: Context, opts: Options, s: seq<byte>, pos: nat, dataLength: nat)
    requires pos + 3 <= |s| && s[pos] in ctx.registry
    ensures var remaining := RemainingLength(dataLength, s[pos + 1] as nat);
      var scale := s[pos + 2] as nat;
      && (ctx.registry[s[pos]].Time? ==>
            ReadVariant(ctx, opts, s, pos, dataLength) == Temporal.ReadTime(s, pos + 3, remaining, scale, opts.useUTC))
      && (ctx.registry[s[pos]].DateTime2? ==>
            ReadVariant(ctx, opts, s, pos, dataLength) == Temporal.ReadDateTime2(s, pos + 3, remaining, scale, opts.useUTC))
      && (ctx.registry[s[pos]].DateTimeOffset? ==>
            ReadVariant(ctx, opts, s, pos, dataLength) == Temporal.ReadDateTimeOffset(s, pos + 3, remaining, scale))
  {
    ReadByteAt(s, pos, s[pos]);
    ReadByteAt(s, pos + 1, s[pos + 1]);
    ReadByteAt(s, pos + 2, s[pos + 2]);
  }
}
