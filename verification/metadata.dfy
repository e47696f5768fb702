/** What the caller knows about a column before its value is decoded:
    the logical type, the declared length, precision, scale and collation,
    plus the decoding options and the two lookups the decoder borrows from
    elsewhere in the driver. */
module DataType {
  import opened Wrappers
  import opened Bytes

  /** The logical types the decoder dispatches on, by their `type.name`.
      `Other` stands for any name the dispatcher does not recognise. */
  datatype TypeName =
    | Null
    | TinyInt | SmallInt | Int | BigInt | IntN
    | Real | Float | FloatN
    | SmallMoney | Money | MoneyN
    | Bit | BitN
    | VarChar | Char | NVarChar | NChar | VarBinary | Binary
    | Text | NText | Image | Xml
    | SmallDateTime | DateTime | DateTimeN
    | Time | Date | DateTime2 | DateTimeOffset
    | NumericN | DecimalN
    | UniqueIdentifier | UDT | Variant
    | Other(name: string)

  /** A parsed collation; only its codepage matters here. */
  datatype Collation = Collation(codepage: Option<string>)

  datatype Metadata = Metadata(
    typ: TypeName,
    dataLength: nat,
    precision: nat,
    scale: nat,
    collation: Option<Collation>)

  /** The declared length that marks a MAX (PLP-encoded) column. */
  const MAX: nat := 0xFFFF

  /** Decode configuration: UTC or local construction of temporal values,
      and the letter case GUID text is formatted in. */
  datatype Options = Options(useUTC: bool, lowerCaseGuids: bool)

  /** The type registry (wire type tag to logical type) and the mapping
      from a raw collation record to its codepage. Both live outside the
      value decoder; the variant decoder consults them. */
  datatype Context = Context(
    registry: map<byte, TypeName>,
    collationCodepage: seq<byte> -> Option<string>)

  /** Size of the raw collation record inside a variant (section 2.2.5.1.2
      of MS-TDS). */
  const COLLATION_LENGTH: nat := 5
}

/** The decoded values and the ways decoding can fail. */
module Values {
  import opened Wrappers
  import opened Bytes
  import DataType

  /** How the bytes of a text value are to be turned into characters. */
  datatype Encoding = Codepage(name: string) | Ucs2

  /** One decoded value.
      - `Int` is a JavaScript number; `BigInt` is the source's decimal text of
        a 64-bit integer, kept here as the integer the text spells.
      - `Money` counts ten-thousandths of the currency unit.
      - `Float` keeps the 4- or 8-byte IEEE-754 pattern undecoded.
      - `Numeric` is the exact value (-1 if `negative`) * magnitude / 10^scale.
      - `Chars` is text still in its wire encoding.
      - `Instant` holds the arguments the source hands to the civil calendar:
        midnight of January `januaryDay` of `year` (day 1 is January 1st, and
        days past the end of January run on into later months), plus `millis`,
        in UTC or local time; `subMillis` is the sub-millisecond remainder in
        100 ns units, present exactly for the types that carry it. */
  datatype Value =
    | Null
    | Bit(isSet: bool)
    | Int(n: int)
    | BigInt(n: int)
    | Money(tenThousandths: int)
    | Float(ieee754: seq<byte>)
    | Numeric(negative: bool, magnitude: nat, scale: nat)
    | Binary(data: seq<byte>)
    | Chars(encoding: Encoding, data: seq<byte>)
    | Guid(data: seq<byte>, lowerCase: bool)
    | Instant(utc: bool, year: int, januaryDay: int, millis: int, subMillis: Option<nat>)

  /** Why decoding stopped. Every one of these is fatal: the stream position
      cannot be trusted afterwards. */
  datatype Error =
    | Truncated(pos: nat, wanted: nat)
    | NegativeLength(length: int)
    | UnsupportedDataLength(typ: DataType.TypeName, length: int)
    | UnsupportedNumericLength(length: int)
    | UnsupportedTimeLength(length: int)
    | PlpLengthMismatch(expected: nat, actual: nat)
    | UnknownBaseType(tag: byte)
    | InvalidVariantType(typ: DataType.TypeName)
    | UnrecognisedType(typ: DataType.TypeName)
    | MissingCollation

  /** A decoder's outcome: the decoded thing and the cursor after it. */
  type Decoded<T> = Result<(T, nat), Error>
}
