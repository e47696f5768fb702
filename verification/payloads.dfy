/** Raw payload readers: GUIDs, binary and text bodies, and their MAX-length
    (PLP) forms (value-parser.ts readUniqueIdentifier, readBinary,
    readChars, readNChars, readMaxBinary, readMaxChars, readMaxNChars).
    Text stays in its wire encoding, tagged with how to decode it. */
module Payloads {
  import opened Wrappers
  import opened Bytes
  import opened Values
  import opened Cursor
  import Plp

  /** The codepage used when a collation names none. */
  const DEFAULT_ENCODING: string := "utf8"

  /** A narrow-text codepage, defaulted when absent. */
  function CodepageOrDefault(codepage: Option<string>): (e: Encoding)
    ensures codepage.Some? ==> e == Codepage(codepage.value)
    ensures codepage.None? ==> e == Codepage(DEFAULT_ENCODING)
  {
    match codepage
    case Some(name) => Codepage(name)
    case None => Codepage(DEFAULT_ENCODING)
  }

  /** 16 raw GUID bytes, to be formatted in the configured letter case. */
  function ReadUniqueIdentifier(s: seq<byte>, pos: nat, lowerCase: bool): (r: Decoded<Value>)
    ensures r.Success? <==> pos + 16 <= |s|
    ensures r.Success? ==> r.value == (Guid(s[pos..pos + 16], lowerCase), pos + 16)
  {
    var data :- ReadBytes(s, pos, 16);
    Success((Guid(data.0, lowerCase), data.1))
  }

  /** Exactly `dataLength` bytes of binary data. */
  function ReadBinary(s: seq<byte>, pos: nat, dataLength: int): (r: Decoded<Value>)
    ensures r.Success? <==> 0 <= dataLength && pos + dataLength <= |s|
    ensures r.Success? ==> r.value == (Binary(s[pos..pos + dataLength]), pos + dataLength)
  {
    var data :- ReadBytes(s, pos, dataLength);
    Success((Binary(data.0), data.1))
  }

  /** Exactly `dataLength` bytes of narrow text in the given codepage. */
  function ReadChars(s: seq<byte>, pos: nat, dataLength: int, codepage: Option<string>): (r: Decoded<Value>)
    ensures r.Success? <==> 0 <= dataLength && pos + dataLength <= |s|
    ensures r.Success? ==>
      r.value == (Chars(CodepageOrDefault(codepage), s[pos..pos + dataLength]), pos + dataLength)
  {
    var data :- ReadBytes(s, pos, dataLength);
    Success((Chars(CodepageOrDefault(codepage), data.0), data.1))
  }

  /** Exactly `dataLength` bytes of UTF-16 text. */
  function ReadNChars(s: seq<byte>, pos: nat, dataLength: int): (r: Decoded<Value>)
    ensures r.Success? <==> 0 <= dataLength && pos + dataLength <= |s|
    ensures r.Success? ==> r.value == (Chars(Ucs2, s[pos..pos + dataLength]), pos + dataLength)
  {
    var data :- ReadBytes(s, pos, dataLength);
    Success((Chars(Ucs2, data.0), data.1))
  }

  /** A MAX-length body as binary, or null. */
  function ReadMaxBinary(s: seq<byte>, pos: nat): (r: Decoded<Value>)
    ensures r.Success? <==> Plp.ReadMax(s, pos).Success?
    ensures r.Success? ==> r.value.1 == Plp.ReadMax(s, pos).value.1
    ensures r.Success? ==> match Plp.ReadMax(s, pos).value.0
      case None => r.value.0 == Null
      case Some(data) => r.value.0 == Binary(data)
  {
    var data :- Plp.ReadMax(s, pos);
    match data.0
    case None => Success((Null, data.1))
    case Some(bytes) => Success((Binary(bytes), data.1))
  }

  /** A MAX-length body as narrow text, or null. */
  function ReadMaxChars(s: seq<byte>, pos: nat, codepage: Option<string>): (r: Decoded<Value>)
    ensures r.Success? <==> Plp.ReadMax(s, pos).Success?
    ensures r.Success? ==> r.value.1 == Plp.ReadMax(s, pos).value.1
    ensures r.Success? ==> match Plp.ReadMax(s, pos).value.0
      case None => r.value.0 == Null
      case Some(data) => r.value.0 == Chars(CodepageOrDefault(codepage), data)
  {
    var data :- Plp.ReadMax(s, pos);
    match data.0
    case None => Success((Null, data.1))
    case Some(bytes) => Success((Chars(CodepageOrDefault(codepage), bytes), data.1))
  }

  /** A MAX-length body as UTF-16 text, or null. */
  function ReadMaxNChars(s: seq<byte>, pos: nat): (r: Decoded<Value>)
    ensures r.Success? <==> Plp.ReadMax(s, pos).Success?
    ensures r.Success? ==> r.value.1 == Plp.ReadMax(s, pos).value.1
    ensures r.Success? ==> match Plp.ReadMax(s, pos).value.0
      case None => r.value.0 == Null
      case Some(data) => r.value.0 == Chars(Ucs2, data)
  {
    var data :- Plp.ReadMax(s, pos);
    match data.0
    case None => Success((Null, data.1))
    case Some(bytes) => Success((Chars(Ucs2, bytes), data.1))
  }
}
