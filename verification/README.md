# tedious value decoder, modelled in Dafny

tedious is a TDS (Tabular Data Stream) client for SQL Server. This project
models its value decoder, `valueParse` in `src/value-parser.ts`. Given a
column's metadata, the decoder turns the little-endian bytes of the stream
into one value: an integer, money, a decimal, a date or time, text or
binary data, a GUID or a `sql_variant`. It follows the value encodings of
MS-TDS:

- data-type-dependent streams and PLP bodies (section 2.2.5.2.3);
- money (section 2.2.5.5.1.4);
- decimal and numeric (section 2.2.5.5.1.6);
- dates and times (section 2.2.5.5.1.8);
- `sql_variant` (section 2.2.5.5.4).

The source reads through callbacks on a suspending stream reader. Here every
decoder is a pure function `(bytes, position) -> Result<(value, new
position), Error>`, and the callback chain becomes a sequence of reads.
Running out of bytes is an explicit failure, and so is every framing error
the source throws. A failure is fatal: the source throws, and nothing reads
on from that position.

Modules, following the source's structure:

- `Bytes` and `Cursor` hold little-endian and two's-complement arithmetic and the
  bounds-checked reads. These stand in for the stream reader's `readUInt8` ..
  `readUInt40LE`, `readInt16LE`, `readInt32LE`, `readBigInt64LE` and
  `readBuffer`.
- `DataType` and `Values` hold the column metadata, the closed set of type names, the
  decoded values and the errors.
- `Primitives`: tinyint .. bit, money and small money.
- `Numeric`: decimal and numeric.
- `Calendar` and `Temporal`: the date and time types, with a proleptic Gregorian
  day count as the reference for the day arithmetic.
- `Payloads`: binary, narrow and UTF-16 text, GUIDs.
- `Plp`: the PLP engine (`readMax`, `readMaxKnownLength`, `readMaxUnknownLength`).
- `Variant`: `readVariant`.
- `ValueParser`: the dispatcher `valueParse`. It sorts the types into framings:
  - fixed width;
  - a one-byte width tag;
  - a two-byte length;
  - a legacy text pointer;
  - PLP only;
  - a one-byte length;
  - a four-byte variant length.
- `ValueParserProperties`: what `valueParse` does per framing, stated
  against the bytes.

Two collaborators of the decoder are not in the model's source. These are
the `TYPE` registry that maps a variant's base-type byte to a type, and
`readCollation`, which turns a 5-byte collation record into a codepage. Both
are parameters, gathered in `DataType.Context`.

## Model

| member | source | states |
|---|---|---|
| Cursor.ReadUnsigned | src/value-parser.ts:636-649 | An unsigned read of any width succeeds exactly when the bytes are there. It consumes exactly that width and yields their little-endian value, which is below 256^width. |
| Cursor.ReadSigned | src/value-parser.ts:21-27 | A signed read yields the two's-complement value of the bytes and consumes exactly the width. |
| Bytes.EncodeLittleEndianOfDecoded | src/value-parser.ts:636-649 | Decoding any byte string as little-endian and re-encoding it in the same width gives the bytes back. |
| Bytes.SignedRoundTrip | src/value-parser.ts:21-27 | Two's complement loses nothing: reinterpreting a signed reading as unsigned gives back the raw number. |
| Primitives.ReadTinyInt | src/value-parser.ts:17-19 | A tinyint is one unsigned byte, 0..255. |
| Primitives.ReadSmallInt | src/value-parser.ts:21-23 | A smallint is a signed 16-bit value read from 2 bytes. |
| Primitives.ReadInt | src/value-parser.ts:25-27 | An int is a signed 32-bit value read from 4 bytes. |
| Primitives.ReadBigInt | src/value-parser.ts:29-33 | A bigint is a signed 64-bit value read from 8 bytes. |
| Primitives.ReadReal | src/value-parser.ts:35-37 | A real is exactly the next 4 bytes, kept as an IEEE-754 pattern. |
| Primitives.ReadFloat | src/value-parser.ts:39-41 | A float is exactly the next 8 bytes, kept as an IEEE-754 pattern. |
| Primitives.ReadSmallMoney | src/value-parser.ts:43-47 | Small money is a signed 32-bit count of ten-thousandths. |
| Primitives.ReadMoney | src/value-parser.ts:49-55 | Money, read high word first, is the signed 64-bit number whose bytes are the two words swapped back. It always lies in [-2^63, 2^63) ten-thousandths. |
| Primitives.MoneyIsSwappedInt64 | src/value-parser.ts:49-55 | low + 2^32 * high, with high signed and low unsigned, equals the two's-complement value of low's bytes followed by high's. |
| Primitives.ReadBit | src/value-parser.ts:57-61 | A bit is one byte, and it is set exactly when that byte is nonzero. |
| Primitives.TinyIntRoundTrip | src/value-parser.ts:17-19 | Every byte value reads back as itself, whatever follows it. |
| Primitives.SmallIntRoundTrip | src/value-parser.ts:21-23 | Every 16-bit signed value reads back from its two's-complement encoding. |
| Primitives.IntRoundTrip | src/value-parser.ts:25-27 | Every 32-bit signed value reads back from its two's-complement encoding. |
| Primitives.BigIntRoundTrip | src/value-parser.ts:29-33 | Every 64-bit signed value reads back from its two's-complement encoding. |
| Primitives.SmallMoneyRoundTrip | src/value-parser.ts:43-47 | Every 32-bit count of ten-thousandths reads back. |
| Primitives.MoneyRoundTrip | src/value-parser.ts:49-55 | Every 64-bit count of ten-thousandths, laid out high word then low word, reads back exactly. |
| Primitives.BitRoundTrip | src/value-parser.ts:57-61 | 1 reads as true, 0 as false, and any other byte as true. |
| Numeric.ReadNumeric | src/value-parser.ts:359-380 | Only lengths 5/9/13/17 decode. The sign byte is consumed before an unsupported length fails. Sign 1 is positive and any other byte negative. The magnitude fills the rest of the length, and the value carries the given scale. |
| Numeric.NumericValueScaled | src/value-parser.ts:374-378 | The value denoted, times 10^scale, is the signed magnitude. |
| Numeric.NumericRoundTrip | src/value-parser.ts:359-380 | Every sign and every magnitude that fits a supported length reads back unchanged, consuming exactly that length. |
| Numeric.NumericExamples | src/value-parser.ts:359-380 | Magnitude 12345 at scale 2 is 123.45 with sign 1 and -123.45 with sign 0. |
| Temporal.ThreeHundredthsToMillis | src/value-parser.ts:615-619 | 1/300 s ticks become the millisecond count within a third of a millisecond of ticks * 10/3. |
| Temporal.ThreeHundredthsRoundingIsUnique | src/value-parser.ts:615-619 | That millisecond count is the only one so close, so the rounding mode does not matter. |
| Temporal.ReadSmallDateTime | src/value-parser.ts:601-613 | Small datetime is day 1 + d of January 1900, where d is the first unsigned 16-bit field. Its time is 60000 × m milliseconds, where m is the second field. It has no sub-millisecond part. |
| Temporal.ReadDateTime | src/value-parser.ts:615-630 | Datetime is signed days after 1900-01-01 plus 1/300 s ticks rounded to milliseconds. |
| Temporal.ScaleTicksIsPowerOfTen | src/value-parser.ts:649-653 | Scaling multiplies the tick count by 10^(7 - scale) below scale 7 and leaves it alone otherwise. |
| Temporal.ReadTimeTicks | src/value-parser.ts:636-653 | Only widths 3, 4 and 5 decode; any other width is a failure. |
| Temporal.ReadTime | src/value-parser.ts:636-668 | millis * 10000 + remainder is exactly the scaled tick count, and 0 <= remainder < 10000. |
| Temporal.ReadDate | src/value-parser.ts:670-678 | A date is 3 bytes, and the result is day (wire - 730118) of January 2000. |
| Temporal.ReadDateTime2 | src/value-parser.ts:680-696 | Datetime2 is a time of length - 3 bytes, then a 3-byte date. The result is that date at that time of day. |
| Temporal.ReadDateTimeOffset | src/value-parser.ts:698-712 | Datetimeoffset is a time of length - 5 bytes, a date and a 2-byte offset. The offset is consumed but never applied, and the result is UTC. |
| Temporal.DateIsWireDayNumber | src/value-parser.ts:670-678 | The decoded date is exactly the day the wire counts from 0001-01-01 in the Gregorian calendar. |
| Temporal.DateTime2AndOffsetDaysAreWireDayNumbers | src/value-parser.ts:680-712 | The dates of datetime2 and datetimeoffset are the wire's day counts from 0001-01-01. |
| Temporal.DaysCountFrom1900 | src/value-parser.ts:601-630 | Small datetime and datetime count their days from 1900-01-01. |
| Temporal.SmallDateTimeRoundTrip | src/value-parser.ts:601-613 | Any day count and minute count below 2^16, encoded as two 16-bit fields, reads back as that day of January 1900 at that many whole minutes. |
| Temporal.TimeRoundTrip | src/value-parser.ts:636-668 | A tick count of 3 to 5 bytes reads back scaled and split into milliseconds and remainder. |
| Temporal.DateTime2RoundTrip | src/value-parser.ts:680-696 | A tick count and a day count read back as that day at that time. |
| Temporal.DateTimeOffsetRoundTrip | src/value-parser.ts:698-712 | An encoded time, an encoded day count and any two offset bytes read back as that UTC instant. All `timeLength + 5` bytes are consumed, and the offset never changes the result. |
| Temporal.OffsetExtendsDateTime2 | src/value-parser.ts:698-712 | Datetimeoffset reads as the UTC datetime2 of its first `timeLength + 3` bytes. Two more bytes are consumed for the offset. |
| Temporal.TimeExamples | src/value-parser.ts:636-668 | At scale 7, 36610000000 ticks is 01:01:01.000 with no remainder, and one tick more has remainder 1. |
| Temporal.DateExamples | src/value-parser.ts:615-678 | Date 730119 is 2000-01-01, and datetime day -1 is 1899-12-31. |
| Calendar.EpochDays | src/value-parser.ts:670-678 | 1900-01-01, 1970-01-01 and 2000-01-01 are days 693595, 719162 and 730119 after 0001-01-01, which makes 730118 the right offset. |
| Payloads.CodepageOrDefault | src/value-parser.ts:485-488 | A missing codepage becomes utf8. |
| Payloads.ReadUniqueIdentifier | src/value-parser.ts:353-357 | A GUID is exactly the next 16 bytes, with the letter case chosen by the options. |
| Payloads.ReadBinary | src/value-parser.ts:481-483 | Binary data is exactly the next n bytes. A negative n fails. |
| Payloads.ReadChars | src/value-parser.ts:485-493 | Narrow text is exactly the next n bytes, in the codepage or utf8. |
| Payloads.ReadNChars | src/value-parser.ts:495-499 | UTF-16 text is exactly the next n bytes. |
| Payloads.ReadMaxBinary | src/value-parser.ts:501-503 | A MAX binary is the PLP body itself, or null. |
| Payloads.ReadMaxChars | src/value-parser.ts:505-517 | A MAX narrow text is the PLP body in the codepage, or null. |
| Payloads.ReadMaxNChars | src/value-parser.ts:519-527 | A MAX UTF-16 text is the PLP body, or null. |
| Plp.NullMarkerValue | src/value-parser.ts:13 | The null header, read as a total, is 2^64 - 1. |
| Plp.UnknownMarkerValue | src/value-parser.ts:14 | The unknown-length header, read as a total, is 2^64 - 2. |
| Plp.ClassifyHeader | src/value-parser.ts:529-547 | A header is null exactly when it is PLP_NULL and unknown-length exactly when it is UNKNOWN_PLP_LEN. Any other header is the little-endian total, with its low and high words combined. The total carries the corrected flag, set exactly when it is 2^53 or more. The source's own test on the high word holds exactly when the total is 2^54 or more. |
| Plp.ReadChunks | src/value-parser.ts:577-599 | With an unknown total, the value is the chunks up to and including the zero-length terminator. The data is never longer than the bytes consumed. |
| Plp.ReadMaxKnownLength | src/value-parser.ts:549-575 | A known total succeeds exactly when the chunks hold that many bytes, and otherwise fails with the two lengths. |
| Plp.ReadPlpBody | src/value-parser.ts:529-547 | The result is null exactly for the null header, which reads nothing more. A known total yields exactly that many bytes. |
| Plp.ReadMax | src/value-parser.ts:529-547 | A PLP value consumes at least its 8-byte header, and a null consumes exactly that. |
| Plp.FlattenLength | src/value-parser.ts:595-598 | The reassembled data is as long as the chunk lengths add up to. |
| Plp.ReadChunksRoundTrip | src/value-parser.ts:577-599 | Encoded chunks read back as their in-order concatenation, consuming the whole encoding. |
| Plp.ReadMaxNull | src/value-parser.ts:529-533 | The all-0xFF header is null after exactly 8 bytes. |
| Plp.ReadMaxUnknownRoundTrip | src/value-parser.ts:529-599 | The FE FF..FF header followed by chunks yields their concatenation. |
| Plp.ReadMaxKnownRoundTrip | src/value-parser.ts:529-575 | Any other header followed by chunks yields their concatenation when the chunk lengths add up to its total, and a length mismatch otherwise. |
| Plp.KnownTotalHeader | src/value-parser.ts:535-545 | Every total below the two markers has an 8-byte header that announces exactly it. |
| Plp.WarnsAsWrittenIff | src/value-parser.ts:539-541 | The diagnostic as written fires exactly for totals of 2^54 or more. |
| Plp.ExceedsExactRangeIff | src/value-parser.ts:539-541 | The corrected diagnostic fires exactly for totals of 2^53 or more. |
| Plp.WarnsAsWrittenMisses54BitTotal | src/value-parser.ts:539-541 | The diagnostic as written stays silent for the total 2^53 + 1. |
| Variant.ReadVariant | src/value-parser.ts:382-479 | A variant consumes at least its tag and property count, and it decodes only when its tag is registered. |
| Variant.TagDecides | src/value-parser.ts:382-479 | An unregistered tag fails with that tag. A registered type outside the supported base types fails with that type. Success implies both checks passed. |
| Variant.NumericVariant | src/value-parser.ts:450-456 | Precision, then scale, precede the magnitude. The wire scale replaces the column's, and the magnitude fills length - propBytes - 2 bytes. |
| Variant.BinaryVariant | src/value-parser.ts:444-448 | The 2-byte maximum length is skipped, and the remaining length is the data. |
| Variant.BinaryVariantOverrun | src/value-parser.ts:386-448 | When the property count overruns the declared length, the negative remainder is the error. |
| Variant.CharsVariant | src/value-parser.ts:458-464 | The maximum length is skipped, and the 5-byte collation picks the data's codepage. |
| Variant.NCharsVariant | src/value-parser.ts:466-472 | Same header as narrow text, but the collation does not affect the value. |
| Variant.TemporalVariant | src/value-parser.ts:429-442 | Time, datetime2 and datetimeoffset variants read their own scale byte and use the remaining length as the payload width. |
| ValueParser.ReadShortLength | src/value-parser.ts:163-204 | 0xFFFF is the null marker, and any other 2-byte length is a payload length below 0xFFFF. |
| ValueParser.ReadLegacyHeader | src/value-parser.ts:206-249 | A zero pointer length is null after one byte. Otherwise the pointer and 8 timestamp bytes are skipped and the 4-byte length after them is read. |
| ValueParser.ColumnKind | src/value-parser.ts:163-337 | Only char, varchar and text need a collation, and only they fail without one. Their payload is text in the collation's codepage. Nvarchar, nchar, ntext and xml are UCS-2 text. Binary, varbinary, image and UDT are raw bytes. |
| ValueParser.ReadPayload | src/value-parser.ts:481-499 | A payload is exactly the next n bytes, interpreted by the column's kind. |
| ValueParser.ReadMaxPayload | src/value-parser.ts:501-527 | A PLP column is null or the PLP body interpreted by kind, consuming what the PLP engine consumes. |
| ValueParser.ValueParse | src/value-parser.ts:63-351 | The null type reads nothing. Every other type consumes at least one byte and never reads past the end. An unrecognised type is an error. |
| ValueParserProperties.WidthTagNull | src/value-parser.ts:82-161 | Width tag 0 is null after one byte. |
| ValueParserProperties.WidthTagRejected | src/value-parser.ts:82-161 | A nonzero tag outside the family's widths fails with that tag. The families are IntN {1,2,4,8}, FloatN/MoneyN/DateTimeN {4,8}, BitN {1} and UniqueIdentifier {16}. |
| ValueParserProperties.WidthTagIsFixedType | src/value-parser.ts:82-161 | IntN/FloatN/MoneyN/BitN/DateTimeN with a permitted tag n decodes exactly as the fixed type of width n does at the next byte. |
| ValueParserProperties.WidthTagConsumesWidth | src/value-parser.ts:82-161 | A permitted tag n succeeds exactly when 1 + n bytes are there, and it consumes exactly 1 + n. |
| ValueParserProperties.GuidTag | src/value-parser.ts:322-334 | Tag 16 followed by 16 bytes is that GUID, after 17 bytes. |
| ValueParserProperties.ShortLengthNull | src/value-parser.ts:163-204 | A non-MAX char, nchar or binary column with length 0xFFFF is null after 2 bytes. |
| ValueParserProperties.ShortLengthPayload | src/value-parser.ts:163-204 | Any other 2-byte length n is followed by exactly the payload, and 2 + n bytes are consumed. |
| ValueParserProperties.NarrowTextNeedsCollation | src/value-parser.ts:163-221 | Char and varchar without a collation fail before reading. Text without one is still null for a zero pointer, and fails only after a non-null header. |
| ValueParserProperties.TextPointerNull | src/value-parser.ts:206-249 | A text, ntext or image column with pointer length 0 is null after 1 byte. |
| ValueParserProperties.TextPointerPayload | src/value-parser.ts:206-249 | Otherwise the pointer and timestamp are skipped, whatever they hold. The 4-byte length n is followed by the payload, consuming 13 + pointer + n bytes. |
| ValueParserProperties.PlpColumnNull | src/value-parser.ts:163-204 | A MAX column, xml or UDT with the all-0xFF header is null after 8 bytes. |
| ValueParserProperties.PlpColumnUnknownLength | src/value-parser.ts:163-204 | The unknown-length header followed by chunks is their concatenation, interpreted by the column's kind. |
| ValueParserProperties.PlpColumnKnownLength | src/value-parser.ts:163-204 | A known total is the concatenation exactly when the chunk lengths add up to it, and a length mismatch otherwise. |
| ValueParserProperties.LengthTagNull | src/value-parser.ts:276-320 | Length 0 is null after 1 byte for time, date, datetime2, datetimeoffset, numeric and decimal. |
| ValueParserProperties.NumericColumn | src/value-parser.ts:312-320 | A supported length followed by the sign and magnitude reads back as that value, in the column's scale. |
| ValueParserProperties.NumericColumnBadLength | src/value-parser.ts:312-320 | Any other nonzero length fails with that length. |
| ValueParserProperties.TimeColumn | src/value-parser.ts:276-283 | Length 3..5 followed by ticks is the scaled tick count, split into milliseconds and remainder. |
| ValueParserProperties.TimeColumnBadLength | src/value-parser.ts:276-283 | Any other nonzero length fails. |
| ValueParserProperties.DateColumn | src/value-parser.ts:285-292 | Any nonzero length byte is followed by a 3-byte date whose day is the wire's day number, after 4 bytes. |
| ValueParserProperties.LengthTaggedTemporal | src/value-parser.ts:294-310 | For datetime2 and datetimeoffset, the length byte is the width given to their readers, with the column's scale. |
| ValueParserProperties.VariantColumnNull | src/value-parser.ts:339-346 | A variant with total length 0 is null after 4 bytes. |
| ValueParserProperties.VariantColumn | src/value-parser.ts:339-346 | Any other total length frames exactly one variant after the 4 bytes. |
| ValueParserProperties.VariantScalar | src/value-parser.ts:382-428 | A variant whose base type is a fixed-width type, GUID or date decodes exactly as the fixed-width reader, the bare 16-byte GUID reader or the bare 3-byte date reader at the position after the 2 header bytes, with no width tag or length byte in between, so an Int variant is a plain Int. |

## Left out

- IEEE-754 floats (real, float, and FloatN widths 4 and 8) are kept as their raw 4 or 8 bytes. They are not converted to numbers.
- JavaScript number arithmetic is not modelled. Money is an exact count of ten-thousandths and numeric an exact sign, magnitude and scale, so the source's division by 10000, its `Math.pow(10, scale)`, and the precision lost above 2^53 in `low + 2^32 * high` do not arise.
- Character decoding (`iconv.decode`, `toString('ucs2')`) is not modelled. Text is its bytes, tagged with the codepage or UTF-16.
- GUID formatting (`bufferToLowerCaseGuid`, `bufferToUpperCaseGuid`) is not modelled. A GUID is its 16 bytes plus the requested letter case. The guid-parser module is not part of this model.
- The `TYPE` registry and `readCollation` are parameters (`DataType.Context`), because their modules are not part of this model.
- `Date` construction and local time are not modelled. An instant is the argument list the source passes to `Date.UTC` or `new Date`: year, day of January, milliseconds, and a UTC flag. The civil-calendar normalisation and time zones are left out. The local-time datetime2 path rebuilds the time with `getHours()` .. `getMilliseconds()`, and the model treats that as the same milliseconds. A time of 24 hours or more therefore loses its whole days on that path in the source. That happens with a 5-byte time at scale 7 or with a low scale. The UTC path (src/value-parser.ts:685) keeps those days, and so does the model on both paths.
- The `nanosecondsDelta` property of time values is kept as the remainder in 100 ns ticks, `scaled % 10000`. The division by 10^7 into a fraction of a second is not modelled.
- The `console.warn` precision diagnostic only writes to the console, so the model writes nothing. A known PLP total carries the corrected flag, set from 2^53 (`Plp.ExceedsExactRange`). `Plp.ClassifyHeader` also states when the source's test on the high word fires: from 2^54 (`Plp.WarnsAsWritten`, see Findings).
- Plp.ReadMaxKnownLength: the source allocates the whole buffer with `Buffer.alloc(totalLength, 0)` (src/value-parser.ts:550) before it reads any chunk. A total beyond Node's buffer limit therefore fails at once with a `RangeError`. The model has no allocation limit: it reads the chunks and then reports `PlpLengthMismatch`.
- The suspending stream reader (`./token/stream-parser`) is replaced by a finite byte sequence. Waiting for more bytes becomes a `Truncated`-style failure.
- Error message texts are not modelled. Each throw is a distinct `Error` constructor carrying the offending value. For example, the GUID size message prints `dataLength - 1`, and the model keeps the tag itself.
- Wire day 730119 decodes to 2000-01-01, because the code computes `Date.UTC(2000, 0, 730119 - 730118)` (`Temporal.DateExamples`).
- A time whose width is not 3, 4 or 5 calls an undefined reader in the source, which is a `TypeError`. The model makes it the failure `UnsupportedTimeLength`.
- A variant whose properties overrun its declared length passes a negative length to `readBuffer`. The model makes it the failure `NegativeLength`.
- Datetime2 and datetimeoffset columns are stated through `LengthTaggedTemporal` plus the readers' round-trip lemmas (`Temporal.DateTime2RoundTrip`, `Temporal.DateTimeOffsetRoundTrip`). There is no single lemma from column bytes to instant.

## Findings

| source | as written | input that shows it | evidently intended | confidence | as-written member | corrected member |
|---|---|---|---|---|---|---|
| src/value-parser.ts:539-541 | The precision warning tests `high >= (2 << (53 - 32))`, which is high >= 2^22, so it warns only for totals of 2^54 or more. | A PLP total of 2^53 + 1 (low 1, high 2^21) is past the exact range of a JavaScript number, yet no warning is given. | Warn for totals above 53 bits, that is high >= 2^21 (`1 << 21`). | not executed | Plp.WarnsAsWrittenMisses54BitTotal | Plp.ExceedsExactRangeIff |
