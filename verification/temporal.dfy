/** Date and time decoders (section 2.2.5.5.1.8 of MS-TDS; value-parser.ts
    readSmallDateTime .. readDateTimeOffset). Each produces the arguments the
    source passes to the civil calendar: a year, a day of January, a count of
    milliseconds, and for the types with sub-millisecond precision the
    remainder in 100 ns ticks. */
module Temporal {
  import opened Wrappers
  import opened Bytes
  import opened Values
  import opened Cursor
  import Calendar

  /** 100 ns ticks per millisecond. */
  const TICKS_PER_MILLI: nat := 10000

  /** The wire day count (days since 0001-01-01) that the source subtracts to
      obtain a day of January 2000. */
  const DATE_OFFSET: nat := 730118

  /** Milliseconds for a count of 1/300 s ticks: ticks * 10/3 rounded to the
      nearest integer. A third is never exactly half way, so rounding mode
      does not matter. */
  function ThreeHundredthsToMillis(ticks: nat): (ms: nat)
    ensures -1 <= 3 * ms - 10 * ticks <= 1
  {
    (10 * ticks + 1) / 3
  }

  /** The nearest millisecond is the only one within a third of a
      millisecond of the exact time. */
  lemma ThreeHundredthsRoundingIsUnique(ticks: nat, ms: int)
    requires -1 <= 3 * ms - 10 * ticks <= 1
    ensures ms == ThreeHundredthsToMillis(ticks)
  {
  }

  /** Small datetime: unsigned days since 1900-01-01, then minutes. */
  function ReadSmallDateTime(s: seq<byte>, pos: nat, useUTC: bool): (r: Decoded<Value>)
    ensures r.Success? <==> pos + 4 <= |s|
    ensures r.Success? ==> r.value.1 == pos + 4
    ensures r.Success? ==> r.value.0.Instant? && r.value.0.utc == useUTC && r.value.0.year == 1900
    ensures r.Success? ==> 1 <= r.value.0.januaryDay <= 0x1_0000
    ensures r.Success? ==> r.value.0.januaryDay == 1 + LittleEndian(s[pos..pos + 2])
    ensures r.Success? ==> r.value.0.millis == 60000 * LittleEndian(s[pos + 2..pos + 4])
    ensures r.Success? ==> r.value.0.millis % 60000 == 0 && r.value.0.subMillis.None?
  {
    var days :- ReadUnsigned(s, pos, 2);
    var minutes :- ReadUnsigned(s, days.1, 2);
    Success((Instant(useUTC, 1900, 1 + days.0, minutes.0 * 60000, None), minutes.1))
  }

  /** Datetime: signed days since 1900-01-01, then 1/300 s ticks rounded to
      milliseconds. */
  function ReadDateTime(s: seq<byte>, pos: nat, useUTC: bool): (r: Decoded<Value>)
    ensures r.Success? <==> pos + 8 <= |s|
    ensures r.Success? ==> r.value.1 == pos + 8
    ensures r.Success? ==> r.value.0.Instant? && r.value.0.utc == useUTC && r.value.0.year == 1900
    ensures r.Success? ==> -0x8000_0000 < r.value.0.januaryDay <= 0x8000_0000
    ensures r.Success? ==>
      var ticks := LittleEndian(s[pos + 4..pos + 8]);
      -1 <= 3 * r.value.0.millis - 10 * ticks <= 1 && r.value.0.subMillis.None?
  {
    var days :- ReadSigned(s, pos, 4);
    var ticks :- ReadUnsigned(s, days.1, 4);
    assert SignBit(4) == 0x8000_0000;
    Success((Instant(useUTC, 1900, 1 + days.0, ThreeHundredthsToMillis(ticks.0), None), ticks.1))
  }

  /** The tick count of a time field scaled up to seven fractional digits:
      one factor of ten for each digit the declared scale falls short of
      seven. */
  function ScaleTicks(ticks: nat, scale: nat): nat
    decreases 7 - scale
  {
    if scale < 7 then ScaleTicks(ticks * 10, scale + 1) else ticks
  }

  /** Scaling multiplies by 10^(7 - scale), and leaves the ticks alone at a
      scale of seven or more. */
  lemma {:induction false} ScaleTicksIsPowerOfTen(ticks: nat, scale: nat)
    ensures scale < 7 ==> ScaleTicks(ticks, scale) == ticks * Pow10(7 - scale)
    ensures scale >= 7 ==> ScaleTicks(ticks, scale) == ticks
    decreases 7 - scale
  {
    if scale < 7 {
      ScaleTicksIsPowerOfTen(ticks * 10, scale + 1);
      assert Pow10(7 - scale) == 10 * Pow10(7 - (scale + 1));
    }
  }

  /** A time field: 3, 4 or 5 bytes of ticks at the declared scale; any
      other width fails before a byte is read. */
  function ReadTimeTicks(s: seq<byte>, pos: nat, dataLength: int, scale: nat): (r: Decoded<nat>)
    ensures r.Success? <==> 3 <= dataLength <= 5 && pos + dataLength <= |s|
    ensures !(3 <= dataLength <= 5) ==> r == Failure(UnsupportedTimeLength(dataLength))
    ensures r.Success? ==> r.value.1 == pos + dataLength
    ensures r.Success? ==> r.value.0 == ScaleTicks(LittleEndian(s[pos..pos + dataLength]), scale)
  {
    if !(3 <= dataLength <= 5) then Failure(UnsupportedTimeLength(dataLength))
    else
      var ticks :- ReadUnsigned(s, pos, dataLength);
      Success((ScaleTicks(ticks.0, scale), ticks.1))
  }

  /** A time of day on 1970-01-01: whole milliseconds plus the
      sub-millisecond remainder, together exactly the scaled tick count. */
  function ReadTime(s: seq<byte>, pos: nat, dataLength: int, scale: nat, useUTC: bool): (r: Decoded<Value>)
    ensures r.Success? <==> ReadTimeTicks(s, pos, dataLength, scale).Success?
    ensures r.Success? ==> r.value.1 == pos + dataLength
    ensures r.Success? ==> r.value.0.Instant? && r.value.0.utc == useUTC
    ensures r.Success? ==> r.value.0.year == 1970 && r.value.0.januaryDay == 1
    ensures r.Success? ==> r.value.0.subMillis.Some? && 0 <= r.value.0.millis
    ensures r.Success? ==> r.value.0.subMillis.value < TICKS_PER_MILLI
    ensures r.Success? ==>
      r.value.0.millis * TICKS_PER_MILLI + r.value.0.subMillis.value
        == ReadTimeTicks(s, pos, dataLength, scale).value.0
  {
    var ticks :- ReadTimeTicks(s, pos, dataLength, scale);
    Success((Instant(useUTC, 1970, 1, ticks.0 / TICKS_PER_MILLI, Some(ticks.0 % TICKS_PER_MILLI)), ticks.1))
  }

  /** Date: a 3-byte day count since 0001-01-01, turned into a day of
      January 2000. */
  function ReadDate(s: seq<byte>, pos: nat, useUTC: bool): (r: Decoded<Value>)
    ensures r.Success? <==> pos + 3 <= |s|
    ensures r.Success? ==> r.value.1 == pos + 3
    ensures r.Success? ==> r.value.0.Instant? && r.value.0.utc == useUTC && r.value.0.year == 2000
    ensures r.Success? ==> r.value.0.januaryDay == LittleEndian(s[pos..pos + 3]) - DATE_OFFSET
    ensures r.Success? ==> r.value.0.millis == 0 && r.value.0.subMillis.None?
  {
    var days :- ReadUnsigned(s, pos, 3);
    Success((Instant(useUTC, 2000, days.0 - DATE_OFFSET, 0, None), days.1))
  }

  /** Datetime2: a time field of `dataLength - 3` bytes, then a date. */
  function ReadDateTime2(s: seq<byte>, pos: nat, dataLength: int, scale: nat, useUTC: bool): (r: Decoded<Value>)
    ensures r.Success? <==> 6 <= dataLength <= 8 && pos + dataLength <= |s|
    ensures r.Success? ==> r.value.1 == pos + dataLength
    ensures r.Success? ==>
      var time := ReadTime(s, pos, dataLength - 3, scale, useUTC).value.0;
      r.value.0 == Instant(useUTC, 2000, LittleEndian(s[pos + dataLength - 3..pos + dataLength]) - DATE_OFFSET,
                           time.millis, time.subMillis)
  {
    var time :- ReadTime(s, pos, dataLength - 3, scale, useUTC);
    var days :- ReadUnsigned(s, time.1, 3);
    Success((Instant(useUTC, 2000, days.0 - DATE_OFFSET, time.0.millis, time.0.subMillis), days.1))
  }

  /** Datetimeoffset: a time field of `dataLength - 5` bytes, a date and a
      signed minute offset. The time and date are read exactly as a UTC
      datetime2 of `dataLength - 2` bytes. The offset is consumed but not
      applied: the result is always the UTC instant. */
  function ReadDateTimeOffset(s: seq<byte>, pos: nat, dataLength: int, scale: nat): (r: Decoded<Value>)
    ensures r.Success? <==> 8 <= dataLength <= 10 && pos + dataLength <= |s|
    ensures r.Success? ==> r.value.1 == pos + dataLength
    ensures r.Success? ==>
      var time := ReadTime(s, pos, dataLength - 5, scale, true).value.0;
      r.value.0 == Instant(true, 2000, LittleEndian(s[pos + dataLength - 5..pos + dataLength - 2]) - DATE_OFFSET,
                           time.millis, time.subMillis)
  {
    var utc :- ReadDateTime2(s, pos, dataLength - 2, scale, true);
    var offset :- ReadSigned(s, utc.1, 2);
    Success((utc.0, offset.1))
  }

  // Partners: the calendar meaning of the day fields, and round trips.

  /** The calendar day of a decoded instant, counted from 0001-01-01. */
  function InstantDayNumber(v: Value): int
    requires v.Instant? && v.year >= 1
  {
    Calendar.DayNumber(v.year, v.januaryDay)
  }

  /** A decoded date falls on exactly the day the wire counts from
      0001-01-01: the constant 730118 is right for a January-2000 base. */
  lemma DateIsWireDayNumber(s: seq<byte>, pos: nat, useUTC: bool)
    requires pos + 3 <= |s|
    ensures InstantDayNumber(ReadDate(s, pos, useUTC).value.0) == LittleEndian(s[pos..pos + 3])
  {
    Calendar.EpochDays();
  }

  /** The dates of datetime2 and datetimeoffset are counted the same way. */
  lemma DateTime2AndOffsetDaysAreWireDayNumbers(s: seq<byte>, pos: nat, dataLength: int, scale: nat, useUTC: bool)
    ensures ReadDateTime2(s, pos, dataLength, scale, useUTC).Success? ==>
      InstantDayNumber(ReadDateTime2(s, pos, dataLength, scale, useUTC).value.0)
        == LittleEndian(s[pos + dataLength - 3..pos + dataLength])
    ensures ReadDateTimeOffset(s, pos, dataLength, scale).Success? ==>
      InstantDayNumber(ReadDateTimeOffset(s, pos, dataLength, scale).value.0)
        == LittleEndian(s[pos + dataLength - 5..pos + dataLength - 2])
  {
    Calendar.EpochDays();
  }

  /** Small datetime and datetime count their days from 1900-01-01. */
  lemma DaysCountFrom1900(s: seq<byte>, pos: nat, useUTC: bool)
    ensures ReadSmallDateTime(s, pos, useUTC).Success? ==>
      InstantDayNumber(ReadSmallDateTime(s, pos, useUTC).value.0)
        == Calendar.DaysBeforeYear(1900) + LittleEndian(s[pos..pos + 2])
    ensures ReadDateTime(s, pos, useUTC).Success? ==>
      InstantDayNumber(ReadDateTime(s, pos, useUTC).value.0)
        == Calendar.DaysBeforeYear(1900) + ToSigned(LittleEndian(s[pos..pos + 4]), 4)
  {
  }

  /** A time of day reads back as the tick count it encodes, scaled to seven
      digits and split into milliseconds and remainder. */
  lemma TimeRoundTrip(s: seq<byte>, pos: nat, ticks: nat, dataLength: nat, scale: nat, useUTC: bool)
    requires 3 <= dataLength <= 5 && ticks < Pow256(dataLength)
    requires At(s, pos, EncodeLittleEndian(ticks, dataLength))
    ensures var scaled := ScaleTicks(ticks, scale);
      ReadTime(s, pos, dataLength, scale, useUTC)
        == Success((Instant(useUTC, 1970, 1, scaled / TICKS_PER_MILLI, Some(scaled % TICKS_PER_MILLI)),
                    pos + dataLength))
  {
    ReadUnsignedAt(s, pos, ticks, dataLength);
  }

  /** Datetime2 on the wire: the time field, then the 3-byte day count; the
      result is that day of the Date epoch at the time of day the time field
      alone decodes to. */
  lemma DateTime2RoundTrip(s: seq<byte>, pos: nat, ticks: nat, days: nat, timeLength: nat, scale: nat, useUTC: bool)
    requires 3 <= timeLength <= 5 && ticks < Pow256(timeLength) && days < Pow256(3)
    requires At(s, pos, EncodeLittleEndian(ticks, timeLength))
    requires At(s, pos + timeLength, EncodeLittleEndian(days, 3))
    ensures var scaled := ScaleTicks(ticks, scale);
      ReadDateTime2(s, pos, timeLength + 3, scale, useUTC)
        == Success((Instant(useUTC, 2000, days - DATE_OFFSET, scaled / TICKS_PER_MILLI,
                            Some(scaled % TICKS_PER_MILLI)), pos + timeLength + 3))
  {
    var scaled := ScaleTicks(ticks, scale);
    var time := Instant(useUTC, 1970, 1, scaled / TICKS_PER_MILLI, Some(scaled % TICKS_PER_MILLI));
    TimeRoundTrip(s, pos, ticks, timeLength, scale, useUTC);
    DayCountAt(s, pos + timeLength, days);
    DateTime2OfFields(s, pos, timeLength, scale, useUTC, time, days);
  }

  /** A 3-byte day count reads back as itself. */
  lemma DayCountAt(s: seq<byte>, pos: nat, days: nat)
    requires days < Pow256(3)
    requires At(s, pos, EncodeLittleEndian(days, 3))
    ensures ReadUnsigned(s, pos, 3) == Success((days, pos + 3))
  {
    ReadUnsignedAt(s, pos, days, 3);
  }

  /** Datetime2 is its time field followed by its date field. */
  lemma DateTime2OfFields(s: seq<byte>, pos: nat, timeLength: nat, scale: nat, useUTC: bool, time: Value, days: nat)
    requires time.Instant?
    requires ReadTime(s, pos, timeLength, scale, useUTC) == Success((time, pos + timeLength))
    requires ReadUnsigned(s, pos + timeLength, 3) == Success((days, pos + timeLength + 3))
    ensures ReadDateTime2(s, pos, timeLength + 3, scale, useUTC)
      == Success((Instant(useUTC, 2000, days - DATE_OFFSET, time.millis, time.subMillis), pos + timeLength + 3))
  {
  }

  /** Datetimeoffset on the wire: the time field, the day count and any two
      offset bytes; whatever the offset, the result is the same UTC
      instant. */
  lemma DateTimeOffsetRoundTrip(s: seq<byte>, pos: nat, ticks: nat, days: nat, offset: seq<byte>,
                                timeLength: nat, scale: nat)
    requires 3 <= timeLength <= 5 && ticks < Pow256(timeLength) && days < Pow256(3) && |offset| == 2
    requires At(s, pos, EncodeLittleEndian(ticks, timeLength))
    requires At(s, pos + timeLength, EncodeLittleEndian(days, 3))
    requires At(s, pos + timeLength + 3, offset)
    ensures var scaled := ScaleTicks(ticks, scale);
      ReadDateTimeOffset(s, pos, timeLength + 5, scale)
        == Success((Instant(true, 2000, days - DATE_OFFSET, scaled / TICKS_PER_MILLI,
                            Some(scaled % TICKS_PER_MILLI)), pos + timeLength + 5))
  {
    DateTime2RoundTrip(s, pos, ticks, days, timeLength, scale, true);
    OffsetExtendsDateTime2(s, pos, timeLength, scale);
  }

  /** Behind a datetime2 of `timeLength + 3` bytes, two more bytes make a
      datetimeoffset of `timeLength + 5` bytes with the same instant. */
  lemma OffsetExtendsDateTime2(s: seq<byte>, pos: nat, timeLength: nat, scale: nat)
    requires ReadDateTime2(s, pos, timeLength + 3, scale, true).Success?
    requires pos + timeLength + 5 <= |s|
    ensures ReadDateTimeOffset(s, pos, timeLength + 5, scale)
      == Success((ReadDateTime2(s, pos, timeLength + 3, scale, true).value.0, pos + timeLength + 5))
  {
  }

  /** Time at scale 7 with the 5-byte tick count 36610000000 is 01:01:01
      exactly, with no sub-millisecond remainder; one more tick keeps the
      same milliseconds and carries the tick as the remainder. */
  lemma TimeExamples()
    ensures ReadTime([0x80, 0x44, 0x20, 0x86, 0x08], 0, 5, 7, true)
         == Success((Instant(true, 1970, 1, 3661000, Some(0)), 5))
    ensures ReadTime([0x81, 0x44, 0x20, 0x86, 0x08], 0, 5, 7, true)
         == Success((Instant(true, 1970, 1, 3661000, Some(1)), 5))
  {
    var s: seq<byte>, t: seq<byte> := [0x80, 0x44, 0x20, 0x86, 0x08], [0x81, 0x44, 0x20, 0x86, 0x08];
    assert LittleEndian(s) == 36610000000;
    assert LittleEndian(t) == 36610000001;
    assert s[0..5] == s && t[0..5] == t;
  }

  /** Date 730119 is 2000-01-01; datetime day -1 at tick 0 is midnight of
      1899-12-31, the last day of the year before 1900. */
  lemma DateExamples()
    ensures ReadDate([0x07, 0x24, 0x0B], 0, true) == Success((Instant(true, 2000, 1, 0, None), 3))
    ensures ReadDateTime([0xFF, 0xFF, 0xFF, 0xFF, 0, 0, 0, 0], 0, true)
         == Success((Instant(true, 1900, 0, 0, None), 8))
    ensures InstantDayNumber(ReadDateTime([0xFF, 0xFF, 0xFF, 0xFF, 0, 0, 0, 0], 0, true).value.0)
         == Calendar.DaysBeforeYear(1899) + Calendar.YearLength(1899) - 1
  {
    var s: seq<byte>, t: seq<byte> := [0x07, 0x24, 0x0B], [0xFF, 0xFF, 0xFF, 0xFF, 0, 0, 0, 0];
    assert s[0..3] == s;
    assert t[0..4] == [0xFF, 0xFF, 0xFF, 0xFF] && t[4..8] == [0, 0, 0, 0];
  }

  /** A small datetime reads back as the day and minute counts it encodes:
      that many days past 1900-01-01, at that many whole minutes. */
  lemma SmallDateTimeRoundTrip(s: seq<byte>, pos: nat, days: nat, minutes: nat, useUTC: bool)
    requires days < 0x1_0000 && minutes < 0x1_0000
    requires At(s, pos, EncodeLittleEndian(days, 2))
    requires At(s, pos + 2, EncodeLittleEndian(minutes, 2))
    ensures ReadSmallDateTime(s, pos, useUTC)
      == Success((Instant(useUTC, 1900, 1 + days, 60000 * minutes, None), pos + 4))
  {
    assert Pow256(2) == 0x1_0000;
    ReadUnsignedAt(s, pos, days, 2);
    ReadUnsignedAt(s, pos + 2, minutes, 2);
  }
}
