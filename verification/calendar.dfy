/** The proleptic Gregorian calendar, as a reference for the day counts the
    temporal decoders produce. Day 0 is 0001-01-01, the origin MS-TDS uses
    for date, datetime2 and datetimeoffset. */
module Calendar {

  predicate IsLeapYear(year: int) {
    year % 4 == 0 && (year % 100 != 0 || year % 400 == 0)
  }

  function YearLength(year: int): nat {
    if IsLeapYear(year) then 366 else 365
  }

  /** Days from 0001-01-01 to January 1st of `year`, year by year. */
  function DaysBeforeYear(year: nat): nat
    requires year >= 1
  {
    if year == 1 then 0 else DaysBeforeYear(year - 1) + YearLength(year - 1)
  }

  /** The same count in closed form: 365 days a year plus the leap days. */
  lemma {:induction false} DaysBeforeYearClosedForm(year: nat)
    requires year >= 1
    ensures DaysBeforeYear(year)
         == 365 * (year - 1) + (year - 1) / 4 - (year - 1) / 100 + (year - 1) / 400
  {
    if year > 1 {
      DaysBeforeYearClosedForm(year - 1);
      var y := year - 1;
      LeapDays(y);
      MultiplesUpTo(y, 4);
      MultiplesUpTo(y, 100);
      MultiplesUpTo(y, 400);
    }
  }

  /** A year's length by the three rules: every fourth year leaps, except
      every hundredth, except every four-hundredth. */
  lemma LeapDays(y: nat)
    ensures YearLength(y) == 365 + (if y % 4 == 0 then 1 else 0)
      - (if y % 100 == 0 then 1 else 0) + (if y % 400 == 0 then 1 else 0)
  {
    if y % 400 == 0 {
      var k := y / 400;
      assert y == 4 * (100 * k) && y == 100 * (4 * k);
      assert y % 4 == 0 && y % 100 == 0;
    } else if y % 100 == 0 {
      var k := y / 100;
      assert y == 4 * (25 * k);
      assert y % 4 == 0;
    }
  }

  /** Counting the multiples of `d` up to `y`: one more than up to `y - 1`
      exactly when `y` is one. */
  lemma MultiplesUpTo(y: nat, d: nat)
    requires y >= 1 && (d == 4 || d == 100 || d == 400)
    ensures y / d - (y - 1) / d == (if y % d == 0 then 1 else 0)
  {
    if d == 4 {
      assert y / 4 - (y - 1) / 4 == (if y % 4 == 0 then 1 else 0);
    } else if d == 100 {
      assert y / 100 - (y - 1) / 100 == (if y % 100 == 0 then 1 else 0);
    } else {
      assert y / 400 - (y - 1) / 400 == (if y % 400 == 0 then 1 else 0);
    }
  }

  /** Day numbers of the three epochs the decoders build on. */
  lemma EpochDays()
    ensures DaysBeforeYear(1900) == 693595
    ensures DaysBeforeYear(1970) == 719162
    ensures DaysBeforeYear(2000) == 730119
  {
    ClosedFormAt(1900, 693595);
    ClosedFormAt(1970, 719162);
    ClosedFormAt(2000, 730119);
  }

  /** The closed form, instantiated at a year whose count is known. */
  lemma ClosedFormAt(year: nat, days: nat)
    requires year >= 1
    requires days == 365 * (year - 1) + (year - 1) / 4 - (year - 1) / 100 + (year - 1) / 400
    ensures DaysBeforeYear(year) == days
  {
    DaysBeforeYearClosedForm(year);
  }

  /** The day number of January `januaryDay` of `year`; day 1 is January 1st
      and later days run on into the following months and years, as the
      civil-calendar constructors the source calls do. */
  function DayNumber(year: nat, januaryDay: int): int
    requires year >= 1
  {
    DaysBeforeYear(year) + januaryDay - 1
  }
}
