/**
 * Days since 1970-01-01 and proleptic Gregorian calendar dates, the
 * conversion Go's time package performs whenever a time is formatted or
 * built with `time.Date`.
 *
 * The conversion counts from 0000-03-01, so that the leap day is the last
 * day of its year. It splits a day count into 400-year eras (146097 days),
 * centuries (36524 days, the last of an era 36525), 4-year blocks (1461 days,
 * the last of a century 1460 except in the era's last century) and years.
 */
module Civil {

  datatype Date = Date(year: int, month: int, day: int)

  const DaysPerEra := 146097
  /** Days from 0000-03-01 to 1970-01-01. */
  const EpochShift := 719468

  /** Days from the start of an era to the start of its year `yoe`, years counted from March. */
  function YearStart(yoe: int): int
    requires 0 <= yoe <= 400
  {
    365 * yoe + yoe / 4 - yoe / 100 + yoe / 400
  }

  /** March-based year `yoe` of an era holds a leap day (its February is that of civil year `yoe + 1`). */
  predicate MarchYearIsLeap(yoe: int) {
    (yoe + 1) % 4 == 0 && ((yoe + 1) % 100 != 0 || (yoe + 1) % 400 == 0)
  }

  /** Splits a day of an era into its year and the day within that year. */
  function YearOfEra(doe: int): (r: (int, int))
    requires 0 <= doe < DaysPerEra
    ensures 0 <= r.0 < 400 && 0 <= r.1 <= 365
    ensures YearStart(r.0) + r.1 == doe
    ensures r.1 == 365 ==> MarchYearIsLeap(r.0)
  {
    var c := if doe / 36524 < 3 then doe / 36524 else 3;
    var doc := doe - 36524 * c;
    var b := doc / 1461;
    var dob := doc % 1461;
    var yb := if dob / 365 < 3 then dob / 365 else 3;
    var yoe := 100 * c + 4 * b + yb;
    assert 0 <= b <= 24;
    YearParts(c, b, yb);
    assert dob - 365 * yb == 365 ==> MarchYearIsLeap(yoe) by {
      if dob - 365 * yb == 365 {
        assert yb == 3 && (b < 24 || c == 3);
        LastYearOfBlock(c, b);
      }
    }
    (yoe, dob - 365 * yb)
  }

  /** Where year `yb` of block `b` of century `c` starts within its era. */
  lemma YearParts(c: int, b: int, yb: int)
    requires 0 <= c <= 3 && 0 <= b <= 24 && 0 <= yb <= 3
    ensures YearStart(100 * c + 4 * b + yb) == 36524 * c + 1461 * b + 365 * yb
  {
    var yoe := 100 * c + 4 * b + yb;
    assert yoe / 4 == 25 * c + b;
    assert yoe / 100 == c;
    assert yoe / 400 == 0;
  }

  /** The last year of a 4-year block holds a leap day, except in the last block of a century other than an era's last. */
  lemma LastYearOfBlock(c: int, b: int)
    requires 0 <= c <= 3 && 0 <= b <= 24 && (b < 24 || c == 3)
    ensures MarchYearIsLeap(100 * c + 4 * b + 3)
  {
    var y := 100 * c + 4 * b + 4;
    assert y % 4 == 0;
    if b < 24 {
      assert y % 100 == 4 * b + 4;
    } else {
      assert y == 400;
    }
  }

  /** The first day of March-based month `mp` (0 is March, 11 is February) within its year. */
  function MonthStart(mp: int): int {
    (153 * mp + 2) / 5
  }

  /** Converts a day count since 1970-01-01 to the calendar date. */
  function CivilFromDays(z: int): (d: Date)
    ensures 1 <= d.month <= 12 && 1 <= d.day <= 31
  {
    var era := (z + EpochShift) / DaysPerEra;
    var doe := (z + EpochShift) % DaysPerEra;
    var (yoe, doy) := YearOfEra(doe);
    var mp := (5 * doy + 2) / 153;
    assert 0 <= mp <= 11;
    assert MonthStart(mp) <= doy < MonthStart(mp) + 31 by { MonthOfDay(doy); }
    var day := doy - MonthStart(mp) + 1;
    var month := if mp < 10 then mp + 3 else mp - 9;
    Date(yoe + era * 400 + (if month <= 2 then 1 else 0), month, day)
  }

  /** Converts a calendar date to its day count since 1970-01-01 (days past a month's end carry over). */
  function DaysFromCivil(d: Date): int
  {
    var y := d.year - (if d.month <= 2 then 1 else 0);
    var era := y / 400;
    var yoe := y % 400;
    var mp := if d.month > 2 then d.month - 3 else d.month + 9;
    var doy := MonthStart(mp) + d.day - 1;
    era * DaysPerEra + YearStart(yoe) + doy - EpochShift
  }

  lemma MonthOfDay(doy: int)
    requires 0 <= doy <= 365
    ensures var mp := (5 * doy + 2) / 153; MonthStart(mp) <= doy < MonthStart(mp) + 31
  {
    var mp := (5 * doy + 2) / 153;
    assert 153 * mp <= 5 * doy + 2 < 153 * mp + 153;
  }

  lemma DivEra(yoe: int, era: int)
    requires 0 <= yoe < 400
    ensures (yoe + era * 400) / 400 == era && (yoe + era * 400) % 400 == yoe
  {
    var q, r := (yoe + era * 400) / 400, (yoe + era * 400) % 400;
    assert q * 400 + r == yoe + era * 400;
    assert (q - era) * 400 == yoe - r;
  }

  /** Converting a day count to a date and back gives the same day count. */
  lemma DaysFromCivilRoundTrip(z: int)
    ensures DaysFromCivil(CivilFromDays(z)) == z
  {
    var era := (z + EpochShift) / DaysPerEra;
    var doe := (z + EpochShift) % DaysPerEra;
    var (yoe, doy) := YearOfEra(doe);
    var mp := (5 * doy + 2) / 153;
    var d := CivilFromDays(z);
    assert d.month <= 2 <==> mp >= 10;
    var y := d.year - (if d.month <= 2 then 1 else 0);
    assert y == yoe + era * 400;
    DivEra(yoe, era);
    assert (if d.month > 2 then d.month - 3 else d.month + 9) == mp;
    assert era * DaysPerEra + doe == z + EpochShift;
  }

  /** Different day counts name different dates. */
  lemma CivilFromDaysInjective(z1: int, z2: int)
    requires CivilFromDays(z1) == CivilFromDays(z2)
    ensures z1 == z2
  {
    DaysFromCivilRoundTrip(z1);
    DaysFromCivilRoundTrip(z2);
  }

  /** A day past the end of a date is the next day count: `time.Date` normalises the day field. */
  lemma DaysFromCivilNextDay(d: Date)
    ensures DaysFromCivil(Date(d.year, d.month, d.day + 1)) == DaysFromCivil(d) + 1
  {
  }

  predicate IsLeapYear(y: int) {
    y % 4 == 0 && (y % 100 != 0 || y % 400 == 0)
  }

  function DaysInMonth(y: int, m: int): int
    requires 1 <= m <= 12
  {
    if m == 2 then (if IsLeapYear(y) then 29 else 28)
    else if m == 4 || m == 6 || m == 9 || m == 11 then 30
    else 31
  }

  predicate ValidDate(d: Date) {
    1 <= d.month <= 12 && 1 <= d.day <= DaysInMonth(d.year, d.month)
  }

  /** Every day count converts to a real date: the day fits its month, February 29 only in leap years. */
  lemma CivilFromDaysValid(z: int)
    ensures ValidDate(CivilFromDays(z))
  {
    var era := (z + EpochShift) / DaysPerEra;
    var doe := (z + EpochShift) % DaysPerEra;
    var (yoe, doy) := YearOfEra(doe);
    var mp := (5 * doy + 2) / 153;
    var d := CivilFromDays(z);
    MonthOfDayBounds(mp, doy);
    if mp == 11 && doy == 365 {
      assert MarchYearIsLeap(yoe);
      assert d.year == yoe + 1 + era * 400;
      LeapShift(yoe, era);
    }
  }

  /** How many days the March-based month `mp` has, February counted as 29. */
  function MarchMonthLength(mp: int): int
    requires 0 <= mp <= 11
  {
    MonthStart(mp + 1) - MonthStart(mp)
  }

  lemma MonthOfDayBounds(mp: int, doy: int)
    requires 0 <= doy <= 365 && mp == (5 * doy + 2) / 153
    ensures 0 <= mp <= 11 && MonthStart(mp) <= doy
    ensures mp < 11 ==> doy - MonthStart(mp) < MarchMonthLength(mp)
    ensures doy - MonthStart(mp) + 1 <= DaysInMonth(2001, if mp < 10 then mp + 3 else mp - 9)
      || (mp == 11 && doy == 365)
  {
    assert 153 * mp <= 5 * doy + 2 < 153 * mp + 153;
  }

  lemma LeapShift(yoe: int, era: int)
    requires 0 <= yoe < 400 && MarchYearIsLeap(yoe)
    ensures IsLeapYear(yoe + 1 + era * 400)
  {
    ShiftByEras(yoe + 1, era);
  }

  /** Whole eras do not change a year's remainders by 4, 100 and 400. */
  lemma ShiftByEras(a: int, era: int)
    ensures var y := a + era * 400;
      y % 4 == a % 4 && y % 100 == a % 100 && y % 400 == a % 400
  {
    var k4, k100 := era * 100, era * 4;
    assert a + era * 400 == a + 4 * k4 == a + 100 * k100;
    ModShift4(a, k4);
    ModShift100(a, k100);
    ModShift400(a, era);
  }

  lemma ModShift4(a: int, k: int)
    ensures (a + 4 * k) % 4 == a % 4
  {
    var q, r := a / 4, a % 4;
    assert a + 4 * k == 4 * (q + k) + r;
    assert (a + 4 * k) / 4 == q + k;
  }

  lemma ModShift100(a: int, k: int)
    ensures (a + 100 * k) % 100 == a % 100
  {
    var q, r := a / 100, a % 100;
    assert a + 100 * k == 100 * (q + k) + r;
    assert (a + 100 * k) / 100 == q + k;
  }

  lemma ModShift400(a: int, k: int)
    ensures (a + 400 * k) % 400 == a % 400
  {
    var q, r := a / 400, a % 400;
    assert a + 400 * k == 400 * (q + k) + r;
    assert (a + 400 * k) / 400 == q + k;
  }

  /** The year `yoe` of an era has 365 days, one more when it holds a leap day. */
  lemma YearLength(yoe: int)
    requires 0 <= yoe < 400
    ensures YearStart(yoe + 1) - YearStart(yoe) == if MarchYearIsLeap(yoe) then 366 else 365
  {
    DivStep(yoe);
  }

  /** Moving to the next number passes a multiple of 4, 100 or 400 exactly when the next number is one. */
  lemma DivStep(y: int)
    requires y >= 0
    ensures (y + 1) / 4 - y / 4 == if (y + 1) % 4 == 0 then 1 else 0
    ensures (y + 1) / 100 - y / 100 == if (y + 1) % 100 == 0 then 1 else 0
    ensures (y + 1) / 400 - y / 400 == if (y + 1) % 400 == 0 then 1 else 0
  {
  }

  lemma {:induction false} YearStartMonotone(a: int, b: int)
    requires 0 <= a <= b <= 400
    ensures YearStart(a) + 365 * (b - a) <= YearStart(b)
    decreases b - a
  {
    if a < b {
      YearLength(a);
      YearStartMonotone(a + 1, b);
    }
  }

  /** A day of an era lies in exactly one year of it. */
  lemma YearOfEraUnique(yoe: int, doy: int)
    requires 0 <= yoe < 400 && 0 <= doy < YearStart(yoe + 1) - YearStart(yoe)
    ensures YearStart(yoe) + doy < DaysPerEra
    ensures YearOfEra(YearStart(yoe) + doy) == (yoe, doy)
  {
    var doe := YearStart(yoe) + doy;
    YearStartMonotone(yoe + 1, 400);
    var r := YearOfEra(doe);
    YearLength(r.0);
    SameYear(yoe, doy, r.0, r.1);
  }

  /** Two (year, day) pairs naming the same day of an era are the same pair. */
  lemma SameYear(y1: int, d1: int, y2: int, d2: int)
    requires 0 <= y1 < 400 && 0 <= d1 < YearStart(y1 + 1) - YearStart(y1)
    requires 0 <= y2 < 400 && 0 <= d2 < YearStart(y2 + 1) - YearStart(y2)
    requires YearStart(y1) + d1 == YearStart(y2) + d2
    ensures y1 == y2 && d1 == d2
  {
    if y1 < y2 {
      YearStartMonotone(y1 + 1, y2);
    } else if y2 < y1 {
      YearStartMonotone(y2 + 1, y1);
    }
  }

  /** Converting a valid date to a day count and back gives the same date. */
  lemma CivilFromDaysRoundTrip(d: Date)
    requires ValidDate(d)
    ensures CivilFromDays(DaysFromCivil(d)) == d
  {
    var y := d.year - (if d.month <= 2 then 1 else 0);
    var era := y / 400;
    var yoe := y % 400;
    var mp := if d.month > 2 then d.month - 3 else d.month + 9;
    var doy := MonthStart(mp) + d.day - 1;
    DayFitsYear(d, yoe, era, mp);
    YearOfEraUnique(yoe, doy);
    var z := DaysFromCivil(d);
    var doe := YearStart(yoe) + doy;
    DaysFromCivilSplit(d, era, doe);
    CivilFromDaysParts(z, era, doe, yoe, doy, (5 * doy + 2) / 153);
    DateOfParts(d, era, yoe, mp, doy);
  }

  /** The month and day recovered from the day of the year, with the era's year, rebuild the date. */
  lemma DateOfParts(d: Date, era: int, yoe: int, mp: int, doy: int)
    requires ValidDate(d)
    requires var y := d.year - (if d.month <= 2 then 1 else 0); era == y / 400 && yoe == y % 400
    requires mp == (if d.month > 2 then d.month - 3 else d.month + 9) && doy == MonthStart(mp) + d.day - 1
    requires mp < 11 ==> d.day - 1 < MarchMonthLength(mp)
    requires mp == 11 ==> d.day - 1 < 29
    ensures var mp' := (5 * doy + 2) / 153;
      var month := if mp' < 10 then mp' + 3 else mp' - 9;
      Date(yoe + era * 400 + (if month <= 2 then 1 else 0), month, doy - MonthStart(mp') + 1) == d
  {
    MonthOfDayInverse(mp, d.day - 1);
    assert (5 * doy + 2) / 153 == mp;
  }

  /** The day count of a date splits into its era and its day within the era. */
  lemma DaysFromCivilSplit(d: Date, era: int, doe: int)
    requires var y := d.year - (if d.month <= 2 then 1 else 0); era == y / 400
    requires var y := d.year - (if d.month <= 2 then 1 else 0);
      var mp := if d.month > 2 then d.month - 3 else d.month + 9;
      doe == YearStart(y % 400) + MonthStart(mp) + d.day - 1
    requires 0 <= doe < DaysPerEra
    ensures (DaysFromCivil(d) + EpochShift) / DaysPerEra == era
    ensures (DaysFromCivil(d) + EpochShift) % DaysPerEra == doe
  {
    assert DaysFromCivil(d) + EpochShift == era * DaysPerEra + doe;
    DivEraDays(doe, era);
  }

  lemma CivilFromDaysParts(z: int, era: int, doe: int, yoe: int, doy: int, mp: int)
    requires era == (z + EpochShift) / DaysPerEra && doe == (z + EpochShift) % DaysPerEra
    requires YearOfEra(doe) == (yoe, doy) && mp == (5 * doy + 2) / 153
    ensures var month := if mp < 10 then mp + 3 else mp - 9;
      CivilFromDays(z) == Date(yoe + era * 400 + (if month <= 2 then 1 else 0), month, doy - MonthStart(mp) + 1)
  {
  }

  lemma DayFitsYear(d: Date, yoe: int, era: int, mp: int)
    requires ValidDate(d)
    requires var y := d.year - (if d.month <= 2 then 1 else 0); era == y / 400 && yoe == y % 400
    requires mp == if d.month > 2 then d.month - 3 else d.month + 9
    ensures 0 <= yoe < 400 && 0 <= MonthStart(mp) + d.day - 1 < YearStart(yoe + 1) - YearStart(yoe)
    ensures mp < 11 ==> d.day - 1 < MarchMonthLength(mp)
    ensures mp == 11 ==> d.day - 1 < 29
  {
    YearLength(yoe);
    MonthFits(d, mp);
    if d.month == 2 && d.day == 29 {
      FebruaryLeap(d, yoe, era);
    }
  }

  /** The day of a valid date fits its March-based month, and only February 29 reaches day 365 of the year. */
  lemma MonthFits(d: Date, mp: int)
    requires ValidDate(d)
    requires mp == if d.month > 2 then d.month - 3 else d.month + 9
    ensures 0 <= mp <= 11
    ensures mp < 11 ==> d.day - 1 < MarchMonthLength(mp)
    ensures mp == 11 ==> d.day - 1 < 29
    ensures 0 <= MonthStart(mp) + d.day - 1 < 365 || (d.month == 2 && d.day == 29)
  {
  }

  /** A valid February 29 lies in a leap year, so its March-based year holds a leap day. */
  lemma FebruaryLeap(d: Date, yoe: int, era: int)
    requires ValidDate(d) && d.month == 2 && d.day == 29
    requires var y := d.year - 1; era == y / 400 && yoe == y % 400
    ensures MarchYearIsLeap(yoe)
  {
    assert d.year == (yoe + 1) + era * 400;
    ShiftByEras(yoe + 1, era);
  }

  lemma MonthOfDayInverse(mp: int, k: int)
    requires 0 <= mp <= 11 && 0 <= k
    requires mp < 11 ==> k < MarchMonthLength(mp)
    requires mp == 11 ==> k < 29
    ensures (5 * (MonthStart(mp) + k) + 2) / 153 == mp
  {
  }

  lemma DivEraDays(doe: int, era: int)
    requires 0 <= doe < DaysPerEra
    ensures (era * DaysPerEra + doe) / DaysPerEra == era && (era * DaysPerEra + doe) % DaysPerEra == doe
  {
    var q, r := (era * DaysPerEra + doe) / DaysPerEra, (era * DaysPerEra + doe) % DaysPerEra;
    assert q * DaysPerEra + r == era * DaysPerEra + doe;
    assert (q - era) * DaysPerEra == doe - r;
  }
}
