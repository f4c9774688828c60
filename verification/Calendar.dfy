/**
 * The Gregorian calendar by its definition: year and month lengths, summed up from
 * 1 January 1970.
 */
module Calendar {

  predicate IsLeap(year: int) {
    year % 4 == 0 && (year % 100 != 0 || year % 400 == 0)
  }

  function YearLength(year: int): (days: nat) {
    if IsLeap(year) then 366 else 365
  }

  /** Months are numbered from 0, as in struct tm. */
  function MonthLength(year: int, mon: int): (days: nat)
    ensures 28 <= days <= 31
  {
    if mon == 1 then (if IsLeap(year) then 29 else 28)
    else if mon == 3 || mon == 5 || mon == 8 || mon == 10 then 30
    else 31
  }

  /** Days from 1 January 1970 to 1 January of the year. */
  function YearStart(year: int): (days: int)
    decreases if year >= 1970 then year - 1970 else 1970 - year
  {
    if year == 1970 then 0
    else if year > 1970 then YearStart(year - 1) + YearLength(year - 1)
    else YearStart(year + 1) - YearLength(year)
  }

  /** Days of the year before the month. */
  function MonthStart(year: int, mon: nat): (days: nat) {
    if mon == 0 then 0 else MonthStart(year, mon - 1) + MonthLength(year, mon - 1)
  }

  predicate DayExists(year: int, mon: int, day: int) {
    0 <= mon < 12 && 1 <= day <= MonthLength(year, mon)
  }

  datatype Stamp = Stamp(year: int, mon: int, day: int, hour: int, min: int, sec: int)

  /** A day of the calendar and a time of day; the parser lets leap seconds up to 61 pass. */
  predicate Valid(s: Stamp) {
    DayExists(s.year, s.mon, s.day) && 0 <= s.hour <= 23 && 0 <= s.min <= 59 && 0 <= s.sec <= 61
  }

  function DayNumber(year: int, mon: nat, day: int): (days: int) {
    YearStart(year) + MonthStart(year, mon) + day - 1
  }

  /** Seconds from 1970-01-01T00:00:00. */
  function SecondsOf(s: Stamp): (t: int)
    requires s.mon >= 0
  {
    ((DayNumber(s.year, s.mon, s.day) * 24 + s.hour) * 60 + s.min) * 60 + s.sec
  }

  lemma {:induction false} MonthStarts(year: int)
    ensures MonthStart(year, 1) == 31
    ensures MonthStart(year, 2) == YearLength(year) - 306
    ensures MonthStart(year, 3) == YearLength(year) - 275
    ensures MonthStart(year, 4) == YearLength(year) - 245
    ensures MonthStart(year, 5) == YearLength(year) - 214
    ensures MonthStart(year, 6) == YearLength(year) - 184
    ensures MonthStart(year, 7) == YearLength(year) - 153
    ensures MonthStart(year, 8) == YearLength(year) - 122
    ensures MonthStart(year, 9) == YearLength(year) - 92
    ensures MonthStart(year, 10) == YearLength(year) - 61
    ensures MonthStart(year, 11) == YearLength(year) - 31
    ensures MonthStart(year, 12) == YearLength(year)
  {
    hide IsLeap;
    assert MonthStart(year, 0) == 0;
    assert MonthStart(year, 1) == 31;
    assert MonthStart(year, 2) == YearLength(year) - 306;
    assert MonthStart(year, 3) == YearLength(year) - 275;
    assert MonthStart(year, 4) == YearLength(year) - 245;
    assert MonthStart(year, 5) == YearLength(year) - 214;
    assert MonthStart(year, 6) == YearLength(year) - 184;
    assert MonthStart(year, 7) == YearLength(year) - 153;
    assert MonthStart(year, 8) == YearLength(year) - 122;
    assert MonthStart(year, 9) == YearLength(year) - 92;
    assert MonthStart(year, 10) == YearLength(year) - 61;
    assert MonthStart(year, 11) == YearLength(year) - 31;
  }

  // ------------------------------------------------------------------- gmtime

  /** The year of a day counted from 1 January of `year`. */
  function YearOf(days: nat, year: int): (y: int)
    ensures y >= year
    decreases days
  {
    if days < YearLength(year) then year else YearOf(days - YearLength(year), year + 1)
  }

  function MonthOf(year: int, day: nat, mon: nat): (m: int)
    decreases 12 - mon
  {
    if mon >= 11 || day < MonthStart(year, mon + 1) then mon else MonthOf(year, day, mon + 1)
  }

  /** gmtime_r from 1970 on. */
  function GmTime(t: nat): (s: Stamp) {
    var days := t / 86400;
    var year := YearOf(days, 1970);
    var inYear := days - YearStart(year);
    var mon := if inYear < 0 then 0 else MonthOf(year, inYear, 0);
    Stamp(year, mon, if mon < 0 then 0 else inYear - MonthStart(year, mon) + 1,
          t % 86400 / 3600, t % 3600 / 60, t % 60)
  }

  /** 0 is Sunday; 1 January 1970 was a Thursday. */
  function Weekday(t: nat): (wday: nat)
    ensures wday < 7
  {
    (t / 86400 + 4) % 7
  }

  lemma {:induction false} YearStartNext(year: int)
    ensures YearStart(year + 1) == YearStart(year) + YearLength(year)
  {}

  lemma {:induction false} YearOfCorrect(days: nat, year: int)
    requires year >= 1970
    ensures var y := YearOf(days, year);
            YearStart(y) <= YearStart(year) + days < YearStart(y + 1)
    decreases days
  {
    hide IsLeap;
    YearStartNext(year);
    if days >= YearLength(year) {
      YearOfCorrect(days - YearLength(year), year + 1);
    }
  }

  lemma {:induction false} MonthOfCorrect(year: int, day: nat, mon: nat)
    requires mon < 12 && MonthStart(year, mon) <= day < MonthStart(year, 12)
    ensures var m := MonthOf(year, day, mon);
            0 <= m < 12 && MonthStart(year, m) <= day < MonthStart(year, m) + MonthLength(year, m)
    decreases 12 - mon
  {
    hide MonthLength;
    if mon < 11 && day >= MonthStart(year, mon + 1) {
      MonthOfCorrect(year, day, mon + 1);
    }
  }

  /** gmtime gives a stamp of the calendar that stands for exactly t seconds. */
  lemma {:induction false} GmTimeCorrect(t: nat)
    ensures var s := GmTime(t);
      s.year >= 1970 && Valid(s) && s.sec <= 59 && SecondsOf(s) == t
  {
    hide YearStart, MonthStart, YearOf, MonthOf, YearLength, MonthLength;
    var days := t / 86400;
    var year := YearOf(days, 1970);
    YearOfCorrect(days, 1970);
    assert YearStart(1970) == 0 by { StartIsZero(); }
    YearStartNext(year);
    MonthStarts(year);
    var inYear := days - YearStart(year);
    MonthStartZero(year);
    MonthOfCorrect(year, inYear, 0);
    assert DayNumber(GmTime(t).year, GmTime(t).mon, GmTime(t).day) == days;
    ClockParts(t);
  }

  lemma {:induction false} StartIsZero()
    ensures YearStart(1970) == 0
  {}

  lemma {:induction false} MonthStartZero(year: int)
    ensures MonthStart(year, 0) == 0
  {}

  lemma {:induction false} ClockParts(t: nat)
    ensures t == ((t / 86400 * 24 + t % 86400 / 3600) * 60 + t % 3600 / 60) * 60 + t % 60
  {}

  lemma {:induction false} YearStartBound(year: int)
    requires year >= 1970
    ensures YearStart(year) >= (year - 1970) * 365
    decreases year
  {
    hide IsLeap;
    if year > 1970 { YearStartBound(year - 1); }
  }

  /** A 32-bit time is over before 2039. */
  lemma {:induction false} GmTimeYears(t: nat)
    requires t < 0x8000_0000
    ensures 1970 <= GmTime(t).year <= 2038
  {
    hide YearStart, YearOf, MonthOf, MonthStart;
    var year := YearOf(t / 86400, 1970);
    YearOfCorrect(t / 86400, 1970);
    StartIsZero();
    YearStartBound(year);
  }

  lemma {:induction false} YearStartMonotone(a: int, b: int)
    requires a <= b
    ensures YearStart(a) <= YearStart(b)
    decreases b - a
  {
    hide YearStart, YearLength;
    if a < b {
      YearStartMonotone(a, b - 1);
      YearStartNext(b - 1);
    }
  }

  lemma {:induction false} MonthStartMonotone(year: int, a: nat, b: nat)
    requires a <= b
    ensures MonthStart(year, a) <= MonthStart(year, b)
    decreases b - a
  {
    hide MonthLength;
    if a < b { MonthStartMonotone(year, a, b - 1); }
  }

  lemma {:induction false} SameYear(a: int, m: nat, d: int, b: int, n: nat, e: int)
    requires DayExists(a, m, d) && DayExists(b, n, e) && a < b
    ensures DayNumber(a, m, d) < DayNumber(b, n, e)
  {
    hide MonthLength, YearLength;
    YearStartNext(a);
    YearStartMonotone(a + 1, b);
    MonthStartMonotone(a, m + 1, 12);
    MonthStarts(a);
  }

  lemma {:induction false} SameMonth(a: int, m: nat, d: int, n: nat, e: int)
    requires DayExists(a, m, d) && DayExists(a, n, e) && m < n
    ensures DayNumber(a, m, d) < DayNumber(a, n, e)
  {
    hide MonthLength, YearStart;
    MonthStartMonotone(a, m + 1, n);
  }

  /** Different stamps are different times, so gmtime is the only inverse. */
  lemma {:induction false} SecondsInjective(a: Stamp, b: Stamp)
    requires Valid(a) && Valid(b) && a.sec <= 59 && b.sec <= 59
    requires SecondsOf(a) == SecondsOf(b)
    ensures a == b
  {
    hide DayNumber, MonthLength;
    var x, y := DayNumber(a.year, a.mon, a.day), DayNumber(b.year, b.mon, b.day);
    assert x == y && a.hour == b.hour && a.min == b.min && a.sec == b.sec;
    if a.year < b.year { SameYear(a.year, a.mon, a.day, b.year, b.mon, b.day); }
    if b.year < a.year { SameYear(b.year, b.mon, b.day, a.year, a.mon, a.day); }
    if a.mon < b.mon { SameMonth(a.year, a.mon, a.day, b.mon, b.day); }
    if b.mon < a.mon { SameMonth(a.year, b.mon, b.day, a.mon, a.day); }
    DayNumberDay(a.year, a.mon, a.day, b.day);
  }

  /** Minutes from 1970-01-01T00:00. */
  function MinutesOf(s: Stamp): (t: int)
    requires s.mon >= 0
  {
    (DayNumber(s.year, s.mon, s.day) * 24 + s.hour) * 60 + s.min
  }

  /** The order of dates as they are written, down to the minute. */
  predicate EarlierMinute(a: Stamp, b: Stamp) {
    if a.year != b.year then a.year < b.year
    else if a.mon != b.mon then a.mon < b.mon
    else if a.day != b.day then a.day < b.day
    else if a.hour != b.hour then a.hour < b.hour
    else a.min < b.min
  }

  /** It is the order of the times. */
  lemma {:induction false} MinuteOrder(a: Stamp, b: Stamp)
    requires Valid(a) && Valid(b)
    ensures EarlierMinute(a, b) <==> MinutesOf(a) < MinutesOf(b)
  {
    hide DayNumber, MonthLength;
    if EarlierMinute(a, b) {
      MinuteLater(a, b);
    } else if EarlierMinute(b, a) {
      MinuteLater(b, a);
    }
  }

  lemma {:induction false} MinuteLater(a: Stamp, b: Stamp)
    requires Valid(a) && Valid(b) && EarlierMinute(a, b)
    ensures MinutesOf(a) < MinutesOf(b)
  {
    hide DayNumber, MonthLength;
    if a.year < b.year {
      SameYear(a.year, a.mon, a.day, b.year, b.mon, b.day);
    } else if a.mon < b.mon {
      SameMonth(a.year, a.mon, a.day, b.mon, b.day);
    } else {
      DayNumberDay(a.year, a.mon, a.day, b.day);
    }
  }

  lemma {:induction false} DayNumberDay(year: int, mon: nat, d: int, e: int)
    ensures DayNumber(year, mon, d) - DayNumber(year, mon, e) == d - e
  {}

  // ------------------------------------------------------ the closed day count

  /** C's division of ints. */
  function TruncDiv(a: int, b: int): (q: int)
    requires b > 0
  {
    if a >= 0 then a / b else -((-a) / b)
  }

  /** Days from 1 March 1900 to 1 March of 1900 + year. */
  function MarchDays(year: int): (days: int) {
    year * 365 + TruncDiv(year, 4) - TruncDiv(year, 100) + TruncDiv(TruncDiv(year, 100) + 3, 4)
  }

  lemma {:induction false} QuarterStep(a: nat)
    ensures (a + 1) / 4 == a / 4 + if (a + 1) % 4 == 0 then 1 else 0
  {}

  lemma {:induction false} CenturyStep(a: nat)
    ensures (a + 1) / 100 == a / 100 + if (a + 1) % 100 == 0 then 1 else 0
  {}

  /** Counting years from 1900 shifts the 400-year rule by three centuries. */
  lemma {:induction false} LeapFrom1900(a: nat)
    ensures IsLeap(a + 1900) <==> a % 4 == 0 && (a % 100 != 0 || (a / 100 + 3) % 4 == 0)
  {
    assert a == a / 100 * 100 + a % 100;
    if a % 100 == 0 {
      var q := a / 100;
      assert (a + 1900) % 400 == 0 <==> (q + 3) % 4 == 0 by {
        assert a + 1900 == 100 * (q + 3) + 1600;
        HundredTimes(q + 3);
      }
    }
  }

  lemma {:induction false} HundredTimes(k: nat)
    ensures (100 * k + 1600) % 400 == 0 <==> k % 4 == 0
  {
    assert k == 4 * (k / 4) + k % 4;
    assert 100 * k + 1600 == 400 * (k / 4 + 4) + 100 * (k % 4);
  }

  lemma {:induction false} MarchStep(year: int)
    requires year >= -1
    ensures MarchDays(year + 1) == MarchDays(year) + YearLength(year + 1901)
  {
    if year >= 0 {
      hide IsLeap;
      QuarterStep(year);
      CenturyStep(year);
      LeapFrom1900(year + 1);
      HundredIsQuarter(year + 1);
      QuarterStep(year / 100 + 2);
    }
  }

  lemma {:induction false} HundredIsQuarter(a: nat)
    ensures a % 100 == 0 ==> a % 4 == 0
  {
    FourTimes(25 * (a / 100));
  }

  lemma {:induction false} FourTimes(k: nat)
    ensures 4 * k % 4 == 0
  {}

  /** The closed form counts the same days as the sum over the years. */
  lemma {:induction false} MarchDaysCorrect(year: int)
    requires year >= 1900
    ensures YearStart(year) == MarchDays(year - 1901) + 306 - 25508
    decreases if year >= 1970 then year - 1970 else 1970 - year
  {
    hide MarchDays, YearLength;
    if year == 1970 {
      MarchDaysStart();
    } else if year > 1970 {
      MarchDaysCorrect(year - 1);
      MarchStep(year - 1902);
    } else {
      MarchDaysCorrect(year + 1);
      MarchStep(year - 1901);
    }
  }

  lemma {:induction false} MarchDaysStart()
    ensures MarchDays(69) == 25508 - 306
  {}
}
