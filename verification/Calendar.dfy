// The civil calendar behind gmtime_r and timegm: the proleptic Gregorian calendar
// with the second count of section 4.16 of POSIX.1-2017 Base Definitions.
module Calendar {

  // struct tm: the year counts from 1900 and the month from 0.
  datatype Tm = Tm(year: int, mon: int, mday: int, hour: int, min: int, sec: int)

  predicate IsLeap(year: int) {
    year % 4 == 0 && (year % 100 != 0 || year % 400 == 0)
  }

  function YearLength(year: int): int {
    if IsLeap(year) then 366 else 365
  }

  function MonthLength(year: int, mon: int): int
    requires 0 <= mon < 12
  {
    if mon == 1 then (if IsLeap(year) then 29 else 28)
    else if mon == 3 || mon == 5 || mon == 8 || mon == 10 then 30
    else 31
  }

  // Days in the months of a year that come before month mon.
  function DaysBeforeMonth(year: int, mon: int): int
    requires 0 <= mon <= 12
    decreases mon
  {
    if mon == 0 then 0 else DaysBeforeMonth(year, mon - 1) + MonthLength(year, mon - 1)
  }

  // Days from 1970-01-01 to January 1 of a year, year by year in either direction.
  function DaysBeforeYear(year: int): int
    decreases if year < 1970 then 1970 - year else year - 1970
  {
    if year == 1970 then 0
    else if year > 1970 then DaysBeforeYear(year - 1) + YearLength(year - 1)
    else DaysBeforeYear(year + 1) - YearLength(year)
  }

  // timegm accepts fields outside their ranges: surplus months carry into the year,
  // and days, hours, minutes and seconds simply add up.
  function TimeGm(tm: Tm): int {
    var year := tm.year + 1900 + tm.mon / 12;
    var days := DaysBeforeYear(year) + DaysBeforeMonth(year, tm.mon % 12) + tm.mday - 1;
    days * 86400 + tm.hour * 3600 + tm.min * 60 + tm.sec
  }

  // gmtime_r counts off whole years, then whole months.
  function CountYears(days: nat, year: int): (int, nat)
    decreases days
  {
    if days < YearLength(year) then (year, days) else CountYears(days - YearLength(year), year + 1)
  }

  function CountMonths(days: nat, year: int, mon: nat): (nat, nat)
    requires mon < 12
    decreases 12 - mon
  {
    if mon == 11 || days < MonthLength(year, mon) then (mon, days)
    else CountMonths(days - MonthLength(year, mon), year, mon + 1)
  }

  // Full year, month from 0, day from 1.
  function Date(days: nat): (int, int, int) {
    var (year, yday) := CountYears(days, 1970);
    var (mon, mday) := CountMonths(yday, year, 0);
    (year, mon, mday + 1)
  }

  function Clock(rest: nat): (int, int, int) {
    (rest / 3600, rest / 60 % 60, rest % 60)
  }

  function GmTime(time: nat): Tm {
    var (year, mon, mday) := Date(time / 86400);
    var (hour, min, sec) := Clock(time % 86400);
    Tm(year - 1900, mon, mday, hour, min, sec)
  }

  predicate IsCivil(tm: Tm) {
    && 0 <= tm.mon < 12
    && 1 <= tm.mday <= MonthLength(tm.year + 1900, tm.mon)
    && 0 <= tm.hour < 24
    && 0 <= tm.min < 60
    && 0 <= tm.sec < 60
  }

  // Reading order of a broken-down time.
  predicate Earlier(a: Tm, b: Tm) {
    || a.year < b.year
    || (a.year == b.year && (
      || a.mon < b.mon
      || (a.mon == b.mon && (
        || a.mday < b.mday
        || (a.mday == b.mday && (
          || a.hour < b.hour
          || (a.hour == b.hour && (
            || a.min < b.min
            || (a.min == b.min && a.sec < b.sec)))))))))
  }

  lemma YearStep(year: int)
    ensures DaysBeforeYear(year + 1) == DaysBeforeYear(year) + YearLength(year)
  {
  }

  // The year terms of the POSIX formula: their sum counts the days before a year.
  function PosixYearDays(year: int): int {
    (year - 1970) * 365 + (year - 1969) / 4 - (year - 1901) / 100 + (year - 1601) / 400
  }

  lemma FourStep(year: int)
    ensures (year - 1968) / 4 == (year - 1969) / 4 + if year % 4 == 0 then 1 else 0
  {
  }

  lemma HundredStep(year: int)
    ensures (year - 1900) / 100 == (year - 1901) / 100 + if year % 100 == 0 then 1 else 0
  {
  }

  lemma FourHundredStep(year: int)
    ensures (year - 1600) / 400 == (year - 1601) / 400 + if year % 400 == 0 then 1 else 0
  {
  }

  lemma Hundreds(q: int)
    ensures (100 * q) % 100 == 0
  {
  }

  lemma Fours(q: int)
    ensures (4 * q) % 4 == 0
  {
  }

  lemma LeapNests(year: int)
    ensures (year % 400 == 0 ==> year % 100 == 0) && (year % 100 == 0 ==> year % 4 == 0)
  {
    if year % 400 == 0 {
      Hundreds(4 * (year / 400));
    }
    if year % 100 == 0 {
      Fours(25 * (year / 100));
    }
  }

  lemma PosixYearStep(year: int)
    ensures PosixYearDays(year + 1) == PosixYearDays(year) + YearLength(year)
  {
    FourStep(year);
    HundredStep(year);
    FourHundredStep(year);
    LeapNests(year);
  }

  lemma {:induction false} PosixFormula(year: int)
    ensures DaysBeforeYear(year) == PosixYearDays(year)
    decreases if year < 1970 then 1970 - year else year - 1970
  {
    if year > 1970 {
      PosixFormula(year - 1);
      PosixYearStep(year - 1);
    } else if year < 1970 {
      PosixFormula(year + 1);
      PosixYearStep(year);
    }
  }

  lemma {:induction false} YearsGrow(a: int, b: int)
    requires a <= b
    ensures DaysBeforeYear(a) + 365 * (b - a) <= DaysBeforeYear(b)
    decreases b - a
  {
    if a < b {
      YearStep(a);
      YearsGrow(a + 1, b);
    }
  }

  lemma {:induction false} YearsBounded(a: int, b: int)
    requires a <= b
    ensures DaysBeforeYear(b) <= DaysBeforeYear(a) + 366 * (b - a)
    decreases b - a
  {
    if a < b {
      YearStep(a);
      YearsBounded(a + 1, b);
    }
  }

  lemma {:induction false} CountYearsCorrect(days: nat, year: int)
    ensures var (y, yday) := CountYears(days, year);
            && year <= y && yday < YearLength(y)
            && DaysBeforeYear(y) + yday == DaysBeforeYear(year) + days
    decreases days
  {
    if days >= YearLength(year) {
      YearStep(year);
      CountYearsCorrect(days - YearLength(year), year + 1);
    }
  }

  lemma MonthsInYear(year: int)
    ensures DaysBeforeMonth(year, 12) == YearLength(year)
  {
    assert DaysBeforeMonth(year, 1) == 31;
    assert DaysBeforeMonth(year, 3) == 90 + if IsLeap(year) then 1 else 0;
    assert DaysBeforeMonth(year, 6) == DaysBeforeMonth(year, 3) + 91;
    assert DaysBeforeMonth(year, 9) == DaysBeforeMonth(year, 6) + 92;
  }

  lemma {:induction false} CountMonthsCorrect(days: nat, year: int, mon: nat)
    requires mon < 12
    requires DaysBeforeMonth(year, mon) + days < YearLength(year)
    ensures var (m, mday) := CountMonths(days, year, mon);
            && mon <= m < 12 && mday < MonthLength(year, m)
            && DaysBeforeMonth(year, m) + mday == DaysBeforeMonth(year, mon) + days
    decreases 12 - mon
  {
    if mon == 11 {
      MonthsInYear(year);
    } else if days >= MonthLength(year, mon) {
      CountMonthsCorrect(days - MonthLength(year, mon), year, mon + 1);
    }
  }

  lemma {:induction false} MonthsGrow(year: int, a: nat, b: nat)
    requires a <= b <= 12
    ensures DaysBeforeMonth(year, a) + 28 * (b - a) <= DaysBeforeMonth(year, b)
    decreases b
  {
    if a < b {
      MonthsGrow(year, a, b - 1);
    }
  }

  // Everything a civil time adds after its month stays within the month, and so within the year.
  lemma DayNumberInYear(tm: Tm)
    requires IsCivil(tm)
    ensures 0 <= DaysBeforeMonth(tm.year + 1900, tm.mon) + tm.mday - 1 < YearLength(tm.year + 1900)
  {
    MonthsGrow(tm.year + 1900, 0, tm.mon);
    MonthsGrow(tm.year + 1900, tm.mon + 1, 12);
    MonthsInYear(tm.year + 1900);
  }

  // Days from 1970-01-01 to a civil time's own day.
  function DayNumber(tm: Tm): int
    requires 0 <= tm.mon < 12
  {
    DaysBeforeYear(tm.year + 1900) + DaysBeforeMonth(tm.year + 1900, tm.mon) + tm.mday - 1
  }

  function SecondOfDay(tm: Tm): int {
    tm.hour * 3600 + tm.min * 60 + tm.sec
  }

  lemma CivilTimeGm(tm: Tm)
    requires 0 <= tm.mon < 12
    ensures TimeGm(tm) == DayNumber(tm) * 86400 + SecondOfDay(tm)
    ensures IsCivil(tm) ==> 0 <= SecondOfDay(tm) < 86400
  {
    assert tm.mon / 12 == 0 && tm.mon % 12 == tm.mon;
  }

  lemma ClockParts(rest: nat)
    requires rest < 86400
    ensures var (hour, min, sec) := Clock(rest);
            && 0 <= hour < 24 && 0 <= min < 60 && 0 <= sec < 60
            && hour * 3600 + min * 60 + sec == rest
  {
    assert rest / 60 / 60 == rest / 3600;
  }

  lemma DateParts(days: nat)
    ensures var (year, mon, mday) := Date(days);
            && 1970 <= year && 0 <= mon < 12 && 1 <= mday <= MonthLength(year, mon)
            && DaysBeforeYear(year) + DaysBeforeMonth(year, mon) + mday - 1 == days
  {
    CountYearsCorrect(days, 1970);
    var (year, yday) := CountYears(days, 1970);
    CountMonthsCorrect(yday, year, 0);
  }

  // gmtime_r yields a civil time and timegm takes it back to the same second.
  lemma GmTimeInverse(time: nat)
    ensures IsCivil(GmTime(time)) && TimeGm(GmTime(time)) == time && GmTime(time).year >= 70
  {
    DateParts(time / 86400);
    ClockParts(time % 86400);
    CivilTimeGm(GmTime(time));
  }

  lemma MonthStep(year: int, mon: nat)
    requires mon < 12
    ensures DaysBeforeMonth(year, mon + 1) == DaysBeforeMonth(year, mon) + MonthLength(year, mon)
  {
  }

  lemma EarlierYear(a: Tm, b: Tm)
    requires IsCivil(a) && IsCivil(b) && a.year < b.year
    ensures DayNumber(a) < DayNumber(b)
  {
    DayNumberInYear(a);
    DayNumberInYear(b);
    YearStep(a.year + 1900);
    YearsGrow(a.year + 1901, b.year + 1900);
  }

  lemma EarlierDay(a: Tm, b: Tm)
    requires IsCivil(a) && IsCivil(b)
    requires a.year < b.year || (a.year == b.year && a.mon < b.mon)
    ensures DayNumber(a) < DayNumber(b)
  {
    if a.year < b.year {
      EarlierYear(a, b);
    } else {
      MonthsGrow(a.year + 1900, a.mon + 1, b.mon);
      MonthStep(a.year + 1900, a.mon);
    }
  }

  // timegm is strictly increasing in the reading order of civil times.
  lemma TimeGmMonotone(a: Tm, b: Tm)
    requires IsCivil(a) && IsCivil(b) && Earlier(a, b)
    ensures TimeGm(a) < TimeGm(b)
  {
    CivilTimeGm(a);
    CivilTimeGm(b);
    if a.year < b.year || (a.year == b.year && a.mon < b.mon) {
      EarlierDay(a, b);
    }
  }

  // The two conversions are inverse on civil times from 1970 on.
  lemma TimeGmInverse(tm: Tm)
    requires IsCivil(tm) && tm.year >= 70
    ensures TimeGm(tm) >= 0 && GmTime(TimeGm(tm)) == tm
  {
    DayNumberInYear(tm);
    CivilTimeGm(tm);
    YearsGrow(1970, tm.year + 1900);
    var back := GmTime(TimeGm(tm));
    GmTimeInverse(TimeGm(tm));
    if back != tm {
      if Earlier(back, tm) {
        TimeGmMonotone(back, tm);
      } else {
        TimeGmMonotone(tm, back);
      }
    }
  }

  // gmtime_r preserves order.
  lemma GmTimeMonotone(a: nat, b: nat)
    requires a < b
    ensures Earlier(GmTime(a), GmTime(b))
  {
    GmTimeInverse(a);
    GmTimeInverse(b);
    if !Earlier(GmTime(a), GmTime(b)) && GmTime(a) != GmTime(b) {
      TimeGmMonotone(GmTime(b), GmTime(a));
    }
  }

  // The days before a month, counted month by month, in closed form.
  lemma MonthsFormula(year: int, mon: nat)
    requires mon < 12
    ensures DaysBeforeMonth(year, mon)
         == if mon < 2 then 31 * mon else 59 + (if IsLeap(year) then 1 else 0) + (153 * (mon - 2) + 2) / 5
  {
    var march := 59 + if IsLeap(year) then 1 else 0;
    assert DaysBeforeMonth(year, 2) == march;
    assert DaysBeforeMonth(year, 5) == march + 92;
    assert DaysBeforeMonth(year, 8) == march + 184;
    assert DaysBeforeMonth(year, 11) == march + 275;
  }

  // The expression POSIX gives for the seconds since the epoch, with tm_yday counted from the month.
  lemma PosixSeconds(tm: Tm)
    requires IsCivil(tm)
    ensures var leap := if IsLeap(tm.year + 1900) then 1 else 0;
            var before := if tm.mon < 2 then 31 * tm.mon else 59 + leap + (153 * (tm.mon - 2) + 2) / 5;
            TimeGm(tm) == tm.sec + tm.min * 60 + tm.hour * 3600 + (before + tm.mday - 1) * 86400
                          + (tm.year - 70) * 31536000 + (tm.year - 69) / 4 * 86400
                          - (tm.year - 1) / 100 * 86400 + (tm.year + 299) / 400 * 86400
  {
    CivilTimeGm(tm);
    PosixFormula(tm.year + 1900);
    MonthsFormula(tm.year + 1900, tm.mon);
  }
}
