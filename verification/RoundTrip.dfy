// Printing a millisecond count and parsing the text again, for every 64-bit count.
module RoundTrip {
  import opened Wrappers
  import opened CText
  import opened Digits
  import opened Calendar
  import opened Sscanf
  import opened Iso8601

  // What getUtcTimeString leaves in its buffer, seen as a C string.
  function Printed(ms: nat): string {
    CString(UtcText(ms) + [NUL])
  }

  // Text laid out as the printer lays it out; the first character may be anything,
  // because a year beyond 9999 does not fit its field.
  predicate Layout(text: string, tm: Tm, msPart: nat) {
    && |text| == 24 && msPart < 1000 && IsCivil(tm)
    && Full(text, 1, 3) && text[4] == '-'
    && Full(text, 5, 2) && Number(text, 5, 2) == tm.mon + 1 && text[7] == '-'
    && Full(text, 8, 2) && Number(text, 8, 2) == tm.mday && text[10] == 'T'
    && Full(text, 11, 2) && Number(text, 11, 2) == tm.hour && text[13] == ':'
    && Full(text, 14, 2) && Number(text, 14, 2) == tm.min && text[16] == ':'
    && Full(text, 17, 2) && Number(text, 17, 2) == tm.sec && text[19] == '.'
    && Full(text, 20, 3) && Number(text, 20, 3) == msPart && text[23] == 'Z'
  }

  predicate Sliced(t: string, y: string, mo: string, d: string, h: string, mi: string, s: string, ms: string) {
    && |t| == 24 && t[0..4] == y && t[4] == '-' && t[5..7] == mo && t[7] == '-' && t[8..10] == d
    && t[10] == 'T' && t[11..13] == h && t[13] == ':' && t[14..16] == mi && t[16] == ':'
    && t[17..19] == s && t[19] == '.' && t[20..23] == ms && t[23] == 'Z'
  }

  lemma DateSlices(date: string, y: string, mo: string, d: string)
    requires |y| == 4 && |mo| == 2 && |d| == 2 && date == [] + y + ['-'] + mo + ['-'] + d + ['T']
    ensures |date| == 11 && date[0..4] == y && date[4] == '-' && date[5..7] == mo && date[7] == '-' && date[8..10] == d
    ensures date[10] == 'T'
  {
  }

  lemma ClockSlices(t: string, date: string, h: string, mi: string, s: string, ms: string)
    requires |date| == 11 && |h| == 2 && |mi| == 2 && |s| == 2 && |ms| == 3
    requires t == date + h + [':'] + mi + [':'] + s + ['.'] + ms + ['Z']
    ensures |t| == 24 && t[..11] == date && t[11..13] == h && t[13] == ':' && t[14..16] == mi && t[16] == ':'
    ensures t[17..19] == s && t[19] == '.' && t[20..23] == ms && t[23] == 'Z'
  {
  }

  lemma Slices(t: string, date: string, y: string, mo: string, d: string, h: string, mi: string, s: string, ms: string)
    requires |y| == 4 && |mo| == 2 && |d| == 2 && |h| == 2 && |mi| == 2 && |s| == 2 && |ms| == 3
    requires date == [] + y + ['-'] + mo + ['-'] + d + ['T']
    requires t == date + h + [':'] + mi + [':'] + s + ['.'] + ms + ['Z']
    ensures Sliced(t, y, mo, d, h, mi, s, ms)
  {
    DateSlices(date, y, mo, d);
    ClockSlices(t, date, h, mi, s, ms);
    assert t[0..4] == date[0..4] && t[5..7] == date[5..7] && t[8..10] == date[8..10];
    assert t[4] == date[4] && t[7] == date[7] && t[10] == date[10];
  }

  lemma FieldSlice(t: string, c: nat, width: nat, value: nat)
    requires c + width <= |t| && t[c..c + width] == Field(value, width) && value < Pow10(width)
    ensures Full(t, c, width) && Number(t, c, width) == value
  {
    ScanField(value, width);
  }

  // Whatever the year, its last three characters are digits.
  lemma YearTail(t: string, year: nat)
    requires 4 <= |t| && t[0..4] == Field(year, 4)
    ensures Full(t, 1, 3)
    ensures t[0] == DigitChar(Quot(year, 1000))
    ensures year < 10000 ==> Full(t, 0, 4) && Number(t, 0, 4) == year
  {
    assert Pow10(3) == 1000 && Pow10(4) == 10000;
    assert t[1..4] == t[0..4][1..];
    assert t[0] == t[0..4][0];
    FieldSlice(t, 1, 3, Rem(year, 1000));
    if year < 10000 {
      FieldSlice(t, 0, 4, year);
    }
  }

  lemma LayoutOfSlices(t: string, tm: Tm, msPart: nat, y: string, mo: string, d: string, h: string,
                       mi: string, s: string, ms: string)
    requires IsCivil(tm) && tm.year >= 70 && msPart < 1000 && Sliced(t, y, mo, d, h, mi, s, ms)
    requires y == Field(tm.year + 1900, 4) && mo == Field(tm.mon + 1, 2) && d == Field(tm.mday, 2)
    requires h == Field(tm.hour, 2) && mi == Field(tm.min, 2) && s == Field(tm.sec, 2) && ms == Field(msPart, 3)
    ensures Layout(t, tm, msPart)
  {
    assert Pow10(2) == 100 && Pow10(3) == 1000;
    YearTail(t, tm.year + 1900);
    FieldSlice(t, 5, 2, tm.mon + 1);
    FieldSlice(t, 8, 2, tm.mday);
    FieldSlice(t, 11, 2, tm.hour);
    FieldSlice(t, 14, 2, tm.min);
    FieldSlice(t, 17, 2, tm.sec);
    FieldSlice(t, 20, 3, msPart);
  }

  lemma TmTextLayout(tm: Tm, msPart: nat)
    requires IsCivil(tm) && tm.year >= 70 && msPart < 1000
    ensures Layout(TmText(tm, msPart), tm, msPart)
    ensures TmText(tm, msPart)[0..4] == Field(tm.year + 1900, 4)
  {
    var t := TmText(tm, msPart);
    var y, mo, d := Field(tm.year + 1900, 4), Field(tm.mon + 1, 2), Field(tm.mday, 2);
    var h, mi, s, ms := Field(tm.hour, 2), Field(tm.min, 2), Field(tm.sec, 2), Field(msPart, 3);
    Slices(t, DatePart(tm), y, mo, d, h, mi, s, ms);
    LayoutOfSlices(t, tm, msPart, y, mo, d, h, mi, s, ms);
  }

  // The scan of the year field, whatever its first character.
  lemma ScanYear(text: string)
    requires |text| == 24 && Full(text, 1, 3) && text[4] == '-'
    ensures var y := ScanInt(text, 0, 4);
            y.Some? ==> y.value.next == 4 && -9999 <= y.value.value <= 9999
    ensures Full(text, 0, 4) ==> ScanInt(text, 0, 4) == Some(Scan(Number(text, 0, 4), 4))
  {
    assert Pow10(3) == 1000 && Pow10(4) == 10000;
    var digits := text[1..4];
    assert digits[0] == text[1];
    ScanBound(digits);
    if IsDigit(text[0]) {
      assert text[0..4] == [text[0]] + digits;
      ScanClear(text, 0, 4);
      ScanBound(text[0..4]);
    } else if IsSpace(text[0]) {
      assert SkipSpace(text, 0) == 1;
      DigitsEndFull(text, 1, 3);
      DigitsEndStops(text, 1, 3);
    } else if text[0] == '+' || text[0] == '-' {
      DigitsEndFull(text, 1, 3);
    }
    if Full(text, 0, 4) {
      assert text[0] == text[0..4][0];
    }
  }

  lemma {:induction false} DigitsEndStops(s: string, i: nat, n: nat)
    requires Full(s, i, n) && i + n < |s| && !IsDigit(s[i + n])
    ensures DigitsEnd(s, i, n + 1) == i + n
    decreases n
  {
    if n > 0 {
      assert s[i] == s[i..i + n][0];
      assert s[i + 1..i + n] == s[i..i + n][1..];
      DigitsEndStops(s, i + 1, n - 1);
    }
  }

  lemma LayoutDate(text: string, tm: Tm, msPart: nat)
    requires Layout(text, tm, msPart)
    ensures match ScanInt(text, 0, 4)
            case None => ScanDate(text, Some('-')).None? && ScanDate(text, None).None?
            case Some(y) => ScanDate(text, Some('-')) == Some((y.value, tm.mon + 1, tm.mday))
  {
    ScanYear(text);
    ScanClear(text, 5, 2);
    ScanClear(text, 8, 2);
  }

  lemma LayoutClock(text: string, tm: Tm, msPart: nat)
    requires Layout(text, tm, msPart)
    ensures ScanClock(text, 11, None).None? && ScanClock(text, 11, Some(':')) == Some((tm.hour, tm.min))
  {
    ScanClear(text, 11, 2);
    ScanClear(text, 13, 2);
    ScanClear(text, 14, 2);
  }

  lemma LayoutSeconds(text: string, tm: Tm, msPart: nat, date: (int, int, int))
    requires Layout(text, tm, msPart)
    ensures ClockHead(text, date, (tm.hour, tm.min), 16)
         == DateTime(Tm(date.0 - 1900, date.1 - 1, date.2, tm.hour, tm.min, tm.sec), 19)
  {
    ScanClear(text, 17, 2);
  }

  lemma LayoutFraction(text: string, tm: Tm, msPart: nat, other: Tm)
    requires Layout(text, tm, msPart)
    ensures ZuluSuffix(text, other, 19) == Stamped(other, msPart)
  {
    ScanClear(text, 20, 3);
  }

  // Once the year field has been scanned to some value, the rest of the text is read exactly.
  lemma ParseLayout(text: string, tm: Tm, msPart: nat)
    requires Layout(text, tm, msPart)
    ensures ZuluVerdict(text, ReadHead(text))
         == match ScanInt(text, 0, 4)
            case None => Nothing
            case Some(y) => Stamped(Tm(y.value - 1900, tm.mon, tm.mday, tm.hour, tm.min, tm.sec), msPart)
  {
    LayoutDate(text, tm, msPart);
    LayoutClock(text, tm, msPart);
    match ScanInt(text, 0, 4)
    case None =>
    case Some(y) =>
      LayoutSeconds(text, tm, msPart, (y.value, tm.mon + 1, tm.mday));
      LayoutFraction(text, tm, msPart, Tm(y.value - 1900, tm.mon, tm.mday, tm.hour, tm.min, tm.sec));
  }

  lemma FullDigits(text: string, c: nat, width: nat)
    requires Full(text, c, width)
    ensures forall i :: c <= i < c + width ==> IsDigit(text[i])
  {
    forall i | c <= i < c + width
      ensures IsDigit(text[i])
    {
      assert text[i] == text[c..c + width][i - c];
    }
  }

  lemma NoNulInside(text: string, tm: Tm, msPart: nat)
    requires Layout(text, tm, msPart)
    ensures NUL !in text[1..]
  {
    FullDigits(text, 1, 3);
    FullDigits(text, 5, 2);
    FullDigits(text, 8, 2);
    FullDigits(text, 11, 2);
    FullDigits(text, 14, 2);
    FullDigits(text, 17, 2);
    FullDigits(text, 20, 3);
  }

  // The string the printer leaves is the whole text, or empty if a wide year's first byte is NUL.
  lemma PrintedText(ms: nat)
    ensures Printed(ms) == if UtcText(ms)[0] == NUL then [] else UtcText(ms)
  {
    GmTimeInverse(ms / 1000);
    var text := UtcText(ms);
    TmTextLayout(GmTime(ms / 1000), ms % 1000);
    NoNulInside(text, GmTime(ms / 1000), ms % 1000);
    if text[0] != NUL {
      assert text == [text[0]] + text[1..];
      assert (text + [NUL])[..24] == text;
      CStringUntilNul(text + [NUL], 24);
    }
  }

  lemma YearTenThousand()
    ensures DaysBeforeYear(10000) == 2932897
  {
    PosixFormula(10000);
  }

  lemma FirstOfTenThousand()
    ensures TimeGm(Tm(8100, 0, 1, 0, 0, 0)) == 253402300800
  {
    YearTenThousand();
  }

  // Year 9999 ends at MAX_MS.
  lemma LastYear(ms: nat)
    ensures GmTime(ms / 1000).year + 1900 < 10000 <==> ms <= MAX_MS
  {
    var end := Tm(8100, 0, 1, 0, 0, 0);
    FirstOfTenThousand();
    GmTimeInverse(ms / 1000);
    var tm := GmTime(ms / 1000);
    if tm.year < 8100 {
      TimeGmMonotone(tm, end);
    } else if tm != end {
      TimeGmMonotone(end, tm);
    }
  }

  lemma EarlyDay(tm: Tm, other: Tm)
    requires IsCivil(tm) && other == tm.(year := other.year) && other.year < 8100
    ensures DayNumber(other) < DaysBeforeYear(10000)
  {
    var year := other.year + 1900;
    YearsGrow(year + 1, 10000);
    YearStep(year);
    MonthsGrow(year, tm.mon + 1, 12);
    MonthsInYear(year);
    assert DaysBeforeMonth(year, tm.mon + 1) == DaysBeforeMonth(year, tm.mon) + MonthLength(year, tm.mon);
    assert tm.mday <= MonthLength(year, tm.mon) + if tm.mon == 1 then 1 else 0;
  }

  lemma DaysDiffer(x: int, y: int, second: int)
    ensures (x * 86400 + second - (y * 86400 + second)) % 86400 == 0
  {
    assert x * 86400 + second - (y * 86400 + second) == 86400 * (x - y);
  }

  // The same civil fields in a year up to 9999 never reach year 10000.
  lemma EarlyYear(tm: Tm, other: Tm)
    requires IsCivil(tm) && other == tm.(year := other.year) && other.year < 8100
    ensures TimeGm(other) < 253402300800
    ensures (TimeGm(tm) - TimeGm(other)) % 86400 == 0
  {
    CivilTimeGm(tm);
    CivilTimeGm(other);
    EarlyDay(tm, other);
    YearTenThousand();
    DaysDiffer(DayNumber(tm), DayNumber(other), SecondOfDay(tm));
  }

  // A wrong instant would have to miss by 2^64 milliseconds, which is no whole number of days.
  lemma NoAlias(time: nat, other: int, msPart: nat)
    requires msPart < 1000 && time * 1000 + msPart < 0x1_0000_0000_0000_0000
    requires -0x1000_0000_0000 <= other < 253402300800 <= time && (time - other) % 86400 == 0
    ensures ToUint64(other * 1000 + msPart) != time * 1000 + msPart
  {
    var days := (time - other) / 86400;
    assert time - other == 86400 * days;
    var value := other * 1000 + msPart;
    var wraps := value / 0x1_0000_0000_0000_0000;
    assert value == wraps * 0x1_0000_0000_0000_0000 + ToUint64(value);
    assert -1 <= wraps <= 0;
  }

  lemma FirstDay(tm: Tm)
    requires 0 <= tm.mon < 12 && 1 <= tm.mday && -9999 <= tm.year + 1900
    ensures DayNumber(tm) >= -5_000_000
  {
    PosixFormula(-9999);
    YearsGrow(-9999, tm.year + 1900);
    MonthsGrow(tm.year + 1900, 0, tm.mon);
  }

  lemma EarlyYearBound(tm: Tm)
    requires 0 <= tm.mon < 12 && 1 <= tm.mday && 0 <= SecondOfDay(tm) && -9999 <= tm.year + 1900
    ensures TimeGm(tm) >= -0x1000_0000_0000
  {
    CivilTimeGm(tm);
    FirstDay(tm);
  }

  // Reading laid-out text can only go wrong in the year.
  lemma OnlyTheYear(text: string, tm: Tm, msPart: nat)
    requires Layout(text, tm, msPart)
    ensures var verdict := ZuluVerdict(text, ReadHead(text));
            verdict.Nothing? || (
              && verdict.Stamped? && verdict.ms == msPart
              && verdict.tm == tm.(year := verdict.tm.year) && -9999 <= verdict.tm.year + 1900 <= 9999)
    ensures Full(text, 0, 4) && Number(text, 0, 4) == tm.year + 1900 ==>
              ZuluVerdict(text, ReadHead(text)) == Stamped(tm, msPart)
  {
    ParseLayout(text, tm, msPart);
    ScanYear(text);
  }

  lemma WideYear(tm: Tm, time: nat, other: Tm, msPart: nat)
    requires IsCivil(tm) && time == TimeGm(tm) && 253402300800 <= time
    requires msPart < 1000 && time * 1000 + msPart < 0x1_0000_0000_0000_0000
    requires other == tm.(year := other.year) && -9999 <= other.year + 1900 <= 9999
    ensures Total(Stamped(other, msPart)) != time * 1000 + msPart
  {
    EarlyYear(tm, other);
    EarlyYearBound(other);
    NoAlias(time, TimeGm(other), msPart);
  }

  lemma RightYear(tm: Tm, time: nat, msPart: nat)
    requires time == TimeGm(tm) && msPart < 1000 && time * 1000 + msPart < 0x1_0000_0000_0000_0000
    ensures Total(Stamped(tm, msPart)) == time * 1000 + msPart
  {
  }

  // The round trip: for every unsigned 64-bit millisecond count the parser never runs past
  // the printed text, and returns the count again exactly up to the end of year 9999.
  lemma PrintThenParse(ms: nat)
    requires ms < 0x1_0000_0000_0000_0000
    ensures var verdict := ZuluVerdict(Printed(ms), ReadHead(Printed(ms)));
            !verdict.Overrun? && (Total(verdict) == ms <==> ms <= MAX_MS)
  {
    var tm, text := GmTime(ms / 1000), Printed(ms);
    GmTimeInverse(ms / 1000);
    TmTextLayout(tm, ms % 1000);
    PrintedText(ms);
    LastYear(ms);
    if ms <= MAX_MS {
      YearTail(UtcText(ms), tm.year + 1900);
      FullDigits(UtcText(ms), 0, 4);
      OnlyTheYear(text, tm, ms % 1000);
      RightYear(tm, ms / 1000, ms % 1000);
    } else if text != [] {
      OnlyTheYear(text, tm, ms % 1000);
      var verdict := ZuluVerdict(text, ReadHead(text));
      if verdict.Stamped? {
        WideYear(tm, ms / 1000, verdict.tm, ms % 1000);
      }
    }
  }

  // ---------------------------------------------------------------- order

  // The printed fields from the k-th on, with their widths and separators.
  function Width(k: nat): nat {
    if k == 0 then 4 else if k < 6 then 2 else 3
  }

  function Separator(k: nat): char {
    if k < 2 then '-' else if k == 2 then 'T' else if k < 5 then ':' else if k == 5 then '.' else 'Z'
  }

  function Fields(tm: Tm, msPart: nat): seq<nat>
    requires IsCivil(tm) && tm.year >= 70
  {
    [tm.year + 1900, tm.mon + 1, tm.mday, tm.hour, tm.min, tm.sec, msPart]
  }

  function FieldsText(fields: seq<nat>, k: nat): string
    requires k <= |fields|
    decreases |fields| - k
  {
    if k == |fields| then [] else Field(fields[k], Width(k)) + ([Separator(k)] + FieldsText(fields, k + 1))
  }

  lemma Peel(f: seq<nat>, k: nat)
    requires k < |f|
    ensures FieldsText(f, k) == Field(f[k], Width(k)) + ([Separator(k)] + FieldsText(f, k + 1))
  {
  }

  lemma Regroup2(a: string, x: string, f: string, p: string, g: string, q: string, y: string, z: string)
    requires x == f + (p + y) && y == g + (q + z)
    ensures a + x == a + f + p + g + q + z
  {
    assert a + (f + (p + y)) == (a + f + p) + y;
    assert (a + f + p) + (g + (q + z)) == (a + f + p) + g + q + z;
  }

  lemma Regroup1(a: string, x: string, f: string, p: string, y: string)
    requires x == f + (p + y)
    ensures a + x == a + f + p + y
  {
  }

  lemma DatePartFields(tm: Tm, f: seq<nat>)
    requires IsCivil(tm) && tm.year >= 70 && |f| == 7
    requires f[0] == tm.year + 1900 && f[1] == tm.mon + 1 && f[2] == tm.mday
    ensures [] + FieldsText(f, 0) == DatePart(tm) + FieldsText(f, 3)
  {
    YearFields(f);
    MonthFields([] + Field(f[0], 4) + ['-'], f);
    DayFields([] + Field(f[0], 4) + ['-'] + Field(f[1], 2) + ['-'], f);
  }

  lemma YearFields(f: seq<nat>)
    requires |f| == 7
    ensures [] + FieldsText(f, 0) == [] + Field(f[0], 4) + ['-'] + FieldsText(f, 1)
  {
    Peel(f, 0);
    Regroup1([], FieldsText(f, 0), Field(f[0], 4), ['-'], FieldsText(f, 1));
  }

  lemma MonthFields(before: string, f: seq<nat>)
    requires |f| == 7
    ensures before + FieldsText(f, 1) == before + Field(f[1], 2) + ['-'] + FieldsText(f, 2)
  {
    Peel(f, 1);
    Regroup1(before, FieldsText(f, 1), Field(f[1], 2), ['-'], FieldsText(f, 2));
  }

  lemma DayFields(before: string, f: seq<nat>)
    requires |f| == 7
    ensures before + FieldsText(f, 2) == before + Field(f[2], 2) + ['T'] + FieldsText(f, 3)
  {
    Peel(f, 2);
    Regroup1(before, FieldsText(f, 2), Field(f[2], 2), ['T'], FieldsText(f, 3));
  }

  lemma ClockPartFields(date: string, f: seq<nat>)
    requires |f| == 7
    ensures date + FieldsText(f, 3)
         == date + Field(f[3], 2) + [':'] + Field(f[4], 2) + [':'] + Field(f[5], 2) + ['.'] + Field(f[6], 3) + ['Z']
            + FieldsText(f, 7)
  {
    var f3, f4, f5, f6 := Field(f[3], 2), Field(f[4], 2), Field(f[5], 2), Field(f[6], 3);
    Peel(f, 3);
    Peel(f, 4);
    Peel(f, 5);
    Peel(f, 6);
    Regroup2(date, FieldsText(f, 3), f3, [':'], f4, [':'], FieldsText(f, 4), FieldsText(f, 5));
    Regroup2(date + f3 + [':'] + f4 + [':'], FieldsText(f, 5), f5, ['.'], f6, ['Z'],
             FieldsText(f, 6), FieldsText(f, 7));
  }

  lemma TmTextFields(tm: Tm, msPart: nat)
    requires IsCivil(tm) && tm.year >= 70
    ensures TmText(tm, msPart) == FieldsText(Fields(tm, msPart), 0)
  {
    var f := Fields(tm, msPart);
    DatePartFields(tm, f);
    ClockPartFields(DatePart(tm), f);
    assert [] + FieldsText(f, 0) == FieldsText(f, 0) && FieldsText(f, 7) == [];
  }

  // The first field that differs decides the order of the texts.
  lemma {:induction false} FieldsOrder(u: seq<nat>, v: seq<nat>, k: nat, at: nat)
    requires |u| == |v| && k <= at < |u|
    requires forall i :: k <= i < at ==> u[i] == v[i]
    requires u[at] < v[at] < Pow10(Width(at))
    ensures LexLess(FieldsText(u, k), FieldsText(v, k))
    decreases at - k
  {
    if k == at {
      FieldOrder(u[k], v[k], Width(k));
      LexSuffix(Field(u[k], Width(k)), Field(v[k], Width(k)),
                [Separator(k)] + FieldsText(u, k + 1), [Separator(k)] + FieldsText(v, k + 1));
    } else {
      FieldsOrder(u, v, k + 1, at);
      LexPrefix([Separator(k)], FieldsText(u, k + 1), FieldsText(v, k + 1));
      LexPrefix(Field(u[k], Width(k)), [Separator(k)] + FieldsText(u, k + 1), [Separator(k)] + FieldsText(v, k + 1));
    }
  }

  lemma FieldsFit(tm: Tm, msPart: nat, at: nat)
    requires IsCivil(tm) && 70 <= tm.year < 8100 && msPart < 1000 && at < 7
    ensures Fields(tm, msPart)[at] < Pow10(Width(at))
  {
    assert Pow10(2) == 100 && Pow10(3) == 1000 && Pow10(4) == 10000;
  }

  lemma FirstDifference(a: Tm, am: nat, b: Tm, bm: nat) returns (at: nat)
    requires IsCivil(a) && IsCivil(b) && a.year >= 70 && b.year >= 70
    requires Earlier(a, b) || (a == b && am < bm)
    ensures at < 7 && Fields(a, am)[at] < Fields(b, bm)[at]
    ensures forall i :: 0 <= i < at ==> Fields(a, am)[i] == Fields(b, bm)[i]
  {
    at := if a.year != b.year then 0 else if a.mon != b.mon then 1 else if a.mday != b.mday then 2
          else if a.hour != b.hour then 3 else if a.min != b.min then 4 else if a.sec != b.sec then 5 else 6;
  }

  lemma TmTextOrder(a: Tm, am: nat, b: Tm, bm: nat)
    requires IsCivil(a) && IsCivil(b) && a.year >= 70 && 70 <= b.year < 8100 && bm < 1000
    requires Earlier(a, b) || (a == b && am < bm)
    ensures LexLess(TmText(a, am), TmText(b, bm))
  {
    var at := FirstDifference(a, am, b, bm);
    TmTextFields(a, am);
    TmTextFields(b, bm);
    FieldsFit(b, bm, at);
    FieldsOrder(Fields(a, am), Fields(b, bm), 0, at);
  }

  lemma TimeOrder(a: nat, am: nat, b: nat, bm: nat)
    requires a < b || (a == b && am < bm)
    ensures IsCivil(GmTime(a)) && IsCivil(GmTime(b)) && GmTime(a).year >= 70 && GmTime(b).year >= 70
    ensures Earlier(GmTime(a), GmTime(b)) || (GmTime(a) == GmTime(b) && am < bm)
  {
    GmTimeInverse(a);
    GmTimeInverse(b);
    if a < b {
      GmTimeMonotone(a, b);
    }
  }

  // Later instants print later in the dictionary, all through the four-digit years.
  lemma PrintOrder(a: nat, b: nat)
    requires a < b <= MAX_MS
    ensures LexLess(UtcText(a), UtcText(b))
  {
    TimeOrder(a / 1000, a % 1000, b / 1000, b % 1000);
    LastYear(b);
    TmTextOrder(GmTime(a / 1000), a % 1000, GmTime(b / 1000), b % 1000);
  }

  // The separators where section 5.6 of RFC 3339 puts them, and digits everywhere else.
  predicate Shape(text: string) {
    |text| == 24 && forall i :: 0 <= i < 24 ==>
      if i == 4 || i == 7 then text[i] == '-'
      else if i == 10 then text[i] == 'T'
      else if i == 13 || i == 16 then text[i] == ':'
      else if i == 19 then text[i] == '.'
      else if i == 23 then text[i] == 'Z'
      else IsDigit(text[i])
  }

  lemma LayoutShape(text: string, tm: Tm, msPart: nat)
    requires Layout(text, tm, msPart) && Full(text, 0, 4)
    ensures Shape(text)
  {
    FullDigits(text, 0, 4);
    FullDigits(text, 5, 2);
    FullDigits(text, 8, 2);
    FullDigits(text, 11, 2);
    FullDigits(text, 14, 2);
    FullDigits(text, 17, 2);
    FullDigits(text, 20, 3);
  }

  lemma YearShape(text: string, tm: Tm, msPart: nat)
    requires Layout(text, tm, msPart) && 70 <= tm.year < 8100 && text[0..4] == Field(tm.year + 1900, 4)
    ensures Shape(text) && text[0] != NUL
  {
    YearTail(text, tm.year + 1900);
    LayoutShape(text, tm, msPart);
    assert IsDigit(text[0]);
  }

  lemma TmTextShape(tm: Tm, msPart: nat)
    requires IsCivil(tm) && 70 <= tm.year < 8100 && msPart < 1000
    ensures Shape(TmText(tm, msPart)) && TmText(tm, msPart)[0] != NUL
  {
    TmTextLayout(tm, msPart);
    YearShape(TmText(tm, msPart), tm, msPart);
  }

  // Up to the end of year 9999 the printed form has that shape.
  lemma PrintShape(ms: nat)
    requires ms <= MAX_MS
    ensures Printed(ms) == UtcText(ms) && Shape(Printed(ms))
  {
    GmTimeInverse(ms / 1000);
    LastYear(ms);
    TmTextShape(GmTime(ms / 1000), ms % 1000);
    PrintedText(ms);
  }
}
