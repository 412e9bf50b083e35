// What the timestamp text means, independently of how the parsers move their cursor:
// a grammar of spellings, the language each parser accepts, and the round trip.
module Timestamps {
  import opened Wrappers
  import opened CText
  import opened Digits
  import opened Calendar
  import opened Sscanf
  import opened Iso8601

  datatype Zone = NoZone | Zulu | FractionZulu(msec: nat)

  // month and day count from 1, the year is the full year; sec is absent in minute-only times.
  datatype Stamp =
    | Bare(year: nat, month: nat, day: nat)
    | Timed(year: nat, month: nat, day: nat, hour: nat, min: nat, sec: Option<nat>, zone: Zone)
  {
    predicate WellFormed() {
      && year < 10000 && month < 100 && day < 100
      && (Timed? ==>
        && hour < 100 && min < 100
        && (sec.Some? ==> sec.value < 100)
        && (sec.None? ==> zone.NoZone?)
        && (zone.FractionZulu? ==> zone.msec < 1000))
    }

    function Time(): Tm {
      if Bare? then Tm(year - 1900, month - 1, day, 0, 0, 0)
      else Tm(year - 1900, month - 1, day, hour, min, if sec.Some? then sec.value else 0)
    }

    function Millis(): nat {
      if Timed? && zone.FractionZulu? then zone.msec else 0
    }

    function Instant(): int {
      TimeGm(Time()) * 1000 + Millis()
    }
  }

  // Extended or basic date, and the two optional colons of the time.
  datatype Spelling = Spelling(dashes: bool, colon1: bool, colon2: bool)

  function Sep(on: bool, c: char): string {
    if on then [c] else []
  }

  function ZoneText(zone: Zone): string {
    match zone
    case NoZone => []
    case Zulu => ['Z']
    case FractionZulu(msec) => ['.'] + (Field(msec, 3) + ['Z'])
  }

  function SecondText(sec: Option<nat>): string {
    match sec
    case None => []
    case Some(s) => Field(s, 2)
  }

  function ClockText(sp: Spelling, st: Stamp): string
    requires st.Timed?
  {
    Field(st.hour, 2) + (Sep(sp.colon1, ':') + (Field(st.min, 2) + (Sep(sp.colon2, ':')
    + (SecondText(st.sec) + ZoneText(st.zone)))))
  }

  function DateText(sp: Spelling, st: Stamp): string {
    Field(st.year, 4) + (Sep(sp.dashes, '-') + (Field(st.month, 2) + (Sep(sp.dashes, '-') + Field(st.day, 2))))
  }

  function Render(sp: Spelling, st: Stamp): string {
    DateText(sp, st) + if st.Bare? then [] else ['T'] + ClockText(sp, st)
  }

  // Text that spells st; nothing behind a Z is looked at.
  predicate Spells(text: string, sp: Spelling, st: Stamp, rest: string) {
    text == Render(sp, st) + rest && (rest != [] ==> st.Timed? && !st.zone.NoZone?)
  }

  // ---------------------------------------------------------------- a reader for full-width fields

  function ReadDate(text: string): (r: Option<(nat, nat, nat, nat)>)
    ensures r.Some? ==> r.value.3 <= |text|
  {
    if Full(text, 0, 4) && At(text, 4) == '-' && Full(text, 5, 2) && At(text, 7) == '-' && Full(text, 8, 2) then
      Some((Number(text, 0, 4), Number(text, 5, 2), Number(text, 8, 2), 10))
    else if Full(text, 0, 4) && Full(text, 4, 2) && Full(text, 6, 2) then
      Some((Number(text, 0, 4), Number(text, 4, 2), Number(text, 6, 2), 8))
    else None
  }

  function ReadClock(text: string, c: nat): (r: Option<(nat, nat, nat)>)
    ensures r.Some? ==> r.value.2 <= |text|
  {
    if Full(text, c, 2) && Full(text, c + 2, 2) then
      Some((Number(text, c, 2), Number(text, c + 2, 2), c + 4))
    else if Full(text, c, 2) && At(text, c + 2) == ':' && Full(text, c + 3, 2) then
      Some((Number(text, c, 2), Number(text, c + 3, 2), c + 5))
    else None
  }

  function ReadZone(text: string, c: nat): Option<Zone>
    requires c <= |text|
  {
    if c == |text| then Some(NoZone)
    else if text[c] == 'Z' then Some(Zulu)
    else if text[c] == '.' && Full(text, c + 1, 3) && At(text, c + 4) == 'Z' then
      Some(FractionZulu(Number(text, c + 1, 3)))
    else None
  }

  function SkipColon(text: string, c: nat): (r: nat)
    requires c <= |text|
    ensures c <= r <= |text|
  {
    if At(text, c) == ':' then c + 1 else c
  }

  function ReadStamp(text: string): Option<Stamp> {
    match ReadDate(text)
    case None => None
    case Some((y, m, d, c)) => ReadRest(text, y, m, d, c)
  }

  function ReadTail(text: string, y: nat, m: nat, d: nat, h: nat, mi: nat, c: nat): Option<Stamp>
    requires c <= |text|
  {
    var c3 := SkipColon(text, c);
    if c3 == |text| then Some(Timed(y, m, d, h, mi, None, NoZone))
    else if !Full(text, c3, 2) then None
    else
      match ReadZone(text, c3 + 2)
      case None => None
      case Some(zone) => Some(Timed(y, m, d, h, mi, Some(Number(text, c3, 2)), zone))
  }

  // Every numeric field a parser tries is at full width in digits, or is not number-like.
  predicate FixedDate(text: string) {
    || (Full(text, 0, 4) && At(text, 4) == '-' && Full(text, 5, 2) && At(text, 7) == '-' && Full(text, 8, 2))
    || (Clear(text, 0, 4) && (Full(text, 0, 4) ==> Clear(text, 4, 2) && (Full(text, 4, 2) ==> Clear(text, 6, 2))))
  }

  predicate FixedClock(text: string, c: nat) {
    && Clear(text, c, 2)
    && (Full(text, c, 2) ==> Clear(text, c + 2, 2) && (At(text, c + 2) == ':' ==> Clear(text, c + 3, 2)))
  }

  predicate FixedSeconds(text: string, c: nat)
    requires c <= |text|
  {
    var c3 := SkipColon(text, c);
    && Clear(text, c3, 2)
    && (Full(text, c3, 2) && At(text, c3 + 2) == '.' ==> Clear(text, c3 + 3, 3))
  }

  predicate FixedWidth(text: string) {
    && NUL !in text
    && FixedDate(text)
    && (ReadDate(text).Some? ==>
      var c := ReadDate(text).value.3;
      At(text, c) == 'T' ==>
        && FixedClock(text, c + 1)
        && (ReadClock(text, c + 1).Some? ==> FixedSeconds(text, ReadClock(text, c + 1).value.2)))
  }

  // ---------------------------------------------------------------- the parsers against the reader

  // The readings each parser takes as a timestamp.
  predicate ZuluTakes(st: Stamp) {
    st.Bare? || !st.zone.NoZone?
  }

  predicate GenericTakes(st: Stamp) {
    st.Timed? && !st.zone.Zulu?
  }

  function Worth(st: Option<Stamp>, takes: Stamp -> bool): Verdict {
    if st.Some? && takes(st.value) then Stamped(st.value.Time(), st.value.Millis()) else Nothing
  }

  lemma DateAgrees(text: string)
    requires FixedDate(text)
    ensures match ReadDate(text)
            case None => ScanDate(text, Some('-')).None? && ScanDate(text, None).None?
            case Some((y, m, d, c)) =>
              if c == 10 then ScanDate(text, Some('-')) == Some((y as int, m as int, d as int))
              else c == 8 && ScanDate(text, Some('-')).None?
                   && ScanDate(text, None) == Some((y as int, m as int, d as int))
  {
    ScanClear(text, 0, 4);
    if Full(text, 0, 4) {
      if At(text, 4) == '-' {
        ScanClear(text, 5, 2);
        ScanClear(text, 8, 2);
      } else {
        ScanClear(text, 4, 2);
        if Full(text, 4, 2) {
          ScanClear(text, 6, 2);
        }
      }
    }
  }

  lemma ClockAgrees(text: string, c: nat)
    requires c <= |text| && FixedClock(text, c)
    ensures match ReadClock(text, c)
            case None => ScanClock(text, c, None).None? && ScanClock(text, c, Some(':')).None?
            case Some((h, m, c2)) =>
              if c2 == c + 4 then ScanClock(text, c, None) == Some((h as int, m as int))
              else c2 == c + 5 && ScanClock(text, c, None).None?
                   && ScanClock(text, c, Some(':')) == Some((h as int, m as int))
  {
    ScanClear(text, c, 2);
    if Full(text, c, 2) {
      ScanClear(text, c + 2, 2);
      if At(text, c + 2) == ':' {
        ScanClear(text, c + 3, 2);
      }
    }
  }

  lemma FractionAgrees(text: string, tm: Tm, c: nat)
    requires c < |text| && text[c] == '.' && Clear(text, c + 1, 3)
    ensures Fraction(text, tm, c + 1)
         == match ReadZone(text, c)
            case None => Nothing
            case Some(zone) => Stamped(tm, if zone.FractionZulu? then zone.msec else 0)
  {
    ScanClear(text, c + 1, 3);
  }

  // What the shared head delivers, given what the reader sees behind the date.
  lemma SecondsAgree(text: string, y: nat, m: nat, d: nat, h: nat, mi: nat, c: nat)
    requires NUL !in text && c <= |text| && FixedSeconds(text, c)
    ensures var c3 := SkipColon(text, c);
            ClockHead(text, (y, m, d), (h, mi), c)
            == if c3 == |text| then DateTime(Tm(y - 1900, m - 1, d, h, mi, 0), c3)
               else if Full(text, c3, 2) then
                 DateTime(Tm(y - 1900, m - 1, d, h, mi, Number(text, c3, 2)), c3 + 2)
               else Fail
  {
    ScanClear(text, SkipColon(text, c), 2);
  }

  lemma TailAgrees(text: string, y: nat, m: nat, d: nat, h: nat, mi: nat, c: nat)
    requires NUL !in text && c <= |text| && FixedSeconds(text, c)
    ensures var head, st := ClockHead(text, (y, m, d), (h, mi), c), ReadTail(text, y, m, d, h, mi, c);
            && ZuluVerdict(text, head) == Worth(st, ZuluTakes)
            && GenericVerdict(text, head) == Worth(st, GenericTakes)
  {
    SecondsAgree(text, y, m, d, h, mi, c);
    var c3 := SkipColon(text, c);
    if Full(text, c3, 2) && At(text, c3 + 2) == '.' {
      FractionAgrees(text, Tm(y - 1900, m - 1, d, h, mi, Number(text, c3, 2)), c3 + 2);
    }
  }

  // What follows a date.
  function ReadTime(text: string, y: nat, m: nat, d: nat, c: nat): Option<Stamp> {
    match ReadClock(text, c)
    case None => None
    case Some((h, mi, c2)) => ReadTail(text, y, m, d, h, mi, c2)
  }

  lemma TimeAgrees(text: string, y: nat, m: nat, d: nat, c: nat)
    requires NUL !in text && c < |text| && text[c] == 'T' && FixedClock(text, c + 1)
    requires ReadClock(text, c + 1).Some? ==> FixedSeconds(text, ReadClock(text, c + 1).value.2)
    ensures var head, st := DateHead(text, (y, m, d), c), ReadTime(text, y, m, d, c + 1);
            && ZuluVerdict(text, head) == Worth(st, ZuluTakes)
            && GenericVerdict(text, head) == Worth(st, GenericTakes)
  {
    ClockAgrees(text, c + 1);
    if ReadClock(text, c + 1).Some? {
      var (h, mi, c2) := ReadClock(text, c + 1).value;
      assert DateHead(text, (y, m, d), c) == ClockHead(text, (y, m, d), (h, mi), c2);
      TailAgrees(text, y, m, d, h, mi, c2);
    }
  }

  // The head begins with the date that the reader sees.
  lemma HeadAgrees(text: string)
    requires FixedDate(text)
    ensures ReadHead(text) == match ReadDate(text)
                              case None => Fail
                              case Some((y, m, d, c)) => DateHead(text, (y, m, d), c)
  {
    DateAgrees(text);
  }

  // What follows the date, or that nothing does.
  function ReadRest(text: string, y: nat, m: nat, d: nat, c: nat): Option<Stamp>
    requires c <= |text|
  {
    if c == |text| then Some(Bare(y, m, d))
    else if text[c] != 'T' then None
    else ReadTime(text, y, m, d, c + 1)
  }

  lemma StampAgrees(text: string, y: nat, m: nat, d: nat, c: nat)
    requires NUL !in text && c <= |text| && (At(text, c) == 'T' ==> FixedClock(text, c + 1))
    requires At(text, c) == 'T' && ReadClock(text, c + 1).Some? ==> FixedSeconds(text, ReadClock(text, c + 1).value.2)
    ensures var head, st := DateHead(text, (y, m, d), c), ReadRest(text, y, m, d, c);
            && ZuluVerdict(text, head) == Worth(st, ZuluTakes)
            && GenericVerdict(text, head) == Worth(st, GenericTakes)
  {
    if At(text, c) == 'T' {
      TimeAgrees(text, y, m, d, c);
    }
  }

  // On fixed-width texts each parser returns what the grammar reading is worth to it.
  lemma ParsersAgree(text: string)
    requires FixedWidth(text)
    ensures ZuluVerdict(text, ReadHead(text)) == Worth(ReadStamp(text), ZuluTakes)
    ensures GenericVerdict(text, ReadHead(text)) == Worth(ReadStamp(text), GenericTakes)
  {
    HeadAgrees(text);
    if ReadDate(text).Some? {
      var (y, m, d, c) := ReadDate(text).value;
      StampAgrees(text, y, m, d, c);
    }
  }

  // ---------------------------------------------------------------- rendering and reading are inverse

  lemma DigitsAt(text: string, before: string, digits: string, after: string)
    requires text == before + (digits + after) && AllDigits(digits)
    ensures Full(text, |before|, |digits|) && Number(text, |before|, |digits|) == ScanValue(digits)
    ensures digits != [] ==> IsDigit(text[|before|])
  {
    assert text[|before|..|before| + |digits|] == digits;
  }

  lemma NotFull(text: string, c: nat, width: nat)
    requires c < |text| && !IsDigit(text[c]) && width > 0
    ensures !Full(text, c, width)
  {
    assert c + width <= |text| ==> text[c..c + width][0] == text[c];
  }

  lemma DateSlices(y: string, m: string, d: string, rest: string)
    requires |y| == 4 && |m| == 2 && |d| == 2
    ensures var text := y + (['-'] + (m + (['-'] + d))) + rest;
            |text| >= 10 && text[0..4] == y && text[4] == '-' && text[5..7] == m && text[7] == '-' && text[8..10] == d
  {
  }

  lemma ReadDateExtended(text: string, y: string, m: string, d: string, rest: string)
    requires |y| == 4 && |m| == 2 && |d| == 2 && AllDigits(y) && AllDigits(m) && AllDigits(d)
    requires text == y + (['-'] + (m + (['-'] + d))) + rest
    ensures ReadDate(text) == Some((ScanValue(y), ScanValue(m), ScanValue(d), 10))
  {
    DateSlices(y, m, d, rest);
  }

  lemma ReadDateBasic(text: string, y: string, m: string, d: string, rest: string)
    requires |y| == 4 && |m| == 2 && |d| == 2 && AllDigits(y) && AllDigits(m) && AllDigits(d)
    requires text == y + (m + d) + rest
    ensures ReadDate(text) == Some((ScanValue(y), ScanValue(m), ScanValue(d), 8))
  {
    assert text[0..4] == y && text[4..6] == m && text[6..8] == d;
    assert text[4] == m[0];
  }

  lemma FixedDateRead(text: string)
    requires ReadDate(text).Some?
    ensures FixedDate(text)
  {
  }

  lemma NoSeparators(y: string, m: string, d: string, rest: string)
    ensures y + ([] + (m + ([] + d))) + rest == y + (m + d) + rest
  {
  }

  lemma ReadDateDigits(text: string, y: string, m: string, d: string, dashes: bool, rest: string)
    requires |y| == 4 && |m| == 2 && |d| == 2 && AllDigits(y) && AllDigits(m) && AllDigits(d)
    requires text == y + (Sep(dashes, '-') + (m + (Sep(dashes, '-') + d))) + rest
    ensures ReadDate(text) == Some((ScanValue(y), ScanValue(m), ScanValue(d), if dashes then 10 else 8))
    ensures FixedDate(text)
  {
    if dashes {
      ReadDateExtended(text, y, m, d, rest);
    } else {
      NoSeparators(y, m, d, rest);
      ReadDateBasic(text, y, m, d, rest);
    }
    FixedDateRead(text);
  }

  lemma ReadClockDigits(before: string, h: string, m: string, colon: bool, rest: string)
    requires |h| == 2 && |m| == 2 && AllDigits(h) && AllDigits(m)
    ensures var head := before + (h + (Sep(colon, ':') + m));
            && ReadClock(head + rest, |before|) == Some((ScanValue(h), ScanValue(m), |head|))
            && FixedClock(head + rest, |before|)
  {
    var sep := Sep(colon, ':');
    var text := before + (h + (sep + m)) + rest;
    assert text == before + (h + (sep + m + rest));
    DigitsAt(text, before, h, sep + m + rest);
    assert text == (before + h + sep) + (m + rest);
    DigitsAt(text, before + h + sep, m, rest);
    if colon {
      assert text[|before| + 2] == ':';
      NotFull(text, |before| + 2, 2);
    }
  }

  lemma ReadFraction(text: string, before: string, digits: string, rest: string)
    requires text == before + (['.'] + (digits + ['Z']) + rest) && |digits| == 3 && AllDigits(digits)
    ensures Full(text, |before| + 1, 3) && ReadZone(text, |before|) == Some(FractionZulu(ScanValue(digits)))
  {
    assert text == (before + ['.']) + (digits + (['Z'] + rest));
    DigitsAt(text, before + ['.'], digits, ['Z'] + rest);
    assert text[|before|] == '.' && text[|before| + 4] == 'Z';
  }

  lemma ReadZoneText(text: string, before: string, zone: Zone, rest: string)
    requires text == before + (ZoneText(zone) + rest)
    requires zone.FractionZulu? ==> zone.msec < 1000
    requires rest != [] ==> !zone.NoZone?
    ensures ReadZone(text, |before|) == Some(zone)
    ensures zone.FractionZulu? ==> Full(text, |before| + 1, 3)
  {
    if zone.FractionZulu? {
      assert Pow10(3) == 1000;
      ScanField(zone.msec, 3);
      ReadFraction(text, before, Field(zone.msec, 3), rest);
    } else if zone.Zulu? {
      assert text[|before|] == 'Z';
    }
  }

  lemma ComposeTail(text: string, c: nat, c3: nat, st: Stamp)
    requires st.Timed? && st.sec.Some? && c <= |text| && SkipColon(text, c) == c3
    requires Full(text, c3, 2) && Number(text, c3, 2) == st.sec.value
    requires ReadZone(text, c3 + 2) == Some(st.zone)
    requires st.zone.FractionZulu? ==> Full(text, c3 + 3, 3)
    ensures ReadTail(text, st.year, st.month, st.day, st.hour, st.min, c) == Some(st)
    ensures FixedSeconds(text, c)
  {
  }

  lemma Regroup(a: string, b: string, c: string, d: string, e: string)
    ensures a + (b + (c + d)) + e == (a + b) + (c + (d + e))
    ensures a + (b + (c + d)) + e == (a + b + c) + (d + e)
  {
  }

  lemma SecondsAt(text: string, before: string, colon: bool, s: string, after: string)
    requires text == (before + Sep(colon, ':')) + (s + after) && |s| == 2 && AllDigits(s)
    ensures var start := |before + Sep(colon, ':')|;
            Full(text, start, 2) && Number(text, start, 2) == ScanValue(s) && SkipColon(text, |before|) == start
  {
    DigitsAt(text, before + Sep(colon, ':'), s, after);
    assert colon ==> text[|before|] == ':';
  }

  lemma ReadTailDigits(text: string, before: string, colon: bool, st: Stamp, s: string, rest: string)
    requires st.WellFormed() && st.Timed? && st.sec.Some? && (rest != [] ==> !st.zone.NoZone?)
    requires text == before + (Sep(colon, ':') + (s + ZoneText(st.zone))) + rest
    requires |s| == 2 && AllDigits(s) && ScanValue(s) == st.sec.value
    ensures ReadTail(text, st.year, st.month, st.day, st.hour, st.min, |before|) == Some(st)
    ensures FixedSeconds(text, |before|)
  {
    var start, zone := before + Sep(colon, ':'), ZoneText(st.zone) + rest;
    Regroup(before, Sep(colon, ':'), s, ZoneText(st.zone), rest);
    SecondsAt(text, before, colon, s, zone);
    ReadZoneText(text, start + s, st.zone, rest);
    ComposeTail(text, |before|, |start|, st);
  }

  lemma ReadTailText(text: string, before: string, colon: bool, st: Stamp, rest: string)
    requires st.WellFormed() && st.Timed? && (rest != [] ==> !st.zone.NoZone?)
    requires text == before + (Sep(colon, ':') + (SecondText(st.sec) + ZoneText(st.zone))) + rest
    ensures ReadTail(text, st.year, st.month, st.day, st.hour, st.min, |before|) == Some(st)
    ensures FixedSeconds(text, |before|)
  {
    match st.sec
    case None =>
      assert text == before + Sep(colon, ':');
    case Some(sec) =>
      assert Pow10(2) == 100;
      ScanField(sec, 2);
      ReadTailDigits(text, before, colon, st, Field(sec, 2), rest);
  }

  lemma ReadDateText(text: string, sp: Spelling, st: Stamp, rest: string)
    requires st.WellFormed() && text == DateText(sp, st) + rest
    ensures ReadDate(text) == Some((st.year, st.month, st.day, |DateText(sp, st)|))
    ensures FixedDate(text)
  {
    assert Pow10(2) == 100 && Pow10(4) == 10000;
    ScanField(st.year, 4);
    ScanField(st.month, 2);
    ScanField(st.day, 2);
    ReadDateDigits(text, Field(st.year, 4), Field(st.month, 2), Field(st.day, 2), sp.dashes, rest);
  }

  lemma ReadClockText(text: string, before: string, sp: Spelling, st: Stamp, clock: string, rest: string)
    requires st.WellFormed() && st.Timed? && text == before + clock + rest
    requires clock == Field(st.hour, 2) + (Sep(sp.colon1, ':') + Field(st.min, 2))
    ensures ReadClock(text, |before|) == Some((st.hour, st.min, |before + clock|))
    ensures FixedClock(text, |before|)
  {
    assert Pow10(2) == 100;
    ScanField(st.hour, 2);
    ScanField(st.min, 2);
    ReadClockDigits(before, Field(st.hour, 2), Field(st.min, 2), sp.colon1, rest);
  }

  lemma ComposeStamp(text: string, st: Stamp, c: nat, c2: nat)
    requires st.Timed? && c < |text| && text[c] == 'T'
    requires ReadDate(text) == Some((st.year, st.month, st.day, c)) && FixedDate(text)
    requires ReadClock(text, c + 1) == Some((st.hour, st.min, c2)) && FixedClock(text, c + 1)
    requires ReadTail(text, st.year, st.month, st.day, st.hour, st.min, c2) == Some(st) && FixedSeconds(text, c2)
    ensures ReadStamp(text) == Some(st)
    ensures NUL !in text ==> FixedWidth(text)
  {
  }

  // Every spelling of a stamp is fixed-width text and reads back as that stamp, whatever follows a Z.
  lemma ReadRender(text: string, sp: Spelling, st: Stamp, rest: string)
    requires st.WellFormed() && Spells(text, sp, st, rest)
    ensures ReadStamp(text) == Some(st)
    ensures NUL !in text ==> FixedWidth(text)
  {
    if st.Bare? {
      assert text == DateText(sp, st) + [];
      ReadDateText(text, sp, st, []);
    } else {
      var l := SecondText(st.sec) + ZoneText(st.zone);
      RegroupStamp(DateText(sp, st), Field(st.hour, 2), Sep(sp.colon1, ':'), Field(st.min, 2), Sep(sp.colon2, ':'), l,
                   rest);
      var clock, tail := Field(st.hour, 2) + (Sep(sp.colon1, ':') + Field(st.min, 2)), Sep(sp.colon2, ':') + l;
      ReadDateText(text, sp, st, ['T'] + clock + tail + rest);
      ReadTimed(text, DateText(sp, st), sp, st, clock, tail, rest);
    }
  }

  lemma ReadTimed(text: string, d: string, sp: Spelling, st: Stamp, clock: string, tail: string, rest: string)
    requires st.WellFormed() && st.Timed? && (rest != [] ==> !st.zone.NoZone?)
    requires clock == Field(st.hour, 2) + (Sep(sp.colon1, ':') + Field(st.min, 2))
    requires tail == Sep(sp.colon2, ':') + (SecondText(st.sec) + ZoneText(st.zone))
    requires ReadDate(text) == Some((st.year, st.month, st.day, |d|)) && FixedDate(text)
    requires text == (d + ['T']) + clock + (tail + rest)
    requires text == (d + ['T'] + clock) + tail + rest
    requires |d| < |text| && text[|d|] == 'T'
    ensures ReadStamp(text) == Some(st)
    ensures NUL !in text ==> FixedWidth(text)
  {
    ReadClockText(text, d + ['T'], sp, st, clock, tail + rest);
    ReadTailText(text, d + ['T'] + clock, sp.colon2, st, rest);
    ComposeStamp(text, st, |d|, |d + ['T'] + clock|);
  }

  lemma RegroupStamp(d: string, h: string, s1: string, m: string, s2: string, l: string, rest: string)
    ensures var clock, tail := h + (s1 + m), s2 + l;
            var text := d + (['T'] + (h + (s1 + (m + (s2 + l))))) + rest;
            && text == d + (['T'] + clock + tail + rest)
            && text == (d + ['T']) + clock + (tail + rest)
            && text == (d + ['T'] + clock) + tail + rest
            && |d| < |text| && text[|d|] == 'T'
  {
    assert h + (s1 + (m + (s2 + l))) == (h + (s1 + m)) + (s2 + l);
  }

  lemma DateSpelled(text: string, sp: Spelling, st: Stamp, c: nat)
    requires ReadDate(text) == Some((st.year, st.month, st.day, c)) && sp.dashes == (c == 10)
    ensures DateText(sp, st) == text[..c] && st.year < 10000 && st.month < 100 && st.day < 100
  {
    assert Pow10(2) == 100 && Pow10(4) == 10000;
    PrintScan(text[0..4], 4);
    if c == 10 {
      PrintScan(text[5..7], 2);
      PrintScan(text[8..10], 2);
      assert text[..10] == text[0..4] + (['-'] + (text[5..7] + (['-'] + text[8..10])));
    } else {
      PrintScan(text[4..6], 2);
      PrintScan(text[6..8], 2);
      assert text[..8] == text[0..4] + ([] + (text[4..6] + ([] + text[6..8])));
    }
  }

  lemma ClockSpelled(text: string, c: nat, sp: Spelling, h: nat, mi: nat, c2: nat)
    requires ReadClock(text, c) == Some((h, mi, c2)) && sp.colon1 == (c2 == c + 5)
    ensures Field(h, 2) + (Sep(sp.colon1, ':') + Field(mi, 2)) == text[c..c2] && h < 100 && mi < 100
  {
    assert Pow10(2) == 100;
    PrintScan(text[c..c + 2], 2);
    if c2 == c + 5 {
      PrintScan(text[c + 3..c + 5], 2);
      assert text[c..c2] == text[c..c + 2] + ([':'] + text[c + 3..c + 5]);
    } else {
      PrintScan(text[c + 2..c + 4], 2);
      assert text[c..c2] == text[c..c + 2] + ([] + text[c + 2..c + 4]);
    }
  }

  lemma ZoneSpelled(text: string, c: nat, zone: Zone) returns (rest: string)
    requires c <= |text| && ReadZone(text, c) == Some(zone)
    ensures ZoneText(zone) + rest == text[c..] && (rest != [] ==> !zone.NoZone?)
    ensures zone.FractionZulu? ==> zone.msec < 1000
  {
    match zone
    case NoZone =>
      rest := [];
    case Zulu =>
      rest := text[c + 1..];
    case FractionZulu(msec) =>
      assert Pow10(3) == 1000;
      PrintScan(text[c + 1..c + 4], 3);
      rest := text[c + 5..];
      assert text[c..] == ['.'] + (text[c + 1..c + 4] + ['Z']) + rest;
  }

  lemma TailSpelled(text: string, c: nat, sp: Spelling, st: Stamp) returns (rest: string)
    requires st.Timed? && c <= |text| && sp.colon2 == (SkipColon(text, c) > c)
    requires ReadTail(text, st.year, st.month, st.day, st.hour, st.min, c) == Some(st)
    ensures Sep(sp.colon2, ':') + (SecondText(st.sec) + ZoneText(st.zone)) + rest == text[c..]
    ensures (rest != [] ==> !st.zone.NoZone?) && (st.sec.None? ==> st.zone.NoZone?)
    ensures (st.sec.Some? ==> st.sec.value < 100) && (st.zone.FractionZulu? ==> st.zone.msec < 1000)
  {
    var c3 := SkipColon(text, c);
    assert text[c..] == Sep(sp.colon2, ':') + text[c3..];
    if c3 == |text| {
      rest := [];
      assert text[c3..] == [];
    } else {
      assert Pow10(2) == 100;
      PrintScan(text[c3..c3 + 2], 2);
      rest := ZoneSpelled(text, c3 + 2, st.zone);
      TailPieces(text[c..], Sep(sp.colon2, ':'), text[c3..c3 + 2], ZoneText(st.zone), rest, text[c3..]);
    }
  }

  lemma TailPieces(tail: string, sep: string, sec: string, zone: string, rest: string, behind: string)
    requires tail == sep + behind && |behind| >= |sec| && behind[..|sec|] == sec && behind[|sec|..] == zone + rest
    ensures sep + (sec + zone) + rest == tail
  {
    assert behind == sec + (zone + rest);
    assert (sec + zone) + rest == sec + (zone + rest);
  }

  lemma StampPieces(text: string, c: nat, c2: nat, d: string, clock: string, tail: string, rest: string)
    requires c < c2 <= |text| && text[..c] == d && text[c] == 'T' && text[c + 1..c2] == clock
    requires text[c2..] == tail + rest
    ensures text == d + (['T'] + clock + tail + rest)
  {
    assert text == text[..c] + (['T'] + text[c + 1..c2] + text[c2..]);
    assert ['T'] + clock + tail + rest == ['T'] + clock + (tail + rest);
  }

  // What the reader accepts is a spelling of what it read.
  lemma RenderRead(text: string) returns (sp: Spelling, rest: string)
    requires ReadStamp(text).Some?
    ensures ReadStamp(text).value.WellFormed() && Spells(text, sp, ReadStamp(text).value, rest)
  {
    var st := ReadStamp(text).value;
    if st.Bare? {
      sp, rest := RenderReadBare(text, st);
    } else {
      sp, rest := RenderReadTimed(text, st, ReadDate(text).value.3);
    }
  }

  lemma RenderReadBare(text: string, st: Stamp) returns (sp: Spelling, rest: string)
    requires ReadStamp(text) == Some(st) && st.Bare?
    ensures st.WellFormed() && Spells(text, sp, st, rest)
  {
    var c := ReadDate(text).value.3;
    sp, rest := Spelling(c == 10, false, false), [];
    DateSpelled(text, sp, st, c);
  }

  lemma RenderReadTimed(text: string, st: Stamp, c: nat) returns (sp: Spelling, rest: string)
    requires ReadStamp(text) == Some(st) && st.Timed? && ReadDate(text).value.3 == c
    ensures st.WellFormed() && Spells(text, sp, st, rest)
  {
    var c2 := ReadClock(text, c + 1).value.2;
    sp := Spelling(c == 10, c2 == c + 6, SkipColon(text, c2) > c2);
    DateSpelled(text, sp, st, c);
    ClockSpelled(text, c + 1, sp, st.hour, st.min, c2);
    rest := TailSpelled(text, c2, sp, st);
    SpelledTimed(text, c, c2, sp, st, rest);
  }

  lemma SpelledTimed(text: string, c: nat, c2: nat, sp: Spelling, st: Stamp, rest: string)
    requires st.Timed? && (rest != [] ==> !st.zone.NoZone?)
    requires c < c2 <= |text| && DateText(sp, st) == text[..c] && text[c] == 'T'
    requires Field(st.hour, 2) + (Sep(sp.colon1, ':') + Field(st.min, 2)) == text[c + 1..c2]
    requires Sep(sp.colon2, ':') + (SecondText(st.sec) + ZoneText(st.zone)) + rest == text[c2..]
    ensures Spells(text, sp, st, rest)
  {
    var l := SecondText(st.sec) + ZoneText(st.zone);
    StampPieces(text, c, c2, DateText(sp, st), text[c + 1..c2], Sep(sp.colon2, ':') + l, rest);
    RegroupStamp(DateText(sp, st), Field(st.hour, 2), Sep(sp.colon1, ':'), Field(st.min, 2), Sep(sp.colon2, ':'), l,
                 rest);
  }

  // ---------------------------------------------------------------- main results

  ghost predicate Spelt(text: string, takes: Stamp -> bool) {
    exists sp, st: Stamp, rest :: st.WellFormed() && takes(st) && Spells(text, sp, st, rest)
  }

  // A text is spelt by a stamp exactly if it is read as one.
  lemma SpeltIsRead(text: string, takes: Stamp -> bool)
    ensures Spelt(text, takes) <==> ReadStamp(text).Some? && takes(ReadStamp(text).value)
  {
    forall sp, st: Stamp, rest | st.WellFormed() && Spells(text, sp, st, rest)
      ensures ReadStamp(text) == Some(st)
    {
      ReadRender(text, sp, st, rest);
    }
    if ReadStamp(text).Some? {
      var sp, rest := RenderRead(text);
    }
  }

  // A parser accepts exactly the spellings of the stamps it takes, and every spelling has the same value.
  lemma AcceptedLanguage(text: string)
    requires FixedWidth(text)
    ensures ZuluVerdict(text, ReadHead(text)).Stamped? <==> Spelt(text, ZuluTakes)
    ensures GenericVerdict(text, ReadHead(text)).Stamped? <==> Spelt(text, GenericTakes)
    ensures forall sp, st: Stamp, rest :: st.WellFormed() && Spells(text, sp, st, rest) ==>
              && ZuluVerdict(text, ReadHead(text)) == Worth(Some(st), ZuluTakes)
              && GenericVerdict(text, ReadHead(text)) == Worth(Some(st), GenericTakes)
  {
    ParsersAgree(text);
    SpeltIsRead(text, ZuluTakes);
    SpeltIsRead(text, GenericTakes);
    forall sp, st: Stamp, rest | st.WellFormed() && Spells(text, sp, st, rest)
      ensures ReadStamp(text) == Some(st)
    {
      ReadRender(text, sp, st, rest);
    }
  }

  // No four-digit year comes near the ends of the 64-bit range.
  lemma InstantBound(st: Stamp)
    requires st.WellFormed()
    ensures -0x8000_0000_0000_0000 < st.Instant() < 0x8000_0000_0000_0000
  {
    var tm := st.Time();
    var year := tm.year + 1900 + tm.mon / 12;
    assert -1 <= year <= 10007;
    DaysBound(year, tm.mon % 12);
    TimeGmBound(tm, DaysBeforeYear(year) + DaysBeforeMonth(year, tm.mon % 12));
  }

  lemma DaysBound(year: int, mon: nat)
    requires -1 <= year <= 10007 && mon < 12
    ensures -10_000_000 <= DaysBeforeYear(year) + DaysBeforeMonth(year, mon) <= 10_000_000
  {
    YearsGrow(-1, year);
    YearsBounded(-1, year);
    PosixFormula(-1);
    MonthsGrow(year, 0, mon);
    MonthsGrow(year, mon, 12);
    MonthsInYear(year);
  }

  lemma TimeGmBound(tm: Tm, days: int)
    requires days == DaysBeforeYear(tm.year + 1900 + tm.mon / 12)
                     + DaysBeforeMonth(tm.year + 1900 + tm.mon / 12, tm.mon % 12)
    requires -10_000_000 <= days <= 10_000_000
    requires 0 <= tm.mday < 100 && 0 <= tm.hour < 100 && 0 <= tm.min < 100 && 0 <= tm.sec < 100
    ensures -1_000_000_000_000 <= TimeGm(tm) <= 1_000_000_000_000
  {
  }

  lemma WrapZero(x: int)
    requires -0x8000_0000_0000_0000 < x < 0x8000_0000_0000_0000
    ensures ToUint64(x) == 0 <==> x == 0
  {
  }

  lemma TotalOfStamp(st: Stamp)
    ensures Total(Stamped(st.Time(), st.Millis())) == ToUint64(st.Instant())
  {
  }

  lemma WorthZero(st: Option<Stamp>, takes: Stamp -> bool)
    requires st.Some? ==> st.value.WellFormed()
    ensures Total(Worth(st, takes)) == 0 <==> st.None? || !takes(st.value) || st.value.Instant() == 0
  {
    if st.Some? {
      InstantBound(st.value);
      WrapZero(st.value.Instant());
      TotalOfStamp(st.value);
    }
  }

  lemma ReadWellFormed(text: string)
    requires ReadStamp(text).Some?
    ensures ReadStamp(text).value.WellFormed()
  {
    var sp, rest := RenderRead(text);
  }

  predicate ZuluNonzero(st: Stamp) {
    ZuluTakes(st) && st.Instant() != 0
  }

  predicate GenericNonzero(st: Stamp) {
    GenericTakes(st) && st.Instant() != 0
  }

  // A parser returns something other than 0 exactly for the spellings of the stamps it takes, the epoch excepted.
  lemma ZeroMeans(text: string)
    requires FixedWidth(text)
    ensures var a, b := ZuluVerdict(text, ReadHead(text)), GenericVerdict(text, ReadHead(text));
            && !a.Overrun? && !b.Overrun?
            && (Total(a) != 0 <==> Spelt(text, ZuluNonzero))
            && (Total(b) != 0 <==> Spelt(text, GenericNonzero))
  {
    ParsersAgree(text);
    if ReadStamp(text).Some? {
      ReadWellFormed(text);
    }
    WorthZero(ReadStamp(text), ZuluTakes);
    WorthZero(ReadStamp(text), GenericTakes);
    SpeltIsRead(text, ZuluNonzero);
    SpeltIsRead(text, GenericNonzero);
  }

  predicate FractionForm(st: Stamp) {
    st.Timed? && st.zone.FractionZulu? && st.Instant() != 0
  }

  lemma WorthCompared(st: Option<Stamp>)
    requires st.Some? ==> st.value.WellFormed()
    ensures var a, b := Worth(st, ZuluTakes), Worth(st, GenericTakes);
            (Total(a) == Total(b) && Total(a) != 0) <==> st.Some? && FractionForm(st.value)
  {
    WorthZero(st, ZuluTakes);
    WorthZero(st, GenericTakes);
  }

  // The two parsers return the same nonzero number exactly on the fraction-and-Z form
  // of an instant other than the epoch.
  lemma ParsersCompared(text: string)
    requires FixedWidth(text)
    ensures var a, b := ZuluVerdict(text, ReadHead(text)), GenericVerdict(text, ReadHead(text));
            && !a.Overrun? && !b.Overrun?
            && ((Total(a) == Total(b) && Total(a) != 0) <==> Spelt(text, FractionForm))
  {
    ParsersAgree(text);
    if ReadStamp(text).Some? {
      ReadWellFormed(text);
    }
    WorthCompared(ReadStamp(text));
    SpeltIsRead(text, FractionForm);
  }

  // A bare date is its midnight, a time without seconds its full minute.
  lemma MidnightMeans(year: nat, month: nat, day: nat, hour: nat, min: nat)
    ensures Bare(year, month, day).Instant() == Timed(year, month, day, 0, 0, Some(0), Zulu).Instant()
    ensures Timed(year, month, day, hour, min, None, NoZone).Instant()
         == Timed(year, month, day, hour, min, Some(0), Zulu).Instant()
  {
  }

  // ---------------------------------------------------------------- the second count of the generic parser

  lemma SecondsHead(text: string, before: string, colon: bool, st: Stamp, s: string, junk: string)
    requires st.Timed? && st.sec.Some? && |s| == 2 && AllDigits(s) && ScanValue(s) == st.sec.value
    requires text == (before + Sep(colon, ':')) + (s + junk) && NUL !in text
    ensures var head := ClockHead(text, (st.year, st.month, st.day), (st.hour, st.min), |before|);
            head.DateTime? && head.tm == st.Time()
  {
    var start := |before + Sep(colon, ':')|;
    SecondsAt(text, before, colon, s, junk);
    ScanClear(text, start, 2);
  }

  lemma ClockTextHead(text: string, d: string, sp: Spelling, st: Stamp, clock: string, tail: string)
    requires st.WellFormed() && st.Timed? && NUL !in text && text == d + ['T'] + clock + tail
    requires clock == Field(st.hour, 2) + (Sep(sp.colon1, ':') + Field(st.min, 2))
    ensures DateHead(text, (st.year, st.month, st.day), |d|)
         == ClockHead(text, (st.year, st.month, st.day), (st.hour, st.min), |d + ['T'] + clock|)
  {
    assert text[|d|] == 'T';
    ReadClockText(text, d + ['T'], sp, st, clock, tail);
    ClockAgrees(text, |d| + 1);
  }

  // Whatever follows a date and a time with seconds, the second count is that of the date and time.
  lemma IsoTimeMeans(text: string, sp: Spelling, st: Stamp, junk: string)
    requires st.WellFormed() && st.Timed? && st.sec.Some? && NUL !in text
    requires text == DateText(sp, st) + ['T'] + (Field(st.hour, 2) + (Sep(sp.colon1, ':') + Field(st.min, 2)))
                     + (Sep(sp.colon2, ':') + (Field(st.sec.value, 2) + junk))
    ensures EpochSeconds(ReadHead(text)) == TimeGm(st.Time())
  {
    var d, clock := DateText(sp, st), Field(st.hour, 2) + (Sep(sp.colon1, ':') + Field(st.min, 2));
    var s, colon := Field(st.sec.value, 2), Sep(sp.colon2, ':');
    assert Pow10(2) == 100;
    ScanField(st.sec.value, 2);
    RegroupTime(d, clock, colon, s, junk);
    ReadDateText(text, sp, st, ['T'] + clock + (colon + (s + junk)));
    HeadAgrees(text);
    ClockTextHead(text, d, sp, st, clock, colon + (s + junk));
    SecondsHead(text, d + ['T'] + clock, sp.colon2, st, s, junk);
  }

  lemma RegroupTime(d: string, clock: string, colon: string, s: string, junk: string)
    ensures var text := d + ['T'] + clock + (colon + (s + junk));
            && text == d + (['T'] + clock + (colon + (s + junk)))
            && text == (d + ['T'] + clock + colon) + (s + junk)
  {
  }

  lemma HeadOfDate(text: string, sp: Spelling, st: Stamp)
    requires st.WellFormed() && text == DateText(sp, st)
    ensures ReadDate(text) == Some((st.year, st.month, st.day, |text|)) && FixedDate(text)
  {
    assert text == DateText(sp, st) + [];
    ReadDateText(text, sp, st, []);
  }

  lemma WholeDateHead(text: string, y: nat, m: nat, d: nat, midnight: Tm)
    requires ReadDate(text) == Some((y, m, d, |text|)) && FixedDate(text)
    requires midnight == Tm(y - 1900, m - 1, d, 0, 0, 0)
    ensures EpochSeconds(ReadHead(text)) == TimeGm(midnight)
  {
    HeadAgrees(text);
    assert ReadHead(text) == DateOnly(midnight);
  }

  // The second count of a bare date is that of its midnight.
  lemma IsoTimeOfDate(text: string, sp: Spelling, st: Stamp, midnight: Tm)
    requires st.WellFormed() && text == DateText(sp, st)
    requires midnight == Tm(st.year - 1900, st.month - 1, st.day, 0, 0, 0)
    ensures EpochSeconds(ReadHead(text)) == TimeGm(midnight)
  {
    HeadOfDate(text, sp, st);
    WholeDateHead(text, st.year, st.month, st.day, midnight);
  }
}
