// The timestamp printer and the point-in-time part of the two timestamp parsers.
module Iso8601 {
  import opened Wrappers
  import opened CText
  import opened Digits
  import opened Calendar
  import opened Sscanf

  const MAX_MS: int := 253402300799999 // 9999-12-31T23:59:59.999Z

  function ToUint64(x: int): int {
    x % 0x1_0000_0000_0000_0000
  }

  // ---------------------------------------------------------------- printing

  // The fields of a broken-down time, each at its width and followed by its separator.
  function DatePart(tm: Tm): (r: string)
    requires IsCivil(tm) && tm.year >= 70
    ensures |r| == 11
  {
    [] + Field(tm.year + 1900, 4) + ['-'] + Field(tm.mon + 1, 2) + ['-'] + Field(tm.mday, 2) + ['T']
  }

  function TmText(tm: Tm, msPart: nat): (r: string)
    requires IsCivil(tm) && tm.year >= 70
    ensures |r| == 24
  {
    DatePart(tm) + Field(tm.hour, 2) + [':'] + Field(tm.min, 2) + [':'] + Field(tm.sec, 2) + ['.']
    + Field(msPart, 3) + ['Z']
  }

  function UtcText(ms: nat): (r: string)
    ensures |r| == 24
  {
    GmTimeInverse(ms / 1000);
    TmText(GmTime(ms / 1000), ms % 1000)
  }

  // One field and the separator that overwrites its terminator.
  method PutField(value: nat, width: nat, separator: char, buffer: array<char>, at: nat, ghost before: string)
    returns (ghost after: string)
    requires at + width < buffer.Length && width > 0 && buffer[..at] == before
    modifies buffer
    ensures after == before + Field(value, width) + [separator] && buffer[..at + width + 1] == after
    ensures forall k :: at + width < k < buffer.Length ==> buffer[k] == old(buffer[k])
  {
    ghost var rest := buffer[at + width + 1..];
    IntToStringBuffer(value, width, buffer, at);
    assert buffer[..at + width] == buffer[..at] + buffer[at..at + width];
    assert forall k :: at + width < k < buffer.Length ==> buffer[k] == rest[k - at - width - 1];
    buffer[at + width] := separator;
    after := before + Field(value, width) + [separator];
    assert buffer[..at + width + 1] == buffer[..at + width] + [separator];
  }

  method GetUtcTimeString(msTime: nat, buffer: array<char>)
    requires msTime < 0x1_0000_0000_0000_0000 && buffer.Length >= 25
    modifies buffer
    ensures buffer[..24] == UtcText(msTime) && buffer[24] == NUL
    ensures buffer[25..] == old(buffer[25..])
  {
    GmTimeInverse(msTime / 1000);
    PrintTm(GmTime(msTime / 1000), msTime % 1000, buffer);
  }

  method PrintDate(tm: Tm, buffer: array<char>) returns (ghost after: string)
    requires IsCivil(tm) && tm.year >= 70 && buffer.Length >= 25
    modifies buffer
    ensures after == DatePart(tm) && buffer[..11] == after
    ensures buffer[11..] == old(buffer[11..])
  {
    after := PutField(tm.year + 1900, 4, '-', buffer, 0, []);
    after := PutField(tm.mon + 1, 2, '-', buffer, 5, after);
    after := PutField(tm.mday, 2, 'T', buffer, 8, after);
  }

  method PrintTm(tm: Tm, msPart: nat, buffer: array<char>)
    requires IsCivil(tm) && tm.year >= 70 && buffer.Length >= 25
    modifies buffer
    ensures buffer[..24] == TmText(tm, msPart) && buffer[24] == NUL
    ensures buffer[25..] == old(buffer[25..])
  {
    ghost var t := PrintDate(tm, buffer);
    t := PutField(tm.hour, 2, ':', buffer, 11, t);
    t := PutField(tm.min, 2, ':', buffer, 14, t);
    t := PutField(tm.sec, 2, '.', buffer, 17, t);
    t := PutField(msPart, 3, 'Z', buffer, 20, t);
    buffer[24] := NUL;
    assert buffer[..24] == t;
    assert t == TmText(tm, msPart);
  }

  // ---------------------------------------------------------------- parsing, as the code reads

  // What a parser makes of its text: no timestamp, a broken-down time and milliseconds,
  // or a read past the terminator of its argument.
  datatype Verdict = Nothing | Stamped(tm: Tm, ms: int) | Overrun

  // The number the parser then returns.
  function Total(v: Verdict): int
    requires !v.Overrun?
  {
    if v.Nothing? then 0 else ToUint64(TimeGm(v.tm) * 1000 + v.ms)
  }

  // sscanf with the extended (dashes) or basic date format.
  function ScanDate(text: string, sep: Option<char>): Option<(int, int, int)> {
    match ScanInt(text, 0, 4)
    case None => None
    case Some(y) =>
      match ScanNext(text, y.next, sep, 2)
      case None => None
      case Some(m) =>
        match ScanNext(text, m.next, sep, 2)
        case None => None
        case Some(d) => Some((y.value, m.value, d.value))
  }

  function ScanClock(text: string, c: nat, sep: Option<char>): Option<(int, int)>
    requires c <= |text|
  {
    match ScanInt(text, c, 2)
    case None => None
    case Some(h) =>
      match ScanNext(text, h.next, sep, 2)
      case None => None
      case Some(m) => Some((h.value, m.value))
  }

  // What both parsers have read when they come to the suffix.
  datatype Head = Fail | PastEnd | DateOnly(tm: Tm) | DateTime(tm: Tm, c: nat)

  function ClockHead(text: string, date: (int, int, int), clock: (int, int), c: nat): (r: Head)
    ensures r.DateTime? ==> r.c <= |text|
  {
    if c > |text| then PastEnd
    else
      var c := if At(text, c) == ':' then c + 1 else c;
      if At(text, c) == NUL then
        DateTime(Tm(date.0 - 1900, date.1 - 1, date.2, clock.0, clock.1, 0), c)
      else
        match ScanInt(text, c, 2)
        case None => Fail
        case Some(sec) =>
          if c + 2 > |text| then PastEnd
          else DateTime(Tm(date.0 - 1900, date.1 - 1, date.2, clock.0, clock.1, sec.value), c + 2)
  }

  function DateHead(text: string, date: (int, int, int), c: nat): (r: Head)
    ensures r.DateTime? ==> r.c <= |text|
  {
    if c > |text| then PastEnd
    else if At(text, c) == NUL then DateOnly(Tm(date.0 - 1900, date.1 - 1, date.2, 0, 0, 0))
    else if At(text, c) != 'T' then Fail
    else if ScanClock(text, c + 1, None).Some? then
      ClockHead(text, date, ScanClock(text, c + 1, None).value, c + 5)
    else if ScanClock(text, c + 1, Some(':')).Some? then
      ClockHead(text, date, ScanClock(text, c + 1, Some(':')).value, c + 6)
    else Fail
  }

  function ReadHead(text: string): (r: Head)
    ensures r.DateTime? ==> r.c <= |text|
  {
    if ScanDate(text, Some('-')).Some? then DateHead(text, ScanDate(text, Some('-')).value, 10)
    else if ScanDate(text, None).Some? then DateHead(text, ScanDate(text, None).value, 8)
    else Fail
  }

  // The fraction and the Z it needs; c is just behind the dot.
  function Fraction(text: string, tm: Tm, c: nat): Verdict
    requires c <= |text|
  {
    match ScanInt(text, c, 3)
    case None => Nothing
    case Some(ms) =>
      if c + 3 > |text| then Overrun
      else if At(text, c + 3) == 'Z' then Stamped(tm, ms.value)
      else Nothing
  }

  function ZuluSuffix(text: string, tm: Tm, c: nat): Verdict
    requires c <= |text|
  {
    if At(text, c) == 'Z' then Stamped(tm, 0)
    else if At(text, c) == '.' then Fraction(text, tm, c + 1)
    else Nothing
  }

  function GenericSuffix(text: string, tm: Tm, c: nat): Verdict
    requires c <= |text|
  {
    if At(text, c) == NUL then Stamped(tm, 0)
    else if At(text, c) == '.' then Fraction(text, tm, c + 1)
    else Nothing
  }

  function ZuluVerdict(text: string, head: Head): Verdict
    requires head.DateTime? ==> head.c <= |text|
  {
    match head
    case Fail => Nothing
    case PastEnd => Overrun
    case DateOnly(tm) => Stamped(tm, 0)
    case DateTime(tm, c) => ZuluSuffix(text, tm, c)
  }

  function GenericVerdict(text: string, head: Head): Verdict
    requires head.DateTime? ==> head.c <= |text|
  {
    match head
    case Fail => Nothing
    case PastEnd => Overrun
    case DateOnly(tm) => Nothing
    case DateTime(tm, c) => GenericSuffix(text, tm, c)
  }

  // The second count of the date and time that were read.
  function EpochSeconds(head: Head): int {
    match head
    case DateOnly(tm) => TimeGm(tm)
    case DateTime(tm, _) => TimeGm(tm)
    case _ => 0
  }

  // The part that both parsers have in common, with the cursor c.
  method ScanHead(text: string) returns (r: Head)
    ensures r == ReadHead(text)
  {
    var c := 0;
    var date := ScanDate(text, Some('-'));
    if date.Some? {
      c := c + 10;
    } else {
      date := ScanDate(text, None);
      if date.Some? {
        c := c + 8;
      } else {
        return Fail;
      }
    }
    if c > |text| {
      return PastEnd;
    }
    var tm := Tm(date.value.0 - 1900, date.value.1 - 1, date.value.2, 0, 0, 0);
    if At(text, c) == NUL {
      return DateOnly(tm);
    } else if At(text, c) != 'T' {
      return Fail;
    }
    c := c + 1;
    var clock := ScanClock(text, c, None);
    if clock.Some? {
      c := c + 4;
    } else {
      clock := ScanClock(text, c, Some(':'));
      if clock.Some? {
        c := c + 5;
      } else {
        return Fail;
      }
    }
    r := ScanSeconds(text, date.value, clock.value, c);
  }

  method ScanSeconds(text: string, date: (int, int, int), clock: (int, int), cursor: nat) returns (r: Head)
    ensures r == ClockHead(text, date, clock, cursor)
  {
    var c := cursor;
    if c > |text| {
      return PastEnd;
    }
    if At(text, c) == ':' {
      c := c + 1;
    }
    var seconds := 0;
    if At(text, c) != NUL {
      var scan := ScanInt(text, c, 2);
      if scan.Some? {
        seconds := scan.value.value;
        c := c + 2;
      } else {
        return Fail;
      }
    }
    if c > |text| {
      return PastEnd;
    }
    r := DateTime(Tm(date.0 - 1900, date.1 - 1, date.2, clock.0, clock.1, seconds), c);
  }

  method ScanFraction(text: string, tm: Tm, cursor: nat) returns (totalTimeMs: int, overrun: bool)
    requires cursor <= |text|
    ensures overrun == Fraction(text, tm, cursor).Overrun?
    ensures !overrun ==> totalTimeMs == Total(Fraction(text, tm, cursor))
  {
    var c := cursor;
    var scan := ScanInt(text, c, 3);
    if scan.None? {
      return 0, false;
    }
    c := c + 3;
    totalTimeMs := ToUint64(TimeGm(tm) * 1000 + scan.value.value);
    if c > |text| {
      return 0, true;
    }
    if At(text, c) != 'Z' {
      return 0, false;
    }
    return totalTimeMs, false;
  }

  method ParseIso8601(text: string) returns (totalTimeMs: int, overrun: bool)
    ensures overrun == ZuluVerdict(text, ReadHead(text)).Overrun?
    ensures !overrun ==> totalTimeMs == Total(ZuluVerdict(text, ReadHead(text)))
  {
    totalTimeMs, overrun := 0, false;
    var head := ScanHead(text);
    match head {
      case Fail =>
      case PastEnd =>
        overrun := true;
      case DateOnly(tm) =>
        totalTimeMs := ToUint64(TimeGm(tm) * 1000);
      case DateTime(tm, c) =>
        if At(text, c) == 'Z' {
          totalTimeMs := ToUint64(TimeGm(tm) * 1000);
        } else if At(text, c) == '.' {
          totalTimeMs, overrun := ScanFraction(text, tm, c + 1);
        }
    }
  }

  // The suffix of the generic parser.
  method ScanSuffix(text: string, tm: Tm, c: nat) returns (totalTimeMs: int, overrun: bool)
    requires c <= |text|
    ensures overrun == GenericSuffix(text, tm, c).Overrun?
    ensures !overrun ==> totalTimeMs == Total(GenericSuffix(text, tm, c))
  {
    totalTimeMs, overrun := 0, false;
    if At(text, c) == NUL {
      totalTimeMs := ToUint64(TimeGm(tm) * 1000);
    } else if At(text, c) == '.' {
      totalTimeMs, overrun := ScanFraction(text, tm, c + 1);
    }
  }

  // The branch of the generic parser for texts that do not begin with P.
  method ParsePointInTime(text: string) returns (totalTimeMs: int, isotime: int, overrun: bool)
    ensures overrun == GenericVerdict(text, ReadHead(text)).Overrun?
    ensures !overrun ==> totalTimeMs == Total(GenericVerdict(text, ReadHead(text)))
    ensures !overrun ==> isotime == EpochSeconds(ReadHead(text))
  {
    totalTimeMs, isotime, overrun := 0, 0, false;
    var head := ScanHead(text);
    match head {
      case Fail =>
      case PastEnd =>
        overrun := true;
      case DateOnly(tm) =>
        isotime := TimeGm(tm);
      case DateTime(tm, c) =>
        isotime := TimeGm(tm);
        totalTimeMs, overrun := ScanSuffix(text, tm, c);
    }
  }
}
