// The duration branch of the generic timestamp parser: a scan with a flag word.
module Durations {
  import Calendar
  import opened CText
  import opened Digits
  import opened Sscanf
  import opened Iso8601

  // The flag word holds one bit for each component; a mask is a set of such bits.
  datatype Bit = DayBit | HourBit | MinBit | SecBit

  const DAYFLAG: set<Bit> := {DayBit}
  const DHMSFLAG: set<Bit> := {DayBit, HourBit, MinBit, SecBit}
  const HMSFLAG: set<Bit> := {HourBit, MinBit, SecBit}
  const MINFLAG: set<Bit> := {MinBit}
  const MSFLAG: set<Bit> := {MinBit, SecBit}
  const SECFLAG: set<Bit> := {SecBit}

  predicate IsUnit(c: char) {
    c == 'D' || c == 'H' || c == 'M' || c == 'S'
  }

  // One component: its digits (possibly none) and its unit letter.
  datatype Token = Token(digits: string, unit: char) {
    predicate Valid() {
      AllDigits(digits) && IsUnit(unit)
    }

    function Number(): nat
      requires AllDigits(digits)
    {
      ScanValue(digits)
    }
  }

  function Render(ts: seq<Token>): string {
    if ts == [] then [] else ts[0].digits + [ts[0].unit] + Render(ts[1..])
  }

  function Rank(unit: char): nat {
    if unit == 'D' then 0 else if unit == 'H' then 1 else if unit == 'M' then 2 else 3
  }

  // A unit may follow another if it is smaller; hours may also follow hours.
  predicate MayFollow(first: char, second: char) {
    Rank(first) < Rank(second) || (first == 'H' && second == 'H')
  }

  // The unit sequences D? H* M? S?.
  predicate InOrder(ts: seq<Token>) {
    && (forall i :: 0 <= i < |ts| ==> ts[i].Valid())
    && (forall i :: 0 < i < |ts| ==> MayFollow(ts[i - 1].unit, ts[i].unit))
  }

  // The number of the last component with a given unit, or 0.
  function Last(ts: seq<Token>, unit: char): nat
    requires forall i :: 0 <= i < |ts| ==> ts[i].Valid()
    decreases |ts|
  {
    if ts == [] then 0
    else if ts[|ts| - 1].unit == unit then
      assert ts[|ts| - 1].Valid();
      ts[|ts| - 1].Number()
    else Last(ts[..|ts| - 1], unit)
  }

  function Seconds(ts: seq<Token>): nat
    requires InOrder(ts)
  {
    Last(ts, 'S') + 60 * Last(ts, 'M') + 3600 * Last(ts, 'H') + 86400 * Last(ts, 'D')
  }

  // Of the components of one unit the last one counts, and a unit that does not occur counts nothing.
  lemma {:induction false} LastMeans(ts: seq<Token>, unit: char, at: nat)
    requires forall i :: 0 <= i < |ts| ==> ts[i].Valid()
    ensures at < |ts| && ts[at].unit == unit && (forall i :: at < i < |ts| ==> ts[i].unit != unit) ==>
              Last(ts, unit) == ScanValue(ts[at].digits)
    ensures (forall i :: 0 <= i < |ts| ==> ts[i].unit != unit) ==> Last(ts, unit) == 0
    decreases |ts|
  {
    if ts != [] && ts[|ts| - 1].unit != unit {
      var before := ts[..|ts| - 1];
      assert forall i :: 0 <= i < |before| ==> before[i] == ts[i];
      LastMeans(before, unit, at);
    }
  }

  // A duration is as long as it takes to get from a time to the time with its components added.
  lemma SecondsAdd(ts: seq<Token>, tm: Calendar.Tm)
    requires InOrder(ts)
    ensures Calendar.TimeGm(tm) + Seconds(ts)
         == Calendar.TimeGm(Calendar.Tm(tm.year, tm.mon, tm.mday + Last(ts, 'D'), tm.hour + Last(ts, 'H'),
                                        tm.min + Last(ts, 'M'), tm.sec + Last(ts, 'S')))
  {
  }

  // The flag word after a prefix: hours set the day flag, never the hour flag.
  function Flags(dayOrHour: bool, minute: bool, second: bool): set<Bit> {
    (if dayOrHour then DAYFLAG else {}) + (if minute then MINFLAG else {}) + (if second then SECFLAG else {})
  }

  predicate Has(ts: seq<Token>, unit: char) {
    exists i :: 0 <= i < |ts| && ts[i].unit == unit
  }

  function FlagsOf(ts: seq<Token>): set<Bit> {
    Flags(Has(ts, 'D') || Has(ts, 'H'), Has(ts, 'M'), Has(ts, 'S'))
  }

  lemma FlagTests(d: bool, m: bool, s: bool)
    ensures Flags(d, m, s) * DHMSFLAG != {} <==> d || m || s
    ensures Flags(d, m, s) * HMSFLAG != {} <==> m || s
    ensures Flags(d, m, s) * MSFLAG != {} <==> m || s
    ensures Flags(d, m, s) * SECFLAG != {} <==> s
    ensures Flags(d, m, s) + DAYFLAG == Flags(true, m, s)
    ensures Flags(d, m, s) + MINFLAG == Flags(d, true, s)
    ensures Flags(d, m, s) + SECFLAG == Flags(d, m, true)
  {
  }

  lemma {:induction false} RenderAppend(ts: seq<Token>, t: Token)
    ensures Render(ts + [t]) == Render(ts) + t.digits + [t.unit]
  {
    if ts == [] {
      assert ts + [t] == [t];
      assert Render([t]) == t.digits + [t.unit] + Render([t][1..]);
    } else {
      RenderAppend(ts[1..], t);
      assert (ts + [t])[1..] == ts[1..] + [t];
    }
  }

  function Leading(s: string): nat {
    if s == [] || !IsDigit(s[0]) then 0 else 1 + Leading(s[1..])
  }

  lemma {:induction false} LeadingDigits(a: string, x: string)
    requires AllDigits(a) && (x == [] || !IsDigit(x[0]))
    ensures Leading(a + x) == |a|
  {
    if a == [] {
      assert a + x == x;
    } else {
      LeadingDigits(a[1..], x);
      assert (a + x)[1..] == a[1..] + x;
    }
  }

  // A text splits into leading digits and the rest in one way only.
  lemma DigitPrefix(a: string, x: string, b: string, y: string)
    requires a + x == b + y && AllDigits(a) && AllDigits(b)
    requires (x == [] || !IsDigit(x[0])) && (y == [] || !IsDigit(y[0]))
    ensures a == b && x == y
  {
    LeadingDigits(a, x);
    LeadingDigits(b, y);
    assert (a + x)[..|a|] == a && (b + y)[..|b|] == b;
    assert (a + x)[|a|..] == x && (b + y)[|b|..] == y;
  }

  lemma Regroup(a: string, b: string, c: string)
    ensures (a + b) + c == a + (b + c)
  {
  }

  lemma SameCons(a: char, x: string, b: char, y: string)
    requires [a] + x == [b] + y
    ensures a == b && x == y
  {
    assert ([a] + x)[0] == a && ([a] + x)[1..] == x && ([b] + y)[0] == b && ([b] + y)[1..] == y;
  }

  lemma SameHead(t: Token, us: seq<Token>, rest: string)
    requires t.Valid() && InOrder(us) && Render(us) == t.digits + [t.unit] + rest
    ensures us != [] && us[0] == t && Render(us[1..]) == rest
  {
    assert us != [];
    assert us[0].Valid();
    var mine, theirs := [t.unit] + rest, [us[0].unit] + Render(us[1..]);
    Regroup(t.digits, [t.unit], rest);
    Regroup(us[0].digits, [us[0].unit], Render(us[1..]));
    DigitPrefix(us[0].digits, theirs, t.digits, mine);
    SameCons(us[0].unit, Render(us[1..]), t.unit, rest);
  }

  lemma FirstToken(us: seq<Token>, digits: string, tail: string)
    requires InOrder(us) && AllDigits(digits) && (tail == [] || !IsDigit(tail[0])) && Render(us) == digits + tail
    ensures us == [] ==> digits + tail == []
    ensures us != [] ==> tail != [] && us[0] == Token(digits, tail[0])
  {
    if us != [] {
      assert us[0].Valid();
      var theirs := [us[0].unit] + Render(us[1..]);
      assert Render(us) == us[0].digits + theirs;
      DigitPrefix(us[0].digits, theirs, digits, tail);
    }
  }

  // Where a rendering continues behind known components, its next component is forced.
  lemma {:induction false} NextToken(ts: seq<Token>, us: seq<Token>, digits: string, tail: string)
    requires InOrder(ts) && InOrder(us) && AllDigits(digits) && (tail == [] || !IsDigit(tail[0]))
    requires Render(us) == Render(ts) + (digits + tail)
    ensures |ts| <= |us| && us[..|ts|] == ts
    ensures |ts| == |us| ==> digits + tail == []
    ensures |ts| < |us| ==> tail != [] && us[|ts|] == Token(digits, tail[0])
  {
    if ts == [] {
      assert Render(us) == digits + tail;
      FirstToken(us, digits, tail);
    } else {
      PeelToken(ts, us, digits + tail);
      NextToken(ts[1..], us[1..], digits, tail);
      assert us == [us[0]] + us[1..] && ts == [ts[0]] + ts[1..];
    }
  }

  lemma PeelToken(ts: seq<Token>, us: seq<Token>, ahead: string)
    requires ts != [] && InOrder(ts) && InOrder(us) && Render(us) == Render(ts) + ahead
    ensures us != [] && us[0] == ts[0] && Render(us[1..]) == Render(ts[1..]) + ahead
  {
    assert ts[0].Valid();
    Regroup(ts[0].digits + [ts[0].unit], Render(ts[1..]), ahead);
    SameHead(ts[0], us, Render(ts[1..]) + ahead);
  }

  // The last unit ranks highest.
  lemma {:induction false} LastRanksHighest(ts: seq<Token>, i: nat)
    requires InOrder(ts) && i < |ts|
    ensures Rank(ts[i].unit) <= Rank(ts[|ts| - 1].unit)
    decreases |ts| - i
  {
    if i < |ts| - 1 {
      LastRanksHighest(ts, i + 1);
    }
  }

  // The flag word answers exactly whether a unit may follow.
  lemma MayAppend(ts: seq<Token>, unit: char)
    requires InOrder(ts) && IsUnit(unit)
    ensures (ts == [] || MayFollow(ts[|ts| - 1].unit, unit))
       <==> match unit {
              case 'D' => FlagsOf(ts) * DHMSFLAG == {}
              case 'H' => FlagsOf(ts) * HMSFLAG == {}
              case 'M' => FlagsOf(ts) * MSFLAG == {}
              case _ => FlagsOf(ts) * SECFLAG == {}
            }
  {
    FlagTests(Has(ts, 'D') || Has(ts, 'H'), Has(ts, 'M'), Has(ts, 'S'));
    if ts != [] {
      var last := ts[|ts| - 1];
      assert last.Valid();
      assert Has(ts, last.unit);
      forall i | 0 <= i < |ts|
        ensures Rank(ts[i].unit) <= Rank(last.unit)
      {
        LastRanksHighest(ts, i);
      }
    }
  }

  lemma AppendFlags(ts: seq<Token>, t: Token)
    requires IsUnit(t.unit)
    ensures FlagsOf(ts + [t])
         == FlagsOf(ts) + (if t.unit == 'D' || t.unit == 'H' then DAYFLAG
                           else if t.unit == 'M' then MINFLAG else SECFLAG)
  {
    FlagTests(Has(ts, 'D') || Has(ts, 'H'), Has(ts, 'M'), Has(ts, 'S'));
    var us := ts + [t];
    forall u
      ensures Has(us, u) <==> Has(ts, u) || t.unit == u
    {
      if Has(ts, u) {
        var i :| 0 <= i < |ts| && ts[i].unit == u;
        assert us[i].unit == u;
      }
      assert us[|ts|] == t;
    }
  }

  lemma AppendLast(ts: seq<Token>, t: Token, unit: char)
    requires InOrder(ts + [t])
    ensures forall i :: 0 <= i < |ts| ==> ts[i].Valid()
    ensures t.Valid() && Last(ts + [t], unit) == if t.unit == unit then t.Number() else Last(ts, unit)
  {
    var us := ts + [t];
    assert us[|ts|] == t && us[..|us| - 1] == ts;
    assert forall i :: 0 <= i < |ts| ==> ts[i] == us[i];
  }

  lemma {:induction false} ScanAppend(s: string, c: char)
    requires AllDigits(s) && IsDigit(c)
    ensures AllDigits(s + [c]) && ScanValue(s + [c]) == 10 * ScanValue(s) + DigitValue(c)
    decreases |s|
  {
    if s == [] {
      assert Pow10(0) == 1;
      assert ScanValue([c]) == DigitValue(c) * Pow10(0) + ScanValue([c][1..]);
      assert s + [c] == [c];
    } else {
      ScanAppend(s[1..], c);
      assert (s + [c])[1..] == s[1..] + [c];
      assert Pow10(|s|) == 10 * Pow10(|s| - 1);
      Distribute(DigitValue(s[0]), Pow10(|s| - 1));
    }
  }

  lemma Distribute(d: nat, p: nat)
    ensures d * (10 * p) == 10 * (d * p)
  {
  }

  predicate Spells(text: string, ts: seq<Token>) {
    InOrder(ts) && text == ['P'] + Render(ts)
  }

  // The digits of one component, accumulated as the code does.
  method ScanNumber(text: string, cursor: nat) returns (num: nat, c: nat)
    requires cursor <= |text|
    ensures cursor <= c <= |text| && AllDigits(text[cursor..c]) && num == ScanValue(text[cursor..c])
    ensures c < |text| ==> !IsDigit(text[c])
  {
    num, c := 0, cursor;
    while '0' <= At(text, c) <= '9'
      invariant cursor <= c <= |text| && AllDigits(text[cursor..c]) && num == ScanValue(text[cursor..c])
      decreases |text| - c
    {
      ScanAppend(text[cursor..c], text[c]);
      assert text[cursor..c + 1] == text[cursor..c] + [text[c]];
      num := 10 * num + (text[c] as int - '0' as int);
      c := c + 1;
    }
  }

  // What the scan has seen so far: components ts, then the digits and the rest still ahead.
  predicate Seen(text: string, ts: seq<Token>, ahead: string) {
    InOrder(ts) && text == ['P'] + (Render(ts) + ahead)
  }

  // The unit of the component ahead ends the scan: it is unknown or out of order.
  predicate Blocked(ts: seq<Token>, tail: string) {
    tail == [] || !IsUnit(tail[0]) || (ts != [] && !MayFollow(ts[|ts| - 1].unit, tail[0]))
  }

  lemma Continues(text: string, ts: seq<Token>, digits: string, tail: string, us: seq<Token>)
    requires Seen(text, ts, digits + tail) && digits + tail != [] && Spells(text, us)
    requires AllDigits(digits) && (tail == [] || !IsDigit(tail[0]))
    ensures !Blocked(ts, tail)
  {
    assert text[1..] == Render(us);
    NextToken(ts, us, digits, tail);
    assert us[|ts|].Valid();
    assert ts != [] ==> us[..|ts|][|ts| - 1] == us[|ts| - 1];
  }

  // At most one component sequence spells a text.
  lemma SpellsUnique(text: string, ts: seq<Token>, us: seq<Token>)
    requires Spells(text, ts) && Spells(text, us)
    ensures ts == us
  {
    assert text[1..] == Render(us) && Render(ts) + ([] + []) == Render(ts);
    NextToken(ts, us, [], []);
  }

  // The components and flags after a scanned prefix.
  datatype Parts = Parts(days: nat, hours: nat, minutes: nat, seconds: nat, dateflags: set<Bit>)

  predicate Sums(p: Parts, ts: seq<Token>) {
    && InOrder(ts) && p.dateflags == FlagsOf(ts)
    && p.days == Last(ts, 'D') && p.hours == Last(ts, 'H') && p.minutes == Last(ts, 'M') && p.seconds == Last(ts, 'S')
  }

  lemma Extend(ts: seq<Token>, t: Token)
    requires InOrder(ts) && t.Valid() && (ts == [] || MayFollow(ts[|ts| - 1].unit, t.unit))
    ensures InOrder(ts + [t])
  {
  }

  // What an accepted component changes.
  function Taken(p: Parts, unit: char, num: nat): Parts {
    if unit == 'D' then p.(dateflags := p.dateflags + DAYFLAG, days := num)
    else if unit == 'H' then p.(dateflags := p.dateflags + DAYFLAG, hours := num)
    else if unit == 'M' then p.(dateflags := p.dateflags + MINFLAG, minutes := num)
    else p.(dateflags := p.dateflags + SECFLAG, seconds := num)
  }

  // Whether the flag word lets a component in.
  predicate Admits(p: Parts, unit: char) {
    if unit == 'D' then p.dateflags * DHMSFLAG == {}
    else if unit == 'H' then p.dateflags * HMSFLAG == {}
    else if unit == 'M' then p.dateflags * MSFLAG == {}
    else p.dateflags * SECFLAG == {}
  }

  lemma AdmitsInOrder(p: Parts, ts: seq<Token>, unit: char)
    requires Sums(p, ts) && IsUnit(unit)
    ensures Admits(p, unit) <==> (ts == [] || MayFollow(ts[|ts| - 1].unit, unit))
  {
    MayAppend(ts, unit);
  }

  lemma SumsTaken(p: Parts, ts: seq<Token>, t: Token)
    requires Sums(p, ts) && t.Valid() && (ts == [] || MayFollow(ts[|ts| - 1].unit, t.unit))
    ensures Sums(Taken(p, t.unit, t.Number()), ts + [t])
  {
    Extend(ts, t);
    AppendFlags(ts, t);
    AppendLast(ts, t, 'D');
    AppendLast(ts, t, 'H');
    AppendLast(ts, t, 'M');
    AppendLast(ts, t, 'S');
  }

  // The switch on the unit letter.
  method TakeUnit(p: Parts, unit: char, num: nat) returns (ok: bool, q: Parts)
    ensures ok == (IsUnit(unit) && Admits(p, unit))
    ensures ok ==> q == Taken(p, unit, num)
  {
    q := p;
    if unit == 'D' {
      if p.dateflags * DHMSFLAG != {} {
        return false, q;
      }
      q := q.(dateflags := p.dateflags + DAYFLAG, days := num);
    } else if unit == 'H' {
      if p.dateflags * HMSFLAG != {} {
        return false, q;
      }
      q := q.(dateflags := p.dateflags + DAYFLAG, hours := num);
    } else if unit == 'M' {
      if p.dateflags * MSFLAG != {} {
        return false, q;
      }
      q := q.(dateflags := p.dateflags + MINFLAG, minutes := num);
    } else if unit == 'S' {
      if p.dateflags * SECFLAG != {} {
        return false, q;
      }
      q := q.(dateflags := p.dateflags + SECFLAG, seconds := num);
    } else {
      return false, q;
    }
    ok := true;
  }

  lemma Split(text: string, start: nat, c: nat)
    requires start <= c <= |text|
    ensures text[start..] == text[start..c] + text[c..]
    ensures c < |text| ==> text[c + 1..] == text[c..][1..]
  {
  }

  lemma Start(text: string)
    requires text != [] && text[0] == 'P'
    ensures Seen(text, [], text[1..]) && Sums(Parts(0, 0, 0, 0, {}), [])
  {
  }

  lemma Advance(text: string, ts: seq<Token>, t: Token, tail: string)
    requires Seen(text, ts, t.digits + tail) && InOrder(ts + [t]) && tail != [] && tail[0] == t.unit
    ensures Seen(text, ts + [t], tail[1..])
  {
    RenderAppend(ts, t);
    assert tail == [t.unit] + tail[1..];
    assert Render(ts) + (t.digits + tail) == Render(ts) + t.digits + [t.unit] + tail[1..];
  }

  lemma Finish(text: string, ts: seq<Token>)
    requires Seen(text, ts, [])
    ensures Spells(text, ts) && forall us :: Spells(text, us) ==> us == ts
  {
    assert Render(ts) + [] == Render(ts);
    forall us | Spells(text, us)
      ensures us == ts
    {
      SpellsUnique(text, ts, us);
    }
  }

  lemma Stuck(text: string, ts: seq<Token>, digits: string, tail: string)
    requires Seen(text, ts, digits + tail) && digits + tail != [] && Blocked(ts, tail)
    requires AllDigits(digits) && (tail == [] || !IsDigit(tail[0]))
    ensures forall us :: !Spells(text, us)
  {
    forall us
      ensures !Spells(text, us)
    {
      if Spells(text, us) {
        Continues(text, ts, digits, tail, us);
      }
    }
  }

  // One turn of the outer loop keeps the picture of what has been scanned.
  lemma Turn(text: string, ts: seq<Token>, p: Parts, start: nat, c: nat)
    requires 1 <= start <= c <= |text| && start < |text|
    requires Seen(text, ts, text[start..]) && Sums(p, ts) && AllDigits(text[start..c])
    requires c < |text| ==> !IsDigit(text[c])
    ensures var ok := c < |text| && IsUnit(text[c]) && Admits(p, text[c]);
            && (!ok ==> forall us :: !Spells(text, us))
            && (ok ==>
                 var t := Token(text[start..c], text[c]);
                 Seen(text, ts + [t], text[c + 1..]) && Sums(Taken(p, text[c], ScanValue(text[start..c])), ts + [t]))
  {
    var digits, tail := text[start..c], text[c..];
    Split(text, start, c);
    if c < |text| && IsUnit(text[c]) {
      AdmitsInOrder(p, ts, text[c]);
      if Admits(p, text[c]) {
        SumsTaken(p, ts, Token(digits, text[c]));
        Advance(text, ts, Token(digits, text[c]), tail);
      } else {
        Stuck(text, ts, digits, tail);
      }
    } else {
      Stuck(text, ts, digits, tail);
    }
  }

  // One turn of the outer loop: the digits, then the unit.
  method ScanComponent(text: string, cursor: nat, p: Parts, ghost ts: seq<Token>)
    returns (ok: bool, c: nat, q: Parts, ghost us: seq<Token>)
    requires 1 <= cursor < |text| && Seen(text, ts, text[cursor..]) && Sums(p, ts)
    ensures !ok ==> forall us :: !Spells(text, us)
    ensures ok ==> cursor < c <= |text| && Seen(text, us, text[c..]) && Sums(q, us)
  {
    var num: nat;
    num, c := ScanNumber(text, cursor);
    Turn(text, ts, p, cursor, c);
    ok, q := TakeUnit(p, At(text, c), num);
    us := ts;
    if ok {
      us := ts + [Token(text[cursor..c], text[c])];
      c := c + 1;
    }
  }

  lemma Length(p: Parts, ts: seq<Token>)
    requires Sums(p, ts)
    ensures p.seconds + 60 * p.minutes + 3600 * p.hours + 86400 * p.days == Seconds(ts)
  {
  }

  // The outer loop: the text spells at most one component sequence, and isotime is its length.
  method ScanDuration(text: string) returns (isotime: int)
    requires NUL !in text && text != [] && text[0] == 'P'
    ensures forall ts :: Spells(text, ts) ==> isotime == Seconds(ts)
    ensures (forall ts :: !Spells(text, ts)) ==> isotime == 0
  {
    Start(text);
    var p := Parts(0, 0, 0, 0, {});
    var c := 1;
    ghost var ts: seq<Token> := [];
    while At(text, c) != NUL
      invariant 1 <= c <= |text| && Seen(text, ts, text[c..]) && Sums(p, ts)
      decreases |text| - c
    {
      var ok: bool;
      ok, c, p, ts := ScanComponent(text, c, p, ts);
      if !ok {
        return 0;
      }
    }
    assert text[c..] == [];
    Finish(text, ts);
    Length(p, ts);
    isotime := p.seconds + 60 * p.minutes + 3600 * p.hours + 86400 * p.days;
  }

  // parseIso8601Generic: a text that begins with P is a duration, any other a point in time.
  method ParseIso8601Generic(text: string) returns (totalTimeMs: int, isotime: int, flag: char, overrun: bool)
    requires NUL !in text
    ensures text != [] && text[0] == 'P' ==> flag == 'D' && totalTimeMs == 0 && !overrun
    ensures text != [] && text[0] == 'P' ==> forall ts :: Spells(text, ts) ==> isotime == Seconds(ts)
    ensures text != [] && text[0] == 'P' ==> (forall ts :: !Spells(text, ts)) ==> isotime == 0
    ensures text == [] || text[0] != 'P' ==>
              && flag == 'T'
              && overrun == GenericVerdict(text, ReadHead(text)).Overrun?
              && (!overrun ==> totalTimeMs == Total(GenericVerdict(text, ReadHead(text))))
              && (!overrun ==> isotime == EpochSeconds(ReadHead(text)))
  {
    if At(text, 0) == 'P' {
      flag, totalTimeMs, overrun := 'D', 0, false;
      isotime := ScanDuration(text);
    } else {
      flag := 'T';
      totalTimeMs, isotime, overrun := ParsePointInTime(text);
    }
  }
}
