// The sscanf conversions the timestamp parsers use, on a string s that ends at |s|.
module Sscanf {
  import opened Wrappers
  import opened CText
  import opened Digits

  // The character under a cursor that has not run past the terminator.
  function At(s: string, i: nat): (c: char)
    requires i <= |s|
    ensures c != NUL ==> i < |s| && c == s[i]
  {
    if i < |s| then s[i] else NUL
  }

  predicate IsSpace(c: char) {
    c == ' ' || 9 <= c as int <= 13
  }

  function SkipSpace(s: string, i: nat): (j: nat)
    requires i <= |s|
    ensures i <= j <= |s|
    decreases |s| - i
  {
    if i < |s| && IsSpace(s[i]) then SkipSpace(s, i + 1) else i
  }

  function DigitsEnd(s: string, i: nat, room: nat): (e: nat)
    requires i <= |s|
    ensures i <= e <= |s| && e <= i + room && AllDigits(s[i..e])
    decreases room
  {
    if room > 0 && i < |s| && IsDigit(s[i]) then
      var e := DigitsEnd(s, i + 1, room - 1);
      assert s[i..e] == [s[i]] + s[i + 1..e];
      e
    else i
  }

  datatype Scan = Scan(value: int, next: nat)

  // One %<width>u or %<width>d: leading blanks are free, a sign counts towards the width.
  function ScanInt(s: string, i: nat, width: nat): (r: Option<Scan>)
    requires i <= |s| && width > 0
    ensures r.Some? ==> r.value.next <= |s|
  {
    var j := SkipSpace(s, i);
    var signed := j < |s| && (s[j] == '+' || s[j] == '-');
    var k := if signed then j + 1 else j;
    var e := DigitsEnd(s, k, if signed then width - 1 else width);
    if e == k then None
    else
      var magnitude: int := ScanValue(s[k..e]);
      Some(Scan(if s[j] == '-' then -magnitude else magnitude, e))
  }

  // A conversion that the format separates from the one before, if sep is given.
  function ScanNext(s: string, i: nat, sep: Option<char>, width: nat): (r: Option<Scan>)
    requires i <= |s| && width > 0
    ensures r.Some? ==> r.value.next <= |s|
  {
    if sep.None? then ScanInt(s, i, width)
    else if i < |s| && s[i] == sep.value then ScanInt(s, i + 1, width)
    else None
  }

  // A field written at full width in digits.
  predicate Full(s: string, i: nat, width: nat) {
    i + width <= |s| && AllDigits(s[i..i + width])
  }

  function Number(s: string, i: nat, width: nat): nat
    requires Full(s, i, width)
  {
    ScanValue(s[i..i + width])
  }

  // A place where a conversion sees either a full-width field or nothing number-like at all.
  predicate Clear(s: string, i: nat, width: nat) {
    || Full(s, i, width)
    || i >= |s|
    || !(IsDigit(s[i]) || IsSpace(s[i]) || s[i] == '+' || s[i] == '-')
  }

  lemma {:induction false} DigitsEndFull(s: string, i: nat, room: nat)
    requires Full(s, i, room)
    ensures DigitsEnd(s, i, room) == i + room
    decreases room
  {
    if room > 0 {
      assert s[i] == s[i..i + room][0];
      assert s[i + 1..i + room] == s[i..i + room][1..];
      DigitsEndFull(s, i + 1, room - 1);
    }
  }

  // On such a place sscanf reads the field exactly, or fails.
  lemma ScanClear(s: string, i: nat, width: nat)
    requires i <= |s| && width > 0 && Clear(s, i, width)
    ensures ScanInt(s, i, width)
         == if Full(s, i, width) then Some(Scan(Number(s, i, width), i + width)) else None
  {
    if Full(s, i, width) {
      assert s[i] == s[i..i + width][0];
      DigitsEndFull(s, i, width);
    }
  }
}
