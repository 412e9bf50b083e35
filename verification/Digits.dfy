// Fixed-width decimal fields: Conversions_intToStringBuffer prints them, sscanf reads them.
module Digits {
  import opened CText

  predicate IsDigit(c: char) {
    '0' <= c <= '9'
  }

  function DigitValue(c: char): nat
    requires IsDigit(c)
  {
    c as int - 48
  }

  predicate AllDigits(s: string) {
    forall i :: 0 <= i < |s| ==> IsDigit(s[i])
  }

  function Pow10(n: nat): nat
    ensures Pow10(n) > 0
  {
    if n == 0 then 1 else 10 * Pow10(n - 1)
  }

  // Division with the facts about it that nonlinear arithmetic does not find alone.
  function Quot(a: nat, b: nat): (q: nat)
    requires b > 0
    ensures q * b + Rem(a, b) == a
  {
    QuotRem(a, b);
    a / b
  }

  function Rem(a: nat, b: nat): (r: nat)
    requires b > 0
    ensures r < b
  {
    a % b
  }

  lemma MulMonotone(x: int, y: int, z: nat)
    ensures x <= y ==> x * z <= y * z
  {
  }

  lemma QuotRem(a: nat, b: nat)
    requires b > 0
    ensures a / b >= 0 && a / b * b + a % b == a
  {
    MulMonotone(a / b, -1, b);
  }

  lemma QuotUnique(a: nat, b: nat, q: nat, r: nat)
    requires b > 0 && r < b && a == q * b + r
    ensures Quot(a, b) == q && Rem(a, b) == r
  {
    var d := Quot(a, b) - q;
    assert d * b == r - Rem(a, b);
    MulMonotone(1, d, b);
    MulMonotone(d, -1, b);
  }

  lemma QuotMonotone(a: nat, b: nat, base: nat)
    requires base > 0 && a <= b
    ensures Quot(a, base) <= Quot(b, base)
  {
    var d := Quot(a, base) - Quot(b, base);
    assert d * base == a - Rem(a, base) - (b - Rem(b, base));
    MulMonotone(1, d, base);
  }

  // A leading digit stays below ten while the value fits.
  lemma QuotDigit(a: nat, base: nat)
    requires base > 0 && a < 10 * base
    ensures Quot(a, base) < 10
  {
    MulMonotone(10, Quot(a, base), base);
  }

  // The byte the printer stores for a leading digit, which may exceed 9 when the value is too wide.
  function DigitChar(digit: nat): char {
    ((digit + 48) % 256) as char
  }

  // What the printer leaves in a field of the given width, most significant digit first.
  function Field(value: nat, width: nat): (r: string)
    ensures |r| == width
    decreases width
  {
    if width == 0 then []
    else [DigitChar(Quot(value, Pow10(width - 1)))] + Field(Rem(value, Pow10(width - 1)), width - 1)
  }

  lemma FieldStep(done: string, remainder: nat, n: nat)
    requires n > 0
    ensures done + Field(remainder, n)
         == done + [DigitChar(Quot(remainder, Pow10(n - 1)))] + Field(Rem(remainder, Pow10(n - 1)), n - 1)
  {
  }

  lemma Pow10Down(n: nat)
    ensures Pow10(n + 1) / 10 == Pow10(n)
  {
  }

  method DigitBase(width: nat) returns (digitBase: nat)
    requires width > 0
    ensures digitBase == Pow10(width - 1)
  {
    digitBase := 1;
    var i := 1;
    while i < width
      invariant 1 <= i <= width && digitBase == Pow10(i - 1)
    {
      digitBase := digitBase * 10;
      i := i + 1;
    }
  }

  method IntToStringBuffer(value: nat, width: nat, buf: array<char>, at: nat)
    requires at + width < buf.Length && width > 0
    modifies buf
    ensures buf[..at] == old(buf[..at])
    ensures buf[at..at + width] == Field(value, width)
    ensures buf[at + width] == NUL
    ensures buf[at + width + 1..] == old(buf[at + width + 1..])
  {
    var digitBase := DigitBase(width);
    var remainder := value;
    var i := 0;
    ghost var done: string := [];
    while i < width
      invariant 0 <= i <= width && |done| == i
      invariant i < width ==> digitBase == Pow10(width - i - 1)
      invariant forall k :: 0 <= k < i ==> buf[at + k] == done[k]
      invariant forall k :: 0 <= k < at || at + width <= k < buf.Length ==> buf[k] == old(buf[k])
      invariant done + Field(remainder, width - i) == Field(value, width)
    {
      FieldStep(done, remainder, width - i);
      buf[at + i] := DigitChar(Quot(remainder, digitBase));
      done := done + [buf[at + i]];
      remainder := Rem(remainder, digitBase);
      if i + 1 < width {
        Pow10Down(width - i - 2);
      }
      digitBase := digitBase / 10;
      i := i + 1;
    }
    assert done + Field(remainder, 0) == done;
    buf[at + width] := NUL;
  }

  // Positional value of a digit string.
  function ScanValue(s: string): nat
    requires AllDigits(s)
    decreases |s|
  {
    if s == [] then 0 else DigitValue(s[0]) * Pow10(|s| - 1) + ScanValue(s[1..])
  }

  // A value that fits prints as digits, and the digits read back as the value.
  lemma {:induction false} ScanField(value: nat, width: nat)
    requires value < Pow10(width)
    ensures AllDigits(Field(value, width)) && ScanValue(Field(value, width)) == value
    decreases width
  {
    if width > 0 {
      var base := Pow10(width - 1);
      QuotDigit(value, base);
      ScanField(Rem(value, base), width - 1);
      assert Field(value, width)[1..] == Field(Rem(value, base), width - 1);
    }
  }

  lemma {:induction false} ScanBound(s: string)
    requires AllDigits(s)
    ensures ScanValue(s) < Pow10(|s|)
    decreases |s|
  {
    if s != [] {
      ScanBound(s[1..]);
      MulMonotone(DigitValue(s[0]), 9, Pow10(|s| - 1));
    }
  }

  // Reading and printing again gives the same digits.
  lemma {:induction false} FieldScan(s: string)
    requires AllDigits(s)
    ensures Field(ScanValue(s), |s|) == s
    decreases |s|
  {
    if s != [] {
      ScanBound(s[1..]);
      FieldScan(s[1..]);
      QuotUnique(ScanValue(s), Pow10(|s| - 1), DigitValue(s[0]), ScanValue(s[1..]));
    }
  }

  lemma PrintScan(s: string, width: nat)
    requires AllDigits(s) && |s| == width
    ensures Field(ScanValue(s), width) == s && ScanValue(s) < Pow10(width)
  {
    FieldScan(s);
    ScanBound(s);
  }

  // Dictionary order, character by character.
  predicate LexLess(s: string, t: string) {
    if t == [] then false
    else if s == [] then true
    else s[0] < t[0] || (s[0] == t[0] && LexLess(s[1..], t[1..]))
  }

  lemma {:induction false} LexPrefix(p: string, s: string, t: string)
    requires LexLess(s, t)
    ensures LexLess(p + s, p + t)
  {
    if p == [] {
      assert p + s == s && p + t == t;
    } else {
      LexPrefix(p[1..], s, t);
      assert (p + s)[1..] == p[1..] + s && (p + t)[1..] == p[1..] + t;
    }
  }

  lemma {:induction false} LexSuffix(s: string, t: string, x: string, y: string)
    requires |s| == |t| && LexLess(s, t)
    ensures LexLess(s + x, t + y)
  {
    assert (s + x)[1..] == s[1..] + x && (t + y)[1..] == t[1..] + y;
    if s[0] == t[0] {
      LexSuffix(s[1..], t[1..], x, y);
    }
  }

  lemma DigitLess(p: nat, q: nat)
    requires p < q < 10
    ensures DigitChar(p) < DigitChar(q)
  {
  }

  // Equal widths: smaller numbers print earlier in the dictionary.
  lemma {:induction false} FieldOrder(a: nat, b: nat, width: nat)
    requires a < b < Pow10(width)
    ensures LexLess(Field(a, width), Field(b, width))
    decreases width
  {
    var base := Pow10(width - 1);
    QuotDigit(a, base);
    QuotDigit(b, base);
    QuotMonotone(a, b, base);
    var fa, fb := Field(a, width), Field(b, width);
    assert fa[0] == DigitChar(Quot(a, base)) && fa[1..] == Field(Rem(a, base), width - 1);
    assert fb[0] == DigitChar(Quot(b, base)) && fb[1..] == Field(Rem(b, base), width - 1);
    if Quot(a, base) < Quot(b, base) {
      DigitLess(Quot(a, base), Quot(b, base));
    } else {
      FieldOrder(Rem(a, base), Rem(b, base), width - 1);
    }
  }
}
