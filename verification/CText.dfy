// Character buffers as C sees them: a string ends at its first NUL.
module CText {

  const NUL: char := '\0'

  // The string a buffer holds.
  function CString(buf: seq<char>): string {
    if buf == [] || buf[0] == NUL then [] else [buf[0]] + CString(buf[1..])
  }

  lemma {:induction false} CStringUntilNul(buf: seq<char>, end: nat)
    requires end < |buf| && buf[end] == NUL && NUL !in buf[..end]
    ensures CString(buf) == buf[..end]
  {
    if end > 0 {
      assert buf[0] in buf[..end];
      assert forall c :: c in buf[1..][..end - 1] ==> c in buf[..end];
      CStringUntilNul(buf[1..], end - 1);
      assert buf[..end] == [buf[0]] + buf[1..][..end - 1];
    }
  }

  // From a cursor on, buf holds a string that ends at its terminator at end.
  predicate Holds(buf: array<char>, from: nat, end: nat)
    reads buf
  {
    from <= end < buf.Length && buf[end] == NUL && forall k :: from <= k < end ==> buf[k] != NUL
  }

  // Every occurrence of one character replaced by another.
  function Replace(s: string, oldChar: char, newChar: char): (r: string)
    ensures |r| == |s|
    ensures forall i :: 0 <= i < |s| ==> r[i] == if s[i] == oldChar then newChar else s[i]
  {
    seq(|s|, i requires 0 <= i < |s| => if s[i] == oldChar then newChar else s[i])
  }

  lemma ReplaceConcat(s: string, t: string, oldChar: char, newChar: char)
    ensures Replace(s + t, oldChar, newChar) == Replace(s, oldChar, newChar) + Replace(t, oldChar, newChar)
  {
  }

  lemma ReplaceAbsent(s: string, oldChar: char, newChar: char)
    requires oldChar !in s
    ensures Replace(s, oldChar, newChar) == s
  {
  }

  // Replacing a by b is undone by replacing b by a exactly when b did not occur before.
  lemma ReplaceUndone(s: string, a: char, b: char)
    requires a != b
    ensures Replace(Replace(s, a, b), b, a) == s <==> b !in s
  {
    var back := Replace(Replace(s, a, b), b, a);
    if b in s {
      var i :| 0 <= i < |s| && s[i] == b;
      assert back[i] == a;
    }
  }

  // strchr from a cursor, or -1.
  method Strchr(buf: array<char>, from: nat, ch: char, ghost end: nat) returns (pos: int)
    requires Holds(buf, from, end)
    ensures -1 <= pos < end
    ensures pos == -1 ==> ch !in buf[from..end]
    ensures pos >= 0 ==> from <= pos && buf[pos] == ch && ch !in buf[from..pos]
  {
    pos := from;
    while buf[pos] != NUL
      invariant from <= pos <= end
      invariant ch !in buf[from..pos]
      decreases end - pos
    {
      if buf[pos] == ch {
        return;
      }
      assert buf[from..pos + 1] == buf[from..pos] + [buf[pos]];
      pos := pos + 1;
    }
    pos := -1;
  }

  // StringUtils_replace: one pass over the string's length.
  method ReplaceAll(buf: array<char>, oldChar: char, newChar: char, ghost end: nat)
    requires Holds(buf, 0, end) && oldChar != NUL && newChar != NUL
    modifies buf
    ensures Holds(buf, 0, end)
    ensures buf[..end] == Replace(old(buf[..end]), oldChar, newChar)
    ensures buf[end..] == old(buf[end..])
  {
    var i := 0;
    while buf[i] != NUL
      invariant 0 <= i <= end
      invariant buf[end..] == old(buf[end..])
      invariant forall k :: i <= k < end ==> buf[k] == old(buf[k])
      invariant forall k :: 0 <= k < i ==> buf[k] == if old(buf[k]) == oldChar then newChar else old(buf[k])
      decreases end - i
    {
      if buf[i] == oldChar {
        buf[i] := newChar;
      }
      i := i + 1;
    }
  }

  function Count(s: string, ch: char): nat {
    if s == [] then 0 else (if s[0] == ch then 1 else 0) + Count(s[1..], ch)
  }

  lemma {:induction false} CountUpdate(s: string, i: nat, ch: char, other: char)
    requires i < |s| && s[i] == ch && other != ch
    ensures Count(s[i := other], ch) == Count(s, ch) - 1
  {
    if i > 0 {
      assert s[i := other][1..] == s[1..][i - 1 := other];
      CountUpdate(s[1..], i - 1, ch, other);
    } else {
      assert s[i := other][1..] == s[1..];
    }
  }

  // The convert* loops of the report handler: strchr from the start again after each replacement.
  method ReplaceEach(buf: array<char>, oldChar: char, newChar: char, ghost end: nat)
    requires Holds(buf, 0, end) && oldChar != NUL && newChar != NUL && oldChar != newChar
    modifies buf
    ensures Holds(buf, 0, end)
    ensures buf[..end] == Replace(old(buf[..end]), oldChar, newChar)
    ensures buf[end..] == old(buf[end..])
  {
    var pos := Strchr(buf, 0, oldChar, end);
    while pos >= 0
      invariant Holds(buf, 0, end)
      invariant buf[end..] == old(buf[end..])
      invariant Replace(buf[..end], oldChar, newChar) == Replace(old(buf[..end]), oldChar, newChar)
      invariant -1 <= pos < end
      invariant pos == -1 ==> oldChar !in buf[..end]
      invariant pos >= 0 ==> buf[pos] == oldChar
      decreases Count(buf[..end], oldChar), pos >= 0
    {
      ghost var before := buf[..end];
      CountUpdate(before, pos, oldChar, newChar);
      buf[pos] := newChar;
      assert buf[..end] == before[pos := newChar];
      pos := Strchr(buf, 0, oldChar, end);
    }
    ReplaceAbsent(buf[..end], oldChar, newChar);
  }
}
