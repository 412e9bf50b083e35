// Finding, splitting and joining at a separator, and orders of visit.
module Strings {

  function IndexOf(s: string, c: char): (i: nat)
    ensures i <= |s| && c !in s[..i] && (i < |s| ==> s[i] == c)
  {
    if s == [] || s[0] == c then 0
    else
      var i := 1 + IndexOf(s[1..], c);
      assert s[..i] == [s[0]] + s[1..][..i - 1];
      i
  }

  lemma {:induction false} FirstAt(s: string, c: char, i: nat)
    requires i <= |s| && c !in s[..i] && (i < |s| ==> s[i] == c)
    ensures IndexOf(s, c) == i
  {
    if i > 0 {
      assert s[0] in s[..i] && s[..i] == [s[0]] + s[1..][..i - 1];
      FirstAt(s[1..], c, i - 1);
    }
  }

  lemma IndexOfConcat(s: string, c: char, t: string)
    requires c !in s
    ensures IndexOf(s + [c] + t, c) == |s|
  {
    assert (s + [c] + t)[..|s|] == s;
    FirstAt(s + [c] + t, c, |s|);
  }

  lemma IndexOfAbsent(s: string, c: char)
    requires c !in s
    ensures IndexOf(s, c) == |s|
  {
  }

  // Cutting at every separator, as a loop of strchr calls does.
  function Split(s: string, sep: char): (r: seq<string>)
    ensures r != []
    decreases |s|
  {
    var i := IndexOf(s, sep);
    if i == |s| then [s] else [s[..i]] + Split(s[i + 1..], sep)
  }

  function Join(names: seq<string>, sep: char): string
    requires names != []
  {
    if |names| == 1 then names[0] else names[0] + [sep] + Join(names[1..], sep)
  }

  lemma {:induction false} SplitJoin(names: seq<string>, sep: char)
    requires names != [] && forall i :: 0 <= i < |names| ==> sep !in names[i]
    ensures Split(Join(names, sep), sep) == names
  {
    if |names| == 1 {
      IndexOfAbsent(names[0], sep);
      assert names == [names[0]];
    } else {
      var text := Join(names, sep);
      IndexOfConcat(names[0], sep, Join(names[1..], sep));
      SplitJoin(names[1..], sep);
      assert text[..|names[0]|] == names[0] && text[|names[0]| + 1..] == Join(names[1..], sep);
      assert names == [names[0]] + names[1..];
    }
  }

  lemma SplitHead(head: string, rest: string, sep: char)
    requires sep !in head
    ensures Split(head + [sep] + rest, sep) == [head] + Split(rest, sep)
  {
    var text := head + [sep] + rest;
    IndexOfConcat(head, sep, rest);
    assert text[..|head|] == head && text[|head| + 1..] == rest;
  }

  lemma Regroup(head: string, rest: string, tail: string, sep: char)
    ensures (head + [sep] + rest) + [sep] + tail == head + [sep] + (rest + [sep] + tail)
  {
  }

  lemma {:induction false} SplitConcat(a: string, b: string, sep: char)
    ensures Split(a + [sep] + b, sep) == Split(a, sep) + Split(b, sep)
    decreases |a|
  {
    var i := IndexOf(a, sep);
    if i == |a| {
      assert a[..i] == a;
      SplitHead(a, b, sep);
    } else {
      var head, rest := a[..i], a[i + 1..];
      assert a == head + [sep] + rest;
      SplitConcat(rest, b, sep);
      SplitConcatStep(head, rest, b, sep);
    }
  }

  lemma SplitConcatStep(head: string, rest: string, b: string, sep: char)
    requires sep !in head && Split(rest + [sep] + b, sep) == Split(rest, sep) + Split(b, sep)
    ensures Split((head + [sep] + rest) + [sep] + b, sep) == Split(head + [sep] + rest, sep) + Split(b, sep)
  {
    Regroup(head, rest, b, sep);
    SplitHead(head, rest, sep);
    SplitHead(head, rest + [sep] + b, sep);
    ConsConcat(head, Split(rest, sep), Split(b, sep));
  }

  lemma ConsConcat(head: string, x: seq<string>, y: seq<string>)
    ensures [head] + (x + y) == ([head] + x) + y
  {
  }

  // No piece contains the separator.
  lemma {:induction false} SplitClean(s: string, sep: char)
    ensures forall piece :: piece in Split(s, sep) ==> sep !in piece
    decreases |s|
  {
    var i := IndexOf(s, sep);
    if i < |s| {
      SplitClean(s[i + 1..], sep);
    } else {
      assert s[..i] == s;
    }
  }

  lemma {:induction false} CleanNameOffered(names: seq<string>, k: nat, sep: char)
    requires k < |names| && sep !in names[k]
    ensures names[k] in Split(Join(names, sep), sep)
  {
    IndexOfAbsent(names[k], sep);
    if |names| > 1 {
      SplitConcat(names[0], Join(names[1..], sep), sep);
      if k > 0 {
        CleanNameOffered(names[1..], k - 1, sep);
      }
    }
  }

  // A joined list splits into its names exactly if no name contains the separator, and each single name is
  // among the pieces exactly if it does not contain it.
  lemma SplitJoinIff(names: seq<string>, sep: char)
    requires names != []
    ensures Split(Join(names, sep), sep) == names <==> forall i :: 0 <= i < |names| ==> sep !in names[i]
    ensures forall i :: 0 <= i < |names| ==> (names[i] in Split(Join(names, sep), sep) <==> sep !in names[i])
  {
    SplitClean(Join(names, sep), sep);
    if forall i :: 0 <= i < |names| ==> sep !in names[i] {
      SplitJoin(names, sep);
    }
    forall i | 0 <= i < |names| && sep !in names[i]
      ensures names[i] in Split(Join(names, sep), sep)
    {
      CleanNameOffered(names, i, sep);
    }
    assert forall i :: 0 <= i < |names| ==> names[i] in names;
  }

  // Joining the pieces gives the string back.
  lemma {:induction false} JoinSplit(s: string, sep: char)
    ensures Join(Split(s, sep), sep) == s
    decreases |s|
  {
    var i := IndexOf(s, sep);
    if i < |s| {
      JoinSplit(s[i + 1..], sep);
      assert Split(s, sep)[1..] == Split(s[i + 1..], sep);
      assert s == s[..i] + [sep] + s[i + 1..];
    } else {
      assert Split(s, sep) == [s];
    }
  }

  lemma {:induction false} JoinAppend(names: seq<string>, name: string, sep: char)
    requires names != []
    ensures Join(names + [name], sep) == Join(names, sep) + [sep] + name
  {
    if |names| > 1 {
      JoinAppend(names[1..], name, sep);
      assert (names + [name])[1..] == names[1..] + [name];
    } else {
      assert (names + [name])[1..] == [name];
    }
  }

  lemma {:induction false} JoinClean(names: seq<string>, sep: char, c: char)
    requires names != [] && c != sep && forall i :: 0 <= i < |names| ==> c !in names[i]
    ensures c !in Join(names, sep)
  {
    if |names| > 1 {
      JoinClean(names[1..], sep, c);
    }
  }

  // Some order in which all keys are visited once.
  predicate Visits(order: seq<string>, keys: set<string>) {
    && (forall i :: 0 <= i < |order| ==> order[i] in keys)
    && (forall k :: k in keys ==> k in order)
    && forall i, j :: 0 <= i < j < |order| ==> order[i] != order[j]
  }
}
