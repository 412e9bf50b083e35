// When the resolver undoes the reference that discovery stores.
module Resolution {
  import opened Wrappers
  import opened CText
  import opened Strings
  import opened NodeTree
  import opened References

  // The dotted reference of a path server, logical device, logical node, data...
  function RefOf(p: Path): string
    requires |p| >= 3 && LD_KEY_INIT <= p[1]
    decreases |p|
  {
    if |p| == 3 then p[1][4..] + "/" + p[2] else RefOf(p[..|p| - 1]) + "." + Base(p[|p| - 1])
  }

  predicate NameOk(s: string) {
    '/' !in s && '.' !in s && '[' !in s && NUL !in s
  }

  // A path whose keys are plain names or names with one and the same functional constraint.
  predicate MemberPath(p: Path, fc: string) {
    && |p| >= 4 && LD_KEY_INIT <= p[1] && NameOk(p[1][4..]) && NameOk(p[2]) && |fc| == 2 && NUL !in fc
    && forall i :: 3 <= i < |p| ==> NameOk(Base(p[i])) && (p[i] == Base(p[i]) || p[i] == WithFc(Base(p[i]), fc))
  }

  // No key with a constraint has a sibling with the same plain name.
  predicate NoShadow(nodes: Nodes, p: Path, from: nat) {
    forall i :: from <= i < |p| && HasFc(p[i]) ==> p[..i] + [Base(p[i])] !in nodes
  }

  function Bases(p: Path, from: nat): seq<string>
    requires from <= |p|
  {
    seq(|p| - from, i requires 0 <= i < |p| - from => Base(p[from + i]))
  }

  lemma {:induction false} RefOfJoin(p: Path)
    requires |p| >= 4 && LD_KEY_INIT <= p[1]
    ensures RefOf(p) == p[1][4..] + "/" + p[2] + "." + Join(Bases(p, 3), '.')
    decreases |p|
  {
    var q := p[..|p| - 1];
    var last := Base(p[|p| - 1]);
    if |p| == 4 {
      assert Bases(p, 3) == [last];
    } else {
      RefOfJoin(q);
      assert Bases(p, 3) == Bases(q, 3) + [last];
      JoinAppend(Bases(q, 3), last, '.');
      var head := p[1][4..] + "/" + p[2] + ".";
      assert head + Join(Bases(q, 3), '.') + "." + last == head + (Join(Bases(q, 3), '.') + ['.'] + last);
    }
  }

  lemma {:induction false} WalkExtends(nodes: Nodes, at: Path, comps: seq<string>, fcStr: string)
    ensures var r := Walk(nodes, at, comps, fcStr); r.Some? ==> at <= r.value
    decreases |comps|
  {
    if comps != [] {
      WalkExtends(nodes, at + [comps[0]], comps[1..], fcStr);
      WalkExtends(nodes, at + [comps[0] + fcStr], comps[1..], fcStr);
    }
  }

  lemma NoShadowStep(nodes: Nodes, p: Path, k: nat)
    requires k < |p|
    ensures NoShadow(nodes, p, k)
       <==> (HasFc(p[k]) ==> p[..k] + [Base(p[k])] !in nodes) && NoShadow(nodes, p, k + 1)
  {
  }

  // A key that is its own base, or its base with the suffix.
  predicate Suffixed(key: string, fcStr: string) {
    (key == Base(key) || key == Base(key) + fcStr) && (HasFc(key) <==> key != Base(key))
  }

  lemma KeyOfMember(p: Path, fc: string, k: nat)
    requires MemberPath(p, fc) && 3 <= k < |p|
    ensures Suffixed(p[k], "[" + fc + "]")
  {
    BaseOfKey(Base(p[k]), fc);
    assert WithFc(Base(p[k]), fc) == Base(p[k]) + ("[" + fc + "]");
  }

  lemma WalkUnfold(nodes: Nodes, at: Path, comps: seq<string>, name: string, rest: seq<string>, fcStr: string)
    requires comps != [] && comps[0] == name && comps[1..] == rest
    ensures Walk(nodes, at, comps, fcStr)
         == if at + [name] in nodes then Walk(nodes, at + [name], rest, fcStr)
            else if at + [name + fcStr] in nodes then Walk(nodes, at + [name + fcStr], rest, fcStr)
            else None
  {
  }

  lemma BasesStep(p: Path, k: nat)
    requires k < |p|
    ensures Bases(p, k) == [Base(p[k])] + Bases(p, k + 1) && p[..k + 1] == p[..k] + [p[k]]
  {
  }

  // One step of that walk, given what the rest of it finds.
  lemma WalkStepFinds(nodes: Nodes, p: Path, k: nat, base: string, fcStr: string, rest: seq<string>, clear: bool)
    requires k < |p| && p[..k] + [p[k]] in nodes && (p[k] == base || p[k] == base + fcStr)
    requires Walk(nodes, p[..k] + [p[k]], rest, fcStr) == Some(p) <==> clear
    ensures Walk(nodes, p[..k], [base] + rest, fcStr) == Some(p)
       <==> (p[k] != base ==> p[..k] + [base] !in nodes) && clear
  {
    WalkUnfold(nodes, p[..k], [base] + rest, base, rest, fcStr);
    if p[k] != base {
      WalkExtends(nodes, p[..k] + [base], rest, fcStr);
      assert (p[..k] + [base])[k] == base;
    }
  }

  // The walk along a member path ends at that path exactly if nothing on it is shadowed.
  lemma {:induction false} WalkFinds(nodes: Nodes, p: Path, fcStr: string, k: nat)
    requires k <= |p| && forall i :: k <= i < |p| ==> Suffixed(p[i], fcStr)
    requires forall i :: k <= i <= |p| ==> p[..i] in nodes
    ensures Walk(nodes, p[..k], Bases(p, k), fcStr) == Some(p) <==> NoShadow(nodes, p, k)
    decreases |p| - k
  {
    assert p[..|p|] == p;
    if k < |p| {
      BasesStep(p, k);
      WalkFinds(nodes, p, fcStr, k + 1);
      NoShadowStep(nodes, p, k);
      WalkStepFinds(nodes, p, k, Base(p[k]), fcStr, Bases(p, k + 1), NoShadow(nodes, p, k + 1));
    }
  }

  lemma CutConstraint(daRef: string, fc: string)
    requires '[' !in daRef && |fc| == 2
    ensures var full := WithFc(daRef, fc);
            && IndexOf(full, '[') == |daRef| < |full| && full[..|daRef|] == daRef
            && FcString(full, |daRef|) == "[" + fc + "]"
  {
    assert WithFc(daRef, fc) == daRef + ['['] + (fc + "]");
    IndexOfConcat(daRef, '[', fc + "]");
  }

  lemma CutParts(ld: string, ln: string, tail: string)
    requires '/' !in ld && '.' !in ln
    ensures var daRef := ld + "/" + ln + "." + tail;
            && IndexOf(daRef, '/') == |ld| < |daRef| && daRef[..|ld|] == ld
            && var rest := daRef[|ld| + 1..];
               IndexOf(rest, '.') == |ln| < |rest| && rest[..|ln|] == ln && rest[|ln| + 1..] == tail
  {
    var daRef := ld + "/" + ln + "." + tail;
    assert daRef == ld + ['/'] + (ln + "." + tail);
    IndexOfConcat(ld, '/', ln + "." + tail);
    assert daRef[|ld| + 1..] == ln + ['.'] + tail;
    IndexOfConcat(ln, '.', tail);
  }

  lemma CutReference(nodes: Nodes, node: Path, ld: string, ln: string, tail: string, fc: string)
    requires node != [] && SERVER_KEY_INIT <= node[0] && |fc| == 2
    requires '/' !in ld && '.' !in ln && '[' !in ld + "/" + ln + "." + tail
    ensures Resolve(nodes, node, WithFc(ld + "/" + ln + "." + tail, fc))
         == var device := node[..1] + [LD_KEY_INIT + ld];
            if device in nodes && device + [ln] in nodes then
              Walk(nodes, device + [ln], Split(tail, '.'), "[" + fc + "]")
            else None
  {
    var daRef := ld + "/" + ln + "." + tail;
    CutConstraint(daRef, fc);
    CutParts(ld, ln, tail);
  }

  lemma RefClean(p: Path, fc: string, c: char)
    requires MemberPath(p, fc) && (c == '[' || c == NUL)
    ensures c !in RefOf(p)
  {
    RefOfJoin(p);
    JoinClean(Bases(p, 3), '.', c);
  }

  lemma LogicalNodePath(p: Path, node: Path)
    requires |p| >= 3 && LD_KEY_INIT <= p[1] && node != [] && node[0] == p[0]
    ensures node[..1] + [LD_KEY_INIT + p[1][4..]] == p[..2] && p[..2] + [p[2]] == p[..3]
  {
    assert LD_KEY_INIT + p[1][4..] == p[1];
  }

  // Cutting a member reference gives back the parts it was built from.
  lemma ResolveMember(nodes: Nodes, node: Path, p: Path, fc: string)
    requires MemberPath(p, fc) && node != [] && node[0] == p[0] && SERVER_KEY_INIT <= p[0]
    requires p[..2] in nodes && p[..3] in nodes
    ensures Resolve(nodes, node, WithFc(RefOf(p), fc)) == Walk(nodes, p[..3], Bases(p, 3), "[" + fc + "]")
  {
    RefOfJoin(p);
    RefClean(p, fc, '[');
    CutReference(nodes, node, p[1][4..], p[2], Join(Bases(p, 3), '.'), fc);
    LogicalNodePath(p, node);
    SplitJoin(Bases(p, 3), '.');
  }

  // The resolver takes the member reference of a path back to exactly that path
  // if and only if no key on the path is shadowed by a plain sibling.
  lemma ResolveIffUnshadowed(nodes: Nodes, node: Path, p: Path, fc: string)
    requires MemberPath(p, fc) && node != [] && node[0] == p[0] && SERVER_KEY_INIT <= p[0]
    requires p in nodes && Closed(nodes)
    ensures Resolve(nodes, node, WithFc(RefOf(p), fc)) == Some(p) <==> NoShadow(nodes, p, 3)
  {
    forall i | 2 <= i <= |p|
      ensures p[..i] in nodes
    {
      PrefixIn(nodes, p, i);
    }
    ResolveMember(nodes, node, p, fc);
    forall i | 3 <= i < |p|
      ensures Suffixed(p[i], "[" + fc + "]")
    {
      KeyOfMember(p, fc, i);
    }
    WalkFinds(nodes, p, "[" + fc + "]", 3);
  }

  lemma {:induction false} PrefixIn(nodes: Nodes, p: Path, i: nat)
    requires Closed(nodes) && p in nodes && i <= |p|
    ensures p[..i] in nodes
    decreases |p| - i
  {
    if i < |p| {
      PrefixIn(nodes, p, i + 1);
      assert p[..i + 1][..i] == p[..i];
    } else {
      assert p[..i] == p;
    }
  }

  // ---------------------------------------------------------------- what is found is what was asked for

  lemma SuffixedBase(name: string, fcStr: string)
    requires '[' !in name && fcStr != [] && fcStr[0] == '['
    ensures Base(name) == name && Base(name + fcStr) == name
  {
    IndexOfAbsent(name, '[');
    assert name + fcStr == name + ['['] + fcStr[1..];
    IndexOfConcat(name, '[', fcStr[1..]);
  }

  // The walk ends at a node whose keys are the components, with or without the suffix.
  lemma {:induction false} WalkSound(nodes: Nodes, at: Path, comps: seq<string>, fcStr: string)
    requires fcStr != [] && fcStr[0] == '[' && forall i :: 0 <= i < |comps| ==> '[' !in comps[i]
    requires Walk(nodes, at, comps, fcStr).Some?
    ensures var p := Walk(nodes, at, comps, fcStr).value;
            && at <= p && |p| == |at| + |comps| && (comps != [] ==> p in nodes)
            && forall i :: 0 <= i < |comps| ==>
                 Base(p[|at| + i]) == comps[i] && (p[|at| + i] == comps[i] || p[|at| + i] == comps[i] + fcStr)
    decreases |comps|
  {
    if comps != [] {
      var name := comps[0];
      var key := if at + [name] in nodes then name else name + fcStr;
      var rest := comps[1..];
      SuffixedBase(name, fcStr);
      WalkSound(nodes, at + [key], rest, fcStr);
      var p := Walk(nodes, at, comps, fcStr).value;
      assert p[|at|] == (at + [key])[|at|] && at <= at + [key];
      if rest == [] {
        assert p == at + [key];
      }
      forall i | 0 < i < |comps|
        ensures Base(p[|at| + i]) == comps[i] && (p[|at| + i] == comps[i] || p[|at| + i] == comps[i] + fcStr)
      {
        assert comps[i] == rest[i - 1];
      }
    }
  }

  lemma SubstringLacks(s: string, c: char, from: nat, to: nat)
    requires c !in s && from <= to <= |s|
    ensures c !in s[from..to]
  {
  }

  // Whatever the resolver finds is a node of the asking node's own server whose dotted reference is the one asked
  // for, up to the bracket.
  lemma ResolveSound(nodes: Nodes, node: Path, ref: string)
    requires node != [] && Resolve(nodes, node, ref).Some?
    ensures var p := Resolve(nodes, node, ref).value;
            && '[' in ref && p in nodes && |p| >= 4 && p[0] == node[0] && SERVER_KEY_INIT <= p[0]
            && LD_KEY_INIT <= p[1] && RefOf(p) == ref[..IndexOf(ref, '[')]
  {
    var b := IndexOf(ref, '[');
    assert b < |ref| && ref[b] == '[';
    ResolveInSound(nodes, ServerOf(node).value, ref[..b], FcString(ref, b));
  }

  lemma CutAt(s: string, c: char)
    requires IndexOf(s, c) < |s|
    ensures var i := IndexOf(s, c); s == s[..i] + [c] + s[i + 1..]
  {
  }

  lemma ResolveLnSound(nodes: Nodes, ld: Path, rest: string, fcStr: string) returns (ln: string, tail: string)
    requires |ld| == 2 && '[' !in rest && fcStr != [] && fcStr[0] == '[' && ResolveLn(nodes, ld, rest, fcStr).Some?
    ensures rest == ln + ['.'] + tail
    ensures var p := ResolveLn(nodes, ld, rest, fcStr).value;
            ld + [ln] <= p && |p| >= 4 && p in nodes && Join(Bases(p, 3), '.') == tail
  {
    var d := IndexOf(rest, '.');
    ln, tail := rest[..d], rest[d + 1..];
    CutAt(rest, '.');
    SubstringLacks(rest, '[', d + 1, |rest|);
    TailSound(nodes, ld + [ln], tail, fcStr);
  }

  lemma Regroup(ld: string, ln: string, tail: string)
    ensures ld + "/" + ln + "." + tail == ld + ['/'] + (ln + ['.'] + tail)
  {
  }

  lemma RefOfParts(p: Path, ldName: string, ln: string, tail: string)
    requires |p| >= 4 && LD_KEY_INIT <= p[1] && p[1][4..] == ldName && p[2] == ln && Join(Bases(p, 3), '.') == tail
    ensures RefOf(p) == ldName + ['/'] + (ln + ['.'] + tail)
  {
    RefOfJoin(p);
    Regroup(ldName, ln, tail);
  }

  lemma ResolveInSound(nodes: Nodes, server: Path, daRef: string, fcStr: string)
    requires |server| == 1 && '[' !in daRef && fcStr != [] && fcStr[0] == '['
    requires ResolveIn(nodes, server, daRef, fcStr).Some?
    ensures var p := ResolveIn(nodes, server, daRef, fcStr).value;
            p in nodes && |p| >= 4 && p[0] == server[0] && LD_KEY_INIT <= p[1] && RefOf(p) == daRef
  {
    var s := IndexOf(daRef, '/');
    CutAt(daRef, '/');
    SubstringLacks(daRef, '[', s + 1, |daRef|);
    var ln, tail := ResolveLnSound(nodes, server + [LD_KEY_INIT + daRef[..s]], daRef[s + 1..], fcStr);
    PathParts(ResolveIn(nodes, server, daRef, fcStr).value, server, daRef[..s], ln);
    RefOfParts(ResolveIn(nodes, server, daRef, fcStr).value, daRef[..s], ln, tail);
  }

  lemma {:induction false} PiecesLack(s: string, sep: char, c: char)
    requires c !in s
    ensures forall piece :: piece in Split(s, sep) ==> c !in piece
    decreases |s|
  {
    var i := IndexOf(s, sep);
    if i < |s| {
      SubstringLacks(s, c, 0, i);
      SubstringLacks(s, c, i + 1, |s|);
      PiecesLack(s[i + 1..], sep, c);
    }
  }

  lemma TailSound(nodes: Nodes, at: Path, tail: string, fcStr: string)
    requires |at| == 3 && '[' !in tail && fcStr != [] && fcStr[0] == '['
    requires Walk(nodes, at, Split(tail, '.'), fcStr).Some?
    ensures var p := Walk(nodes, at, Split(tail, '.'), fcStr).value;
            at <= p && |p| >= 4 && p in nodes && Join(Bases(p, 3), '.') == tail
  {
    var comps := Split(tail, '.');
    PiecesLack(tail, '.', '[');
    WalkSound(nodes, at, comps, fcStr);
    assert Bases(Walk(nodes, at, comps, fcStr).value, 3) == comps;
    JoinSplit(tail, '.');
  }

  lemma PathParts(p: Path, server: Path, ldName: string, ln: string)
    requires |server| == 1 && server + [LD_KEY_INIT + ldName] + [ln] <= p
    ensures p[0] == server[0] && LD_KEY_INIT <= p[1] && p[1][4..] == ldName && p[2] == ln
  {
    assert p[1] == LD_KEY_INIT + ldName && p[2] == ln;
  }
}
