// Dotted references LD/LN.DO...DA[FC] and the walk that resolves them to a node.
module References {
  import opened Wrappers
  import opened CText
  import opened Strings
  import opened NodeTree

  const LD_KEY_INIT: string := "ldn_"

  // A key with its functional constraint, and without.
  function Base(key: string): string {
    key[..IndexOf(key, '[')]
  }

  predicate HasFc(key: string) {
    '[' in key
  }

  function WithFc(base: string, fc: string): string {
    base + "[" + fc + "]"
  }

  lemma BaseOfKey(base: string, fc: string)
    requires '[' !in base
    ensures Base(WithFc(base, fc)) == base && HasFc(WithFc(base, fc)) && Base(base) == base && !HasFc(base)
  {
    assert WithFc(base, fc) == base + ['['] + (fc + "]");
    IndexOfConcat(base, '[', fc + "]");
    IndexOfAbsent(base, '[');
    assert WithFc(base, fc)[|base|] == '[';
  }

  // One child per component, the plain key first and the key with the requested suffix second.
  function Walk(nodes: Nodes, at: Path, comps: seq<string>, fcStr: string): Option<Path>
    decreases |comps|
  {
    if comps == [] then Some(at)
    else if at + [comps[0]] in nodes then Walk(nodes, at + [comps[0]], comps[1..], fcStr)
    else if at + [comps[0] + fcStr] in nodes then Walk(nodes, at + [comps[0] + fcStr], comps[1..], fcStr)
    else None
  }

  // Below a logical device: the logical node, then the walk.
  function ResolveLn(nodes: Nodes, ld: Path, rest: string, fcStr: string): Option<Path> {
    var d := IndexOf(rest, '.');
    if d == |rest| || ld + [rest[..d]] !in nodes then None
    else Walk(nodes, ld + [rest[..d]], Split(rest[d + 1..], '.'), fcStr)
  }

  // Logical device, logical node, then the walk.
  function ResolveIn(nodes: Nodes, server: Path, daRef: string, fcStr: string): Option<Path> {
    var s := IndexOf(daRef, '/');
    if s == |daRef| then None
    else
      var ld := server + [LD_KEY_INIT + daRef[..s]];
      if ld !in nodes then None else ResolveLn(nodes, ld, daRef[s + 1..], fcStr)
  }

  // The bracket and at most three characters behind it.
  function FcString(daRefWithFC: string, b: nat): string
    requires b <= |daRefWithFC|
  {
    daRefWithFC[b..if b + 4 <= |daRefWithFC| then b + 4 else |daRefWithFC|]
  }

  // The node a member reference names, looked up from any node of the same server.
  function Resolve(nodes: Nodes, node: Path, daRefWithFC: string): Option<Path>
    requires node != []
  {
    var b := IndexOf(daRefWithFC, '[');
    if b == |daRefWithFC| || ServerOf(node).None? then None
    else ResolveIn(nodes, ServerOf(node).value, daRefWithFC[..b], FcString(daRefWithFC, b))
  }

  // strchr on the rest of a string agrees with IndexOf.
  method Find(buf: array<char>, from: nat, ch: char, ghost end: nat) returns (pos: int)
    requires Holds(buf, from, end)
    ensures IndexOf(buf[from..end], ch) == if pos < 0 then end - from else pos - from
    ensures pos == -1 || from <= pos < end
  {
    pos := Strchr(buf, from, ch, end);
    if pos < 0 {
      IndexOfAbsent(buf[from..end], ch);
    } else {
      assert buf[from..end][..pos - from] == buf[from..pos];
      FirstAt(buf[from..end], ch, pos - from);
    }
  }

  method LookUp(nodes: Nodes, at: Path, name: string, fcStr: string) returns (r: Option<Path>)
    ensures r == if at + [name] in nodes then Some(at + [name]) else Child(nodes, at, name + fcStr)
  {
    r := Child(nodes, at, name);
    if r.None? {
      r := Child(nodes, at, name + fcStr);
    }
  }

  lemma WalkStep(nodes: Nodes, at: Path, s: string, i: nat, fcStr: string)
    requires i < |s| && i == IndexOf(s, '.')
    ensures Walk(nodes, at, Split(s, '.'), fcStr)
         == if at + [s[..i]] in nodes then Walk(nodes, at + [s[..i]], Split(s[i + 1..], '.'), fcStr)
            else if at + [s[..i] + fcStr] in nodes then
              Walk(nodes, at + [s[..i] + fcStr], Split(s[i + 1..], '.'), fcStr)
            else None
  {
    assert Split(s, '.')[1..] == Split(s[i + 1..], '.');
  }

  // Cutting the string at a separator leaves what follows as it was.
  method Cut(daRef: array<char>, head: nat, at: nat, ghost end: nat) returns (name: string)
    requires Holds(daRef, head, end) && head <= at < end
    modifies daRef
    ensures name == old(daRef[head..end])[..at - head]
    ensures Holds(daRef, at + 1, end) && daRef[at + 1..end] == old(daRef[head..end])[at - head + 1..]
  {
    daRef[at] := NUL;
    name := daRef[head..at];
  }

  // The string from a cursor to its terminator.
  method RestOf(daRef: array<char>, head: nat, ghost end: nat) returns (name: string)
    requires Holds(daRef, head, end)
    ensures name == daRef[head..end]
  {
    var len := head;
    while daRef[len] != NUL
      invariant head <= len <= end
      decreases end - len
    {
      len := len + 1;
    }
    name := daRef[head..len];
  }

  // One component: cut at its dot in place, looked up.
  method NextNode(nodes: Nodes, scanNode: Path, fcStr: string, daRef: array<char>, head: nat, at: nat, ghost end: nat,
                  ghost ahead: string)
    returns (next: Option<Path>, ghost rest: string)
    requires Holds(daRef, head, end) && ahead == daRef[head..end]
    requires head <= at < end && at - head == IndexOf(ahead, '.')
    modifies daRef
    ensures Holds(daRef, at + 1, end) && rest == daRef[at + 1..end]
    ensures Walk(nodes, scanNode, Split(ahead, '.'), fcStr)
         == if next.None? then None else Walk(nodes, next.value, Split(rest, '.'), fcStr)
  {
    WalkStep(nodes, scanNode, ahead, at - head, fcStr);
    var name := Cut(daRef, head, at, end);
    rest := daRef[at + 1..end];
    next := LookUp(nodes, scanNode, name, fcStr);
  }

  // The components after the logical node, one after the other.
  method WalkInPlace(nodes: Nodes, start: Path, fcStr: string, daRef: array<char>, head: nat, ghost end: nat)
    returns (r: Option<Path>)
    requires Holds(daRef, head, end)
    modifies daRef
    ensures r == Walk(nodes, start, Split(old(daRef[head..end]), '.'), fcStr)
  {
    var scanNode, headPtr := start, head;
    var tempPtr := Find(daRef, headPtr, '.', end);
    ghost var ahead := daRef[headPtr..end];
    ghost var answer := Walk(nodes, start, Split(ahead, '.'), fcStr);
    while tempPtr >= 0
      invariant Holds(daRef, headPtr, end) && ahead == daRef[headPtr..end]
      invariant answer == Walk(nodes, scanNode, Split(ahead, '.'), fcStr)
      invariant IndexOf(ahead, '.') == if tempPtr < 0 then |ahead| else tempPtr - headPtr
      invariant tempPtr == -1 || headPtr <= tempPtr < end
      decreases end - headPtr
    {
      var newScanNode: Option<Path>;
      newScanNode, ahead := NextNode(nodes, scanNode, fcStr, daRef, headPtr, tempPtr, end, ahead);
      if newScanNode.None? {
        return None;
      }
      scanNode := newScanNode.value;
      headPtr := tempPtr + 1;
      tempPtr := Find(daRef, headPtr, '.', end);
    }
    var name := RestOf(daRef, headPtr, end);
    WalkLast(nodes, scanNode, ahead, fcStr);
    r := LookUp(nodes, scanNode, name, fcStr);
  }

  lemma WalkLast(nodes: Nodes, at: Path, s: string, fcStr: string)
    requires IndexOf(s, '.') == |s|
    ensures Walk(nodes, at, Split(s, '.'), fcStr)
         == if at + [s] in nodes then Some(at + [s]) else Child(nodes, at, s + fcStr)
  {
    assert Split(s, '.') == [s];
  }

  method ResolveLnInPlace(nodes: Nodes, ld: Path, fcStr: string, daRef: array<char>, headPtr: nat, ghost end: nat)
    returns (r: Option<Path>)
    requires Holds(daRef, headPtr, end)
    modifies daRef
    ensures r == ResolveLn(nodes, ld, old(daRef[headPtr..end]), fcStr)
  {
    var tempPtr := Find(daRef, headPtr, '.', end);
    if tempPtr < 0 {
      return None;
    }
    var name := Cut(daRef, headPtr, tempPtr, end);
    var scanNode := ld + [name];
    if scanNode !in nodes {
      return None;
    }
    r := WalkInPlace(nodes, scanNode, fcStr, daRef, tempPtr + 1, end);
  }

  method ResolveInPlace(nodes: Nodes, server: Path, fcStr: string, daRef: array<char>, ghost end: nat)
    returns (r: Option<Path>)
    requires Holds(daRef, 0, end)
    modifies daRef
    ensures r == ResolveIn(nodes, server, old(daRef[0..end]), fcStr)
  {
    var tempPtr := Find(daRef, 0, '/', end);
    if tempPtr < 0 {
      return None;
    }
    var name := Cut(daRef, 0, tempPtr, end);
    var scanNode := server + [LD_KEY_INIT + name];
    if scanNode !in nodes {
      return None;
    }
    r := ResolveLnInPlace(nodes, scanNode, fcStr, daRef, tempPtr + 1, end);
  }

  method GetDANode(tree: Tree, node: Path, daRefWithFC: string) returns (r: Option<Path>)
    requires node != [] && NUL !in daRefWithFC
    ensures r == Resolve(tree.nodes, node, daRefWithFC)
  {
    var serverNode := GetServerNode(node);
    var daRef := new char[|daRefWithFC| + 1](i => if 0 <= i < |daRefWithFC| then daRefWithFC[i] else NUL);
    assert daRef[0..|daRefWithFC|] == daRefWithFC;
    var tempPtr := Find(daRef, 0, '[', |daRefWithFC|);
    if tempPtr < 0 {
      return None;
    }
    var fcStr := FcString(daRefWithFC, tempPtr);
    daRef[tempPtr] := NUL;
    assert daRef[0..tempPtr] == daRefWithFC[..tempPtr];
    if serverNode.None? {
      return None;
    }
    r := ResolveInPlace(tree.nodes, serverNode.value, fcStr, daRef, tempPtr);
  }
}
