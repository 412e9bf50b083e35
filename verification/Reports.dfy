// Routing a received report to the value nodes of the data-set members.
module Reports {
  import opened Wrappers
  import opened CText
  import opened Strings
  import opened Iso8601
  import opened RoundTrip
  import opened BitStrings
  import opened NodeTree
  import opened References
  import opened DiscoveredTree
  import opened ServerDiscovery
  import opened DataSets
  import Choices
  import RcbMirror

  datatype MmsValue =
    | MmsInteger(i: int)
    | MmsUnsigned(u: nat)
    | MmsBoolean(b: bool)
    | MmsVisibleString(s: string)
    | MmsString(s: string)
    | MmsUtcTime(ms: nat)
    | MmsBitString(bits: seq<bool>)
    | MmsFloat(f: real)
    | MmsUnsupported

  // What the server can deliver: 64-bit times, and no bit string without bits.
  predicate Deliverable(v: MmsValue) {
    && (v.MmsUtcTime? ==> v.ms < 0x1_0000_0000_0000_0000)
    && (v.MmsBitString? ==> v.bits != [])
  }

  // The text or number a value node shows for an element, if its type is supported.
  function Shown(v: MmsValue): Option<Value> {
    match v
    case MmsInteger(i) => Some(Number(i))
    case MmsUnsigned(u) => Some(Number(u))
    case MmsBoolean(b) => Some(Flag(b))
    case MmsVisibleString(s) => Some(Text(s))
    case MmsString(s) => Some(Text(s))
    case MmsUtcTime(ms) => Some(Text(Printed(ms)))
    case MmsBitString(bits) => Some(Text(BitText(bits)))
    case MmsFloat(f) => Some(Real(f))
    case MmsUnsupported => None
  }

  function WithShown(nodes: Nodes, p: Path, v: MmsValue): Nodes {
    if p in nodes && Shown(v).Some? then nodes[p := nodes[p].(value := Shown(v).value)] else nodes
  }

  method TimeText(ms: nat) returns (text: string)
    requires ms < 0x1_0000_0000_0000_0000
    ensures text == Printed(ms)
  {
    var buf := new char[25](_ => NUL);
    GetUtcTimeString(ms, buf);
    assert buf[..] == buf[..24] + [buf[24]];
    text := CString(buf[..]);
  }

  method BitsText(bits: seq<bool>) returns (text: string)
    requires bits != []
    ensures text == BitText(bits)
  {
    var bitStrBuf := PrintBitString(bits);
    text := bitStrBuf[..2 * |bits| - 1];
  }

  // The switch on the element's type.
  method ValueOf(v: MmsValue) returns (shown: Option<Value>)
    requires Deliverable(v)
    ensures shown == Shown(v)
  {
    match v {
      case MmsInteger(i) =>
        shown := Some(Number(i));
      case MmsUnsigned(u) =>
        shown := Some(Number(u));
      case MmsBoolean(b) =>
        shown := Some(Flag(b));
      case MmsVisibleString(s) =>
        shown := Some(Text(s));
      case MmsString(s) =>
        shown := Some(Text(s));
      case MmsUtcTime(ms) =>
        var text := TimeText(ms);
        shown := Some(Text(text));
      case MmsBitString(bits) =>
        var text := BitsText(bits);
        shown := Some(Text(text));
      case MmsFloat(f) =>
        shown := Some(Real(f));
      case MmsUnsupported =>
        shown := None;
    }
  }

  // setValueNodeFromMMS
  method SetValueNodeFromMMS(tree: Tree, p: Path, v: MmsValue)
    requires p in tree.nodes && Deliverable(v)
    modifies tree
    ensures tree.nodes == WithShown(old(tree.nodes), p, v)
  {
    var shown := ValueOf(v);
    if shown.Some? {
      tree.nodes := tree.nodes[p := tree.nodes[p].(value := shown.value)];
    }
  }

  // One slot of a report: whether the member is included, and its element.
  datatype Slot = Slot(included: bool, element: MmsValue)

  // The value node a member reference names.
  function Target(nodes: Nodes, rcbNode: Path, member: string): Option<Path>
    requires rcbNode != []
  {
    var da := Resolve(nodes, rcbNode, member);
    if da.Some? then Child(nodes, da.value, "Value") else None
  }

  // Slot i of the report writes node p.
  predicate Hits(nodes: Nodes, rcbNode: Path, members: seq<string>, slots: seq<Slot>, i: nat, p: Path)
    requires rcbNode != [] && |members| == |slots| && i < |slots|
  {
    slots[i].included && Shown(slots[i].element).Some? && Target(nodes, rcbNode, members[i]) == Some(p)
  }

  // The last of the first n slots that writes node p, or -1.
  function LastHit(nodes: Nodes, rcbNode: Path, members: seq<string>, slots: seq<Slot>, n: nat, p: Path): (i: int)
    requires rcbNode != [] && |members| == |slots| && n <= |slots|
    ensures -1 <= i < n
    ensures i >= 0 ==> Hits(nodes, rcbNode, members, slots, i, p)
    ensures forall k :: i < k < n ==> !Hits(nodes, rcbNode, members, slots, k, p)
  {
    if n == 0 then -1
    else if Hits(nodes, rcbNode, members, slots, n - 1, p) then n - 1
    else LastHit(nodes, rcbNode, members, slots, n - 1, p)
  }

  // The tree after the first n slots: each written node shows its last element, all others are as before.
  ghost predicate Routed(nodes: Nodes, after: Nodes, rcbNode: Path, members: seq<string>, slots: seq<Slot>, n: nat)
    requires rcbNode != [] && |members| == |slots| && n <= |slots|
  {
    && after.Keys == nodes.Keys
    && forall p :: p in nodes ==>
         var hit := LastHit(nodes, rcbNode, members, slots, n, p);
         after[p] == if hit < 0 then nodes[p] else nodes[p].(value := Shown(slots[hit].element).value)
  }

  // The walk looks at keys only, so values written on the way do not change it.
  lemma {:induction false} WalkByKeys(a: Nodes, b: Nodes, at: Path, comps: seq<string>, fcStr: string)
    requires a.Keys == b.Keys
    ensures Walk(a, at, comps, fcStr) == Walk(b, at, comps, fcStr)
    decreases |comps|
  {
    assert forall p :: p in a <==> p in b;
    if comps != [] {
      WalkByKeys(a, b, at + [comps[0]], comps[1..], fcStr);
      WalkByKeys(a, b, at + [comps[0] + fcStr], comps[1..], fcStr);
    }
  }

  lemma LnByKeys(a: Nodes, b: Nodes, ld: Path, rest: string, fcStr: string)
    requires a.Keys == b.Keys
    ensures ResolveLn(a, ld, rest, fcStr) == ResolveLn(b, ld, rest, fcStr)
  {
    assert forall p :: p in a <==> p in b;
    var d := IndexOf(rest, '.');
    if d < |rest| {
      WalkByKeys(a, b, ld + [rest[..d]], Split(rest[d + 1..], '.'), fcStr);
    }
  }

  lemma TargetByKeys(a: Nodes, b: Nodes, rcbNode: Path, member: string)
    requires a.Keys == b.Keys && rcbNode != []
    ensures Target(a, rcbNode, member) == Target(b, rcbNode, member)
  {
    assert forall p :: p in a <==> p in b;
    ResolveByKeys(a, b, rcbNode, member);
  }

  lemma ResolveByKeys(a: Nodes, b: Nodes, rcbNode: Path, member: string)
    requires a.Keys == b.Keys && rcbNode != []
    ensures Resolve(a, rcbNode, member) == Resolve(b, rcbNode, member)
  {
    assert forall p :: p in a <==> p in b;
    var k := IndexOf(member, '[');
    if k < |member| && ServerOf(rcbNode).Some? {
      var daRef, fcStr := member[..k], FcString(member, k);
      var s := IndexOf(daRef, '/');
      if s < |daRef| {
        LnByKeys(a, b, ServerOf(rcbNode).value + [LD_KEY_INIT + daRef[..s]], daRef[s + 1..], fcStr);
      }
    }
  }

  // The tree after one slot.
  function AfterSlot(nodes: Nodes, rcbNode: Path, member: string, slot: Slot): Nodes
    requires rcbNode != []
  {
    var target := Target(nodes, rcbNode, member);
    if slot.included && target.Some? then WithShown(nodes, target.value, slot.element) else nodes
  }

  lemma RoutedNone(nodes: Nodes, rcbNode: Path, members: seq<string>, slots: seq<Slot>)
    requires rcbNode != [] && |members| == |slots|
    ensures Routed(nodes, nodes, rcbNode, members, slots, 0)
  {
  }

  lemma RoutedStep(nodes: Nodes, before: Nodes, rcbNode: Path, members: seq<string>, slots: seq<Slot>, n: nat)
    requires rcbNode != [] && |members| == |slots| && n < |slots|
    requires Routed(nodes, before, rcbNode, members, slots, n)
    ensures Routed(nodes, AfterSlot(before, rcbNode, members[n], slots[n]), rcbNode, members, slots, n + 1)
  {
    TargetByKeys(nodes, before, rcbNode, members[n]);
  }

  method RouteMember(tree: Tree, rcbNode: Path, member: string, slot: Slot)
    requires rcbNode != [] && Deliverable(slot.element) && NUL !in member
    modifies tree
    ensures tree.nodes == AfterSlot(old(tree.nodes), rcbNode, member, slot)
  {
    if slot.included {
      var daNode := GetDANode(tree, rcbNode, member);
      if daNode.Some? {
        var daValNode := Child(tree.nodes, daNode.value, "Value");
        if daValNode.Some? {
          SetValueNodeFromMMS(tree, daValNode.value, slot.element);
        }
      }
    }
  }

  // The loop of reportCallbackFunction over the members of the data set.
  method RouteMembers(tree: Tree, rcbNode: Path, members: seq<string>, slots: seq<Slot>)
    requires rcbNode != [] && |members| == |slots|
    requires forall i :: 0 <= i < |slots| ==> Deliverable(slots[i].element) && NUL !in members[i]
    modifies tree
    ensures Routed(old(tree.nodes), tree.nodes, rcbNode, members, slots, |slots|)
  {
    var i := 0;
    ghost var before := tree.nodes;
    RoutedNone(before, rcbNode, members, slots);
    while i < |members|
      invariant 0 <= i <= |members| && Routed(before, tree.nodes, rcbNode, members, slots, i)
    {
      ghost var now := tree.nodes;
      RouteMember(tree, rcbNode, members[i], slots[i]);
      RoutedStep(before, now, rcbNode, members, slots, i);
      i := i + 1;
    }
  }

  // What a report does to the tree: it is routed to the members of the data set the control block names.
  ghost predicate Received(nodes: Nodes, after: Nodes, created: map<string, Created>, rcbNode: Path, connected: bool,
                           dataSetRef: string, slots: seq<Slot>)
    requires rcbNode != []
  {
    var key := LookupKey(dataSetRef);
    if connected && ServerOf(rcbNode).Some? && key in created then
      |created[key].members| == |slots| && Routed(nodes, after, rcbNode, created[key].members, slots, |slots|)
    else after == nodes
  }

  // reportCallbackFunction: a report for a control block whose data set is not found changes nothing.
  // The server sends one slot for each member of the data set.
  method ReportCallback(tree: Tree, folders: Folders, rcbNode: Path, connected: bool, dataSetRef: string,
                        slots: seq<Slot>)
    requires rcbNode != []
    requires var key := LookupKey(dataSetRef);
             key in folders.created ==>
               && |folders.created[key].members| == |slots|
               && forall i :: 0 <= i < |slots| ==>
                    Deliverable(slots[i].element) && NUL !in folders.created[key].members[i]
    modifies tree
    ensures Received(old(tree.nodes), tree.nodes, folders.created, rcbNode, connected, dataSetRef, slots)
  {
    var key := folders.GetDataSetNodeFromRef(dataSetRef);
    var server := GetServerNode(rcbNode);
    if connected && server.Some? && key.Some? {
      RouteMembers(tree, rcbNode, folders.created[key.value].members, slots);
    }
  }

  // Slot i of the report is for node p: it is included, supported, and its member is the attribute above p.
  predicate Writes(attributes: seq<Path>, slots: seq<Slot>, i: nat, p: Path)
    requires |attributes| == |slots| && i < |slots|
  {
    slots[i].included && Shown(slots[i].element).Some? && p == attributes[i] + ["Value"]
  }

  // The last of the first n slots that is for node p, or -1.
  function LastWrite(attributes: seq<Path>, slots: seq<Slot>, n: nat, p: Path): (i: int)
    requires |attributes| == |slots| && n <= |slots|
    ensures -1 <= i < n
    ensures i >= 0 ==> Writes(attributes, slots, i, p)
    ensures forall k :: i < k < n ==> !Writes(attributes, slots, k, p)
  {
    if n == 0 then -1
    else if Writes(attributes, slots, n - 1, p) then n - 1
    else LastWrite(attributes, slots, n - 1, p)
  }

  // The members of a data set, given by the attributes they name, in a tree where discovery has put them in order.
  predicate NamesAttributes(nodes: Nodes, rcbNode: Path, attributes: seq<Path>, members: seq<string>)
    requires rcbNode != []
  {
    && |members| == |attributes|
    && forall i :: 0 <= i < |attributes| ==> NamesAttribute(nodes, rcbNode, attributes[i], members[i])
  }

  predicate NamesAttribute(nodes: Nodes, rcbNode: Path, p: Path, member: string)
    requires rcbNode != []
  {
    && p in nodes && nodes[p].kind == DataAttribute && p != [] && SERVER_KEY_INIT <= p[0] && rcbNode[0] == p[0]
    && AttributeOk(nodes, p) && member == MemberRef(nodes, p)
  }

  lemma MemberTarget(nodes: Nodes, rcbNode: Path, p: Path, member: string)
    requires InOrder(nodes) && rcbNode != [] && NamesAttribute(nodes, rcbNode, p, member)
    ensures Target(nodes, rcbNode, member) == Child(nodes, p, "Value")
  {
    StoredReferenceResolves(nodes, p, rcbNode);
  }

  // The same with resolution already done.
  predicate AimsAt(nodes: Nodes, rcbNode: Path, p: Path, member: string)
    requires rcbNode != []
  {
    Target(nodes, rcbNode, member) == Child(nodes, p, "Value")
  }

  predicate AllAim(nodes: Nodes, rcbNode: Path, attributes: seq<Path>, members: seq<string>)
    requires rcbNode != []
  {
    |members| == |attributes| && forall i :: 0 <= i < |attributes| ==> AimsAt(nodes, rcbNode, attributes[i], members[i])
  }

  lemma HitIsWrite(nodes: Nodes, rcbNode: Path, attribute: Path, member: string, p: Path)
    requires rcbNode != [] && p in nodes && AimsAt(nodes, rcbNode, attribute, member)
    ensures Target(nodes, rcbNode, member) == Some(p) <==> p == attribute + ["Value"]
  {
  }

  lemma {:induction false} LastHitIsLastWrite(nodes: Nodes, rcbNode: Path, attributes: seq<Path>, members: seq<string>,
                                              slots: seq<Slot>, n: nat, p: Path)
    requires rcbNode != [] && AllAim(nodes, rcbNode, attributes, members)
    requires |slots| == |members| && n <= |slots| && p in nodes
    ensures LastHit(nodes, rcbNode, members, slots, n, p) == LastWrite(attributes, slots, n, p)
  {
    if n > 0 {
      assert AimsAt(nodes, rcbNode, attributes[n - 1], members[n - 1]);
      HitIsWrite(nodes, rcbNode, attributes[n - 1], members[n - 1], p);
      LastHitIsLastWrite(nodes, rcbNode, attributes, members, slots, n - 1, p);
    }
  }

  lemma StoredMembersAim(nodes: Nodes, rcbNode: Path, attributes: seq<Path>, members: seq<string>)
    requires InOrder(nodes) && rcbNode != [] && NamesAttributes(nodes, rcbNode, attributes, members)
    ensures AllAim(nodes, rcbNode, attributes, members)
  {
    forall i | 0 <= i < |attributes|
      ensures AimsAt(nodes, rcbNode, attributes[i], members[i])
    {
      assert NamesAttribute(nodes, rcbNode, attributes[i], members[i]);
      MemberTarget(nodes, rcbNode, attributes[i], members[i]);
    }
  }

  // After a report on a discovered tree, for any list of members: the value node of each included attribute shows
  // the last element included for it, and every other node is as before. No name resolution is left in this.
  lemma ReportShowsAttributes(nodes: Nodes, after: Nodes, rcbNode: Path, attributes: seq<Path>, members: seq<string>,
                              slots: seq<Slot>)
    requires InOrder(nodes) && rcbNode != [] && NamesAttributes(nodes, rcbNode, attributes, members)
    requires |slots| == |members| && Routed(nodes, after, rcbNode, members, slots, |slots|)
    ensures after.Keys == nodes.Keys
    ensures forall p :: p in nodes ==>
              var last := LastWrite(attributes, slots, |slots|, p);
              after[p] == if last < 0 then nodes[p] else nodes[p].(value := Shown(slots[last].element).value)
  {
    StoredMembersAim(nodes, rcbNode, attributes, members);
    AimedShows(nodes, after, rcbNode, attributes, members, slots);
  }

  lemma AimedShows(nodes: Nodes, after: Nodes, rcbNode: Path, attributes: seq<Path>, members: seq<string>,
                   slots: seq<Slot>)
    requires rcbNode != [] && AllAim(nodes, rcbNode, attributes, members)
    requires |slots| == |members| && Routed(nodes, after, rcbNode, members, slots, |slots|)
    ensures forall p :: p in nodes ==>
              var last := LastWrite(attributes, slots, |slots|, p);
              p in after &&
              after[p] == if last < 0 then nodes[p] else nodes[p].(value := Shown(slots[last].element).value)
  {
    forall p | p in nodes
      ensures LastHit(nodes, rcbNode, members, slots, |slots|, p) == LastWrite(attributes, slots, |slots|, p)
    {
      LastHitIsLastWrite(nodes, rcbNode, attributes, members, slots, |slots|, p);
    }
  }

  // In particular an included attribute shows its element, unless a later slot is for the same attribute.
  lemma ReportReachesAttribute(nodes: Nodes, after: Nodes, rcbNode: Path, attributes: seq<Path>, members: seq<string>,
                               slots: seq<Slot>, i: nat)
    requires InOrder(nodes) && rcbNode != [] && NamesAttributes(nodes, rcbNode, attributes, members)
    requires |slots| == |members| && Routed(nodes, after, rcbNode, members, slots, |slots|) && i < |slots|
    requires attributes[i] + ["Value"] in nodes && slots[i].included && Shown(slots[i].element).Some?
    requires forall j :: i < j < |slots| && slots[j].included && Shown(slots[j].element).Some? ==>
               attributes[j] != attributes[i]
    ensures var p := attributes[i] + ["Value"];
            p in after && after[p] == nodes[p].(value := Shown(slots[i].element).value)
  {
    var p := attributes[i] + ["Value"];
    ReportShowsAttributes(nodes, after, rcbNode, attributes, members, slots);
    forall j | i < j < |slots|
      ensures !Writes(attributes, slots, j, p)
    {
      SameValueNode(attributes[i], attributes[j]);
    }
    assert Writes(attributes, slots, i, p);
    assert LastWrite(attributes, slots, |slots|, p) == i;
  }

  lemma SameValueNode(p: Path, q: Path)
    ensures p + ["Value"] == q + ["Value"] ==> p == q
  {
    if p + ["Value"] == q + ["Value"] {
      assert (p + ["Value"])[..|p|] == p && (q + ["Value"])[..|q|] == q;
      assert |p| == |q|;
    }
  }

  // What a client reads off a value node: the number, truth value or text of the element itself, the instant of a
  // time as far as its text can carry it, and the single bits of a bit string.
  predicate Tells(value: Value, v: MmsValue) {
    match v
    case MmsInteger(i) => value == Number(i)
    case MmsUnsigned(u) => value == Number(u)
    case MmsBoolean(b) => value == Flag(b)
    case MmsVisibleString(s) => value == Text(s)
    case MmsString(s) => value == Text(s)
    case MmsUtcTime(ms) => value.Text? && (ms <= MAX_MS ==> ReadsAs(value.s, ms))
    case MmsBitString(bits) => value.Text? && (bits != [] ==> SpellsBits(value.s, bits))
    case MmsFloat(f) => value == Real(f)
    case MmsUnsupported => false
  }

  // The parser of timestamps takes the text back to that instant.
  predicate ReadsAs(text: string, ms: nat) {
    var verdict := ZuluVerdict(text, ReadHead(text));
    Shape(text) && !verdict.Overrun? && Total(verdict) == ms
  }

  predicate SpellsBits(text: string, bits: seq<bool>)
    requires bits != []
  {
    && |text| == 2 * |bits| - 1
    && (forall i :: 0 <= i < |bits| ==> text[2 * i] == if bits[i] then '1' else '0')
    && forall i :: 0 <= i < |bits| - 1 ==> text[2 * i + 1] == ','
  }

  lemma ShownTells(v: MmsValue)
    ensures Shown(v).Some? <==> !v.MmsUnsupported?
    ensures !v.MmsUnsupported? ==> Tells(Shown(v).value, v)
  {
    match v {
      case MmsUtcTime(ms) =>
        if ms <= MAX_MS {
          PrintThenParse(ms);
          PrintShape(ms);
        }
      case MmsBitString(bits) =>
        if bits != [] {
          BitTextAt(bits);
        }
      case _ =>
    }
  }

  // What a report tells: on a discovered tree the value node of an included attribute gives the element back, unless
  // a later slot is for the same attribute.
  lemma ReportTellsAttribute(nodes: Nodes, after: Nodes, rcbNode: Path, attributes: seq<Path>, members: seq<string>,
                             slots: seq<Slot>, i: nat)
    requires InOrder(nodes) && rcbNode != [] && NamesAttributes(nodes, rcbNode, attributes, members)
    requires |slots| == |members| && Routed(nodes, after, rcbNode, members, slots, |slots|) && i < |slots|
    requires attributes[i] + ["Value"] in nodes && slots[i].included && !slots[i].element.MmsUnsupported?
    requires forall j :: i < j < |slots| && slots[j].included && !slots[j].element.MmsUnsupported? ==>
               attributes[j] != attributes[i]
    ensures var p := attributes[i] + ["Value"];
            p in after && after[p].kind == nodes[p].kind && Tells(after[p].value, slots[i].element)
  {
    forall j | i <= j < |slots|
      ensures Shown(slots[j].element).Some? <==> !slots[j].element.MmsUnsupported?
    {
      ShownTells(slots[j].element);
    }
    ShownTells(slots[i].element);
    ReportReachesAttribute(nodes, after, rcbNode, attributes, members, slots, i);
  }

  // A node for which no supported element is included stays as it is.
  lemma ReportLeavesOthers(nodes: Nodes, after: Nodes, rcbNode: Path, attributes: seq<Path>, members: seq<string>,
                           slots: seq<Slot>, p: Path)
    requires InOrder(nodes) && rcbNode != [] && NamesAttributes(nodes, rcbNode, attributes, members)
    requires |slots| == |members| && Routed(nodes, after, rcbNode, members, slots, |slots|) && p in nodes
    requires forall j :: 0 <= j < |slots| && slots[j].included && !slots[j].element.MmsUnsupported? ==>
               attributes[j] + ["Value"] != p
    ensures p in after && after[p] == nodes[p]
  {
    forall j | 0 <= j < |slots|
      ensures !Writes(attributes, slots, j, p)
    {
      ShownTells(slots[j].element);
    }
    ReportShowsAttributes(nodes, after, rcbNode, attributes, members, slots);
    assert LastWrite(attributes, slots, |slots|, p) == -1;
  }

  // The data set a control block has cached after it was picked for it, whatever went before.
  lemma PickIsCached(server: RcbMirror.Block, history: seq<RcbMirror.Event>, entry: string, written: bool, stored: bool,
                     reread: bool)
    ensures var action := RcbMirror.Set(RcbMirror.DatSet(entry), written, stored, reread);
            written || stored || !reread ==> RcbMirror.Run(server, history + [action]).cached.datSet == entry
  {
    var action := RcbMirror.Set(RcbMirror.DatSet(entry), written, stored, reread);
    assert (history + [action])[..|history|] == history;
  }

  // From picking to receiving: in every reachable state of the data sets and after any history of the control
  // block, once an entry is picked and neither refused nor read back as something else, a report is routed to the
  // members of the very data set the entry stands for, provided its reference has no dollar sign.
  lemma PickThenReport(es: seq<Event>, order: seq<string>, refs: seq<string>, i: nat, server: RcbMirror.Block,
                       history: seq<RcbMirror.Event>, written: bool, stored: bool, reread: bool,
                       nodes: Nodes, after: Nodes, rcbNode: Path, slots: seq<Slot>)
    requires Visits(order, Run(es).created.Keys) && |refs| == |order| && i < |order|
    requires forall k :: 0 <= k < |order| ==> refs[k] == Run(es).created[order[k]].objref
    requires '$' !in refs[i] && (written || stored || !reread)
    requires rcbNode != [] && ServerOf(rcbNode).Some?
    requires var pick := RcbMirror.DatSet(Choices.RcbEntries(refs)[i]);
             var rcb := RcbMirror.Run(server, history + [RcbMirror.Set(pick, written, stored, reread)]).cached;
             Received(nodes, after, Run(es).created, rcbNode, true, rcb.datSet, slots)
    ensures var members := Run(es).created[order[i]].members;
            |members| == |slots| && Routed(nodes, after, rcbNode, members, slots, |slots|)
  {
    Choices.PickForRcb(es, order, refs);
    PickIsCached(server, history, Choices.RcbEntries(refs)[i], written, stored, reread);
  }
}
