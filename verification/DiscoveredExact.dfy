// Exactly what discovery builds: the children of every discovered node, and what they hold.
module DiscoveredExact {
  import opened Wrappers
  import Strings
  import opened NodeTree
  import opened References
  import opened Discovery
  import opened DiscoveredTree
  import opened DiscoveredNames
  import opened ServerDiscovery

  // ---------------------------------------------------------------- what there is to be

  // A directory that makes its object controllable and lists what operates it.
  predicate Operable(ctl: bool, entries: seq<DataNode>) {
    ctl && exists i :: 0 <= i < |entries| && Base(entries[i].entry) == "Oper"
  }

  predicate Leaf(n: DataNode) {
    n.listed && n.sub == [] && n.hasSpec && FcOf(n.entry).Some?
  }

  predicate ControlKey(k: string) {
    k == "control" || k == "Object"
  }

  predicate OwnKey(n: DataNode, k: string) {
    if FcOf(n.entry).Some? then k == "FC" || k == "Type" || k == "Object" || k == "MMS Type" || k == "adddataset"
    else k == "Reference"
  }

  predicate Lists(entries: seq<DataNode>, k: string) {
    exists i :: 0 <= i < |entries| && Key(entries[i]) == k
  }

  // The children of a discovered node: its own, what controls it, its value, its directory.
  predicate IsChild(n: DataNode, k: string) {
    || OwnKey(n, k)
    || (n.listed && Operable(n.controllable, n.sub) && ControlKey(k))
    || (Leaf(n) && k == "Value")
    || (n.listed && Lists(n.sub, k))
  }

  predicate Spells(nodes: Nodes, p: Path, key: string, text: string) {
    p + [key] in nodes && nodes[p + [key]].value == Text(text)
  }

  predicate OwnValues(nodes: Nodes, q: Path, ref: string, n: DataNode) {
    if FcOf(n.entry).Some? then
      Spells(nodes, q, "FC", FcOf(n.entry).value) && Spells(nodes, q, "Object", ref)
      && Spells(nodes, q, "MMS Type", n.mmsType)
    else Spells(nodes, q, "Reference", ref)
  }

  // A value can be read, and written if its constraint allows that.
  ghost predicate Actions(nodes: Nodes, v: Path, fc: string) {
    forall k :: v + [k] in nodes <==> k == "readvalue" || (k == "writevalue" && fc in WRITABLE_FCS)
  }

  ghost predicate ExactChildren(nodes: Nodes, q: Path, n: DataNode) {
    forall k :: q + [k] in nodes <==> IsChild(n, k)
  }

  // A node as discovery has to leave it, with everything below it.
  ghost predicate ExactNode(nodes: Nodes, q: Path, ref: string, n: DataNode)
    decreases n, 0
  {
    && q in nodes && nodes[q].kind == (if FcOf(n.entry).Some? then DataAttribute else DataObject)
    && ExactChildren(nodes, q, n) && OwnValues(nodes, q, ref, n)
    && (n.listed && Operable(n.controllable, n.sub) ==> Spells(nodes, q, "Object", ref))
    && (Leaf(n) ==> Actions(nodes, q + ["Value"], FcOf(n.entry).value))
    && (n.listed ==> AllExact(nodes, q, ref, n.sub))
  }

  ghost predicate AllExact(nodes: Nodes, q: Path, ref: string, entries: seq<DataNode>)
    decreases entries, 1
  {
    forall i :: 0 <= i < |entries| ==>
      ExactNode(nodes, q + [Key(entries[i])], ref + "." + Base(entries[i].entry), entries[i])
  }

  // ---------------------------------------------------------------- what happens elsewhere does not matter

  ghost predicate Apart(a: Nodes, b: Nodes, q: Path) {
    Kept(a, b) && forall p :: p in b && p !in a ==> !(q <= p)
  }

  lemma ApartBelow(a: Nodes, b: Nodes, q: Path, k: string)
    requires Apart(a, b, q)
    ensures Apart(a, b, q + [k])
  {
    assert q <= q + [k];
  }

  lemma ChildrenKept(a: Nodes, b: Nodes, q: Path, n: DataNode)
    requires ExactChildren(a, q, n) && Apart(a, b, q)
    ensures ExactChildren(b, q, n)
  {
    forall k
      ensures q + [k] in b <==> q + [k] in a
    {
      assert q <= q + [k];
    }
  }

  lemma ActionsKept(a: Nodes, b: Nodes, v: Path, fc: string)
    requires Actions(a, v, fc) && Apart(a, b, v)
    ensures Actions(b, v, fc)
  {
    forall k
      ensures v + [k] in b <==> v + [k] in a
    {
      assert v <= v + [k];
    }
  }

  lemma {:induction false} ExactKept(a: Nodes, b: Nodes, q: Path, ref: string, n: DataNode)
    requires ExactNode(a, q, ref, n) && Apart(a, b, q)
    ensures ExactNode(b, q, ref, n)
    decreases n, 0
  {
    ChildrenKept(a, b, q, n);
    if Leaf(n) {
      ApartBelow(a, b, q, "Value");
      ActionsKept(a, b, q + ["Value"], FcOf(n.entry).value);
    }
    if n.listed {
      AllExactKept(a, b, q, ref, n.sub);
    }
  }

  lemma {:induction false} AllExactKept(a: Nodes, b: Nodes, q: Path, ref: string, entries: seq<DataNode>)
    requires AllExact(a, q, ref, entries) && Apart(a, b, q)
    ensures AllExact(b, q, ref, entries)
    decreases entries, 1
  {
    forall i | 0 <= i < |entries|
      ensures ExactNode(b, q + [Key(entries[i])], ref + "." + Base(entries[i].entry), entries[i])
    {
      ApartBelow(a, b, q, Key(entries[i]));
      ExactKept(a, b, q + [Key(entries[i])], ref + "." + Base(entries[i].entry), entries[i]);
    }
  }

  lemma ApartChain(a: Nodes, b: Nodes, c: Nodes, q: Path)
    requires Apart(a, b, q) && Apart(b, c, q)
    ensures Apart(a, c, q)
  {
  }

  // What starts with one child of p does not start with another.
  lemma OtherBranch(p: Path, key: string, k: string, q: Path)
    requires p + [key] <= q && k != key
    ensures !(p + [k] <= q)
  {
    assert q[|p|] == (p + [key])[|p|] == key;
    assert (p + [k])[|p|] == k;
  }

  lemma BranchApart(a: Nodes, b: Nodes, p: Path, key: string, k: string)
    requires Grown(a, b, p + [key]) && k != key
    ensures Apart(a, b, p + [k])
  {
    forall q | q in b && q !in a
      ensures !(p + [k] <= q)
    {
      OtherBranch(p, key, k, q);
    }
  }

  lemma WithNodeApart(nodes: Nodes, p: Path, ref: string, ctl: bool, n: DataNode, k: string)
    requires k != Key(n) && k !in HOUSE
    ensures Apart(nodes, WithNode(nodes, p, ref, ctl, n), p + [k])
  {
    WithNodeGrown(nodes, p, ref, ctl, n);
    forall q | q in WithNode(nodes, p, ref, ctl, n) && q !in nodes
      ensures !(p + [k] <= q)
    {
      WithNodeNew(nodes, p, ref, ctl, n, q);
      if p + [Key(n)] <= q {
        OtherBranch(p, Key(n), k, q);
      } else {
        var h :| h in HOUSE && (q == p + [h] || q == p + [Key(n)] + [h]);
        OtherBranch(p, h, k, q);
      }
    }
  }

  lemma GrowNodeApart(nodes: Nodes, p: Path, ref: string, ctl: bool, n: DataNode, k: string)
    requires k != Key(n) && k !in HOUSE
    ensures Apart(nodes, GrowNode(nodes, p, ref, ctl, n), p + [k])
  {
    var start := WithNode(nodes, p, ref, ctl, n);
    WithNodeApart(nodes, p, ref, ctl, n, k);
    GrowDirGrown(start, p + [Key(n)], ref + "." + Base(n.entry), n);
    BranchApart(start, GrowDir(start, p + [Key(n)], ref + "." + Base(n.entry), n), p, Key(n), k);
  }

  lemma {:induction false} GrowAllApart(nodes: Nodes, p: Path, ref: string, ctl: bool, entries: seq<DataNode>,
                                        k: string)
    requires k !in HOUSE && !Lists(entries, k)
    ensures Apart(nodes, GrowAll(nodes, p, ref, ctl, entries), p + [k])
    decreases |entries|
  {
    if entries != [] {
      var next := GrowNode(nodes, p, ref, ctl, entries[0]);
      GrowNodeApart(nodes, p, ref, ctl, entries[0], k);
      assert forall i :: 0 <= i < |entries[1..]| ==> entries[1..][i] == entries[i + 1];
      GrowAllApart(next, p, ref, ctl, entries[1..], k);
      ApartChain(nodes, next, GrowAll(nodes, p, ref, ctl, entries), p + [k]);
    }
  }

  // ---------------------------------------------------------------- one entry

  // What the control node needs is there with it.
  predicate ControlFits(nodes: Nodes, p: Path, ref: string) {
    && (p + ["control"] in nodes ==> p + ["Object"] in nodes)
    && (p + ["Object"] in nodes ==> nodes[p + ["Object"]].value == Text(ref))
  }

  function OwnNode(n: DataNode): Node {
    Node(if FcOf(n.entry).Some? then DataAttribute else DataObject, NoValue)
  }

  function OwnPairs(ref: string, n: DataNode): seq<(string, Node)> {
    if FcOf(n.entry).Some? then DaChildren(ref, FcOf(n.entry).value, n.mmsType) else DoChildren(ref)
  }

  lemma EntryPairs(nodes: Nodes, parent: Path, ref: string, n: DataNode)
    ensures WithEntry(nodes, parent, ref, n)
         == AddAll(Added(nodes, parent, Key(n), OwnNode(n)), parent + [Key(n)], OwnPairs(ref, n))
  {
  }

  lemma PairKeys(ref: string, n: DataNode, k: string)
    ensures OwnKey(n, k) <==> exists i :: 0 <= i < |OwnPairs(ref, n)| && OwnPairs(ref, n)[i].0 == k
  {
    var pairs := OwnPairs(ref, n);
    if FcOf(n.entry).Some? {
      assert pairs[0].0 == "FC" && pairs[1].0 == "Type" && pairs[2].0 == "Object" && pairs[3].0 == "MMS Type"
             && pairs[4].0 == "adddataset";
    } else {
      assert pairs[0].0 == "Reference";
    }
  }

  lemma PairsDiffer(ref: string, n: DataNode)
    ensures forall i, j :: 0 <= i < j < |OwnPairs(ref, n)| ==> OwnPairs(ref, n)[i].0 != OwnPairs(ref, n)[j].0
  {
    DaChildrenFacts(ref, if FcOf(n.entry).Some? then FcOf(n.entry).value else "", n.mmsType);
  }

  predicate HasPair(nodes: Nodes, q: Path, pair: (string, Node)) {
    q + [pair.0] in nodes && nodes[q + [pair.0]] == pair.1
  }

  lemma PairValues(nodes: Nodes, q: Path, ref: string, n: DataNode)
    requires forall i :: 0 <= i < |OwnPairs(ref, n)| ==> HasPair(nodes, q, OwnPairs(ref, n)[i])
    ensures OwnValues(nodes, q, ref, n)
  {
    var pairs := OwnPairs(ref, n);
    assert HasPair(nodes, q, pairs[0]);
    if FcOf(n.entry).Some? {
      assert HasPair(nodes, q, pairs[2]) && HasPair(nodes, q, pairs[3]);
    }
  }

  // A new entry has its own children and no others, and is one more child of its parent.
  lemma EntryExact(nodes: Nodes, parent: Path, ref: string, n: DataNode)
    requires Closed(nodes) && parent in nodes && parent + [Key(n)] !in nodes
    ensures var after, q := WithEntry(nodes, parent, ref, n), parent + [Key(n)];
            && Grown(nodes, after, parent) && q in after && after[q] == OwnNode(n) && OwnValues(after, q, ref, n)
            && (forall k :: q + [k] in after <==> OwnKey(n, k))
            && (forall k :: parent + [k] in after <==> parent + [k] in nodes || k == Key(n))
  {
    var after, q, pairs := WithEntry(nodes, parent, ref, n), parent + [Key(n)], OwnPairs(ref, n);
    EntryPairs(nodes, parent, ref, n);
    PairsDiffer(ref, n);
    NewEntry(nodes, parent, Key(n), OwnNode(n), pairs);
    forall i | 0 <= i < |pairs|
      ensures HasPair(after, q, pairs[i])
    {
    }
    PairValues(after, q, ref, n);
    forall k
      ensures q + [k] in after <==> OwnKey(n, k)
    {
      EntryChild(nodes, after, q, ref, n, k);
    }
    forall k
      ensures parent + [k] in after <==> parent + [k] in nodes || k == Key(n)
    {
      EntrySibling(nodes, after, parent, Key(n), pairs, k);
    }
  }

  // Only the new node and its listed children are new.
  ghost predicate OnlyPairs(nodes: Nodes, after: Nodes, q: Path, pairs: seq<(string, Node)>) {
    forall p :: p in after && p !in nodes && p != q ==> exists i :: 0 <= i < |pairs| && p == q + [pairs[i].0]
  }

  lemma EntryChild(nodes: Nodes, after: Nodes, q: Path, ref: string, n: DataNode, k: string)
    requires Closed(nodes) && q !in nodes && OnlyPairs(nodes, after, q, OwnPairs(ref, n))
    requires forall i :: 0 <= i < |OwnPairs(ref, n)| ==> HasPair(after, q, OwnPairs(ref, n)[i])
    ensures q + [k] in after <==> OwnKey(n, k)
  {
    var pairs := OwnPairs(ref, n);
    PairKeys(ref, n, k);
    if q + [k] in after {
      NoChildren(nodes, q);
      assert |q + [k]| != |q|;
      var i :| 0 <= i < |pairs| && q + [k] == q + [pairs[i].0];
      SameChild(q, k, q, pairs[i].0);
    }
    if OwnKey(n, k) {
      var i :| 0 <= i < |pairs| && pairs[i].0 == k;
      assert HasPair(after, q, pairs[i]);
    }
  }

  lemma EntrySibling(nodes: Nodes, after: Nodes, parent: Path, key: string, pairs: seq<(string, Node)>, k: string)
    requires OnlyPairs(nodes, after, parent + [key], pairs) && Kept(nodes, after) && parent + [key] in after
    ensures parent + [k] in after <==> parent + [k] in nodes || k == key
  {
    assert forall i :: 0 <= i < |pairs| ==> |parent + [k]| != |parent + [key] + [pairs[i].0]|;
    if parent + [k] in after && parent + [k] !in nodes {
      SameChild(parent, k, parent, key);
    }
  }

  // The control node comes with the reference it needs.
  lemma ControlExact(nodes: Nodes, p: Path, ref: string)
    requires p in nodes && ControlFits(nodes, p, ref)
    ensures var after := WithControl(nodes, p, ref);
            && Grown(nodes, after, p) && ControlFits(after, p, ref)
            && forall q :: q in after <==> q in nodes || q == p + ["control"] || q == p + ["Object"]
  {
    var control, reference := ("control", Housekeep(NoValue)), ("Object", Housekeep(Text(ref)));
    var next := Added(nodes, p, control.0, control.1);
    AddAllGrown(nodes, p, [control, reference]);
    if p + ["control"] !in nodes {
      assert [control, reference][1..] == [reference];
      OnePair(next, p, reference);
      assert (p + ["control"])[|p|] != (p + ["Object"])[|p|];
    }
  }

  lemma OnePair(nodes: Nodes, p: Path, pair: (string, Node))
    ensures AddAll(nodes, p, [pair]) == Added(nodes, p, pair.0, pair.1)
  {
    assert [pair][1..] == [];
  }

  // An entry of a directory with this key adds this child.
  predicate Adds(ctl: bool, n: DataNode, k: string) {
    k == Key(n) || (ctl && Base(n.entry) == "Oper" && ControlKey(k))
  }

  // A new node before its directory is read: its own children, and the control node its parent may have got.
  ghost predicate FreshNode(nodes: Nodes, q: Path, ref: string, n: DataNode) {
    && q in nodes && nodes[q] == OwnNode(n) && OwnValues(nodes, q, ref, n)
    && forall k :: q + [k] in nodes <==> OwnKey(n, k)
  }

  ghost predicate Gained(nodes: Nodes, after: Nodes, parent: Path, ctl: bool, n: DataNode) {
    forall k :: parent + [k] in after <==> parent + [k] in nodes || Adds(ctl, n, k)
  }

  lemma WithNodeExact(nodes: Nodes, parent: Path, parentRef: string, ctl: bool, n: DataNode)
    requires Closed(nodes) && parent in nodes && parent + [Key(n)] !in nodes && Key(n) !in HOUSE
    requires ControlFits(nodes, parent, parentRef)
    ensures var start := WithNode(nodes, parent, parentRef, ctl, n);
            && FreshNode(start, parent + [Key(n)], parentRef + "." + Base(n.entry), n)
            && Gained(nodes, start, parent, ctl, n) && ControlFits(start, parent, parentRef)
  {
    var ref := parentRef + "." + Base(n.entry);
    var entry := WithEntry(nodes, parent, ref, n);
    EntryExact(nodes, parent, ref, n);
    HouseNames();
    assert ControlFits(entry, parent, parentRef);
    if Base(n.entry) == "Oper" && ctl {
      ControlExact(entry, parent, parentRef);
      StillFresh(entry, WithControl(entry, parent, parentRef), parent, Key(n), ref, n);
      ControlGained(nodes, entry, WithControl(entry, parent, parentRef), parent, n);
    }
  }

  lemma HouseNames()
    ensures "control" in HOUSE && "Object" in HOUSE
  {
  }

  ghost predicate OnlyControl(a: Nodes, b: Nodes, p: Path) {
    Kept(a, b) && forall q :: q in b <==> q in a || q == p + ["control"] || q == p + ["Object"]
  }

  lemma StillFresh(a: Nodes, b: Nodes, parent: Path, key: string, ref: string, n: DataNode)
    requires FreshNode(a, parent + [key], ref, n) && OnlyControl(a, b, parent)
    ensures FreshNode(b, parent + [key], ref, n)
  {
    var q := parent + [key];
    forall k
      ensures q + [k] in b <==> OwnKey(n, k)
    {
      assert |q + [k]| != |parent + ["control"]| && |q + [k]| != |parent + ["Object"]|;
    }
  }

  lemma ControlGained(nodes: Nodes, a: Nodes, b: Nodes, parent: Path, n: DataNode)
    requires forall k :: parent + [k] in a <==> parent + [k] in nodes || k == Key(n)
    requires OnlyControl(a, b, parent) && Base(n.entry) == "Oper"
    ensures Gained(nodes, b, parent, true, n)
  {
    forall k
      ensures parent + [k] in b <==> parent + [k] in nodes || Adds(true, n, k)
    {
      SameChildIff(parent, k, "control");
      SameChildIff(parent, k, "Object");
    }
  }

  lemma SameChildIff(p: Path, k: string, j: string)
    ensures p + [k] == p + [j] <==> k == j
  {
    if p + [k] == p + [j] {
      SameChild(p, k, p, j);
    }
  }

  function ValuePairs(write: bool): seq<(string, Node)> {
    if write then [("readvalue", Housekeep(NoValue)), ("writevalue", Housekeep(NoValue))]
    else [("readvalue", Housekeep(NoValue))]
  }

  lemma ValueKeys(write: bool, k: string)
    ensures var pairs := ValuePairs(write);
            && ((exists i :: 0 <= i < |pairs| && pairs[i].0 == k) <==> k == "readvalue" || (k == "writevalue" && write))
            && forall i, j :: 0 <= i < j < |pairs| ==> pairs[i].0 != pairs[j].0
  {
    var pairs := ValuePairs(write);
    assert pairs[0].0 == "readvalue" && (write ==> pairs[1].0 == "writevalue");
  }

  // A value node has its actions and nothing else.
  lemma ValueExact(nodes: Nodes, q: Path, fc: string)
    requires Closed(nodes) && q in nodes && q + ["Value"] !in nodes
    ensures var after := WithValue(nodes, q, fc);
            && Kept(nodes, after) && Actions(after, q + ["Value"], fc)
            && forall k :: q + [k] in after <==> q + [k] in nodes || k == "Value"
  {
    var key, pairs, after := "Value", ValuePairs(fc in WRITABLE_FCS), WithValue(nodes, q, fc);
    ValueKeys(fc in WRITABLE_FCS, key);
    NewEntry(nodes, q, key, Housekeep(NoValue), pairs);
    forall k
      ensures q + [key] + [k] in after <==> k == "readvalue" || (k == "writevalue" && fc in WRITABLE_FCS)
      ensures q + [k] in after <==> q + [k] in nodes || k == key
    {
      ValueKeys(fc in WRITABLE_FCS, k);
      ValueChild(nodes, after, q + [key], pairs, k);
      EntrySibling(nodes, after, q, key, pairs, k);
    }
  }

  lemma ValueChild(nodes: Nodes, after: Nodes, v: Path, pairs: seq<(string, Node)>, k: string)
    requires Closed(nodes) && v !in nodes && OnlyPairs(nodes, after, v, pairs)
    requires forall i :: 0 <= i < |pairs| ==> v + [pairs[i].0] in after
    ensures v + [k] in after <==> exists i :: 0 <= i < |pairs| && pairs[i].0 == k
  {
    NoChildren(nodes, v);
    assert |v + [k]| != |v|;
    if v + [k] in after {
      var i :| 0 <= i < |pairs| && v + [k] == v + [pairs[i].0];
      SameChild(v, k, v, pairs[i].0);
    }
  }

  // ---------------------------------------------------------------- whole directories

  lemma LeafAttribute(nodes: Nodes, q: Path, ref: string, n: DataNode)
    requires FreshNode(nodes, q, ref, n)
    ensures IsLeafAttribute(nodes, q) <==> FcOf(n.entry).Some?
    ensures FcOf(n.entry).Some? ==> nodes[q + ["FC"]].value == Text(FcOf(n.entry).value)
  {
    assert FcOf(n.entry).None? ==> !OwnKey(n, "FC");
  }

  lemma ValueIsNew(nodes: Nodes, q: Path, ref: string, n: DataNode)
    requires FreshNode(nodes, q, ref, n)
    ensures q + ["Value"] !in nodes
  {
    assert !OwnKey(n, "Value");
  }

  lemma LeafExact(nodes: Nodes, q: Path, ref: string, n: DataNode)
    requires Closed(nodes) && FreshNode(nodes, q, ref, n) && Leaf(n)
    ensures ExactNode(WithValue(nodes, q, FcOf(n.entry).value), q, ref, n)
  {
    var after := WithValue(nodes, q, FcOf(n.entry).value);
    ValueIsNew(nodes, q, ref, n);
    ValueExact(nodes, q, FcOf(n.entry).value);
    OwnValuesKept(nodes, after, q, ref, n);
    LeafChildren(nodes, after, q, ref, n);
    assert AllExact(after, q, ref, n.sub);
  }

  lemma LeafChildren(nodes: Nodes, after: Nodes, q: Path, ref: string, n: DataNode)
    requires FreshNode(nodes, q, ref, n) && Leaf(n)
    requires forall k :: q + [k] in after <==> q + [k] in nodes || k == "Value"
    ensures ExactChildren(after, q, n)
  {
    forall k
      ensures q + [k] in after <==> IsChild(n, k)
    {
      LeafChild(n, k);
    }
  }

  lemma OwnValuesKept(a: Nodes, b: Nodes, q: Path, ref: string, n: DataNode)
    requires OwnValues(a, q, ref, n) && Kept(a, b)
    ensures OwnValues(b, q, ref, n)
  {
  }

  lemma LeafChild(n: DataNode, k: string)
    requires Leaf(n)
    ensures IsChild(n, k) <==> OwnKey(n, k) || k == "Value"
  {
  }

  lemma BareExact(nodes: Nodes, q: Path, ref: string, n: DataNode)
    requires FreshNode(nodes, q, ref, n) && !Leaf(n) && (n.listed ==> n.sub == [])
    ensures ExactNode(nodes, q, ref, n)
  {
  }

  lemma ControlFitsFresh(nodes: Nodes, q: Path, ref: string, n: DataNode)
    requires FreshNode(nodes, q, ref, n)
    ensures ControlFits(nodes, q, ref)
  {
    assert !OwnKey(n, "control");
  }

  ghost predicate AllGained(nodes: Nodes, after: Nodes, p: Path, ctl: bool, entries: seq<DataNode>) {
    forall k :: p + [k] in after <==>
      p + [k] in nodes || Lists(entries, k) || (Operable(ctl, entries) && ControlKey(k))
  }

  // A listed directory with entries.
  lemma FullExact(nodes: Nodes, after: Nodes, q: Path, ref: string, n: DataNode)
    requires FreshNode(nodes, q, ref, n) && n.listed && n.sub != [] && Kept(nodes, after)
    requires AllExact(after, q, ref, n.sub) && AllGained(nodes, after, q, n.controllable, n.sub)
    requires ControlFits(after, q, ref)
    ensures ExactNode(after, q, ref, n)
  {
    OwnValuesKept(nodes, after, q, ref, n);
    FullChildren(nodes, after, q, ref, n);
    if Operable(n.controllable, n.sub) {
      ObjectGained(nodes, after, q, ref, n.sub);
    }
  }

  lemma ObjectGained(nodes: Nodes, after: Nodes, q: Path, ref: string, entries: seq<DataNode>)
    requires AllGained(nodes, after, q, true, entries) && Operable(true, entries) && ControlFits(after, q, ref)
    ensures Spells(after, q, "Object", ref)
  {
    assert ControlKey("Object");
  }

  lemma FullChildren(nodes: Nodes, after: Nodes, q: Path, ref: string, n: DataNode)
    requires FreshNode(nodes, q, ref, n) && n.listed && n.sub != []
    requires AllGained(nodes, after, q, n.controllable, n.sub)
    ensures ExactChildren(after, q, n)
  {
  }

  lemma {:induction false} GrowDirExact(nodes: Nodes, q: Path, ref: string, n: DataNode)
    requires Closed(nodes) && FreshNode(nodes, q, ref, n) && WellNamed(n.sub) && Coherent(n)
    requires forall i :: 0 <= i < |n.sub| ==> Room(nodes, q, n.sub[i])
    ensures ExactNode(GrowDir(nodes, q, ref, n), q, ref, n)
    decreases n, 0
  {
    LeafAttribute(nodes, q, ref, n);
    if n.listed && n.sub != [] {
      ControlFitsFresh(nodes, q, ref, n);
      GrowAllExact(nodes, q, ref, n.controllable, n.sub);
      GrowAllGrown(nodes, q, ref, n.controllable, n.sub);
      FullExact(nodes, GrowAll(nodes, q, ref, n.controllable, n.sub), q, ref, n);
    } else if Leaf(n) {
      LeafExact(nodes, q, ref, n);
    } else {
      BareExact(nodes, q, ref, n);
    }
  }

  // Growth strictly below a child leaves the children of its parent as they were.
  lemma SameChildren(a: Nodes, b: Nodes, p: Path, key: string)
    requires Grown(a, b, p + [key])
    ensures forall k :: p + [k] in b <==> p + [k] in a
  {
    forall k
      ensures p + [k] in b <==> p + [k] in a
    {
      assert |p + [k]| == |p + [key]|;
    }
  }

  lemma KeyIsNoHouse(n: DataNode)
    requires Coherent(n) && Base(n.entry) !in HOUSE
    ensures Key(n) !in HOUSE
  {
    KeyFacts(n);
    if Key(n) in HOUSE {
      HouseIsPlain(Key(n));
    }
  }

  lemma {:induction false} GrowNodeExact(nodes: Nodes, parent: Path, parentRef: string, ctl: bool, n: DataNode)
    requires Closed(nodes) && parent in nodes && Room(nodes, parent, n) && ControlFits(nodes, parent, parentRef)
    requires Coherent(n) && Base(n.entry) !in HOUSE && WellNamed(n.sub)
    ensures var after := GrowNode(nodes, parent, parentRef, ctl, n);
            && ExactNode(after, parent + [Key(n)], parentRef + "." + Base(n.entry), n)
            && Gained(nodes, after, parent, ctl, n) && ControlFits(after, parent, parentRef)
    decreases n, 1
  {
    var q, ref, start := parent + [Key(n)], parentRef + "." + Base(n.entry), WithNode(nodes, parent, parentRef, ctl, n);
    KeyIsNoHouse(n);
    WithNodeExact(nodes, parent, parentRef, ctl, n);
    WithNodeGrown(nodes, parent, parentRef, ctl, n);
    SubsHaveRoom(nodes, parent, parentRef, ctl, n);
    GrowDirExact(start, q, ref, n);
    GrowDirGrown(start, q, ref, n);
    SameChildren(start, GrowDir(start, q, ref, n), parent, Key(n));
  }

  lemma SubsHaveRoom(nodes: Nodes, parent: Path, parentRef: string, ctl: bool, n: DataNode)
    requires Closed(nodes) && parent + [Key(n)] !in nodes && Coherent(n) && WellNamed(n.sub)
    ensures forall i :: 0 <= i < |n.sub| ==>
              Room(WithNode(nodes, parent, parentRef, ctl, n), parent + [Key(n)], n.sub[i])
  {
    forall i | 0 <= i < |n.sub|
      ensures Room(WithNode(nodes, parent, parentRef, ctl, n), parent + [Key(n)], n.sub[i])
    {
      FreshChildren(nodes, parent, parentRef, ctl, n, n.sub[i]);
    }
  }

  lemma ListsCons(entries: seq<DataNode>, k: string)
    requires entries != []
    ensures Lists(entries, k) <==> k == Key(entries[0]) || Lists(entries[1..], k)
  {
    assert forall i :: 0 < i < |entries| ==> entries[i] == entries[1..][i - 1];
  }

  lemma OperableCons(ctl: bool, entries: seq<DataNode>)
    requires entries != []
    ensures Operable(ctl, entries) <==> (ctl && Base(entries[0].entry) == "Oper") || Operable(ctl, entries[1..])
  {
    assert forall i :: 0 < i < |entries| ==> entries[i] == entries[1..][i - 1];
  }

  lemma GainedCons(nodes: Nodes, next: Nodes, after: Nodes, p: Path, ctl: bool, entries: seq<DataNode>)
    requires entries != [] && Gained(nodes, next, p, ctl, entries[0]) && AllGained(next, after, p, ctl, entries[1..])
    ensures AllGained(nodes, after, p, ctl, entries)
  {
    OperableCons(ctl, entries);
    forall k
      ensures p + [k] in after <==>
                p + [k] in nodes || Lists(entries, k) || (Operable(ctl, entries) && ControlKey(k))
    {
      ListsCons(entries, k);
      assert Adds(ctl, entries[0], k) <==>
             k == Key(entries[0]) || (ctl && Base(entries[0].entry) == "Oper" && ControlKey(k));
    }
  }

  lemma AllExactCons(nodes: Nodes, p: Path, ref: string, entries: seq<DataNode>)
    requires entries != [] && AllExact(nodes, p, ref, entries[1..])
    requires ExactNode(nodes, p + [Key(entries[0])], ref + "." + Base(entries[0].entry), entries[0])
    ensures AllExact(nodes, p, ref, entries)
  {
    forall i | 0 <= i < |entries|
      ensures ExactNode(nodes, p + [Key(entries[i])], ref + "." + Base(entries[i].entry), entries[i])
    {
      assert i > 0 ==> entries[i] == entries[1..][i - 1];
    }
  }

  lemma FirstKeyOnce(entries: seq<DataNode>)
    requires entries != [] && WellNamed(entries) && Coherent(entries[0])
    ensures Key(entries[0]) !in HOUSE && !Lists(entries[1..], Key(entries[0]))
  {
    KeyIsNoHouse(entries[0]);
    assert forall i :: 0 <= i < |entries[1..]| ==> entries[1..][i] == entries[i + 1];
  }

  // What a directory is turned into: each entry as it has to be, and nothing beside them but what they call for.
  lemma {:induction false} GrowAllExact(nodes: Nodes, p: Path, ref: string, ctl: bool, entries: seq<DataNode>)
    requires Closed(nodes) && p in nodes && WellNamed(entries) && ControlFits(nodes, p, ref)
    requires forall i :: 0 <= i < |entries| ==> Coherent(entries[i]) && Room(nodes, p, entries[i])
    ensures var after := GrowAll(nodes, p, ref, ctl, entries);
            AllExact(after, p, ref, entries) && AllGained(nodes, after, p, ctl, entries) && ControlFits(after, p, ref)
    decreases entries, 2
  {
    if entries != [] {
      var n, rest := entries[0], entries[1..];
      var next := GrowNode(nodes, p, ref, ctl, n);
      var last := GrowAll(next, p, ref, ctl, rest);
      GrowNodeExact(nodes, p, ref, ctl, n);
      GrowNodeGrown(nodes, p, ref, ctl, n);
      RoomForRest(nodes, p, ref, ctl, entries);
      WellNamedTail(entries);
      GrowAllExact(next, p, ref, ctl, rest);
      FirstKeyOnce(entries);
      GrowAllApart(next, p, ref, ctl, rest, Key(n));
      ExactKept(next, last, p + [Key(n)], ref + "." + Base(n.entry), n);
      AllExactCons(last, p, ref, entries);
      GainedCons(nodes, next, last, p, ctl, entries);
    }
  }

  // ---------------------------------------------------------------- logical nodes

  ghost predicate LnChildrenExact(nodes: Nodes, p: Path, objects: seq<DataNode>) {
    forall k :: p + [k] in nodes <==> k == "Reference" || k == "prepdataset" || Lists(objects, k)
  }

  ghost predicate ExactLn(nodes: Nodes, ld: Path, ldName: string, ln: LogicalNode) {
    var p, ref := ld + [ln.name], ldName + "/" + ln.name;
    && p in nodes && nodes[p].kind == Container && LnChildrenExact(nodes, p, ln.objects)
    && Spells(nodes, p, "Reference", ref) && AllExact(nodes, p, ref, ln.objects)
  }

  lemma ExactLnKept(a: Nodes, b: Nodes, ld: Path, ldName: string, ln: LogicalNode)
    requires ExactLn(a, ld, ldName, ln) && Apart(a, b, ld + [ln.name])
    ensures ExactLn(b, ld, ldName, ln)
  {
    var p := ld + [ln.name];
    AllExactKept(a, b, p, ldName + "/" + ln.name, ln.objects);
    forall k
      ensures p + [k] in b <==> p + [k] in a
    {
      assert p <= p + [k];
    }
  }

  // A new logical node before its data objects: its two children.
  ghost predicate FreshLn(nodes: Nodes, p: Path, ref: string) {
    && p in nodes && nodes[p].kind == Container && Spells(nodes, p, "Reference", ref)
    && forall k :: p + [k] in nodes <==> k == "Reference" || k == "prepdataset"
  }

  lemma LnStartExact(nodes: Nodes, ld: Path, name: string, ref: string)
    requires Closed(nodes) && ld in nodes && ld + [name] !in nodes
    ensures var p := ld + [name];
            var house := AddAll(Added(nodes, ld, name, Node(Container, NoValue)), p, LnChildren(ref));
            Grown(nodes, house, ld) && FreshLn(house, p, ref)
  {
    var p, pairs := ld + [name], LnChildren(ref);
    var start := Added(nodes, ld, name, Node(Container, NoValue));
    assert pairs[0].0 == "Reference" && pairs[1].0 == "prepdataset";
    NewEntry(nodes, ld, name, Node(Container, NoValue), pairs);
    EmptyChild(nodes, ld, name);
    LnKeysOnly(start, p, ref);
    assert p + [pairs[0].0] in AddAll(start, p, pairs) && p + [pairs[1].0] in AddAll(start, p, pairs);
  }

  lemma GrowLnExact(nodes: Nodes, ld: Path, ldName: string, ln: LogicalNode)
    requires Closed(nodes) && ld in nodes && ld + [ln.name] !in nodes && LnOk(ln)
    ensures ExactLn(GrowLn(nodes, ld, ldName, ln), ld, ldName, ln)
  {
    var p, ref := ld + [ln.name], ldName + "/" + ln.name;
    var house := AddAll(Added(nodes, ld, ln.name, Node(Container, NoValue)), p, LnChildren(ref));
    LnStartExact(nodes, ld, ln.name, ref);
    RoomForObjects(nodes, ld, ln, ref);
    ObjectsExact(house, p, ref, ln.objects);
  }

  lemma RoomForObjects(nodes: Nodes, ld: Path, ln: LogicalNode, ref: string)
    requires Closed(nodes) && ld + [ln.name] !in nodes && LnOk(ln)
    ensures var p := ld + [ln.name];
            var house := AddAll(Added(nodes, ld, ln.name, Node(Container, NoValue)), p, LnChildren(ref));
            forall i :: 0 <= i < |ln.objects| ==> Room(house, p, ln.objects[i])
  {
    var p := ld + [ln.name];
    forall i | 0 <= i < |ln.objects|
      ensures Room(AddAll(Added(nodes, ld, ln.name, Node(Container, NoValue)), p, LnChildren(ref)), p, ln.objects[i])
    {
      LnRoom(nodes, ld, ln, ref, ln.objects[i]);
    }
  }

  // The data objects of a logical node that has its two children.
  lemma ObjectsExact(house: Nodes, p: Path, ref: string, objects: seq<DataNode>)
    requires Closed(house) && FreshLn(house, p, ref) && WellNamed(objects)
    requires forall i :: 0 <= i < |objects| ==> Coherent(objects[i]) && Room(house, p, objects[i])
    ensures var after := GrowAll(house, p, ref, false, objects);
            && p in after && after[p] == house[p] && LnChildrenExact(after, p, objects)
            && Spells(after, p, "Reference", ref) && AllExact(after, p, ref, objects)
  {
    FreshLnFits(house, p, ref);
    GrowAllExact(house, p, ref, false, objects);
    GrowAllGrown(house, p, ref, false, objects);
    LnGained(house, GrowAll(house, p, ref, false, objects), p, ref, objects);
  }

  lemma FreshLnFits(house: Nodes, p: Path, ref: string)
    requires FreshLn(house, p, ref)
    ensures ControlFits(house, p, ref)
  {
  }

  lemma LnGained(house: Nodes, after: Nodes, p: Path, ref: string, objects: seq<DataNode>)
    requires FreshLn(house, p, ref) && AllGained(house, after, p, false, objects) && Kept(house, after)
    ensures LnChildrenExact(after, p, objects) && Spells(after, p, "Reference", ref)
  {
  }

  // What is new starts at one path.
  ghost predicate NewAt(a: Nodes, b: Nodes, at: Path) {
    Kept(a, b) && forall p :: p in b && p !in a ==> at <= p
  }

  lemma NewAtApart(a: Nodes, b: Nodes, p: Path, key: string, k: string)
    requires NewAt(a, b, p + [key]) && k != key
    ensures Apart(a, b, p + [k])
  {
    forall q | q in b && q !in a
      ensures !(p + [k] <= q)
    {
      OtherBranch(p, key, k, q);
    }
  }

  lemma GrowLnAt(nodes: Nodes, ld: Path, ldName: string, ln: LogicalNode)
    ensures NewAt(nodes, GrowLn(nodes, ld, ldName, ln), ld + [ln.name])
  {
    var p, ref := ld + [ln.name], ldName + "/" + ln.name;
    var start := Added(nodes, ld, ln.name, Node(Container, NoValue));
    AddAllGrown(start, p, LnChildren(ref));
    GrowAllGrown(AddAll(start, p, LnChildren(ref)), p, ref, false, ln.objects);
    GrownChain(start, AddAll(start, p, LnChildren(ref)), GrowLn(nodes, ld, ldName, ln), p);
    AddedAt(nodes, start, GrowLn(nodes, ld, ldName, ln), ld, ln.name);
  }

  lemma AddedAt(nodes: Nodes, start: Nodes, after: Nodes, at: Path, key: string)
    requires start == Added(nodes, at, key, Node(Container, NoValue)) && Grown(start, after, at + [key])
    ensures NewAt(nodes, after, at + [key])
  {
  }

  predicate NamesLn(lns: seq<LogicalNode>, k: string) {
    exists i :: 0 <= i < |lns| && lns[i].name == k
  }

  lemma NamesLnCons(lns: seq<LogicalNode>, k: string)
    requires lns != []
    ensures NamesLn(lns, k) <==> k == lns[0].name || NamesLn(lns[1..], k)
  {
    assert forall i :: 0 < i < |lns| ==> lns[i] == lns[1..][i - 1];
  }

  lemma {:induction false} GrowLnsApart(nodes: Nodes, ld: Path, ldName: string, lns: seq<LogicalNode>, k: string)
    requires !NamesLn(lns, k)
    ensures Apart(nodes, GrowLns(nodes, ld, ldName, lns), ld + [k])
    decreases |lns|
  {
    if lns != [] {
      var next := GrowLn(nodes, ld, ldName, lns[0]);
      NamesLnCons(lns, k);
      GrowLnAt(nodes, ld, ldName, lns[0]);
      NewAtApart(nodes, next, ld, lns[0].name, k);
      GrowLnsApart(next, ld, ldName, lns[1..], k);
      ApartChain(nodes, next, GrowLns(nodes, ld, ldName, lns), ld + [k]);
    }
  }

  ghost predicate AllLnExact(nodes: Nodes, ld: Path, ldName: string, lns: seq<LogicalNode>) {
    forall i :: 0 <= i < |lns| ==> ExactLn(nodes, ld, ldName, lns[i])
  }

  lemma AllLnExactCons(nodes: Nodes, ld: Path, ldName: string, lns: seq<LogicalNode>)
    requires lns != [] && ExactLn(nodes, ld, ldName, lns[0]) && AllLnExact(nodes, ld, ldName, lns[1..])
    ensures AllLnExact(nodes, ld, ldName, lns)
  {
    assert forall i :: 0 < i < |lns| ==> lns[i] == lns[1..][i - 1];
  }

  lemma FirstNameOnce(lns: seq<LogicalNode>)
    requires lns != [] && DistinctNodes(lns)
    ensures !NamesLn(lns[1..], lns[0].name)
  {
    assert forall i :: 0 <= i < |lns[1..]| ==> lns[1..][i] == lns[i + 1];
  }

  lemma NextReady(nodes: Nodes, ld: Path, ldName: string, lns: seq<LogicalNode>)
    requires lns != [] && ld in nodes && LnsReady(nodes, ld, lns)
    ensures LnsReady(GrowLn(nodes, ld, ldName, lns[0]), ld, lns[1..])
  {
    var next := GrowLn(nodes, ld, ldName, lns[0]);
    forall k | ld + [k] in next && ld + [k] !in nodes
      ensures k == lns[0].name
    {
      NodeChild(nodes, ld, ldName, lns[0], k);
    }
    LnsReadyTail(nodes, next, ld, lns);
  }

  lemma {:induction false} GrowLnsExact(nodes: Nodes, ld: Path, ldName: string, lns: seq<LogicalNode>)
    requires Closed(nodes) && ld in nodes && LnsReady(nodes, ld, lns)
    ensures var after := GrowLns(nodes, ld, ldName, lns);
            && AllLnExact(after, ld, ldName, lns)
            && forall k :: ld + [k] in after <==> ld + [k] in nodes || NamesLn(lns, k)
    decreases |lns|
  {
    if lns != [] {
      var ln, rest := lns[0], lns[1..];
      var next, last := GrowLn(nodes, ld, ldName, ln), GrowLns(nodes, ld, ldName, lns);
      GrowLnExact(nodes, ld, ldName, ln);
      GrowLnGrown(nodes, ld, ldName, ln);
      NextReady(nodes, ld, ldName, lns);
      GrowLnsExact(next, ld, ldName, rest);
      FirstNameOnce(lns);
      GrowLnsApart(next, ld, ldName, rest, ln.name);
      ExactLnKept(next, last, ld, ldName, ln);
      AllLnExactCons(last, ld, ldName, lns);
      forall k
        ensures ld + [k] in last <==> ld + [k] in nodes || NamesLn(lns, k)
      {
        NamesLnCons(lns, k);
        NodeChild(nodes, ld, ldName, ln, k);
      }
    }
  }

  // ---------------------------------------------------------------- devices

  ghost predicate ExactLd(nodes: Nodes, server: Path, ld: LogicalDevice) {
    var p := server + [LD_KEY_INIT + ld.name];
    && p in nodes && nodes[p].kind == Container && AllLnExact(nodes, p, ld.name, ld.logicalNodes)
    && forall k :: p + [k] in nodes <==> NamesLn(ld.logicalNodes, k)
  }

  lemma ExactLdKept(a: Nodes, b: Nodes, server: Path, ld: LogicalDevice)
    requires ExactLd(a, server, ld) && Apart(a, b, server + [LD_KEY_INIT + ld.name])
    ensures ExactLd(b, server, ld)
  {
    var p := server + [LD_KEY_INIT + ld.name];
    forall i | 0 <= i < |ld.logicalNodes|
      ensures ExactLn(b, p, ld.name, ld.logicalNodes[i])
    {
      ApartBelow(a, b, p, ld.logicalNodes[i].name);
      ExactLnKept(a, b, p, ld.name, ld.logicalNodes[i]);
    }
    forall k
      ensures p + [k] in b <==> p + [k] in a
    {
      assert p <= p + [k];
    }
  }

  lemma GrowLdExact(nodes: Nodes, server: Path, ld: LogicalDevice)
    requires Closed(nodes) && server in nodes && server + [LD_KEY_INIT + ld.name] !in nodes
    requires LdOk(ld) && DistinctNodes(ld.logicalNodes)
    ensures ExactLd(GrowLd(nodes, server, ld), server, ld)
  {
    var key := LD_KEY_INIT + ld.name;
    var start, p := Added(nodes, server, key, Node(Container, NoValue)), server + [key];
    AddedFacts(nodes, server, key, Node(Container, NoValue));
    EmptyChild(nodes, server, key);
    AllReady(start, p, ld.logicalNodes);
    GrowLnsExact(start, p, ld.name, ld.logicalNodes);
    GrowLnsGrown(start, p, ld.name, ld.logicalNodes);
  }

  lemma GrowLdAt(nodes: Nodes, server: Path, ld: LogicalDevice)
    ensures NewAt(nodes, GrowLd(nodes, server, ld), server + [LD_KEY_INIT + ld.name])
  {
    var key := LD_KEY_INIT + ld.name;
    var start := Added(nodes, server, key, Node(Container, NoValue));
    GrowLnsGrown(start, server + [key], ld.name, ld.logicalNodes);
    AddedAt(nodes, start, GrowLd(nodes, server, ld), server, key);
  }

  lemma {:induction false} GrowLdsApart(nodes: Nodes, server: Path, lds: seq<LogicalDevice>, name: string)
    requires forall i :: 0 <= i < |lds| ==> lds[i].name != name
    ensures Apart(nodes, GrowLds(nodes, server, lds), server + [LD_KEY_INIT + name])
    decreases |lds|
  {
    if lds != [] {
      var next, k := GrowLd(nodes, server, lds[0]), LD_KEY_INIT + name;
      GrowLdAt(nodes, server, lds[0]);
      SuffixDiffers(LD_KEY_INIT, lds[0].name, name);
      NewAtApart(nodes, next, server, LD_KEY_INIT + lds[0].name, k);
      GrowLdsApart(next, server, lds[1..], name);
      ApartChain(nodes, next, GrowLds(nodes, server, lds), server + [k]);
    }
  }

  ghost predicate AllLdExact(nodes: Nodes, server: Path, lds: seq<LogicalDevice>) {
    forall i :: 0 <= i < |lds| ==> ExactLd(nodes, server, lds[i])
  }

  lemma AllLdExactCons(nodes: Nodes, server: Path, lds: seq<LogicalDevice>)
    requires lds != [] && ExactLd(nodes, server, lds[0]) && AllLdExact(nodes, server, lds[1..])
    ensures AllLdExact(nodes, server, lds)
  {
    assert forall i :: 0 < i < |lds| ==> lds[i] == lds[1..][i - 1];
  }

  lemma ModelTail(lds: seq<LogicalDevice>)
    requires lds != [] && ModelOk(lds)
    ensures ModelOk(lds[1..]) && forall i :: 0 <= i < |lds[1..]| ==> lds[1..][i].name != lds[0].name
  {
    assert forall i :: 0 <= i < |lds[1..]| ==> lds[1..][i] == lds[i + 1];
  }

  lemma {:induction false} GrowLdsExact(nodes: Nodes, server: Path, lds: seq<LogicalDevice>)
    requires Closed(nodes) && server in nodes && ModelOk(lds) && NoDevices(nodes, server, lds)
    ensures AllLdExact(GrowLds(nodes, server, lds), server, lds)
    decreases |lds|
  {
    if lds != [] {
      var ld, rest := lds[0], lds[1..];
      var next, last := GrowLd(nodes, server, ld), GrowLds(nodes, server, lds);
      assert server + [LD_KEY_INIT + lds[0].name] !in nodes;
      GrowLdExact(nodes, server, ld);
      GrowLdGrown(nodes, server, ld);
      NextDevices(nodes, server, lds);
      ModelTail(lds);
      GrowLdsExact(next, server, rest);
      GrowLdsApart(next, server, rest, ld.name);
      ExactLdKept(next, last, server, ld);
      AllLdExactCons(last, server, lds);
    }
  }

  // Discovery of a well-named model leaves exactly the nodes the model calls for: every device, logical node, object
  // and attribute with its own children, an operable object with its control node, a leaf with its value node, and
  // no other child of any of them.
  lemma DiscoveryExact(nodes: Nodes, server: Path, lds: seq<LogicalDevice>)
    requires Closed(nodes) && server in nodes && ModelOk(lds) && NoDevices(nodes, server, lds)
    ensures var after := Discovered(nodes, server, lds);
            && AllLdExact(after, server, lds)
            && forall k :: server + [k] in after <==>
                             server + [k] in nodes || k in FOLDERS || k in DeviceKeys(lds)
  {
    FoldersGrown(nodes, server);
    StillNoDevices(nodes, server, lds);
    GrowLdsExact(WithFolders(nodes, server), server, lds);
    DiscoveredChildren(nodes, server, lds);
  }

  lemma HouseUnlisted(entries: seq<DataNode>, k: string)
    requires k in HOUSE && WellNamed(entries) && forall i :: 0 <= i < |entries| ==> Coherent(entries[i])
    ensures !Lists(entries, k)
  {
    forall i | 0 <= i < |entries|
      ensures Key(entries[i]) != k
    {
      KeyIsNoHouse(entries[i]);
    }
  }

  // Of these nodes exactly the operable ones have a control node, with the reference it needs, and exactly the leaves
  // a value node, which can be written exactly if the constraint allows that.
  lemma ControlAndValue(nodes: Nodes, q: Path, ref: string, n: DataNode)
    requires ExactNode(nodes, q, ref, n) && WellNamed(n.sub) && Coherent(n)
    ensures q + ["control"] in nodes <==> n.listed && Operable(n.controllable, n.sub)
    ensures q + ["control"] in nodes ==> Spells(nodes, q, "Object", ref)
    ensures q + ["Value"] in nodes <==> Leaf(n)
    ensures q + ["Value"] in nodes ==>
              && q + ["Value"] + ["readvalue"] in nodes
              && (q + ["Value"] + ["writevalue"] in nodes <==> FcOf(n.entry).value in WRITABLE_FCS)
  {
    ChildrenAreHouse("", "", "");
    HouseUnlisted(n.sub, "control");
    HouseUnlisted(n.sub, "Value");
    assert IsChild(n, "control") <==> n.listed && Operable(n.controllable, n.sub);
    assert IsChild(n, "Value") <==> Leaf(n);
  }

  // The entries name[FC] and name, taken apart.
  lemma EntryParts(name: string, fc: string, mmsType: string, listed: bool, hasSpec: bool, controllable: bool,
                   sub: seq<DataNode>)
    requires '[' !in name && |fc| == 2
    ensures FcOf(name + "[" + fc + "]") == if fc in FCS then Some(fc) else None
    ensures FcOf(name) == None
    ensures fc in FCS ==>
              Key(DataNode(name + "[" + fc + "]", mmsType, listed, hasSpec, controllable, sub)) == name + "[" + fc + "]"
    ensures Key(DataNode(name, mmsType, listed, hasSpec, controllable, sub)) == name
  {
    var entry := WithFc(name, fc);
    BaseOfKey(name, fc);
    assert entry == name + ['['] + (fc + "]");
    Strings.IndexOfConcat(name, '[', fc + "]");
    assert entry[|name| + 1..|name| + 3] == fc;
    Strings.IndexOfAbsent(name, '[');
  }
}
