// Well-named models: nothing discovery builds shadows anything else, and everything is built.
module DiscoveredNames {
  import opened NodeTree
  import opened References
  import opened Discovery
  import opened DiscoveredTree

  // The keys the code itself puts below data nodes.
  const HOUSE: set<string> := {"Reference", "prepdataset", "control", "Object", "FC", "Type", "MMS Type", "adddataset",
                               "Value", "readvalue", "writevalue"}

  // One key is the other with a functional constraint.
  predicate Clash(a: string, b: string) {
    (HasFc(a) && Base(a) == b) || (HasFc(b) && Base(b) == a)
  }

  // No entry is named like a housekeeping key, siblings have keys of their own, and no base
  // name appears both plain and with a constraint.
  predicate WellNamed(entries: seq<DataNode>)
    decreases entries
  {
    && (forall i :: 0 <= i < |entries| ==> Base(entries[i].entry) !in HOUSE && WellNamed(entries[i].sub))
    && (forall i, j :: 0 <= i < j < |entries| ==>
          Key(entries[i]) != Key(entries[j]) && !Clash(Key(entries[i]), Key(entries[j])))
  }

  // No key with a constraint has a plain sibling of the same name or the name of a housekeeping key.
  ghost predicate Sep(nodes: Nodes) {
    forall p, k :: p + [k] in nodes && HasFc(k) ==> Base(k) !in HOUSE && p + [Base(k)] !in nodes
  }

  // An entry can be added below p without disturbing that.
  ghost predicate Room(nodes: Nodes, p: Path, n: DataNode) {
    && p + [Key(n)] !in nodes
    && forall k :: p + [k] in nodes ==> !Clash(k, Key(n))
  }

  lemma HouseIsPlain(k: string)
    requires k in HOUSE
    ensures !HasFc(k)
  {
  }

  lemma SepAdded(nodes: Nodes, p: Path, key: string, node: Node)
    requires Sep(nodes) && p in nodes && p + [key] !in nodes
    requires HasFc(key) ==> Base(key) !in HOUSE && p + [Base(key)] !in nodes && Base(key) != key
    requires forall k :: p + [k] in nodes && HasFc(k) ==> Base(k) != key
    ensures Sep(Added(nodes, p, key, node))
  {
    var after := Added(nodes, p, key, node);
    forall q, k | q + [k] in after && HasFc(k)
      ensures Base(k) !in HOUSE && q + [Base(k)] !in after
    {
      if q + [k] == p + [key] {
        SameChild(q, k, p, key);
      }
      if q + [Base(k)] == p + [key] {
        SameChild(q, Base(k), p, key);
      }
    }
  }

  lemma SameChild(p: Path, k: string, q: Path, j: string)
    requires p + [k] == q + [j]
    ensures p == q && k == j
  {
    assert |p| == |q|;
    assert (p + [k])[|p|] == k && (q + [j])[|q|] == j;
    assert (p + [k])[..|p|] == p && (q + [j])[..|q|] == q;
  }

  predicate HouseKeys(children: seq<(string, Node)>) {
    forall i :: 0 <= i < |children| ==> children[i].0 in HOUSE
  }

  lemma {:induction false} HouseSep(nodes: Nodes, p: Path, children: seq<(string, Node)>)
    requires Sep(nodes) && HouseKeys(children)
    ensures Sep(AddAll(nodes, p, children))
    decreases |children|
  {
    if children != [] {
      var (key, node) := children[0];
      HouseIsPlain(key);
      if p in nodes && p + [key] !in nodes {
        SepAdded(nodes, p, key, node);
      }
      HouseSep(Added(nodes, p, key, node), p, children[1..]);
    }
  }

  lemma ChildrenAreHouse(ref: string, fc: string, mmsType: string)
    ensures HouseKeys(DaChildren(ref, fc, mmsType)) && HouseKeys(DoChildren(ref)) && HouseKeys(LnChildren(ref))
    ensures "control" in HOUSE && "Object" in HOUSE && "Value" in HOUSE && "readvalue" in HOUSE && "writevalue" in HOUSE
  {
  }

  lemma {:induction false} AddAllKeys(nodes: Nodes, p: Path, children: seq<(string, Node)>, q: Path)
    requires HouseKeys(children) && q in AddAll(nodes, p, children) && q !in nodes
    ensures exists k :: k in HOUSE && q == p + [k]
    decreases |children|
  {
    if children != [] {
      var next := Added(nodes, p, children[0].0, children[0].1);
      if q in next {
        assert children[0].0 in HOUSE && q == p + [children[0].0];
      } else {
        AddAllKeys(next, p, children[1..], q);
      }
    }
  }

  // The nodes that appear with one entry, before its own directory is read.
  lemma WithNodeNew(nodes: Nodes, parent: Path, parentRef: string, ctl: bool, n: DataNode, q: Path)
    requires q in WithNode(nodes, parent, parentRef, ctl, n) && q !in nodes
    ensures q == parent + [Key(n)] || exists k :: k in HOUSE && (q == parent + [k] || q == parent + [Key(n)] + [k])
  {
    var ref, p, fc := parentRef + "." + Base(n.entry), parent + [Key(n)], FcOf(n.entry);
    var children := if fc.Some? then DaChildren(ref, fc.value, n.mmsType) else DoChildren(ref);
    var start := Added(nodes, parent, Key(n), Node(if fc.Some? then DataAttribute else DataObject, NoValue));
    var entry := WithEntry(nodes, parent, ref, n);
    assert entry == AddAll(start, p, children);
    ChildrenAreHouse(ref, if fc.Some? then fc.value else "", n.mmsType);
    if q !in start {
      if q in entry {
        AddAllKeys(start, p, children, q);
      } else {
        AddAllKeys(entry, parent, [("control", Housekeep(NoValue)), ("Object", Housekeep(Text(parentRef)))], q);
      }
    }
  }

  lemma WithNodeSep(nodes: Nodes, parent: Path, parentRef: string, ctl: bool, n: DataNode)
    requires Sep(nodes) && parent in nodes && Room(nodes, parent, n) && Coherent(n) && Base(n.entry) !in HOUSE
    ensures Sep(WithNode(nodes, parent, parentRef, ctl, n))
  {
    var ref, p, fc := parentRef + "." + Base(n.entry), parent + [Key(n)], FcOf(n.entry);
    var children := if fc.Some? then DaChildren(ref, fc.value, n.mmsType) else DoChildren(ref);
    var node := Node(if fc.Some? then DataAttribute else DataObject, NoValue);
    var start := Added(nodes, parent, Key(n), node);
    KeyFacts(n);
    SepAdded(nodes, parent, Key(n), node);
    ChildrenAreHouse(ref, if fc.Some? then fc.value else "", n.mmsType);
    HouseSep(start, p, children);
    var entry := WithEntry(nodes, parent, ref, n);
    assert entry == AddAll(start, p, children);
    HouseSep(entry, parent, [("control", Housekeep(NoValue)), ("Object", Housekeep(Text(parentRef)))]);
  }

  lemma WithValueSep(nodes: Nodes, p: Path, fc: string)
    requires Sep(nodes)
    ensures Sep(WithValue(nodes, p, fc))
  {
    ChildrenAreHouse("", "", "");
    HouseIsPlain("Value");
    if p in nodes && p + ["Value"] !in nodes {
      SepAdded(nodes, p, "Value", Housekeep(NoValue));
    }
    var start := Added(nodes, p, "Value", Housekeep(NoValue));
    if fc in WRITABLE_FCS {
      HouseSep(start, p + ["Value"], [("readvalue", Housekeep(NoValue)), ("writevalue", Housekeep(NoValue))]);
    } else {
      HouseSep(start, p + ["Value"], [("readvalue", Housekeep(NoValue))]);
    }
  }

  // Growing below a child adds nothing beside it, so the children of parent stay known.
  lemma GrowNodeChildren(nodes: Nodes, parent: Path, parentRef: string, ctl: bool, n: DataNode, k: string)
    requires parent + [k] in GrowNode(nodes, parent, parentRef, ctl, n) && parent + [k] !in nodes
    ensures k == Key(n) || k in HOUSE
  {
    var start := WithNode(nodes, parent, parentRef, ctl, n);
    GrowDirGrown(start, parent + [Key(n)], parentRef + "." + Base(n.entry), n);
    assert |parent + [Key(n)]| == |parent + [k]|;
    assert parent + [k] in start;
    WithNodeNew(nodes, parent, parentRef, ctl, n, parent + [k]);
    if parent + [k] == parent + [Key(n)] {
      SameChild(parent, k, parent, Key(n));
    } else {
      var h :| h in HOUSE && (parent + [k] == parent + [h] || parent + [k] == parent + [Key(n)] + [h]);
      assert |parent + [k]| != |parent + [Key(n)] + [h]|;
      SameChild(parent, k, parent, h);
    }
  }

  lemma RoomKept(nodes: Nodes, p: Path, ref: string, ctl: bool, n: DataNode, m: DataNode)
    requires Room(nodes, p, m) && Coherent(m) && Base(m.entry) !in HOUSE
    requires Key(n) != Key(m) && !Clash(Key(n), Key(m))
    ensures Room(GrowNode(nodes, p, ref, ctl, n), p, m)
  {
    var after := GrowNode(nodes, p, ref, ctl, n);
    KeyFacts(m);
    forall k | p + [k] in after
      ensures k != Key(m) && !Clash(k, Key(m))
    {
      if p + [k] !in nodes {
        GrowNodeChildren(nodes, p, ref, ctl, n, k);
        if k in HOUSE {
          HouseIsPlain(k);
        }
      }
    }
  }

  // The directory of a new node starts with housekeeping children only.
  lemma FreshChildren(nodes: Nodes, parent: Path, parentRef: string, ctl: bool, n: DataNode, m: DataNode)
    requires Closed(nodes) && parent + [Key(n)] !in nodes && Coherent(m) && Base(m.entry) !in HOUSE
    ensures Room(WithNode(nodes, parent, parentRef, ctl, n), parent + [Key(n)], m)
  {
    var p, start := parent + [Key(n)], WithNode(nodes, parent, parentRef, ctl, n);
    NoChildren(nodes, p);
    KeyFacts(m);
    forall k | p + [k] in start
      ensures k in HOUSE && k != Key(m) && !Clash(k, Key(m))
    {
      WithNodeNew(nodes, parent, parentRef, ctl, n, p + [k]);
      assert p + [k] != p;
      var h :| h in HOUSE && (p + [k] == parent + [h] || p + [k] == p + [h]);
      assert |p + [k]| != |parent + [h]|;
      SameChild(p, k, p, h);
      HouseIsPlain(k);
    }
  }

  // ---------------------------------------------------------------- everything is built

  predicate NodeBuilt(nodes: Nodes, p: Path, n: DataNode)
    decreases n, 0
  {
    var q := p + [Key(n)];
    && q in nodes
    && nodes[q].kind == (if FcOf(n.entry).Some? then DataAttribute else DataObject)
    && (n.listed && n.sub == [] && n.hasSpec && FcOf(n.entry).Some? ==> q + ["Value"] in nodes)
    && (n.listed ==> AllBuilt(nodes, q, n.sub))
  }

  predicate AllBuilt(nodes: Nodes, p: Path, entries: seq<DataNode>)
    decreases entries, 1
  {
    forall i :: 0 <= i < |entries| ==> NodeBuilt(nodes, p, entries[i])
  }

  lemma {:induction false} NodeBuiltKept(a: Nodes, b: Nodes, p: Path, n: DataNode)
    requires NodeBuilt(a, p, n) && Kept(a, b)
    ensures NodeBuilt(b, p, n)
    decreases n, 0
  {
    if n.listed {
      AllBuiltKept(a, b, p + [Key(n)], n.sub);
    }
  }

  lemma {:induction false} AllBuiltKept(a: Nodes, b: Nodes, p: Path, entries: seq<DataNode>)
    requires AllBuilt(a, p, entries) && Kept(a, b)
    ensures AllBuilt(b, p, entries)
    decreases entries, 1
  {
    forall i | 0 <= i < |entries|
      ensures NodeBuilt(b, p, entries[i])
    {
      NodeBuiltKept(a, b, p, entries[i]);
    }
  }

  // What a freshly added entry looks like.
  lemma WithNodeEntry(nodes: Nodes, parent: Path, parentRef: string, ctl: bool, n: DataNode)
    requires Closed(nodes) && parent in nodes && parent + [Key(n)] !in nodes
    ensures var q, after := parent + [Key(n)], WithNode(nodes, parent, parentRef, ctl, n);
            && q in after && after[q].kind == (if FcOf(n.entry).Some? then DataAttribute else DataObject)
            && (FcOf(n.entry).Some? ==> IsLeafAttribute(after, q))
  {
    var ref, p, fc := parentRef + "." + Base(n.entry), parent + [Key(n)], FcOf(n.entry);
    var entry := WithEntry(nodes, parent, ref, n);
    if fc.Some? {
      DaChildrenFacts(ref, fc.value, n.mmsType);
      NewEntry(nodes, parent, Key(n), Node(DataAttribute, NoValue), DaChildren(ref, fc.value, n.mmsType));
      assert p + [DaChildren(ref, fc.value, n.mmsType)[0].0] in entry;
      assert p + [DaChildren(ref, fc.value, n.mmsType)[2].0] in entry;
    } else {
      NewEntry(nodes, parent, Key(n), Node(DataObject, NoValue), DoChildren(ref));
    }
    AddAllGrown(entry, parent, [("control", Housekeep(NoValue)), ("Object", Housekeep(Text(parentRef)))]);
  }

  lemma {:induction false} GrowNodeNamed(nodes: Nodes, parent: Path, parentRef: string, ctl: bool, n: DataNode)
    requires Closed(nodes) && Sep(nodes) && parent in nodes && Room(nodes, parent, n)
    requires Coherent(n) && Base(n.entry) !in HOUSE && WellNamed(n.sub)
    ensures Sep(GrowNode(nodes, parent, parentRef, ctl, n))
    ensures NodeBuilt(GrowNode(nodes, parent, parentRef, ctl, n), parent, n)
    decreases n, 1
  {
    var p, ref, start := parent + [Key(n)], parentRef + "." + Base(n.entry), WithNode(nodes, parent, parentRef, ctl, n);
    WithNodeSep(nodes, parent, parentRef, ctl, n);
    WithNodeGrown(nodes, parent, parentRef, ctl, n);
    WithNodeEntry(nodes, parent, parentRef, ctl, n);
    forall i | 0 <= i < |n.sub|
      ensures Room(start, p, n.sub[i])
    {
      FreshChildren(nodes, parent, parentRef, ctl, n, n.sub[i]);
    }
    GrowDirNamed(start, p, ref, n);
    GrowDirGrown(start, p, ref, n);
  }

  lemma {:induction false} GrowDirNamed(nodes: Nodes, p: Path, ref: string, n: DataNode)
    requires Closed(nodes) && Sep(nodes) && p in nodes && Coherent(n) && WellNamed(n.sub)
    requires forall i :: 0 <= i < |n.sub| ==> Room(nodes, p, n.sub[i])
    ensures Sep(GrowDir(nodes, p, ref, n))
    ensures n.listed ==> AllBuilt(GrowDir(nodes, p, ref, n), p, n.sub)
    ensures n.listed && n.sub == [] && n.hasSpec && IsLeafAttribute(nodes, p) ==>
              p + ["Value"] in GrowDir(nodes, p, ref, n)
    decreases n, 0
  {
    if n.listed && n.sub == [] {
      if IsLeafAttribute(nodes, p) && n.hasSpec {
        WithValueSep(nodes, p, nodes[p + ["FC"]].value.s);
        WithValueHas(nodes, p, nodes[p + ["FC"]].value.s);
      }
    } else if n.listed {
      GrowAllNamed(nodes, p, ref, n.controllable, n.sub);
    }
  }

  lemma WithValueHas(nodes: Nodes, p: Path, fc: string)
    requires p in nodes
    ensures p + ["Value"] in WithValue(nodes, p, fc)
  {
    var start := Added(nodes, p, "Value", Housekeep(NoValue));
    AddAllGrown(start, p + ["Value"], [("readvalue", Housekeep(NoValue)), ("writevalue", Housekeep(NoValue))]);
    AddAllGrown(start, p + ["Value"], [("readvalue", Housekeep(NoValue))]);
  }

  lemma {:induction false} GrowAllNamed(nodes: Nodes, p: Path, ref: string, ctl: bool, entries: seq<DataNode>)
    requires Closed(nodes) && Sep(nodes) && p in nodes && WellNamed(entries)
    requires forall i :: 0 <= i < |entries| ==> Coherent(entries[i]) && Room(nodes, p, entries[i])
    ensures Sep(GrowAll(nodes, p, ref, ctl, entries))
    ensures AllBuilt(GrowAll(nodes, p, ref, ctl, entries), p, entries)
    decreases entries, 2
  {
    if entries != [] {
      var n, rest := entries[0], entries[1..];
      var next := GrowNode(nodes, p, ref, ctl, n);
      var last := GrowAll(next, p, ref, ctl, rest);
      GrowNodeNamed(nodes, p, ref, ctl, n);
      GrowNodeGrown(nodes, p, ref, ctl, n);
      RoomForRest(nodes, p, ref, ctl, entries);
      WellNamedTail(entries);
      GrowAllNamed(next, p, ref, ctl, rest);
      GrowAllGrown(next, p, ref, ctl, rest);
      NodeBuiltKept(next, last, p, n);
      AllBuiltCons(last, p, entries);
    }
  }

  lemma RoomForRest(nodes: Nodes, p: Path, ref: string, ctl: bool, entries: seq<DataNode>)
    requires entries != [] && WellNamed(entries)
    requires forall i :: 0 <= i < |entries| ==> Coherent(entries[i]) && Room(nodes, p, entries[i])
    ensures forall i :: 0 <= i < |entries[1..]| ==> Room(GrowNode(nodes, p, ref, ctl, entries[0]), p, entries[1..][i])
  {
    forall i | 0 <= i < |entries[1..]|
      ensures Room(GrowNode(nodes, p, ref, ctl, entries[0]), p, entries[1..][i])
    {
      RoomKept(nodes, p, ref, ctl, entries[0], entries[i + 1]);
    }
  }

  lemma AllBuiltCons(nodes: Nodes, p: Path, entries: seq<DataNode>)
    requires entries != [] && NodeBuilt(nodes, p, entries[0]) && AllBuilt(nodes, p, entries[1..])
    ensures AllBuilt(nodes, p, entries)
  {
    forall i | 0 <= i < |entries|
      ensures NodeBuilt(nodes, p, entries[i])
    {
      assert i > 0 ==> entries[i] == entries[1..][i - 1];
    }
  }

  lemma WellNamedTail(entries: seq<DataNode>)
    requires entries != [] && WellNamed(entries)
    ensures WellNamed(entries[1..])
  {
    var rest := entries[1..];
    assert forall i :: 0 <= i < |rest| ==> rest[i] == entries[i + 1];
  }
}
