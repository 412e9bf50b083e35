// What discovery guarantees about the tree it leaves behind.
module DiscoveredTree {
  import opened Wrappers
  import opened CText
  import opened NodeTree
  import opened References
  import opened Resolution
  import opened Discovery

  // The server's contract: entries are plain names or name[FC], and the directory of an entry
  // with a known constraint lists entries with that same constraint only.
  predicate Coherent(n: DataNode)
    decreases n
  {
    && NameOk(Base(n.entry))
    && (FcOf(n.entry).Some? ==>
      && n.entry == WithFc(Base(n.entry), FcOf(n.entry).value)
      && forall i :: 0 <= i < |n.sub| ==> FcOf(n.sub[i].entry) == FcOf(n.entry))
    && forall i :: 0 <= i < |n.sub| ==> Coherent(n.sub[i])
  }

  // A path of a logical node or below it, whose constrained keys all carry inFC.
  predicate DataPath(p: Path, inFC: Option<string>) {
    && |p| >= 3 && LD_KEY_INIT <= p[1] && NameOk(p[1][4..]) && NameOk(p[2])
    && (inFC.Some? ==> inFC.value in FCS)
    && forall i :: 3 <= i < |p| ==>
         NameOk(Base(p[i])) && (p[i] == Base(p[i]) || (inFC.Some? && p[i] == WithFc(Base(p[i]), inFC.value)))
  }

  lemma FcsAreNames(fc: string)
    requires fc in FCS
    ensures |fc| == 2 && NUL !in fc
  {
  }

  lemma KeyFacts(n: DataNode)
    requires Coherent(n)
    ensures Base(Key(n)) == Base(n.entry)
    ensures HasFc(Key(n)) <==> FcOf(n.entry).Some?
    ensures FcOf(n.entry).Some? ==> FcOf(n.entry).value in FCS && Key(n) == WithFc(Base(n.entry), FcOf(n.entry).value)
  {
    BaseOfKey(Base(n.entry), if FcOf(n.entry).Some? then FcOf(n.entry).value else "");
  }

  lemma ChildPath(p: Path, inFC: Option<string>, n: DataNode)
    requires DataPath(p, inFC) && Coherent(n) && (inFC.Some? ==> FcOf(n.entry) == inFC)
    ensures DataPath(p + [Key(n)], FcOf(n.entry))
    ensures RefOf(p + [Key(n)]) == RefOf(p) + "." + Base(n.entry)
  {
    KeyFacts(n);
    var q := p + [Key(n)];
    assert q[..|q| - 1] == p;
    forall i | 3 <= i < |q|
      ensures NameOk(Base(q[i]))
      ensures q[i] == Base(q[i]) || (FcOf(n.entry).Some? && q[i] == WithFc(Base(q[i]), FcOf(n.entry).value))
    {
      assert i < |p| ==> q[i] == p[i];
    }
  }

  // ---------------------------------------------------------------- stored references

  // A data attribute node holds its constraint and exactly the reference of its path.
  predicate AttributeOk(nodes: Nodes, p: Path) {
    && p + ["FC"] in nodes && nodes[p + ["FC"]].value.Text?
    && MemberPath(p, nodes[p + ["FC"]].value.s) && HasFc(p[|p| - 1])
    && p + ["Object"] in nodes && nodes[p + ["Object"]].value == Text(RefOf(p))
  }

  predicate ObjectOk(nodes: Nodes, p: Path) {
    && |p| >= 4 && DataPath(p, None)
    && p + ["Reference"] in nodes && nodes[p + ["Reference"]].value == Text(RefOf(p))
  }

  predicate Inv(nodes: Nodes) {
    && Closed(nodes)
    && (forall p :: p in nodes && nodes[p].kind == DataAttribute ==> AttributeOk(nodes, p))
    && (forall p :: p in nodes && nodes[p].kind == DataObject ==> ObjectOk(nodes, p))
  }

  predicate AllHousekeeping(children: seq<(string, Node)>) {
    forall i :: 0 <= i < |children| ==> children[i].1.kind == Housekeeping
  }

  // What must hold of a single node.
  predicate NodeOk(nodes: Nodes, p: Path)
    requires p in nodes
  {
    && (nodes[p].kind == DataAttribute ==> AttributeOk(nodes, p))
    && (nodes[p].kind == DataObject ==> ObjectOk(nodes, p))
  }

  lemma NodeOkKept(a: Nodes, b: Nodes, p: Path)
    requires p in a && NodeOk(a, p) && Kept(a, b)
    ensures NodeOk(b, p)
  {
  }

  // Adding nodes that are themselves in order keeps the whole tree in order.
  lemma InvExtend(a: Nodes, b: Nodes)
    requires Inv(a) && Kept(a, b) && Closed(b)
    requires forall q :: q in b && q !in a ==> NodeOk(b, q)
    ensures Inv(b)
  {
    forall q | q in b
      ensures NodeOk(b, q)
    {
      if q in a {
        assert NodeOk(a, q);
        NodeOkKept(a, b, q);
      }
    }
  }

  // A node of no data kind needs nothing of its own.
  lemma InertAdded(nodes: Nodes, p: Path, key: string, node: Node)
    requires Inv(nodes) && node.kind != DataAttribute && node.kind != DataObject
    ensures Inv(Added(nodes, p, key, node))
  {
    AddedFacts(nodes, p, key, node);
    InvExtend(nodes, Added(nodes, p, key, node));
  }

  lemma {:induction false} HouseInv(nodes: Nodes, p: Path, children: seq<(string, Node)>)
    requires Inv(nodes) && AllHousekeeping(children)
    ensures Inv(AddAll(nodes, p, children))
    decreases |children|
  {
    if children != [] {
      InertAdded(nodes, p, children[0].0, children[0].1);
      HouseInv(Added(nodes, p, children[0].0, children[0].1), p, children[1..]);
    }
  }

  // A node that is not there has no children either.
  lemma NoChildren(nodes: Nodes, p: Path)
    requires Closed(nodes) && p !in nodes
    ensures forall k :: p + [k] !in nodes
  {
    forall k
      ensures p + [k] !in nodes
    {
      assert (p + [k])[..|p + [k]| - 1] == p;
    }
  }

  // Only the new node and its listed children are new.
  lemma NewEntry(nodes: Nodes, parent: Path, key: string, node: Node, children: seq<(string, Node)>)
    requires Closed(nodes) && parent in nodes && parent + [key] !in nodes
    requires forall i, j :: 0 <= i < j < |children| ==> children[i].0 != children[j].0
    ensures var p, after := parent + [key], AddAll(Added(nodes, parent, key, node), parent + [key], children);
            && Grown(nodes, after, parent) && p in after && after[p] == node
            && (forall i :: 0 <= i < |children| ==>
                 p + [children[i].0] in after && after[p + [children[i].0]] == children[i].1)
            && (forall q :: q in after && q !in nodes && q != p ==>
                 exists i :: 0 <= i < |children| && q == p + [children[i].0] && after[q].kind == children[i].1.kind)
  {
    var p := parent + [key];
    var start := Added(nodes, parent, key, node);
    AddedFacts(nodes, parent, key, node);
    NoChildren(nodes, p);
    forall k
      ensures p + [k] !in start
    {
      assert |p + [k]| != |p|;
    }
    AddAllGrown(start, p, children);
    GrownChild(start, AddAll(start, p, children), parent, key);
    AddAllChildren(start, p, children);
  }

  lemma NewAttribute(nodes: Nodes, parent: Path, n: DataNode, fc: string, p: Path, after: Nodes)
    requires Coherent(n) && FcOf(n.entry) == Some(fc) && p == parent + [Key(n)] && DataPath(p, Some(fc))
    requires p + ["FC"] in after && after[p + ["FC"]] == Housekeep(Text(fc))
    requires p + ["Object"] in after && after[p + ["Object"]] == Housekeep(Text(RefOf(p)))
    requires |p| >= 4
    ensures AttributeOk(after, p)
  {
    KeyFacts(n);
    FcsAreNames(fc);
  }

  lemma NewObject(nodes: Nodes, p: Path, after: Nodes)
    requires |p| >= 4 && DataPath(p, None)
    requires p + ["Reference"] in after && after[p + ["Reference"]] == Housekeep(Text(RefOf(p)))
    ensures ObjectOk(after, p)
  {
  }

  lemma DaChildrenFacts(ref: string, fc: string, mmsType: string)
    ensures var c := DaChildren(ref, fc, mmsType);
            && |c| == 5 && c[0] == ("FC", Housekeep(Text(fc))) && c[2] == ("Object", Housekeep(Text(ref)))
            && AllHousekeeping(c) && forall i, j :: 0 <= i < j < |c| ==> c[i].0 != c[j].0
  {
  }

  // Extending a tree in order by one attribute and its children.
  lemma AttributeInv(nodes: Nodes, after: Nodes, p: Path)
    requires Inv(nodes) && Kept(nodes, after) && Closed(after) && p in after && AttributeOk(after, p)
    requires after[p].kind == DataAttribute
    requires forall q :: q in after && q !in nodes && q != p ==> after[q].kind == Housekeeping
    ensures Inv(after)
  {
    InvExtend(nodes, after);
  }

  lemma WithAttributeInv(nodes: Nodes, parent: Path, fc: string, n: DataNode, p: Path)
    requires Inv(nodes) && parent in nodes && p == parent + [Key(n)] && p !in nodes
    requires Coherent(n) && FcOf(n.entry) == Some(fc) && DataPath(p, Some(fc)) && |p| >= 4
    ensures Inv(AddAll(Added(nodes, parent, Key(n), Node(DataAttribute, NoValue)), p,
                       DaChildren(RefOf(p), fc, n.mmsType)))
  {
    var children := DaChildren(RefOf(p), fc, n.mmsType);
    var after := AddAll(Added(nodes, parent, Key(n), Node(DataAttribute, NoValue)), p, children);
    DaChildrenFacts(RefOf(p), fc, n.mmsType);
    NewEntry(nodes, parent, Key(n), Node(DataAttribute, NoValue), children);
    assert p + [children[0].0] in after && p + [children[2].0] in after;
    NewAttribute(nodes, parent, n, fc, p, after);
    AttributeInv(nodes, after, p);
  }

  lemma ObjectInv(nodes: Nodes, after: Nodes, p: Path)
    requires Inv(nodes) && Kept(nodes, after) && Closed(after) && p in after && ObjectOk(after, p)
    requires after[p].kind == DataObject
    requires forall q :: q in after && q !in nodes && q != p ==> after[q].kind == Housekeeping
    ensures Inv(after)
  {
    InvExtend(nodes, after);
  }

  lemma WithObjectInv(nodes: Nodes, parent: Path, key: string, p: Path)
    requires Inv(nodes) && parent in nodes && p == parent + [key] && p !in nodes
    requires DataPath(p, None) && |p| >= 4
    ensures Inv(AddAll(Added(nodes, parent, key, Node(DataObject, NoValue)), p, DoChildren(RefOf(p))))
  {
    var children := DoChildren(RefOf(p));
    var after := AddAll(Added(nodes, parent, key, Node(DataObject, NoValue)), p, children);
    NewEntry(nodes, parent, key, Node(DataObject, NoValue), children);
    assert children[0] == ("Reference", Housekeep(Text(RefOf(p))));
    NewObject(nodes, p, after);
    ObjectInv(nodes, after, p);
  }

  lemma WithEntryInv(nodes: Nodes, parent: Path, inFC: Option<string>, n: DataNode)
    requires Inv(nodes) && parent in nodes && DataPath(parent, inFC) && Coherent(n)
    requires inFC.Some? ==> FcOf(n.entry) == inFC
    requires parent + [Key(n)] !in nodes
    ensures Inv(WithEntry(nodes, parent, RefOf(parent) + "." + Base(n.entry), n))
  {
    ChildPath(parent, inFC, n);
    if FcOf(n.entry).Some? {
      WithAttributeInv(nodes, parent, FcOf(n.entry).value, n, parent + [Key(n)]);
    } else {
      WithObjectInv(nodes, parent, Key(n), parent + [Key(n)]);
    }
  }

  lemma WithControlInv(nodes: Nodes, node: Path, doRef: string)
    requires Inv(nodes)
    ensures Inv(WithControl(nodes, node, doRef))
  {
    HouseInv(nodes, node, [("control", Housekeep(NoValue)), ("Object", Housekeep(Text(doRef)))]);
  }

  lemma WithNodeInv(nodes: Nodes, parent: Path, inFC: Option<string>, ctl: bool, n: DataNode)
    requires Inv(nodes) && parent in nodes && DataPath(parent, inFC) && Coherent(n)
    requires inFC.Some? ==> FcOf(n.entry) == inFC
    requires parent + [Key(n)] !in nodes
    ensures Inv(WithNode(nodes, parent, RefOf(parent), ctl, n))
  {
    WithEntryInv(nodes, parent, inFC, n);
    WithControlInv(WithEntry(nodes, parent, RefOf(parent) + "." + Base(n.entry), n), parent, RefOf(parent));
  }

  lemma WithValueInv(nodes: Nodes, p: Path, fc: string)
    requires Inv(nodes)
    ensures Inv(WithValue(nodes, p, fc))
  {
    var start := Added(nodes, p, "Value", Housekeep(NoValue));
    InertAdded(nodes, p, "Value", Housekeep(NoValue));
    if fc in WRITABLE_FCS {
      HouseInv(start, p + ["Value"], [("readvalue", Housekeep(NoValue)), ("writevalue", Housekeep(NoValue))]);
    } else {
      HouseInv(start, p + ["Value"], [("readvalue", Housekeep(NoValue))]);
    }
  }

  lemma {:induction false} GrowNodeInv(nodes: Nodes, parent: Path, inFC: Option<string>, ctl: bool, n: DataNode)
    requires Inv(nodes) && parent in nodes && DataPath(parent, inFC) && Coherent(n)
    requires inFC.Some? ==> FcOf(n.entry) == inFC
    ensures Inv(GrowNode(nodes, parent, RefOf(parent), ctl, n))
    decreases n, 1
  {
    if parent + [Key(n)] !in nodes {
      WithNodeInv(nodes, parent, inFC, ctl, n);
      WithNodeGrown(nodes, parent, RefOf(parent), ctl, n);
      ChildPath(parent, inFC, n);
      GrowDirInv(WithNode(nodes, parent, RefOf(parent), ctl, n), parent + [Key(n)], n);
    }
  }

  lemma {:induction false} GrowDirInv(nodes: Nodes, p: Path, n: DataNode)
    requires Inv(nodes) && p in nodes && DataPath(p, FcOf(n.entry)) && Coherent(n)
    ensures Inv(GrowDir(nodes, p, RefOf(p), n))
    decreases n, 0
  {
    if n.listed && n.sub == [] {
      if IsLeafAttribute(nodes, p) {
        WithValueInv(nodes, p, nodes[p + ["FC"]].value.s);
      }
    } else if n.listed {
      GrowAllInv(nodes, p, FcOf(n.entry), n.controllable, n.sub);
    }
  }

  lemma {:induction false} GrowAllInv(nodes: Nodes, p: Path, inFC: Option<string>, ctl: bool, entries: seq<DataNode>)
    requires Inv(nodes) && p in nodes && DataPath(p, inFC)
    requires forall i :: 0 <= i < |entries| ==> Coherent(entries[i]) && (inFC.Some? ==> FcOf(entries[i].entry) == inFC)
    ensures Inv(GrowAll(nodes, p, RefOf(p), ctl, entries))
    decreases entries, 2
  {
    if entries != [] {
      GrowNodeInv(nodes, p, inFC, ctl, entries[0]);
      GrowNodeGrown(nodes, p, RefOf(p), ctl, entries[0]);
      GrowAllInv(GrowNode(nodes, p, RefOf(p), ctl, entries[0]), p, inFC, ctl, entries[1..]);
    }
  }
}
