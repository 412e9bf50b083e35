// Discovery: the server's data model copied into the node tree.
module Discovery {
  import opened Wrappers
  import opened Strings
  import opened NodeTree
  import opened References

  // One directory entry of the server and what the server answers about it. listed says
  // whether its own directory could be read, hasSpec whether a leaf has a variable
  // specification, controllable whether its directory holds an stVal of boolean or integer type.
  datatype DataNode = DataNode(entry: string, mmsType: string, listed: bool, hasSpec: bool, controllable: bool,
                               sub: seq<DataNode>)

  datatype LogicalNode = LogicalNode(name: string, objects: seq<DataNode>)

  datatype LogicalDevice = LogicalDevice(name: string, logicalNodes: seq<LogicalNode>)

  const FCS: set<string> := {"ST", "MX", "SP", "SV", "CF", "DC", "SG", "SE", "SR", "OR", "BL", "EX", "CO",
                             "US", "MS", "RP", "BR", "LG"}
  const WRITABLE_FCS: set<string> := {"CF", "SE", "SP", "DC", "SV"}

  // getFunctionalConstraint with its missing return: the two characters behind the bracket.
  function FcOf(entry: string): Option<string> {
    var b := IndexOf(entry, '[');
    if b + 3 <= |entry| && entry[b + 1..b + 3] in FCS then Some(entry[b + 1..b + 3]) else None
  }

  function Key(n: DataNode): string {
    if FcOf(n.entry).Some? then n.entry else Base(n.entry)
  }

  function Housekeep(value: Value): Node {
    Node(Housekeeping, value)
  }

  function DoChildren(doRef: string): seq<(string, Node)> {
    [("Reference", Housekeep(Text(doRef)))]
  }

  function DaChildren(daRef: string, fc: string, mmsType: string): seq<(string, Node)> {
    [("FC", Housekeep(Text(fc))), ("Type", Housekeep(NoValue)), ("Object", Housekeep(Text(daRef))),
     ("MMS Type", Housekeep(Text(mmsType))), ("adddataset", Housekeep(NoValue))]
  }

  // createDONode for an entry without a known constraint, createDANode for one with it.
  function WithEntry(nodes: Nodes, parent: Path, ref: string, n: DataNode): Nodes {
    if FcOf(n.entry).Some? then
      AddAll(Added(nodes, parent, Key(n), Node(DataAttribute, NoValue)), parent + [Key(n)],
             DaChildren(ref, FcOf(n.entry).value, n.mmsType))
    else
      AddAll(Added(nodes, parent, Key(n), Node(DataObject, NoValue)), parent + [Key(n)], DoChildren(ref))
  }

  // handleControllableNode: the control action and the reference it needs, unless already there
  function WithControl(nodes: Nodes, node: Path, doRef: string): Nodes {
    if node + ["control"] in nodes then nodes
    else AddAll(nodes, node, [("control", Housekeep(NoValue)), ("Object", Housekeep(Text(doRef)))])
  }

  // createValueNode
  function WithValue(nodes: Nodes, p: Path, fc: string): Nodes {
    AddAll(Added(nodes, p, "Value", Housekeep(NoValue)), p + ["Value"],
           if fc in WRITABLE_FCS then [("readvalue", Housekeep(NoValue)), ("writevalue", Housekeep(NoValue))]
           else [("readvalue", Housekeep(NoValue))])
  }

  // A node that has its constraint and its reference as children.
  predicate IsLeafAttribute(nodes: Nodes, p: Path) {
    && p + ["FC"] in nodes && nodes[p + ["FC"]].value.Text? && nodes[p + ["FC"]].value.s in FCS
    && p + ["Object"] in nodes
  }

  // One directory entry below parent: its node, the control node an Oper calls for, its own directory.
  function GrowNode(nodes: Nodes, parent: Path, parentRef: string, ctl: bool, n: DataNode): Nodes
    decreases n, 1
  {
    var ref := parentRef + "." + Base(n.entry);
    if parent + [Key(n)] in nodes then nodes
    else GrowDir(WithNode(nodes, parent, parentRef, ctl, n), parent + [Key(n)], ref, n)
  }

  function WithNode(nodes: Nodes, parent: Path, parentRef: string, ctl: bool, n: DataNode): Nodes {
    var nodes := WithEntry(nodes, parent, parentRef + "." + Base(n.entry), n);
    if Base(n.entry) == "Oper" && ctl then WithControl(nodes, parent, parentRef) else nodes
  }

  function GrowDir(nodes: Nodes, p: Path, ref: string, n: DataNode): Nodes
    decreases n, 0
  {
    if !n.listed then nodes
    else if n.sub == [] then
      if IsLeafAttribute(nodes, p) && n.hasSpec then WithValue(nodes, p, nodes[p + ["FC"]].value.s) else nodes
    else GrowAll(nodes, p, ref, n.controllable, n.sub)
  }

  function GrowAll(nodes: Nodes, p: Path, ref: string, ctl: bool, entries: seq<DataNode>): Nodes
    decreases entries, 2
  {
    if entries == [] then nodes
    else GrowAll(GrowNode(nodes, p, ref, ctl, entries[0]), p, ref, ctl, entries[1..])
  }

  // createLNNode and the data objects of the logical node
  function GrowLn(nodes: Nodes, ld: Path, ldName: string, ln: LogicalNode): Nodes {
    var p, ref := ld + [ln.name], ldName + "/" + ln.name;
    var nodes := Added(nodes, ld, ln.name, Node(Container, NoValue));
    GrowAll(AddAll(nodes, p, LnChildren(ref)), p, ref, false, ln.objects)
  }

  function LnChildren(ref: string): seq<(string, Node)> {
    [("Reference", Housekeep(Text(ref))), ("prepdataset", Housekeep(NoValue))]
  }

  function GrowLns(nodes: Nodes, ld: Path, ldName: string, lns: seq<LogicalNode>): Nodes
    decreases |lns|
  {
    if lns == [] then nodes else GrowLns(GrowLn(nodes, ld, ldName, lns[0]), ld, ldName, lns[1..])
  }

  function GrowLd(nodes: Nodes, server: Path, ld: LogicalDevice): Nodes {
    var nodes := Added(nodes, server, LD_KEY_INIT + ld.name, Node(Container, NoValue));
    GrowLns(nodes, server + [LD_KEY_INIT + ld.name], ld.name, ld.logicalNodes)
  }

  function GrowLds(nodes: Nodes, server: Path, lds: seq<LogicalDevice>): Nodes
    decreases |lds|
  {
    if lds == [] then nodes else GrowLds(GrowLd(nodes, server, lds[0]), server, lds[1..])
  }

  // ---------------------------------------------------------------- growth only adds

  lemma WithEntryGrown(nodes: Nodes, parent: Path, ref: string, n: DataNode)
    ensures Grown(nodes, WithEntry(nodes, parent, ref, n), parent)
    ensures parent in nodes ==> parent + [Key(n)] in WithEntry(nodes, parent, ref, n)
  {
    var node := Node(if FcOf(n.entry).Some? then DataAttribute else DataObject, NoValue);
    var children := if FcOf(n.entry).Some? then DaChildren(ref, FcOf(n.entry).value, n.mmsType) else DoChildren(ref);
    var start := Added(nodes, parent, Key(n), node);
    AddedFacts(nodes, parent, Key(n), node);
    AddAllGrown(start, parent + [Key(n)], children);
    GrownChild(start, WithEntry(nodes, parent, ref, n), parent, Key(n));
  }

  lemma WithNodeGrown(nodes: Nodes, parent: Path, parentRef: string, ctl: bool, n: DataNode)
    ensures Grown(nodes, WithNode(nodes, parent, parentRef, ctl, n), parent)
    ensures parent in nodes ==> parent + [Key(n)] in WithNode(nodes, parent, parentRef, ctl, n)
  {
    var ref := parentRef + "." + Base(n.entry);
    WithEntryGrown(nodes, parent, ref, n);
    AddAllGrown(WithEntry(nodes, parent, ref, n), parent,
                [("control", Housekeep(NoValue)), ("Object", Housekeep(Text(parentRef)))]);
  }

  lemma WithValueGrown(nodes: Nodes, p: Path, fc: string)
    ensures Grown(nodes, WithValue(nodes, p, fc), p)
  {
    var start := Added(nodes, p, "Value", Housekeep(NoValue));
    AddedFacts(nodes, p, "Value", Housekeep(NoValue));
    AddAllGrown(start, p + ["Value"], [("readvalue", Housekeep(NoValue)), ("writevalue", Housekeep(NoValue))]);
    AddAllGrown(start, p + ["Value"], [("readvalue", Housekeep(NoValue))]);
    GrownChild(start, WithValue(nodes, p, fc), p, "Value");
  }

  lemma {:induction false} GrowNodeGrown(nodes: Nodes, parent: Path, parentRef: string, ctl: bool, n: DataNode)
    ensures Grown(nodes, GrowNode(nodes, parent, parentRef, ctl, n), parent)
    decreases n, 1
  {
    var start := WithNode(nodes, parent, parentRef, ctl, n);
    WithNodeGrown(nodes, parent, parentRef, ctl, n);
    var ref := parentRef + "." + Base(n.entry);
    GrowDirGrown(start, parent + [Key(n)], ref, n);
    GrownChild(start, GrowDir(start, parent + [Key(n)], ref, n), parent, Key(n));
  }

  lemma {:induction false} GrowDirGrown(nodes: Nodes, p: Path, ref: string, n: DataNode)
    ensures Grown(nodes, GrowDir(nodes, p, ref, n), p)
    decreases n, 0
  {
    if n.listed && n.sub == [] {
      if IsLeafAttribute(nodes, p) {
        WithValueGrown(nodes, p, nodes[p + ["FC"]].value.s);
      }
    } else if n.listed {
      GrowAllGrown(nodes, p, ref, n.controllable, n.sub);
    }
  }

  lemma {:induction false} GrowAllGrown(nodes: Nodes, p: Path, ref: string, ctl: bool, entries: seq<DataNode>)
    ensures Grown(nodes, GrowAll(nodes, p, ref, ctl, entries), p)
    decreases entries, 2
  {
    if entries != [] {
      GrowNodeGrown(nodes, p, ref, ctl, entries[0]);
      GrowAllGrown(GrowNode(nodes, p, ref, ctl, entries[0]), p, ref, ctl, entries[1..]);
    }
  }

  // ---------------------------------------------------------------- the code

  method CreateDONode(tree: Tree, parent: Path, doRef: string, doName: string) returns (ok: bool)
    modifies tree
    ensures ok == (parent in old(tree.nodes) && parent + [doName] !in old(tree.nodes))
    ensures tree.nodes == if !ok then old(tree.nodes) else
      AddAll(Added(old(tree.nodes), parent, doName, Node(DataObject, NoValue)), parent + [doName], DoChildren(doRef))
  {
    ok := tree.AddChild(parent, doName, Node(DataObject, NoValue));
    if ok {
      AddChildren(tree, parent + [doName], DoChildren(doRef));
    }
  }

  method CreateDANode(tree: Tree, parent: Path, daRef: string, daNameFC: string, fc: string, mmsType: string)
    returns (ok: bool)
    modifies tree
    ensures ok == (parent in old(tree.nodes) && parent + [daNameFC] !in old(tree.nodes))
    ensures tree.nodes == if !ok then old(tree.nodes) else
      AddAll(Added(old(tree.nodes), parent, daNameFC, Node(DataAttribute, NoValue)), parent + [daNameFC],
             DaChildren(daRef, fc, mmsType))
  {
    ok := tree.AddChild(parent, daNameFC, Node(DataAttribute, NoValue));
    if ok {
      AddChildren(tree, parent + [daNameFC], DaChildren(daRef, fc, mmsType));
    }
  }

  method HandleControllableNode(tree: Tree, node: Path, doRef: string)
    requires node in tree.nodes
    modifies tree
    ensures tree.nodes == WithControl(old(tree.nodes), node, doRef)
  {
    var control, reference := ("control", Housekeep(NoValue)), ("Object", Housekeep(Text(doRef)));
    var added := tree.AddChild(node, control.0, control.1);
    if added {
      assert [control, reference][1..] == [reference];
      ghost var start := tree.nodes;
      var _ := tree.AddChild(node, reference.0, reference.1);
      assert AddAll(start, node, [reference]) == tree.nodes;
    }
  }

  method CreateValueNode(tree: Tree, p: Path, fc: string)
    modifies tree
    ensures tree.nodes == WithValue(old(tree.nodes), p, fc)
  {
    var _ := tree.AddChild(p, "Value", Housekeep(NoValue));
    if fc in WRITABLE_FCS {
      AddChildren(tree, p + ["Value"], [("readvalue", Housekeep(NoValue)), ("writevalue", Housekeep(NoValue))]);
    } else {
      AddChildren(tree, p + ["Value"], [("readvalue", Housekeep(NoValue))]);
    }
  }

  // The loop over the entries of a directory, with the recursion into each new node.
  method DiscoverEntries(tree: Tree, node: Path, doRef: string, ctl: bool, entries: seq<DataNode>)
    requires node in tree.nodes
    modifies tree
    ensures tree.nodes == GrowAll(old(tree.nodes), node, doRef, ctl, entries)
    decreases entries, 2
  {
    var i := 0;
    while i < |entries|
      invariant 0 <= i <= |entries| && node in tree.nodes
      invariant GrowAll(tree.nodes, node, doRef, ctl, entries[i..])
             == GrowAll(old(tree.nodes), node, doRef, ctl, entries)
    {
      assert entries[i..][1..] == entries[i + 1..];
      GrowNodeGrown(tree.nodes, node, doRef, ctl, entries[i]);
      DiscoverEntry(tree, node, doRef, ctl, entries[i]);
      i := i + 1;
    }
  }

  method DiscoverEntry(tree: Tree, node: Path, doRef: string, ctl: bool, n: DataNode)
    requires node in tree.nodes
    modifies tree
    ensures tree.nodes == GrowNode(old(tree.nodes), node, doRef, ctl, n)
    decreases n, 1
  {
    var daName := Base(n.entry);
    var daRef := doRef + "." + daName;
    WithEntryGrown(tree.nodes, node, daRef, n);
    WithNodeGrown(tree.nodes, node, doRef, ctl, n);
    var created: bool;
    if FcOf(n.entry).Some? {
      created := CreateDANode(tree, node, daRef, n.entry, FcOf(n.entry).value, n.mmsType);
    } else {
      created := CreateDONode(tree, node, daRef, daName);
    }
    if created {
      if daName == "Oper" && ctl {
        HandleControllableNode(tree, node, doRef);
      }
      DiscoverDataDirectory(tree, node + [Key(n)], daRef, n);
    }
  }

  // What the server lists for the node just created decides: a leaf gets its value node.
  method DiscoverDataDirectory(tree: Tree, node: Path, doRef: string, n: DataNode)
    requires node in tree.nodes
    modifies tree
    ensures tree.nodes == GrowDir(old(tree.nodes), node, doRef, n)
    decreases n, 0
  {
    if n.listed {
      if n.sub == [] {
        if IsLeafAttribute(tree.nodes, node) && n.hasSpec {
          CreateValueNode(tree, node, tree.nodes[node + ["FC"]].value.s);
        }
      } else {
        DiscoverEntries(tree, node, doRef, n.controllable, n.sub);
      }
    }
  }
}
