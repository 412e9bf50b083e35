// Discovery of a whole server, and the theorem that its references lead back to its nodes.
module ServerDiscovery {
  import opened Wrappers
  import Strings
  import opened NodeTree
  import opened References
  import opened Resolution
  import opened Discovery
  import opened DiscoveredTree
  import opened DiscoveredNames

  const DATASETS_KEY: string := "datasets"
  const DATASET_PREP_KEY: string := "dataset_prep"
  const URCB_FOLDER_KEY: string := "urcbfolder"
  const BRCB_FOLDER_KEY: string := "brcbfolder"
  const FOLDERS: set<string> := {DATASETS_KEY, DATASET_PREP_KEY, URCB_FOLDER_KEY, BRCB_FOLDER_KEY}

  // createDatasetReportNodes
  function WithFolders(nodes: Nodes, server: Path): Nodes {
    var folder := Node(Container, NoValue);
    var nodes := Added(nodes, server, DATASETS_KEY, folder);
    var nodes := Added(nodes, server, DATASET_PREP_KEY, folder);
    var nodes := Added(nodes, server + [DATASET_PREP_KEY], "desc",
                       Housekeep(Text("Preparation for datasets to be created in the server")));
    var nodes := Added(nodes, server, URCB_FOLDER_KEY, folder);
    Added(nodes, server, BRCB_FOLDER_KEY, folder)
  }

  function Discovered(nodes: Nodes, server: Path, lds: seq<LogicalDevice>): Nodes {
    GrowLds(WithFolders(nodes, server), server, lds)
  }

  predicate DistinctNames(lds: seq<LogicalDevice>) {
    && (forall i, j :: 0 <= i < j < |lds| ==> lds[i].name != lds[j].name)
    && forall d :: 0 <= d < |lds| ==> DistinctNodes(lds[d].logicalNodes)
  }

  predicate DistinctNodes(lns: seq<LogicalNode>) {
    forall i, j :: 0 <= i < j < |lns| ==> lns[i].name != lns[j].name
  }

  // The data objects of a logical node can all be created: plain names, each once, none of them taken by
  // the two children the logical node is given. Otherwise the code follows a null node.
  predicate Creatable(objects: seq<DataNode>) {
    && (forall i :: 0 <= i < |objects| ==>
          !HasFc(objects[i].entry) && objects[i].entry != "Reference" && objects[i].entry != "prepdataset")
    && forall i, j :: 0 <= i < j < |objects| ==> objects[i].entry != objects[j].entry
  }

  predicate AllCreatable(lns: seq<LogicalNode>) {
    DistinctNodes(lns) && forall i :: 0 <= i < |lns| ==> Creatable(lns[i].objects)
  }

  // The same for whole devices.
  predicate Followable(lds: seq<LogicalDevice>) {
    DistinctNames(lds) && forall i :: 0 <= i < |lds| ==> AllCreatable(lds[i].logicalNodes)
  }

  predicate LnOk(ln: LogicalNode) {
    && NameOk(ln.name) && WellNamed(ln.objects)
    && forall i :: 0 <= i < |ln.objects| ==> Coherent(ln.objects[i]) && !HasFc(ln.objects[i].entry)
  }

  predicate AllLnOk(lns: seq<LogicalNode>) {
    forall i :: 0 <= i < |lns| ==> LnOk(lns[i])
  }

  predicate LdOk(ld: LogicalDevice) {
    NameOk(ld.name) && AllLnOk(ld.logicalNodes)
  }

  predicate ModelOk(lds: seq<LogicalDevice>) {
    DistinctNames(lds) && forall i :: 0 <= i < |lds| ==> LdOk(lds[i])
  }

  // ---------------------------------------------------------------- the code

  method CreateDatasetReportNodes(tree: Tree, server: Path)
    modifies tree
    ensures tree.nodes == WithFolders(old(tree.nodes), server)
  {
    var folder := Node(Container, NoValue);
    var _ := tree.AddChild(server, DATASETS_KEY, folder);
    var _ := tree.AddChild(server, DATASET_PREP_KEY, folder);
    var _ := tree.AddChild(server + [DATASET_PREP_KEY], "desc",
                           Housekeep(Text("Preparation for datasets to be created in the server")));
    var _ := tree.AddChild(server, URCB_FOLDER_KEY, folder);
    var _ := tree.AddChild(server, BRCB_FOLDER_KEY, folder);
  }

  // A plain entry is its own base and key and names no constraint.
  lemma PlainEntry(n: DataNode)
    requires !HasFc(n.entry)
    ensures Base(n.entry) == n.entry && FcOf(n.entry).None? && Key(n) == n.entry
  {
    Strings.IndexOfAbsent(n.entry, '[');
  }

  // The loop over the data objects of a logical node.
  method DiscoverObjects(tree: Tree, p: Path, lnRef: string, objects: seq<DataNode>)
    requires p in tree.nodes && Creatable(objects)
    requires forall i :: 0 <= i < |objects| ==> p + [objects[i].entry] !in tree.nodes
    modifies tree
    ensures tree.nodes == GrowAll(old(tree.nodes), p, lnRef, false, objects)
  {
    var i := 0;
    while i < |objects|
      invariant 0 <= i <= |objects| && p in tree.nodes
      invariant forall j :: i <= j < |objects| ==> p + [objects[j].entry] !in tree.nodes
      invariant GrowAll(tree.nodes, p, lnRef, false, objects[i..]) == GrowAll(old(tree.nodes), p, lnRef, false, objects)
    {
      assert objects[i..][1..] == objects[i + 1..];
      ghost var before := tree.nodes;
      GrowNodeGrown(before, p, lnRef, false, objects[i]);
      DiscoverObject(tree, p, lnRef, objects[i]);
      forall j | i < j < |objects|
        ensures p + [objects[j].entry] !in tree.nodes
      {
        ObjectChild(before, p, lnRef, objects[i], objects[j].entry);
      }
      i := i + 1;
    }
  }

  method DiscoverObject(tree: Tree, p: Path, lnRef: string, n: DataNode)
    requires p in tree.nodes && !HasFc(n.entry) && p + [n.entry] !in tree.nodes
    modifies tree
    ensures tree.nodes == GrowNode(old(tree.nodes), p, lnRef, false, n)
  {
    PlainEntry(n);
    var doRef := lnRef + "." + n.entry;
    WithEntryGrown(tree.nodes, p, doRef, n);
    var _ := CreateDONode(tree, p, doRef, n.entry);
    DiscoverDataDirectory(tree, p + [n.entry], doRef, n);
  }

  // A data object adds its own key to the logical node, and no other.
  lemma ObjectChild(nodes: Nodes, p: Path, lnRef: string, n: DataNode, k: string)
    requires !HasFc(n.entry) && p + [k] !in nodes && k != n.entry
    ensures p + [k] !in GrowNode(nodes, p, lnRef, false, n)
  {
    PlainEntry(n);
    var q, ref := p + [n.entry], lnRef + "." + n.entry;
    var start := Added(nodes, p, n.entry, Node(DataObject, NoValue));
    var entry := WithEntry(nodes, p, ref, n);
    AddAllGrown(start, q, DoChildren(ref));
    GrowDirGrown(entry, q, ref, n);
    GrownChain(start, entry, GrowDir(entry, q, ref, n), q);
    if p + [k] in GrowDir(entry, q, ref, n) {
      DeepGrowth(start, GrowDir(entry, q, ref, n), p, n.entry, k);
      SameChild(p, k, p, n.entry);
    }
  }

  method DiscoverLogicalNode(tree: Tree, ld: Path, ldName: string, ln: LogicalNode)
    requires Closed(tree.nodes) && ld in tree.nodes && ld + [ln.name] !in tree.nodes && Creatable(ln.objects)
    modifies tree
    ensures tree.nodes == GrowLn(old(tree.nodes), ld, ldName, ln)
  {
    var p, lnRef := ld + [ln.name], ldName + "/" + ln.name;
    EmptyChild(tree.nodes, ld, ln.name);
    AddedFacts(tree.nodes, ld, ln.name, Node(Container, NoValue));
    var _ := tree.AddChild(ld, ln.name, Node(Container, NoValue));
    AddAllGrown(tree.nodes, p, LnChildren(lnRef));
    LnKeysOnly(tree.nodes, p, lnRef);
    AddChildren(tree, p, LnChildren(lnRef));
    DiscoverObjects(tree, p, lnRef, ln.objects);
  }

  lemma LnKeysOnly(nodes: Nodes, p: Path, ref: string)
    requires p in nodes && forall k :: p + [k] !in nodes
    ensures forall k :: p + [k] in AddAll(nodes, p, LnChildren(ref)) ==> k == "Reference" || k == "prepdataset"
  {
    var children := LnChildren(ref);
    AddAllChildren(nodes, p, children);
    forall k | p + [k] in AddAll(nodes, p, children)
      ensures k == "Reference" || k == "prepdataset"
    {
      var i :| 0 <= i < |children| && p + [k] == p + [children[i].0];
      SameChild(p, k, p, children[i].0);
    }
  }

  // The loop over the logical nodes of a device.
  method DiscoverLogicalNodes(tree: Tree, p: Path, ldName: string, lns: seq<LogicalNode>)
    requires Closed(tree.nodes) && p in tree.nodes && AllCreatable(lns)
    requires forall i :: 0 <= i < |lns| ==> p + [lns[i].name] !in tree.nodes
    modifies tree
    ensures tree.nodes == GrowLns(old(tree.nodes), p, ldName, lns)
  {
    var i := 0;
    while i < |lns|
      invariant 0 <= i <= |lns| && Closed(tree.nodes) && p in tree.nodes
      invariant forall j :: i <= j < |lns| ==> p + [lns[j].name] !in tree.nodes
      invariant GrowLns(tree.nodes, p, ldName, lns[i..]) == GrowLns(old(tree.nodes), p, ldName, lns)
    {
      assert lns[i..][1..] == lns[i + 1..];
      ghost var before := tree.nodes;
      GrowLnGrown(before, p, ldName, lns[i]);
      DiscoverLogicalNode(tree, p, ldName, lns[i]);
      forall j | i < j < |lns|
        ensures p + [lns[j].name] !in tree.nodes
      {
        NodeChild(before, p, ldName, lns[i], lns[j].name);
      }
      i := i + 1;
    }
  }

  method DiscoverLogicalDevice(tree: Tree, server: Path, ld: LogicalDevice)
    requires Closed(tree.nodes) && server in tree.nodes && server + [LD_KEY_INIT + ld.name] !in tree.nodes
    requires AllCreatable(ld.logicalNodes)
    modifies tree
    ensures tree.nodes == GrowLd(old(tree.nodes), server, ld)
  {
    var key := LD_KEY_INIT + ld.name;
    EmptyChild(tree.nodes, server, key);
    AddedFacts(tree.nodes, server, key, Node(Container, NoValue));
    var _ := tree.AddChild(server, key, Node(Container, NoValue));
    DiscoverLogicalNodes(tree, server + [key], ld.name, ld.logicalNodes);
  }

  lemma OtherDevice(nodes: Nodes, server: Path, ld: LogicalDevice, name: string)
    requires server in nodes && name != ld.name && server + [LD_KEY_INIT + name] !in nodes
    ensures server + [LD_KEY_INIT + name] !in GrowLd(nodes, server, ld)
  {
    SuffixDiffers(LD_KEY_INIT, ld.name, name);
    DeviceChild(nodes, server, ld, LD_KEY_INIT + name);
  }

  // None of the devices has a node yet.
  predicate NoDevices(nodes: Nodes, server: Path, lds: seq<LogicalDevice>) {
    forall i :: 0 <= i < |lds| ==> server + [LD_KEY_INIT + lds[i].name] !in nodes
  }

  lemma NextDevices(nodes: Nodes, server: Path, lds: seq<LogicalDevice>)
    requires lds != [] && server in nodes && DistinctNames(lds) && NoDevices(nodes, server, lds)
    ensures NoDevices(GrowLd(nodes, server, lds[0]), server, lds[1..])
  {
    forall i | 0 <= i < |lds[1..]|
      ensures server + [LD_KEY_INIT + lds[1..][i].name] !in GrowLd(nodes, server, lds[0])
    {
      OtherDevice(nodes, server, lds[0], lds[i + 1].name);
    }
  }

  lemma FollowableTail(lds: seq<LogicalDevice>, i: nat)
    requires Followable(lds) && i <= |lds|
    ensures Followable(lds[i..])
  {
    var rest := lds[i..];
    assert forall j :: 0 <= j < |rest| ==> rest[j] == lds[i + j];
  }

  // The loop over the devices.
  method DiscoverLogicalDevices(tree: Tree, server: Path, lds: seq<LogicalDevice>)
    requires Closed(tree.nodes) && server in tree.nodes && Followable(lds) && NoDevices(tree.nodes, server, lds)
    modifies tree
    ensures tree.nodes == GrowLds(old(tree.nodes), server, lds)
  {
    var i := 0;
    assert lds[0..] == lds;
    while i < |lds|
      invariant 0 <= i <= |lds| && Closed(tree.nodes) && server in tree.nodes
      invariant NoDevices(tree.nodes, server, lds[i..])
      invariant GrowLds(tree.nodes, server, lds[i..]) == GrowLds(old(tree.nodes), server, lds)
    {
      assert lds[i..][0] == lds[i] && lds[i..][1..] == lds[i + 1..];
      FollowableTail(lds, i);
      GrowLdGrown(tree.nodes, server, lds[i]);
      NextDevices(tree.nodes, server, lds[i..]);
      assert server + [LD_KEY_INIT + lds[i..][0].name] !in tree.nodes;
      DiscoverLogicalDevice(tree, server, lds[i]);
      i := i + 1;
    }
  }

  // discover61850Server on a server without devices.
  method Discover61850Server(tree: Tree, server: Path, lds: seq<LogicalDevice>)
    requires Closed(tree.nodes) && server in tree.nodes && Followable(lds) && NoDevices(tree.nodes, server, lds)
    modifies tree
    ensures tree.nodes == Discovered(old(tree.nodes), server, lds)
  {
    FoldersGrown(tree.nodes, server);
    StillNoDevices(tree.nodes, server, lds);
    CreateDatasetReportNodes(tree, server);
    DiscoverLogicalDevices(tree, server, lds);
  }

  lemma StillNoDevices(nodes: Nodes, server: Path, lds: seq<LogicalDevice>)
    requires NoDevices(nodes, server, lds)
    ensures NoDevices(WithFolders(nodes, server), server, lds)
  {
    forall i | 0 <= i < |lds|
      ensures server + [LD_KEY_INIT + lds[i].name] !in WithFolders(nodes, server)
    {
      FoldersAreNoDevices(nodes, server, lds[i].name);
    }
  }

  // ---------------------------------------------------------------- growth

  lemma FoldersGrown(nodes: Nodes, server: Path)
    ensures Grown(nodes, WithFolders(nodes, server), server)
  {
    var folder := Node(Container, NoValue);
    var a := Added(nodes, server, DATASETS_KEY, folder);
    var b := Added(a, server, DATASET_PREP_KEY, folder);
    var desc := Housekeep(Text("Preparation for datasets to be created in the server"));
    var c := Added(b, server + [DATASET_PREP_KEY], "desc", desc);
    var d := Added(c, server, URCB_FOLDER_KEY, folder);
    AddedFacts(nodes, server, DATASETS_KEY, folder);
    AddedFacts(a, server, DATASET_PREP_KEY, folder);
    AddedFacts(b, server + [DATASET_PREP_KEY], "desc", desc);
    GrownChild(b, c, server, DATASET_PREP_KEY);
    AddedFacts(c, server, URCB_FOLDER_KEY, folder);
    AddedFacts(d, server, BRCB_FOLDER_KEY, folder);
  }

  lemma GrowLnGrown(nodes: Nodes, ld: Path, ldName: string, ln: LogicalNode)
    ensures Grown(nodes, GrowLn(nodes, ld, ldName, ln), ld)
  {
    var p, ref := ld + [ln.name], ldName + "/" + ln.name;
    var start := Added(nodes, ld, ln.name, Node(Container, NoValue));
    var house := AddAll(start, p, LnChildren(ref));
    AddedFacts(nodes, ld, ln.name, Node(Container, NoValue));
    AddAllGrown(start, p, LnChildren(ref));
    GrowAllGrown(house, p, ref, false, ln.objects);
    GrownChain(start, house, GrowLn(nodes, ld, ldName, ln), p);
    GrownChild(start, GrowLn(nodes, ld, ldName, ln), ld, ln.name);
  }

  lemma {:induction false} GrowLnsGrown(nodes: Nodes, ld: Path, ldName: string, lns: seq<LogicalNode>)
    ensures Grown(nodes, GrowLns(nodes, ld, ldName, lns), ld)
    decreases |lns|
  {
    if lns != [] {
      GrowLnGrown(nodes, ld, ldName, lns[0]);
      GrowLnsGrown(GrowLn(nodes, ld, ldName, lns[0]), ld, ldName, lns[1..]);
    }
  }

  lemma GrowLdGrown(nodes: Nodes, server: Path, ld: LogicalDevice)
    ensures Grown(nodes, GrowLd(nodes, server, ld), server)
  {
    var start := Added(nodes, server, LD_KEY_INIT + ld.name, Node(Container, NoValue));
    AddedFacts(nodes, server, LD_KEY_INIT + ld.name, Node(Container, NoValue));
    GrowLnsGrown(start, server + [LD_KEY_INIT + ld.name], ld.name, ld.logicalNodes);
    GrownChild(start, GrowLd(nodes, server, ld), server, LD_KEY_INIT + ld.name);
  }

  // ---------------------------------------------------------------- order of the whole tree

  // A tree whose stored references are right and where nothing shadows anything.
  ghost predicate InOrder(nodes: Nodes) {
    Inv(nodes) && Sep(nodes)
  }

  // No child of a node carries a constraint.
  ghost predicate PlainChildren(nodes: Nodes, at: Path) {
    forall k :: at + [k] in nodes ==> !HasFc(k)
  }

  lemma ContainerSep(nodes: Nodes, p: Path, key: string)
    requires Sep(nodes) && PlainChildren(nodes, p) && !HasFc(key)
    ensures var after := Added(nodes, p, key, Node(Container, NoValue));
            Sep(after) && PlainChildren(after, p)
  {
    var after := Added(nodes, p, key, Node(Container, NoValue));
    if p in nodes && p + [key] !in nodes {
      SepAdded(nodes, p, key, Node(Container, NoValue));
    }
    forall k | p + [k] in after
      ensures !HasFc(k)
    {
      if p + [k] !in nodes {
        SameChild(p, k, p, key);
      }
    }
  }

  lemma ContainerAdded(nodes: Nodes, p: Path, key: string)
    requires InOrder(nodes) && PlainChildren(nodes, p) && !HasFc(key)
    ensures var after := Added(nodes, p, key, Node(Container, NoValue));
            InOrder(after) && PlainChildren(after, p)
  {
    InertAdded(nodes, p, key, Node(Container, NoValue));
    ContainerSep(nodes, p, key);
  }

  // The children of a path change only by nodes that are grown directly below it.
  lemma DeepGrowth(a: Nodes, b: Nodes, at: Path, key: string, k: string)
    requires GrownBelow(a, b, at + [key]) && at + [k] in b
    ensures at + [k] in a
  {
    assert |at + [key]| == |at + [k]|;
  }

  // A child and what is grown below it add one key to a node.
  lemma OneChild(nodes: Nodes, start: Nodes, after: Nodes, at: Path, key: string)
    requires start == Added(nodes, at, key, Node(Container, NoValue))
    requires GrownBelow(start, after, at + [key]) && PlainChildren(start, at)
    ensures PlainChildren(after, at)
    ensures forall k :: at + [k] in after && at + [k] !in nodes ==> k == key
  {
    forall k | at + [k] in after
      ensures at + [k] in start
    {
      DeepGrowth(start, after, at, key, k);
    }
    forall k | at + [k] in start && at + [k] !in nodes
      ensures k == key
    {
      SameChild(at, k, at, key);
    }
  }

  // A logical node adds its own key to its device, and a device to its server, whatever is below them.
  lemma NodeChild(nodes: Nodes, ld: Path, ldName: string, ln: LogicalNode, k: string)
    requires ld in nodes
    ensures ld + [k] in GrowLn(nodes, ld, ldName, ln) <==> ld + [k] in nodes || k == ln.name
  {
    var p, ref := ld + [ln.name], ldName + "/" + ln.name;
    var start := Added(nodes, ld, ln.name, Node(Container, NoValue));
    var house, after := AddAll(start, p, LnChildren(ref)), GrowLn(nodes, ld, ldName, ln);
    AddAllGrown(start, p, LnChildren(ref));
    GrowAllGrown(house, p, ref, false, ln.objects);
    GrownChain(start, house, after, p);
    AddedChild(nodes, start, after, ld, ln.name, k);
  }

  lemma DeviceChild(nodes: Nodes, server: Path, ld: LogicalDevice, k: string)
    requires server in nodes
    ensures server + [k] in GrowLd(nodes, server, ld) <==> server + [k] in nodes || k == LD_KEY_INIT + ld.name
  {
    var key := LD_KEY_INIT + ld.name;
    var start := Added(nodes, server, key, Node(Container, NoValue));
    GrowLnsGrown(start, server + [key], ld.name, ld.logicalNodes);
    AddedChild(nodes, start, GrowLd(nodes, server, ld), server, key, k);
  }

  lemma AddedChild(nodes: Nodes, start: Nodes, after: Nodes, at: Path, key: string, k: string)
    requires at in nodes && start == Added(nodes, at, key, Node(Container, NoValue)) && Grown(start, after, at + [key])
    ensures at + [k] in after <==> at + [k] in nodes || k == key
  {
    if at + [k] in after {
      DeepGrowth(start, after, at, key, k);
      if at + [k] !in nodes {
        SameChild(at, k, at, key);
      }
    }
  }

  // A node just added has no children.
  lemma EmptyChild(nodes: Nodes, at: Path, key: string)
    requires Closed(nodes) && at in nodes && at + [key] !in nodes
    ensures at + [key] in Added(nodes, at, key, Node(Container, NoValue))
    ensures forall k :: at + [key] + [k] !in Added(nodes, at, key, Node(Container, NoValue))
  {
    NoChildren(nodes, at + [key]);
    forall k
      ensures |at + [key] + [k]| != |at + [key]|
    {
    }
  }

  ghost predicate LnBuilt(nodes: Nodes, ld: Path, ln: LogicalNode) {
    ld + [ln.name] in nodes && AllBuilt(nodes, ld + [ln.name], ln.objects)
  }

  // The path of a logical device of a given name.
  predicate DevicePath(ld: Path, ldName: string) {
    |ld| == 2 && LD_KEY_INIT <= ld[1] && ld[1][4..] == ldName && NameOk(ldName)
  }

  lemma Prefixed(init: string, name: string)
    ensures init <= init + name && (init + name)[|init|..] == name
  {
  }

  lemma LnPath(ld: Path, ldName: string, name: string)
    requires DevicePath(ld, ldName) && NameOk(name)
    ensures DataPath(ld + [name], None) && RefOf(ld + [name]) == ldName + "/" + name
  {
  }

  lemma LnHouse(nodes: Nodes, ld: Path, name: string, children: seq<(string, Node)>)
    requires Inv(nodes) && ld in nodes && AllHousekeeping(children)
    ensures var house := AddAll(Added(nodes, ld, name, Node(Container, NoValue)), ld + [name], children);
            Inv(house) && ld + [name] in house
  {
    var start := Added(nodes, ld, name, Node(Container, NoValue));
    InertAdded(nodes, ld, name, Node(Container, NoValue));
    AddedFacts(nodes, ld, name, Node(Container, NoValue));
    HouseInv(start, ld + [name], children);
    AddAllGrown(start, ld + [name], children);
  }

  lemma LnChildrenInert(ref: string)
    ensures AllHousekeeping(LnChildren(ref))
  {
  }

  lemma LnInv(nodes: Nodes, ld: Path, ldName: string, ln: LogicalNode)
    requires Inv(nodes) && ld in nodes && DevicePath(ld, ldName) && NameOk(ln.name)
    requires forall i :: 0 <= i < |ln.objects| ==> Coherent(ln.objects[i])
    ensures Inv(GrowLn(nodes, ld, ldName, ln))
  {
    var p, ref := ld + [ln.name], ldName + "/" + ln.name;
    var start := Added(nodes, ld, ln.name, Node(Container, NoValue));
    LnChildrenInert(ref);
    LnHouse(nodes, ld, ln.name, LnChildren(ref));
    LnPath(ld, ldName, ln.name);
    GrowAllInv(AddAll(start, p, LnChildren(ref)), p, None, false, ln.objects);
  }

  lemma LnNamed(nodes: Nodes, ld: Path, ldName: string, ln: LogicalNode)
    requires Closed(nodes) && Sep(nodes) && PlainChildren(nodes, ld) && ld in nodes && ld + [ln.name] !in nodes
    requires LnOk(ln)
    ensures var after := GrowLn(nodes, ld, ldName, ln);
            Sep(after) && LnBuilt(after, ld, ln)
  {
    var p, ref := ld + [ln.name], ldName + "/" + ln.name;
    var start := Added(nodes, ld, ln.name, Node(Container, NoValue));
    var house := AddAll(start, p, LnChildren(ref));
    ContainerSep(nodes, ld, ln.name);
    AddedFacts(nodes, ld, ln.name, Node(Container, NoValue));
    ChildrenAreHouse(ref, "", "");
    HouseSep(start, p, LnChildren(ref));
    AddAllGrown(start, p, LnChildren(ref));
    forall i | 0 <= i < |ln.objects|
      ensures Room(house, p, ln.objects[i])
    {
      LnRoom(nodes, ld, ln, ref, ln.objects[i]);
    }
    GrowAllNamed(house, p, ref, false, ln.objects);
    GrowAllGrown(house, p, ref, false, ln.objects);
  }

  lemma LnChild(nodes: Nodes, ld: Path, ldName: string, ln: LogicalNode)
    requires Sep(nodes) && PlainChildren(nodes, ld) && LnOk(ln)
    ensures var after := GrowLn(nodes, ld, ldName, ln);
            PlainChildren(after, ld) && forall k :: ld + [k] in after && ld + [k] !in nodes ==> k == ln.name
  {
    var p, ref := ld + [ln.name], ldName + "/" + ln.name;
    var start := Added(nodes, ld, ln.name, Node(Container, NoValue));
    var house := AddAll(start, p, LnChildren(ref));
    ContainerSep(nodes, ld, ln.name);
    AddAllGrown(start, p, LnChildren(ref));
    GrowAllGrown(house, p, ref, false, ln.objects);
    GrownChain(start, house, GrowLn(nodes, ld, ldName, ln), p);
    OneChild(nodes, start, GrowLn(nodes, ld, ldName, ln), ld, ln.name);
  }

  lemma GrowLnOk(nodes: Nodes, ld: Path, ldName: string, ln: LogicalNode)
    requires InOrder(nodes) && PlainChildren(nodes, ld) && ld in nodes && ld + [ln.name] !in nodes
    requires DevicePath(ld, ldName) && LnOk(ln)
    ensures var after := GrowLn(nodes, ld, ldName, ln);
            && InOrder(after) && PlainChildren(after, ld) && LnBuilt(after, ld, ln)
            && forall k :: ld + [k] in after && ld + [k] !in nodes ==> k == ln.name
  {
    LnInv(nodes, ld, ldName, ln);
    LnNamed(nodes, ld, ldName, ln);
    LnChild(nodes, ld, ldName, ln);
  }

  lemma LnRoom(nodes: Nodes, ld: Path, ln: LogicalNode, ref: string, m: DataNode)
    requires Closed(nodes) && ld + [ln.name] !in nodes && Coherent(m) && Base(m.entry) !in HOUSE
    ensures Room(AddAll(Added(nodes, ld, ln.name, Node(Container, NoValue)), ld + [ln.name], LnChildren(ref)),
                 ld + [ln.name], m)
  {
    var p := ld + [ln.name];
    var start := Added(nodes, ld, ln.name, Node(Container, NoValue));
    NoChildren(nodes, p);
    KeyFacts(m);
    ChildrenAreHouse(ref, "", "");
    forall k | p + [k] in AddAll(start, p, LnChildren(ref))
      ensures k != Key(m) && !Clash(k, Key(m))
    {
      assert |p + [k]| != |p|;
      assert p + [k] !in start;
      AddAllKeys(start, p, LnChildren(ref), p + [k]);
      var h :| h in HOUSE && p + [k] == p + [h];
      SameChild(p, k, p, h);
      HouseIsPlain(k);
    }
  }

  ghost predicate LnsBuilt(nodes: Nodes, ld: Path, lns: seq<LogicalNode>) {
    forall i :: 0 <= i < |lns| ==> LnBuilt(nodes, ld, lns[i])
  }

  ghost predicate LdBuilt(nodes: Nodes, server: Path, ld: LogicalDevice) {
    LnsBuilt(nodes, server + [LD_KEY_INIT + ld.name], ld.logicalNodes)
  }

  lemma LnBuiltKept(a: Nodes, b: Nodes, ld: Path, ln: LogicalNode)
    requires LnBuilt(a, ld, ln) && Kept(a, b)
    ensures LnBuilt(b, ld, ln)
  {
    AllBuiltKept(a, b, ld + [ln.name], ln.objects);
  }

  // The logical nodes still to be added have names of their own.
  ghost predicate LnsReady(nodes: Nodes, ld: Path, lns: seq<LogicalNode>) {
    && AllLnOk(lns) && DistinctNodes(lns)
    && forall i :: 0 <= i < |lns| ==> ld + [lns[i].name] !in nodes
  }

  lemma LnsReadyTail(nodes: Nodes, next: Nodes, ld: Path, lns: seq<LogicalNode>)
    requires lns != [] && LnsReady(nodes, ld, lns)
    requires forall k :: ld + [k] in next && ld + [k] !in nodes ==> k == lns[0].name
    ensures LnsReady(next, ld, lns[1..])
  {
    var rest := lns[1..];
    assert forall i :: 0 <= i < |rest| ==> rest[i] == lns[i + 1];
  }

  lemma LnsBuiltCons(a: Nodes, b: Nodes, ld: Path, lns: seq<LogicalNode>)
    requires lns != [] && LnBuilt(a, ld, lns[0]) && Kept(a, b) && LnsBuilt(b, ld, lns[1..])
    ensures LnsBuilt(b, ld, lns)
  {
    LnBuiltKept(a, b, ld, lns[0]);
    assert forall i :: 0 < i < |lns| ==> lns[i] == lns[1..][i - 1];
  }

  lemma {:induction false} GrowLnsOk(nodes: Nodes, ld: Path, ldName: string, lns: seq<LogicalNode>)
    requires InOrder(nodes) && PlainChildren(nodes, ld) && ld in nodes && LnsReady(nodes, ld, lns)
    requires DevicePath(ld, ldName)
    ensures InOrder(GrowLns(nodes, ld, ldName, lns)) && LnsBuilt(GrowLns(nodes, ld, ldName, lns), ld, lns)
    decreases |lns|
  {
    if lns != [] {
      var next := GrowLn(nodes, ld, ldName, lns[0]);
      GrowLnOk(nodes, ld, ldName, lns[0]);
      GrowLnGrown(nodes, ld, ldName, lns[0]);
      LnsReadyTail(nodes, next, ld, lns);
      GrowLnsOk(next, ld, ldName, lns[1..]);
      GrowLnsGrown(next, ld, ldName, lns[1..]);
      LnsBuiltCons(next, GrowLns(next, ld, ldName, lns[1..]), ld, lns);
    }
  }

  lemma DeviceKey(server: Path, name: string)
    requires NameOk(name) && |server| == 1
    ensures !HasFc(LD_KEY_INIT + name) && DevicePath(server + [LD_KEY_INIT + name], name)
  {
    Prefixed(LD_KEY_INIT, name);
  }

  lemma DeviceStart(nodes: Nodes, server: Path, key: string)
    requires InOrder(nodes) && PlainChildren(nodes, server) && server in nodes && server + [key] !in nodes
    requires !HasFc(key)
    ensures var start, p := Added(nodes, server, key, Node(Container, NoValue)), server + [key];
            && InOrder(start) && PlainChildren(start, server)
            && p in start && PlainChildren(start, p) && forall k :: p + [k] !in start
  {
    ContainerAdded(nodes, server, key);
    EmptyChild(nodes, server, key);
  }

  lemma AllReady(nodes: Nodes, ld: Path, lns: seq<LogicalNode>)
    requires AllLnOk(lns) && DistinctNodes(lns) && forall k :: ld + [k] !in nodes
    ensures LnsReady(nodes, ld, lns)
  {
  }

  lemma GrowLdOk(nodes: Nodes, server: Path, ld: LogicalDevice)
    requires InOrder(nodes) && PlainChildren(nodes, server) && server in nodes && |server| == 1
    requires server + [LD_KEY_INIT + ld.name] !in nodes && LdOk(ld) && DistinctNodes(ld.logicalNodes)
    ensures var after := GrowLd(nodes, server, ld);
            && InOrder(after) && PlainChildren(after, server) && LdBuilt(after, server, ld)
            && forall k :: server + [k] in after && server + [k] !in nodes ==> k == LD_KEY_INIT + ld.name
  {
    DeviceKey(server, ld.name);
    DeviceOk(nodes, server, LD_KEY_INIT + ld.name, ld.name, ld.logicalNodes);
  }

  lemma DeviceOk(nodes: Nodes, server: Path, key: string, name: string, lns: seq<LogicalNode>)
    requires InOrder(nodes) && PlainChildren(nodes, server) && server in nodes
    requires DevicePath(server + [key], name) && !HasFc(key)
    requires server + [key] !in nodes && DistinctNodes(lns) && AllLnOk(lns)
    ensures var after := GrowLns(Added(nodes, server, key, Node(Container, NoValue)), server + [key], name, lns);
            && InOrder(after) && PlainChildren(after, server) && LnsBuilt(after, server + [key], lns)
            && forall k :: server + [k] in after && server + [k] !in nodes ==> k == key
  {
    var start, p := Added(nodes, server, key, Node(Container, NoValue)), server + [key];
    DeviceStart(nodes, server, key);
    AllReady(start, p, lns);
    GrowLnsOk(start, p, name, lns);
    GrowLnsGrown(start, p, name, lns);
    OneChild(nodes, start, GrowLns(start, p, name, lns), server, key);
  }

  ghost predicate LdsReady(nodes: Nodes, server: Path, lds: seq<LogicalDevice>) {
    && (forall i :: 0 <= i < |lds| ==> LdOk(lds[i]) && server + [LD_KEY_INIT + lds[i].name] !in nodes)
    && DistinctNames(lds)
  }

  lemma LdsReadyTail(nodes: Nodes, next: Nodes, server: Path, lds: seq<LogicalDevice>)
    requires lds != [] && LdsReady(nodes, server, lds)
    requires forall k :: server + [k] in next && server + [k] !in nodes ==> k == LD_KEY_INIT + lds[0].name
    ensures LdsReady(next, server, lds[1..])
  {
    var rest := lds[1..];
    assert forall i :: 0 <= i < |rest| ==> rest[i] == lds[i + 1];
    forall i | 0 <= i < |rest|
      ensures server + [LD_KEY_INIT + rest[i].name] !in next
    {
      SuffixDiffers(LD_KEY_INIT, rest[i].name, lds[0].name);
    }
  }

  ghost predicate LdsBuilt(nodes: Nodes, server: Path, lds: seq<LogicalDevice>) {
    forall i :: 0 <= i < |lds| ==> LdBuilt(nodes, server, lds[i])
  }

  lemma LdsBuiltCons(a: Nodes, b: Nodes, server: Path, lds: seq<LogicalDevice>)
    requires lds != [] && LdBuilt(a, server, lds[0]) && Kept(a, b) && LdsBuilt(b, server, lds[1..])
    ensures LdsBuilt(b, server, lds)
  {
    forall i | 0 <= i < |lds[0].logicalNodes|
      ensures LnBuilt(b, server + [LD_KEY_INIT + lds[0].name], lds[0].logicalNodes[i])
    {
      LnBuiltKept(a, b, server + [LD_KEY_INIT + lds[0].name], lds[0].logicalNodes[i]);
    }
    assert forall i :: 0 < i < |lds| ==> lds[i] == lds[1..][i - 1];
  }

  lemma {:induction false} GrowLdsGrown(nodes: Nodes, server: Path, lds: seq<LogicalDevice>)
    ensures Grown(nodes, GrowLds(nodes, server, lds), server)
    decreases |lds|
  {
    if lds != [] {
      GrowLdGrown(nodes, server, lds[0]);
      GrowLdsGrown(GrowLd(nodes, server, lds[0]), server, lds[1..]);
    }
  }

  lemma {:induction false} GrowLdsOk(nodes: Nodes, server: Path, lds: seq<LogicalDevice>)
    requires InOrder(nodes) && PlainChildren(nodes, server) && server in nodes && |server| == 1
    requires LdsReady(nodes, server, lds)
    ensures InOrder(GrowLds(nodes, server, lds)) && LdsBuilt(GrowLds(nodes, server, lds), server, lds)
    decreases |lds|
  {
    if lds != [] {
      var next := GrowLd(nodes, server, lds[0]);
      GrowLdOk(nodes, server, lds[0]);
      GrowLdGrown(nodes, server, lds[0]);
      LdsReadyTail(nodes, next, server, lds);
      GrowLdsOk(next, server, lds[1..]);
      GrowLdsGrown(next, server, lds[1..]);
      LdsBuiltCons(next, GrowLds(next, server, lds[1..]), server, lds);
    }
  }

  lemma SuffixDiffers(init: string, a: string, b: string)
    requires a != b
    ensures init + a != init + b
  {
    assert (init + a)[|init|..] == a && (init + b)[|init|..] == b;
  }

  // ---------------------------------------------------------------- main results

  // The member reference that a data attribute node's own children spell: Object[FC].
  function MemberRef(nodes: Nodes, p: Path): string
    requires p + ["Object"] in nodes && nodes[p + ["Object"]].value.Text?
    requires p + ["FC"] in nodes && nodes[p + ["FC"]].value.Text?
  {
    WithFc(nodes[p + ["Object"]].value.s, nodes[p + ["FC"]].value.s)
  }

  lemma SepAt(nodes: Nodes, parent: Path, key: string)
    requires Sep(nodes) && parent + [key] in nodes && HasFc(key)
    ensures parent + [Base(key)] !in nodes
  {
  }

  lemma SepNoShadow(nodes: Nodes, p: Path)
    requires Sep(nodes) && Closed(nodes) && p in nodes
    ensures NoShadow(nodes, p, 3)
  {
    forall i | 3 <= i < |p| && HasFc(p[i])
      ensures p[..i] + [Base(p[i])] !in nodes
    {
      var parent, key := p[..i], p[i];
      PrefixIn(nodes, p, i + 1);
      assert p[..i + 1] == parent + [key];
      SepAt(nodes, parent, key);
    }
  }

  // A data attribute whose stored reference leads from node back to it.
  ghost predicate LeadsBack(nodes: Nodes, p: Path, node: Path)
    requires node != []
  {
    AttributeOk(nodes, p) && Resolve(nodes, node, MemberRef(nodes, p)) == Some(p)
  }

  // In a tree in order, the reference stored at a data attribute leads from any node of the
  // same server back to that attribute.
  lemma StoredReferenceResolves(nodes: Nodes, p: Path, node: Path)
    requires InOrder(nodes) && p in nodes && nodes[p].kind == DataAttribute && p != []
    requires SERVER_KEY_INIT <= p[0] && node != [] && node[0] == p[0]
    ensures LeadsBack(nodes, p, node)
  {
    assert AttributeOk(nodes, p);
    SepNoShadow(nodes, p);
    ResolveIffUnshadowed(nodes, node, p, nodes[p + ["FC"]].value.s);
  }

  lemma DescAdded(nodes: Nodes, p: Path, key: string, desc: Node)
    requires InOrder(nodes) && p in nodes && desc.kind == Housekeeping && !HasFc(key) && forall k :: p + [k] !in nodes
    ensures InOrder(Added(nodes, p, key, desc))
  {
    InertAdded(nodes, p, key, desc);
    SepAdded(nodes, p, key, desc);
  }

  // No folder is mistaken for a logical device.
  lemma NotADevice(server: Path, key: string, name: string)
    requires key != [] && key[0] != 'l'
    ensures server + [key] != server + [LD_KEY_INIT + name]
  {
    assert (LD_KEY_INIT + name)[0] == 'l';
    assert (server + [key])[|server|] == key && (server + [LD_KEY_INIT + name])[|server|] == LD_KEY_INIT + name;
  }

  lemma FolderAdded(nodes: Nodes, server: Path, key: string, name: string)
    requires key != [] && key[0] != 'l'
    ensures server + [LD_KEY_INIT + name] in Added(nodes, server, key, Node(Container, NoValue)) <==>
            server + [LD_KEY_INIT + name] in nodes
  {
    NotADevice(server, key, name);
  }

  lemma PlainBelow(nodes: Nodes, server: Path, key: string, below: string, node: Node)
    requires PlainChildren(nodes, server)
    ensures PlainChildren(Added(nodes, server + [key], below, node), server)
    ensures forall k :: server + [k] in Added(nodes, server + [key], below, node) ==> server + [k] in nodes
  {
    forall k | server + [k] in Added(nodes, server + [key], below, node)
      ensures server + [k] in nodes
    {
      assert |server + [k]| != |server + [key] + [below]|;
    }
  }

  lemma FoldersInOrder(nodes: Nodes, server: Path)
    requires InOrder(nodes) && PlainChildren(nodes, server) && server in nodes && |server| == 1
    requires server + [DATASET_PREP_KEY] !in nodes
    ensures var after := WithFolders(nodes, server);
            InOrder(after) && PlainChildren(after, server) && server in after
  {
    var folder, prep := Node(Container, NoValue), server + [DATASET_PREP_KEY];
    var a := Added(nodes, server, DATASETS_KEY, folder);
    var b := Added(a, server, DATASET_PREP_KEY, folder);
    var desc := Housekeep(Text("Preparation for datasets to be created in the server"));
    var c := Added(b, prep, "desc", desc);
    FolderKeysPlain();
    TwoContainers(nodes, server, DATASETS_KEY, DATASET_PREP_KEY);
    PrepIsEmpty(nodes, server);
    DescAdded(b, prep, "desc", desc);
    PlainBelow(b, server, DATASET_PREP_KEY, "desc", desc);
    TwoContainers(c, server, URCB_FOLDER_KEY, BRCB_FOLDER_KEY);
    FoldersGrown(nodes, server);
  }

  lemma FolderKeysPlain()
    ensures !HasFc(DATASETS_KEY) && !HasFc(DATASET_PREP_KEY) && !HasFc(URCB_FOLDER_KEY) && !HasFc(BRCB_FOLDER_KEY)
    ensures !HasFc("desc")
  {
  }

  lemma TwoContainers(nodes: Nodes, p: Path, key1: string, key2: string)
    requires InOrder(nodes) && PlainChildren(nodes, p) && !HasFc(key1) && !HasFc(key2)
    ensures var after := Added(Added(nodes, p, key1, Node(Container, NoValue)), p, key2, Node(Container, NoValue));
            InOrder(after) && PlainChildren(after, p)
  {
    ContainerAdded(nodes, p, key1);
    ContainerAdded(Added(nodes, p, key1, Node(Container, NoValue)), p, key2);
  }

  lemma PrepIsEmpty(nodes: Nodes, server: Path)
    requires Closed(nodes) && server in nodes && server + [DATASET_PREP_KEY] !in nodes
    ensures var prep := server + [DATASET_PREP_KEY];
            var b := Added(Added(nodes, server, DATASETS_KEY, Node(Container, NoValue)), server, DATASET_PREP_KEY,
                           Node(Container, NoValue));
            prep in b && forall k :: prep + [k] !in b
  {
    var prep := server + [DATASET_PREP_KEY];
    NoChildren(nodes, prep);
    forall k
      ensures |prep + [k]| == |server| + 2
    {
    }
  }

  lemma FoldersAreNoDevices(nodes: Nodes, server: Path, name: string)
    ensures server + [LD_KEY_INIT + name] in WithFolders(nodes, server) <==> server + [LD_KEY_INIT + name] in nodes
  {
    var folder, prep := Node(Container, NoValue), server + [DATASET_PREP_KEY];
    var a := Added(nodes, server, DATASETS_KEY, folder);
    var b := Added(a, server, DATASET_PREP_KEY, folder);
    var c := Added(b, prep, "desc", Housekeep(Text("Preparation for datasets to be created in the server")));
    FolderAdded(nodes, server, DATASETS_KEY, name);
    FolderAdded(a, server, DATASET_PREP_KEY, name);
    assert |server + [LD_KEY_INIT + name]| != |prep + ["desc"]|;
    FolderAdded(c, server, URCB_FOLDER_KEY, name);
    FolderAdded(Added(c, server, URCB_FOLDER_KEY, folder), server, BRCB_FOLDER_KEY, name);
  }

  // Discovery of a well-named model below an undiscovered server builds every entry of the model,
  // keeps what was there, and leaves a tree in which every stored reference resolves to its node.
  lemma DiscoveryResolves(nodes: Nodes, server: Path, lds: seq<LogicalDevice>)
    requires InOrder(nodes) && PlainChildren(nodes, server) && server in nodes && |server| == 1
    requires SERVER_KEY_INIT <= server[0] && ModelOk(lds)
    requires server + [DATASET_PREP_KEY] !in nodes && NoDevices(nodes, server, lds)
    ensures var after := Discovered(nodes, server, lds);
            Kept(nodes, after) && InOrder(after) && LdsBuilt(after, server, lds)
    ensures forall p, node: Path ::
              (p in Discovered(nodes, server, lds) && Discovered(nodes, server, lds)[p].kind == DataAttribute
               && p != [] && SERVER_KEY_INIT <= p[0] && node != [] && node[0] == p[0])
              ==> LeadsBack(Discovered(nodes, server, lds), p, node)
  {
    var start, after := WithFolders(nodes, server), Discovered(nodes, server, lds);
    FoldersInOrder(nodes, server);
    FoldersGrown(nodes, server);
    StillNoDevices(nodes, server, lds);
    GrowLdsOk(start, server, lds);
    GrowLdsGrown(start, server, lds);
    forall p, node: Path | p in after && after[p].kind == DataAttribute && p != [] && SERVER_KEY_INIT <= p[0]
                     && node != [] && node[0] == p[0]
      ensures LeadsBack(after, p, node)
    {
      StoredReferenceResolves(after, p, node);
    }
  }

  // Well-named models give discovery no null node to follow.
  lemma OkIsFollowable(lds: seq<LogicalDevice>)
    requires ModelOk(lds)
    ensures Followable(lds)
  {
    forall d, n | 0 <= d < |lds| && 0 <= n < |lds[d].logicalNodes|
      ensures Creatable(lds[d].logicalNodes[n].objects)
    {
      assert LdOk(lds[d]) && LnOk(lds[d].logicalNodes[n]);
      OkIsCreatable(lds[d].logicalNodes[n].objects);
    }
  }

  lemma OkIsCreatable(objects: seq<DataNode>)
    requires WellNamed(objects) && forall i :: 0 <= i < |objects| ==> !HasFc(objects[i].entry)
    ensures Creatable(objects)
  {
    forall i | 0 <= i < |objects|
      ensures Key(objects[i]) == objects[i].entry && objects[i].entry !in HOUSE
    {
      PlainEntry(objects[i]);
    }
    assert "Reference" in HOUSE && "prepdataset" in HOUSE;
    forall i, j | 0 <= i < j < |objects|
      ensures objects[i].entry != objects[j].entry
    {
      assert Key(objects[i]) != Key(objects[j]);
    }
  }

  function DeviceKeys(lds: seq<LogicalDevice>): set<string> {
    set ld | ld in lds :: LD_KEY_INIT + ld.name
  }

  lemma FolderChildren(nodes: Nodes, server: Path, k: string)
    requires server in nodes
    ensures server + [k] in WithFolders(nodes, server) <==> server + [k] in nodes || k in FOLDERS
  {
    var folder, prep := Node(Container, NoValue), server + [DATASET_PREP_KEY];
    var a := Added(nodes, server, DATASETS_KEY, folder);
    var b := Added(a, server, DATASET_PREP_KEY, folder);
    var c := Added(b, prep, "desc", Housekeep(Text("Preparation for datasets to be created in the server")));
    var d := Added(c, server, URCB_FOLDER_KEY, folder);
    FolderChild(nodes, server, DATASETS_KEY, k);
    FolderChild(a, server, DATASET_PREP_KEY, k);
    assert |server + [k]| != |prep + ["desc"]|;
    FolderChild(c, server, URCB_FOLDER_KEY, k);
    FolderChild(d, server, BRCB_FOLDER_KEY, k);
  }

  lemma FolderChild(nodes: Nodes, server: Path, key: string, k: string)
    requires server in nodes
    ensures server + [k] in Added(nodes, server, key, Node(Container, NoValue)) <==> server + [k] in nodes || k == key
  {
    if server + [k] == server + [key] {
      SameChild(server, k, server, key);
    }
  }

  lemma {:induction false} DevicesChildren(nodes: Nodes, server: Path, lds: seq<LogicalDevice>, k: string)
    requires server in nodes
    ensures server + [k] in GrowLds(nodes, server, lds) <==> server + [k] in nodes || k in DeviceKeys(lds)
    decreases |lds|
  {
    if lds != [] {
      DeviceChild(nodes, server, lds[0], k);
      GrowLdGrown(nodes, server, lds[0]);
      DevicesChildren(GrowLd(nodes, server, lds[0]), server, lds[1..], k);
      assert lds == [lds[0]] + lds[1..];
    }
  }

  // The children discovery adds to a server, for every model: the four folders and one node for each device.
  lemma DiscoveredChildren(nodes: Nodes, server: Path, lds: seq<LogicalDevice>)
    requires server in nodes
    ensures forall k :: server + [k] in Discovered(nodes, server, lds) <==>
                          server + [k] in nodes || k in FOLDERS || k in DeviceKeys(lds)
  {
    FoldersGrown(nodes, server);
    forall k
      ensures server + [k] in Discovered(nodes, server, lds) <==>
                server + [k] in nodes || k in FOLDERS || k in DeviceKeys(lds)
    {
      FolderChildren(nodes, server, k);
      DevicesChildren(WithFolders(nodes, server), server, lds, k);
    }
  }

  // ---------------------------------------------------------------- the premises can be met

  // A device A with a logical node B, its object C and the status attribute D.
  function SmallModel(): seq<LogicalDevice> {
    var attribute := DataNode(WithFc("D", "ST"), "boolean", true, true, false, []);
    [LogicalDevice("A", [LogicalNode("B", [DataNode("C", "", true, false, true, [attribute])])])]
  }

  lemma SmallEntries()
    ensures Base(WithFc("D", "ST")) == "D" && FcOf(WithFc("D", "ST")) == Some("ST")
    ensures Base("C") == "C" && FcOf("C") == None
  {
    BaseOfKey("D", "ST");
    assert WithFc("D", "ST") == "D" + ['['] + "ST]";
    Strings.IndexOfConcat("D", '[', "ST]");
    assert WithFc("D", "ST")[2..4] == "ST";
    Strings.IndexOfAbsent("C", '[');
  }

  lemma OneAttribute(attribute: DataNode)
    requires attribute.entry == WithFc("D", "ST") && attribute.sub == []
    ensures Coherent(attribute) && WellNamed([attribute])
  {
    SmallEntries();
  }

  lemma OneObject(data: DataNode)
    requires data.entry == "C" && |data.sub| == 1 && Coherent(data.sub[0]) && WellNamed(data.sub)
    ensures Coherent(data) && WellNamed([data]) && !HasFc(data.entry)
  {
    SmallEntries();
  }

  lemma SmallModelOk()
    ensures ModelOk(SmallModel())
  {
    var attribute := DataNode(WithFc("D", "ST"), "boolean", true, true, false, []);
    var data := DataNode("C", "", true, false, true, [attribute]);
    OneAttribute(attribute);
    OneObject(data);
    assert LnOk(LogicalNode("B", [data]));
  }

  // The tree of a gateway with one server that has not been discovered.
  function FreshTree(server: string): Nodes {
    map[[] := Node(Container, NoValue), [server] := Node(Container, NoValue)]
  }

  lemma FreshTreeOk(server: string)
    requires !HasFc(server)
    ensures InOrder(FreshTree(server)) && [server] in FreshTree(server)
    ensures forall k :: [server] + [k] !in FreshTree(server)
    ensures PlainChildren(FreshTree(server), [server])
  {
    forall k
      ensures [server] + [k] !in FreshTree(server)
    {
      assert |[server] + [k]| == 2;
    }
    forall p: Path, k | p + [k] in FreshTree(server)
      ensures k == server
    {
      assert p + [k] == [server];
      assert (p + [k])[|p|] == k;
    }
  }

  // ---------------------------------------------------------------- a model that is not well named

  // An attribute that stores the reference of its path, which does not lead to it.
  ghost predicate LeadsAstray(nodes: Nodes, p: Path, node: Path)
    requires node != []
  {
    && p in nodes && nodes[p].kind == DataAttribute
    && AttributeOk(nodes, p) && Resolve(nodes, node, MemberRef(nodes, p)) != Some(p)
  }

  // An attribute with a plain sibling of its own name is not found by its stored reference.
  lemma TwinLost(nodes: Nodes, p: Path, node: Path)
    requires Inv(nodes) && p in nodes && nodes[p].kind == DataAttribute && p != []
    requires SERVER_KEY_INIT <= p[0] && node != [] && node[0] == p[0]
    requires p[..|p| - 1] + [Base(p[|p| - 1])] in nodes
    ensures LeadsAstray(nodes, p, node)
  {
    assert AttributeOk(nodes, p);
    ResolveIffUnshadowed(nodes, node, p, nodes[p + ["FC"]].value.s);
  }

  // Two leaves of a directory, one plain, one constrained, with one base name.
  predicate Twins(plain: DataNode, constrained: DataNode) {
    && Coherent(plain) && Coherent(constrained) && !plain.listed && !constrained.listed
    && FcOf(plain.entry).None? && FcOf(constrained.entry).Some?
    && Base(plain.entry) == Base(constrained.entry) && Base(plain.entry) !in HOUSE
  }

  lemma TwinKeys(plain: DataNode, constrained: DataNode)
    requires Twins(plain, constrained)
    ensures Key(plain) == Base(Key(constrained)) && Key(plain) != Key(constrained)
    ensures Key(plain) !in HOUSE && Key(constrained) !in HOUSE
  {
    KeyFacts(plain);
    KeyFacts(constrained);
    if Key(constrained) in HOUSE {
      HouseIsPlain(Key(constrained));
    }
  }

  lemma TwinsGrow(nodes: Nodes, q: Path, ref: string, plain: DataNode, constrained: DataNode)
    requires Closed(nodes) && q in nodes && Twins(plain, constrained) && forall k :: q + [k] in nodes ==> k in HOUSE
    ensures var after := GrowAll(nodes, q, ref, false, [plain, constrained]);
            && q + [Key(plain)] in after && q + [Key(constrained)] in after
            && after[q + [Key(constrained)]].kind == DataAttribute
  {
    TwinKeys(plain, constrained);
    var next := GrowNode(nodes, q, ref, false, plain);
    WithNodeEntry(nodes, q, ref, false, plain);
    GrowNodeGrown(nodes, q, ref, false, plain);
    if q + [Key(constrained)] in next {
      GrowNodeChildren(nodes, q, ref, false, plain, Key(constrained));
    }
    WithNodeEntry(next, q, ref, false, constrained);
    GrowNodeGrown(next, q, ref, false, constrained);
    TwoEntries(nodes, q, ref, plain, constrained);
  }

  lemma TwoEntries(nodes: Nodes, q: Path, ref: string, a: DataNode, b: DataNode)
    ensures GrowAll(nodes, q, ref, false, [a, b]) == GrowNode(GrowNode(nodes, q, ref, false, a), q, ref, false, b)
  {
    assert [a, b][1..] == [b];
    OneEntry(GrowNode(nodes, q, ref, false, a), q, ref, b);
  }

  lemma OneEntry(nodes: Nodes, q: Path, ref: string, b: DataNode)
    ensures GrowAll(nodes, q, ref, false, [b]) == GrowNode(nodes, q, ref, false, b)
  {
    assert [b][1..] == [];
  }

  // An object with such a directory, discovered below a logical node: the constrained twin is built, and lost.
  lemma ObjectTwinsLost(nodes: Nodes, p: Path, data: DataNode, node: Path)
    requires Inv(nodes) && p in nodes && |p| == 3 && DataPath(p, None)
    requires SERVER_KEY_INIT <= p[0] && node != [] && node[0] == p[0]
    requires Coherent(data) && !HasFc(data.entry) && data.listed && |data.sub| == 2 && !data.controllable
    requires Twins(data.sub[0], data.sub[1]) && p + [data.entry] !in nodes
    ensures LeadsAstray(GrowAll(nodes, p, RefOf(p), false, [data]), p + [data.entry] + [Key(data.sub[1])], node)
  {
    ObjectTwinsBuilt(nodes, p, data);
    OneInv(nodes, p, data);
    TwinBelow(GrowAll(nodes, p, RefOf(p), false, [data]), p + [data.entry], Key(data.sub[1]), node);
  }

  lemma TwinBelow(nodes: Nodes, q: Path, key: string, node: Path)
    requires Inv(nodes) && q + [key] in nodes && nodes[q + [key]].kind == DataAttribute && q + [Base(key)] in nodes
    requires q != [] && SERVER_KEY_INIT <= q[0] && node != [] && node[0] == q[0]
    ensures LeadsAstray(nodes, q + [key], node)
  {
    var twin := q + [key];
    assert twin[..|twin| - 1] == q && twin[|twin| - 1] == key && twin[0] == q[0];
    TwinLost(nodes, twin, node);
  }

  lemma ObjectTwinsBuilt(nodes: Nodes, p: Path, data: DataNode)
    requires Closed(nodes) && p in nodes && |p| >= 3 && LD_KEY_INIT <= p[1]
    requires !HasFc(data.entry) && data.listed && |data.sub| == 2 && !data.controllable
    requires Twins(data.sub[0], data.sub[1]) && p + [data.entry] !in nodes
    ensures var after, q := GrowAll(nodes, p, RefOf(p), false, [data]), p + [data.entry];
            && q + [Base(Key(data.sub[1]))] in after && q + [Key(data.sub[1])] in after
            && after[q + [Key(data.sub[1])]].kind == DataAttribute
  {
    var ref, start := RefOf(p) + "." + Base(data.entry), WithNode(nodes, p, RefOf(p), false, data);
    PlainEntry(data);
    WithNodeGrown(nodes, p, RefOf(p), false, data);
    NewChildren(nodes, p, data);
    TwinsGrow(start, p + [data.entry], ref, data.sub[0], data.sub[1]);
    ListedGrows(nodes, p, RefOf(p), data);
    TwinKeys(data.sub[0], data.sub[1]);
  }

  lemma OneInv(nodes: Nodes, p: Path, data: DataNode)
    requires Inv(nodes) && p in nodes && DataPath(p, None) && Coherent(data)
    ensures Inv(GrowAll(nodes, p, RefOf(p), false, [data]))
  {
    GrowAllInv(nodes, p, None, false, [data]);
  }

  lemma ListedGrows(nodes: Nodes, p: Path, ref: string, data: DataNode)
    requires data.listed && |data.sub| == 2 && !data.controllable && p + [Key(data)] !in nodes
    ensures GrowAll(nodes, p, ref, false, [data])
         == GrowAll(WithNode(nodes, p, ref, false, data), p + [Key(data)], ref + "." + Base(data.entry), false,
                    [data.sub[0], data.sub[1]])
  {
    assert data.sub == [data.sub[0], data.sub[1]];
    OneEntry(nodes, p, ref, data);
  }

  lemma NewChildren(nodes: Nodes, p: Path, n: DataNode)
    requires |p| >= 3 && LD_KEY_INIT <= p[1] && Closed(nodes) && p + [n.entry] !in nodes && !HasFc(n.entry)
    ensures forall k :: p + [n.entry] + [k] in WithNode(nodes, p, RefOf(p), false, n) ==> k in HOUSE
  {
    PlainEntry(n);
    var q, start := p + [n.entry], WithNode(nodes, p, RefOf(p), false, n);
    NoChildren(nodes, q);
    forall k | q + [k] in start
      ensures k in HOUSE
    {
      WithNodeNew(nodes, p, RefOf(p), false, n, q + [k]);
      assert q + [k] != q;
      var h :| h in HOUSE && (q + [k] == p + [h] || q + [k] == q + [h]);
      assert |q + [k]| != |p + [h]|;
      SameChild(q, k, q, h);
    }
  }

  // One device with one logical node with one object.
  function Chain(ldName: string, lnName: string, data: DataNode): seq<LogicalDevice> {
    [LogicalDevice(ldName, [LogicalNode(lnName, [data])])]
  }

  lemma ChainGrows(nodes: Nodes, server: Path, ldName: string, lnName: string, data: DataNode)
    ensures GrowLds(nodes, server, Chain(ldName, lnName, data))
         == GrowLn(Added(nodes, server, LD_KEY_INIT + ldName, Node(Container, NoValue)),
                   server + [LD_KEY_INIT + ldName], ldName, LogicalNode(lnName, [data]))
  {
    var ln := LogicalNode(lnName, [data]);
    var ld := LogicalDevice(ldName, [ln]);
    assert [ld][1..] == [];
    OneNode(Added(nodes, server, LD_KEY_INIT + ldName, Node(Container, NoValue)), server + [LD_KEY_INIT + ldName],
            ldName, ln);
  }

  lemma OneNode(nodes: Nodes, p: Path, ldName: string, ln: LogicalNode)
    ensures GrowLns(nodes, p, ldName, [ln]) == GrowLn(nodes, p, ldName, ln)
  {
    assert [ln][1..] == [];
  }

  predicate TwinObject(data: DataNode) {
    && Coherent(data) && !HasFc(data.entry) && data.listed && |data.sub| == 2 && !data.controllable
    && Twins(data.sub[0], data.sub[1]) && data.entry != "Reference" && data.entry != "prepdataset"
  }

  lemma LogicalNodeTwinsLost(nodes: Nodes, ld: Path, ldName: string, lnName: string, data: DataNode, node: Path)
    requires Inv(nodes) && ld in nodes && DevicePath(ld, ldName) && NameOk(lnName) && forall k :: ld + [k] !in nodes
    requires SERVER_KEY_INIT <= ld[0] && node != [] && node[0] == ld[0] && TwinObject(data)
    ensures var after := GrowLn(nodes, ld, ldName, LogicalNode(lnName, [data]));
            LeadsAstray(after, ld + [lnName] + [data.entry] + [Key(data.sub[1])], node)
  {
    var p, ref := ld + [lnName], ldName + "/" + lnName;
    var start := Added(nodes, ld, lnName, Node(Container, NoValue));
    EmptyChild(nodes, ld, lnName);
    LnChildrenInert(ref);
    LnHouse(nodes, ld, lnName, LnChildren(ref));
    LnPath(ld, ldName, lnName);
    LnKeysOnly(start, p, ref);
    ObjectTwinsLost(AddAll(start, p, LnChildren(ref)), p, data, node);
  }

  // Discovering such a model on an undiscovered server loses the constrained twin: it stores the reference of its
  // path, and that leads elsewhere.
  lemma TwinModelLost(nodes: Nodes, server: Path, ldName: string, lnName: string, data: DataNode, node: Path)
    requires InOrder(nodes) && PlainChildren(nodes, server) && server in nodes && |server| == 1
    requires server + [DATASET_PREP_KEY] !in nodes && NoDevices(nodes, server, Chain(ldName, lnName, data))
    requires SERVER_KEY_INIT <= server[0] && node != [] && node[0] == server[0]
    requires NameOk(ldName) && NameOk(lnName) && TwinObject(data)
    ensures var after := Discovered(nodes, server, Chain(ldName, lnName, data));
            LeadsAstray(after, server + [LD_KEY_INIT + ldName] + [lnName] + [data.entry] + [Key(data.sub[1])], node)
  {
    var start, key, lds := WithFolders(nodes, server), LD_KEY_INIT + ldName, Chain(ldName, lnName, data);
    FoldersInOrder(nodes, server);
    StillNoDevices(nodes, server, lds);
    assert server + [LD_KEY_INIT + lds[0].name] !in start;
    DeviceKey(server, ldName);
    DeviceStart(start, server, key);
    ChainGrows(start, server, ldName, lnName, data);
    LogicalNodeTwinsLost(Added(start, server, key, Node(Container, NoValue)), server + [key], ldName, lnName, data,
                         node);
  }

  // The entries D and D[ST] of an object C make such a model.
  function TwinData(): DataNode {
    DataNode("C", "", true, false, false,
             [DataNode("D", "", false, false, false, []),
              DataNode(WithFc("D", "ST"), "boolean", false, true, false, [])])
  }

  lemma TwinDataOk()
    ensures TwinObject(TwinData())
  {
    var data := TwinData();
    SmallEntries();
    BaseOfKey("D", "ST");
    PlainEntry(data.sub[0]);
    assert Coherent(data.sub[0]);
    OneAttribute(data.sub[1]);
  }

  lemma BareServer(nodes: Nodes, server: Path, ldName: string, lnName: string, data: DataNode)
    requires forall k :: server + [k] !in nodes
    ensures server + [DATASET_PREP_KEY] !in nodes && NoDevices(nodes, server, Chain(ldName, lnName, data))
  {
  }

  // On a gateway with one undiscovered server, that model loses its attribute D[ST].
  lemma TwinExample(server: string, ldName: string, lnName: string, data: DataNode)
    requires SERVER_KEY_INIT <= server && !HasFc(server) && NameOk(ldName) && NameOk(lnName) && data == TwinData()
    ensures var after := Discovered(FreshTree(server), [server], Chain(ldName, lnName, data));
            LeadsAstray(after, [server] + [LD_KEY_INIT + ldName] + [lnName] + [data.entry] + [Key(data.sub[1])],
                        [server])
  {
    var nodes := FreshTree(server);
    FreshTreeOk(server);
    TwinDataOk();
    BareServer(nodes, [server], ldName, lnName, data);
    TwinModelLost(nodes, [server], ldName, lnName, data, [server]);
  }
}
