// The life cycle of server nodes: added, discovered, cleared, edited, removed.
module ServerNodes {
  import opened Wrappers
  import opened Strings
  import Discovery
  import NodeTree
  import References
  import SD = ServerDiscovery

  const NO_DELETE_NODE_KEY_INIT: string := "ndl_"

  // The five children every server node is given.
  const ACTIONS: set<string> := {"ndl_discoverserver", "ndl_editserver", "ndl_clearserver", "ndl_removeserver",
                                 "ndl_connstatus"}

  // A node has an identity of its own; the map of connections is keyed by it.
  datatype ServerNode = ServerNode(id: nat, children: set<string>)
  datatype Server = Server(host: string, port: int)

  datatype State = State(nodes: map<string, ServerNode>, serverMap: map<nat, Server>, next: nat)

  predicate IsData(child: string) {
    !(NO_DELETE_NODE_KEY_INIT <= child)
  }

  // isDiscovered on a server node
  predicate HasData(children: set<string>) {
    exists c :: c in children && IsData(c)
  }

  function DataModel(devices: Option<seq<string>>): set<string> {
    SD.FOLDERS + if devices.None? then {} else set d | d in devices.value :: References.LD_KEY_INIT + d
  }

  datatype Event =
    | Add(name: Option<string>, host: Option<string>, port: int)
    | Edit(key: string, newName: string, newHost: string, newPort: int)
    | Remove(key: string)
    | Clear(key: string)
    | Discover(key: string, devices: Option<seq<string>>)

  // responderInitClient: a second node of the same name is refused.
  function InitClient(s: State, name: string, host: string, port: int): State {
    var key := NodeTree.SERVER_KEY_INIT + name;
    if key in s.nodes then s
    else State(s.nodes[key := ServerNode(s.next, ACTIONS)], s.serverMap[s.next := Server(host, port)], s.next + 1)
  }

  function Removed(s: State, key: string): State {
    if key !in s.nodes then s else State(s.nodes - {key}, s.serverMap - {s.nodes[key].id}, s.next)
  }

  // The parameters of an edit ask for a new node.
  predicate Changes(s: State, key: string, name: string, host: string, port: int)
    requires key in s.nodes && s.nodes[key].id in s.serverMap
  {
    var server := s.serverMap[s.nodes[key].id];
    server.host != host || key != name || server.port != port
  }

  function Step(s: State, e: Event): State {
    match e
    case Add(name, host, port) =>
      if name.Some? && host.Some? && port != 0 then InitClient(s, name.value, host.value, port) else s
    case Edit(key, name, host, port) =>
      if key !in s.nodes || s.nodes[key].id !in s.serverMap || name == "" || host == "" || port == 0 then s
      else if Changes(s, key, name, host, port) then InitClient(Removed(s, key), name, host, port)
      else s
    case Remove(key) => Removed(s, key)
    case Clear(key) =>
      if key !in s.nodes then s
      else s.(nodes := s.nodes[key := s.nodes[key].(children := set c | c in s.nodes[key].children && !IsData(c))])
    case Discover(key, devices) =>
      if key !in s.nodes || HasData(s.nodes[key].children) then s
      else s.(nodes := s.nodes[key := s.nodes[key].(children := s.nodes[key].children + DataModel(devices))])
  }

  function Run(es: seq<Event>): State {
    if es == [] then State(map[], map[], 0) else Step(Run(es[..|es| - 1]), es[|es| - 1])
  }

  // ---------------------------------------------------------------- the code

  // The calls that release nodes, while pending is the node still held.
  function Released(order: seq<string>, pending: Option<string>): seq<string>
    decreases |order|
  {
    (if pending.Some? then [pending.value] else []) +
    if order == [] then [] else Released(order[1..], if IsData(order[0]) then Some(order[0]) else pending)
  }

  function Flush(done: seq<string>, pending: Option<string>): seq<string> {
    if pending.Some? then done + [pending.value] else done
  }

  lemma ReleasedStep(done: seq<string>, order: seq<string>, i: nat, pending: Option<string>)
    requires i < |order|
    ensures done + Released(order[i..], pending)
         == Flush(done, pending) + Released(order[i + 1..], if IsData(order[i]) then Some(order[i]) else pending)
  {
    var rest := Released(order[i + 1..], if IsData(order[i]) then Some(order[i]) else pending);
    assert order[i..][0] == order[i] && order[i..][1..] == order[i + 1..];
    if pending.Some? {
      assert done + ([pending.value] + rest) == done + [pending.value] + rest;
    } else {
      assert Released(order[i..], pending) == rest;
    }
  }

  lemma ReleasedEnd(done: seq<string>, order: seq<string>, pending: Option<string>)
    ensures done + Released(order[|order|..], pending) == Flush(done, pending)
  {
  }

  // The children after the first i have been visited.
  function Remaining(children: set<string>, order: seq<string>, i: nat): set<string>
    requires i <= |order|
  {
    set c | c in children && !(c in order[..i] && IsData(c))
  }

  lemma ClearStep(children: set<string>, order: seq<string>, i: nat)
    requires i < |order| && order[i] in children
    ensures Remaining(children, order, i + 1)
         == if IsData(order[i]) then Remaining(children, order, i) - {order[i]} else Remaining(children, order, i)
  {
    assert order[..i + 1] == order[..i] + [order[i]];
  }

  lemma ClearEnd(children: set<string>, order: seq<string>)
    requires Visits(order, children)
    ensures Remaining(children, order, |order|) == set c | c in children && !IsData(c)
  {
    assert order[..|order|] == order;
  }

  // The loop of removeAllDataModel. Each child that goes is released one iteration later, through
  // nodeToRemove; released lists those calls.
  method RemoveData(all: set<string>, order: seq<string>) returns (children: set<string>, released: seq<string>)
    requires Visits(order, all)
    ensures children == set c | c in all && !IsData(c)
    ensures released == Released(order, None)
  {
    children, released := all, [];
    var nodeToRemove: Option<string> := None;
    var i := 0;
    assert order[0..] == order;
    while i < |order|
      invariant 0 <= i <= |order|
      invariant children == Remaining(all, order, i)
      invariant released + Released(order[i..], nodeToRemove) == Released(order, None)
    {
      ClearStep(all, order, i);
      ReleasedStep(released, order, i, nodeToRemove);
      if nodeToRemove.Some? {
        released := released + [nodeToRemove.value];
      }
      if IsData(order[i]) {
        children := children - {order[i]};
        nodeToRemove := Some(order[i]);
      }
      i := i + 1;
    }
    ReleasedEnd(released, order, nodeToRemove);
    if nodeToRemove.Some? {
      released := released + [nodeToRemove.value];
    }
    ClearEnd(all, order);
  }

  class Gateway {
    var nodes: map<string, ServerNode>
    var serverMap: map<nat, Server>
    var next: nat

    function View(): State
      reads this
    {
      State(nodes, serverMap, next)
    }

    constructor ()
      ensures View() == Run([])
    {
      nodes, serverMap, next := map[], map[], 0;
    }

    method ResponderInitClient(name: string, host: string, port: int)
      modifies this
      ensures View() == InitClient(old(View()), name, host, port)
    {
      var srvKey := NodeTree.SERVER_KEY_INIT + name;
      if srvKey in nodes {
        return;
      }
      var children: set<string> := {};
      children := children + {"ndl_discoverserver"};
      children := children + {"ndl_editserver"};
      children := children + {"ndl_clearserver"};
      children := children + {"ndl_removeserver"};
      serverMap := serverMap[next := Server(host, port)];
      children := children + {"ndl_connstatus"};
      assert children == ACTIONS;
      nodes := nodes[srvKey := ServerNode(next, children)];
      next := next + 1;
    }

    method InvokeAddServer(name: Option<string>, host: Option<string>, port: int)
      modifies this
      ensures View() == Step(old(View()), Event.Add(name, host, port))
    {
      if name.Some? && host.Some? && port != 0 {
        ResponderInitClient(name.value, host.value, port);
      }
    }

    method RemoveServerNode(key: string) returns (ok: bool)
      modifies this
      ensures View() == Step(old(View()), Event.Remove(key))
      ensures ok <==> key in old(nodes)
    {
      ok := key in nodes;
      if ok {
        serverMap := serverMap - {nodes[key].id};
        nodes := nodes - {key};
      }
    }

    // edit_server_action: the node's key is compared with the new name as it was typed.
    method EditServerAction(key: string, name: string, host: string, port: int)
      requires key in nodes && nodes[key].id in serverMap
      modifies this
      ensures View() == Step(old(View()), Event.Edit(key, name, host, port))
    {
      var server := serverMap[nodes[key].id];
      if |name| > 0 && |host| > 0 && port != 0 {
        if server.host != host || key != name || server.port != port {
          var removed := RemoveServerNode(key);
          if removed {
            ResponderInitClient(name, host, port);
          }
        }
      }
    }

    // removeAllDataModel on a server node
    method RemoveAllDataModel(key: string, order: seq<string>) returns (released: seq<string>)
      requires key in nodes && Visits(order, nodes[key].children)
      modifies this
      ensures View() == Step(old(View()), Event.Clear(key))
      ensures released == Released(order, None)
    {
      var children: set<string>;
      children, released := RemoveData(nodes[key].children, order);
      nodes := nodes[key := nodes[key].(children := children)];
    }

    method IsDiscovered(key: string, order: seq<string>) returns (r: bool)
      requires key in nodes && Visits(order, nodes[key].children)
      ensures r <==> NodeTree.SERVER_KEY_INIT <= key && HasData(nodes[key].children)
    {
      if !(NodeTree.SERVER_KEY_INIT <= key) {
        return false;
      }
      var i := 0;
      while i < |order|
        invariant 0 <= i <= |order| && forall k :: 0 <= k < i ==> !IsData(order[k])
      {
        if IsData(order[i]) {
          return true;
        }
        i := i + 1;
      }
      return false;
    }

    // discover_action; devices is the list the server returns, or None if it cannot be read.
    method DiscoverAction(key: string, order: seq<string>, devices: Option<seq<string>>)
      requires key in nodes && Visits(order, nodes[key].children) && NodeTree.SERVER_KEY_INIT <= key
      modifies this
      ensures View() == Step(old(View()), Event.Discover(key, devices))
    {
      var discovered := IsDiscovered(key, order);
      if !discovered {
        var children := nodes[key].children;
        children := children + SD.FOLDERS;
        if devices.Some? {
          var i := 0;
          while i < |devices.value|
            invariant 0 <= i <= |devices.value|
            invariant children == nodes[key].children + SD.FOLDERS
                                  + set d | d in devices.value[..i] :: References.LD_KEY_INIT + d
          {
            assert devices.value[..i + 1] == devices.value[..i] + [devices.value[i]];
            children := children + {References.LD_KEY_INIT + devices.value[i]};
            i := i + 1;
          }
          assert devices.value[..i] == devices.value;
        }
        assert children == nodes[key].children + DataModel(devices);
        nodes := nodes[key := nodes[key].(children := children)];
      }
    }
  }

  // ---------------------------------------------------------------- invariants over runs

  predicate NodeOk(n: ServerNode) {
    && ACTIONS <= n.children
    && (forall c :: c in n.children ==> c in ACTIONS || c in SD.FOLDERS || References.LD_KEY_INIT <= c)
    && (HasData(n.children) <==> SD.FOLDERS <= n.children)
    && (!HasData(n.children) ==> n.children == ACTIONS)
  }

  predicate Inv(s: State) {
    Linked(s) && forall k :: k in s.nodes ==> NodeTree.SERVER_KEY_INIT <= k && NodeOk(s.nodes[k])
  }

  // Identities are unique, and the connection map knows exactly the live ones.
  predicate Linked(s: State) {
    && (forall k :: k in s.nodes ==> s.nodes[k].id in s.serverMap)
    && (forall id :: id in s.serverMap ==> id < s.next && exists k :: k in s.nodes && s.nodes[k].id == id)
    && forall j, k :: j in s.nodes && k in s.nodes && s.nodes[j].id == s.nodes[k].id ==> j == k
  }

  lemma KeyKinds(c: string)
    ensures c in ACTIONS ==> !IsData(c)
    ensures c in SD.FOLDERS || References.LD_KEY_INIT <= c ==> IsData(c)
  {
    assert References.LD_KEY_INIT <= c ==> c[0] == 'l';
    assert c in SD.FOLDERS ==> c[0] != 'n';
    assert NO_DELETE_NODE_KEY_INIT <= c ==> c[0] == 'n';
  }

  lemma FreshNodeOk(id: nat)
    ensures NodeOk(ServerNode(id, ACTIONS))
  {
    forall c | c in ACTIONS
      ensures !IsData(c)
    {
      KeyKinds(c);
    }
    KeyKinds(SD.DATASETS_KEY);
  }

  lemma ClearedNodeOk(n: ServerNode)
    requires NodeOk(n)
    ensures (set c | c in n.children && !IsData(c)) == ACTIONS
  {
    forall c
      ensures c in n.children && !IsData(c) <==> c in ACTIONS
    {
      KeyKinds(c);
    }
  }

  lemma DiscoveredNodeOk(n: ServerNode, devices: Option<seq<string>>)
    requires NodeOk(n) && !HasData(n.children)
    ensures NodeOk(n.(children := n.children + DataModel(devices)))
  {
    var children := n.children + DataModel(devices);
    forall c | c in children
      ensures c in ACTIONS || c in SD.FOLDERS || References.LD_KEY_INIT <= c
    {
    }
    KeyKinds(SD.DATASETS_KEY);
    assert SD.DATASETS_KEY in children;
  }

  lemma InitKeepsLinks(s: State, key: string, n: ServerNode, server: Server)
    requires Linked(s) && key !in s.nodes && n.id == s.next
    ensures Linked(State(s.nodes[key := n], s.serverMap[s.next := server], s.next + 1))
  {
    var t := State(s.nodes[key := n], s.serverMap[s.next := server], s.next + 1);
    forall id | id in t.serverMap
      ensures exists k :: k in t.nodes && t.nodes[k].id == id
    {
      if id == s.next {
        assert t.nodes[key].id == id;
      } else {
        var k :| k in s.nodes && s.nodes[k].id == id;
        assert t.nodes[k].id == id;
      }
    }
  }

  lemma InitKeepsInv(s: State, name: string, host: string, port: int)
    requires Inv(s)
    ensures Inv(InitClient(s, name, host, port))
  {
    var key := NodeTree.SERVER_KEY_INIT + name;
    FreshNodeOk(s.next);
    if key !in s.nodes {
      InitKeepsLinks(s, key, ServerNode(s.next, ACTIONS), Server(host, port));
    }
  }

  lemma RemoveKeepsInv(s: State, key: string)
    requires Inv(s)
    ensures Inv(Removed(s, key))
  {
    var t := Removed(s, key);
    if key in s.nodes {
      forall id | id in t.serverMap
        ensures exists k :: k in t.nodes && t.nodes[k].id == id
      {
        var k :| k in s.nodes && s.nodes[k].id == id;
        assert t.nodes[k].id == id;
      }
    }
  }

  lemma ReplaceKeepsLinks(s: State, key: string, n: ServerNode)
    requires Linked(s) && key in s.nodes && n.id == s.nodes[key].id
    ensures Linked(s.(nodes := s.nodes[key := n]))
  {
    var t := s.(nodes := s.nodes[key := n]);
    assert forall k :: k in t.nodes ==> t.nodes[k].id == s.nodes[k].id;
    forall id | id in t.serverMap
      ensures exists k :: k in t.nodes && t.nodes[k].id == id
    {
      var k :| k in s.nodes && s.nodes[k].id == id;
      assert t.nodes[k].id == id;
    }
  }

  lemma ReplaceKeepsInv(s: State, key: string, n: ServerNode)
    requires Inv(s) && key in s.nodes && NodeOk(n) && n.id == s.nodes[key].id
    ensures Inv(s.(nodes := s.nodes[key := n]))
  {
    ReplaceKeepsLinks(s, key, n);
  }

  lemma StepKeepsInv(s: State, e: Event)
    requires Inv(s)
    ensures Inv(Step(s, e))
  {
    match e
    case Add(name, host, port) =>
      if name.Some? && host.Some? {
        InitKeepsInv(s, name.value, host.value, port);
      }
    case Edit(key, name, host, port) =>
      RemoveKeepsInv(s, key);
      InitKeepsInv(Removed(s, key), name, host, port);
    case Remove(key) =>
      RemoveKeepsInv(s, key);
    case Clear(key) =>
      if key in s.nodes {
        var n := s.nodes[key];
        ClearedNodeOk(n);
        FreshNodeOk(n.id);
        ReplaceKeepsInv(s, key, ServerNode(n.id, ACTIONS));
      }
    case Discover(key, devices) =>
      if key in s.nodes && !HasData(s.nodes[key].children) {
        DiscoveredNodeOk(s.nodes[key], devices);
        ReplaceKeepsInv(s, key, s.nodes[key].(children := s.nodes[key].children + DataModel(devices)));
      }
  }

  // In every reachable state: each server node keeps its five actions, counts as discovered exactly
  // if the four folders exist, and the connection map's keys are exactly the live server nodes.
  lemma {:induction false} Reachable(es: seq<Event>)
    ensures Inv(Run(es))
    ensures Run(es).serverMap.Keys == set k | k in Run(es).nodes :: Run(es).nodes[k].id
  {
    if es != [] {
      Reachable(es[..|es| - 1]);
      StepKeepsInv(Run(es[..|es| - 1]), es[|es| - 1]);
    }
  }

  lemma RunAppend(es: seq<Event>, e: Event)
    ensures Run(es + [e]) == Step(Run(es), e)
  {
    assert (es + [e])[..|es + [e]| - 1] == es;
  }

  lemma ClearAfterDiscover(s: State, key: string, devices: Option<seq<string>>)
    requires Inv(s) && key in s.nodes
    ensures var d := Step(s, Event.Discover(key, devices));
            var t := Step(d, Event.Clear(key));
            && key in d.nodes && HasData(d.nodes[key].children)
            && t == State(s.nodes[key := ServerNode(s.nodes[key].id, ACTIONS)], s.serverMap, s.next)
  {
    var n, d := s.nodes[key], Step(s, Event.Discover(key, devices));
    if HasData(n.children) {
      ClearedNodeOk(n);
    } else {
      DiscoveredNodeOk(n, devices);
      KeyKinds(SD.DATASETS_KEY);
      assert SD.DATASETS_KEY in d.nodes[key].children;
      ClearedNodeOk(d.nodes[key]);
    }
  }

  // Clearing undoes discovery, whatever the server listed: the node is again as it was when added,
  // and nothing else has changed.
  lemma ClearUndoesDiscover(es: seq<Event>, key: string, devices: Option<seq<string>>)
    requires key in Run(es).nodes
    ensures var s, d := Run(es), Run(es + [Event.Discover(key, devices)]);
            var t := Run(es + [Event.Discover(key, devices)] + [Event.Clear(key)]);
            && key in d.nodes && HasData(d.nodes[key].children)
            && t == State(s.nodes[key := ServerNode(s.nodes[key].id, ACTIONS)], s.serverMap, s.next)
  {
    Reachable(es);
    RunAppend(es, Event.Discover(key, devices));
    RunAppend(es + [Event.Discover(key, devices)], Event.Clear(key));
    ClearAfterDiscover(Run(es), key, devices);
  }

  // An edit leaves the servers as they are exactly if a parameter is missing, or host and port are
  // those of the server and the new name is the node's key, prefix included.
  lemma EditUnchanged(es: seq<Event>, key: string, name: string, host: string, port: int)
    requires key in Run(es).nodes
    ensures var s := Run(es);
            && s.nodes[key].id in s.serverMap
            && (Run(es + [Event.Edit(key, name, host, port)]) == s <==>
                 (name == "" || host == "" || port == 0
                  || (name == key && s.serverMap[s.nodes[key].id] == Server(host, port))))
  {
    Reachable(es);
    RunAppend(es, Event.Edit(key, name, host, port));
    var s, t := Run(es), Run(es + [Event.Edit(key, name, host, port)]);
    if name != "" && host != "" && port != 0 && Changes(s, key, name, host, port) {
      var r := Removed(s, key);
      assert s.nodes[key].id !in r.serverMap;
      assert s.nodes[key].id < s.next;
      assert s.nodes[key].id !in t.serverMap;
    }
  }

  // So submitting an edit with the server's own name and nothing changed makes a new,
  // undiscovered node in place of the old one.
  lemma EditSameNameRecreates(es: seq<Event>, name: string)
    requires var s, key := Run(es), NodeTree.SERVER_KEY_INIT + name;
             name != "" && key in s.nodes && s.nodes[key].id in s.serverMap
             && s.serverMap[s.nodes[key].id].host != "" && s.serverMap[s.nodes[key].id].port != 0
    ensures var s, key := Run(es), NodeTree.SERVER_KEY_INIT + name;
            var server := s.serverMap[s.nodes[key].id];
            var t := Run(es + [Event.Edit(key, name, server.host, server.port)]);
            key in t.nodes && t.nodes[key] == ServerNode(s.next, ACTIONS) && t.nodes[key].id != s.nodes[key].id
  {
    var s, key := Run(es), NodeTree.SERVER_KEY_INIT + name;
    var server := s.serverMap[s.nodes[key].id];
    Reachable(es);
    RunAppend(es, Event.Edit(key, name, server.host, server.port));
    assert |key| != |name|;
  }

  lemma CountReplaced(keys: set<string>, gone: string, come: string)
    requires gone in keys
    ensures |keys - {gone} + {come}| == |keys| - (if come in keys && come != gone then 1 else 0)
  {
    var rest := keys - {gone};
    assert |rest| == |keys| - 1;
    if come in rest {
      assert rest + {come} == rest;
    } else {
      assert |rest + {come}| == |rest| + 1;
    }
  }

  // An edit that changes something keeps the number of servers, unless the new name is taken by
  // another server: then the edited one is gone.
  lemma EditLosesServer(es: seq<Event>, key: string, name: string, host: string, port: int)
    requires key in Run(es).nodes && name != "" && host != "" && port != 0
    requires Run(es + [Event.Edit(key, name, host, port)]) != Run(es)
    ensures var s, t := Run(es), Run(es + [Event.Edit(key, name, host, port)]);
            var newKey := NodeTree.SERVER_KEY_INIT + name;
            && t.nodes.Keys == s.nodes.Keys - {key} + {newKey}
            && |t.nodes.Keys| == |s.nodes.Keys| - (if newKey in s.nodes && newKey != key then 1 else 0)
  {
    RunAppend(es, Event.Edit(key, name, host, port));
    var s := Run(es);
    assert Run(es + [Event.Edit(key, name, host, port)]) == InitClient(Removed(s, key), name, host, port);
    assert Removed(s, key).nodes.Keys == s.nodes.Keys - {key};
    assert InitClient(Removed(s, key), name, host, port).nodes.Keys
        == s.nodes.Keys - {key} + {NodeTree.SERVER_KEY_INIT + name};
    CountReplaced(s.nodes.Keys, key, NodeTree.SERVER_KEY_INIT + name);
  }

  // ---------------------------------------------------------------- what each event leaves behind

  // The servers and where they are, read off the events alone.
  function Known(es: seq<Event>): map<string, Server> {
    if es == [] then map[] else KnownStep(Known(es[..|es| - 1]), es[|es| - 1])
  }

  function KnownStep(known: map<string, Server>, e: Event): map<string, Server> {
    match e
    case Add(name, host, port) =>
      if name.Some? && host.Some? && port != 0 then Named(known, name.value, Server(host.value, port)) else known
    case Edit(key, name, host, port) =>
      if key !in known || name == "" || host == "" || port == 0 then known
      else if known[key] == Server(host, port) && key == name then known
      else Named(known - {key}, name, Server(host, port))
    case Remove(key) => known - {key}
    case _ => known
  }

  // A server takes a name unless another has it.
  function Named(known: map<string, Server>, name: string, server: Server): map<string, Server> {
    if NodeTree.SERVER_KEY_INIT + name in known then known else known[NodeTree.SERVER_KEY_INIT + name := server]
  }

  // The connections of the server nodes are these.
  predicate Connects(s: State, known: map<string, Server>) {
    s.nodes.Keys == known.Keys
    && forall k :: k in s.nodes ==> s.nodes[k].id in s.serverMap && s.serverMap[s.nodes[k].id] == known[k]
  }

  lemma InitConnects(s: State, known: map<string, Server>, name: string, host: string, port: int)
    requires Inv(s) && Connects(s, known)
    ensures Connects(InitClient(s, name, host, port), Named(known, name, Server(host, port)))
  {
    var key, t := NodeTree.SERVER_KEY_INIT + name, InitClient(s, name, host, port);
    if key !in s.nodes {
      forall k | k in s.nodes
        ensures t.serverMap[t.nodes[k].id] == s.serverMap[s.nodes[k].id]
      {
        assert s.nodes[k].id < s.next;
      }
    }
  }

  lemma RemoveConnects(s: State, known: map<string, Server>, key: string)
    requires Inv(s) && Connects(s, known)
    ensures Connects(Removed(s, key), known - {key})
  {
  }

  lemma ReplaceConnects(s: State, known: map<string, Server>, key: string, name: string, host: string, port: int)
    requires Inv(s) && Connects(s, known)
    ensures Connects(InitClient(Removed(s, key), name, host, port), Named(known - {key}, name, Server(host, port)))
  {
    RemoveConnects(s, known, key);
    RemoveKeepsInv(s, key);
    InitConnects(Removed(s, key), known - {key}, name, host, port);
  }

  // New children leave the connections alone.
  lemma SameConnects(s: State, t: State, known: map<string, Server>)
    requires Connects(s, known) && t.serverMap == s.serverMap && t.nodes.Keys == s.nodes.Keys
    requires forall k :: k in s.nodes ==> t.nodes[k].id == s.nodes[k].id
    ensures Connects(t, known)
  {
  }

  lemma StepConnects(s: State, known: map<string, Server>, e: Event)
    requires Inv(s) && Connects(s, known)
    ensures Connects(Step(s, e), KnownStep(known, e))
  {
    match e
    case Add(name, host, port) =>
      if name.Some? && host.Some? {
        InitConnects(s, known, name.value, host.value, port);
      }
    case Edit(key, name, host, port) =>
      ReplaceConnects(s, known, key, name, host, port);
    case Remove(key) =>
      RemoveConnects(s, known, key);
    case _ =>
      SameConnects(s, Step(s, e), known);
  }

  // In every reachable state the server nodes are those the events leave, and each is connected to the host and
  // port of the last Add or Edit that made it.
  lemma {:induction false} ConnectionsKnown(es: seq<Event>)
    ensures var s := Run(es);
            && s.nodes.Keys == Known(es).Keys
            && forall k :: k in s.nodes ==> s.nodes[k].id in s.serverMap && s.serverMap[s.nodes[k].id] == Known(es)[k]
  {
    if es != [] {
      var before := es[..|es| - 1];
      Reachable(before);
      ConnectionsKnown(before);
      StepConnects(Run(before), Known(before), es[|es| - 1]);
    }
  }

  // A server with a free name is added under its key with its host and port, undiscovered; nothing else changes,
  // and nothing at all if a parameter is missing or the name is taken.
  lemma AddConnects(es: seq<Event>, name: Option<string>, host: Option<string>, port: int)
    ensures var s, t := Run(es), Run(es + [Event.Add(name, host, port)]);
            if name.Some? && host.Some? && port != 0 && "srv_" + name.value !in s.nodes then
              var key := "srv_" + name.value;
              && t.nodes.Keys == s.nodes.Keys + {key} && t.nodes[key].children == ACTIONS
              && t.nodes[key].id in t.serverMap && t.serverMap[t.nodes[key].id] == Server(host.value, port)
              && forall k :: k in s.nodes ==> t.nodes[k] == s.nodes[k]
            else t == s
  {
    RunAppend(es, Event.Add(name, host, port));
  }

  // An edit that changes something to a free name, or to the server's own, connects the new node to the new host.
  lemma EditConnects(es: seq<Event>, key: string, name: string, host: string, port: int)
    requires key in Run(es).nodes && name != "" && host != "" && port != 0
    requires "srv_" + name !in Run(es).nodes || "srv_" + name == key
    requires Run(es + [Event.Edit(key, name, host, port)]) != Run(es)
    ensures var s, t, newKey := Run(es), Run(es + [Event.Edit(key, name, host, port)]), "srv_" + name;
            && newKey in t.nodes && t.nodes[newKey].children == ACTIONS
            && t.nodes[newKey].id in t.serverMap && t.serverMap[t.nodes[newKey].id] == Server(host, port)
            && (newKey != key ==> key !in t.nodes)
            && forall k :: k in s.nodes && k != key ==> k in t.nodes && t.nodes[k] == s.nodes[k]
  {
    RunAppend(es, Event.Edit(key, name, host, port));
  }

  // A removal takes exactly that node away with its connection.
  lemma RemoveForgets(es: seq<Event>, key: string)
    requires key in Run(es).nodes
    ensures var s, t := Run(es), Run(es + [Event.Remove(key)]);
            && t.nodes.Keys == s.nodes.Keys - {key} && s.nodes[key].id !in t.serverMap
            && forall k :: k in t.nodes ==> t.nodes[k] == s.nodes[k]
  {
    RunAppend(es, Event.Remove(key));
  }

  // Discovering an undiscovered server gives it the four folders and one child for each device the server lists,
  // and no other; discovering it again changes nothing.
  lemma DiscoverAdds(es: seq<Event>, key: string, devices: Option<seq<string>>)
    requires key in Run(es).nodes
    ensures var s, t := Run(es), Run(es + [Event.Discover(key, devices)]);
            && t.serverMap == s.serverMap && t.nodes.Keys == s.nodes.Keys && t.nodes[key].id == s.nodes[key].id
            && (forall k :: k in s.nodes && k != key ==> t.nodes[k] == s.nodes[k])
            && if SD.FOLDERS <= s.nodes[key].children then t == s
               else forall c :: c in t.nodes[key].children <==>
                      || c in s.nodes[key].children || c in SD.FOLDERS
                      || (devices.Some? && exists d :: d in devices.value && c == References.LD_KEY_INIT + d)
  {
    Reachable(es);
    RunAppend(es, Event.Discover(key, devices));
  }

  // ---------------------------------------------------------------- the same children in the node tree

  function DeviceNames(lds: seq<Discovery.LogicalDevice>): seq<string> {
    seq(|lds|, i requires 0 <= i < |lds| => lds[i].name)
  }

  // What discovery adds below the server in the node tree is the data model of this life cycle.
  lemma TreeChildren(nodes: NodeTree.Nodes, server: NodeTree.Path, lds: seq<Discovery.LogicalDevice>)
    requires server in nodes
    ensures forall k :: server + [k] in SD.Discovered(nodes, server, lds) <==>
                          server + [k] in nodes || k in DataModel(Some(DeviceNames(lds)))
  {
    var names := DeviceNames(lds);
    SD.DiscoveredChildren(nodes, server, lds);
    forall k
      ensures k in DataModel(Some(names)) <==> k in SD.FOLDERS || k in SD.DeviceKeys(lds)
    {
      if d :| d in names && k == References.LD_KEY_INIT + d {
        var i :| 0 <= i < |names| && names[i] == d;
        assert lds[i] in lds;
      }
      if ld :| ld in lds && k == References.LD_KEY_INIT + ld.name {
        var i :| 0 <= i < |lds| && lds[i] == ld;
        assert names[i] in names;
      }
    }
  }

  // ---------------------------------------------------------------- releasing the cleared children

  function DataOf(order: seq<string>): seq<string> {
    if order == [] then [] else (if IsData(order[0]) then [order[0]] else []) + DataOf(order[1..])
  }

  // The children that stay all come before the children that go.
  predicate StayFirst(order: seq<string>) {
    forall i, j :: 0 <= i < j < |order| && IsData(order[i]) ==> IsData(order[j])
  }

  predicate NoRepeat(s: seq<string>) {
    forall i, j :: 0 <= i < j < |s| ==> s[i] != s[j]
  }

  lemma {:induction false} AllDataReleased(order: seq<string>, pending: string)
    requires forall i :: 0 <= i < |order| ==> IsData(order[i])
    ensures Released(order, Some(pending)) == [pending] + order
    decreases |order|
  {
    if order != [] {
      AllDataReleased(order[1..], order[0]);
    }
  }

  lemma {:induction false} StayReleasedTwice(order: seq<string>, pending: string, at: nat)
    requires at < |order| && !IsData(order[at])
    ensures !NoRepeat(Released(order, Some(pending)))
    decreases |order|
  {
    var rest := Released(order[1..], if IsData(order[0]) then Some(order[0]) else Some(pending));
    var all := Released(order, Some(pending));
    assert all == [pending] + rest;
    if IsData(order[0]) {
      StayReleasedTwice(order[1..], order[0], at - 1);
      var i, j :| 0 <= i < j < |rest| && rest[i] == rest[j];
      assert all[i + 1] == all[j + 1];
    } else {
      assert rest[0] == pending;
      assert all[0] == all[1];
    }
  }

  lemma StayFirstTail(order: seq<string>)
    requires order != [] && !IsData(order[0])
    ensures StayFirst(order) <==> StayFirst(order[1..])
  {
    var rest := order[1..];
    if StayFirst(rest) {
      forall i, j | 0 <= i < j < |order| && IsData(order[i])
        ensures IsData(order[j])
      {
        assert rest[i - 1] == order[i] && rest[j - 1] == order[j];
      }
    }
    if StayFirst(order) {
      forall i, j | 0 <= i < j < |rest| && IsData(rest[i])
        ensures IsData(rest[j])
      {
        assert rest[i] == order[i + 1] && rest[j] == order[j + 1];
      }
    }
  }

  lemma AllGo(order: seq<string>)
    requires order != [] && forall i :: 0 <= i < |order| ==> IsData(order[i])
    ensures Released(order, None) == order && DataOf(order) == order
  {
    AllDataReleased(order[1..], order[0]);
    AllData(order);
    assert order == [order[0]] + order[1..];
    assert Released(order, None) == Released(order[1..], Some(order[0]));
  }

  lemma SomeStays(order: seq<string>, at: nat)
    requires 0 < at < |order| && IsData(order[0]) && !IsData(order[at])
    ensures !NoRepeat(Released(order, None))
  {
    StayReleasedTwice(order[1..], order[0], at - 1);
    assert Released(order, None) == Released(order[1..], Some(order[0]));
  }

  // The case of a first child that goes.
  lemma ReleasedFromData(order: seq<string>)
    requires order != [] && IsData(order[0]) && NoRepeat(order)
    ensures NoRepeat(Released(order, None)) <==> StayFirst(order)
    ensures StayFirst(order) ==> Released(order, None) == DataOf(order)
  {
    if StayFirst(order) {
      assert forall j :: 0 < j < |order| ==> IsData(order[0]) ==> IsData(order[j]);
      AllGo(order);
    } else {
      var i, j :| 0 <= i < j < |order| && IsData(order[i]) && !IsData(order[j]);
      SomeStays(order, j);
    }
  }

  // Every child that goes is released exactly once if and only if the staying children are visited first.
  lemma {:induction false} ReleasedOnce(order: seq<string>)
    requires NoRepeat(order)
    ensures NoRepeat(Released(order, None)) <==> StayFirst(order)
    ensures StayFirst(order) ==> Released(order, None) == DataOf(order)
    decreases |order|
  {
    if order != [] {
      var rest := order[1..];
      if !IsData(order[0]) {
        ReleasedOnce(rest);
        assert Released(order, None) == Released(rest, None);
        StayFirstTail(order);
      } else {
        ReleasedFromData(order);
      }
    }
  }

  lemma {:induction false} AllData(order: seq<string>)
    requires forall i :: 0 <= i < |order| ==> IsData(order[i])
    ensures DataOf(order) == order
    decreases |order|
  {
    if order != [] {
      AllData(order[1..]);
    }
  }
}
