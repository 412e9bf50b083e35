// The DSA node tree: every node is known by the keys on the way from the root to it.
module NodeTree {
  import opened Wrappers

  const SERVER_KEY_INIT: string := "srv_"

  type Path = seq<string>

  datatype Value = NoValue | Text(s: string) | Number(n: int) | Flag(b: bool) | Real(r: real)

  // What a node stands for; keys such as FC, Object or Value are housekeeping.
  datatype Kind = Housekeeping | Container | DataObject | DataAttribute

  datatype Node = Node(kind: Kind, value: Value)

  type Nodes = map<Path, Node>

  // Adding a child that is already there is refused.
  function Added(nodes: Nodes, parent: Path, key: string, node: Node): Nodes {
    if parent in nodes && parent + [key] !in nodes then nodes[parent + [key] := node] else nodes
  }

  function Child(nodes: Nodes, parent: Path, key: string): Option<Path> {
    if parent + [key] in nodes then Some(parent + [key]) else None
  }

  predicate Closed(nodes: Nodes) {
    forall p :: p in nodes && p != [] ==> p[..|p| - 1] in nodes
  }

  // All of a is still there, unchanged, in b.
  predicate Kept(a: Nodes, b: Nodes) {
    forall p :: p in a ==> p in b && b[p] == a[p]
  }

  // Where b has nodes that a has not, they are below at.
  predicate GrownBelow(a: Nodes, b: Nodes, at: Path) {
    forall p :: p in b && p !in a ==> at < p
  }

  // What adding nodes below at preserves.
  predicate Grown(a: Nodes, b: Nodes, at: Path) {
    Kept(a, b) && GrownBelow(a, b, at) && (Closed(a) ==> Closed(b))
  }

  lemma AddedFacts(nodes: Nodes, parent: Path, key: string, node: Node)
    ensures var after := Added(nodes, parent, key, node);
            Grown(nodes, after, parent) && (parent in nodes ==> parent + [key] in after)
  {
    assert (parent + [key])[..|parent|] == parent;
  }

  lemma GrownChain(a: Nodes, b: Nodes, c: Nodes, at: Path)
    requires Grown(a, b, at) && Grown(b, c, at)
    ensures Grown(a, c, at)
  {
  }

  lemma GrownChild(a: Nodes, b: Nodes, at: Path, key: string)
    requires Grown(a, b, at + [key])
    ensures Grown(a, b, at)
  {
    forall q | q in b && q !in a
      ensures at < q
    {
      assert at + [key] < q;
      assert q[..|at|] == (at + [key])[..|at|] == at;
    }
  }

  // Several children added to one node, in order.
  function AddAll(nodes: Nodes, p: Path, children: seq<(string, Node)>): Nodes
    decreases |children|
  {
    if children == [] then nodes else AddAll(Added(nodes, p, children[0].0, children[0].1), p, children[1..])
  }

  lemma {:induction false} AddAllGrown(nodes: Nodes, p: Path, children: seq<(string, Node)>)
    ensures Grown(nodes, AddAll(nodes, p, children), p)
    decreases |children|
  {
    if children != [] {
      var next := Added(nodes, p, children[0].0, children[0].1);
      AddedFacts(nodes, p, children[0].0, children[0].1);
      AddAllGrown(next, p, children[1..]);
      GrownChain(nodes, next, AddAll(nodes, p, children), p);
    }
  }

  // A child with a key of its own is there afterwards, and only listed keys are new.
  lemma {:induction false} AddAllChildren(nodes: Nodes, p: Path, children: seq<(string, Node)>)
    requires p in nodes
    ensures forall q :: q in AddAll(nodes, p, children) && q !in nodes ==>
              exists i :: 0 <= i < |children| && q == p + [children[i].0]
                && AddAll(nodes, p, children)[q].kind == children[i].1.kind
    ensures forall i :: 0 <= i < |children| ==> p + [children[i].0] in AddAll(nodes, p, children)
    ensures (forall i, j :: 0 <= i < j < |children| ==> children[i].0 != children[j].0) ==>
              forall i :: 0 <= i < |children| && p + [children[i].0] !in nodes ==>
                AddAll(nodes, p, children)[p + [children[i].0]] == children[i].1
    decreases |children|
  {
    if children != [] {
      var next := Added(nodes, p, children[0].0, children[0].1);
      var after := AddAll(nodes, p, children);
      AddedFacts(nodes, p, children[0].0, children[0].1);
      AddAllGrown(next, p, children[1..]);
      AddAllChildren(next, p, children[1..]);
      forall q | q in after && q !in nodes
        ensures exists i :: 0 <= i < |children| && q == p + [children[i].0] && after[q].kind == children[i].1.kind
      {
        if q in next {
          assert q == p + [children[0].0];
        } else {
          var i :| 0 <= i < |children[1..]| && q == p + [children[1..][i].0]
                   && after[q].kind == children[1..][i].1.kind;
          assert children[i + 1] == children[1..][i];
        }
      }
      forall i | 0 <= i < |children|
        ensures p + [children[i].0] in after
      {
        assert i > 0 ==> children[i] == children[1..][i - 1];
      }
      if forall i, j :: 0 <= i < j < |children| ==> children[i].0 != children[j].0 {
        forall i | 0 <= i < |children| && p + [children[i].0] !in nodes
          ensures after[p + [children[i].0]] == children[i].1
        {
          if i > 0 {
            assert children[i] == children[1..][i - 1] && children[0].0 != children[i].0;
            assert (p + [children[i].0])[|p|] != (p + [children[0].0])[|p|];
          }
        }
      }
    }
  }

  class Tree {
    var nodes: Nodes

    constructor ()
      ensures nodes == map[[] := Node(Container, NoValue)]
    {
      nodes := map[[] := Node(Container, NoValue)];
    }

    method AddChild(parent: Path, key: string, node: Node) returns (ok: bool)
      modifies this
      ensures nodes == Added(old(nodes), parent, key, node)
      ensures ok == (parent in old(nodes) && parent + [key] !in old(nodes))
    {
      ok := parent in nodes && parent + [key] !in nodes;
      if ok {
        nodes := nodes[parent + [key] := node];
      }
    }
  }

  method AddChildren(tree: Tree, p: Path, children: seq<(string, Node)>)
    modifies tree
    ensures tree.nodes == AddAll(old(tree.nodes), p, children)
  {
    var i := 0;
    while i < |children|
      invariant 0 <= i <= |children|
      invariant AddAll(tree.nodes, p, children[i..]) == AddAll(old(tree.nodes), p, children)
    {
      var _ := tree.AddChild(p, children[i].0, children[i].1);
      assert children[i..][1..] == children[i + 1..];
      i := i + 1;
    }
  }

  // The server a node belongs to: its ancestor just below the root, if that is a server node.
  function ServerOf(node: Path): Option<Path>
    requires node != []
  {
    if SERVER_KEY_INIT <= node[0] then Some(node[..1]) else None
  }

  method GetServerNode(start: Path) returns (r: Option<Path>)
    requires start != []
    ensures r == ServerOf(start)
  {
    var node := start;
    while |node| > 1
      invariant 1 <= |node| <= |start| && node == start[..|node|]
    {
      node := node[..|node| - 1];
    }
    if SERVER_KEY_INIT <= node[0] {
      return Some(node);
    } else {
      return None;
    }
  }
}
