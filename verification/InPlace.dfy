/** The file tree as the formatter holds it: one vector of nodes, changed in place. */
module InPlace {
  import opened Bytes
  import opened FileTree

  class Tree {
    var nodes: Nodes

    constructor (inode: nat, name: Name)
      ensures nodes == [Node(inode, name, [], None, [], None)]
    {
      nodes := [Node(inode, name, [], None, [], None)];
    }

    method FindIn(children: seq<nat>, name: Name) returns (r: Option<nat>)
      requires forall k :: 0 <= k < |children| ==> children[k] < |nodes|
      ensures r == FindChild(nodes, children, name)
    {
      for k := 0 to |children|
        invariant FindChild(nodes, children, name) == FindChild(nodes, children[k..], name)
      {
        if nodes[children[k]].name == name { return Some(children[k]); }
        assert children[k..][1..] == children[k + 1..];
      }
      return None;
    }

    /** Walk down from the root, one component at a time. */
    method Find(path: Path) returns (r: Option<nat>)
      requires LinksAgree(nodes)
      ensures r == Lookup(nodes, path)
    {
      var current: nat := ROOT;
      for k := 0 to |path|
        invariant current < |nodes|
        invariant Lookup(nodes, path) == LookupFrom(nodes, current, path[k..])
      {
        var found := FindIn(nodes[current].children, path[k]);
        if found == None { return None; }
        assert path[k..][1..] == path[k + 1..];
        current := found.value;
      }
      return Some(current);
    }

    /** Append a node and hand out its index. */
    method Add(parent: nat, node: Node) returns (index: nat)
      requires parent < |nodes|
      modifies this
      ensures nodes == AddChild(old(nodes), parent, node) && index == |old(nodes)|
    {
      index := |nodes|;
      nodes := nodes + [node.(parent := Some(parent))];
      nodes := nodes[parent := nodes[parent].(children := nodes[parent].children + [index])];
    }

    /** Where in the list the first child of that name stands. */
    method Position(children: seq<nat>, name: Name) returns (k: nat)
      requires forall j :: 0 <= j < |children| ==> children[j] < |nodes|
      ensures k <= |children|
      ensures Without(nodes, children, name) == if k < |children| then children[..k] + children[k + 1..] else children
    {
      for j := 0 to |children|
        invariant Without(nodes, children, name) == children[..j] + Without(nodes, children[j..], name)
      {
        assert children[j..][1..] == children[j + 1..];
        if nodes[children[j]].name == name { return j; }
        Assoc(children[..j], [children[j]], Without(nodes, children[j + 1..], name));
        assert children[..j] + [children[j]] == children[..j + 1];
      }
      k := |children|;
    }

    /** Take the first child of that name off the list; the node itself stays where it is. */
    method Remove(parent: nat, name: Name)
      requires LinksAgree(nodes) && parent < |nodes|
      modifies this
      ensures nodes == RemoveChild(old(nodes), parent, name)
    {
      hide Without;
      var children := nodes[parent].children;
      var k := Position(children, name);
      if k < |children| {
        nodes := nodes[parent := nodes[parent].(children := children[..k] + children[k + 1..])];
      } else {
        assert nodes[parent].(children := children) == nodes[parent];
      }
    }

    /** Rebuild a path along the parent chain; it ends because parents come before their children. */
    method PathTo(index: nat) returns (path: Path)
      requires LinksAgree(nodes) && index < |nodes|
      ensures path == PathOf(nodes, index)
    {
      var current: nat := index;
      path := [];
      while nodes[current].parent.Some?
        invariant current < |nodes|
        invariant PathOf(nodes, index) == PathOf(nodes, current) + path
        decreases current
      {
        var p := nodes[current].parent.value;
        assert p < current;
        assert PathOf(nodes, current) + path == PathOf(nodes, p) + ([nodes[current].name] + path);
        path := [nodes[current].name] + path;
        current := p;
      }
    }
  }
}
