/** The in-memory file tree: nodes in a flat vector that refer to each other by index. Nodes are
    only ever appended; removal takes a node off its parent's child list and leaves it in place. */
module FileTree {
  import opened Bytes

  /** A path component; the components of a path are never empty. */
  type Name = s: seq<byte> | |s| >= 1 witness [47]
  type Path = seq<Name>

  const DOT: Name := [46]
  const DOTDOT: Name := [46, 46]

  datatype Node = Node(inode: nat, name: Name, children: seq<nat>, parent: Option<nat>,
                       ranges: seq<Range>, link: Option<nat>)

  type Nodes = seq<Node>

  const ROOT: nat := 0

  // ----- The source's operations -----

  /** The first child in the list that carries the name. */
  function FindChild(nodes: Nodes, children: seq<nat>, name: Name): (r: Option<nat>)
    ensures r.Some? ==> r.value in children && r.value < |nodes| && nodes[r.value].name == name
  {
    if children == [] then None
    else if children[0] < |nodes| && nodes[children[0]].name == name then Some(children[0])
    else FindChild(nodes, children[1..], name)
  }

  function LookupFrom(nodes: Nodes, current: nat, path: Path): (r: Option<nat>)
    requires current < |nodes|
    ensures r.Some? ==> r.value < |nodes|
    decreases |path|
  {
    if path == [] then Some(current)
    else
      match FindChild(nodes, nodes[current].children, path[0])
      case None => None
      case Some(c) => LookupFrom(nodes, c, path[1..])
  }

  function Lookup(nodes: Nodes, path: Path): (r: Option<nat>)
    requires |nodes| > 0
    ensures r.Some? ==> r.value < |nodes|
  {
    LookupFrom(nodes, ROOT, path)
  }

  function AddChild(nodes: Nodes, parent: nat, node: Node): Nodes
    requires parent < |nodes|
  {
    nodes[parent := nodes[parent].(children := nodes[parent].children + [|nodes|])] + [node.(parent := Some(parent))]
  }

  /** The list without its first entry that carries the name. */
  function Without(nodes: Nodes, children: seq<nat>, name: Name): seq<nat> {
    if children == [] then []
    else if children[0] < |nodes| && nodes[children[0]].name == name then children[1..]
    else [children[0]] + Without(nodes, children[1..], name)
  }

  function RemoveChild(nodes: Nodes, parent: nat, name: Name): Nodes
    requires parent < |nodes|
  {
    nodes[parent := nodes[parent].(children := Without(nodes, nodes[parent].children, name))]
  }

  // ----- Well-formed trees -----

  /** Children come after their parent in the vector and name it as their parent. */
  ghost predicate LinksAgree(nodes: Nodes) {
    && |nodes| > 0 && nodes[ROOT].parent == None
    && (forall i :: 0 < i < |nodes| ==> nodes[i].parent.Some? && nodes[i].parent.value < i)
    && (forall i, k :: 0 <= i < |nodes| && 0 <= k < |nodes[i].children| ==>
          i < nodes[i].children[k] < |nodes| && nodes[nodes[i].children[k]].parent == Some(i))
  }

  ghost predicate SiblingsDiffer(nodes: Nodes, children: seq<nat>) {
    forall j, k :: 0 <= j < k < |children| && children[j] < |nodes| && children[k] < |nodes| ==>
      nodes[children[j]].name != nodes[children[k]].name
  }

  ghost predicate WellFormed(nodes: Nodes) {
    && LinksAgree(nodes)
    && (forall i :: 0 <= i < |nodes| ==> SiblingsDiffer(nodes, nodes[i].children))
  }

  function Parent(nodes: Nodes, i: nat): (p: nat)
    requires i < |nodes|
  {
    match nodes[i].parent case Some(p) => p case None => ROOT
  }

  /** Node `i` can be reached from the root through child lists. */
  ghost predicate Attached(nodes: Nodes, i: nat)
    requires LinksAgree(nodes)
    decreases i
  {
    i == ROOT || (i < |nodes| && i in nodes[Parent(nodes, i)].children && Attached(nodes, Parent(nodes, i)))
  }

  /** The path spelled by the parent chain. */
  function PathOf(nodes: Nodes, i: nat): Path
    requires i < |nodes|
    decreases i
  {
    match nodes[i].parent
    case None => []
    case Some(p) => if p < i then PathOf(nodes, p) + [nodes[i].name] else []
  }

  // ----- Lookup and attached nodes correspond -----

  lemma {:induction false} FindChildFinds(nodes: Nodes, children: seq<nat>, c: nat)
    requires c in children && c < |nodes| && SiblingsDiffer(nodes, children)
    requires forall k :: 0 <= k < |children| ==> children[k] < |nodes|
    ensures FindChild(nodes, children, nodes[c].name) == Some(c)
  {
    var k :| 0 <= k < |children| && children[k] == c;
    if k > 0 {
      assert nodes[children[0]].name != nodes[children[k]].name;
      assert children[1..][k - 1] == c;
      assert SiblingsDiffer(nodes, children[1..]) by {
        forall i, j | 0 <= i < j < |children[1..]| && children[1..][i] < |nodes| && children[1..][j] < |nodes|
          ensures nodes[children[1..][i]].name != nodes[children[1..][j]].name
        {
          assert children[1..][i] == children[i + 1] && children[1..][j] == children[j + 1];
        }
      }
      FindChildFinds(nodes, children[1..], c);
    }
  }

  lemma {:induction false} LookupSnoc(nodes: Nodes, current: nat, path: Path, name: Name)
    requires current < |nodes|
    ensures LookupFrom(nodes, current, path + [name]) ==
            match LookupFrom(nodes, current, path)
            case None => None
            case Some(i) => FindChild(nodes, nodes[i].children, name)
    decreases |path|
  {
    var q := path + [name];
    if path == [] {
      assert q[0] == name && q[1..] == [];
      match FindChild(nodes, nodes[current].children, name)
      case None =>
      case Some(c) => assert LookupFrom(nodes, c, []) == Some(c);
    } else {
      assert q[0] == path[0] && q[1..] == path[1..] + [name];
      match FindChild(nodes, nodes[current].children, path[0])
      case None =>
      case Some(c) => LookupSnoc(nodes, c, path[1..], name);
    }
  }

  /** Every attached node is found by the path its parent chain spells. */
  lemma {:induction false} AttachedIsFound(nodes: Nodes, i: nat)
    requires WellFormed(nodes) && i < |nodes| && Attached(nodes, i)
    ensures Lookup(nodes, PathOf(nodes, i)) == Some(i)
    decreases i
  {
    if i != ROOT {
      var p := Parent(nodes, i);
      AttachedIsFound(nodes, p);
      LookupSnoc(nodes, ROOT, PathOf(nodes, p), nodes[i].name);
      FindChildFinds(nodes, nodes[p].children, i);
    }
  }

  /** A lookup only ever finds the attached node whose parent chain spells the path. */
  lemma {:induction false} FoundIsAttached(nodes: Nodes, path: Path)
    requires WellFormed(nodes) && Lookup(nodes, path).Some?
    ensures var i := Lookup(nodes, path).value; Attached(nodes, i) && PathOf(nodes, i) == path
    decreases |path|
  {
    if path != [] {
      var n := |path| - 1;
      assert path == path[..n] + [path[n]];
      LookupSnoc(nodes, ROOT, path[..n], path[n]);
      FoundIsAttached(nodes, path[..n]);
      var p := Lookup(nodes, path[..n]).value;
      assert Lookup(nodes, path).value in nodes[p].children;
    }
  }

  lemma {:induction false} LookupIff(nodes: Nodes, path: Path, i: nat)
    requires WellFormed(nodes) && i < |nodes|
    ensures Lookup(nodes, path) == Some(i) <==> Attached(nodes, i) && PathOf(nodes, i) == path
  {
    if Lookup(nodes, path) == Some(i) {
      FoundIsAttached(nodes, path);
    }
    if Attached(nodes, i) && PathOf(nodes, i) == path {
      AttachedIsFound(nodes, i);
    }
  }

  // ----- Adding a child -----

  lemma {:induction false} NotFoundMeansNone(nodes: Nodes, children: seq<nat>, name: Name, k: nat)
    requires k < |children| && children[k] < |nodes| && FindChild(nodes, children, name) == None
    ensures nodes[children[k]].name != name
  {
    if k > 0 { NotFoundMeansNone(nodes, children[1..], name, k - 1); }
  }

  lemma AddLinks(nodes: Nodes, p: nat, node: Node)
    requires LinksAgree(nodes) && p < |nodes| && node.children == []
    ensures LinksAgree(AddChild(nodes, p, node))
  {
  }

  /** A child list grown by a node with a new name still has distinct names. */
  lemma {:induction false} AddSibling(nodes: Nodes, t: Nodes, children: seq<nat>, n: nat)
    requires n < |t| && |nodes| == n
    requires forall j :: 0 <= j < |children| ==> children[j] < |nodes|
    requires forall i :: 0 <= i < n ==> t[i].name == nodes[i].name
    requires SiblingsDiffer(nodes, children) && FindChild(nodes, children, t[n].name) == None
    ensures SiblingsDiffer(t, children + [n])
  {
    var cs := children + [n];
    forall j, k | 0 <= j < k < |cs| && cs[j] < |t| && cs[k] < |t| ensures t[cs[j]].name != t[cs[k]].name {
      assert cs[j] == children[j];
      if k == |cs| - 1 { NotFoundMeansNone(nodes, children, t[n].name, j); }
    }
  }

  lemma SameNamesDiffer(nodes: Nodes, t: Nodes, children: seq<nat>)
    requires |nodes| <= |t| && SiblingsDiffer(nodes, children)
    requires forall j :: 0 <= j < |children| ==> children[j] < |nodes|
    requires forall i :: 0 <= i < |nodes| ==> t[i].name == nodes[i].name
    ensures SiblingsDiffer(t, children)
  {
  }

  lemma {:induction false} AddKeepsWellFormed(nodes: Nodes, p: nat, node: Node)
    requires WellFormed(nodes) && p < |nodes| && node.children == []
    requires FindChild(nodes, nodes[p].children, node.name) == None
    ensures WellFormed(AddChild(nodes, p, node))
  {
    hide SiblingsDiffer;
    var n := |nodes|;
    var t := AddChild(nodes, p, node);
    AddLinks(nodes, p, node);
    forall i | 0 <= i < |t| ensures SiblingsDiffer(t, t[i].children) {
      if i < n {
        assert SiblingsDiffer(nodes, nodes[i].children);
        SameNamesDiffer(nodes, t, nodes[i].children);
        if i == p { AddSibling(nodes, t, nodes[p].children, n); }
      } else {
        NoSiblings(t);
      }
    }
  }

  lemma NoSiblings(nodes: Nodes)
    ensures SiblingsDiffer(nodes, [])
  {
  }

  lemma {:induction false} AddKeepsOld(nodes: Nodes, p: nat, node: Node, i: nat)
    requires WellFormed(nodes) && p < |nodes| && LinksAgree(AddChild(nodes, p, node)) && i < |nodes|
    ensures var t := AddChild(nodes, p, node);
            (Attached(t, i) <==> Attached(nodes, i)) && PathOf(t, i) == PathOf(nodes, i)
    decreases i
  {
    if i != ROOT { AddKeepsOld(nodes, p, node, Parent(nodes, i)); }
  }

  /** Adding a child attaches exactly the new node, at its parent's path and its own name. */
  lemma {:induction false} AddAttaches(nodes: Nodes, p: nat, node: Node)
    requires WellFormed(nodes) && p < |nodes| && node.children == []
    requires FindChild(nodes, nodes[p].children, node.name) == None
    ensures var t, n := AddChild(nodes, p, node), |nodes|;
            && WellFormed(t)
            && (forall i :: 0 <= i < n ==> (Attached(t, i) <==> Attached(nodes, i)) && PathOf(t, i) == PathOf(nodes, i))
            && (Attached(t, n) <==> Attached(nodes, p)) && PathOf(t, n) == PathOf(nodes, p) + [node.name]
  {
    AddKeepsWellFormed(nodes, p, node);
    forall i | 0 <= i < |nodes|
      ensures var t := AddChild(nodes, p, node);
              (Attached(t, i) <==> Attached(nodes, i)) && PathOf(t, i) == PathOf(nodes, i)
    {
      AddKeepsOld(nodes, p, node, i);
    }
    var t := AddChild(nodes, p, node);
    assert t[p].children[|nodes[p].children|] == |nodes|;
  }

  // ----- Removing a childless child -----

  function DropAt<T>(s: seq<T>, k: nat): seq<T>
    requires k < |s|
  {
    s[..k] + s[k + 1..]
  }

  lemma SiblingsRest(nodes: Nodes, children: seq<nat>)
    requires children != [] && SiblingsDiffer(nodes, children)
    ensures SiblingsDiffer(nodes, children[1..])
  {
    var rest := children[1..];
    forall i, j | 0 <= i < j < |rest| && rest[i] < |nodes| && rest[j] < |nodes|
      ensures nodes[rest[i]].name != nodes[rest[j]].name
    {
      assert rest[i] == children[i + 1] && rest[j] == children[j + 1];
    }
  }

  lemma DropRest<T>(s: seq<T>, k: nat)
    requires 0 < k < |s|
    ensures DropAt(s, k) == [s[0]] + DropAt(s[1..], k - 1)
  {
  }

  lemma {:induction false} WithoutDrops(nodes: Nodes, children: seq<nat>, k: nat)
    requires k < |children| && SiblingsDiffer(nodes, children)
    requires forall j :: 0 <= j < |children| ==> children[j] < |nodes|
    ensures Without(nodes, children, nodes[children[k]].name) == DropAt(children, k)
  {
    if k == 0 {
      assert DropAt(children, 0) == children[1..];
    } else {
      SiblingsRest(nodes, children);
      assert nodes[children[0]].name != nodes[children[k]].name;
      WithoutDrops(nodes, children[1..], k - 1);
      DropRest(children, k);
    }
  }

  lemma DropMembers<T>(s: seq<T>, k: nat, x: T)
    requires k < |s| && forall i, j :: 0 <= i < j < |s| ==> s[i] != s[j]
    ensures x in DropAt(s, k) <==> x in s && x != s[k]
  {
    if x in s && x != s[k] {
      var j :| 0 <= j < |s| && s[j] == x;
      assert DropAt(s, k)[if j < k then j else j - 1] == x;
    }
    if x in DropAt(s, k) {
      var j :| 0 <= j < |DropAt(s, k)| && DropAt(s, k)[j] == x;
      assert s[if j < k then j else j + 1] == x;
    }
  }

  lemma SiblingsDistinct(nodes: Nodes, children: seq<nat>)
    requires SiblingsDiffer(nodes, children)
    requires forall j :: 0 <= j < |children| ==> children[j] < |nodes|
    ensures forall i, j :: 0 <= i < j < |children| ==> children[i] != children[j]
  {
    forall i, j | 0 <= i < j < |children| ensures children[i] != children[j] {
      assert nodes[children[i]].name != nodes[children[j]].name;
    }
  }

  lemma RemoveShape(nodes: Nodes, p: nat, c: nat) returns (k: nat)
    requires WellFormed(nodes) && p < |nodes| && c in nodes[p].children
    ensures k < |nodes[p].children| && nodes[p].children[k] == c < |nodes|
    ensures RemoveChild(nodes, p, nodes[c].name) ==
            nodes[p := nodes[p].(children := DropAt(nodes[p].children, k))]
    ensures forall x :: x in DropAt(nodes[p].children, k) <==> x in nodes[p].children && x != c
  {
    hide SiblingsDiffer, DropAt, Without;
    var cs := nodes[p].children;
    k :| 0 <= k < |cs| && cs[k] == c;
    assert SiblingsDiffer(nodes, cs);
    WithoutDrops(nodes, cs, k);
    SiblingsDistinct(nodes, cs);
    forall x ensures x in DropAt(cs, k) <==> x in cs && x != c { DropMembers(cs, k, x); }
  }

  lemma DropKeepsDiffer(nodes: Nodes, children: seq<nat>, k: nat)
    requires k < |children| && SiblingsDiffer(nodes, children)
    ensures SiblingsDiffer(nodes, DropAt(children, k))
  {
    var ds := DropAt(children, k);
    forall i, j | 0 <= i < j < |ds| && ds[i] < |nodes| && ds[j] < |nodes|
      ensures nodes[ds[i]].name != nodes[ds[j]].name
    {
      assert ds[i] == children[if i < k then i else i + 1] && ds[j] == children[if j < k then j else j + 1];
    }
  }

  lemma DropKeepsLinks(nodes: Nodes, p: nat, k: nat)
    requires LinksAgree(nodes) && p < |nodes| && k < |nodes[p].children|
    ensures LinksAgree(nodes[p := nodes[p].(children := DropAt(nodes[p].children, k))])
  {
    var cs := nodes[p].children;
    var ds := DropAt(cs, k);
    assert forall j :: 0 <= j < |ds| ==> ds[j] == cs[if j < k then j else j + 1];
  }

  lemma RemoveKeepsWellFormed(nodes: Nodes, p: nat, c: nat)
    requires WellFormed(nodes) && p < |nodes| && c in nodes[p].children
    ensures WellFormed(RemoveChild(nodes, p, nodes[c].name))
  {
    hide SiblingsDiffer, DropAt, RemoveChild;
    var k := RemoveShape(nodes, p, c);
    var t := RemoveChild(nodes, p, nodes[c].name);
    DropKeepsLinks(nodes, p, k);
    forall i | 0 <= i < |t| ensures SiblingsDiffer(t, t[i].children) {
      assert SiblingsDiffer(nodes, nodes[i].children);
      if i == p { DropKeepsDiffer(nodes, nodes[p].children, k); }
      SameNamesDiffer(nodes, t, t[i].children);
    }
  }

  lemma {:induction false} RemoveDetachesOne(nodes: Nodes, p: nat, c: nat, i: nat)
    requires WellFormed(nodes) && p < |nodes| && c in nodes[p].children && i < |nodes|
    requires c < |nodes| && nodes[c].children == [] && WellFormed(RemoveChild(nodes, p, nodes[c].name))
    ensures var t := RemoveChild(nodes, p, nodes[c].name);
            (Attached(t, i) <==> Attached(nodes, i) && i != c) && PathOf(t, i) == PathOf(nodes, i)
    decreases i
  {
    if i != ROOT {
      var k := RemoveShape(nodes, p, c);
      var q := Parent(nodes, i);
      RemoveDetachesOne(nodes, p, c, q);
    } else {
      var k := RemoveShape(nodes, p, c);
    }
  }

  /** Taking a childless node off its parent's list detaches exactly that node. */
  lemma {:induction false} RemoveDetaches(nodes: Nodes, p: nat, c: nat)
    requires WellFormed(nodes) && p < |nodes| && c in nodes[p].children
    requires c < |nodes| && nodes[c].children == []
    ensures var t := RemoveChild(nodes, p, nodes[c].name);
            && WellFormed(t) && |t| == |nodes|
            && (forall i :: 0 <= i < |nodes| ==>
                (Attached(t, i) <==> Attached(nodes, i) && i != c) && PathOf(t, i) == PathOf(nodes, i))
  {
    RemoveKeepsWellFormed(nodes, p, c);
    forall i | 0 <= i < |nodes|
      ensures var t := RemoveChild(nodes, p, nodes[c].name);
              (Attached(t, i) <==> Attached(nodes, i) && i != c) && PathOf(t, i) == PathOf(nodes, i)
    {
      RemoveDetachesOne(nodes, p, c, i);
    }
  }
}
