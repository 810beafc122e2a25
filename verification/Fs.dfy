/** The formatter's state and its namespace operations on values: unlink, link and the entry that
    create adds. */
module Fs {
  import opened Bytes
  import opened Payload
  import opened FileTree

  datatype Kind = Unused | Directory | Regular | Symlink

  /** Link counts have 16 bits; one past the largest is 0 again. */
  type LinkCount = n: nat | n < 0x1_0000

  const MOST_LINKS: LinkCount := 0xFFFF

  function Bump(n: LinkCount): LinkCount { (n + 1) % 0x1_0000 }

  /** The space for attributes at the end of an inode record. */
  type InlineArea = b: seq<byte> | |b| == 96 witness Zeros(96)

  /** An inode: its type, link count, size, the 60-byte block field, the xattr block (0 if none) and the
      attributes in the record itself. */
  datatype Inode = Inode(kind: Kind, links: LinkCount, size: nat, field: seq<byte>, xattr: nat, inline: InlineArea)

  const FREE: Inode := Inode(Unused, 0, 0, Zeros(60), 0, Zeros(96))
  const ROOT_INODE: nat := 2
  const FIRST_INODE: nat := 11
  const MAX_LINKS: nat := 65000

  /** What an inode was created with: a history the operations never read. `origin` is the node
      created with it, `attrs` what its xattr block was filled with; all blocks given to the inode lie
      in `lo..hi`. */
  datatype Born = Born(kind: Kind, content: seq<byte>, origin: nat, ranges: seq<Range>, xattr: nat, attrs: seq<byte>,
                       lo: nat, hi: nat)

  const UNBORN: Born := Born(Unused, [], 0, [], 0, [], 0, 0)

  datatype St = St(store: Store, inodes: seq<Inode>, nodes: Nodes, deleted: seq<Range>,
                   deferred: map<nat, seq<Range>>, born: seq<Born>)

  function InodeAt(inodes: seq<Inode>, k: nat): Inode {
    if 1 <= k <= |inodes| then inodes[k - 1] else FREE
  }

  function BornAt(born: seq<Born>, k: nat): Born {
    if 1 <= k <= |born| then born[k - 1] else UNBORN
  }

  function SetInode(inodes: seq<Inode>, k: nat, v: Inode): (r: seq<Inode>)
    ensures |r| == |inodes|
  {
    if 1 <= k <= |inodes| then inodes[k - 1 := v] else inodes
  }

  function Target(n: Node): nat {
    match n.link case Some(t) => t case None => n.inode
  }

  predicate IsDirNode(nodes: Nodes, inodes: seq<Inode>, i: nat) {
    i < |nodes| && nodes[i].link == None && InodeAt(inodes, nodes[i].inode).kind == Directory
  }

  /** The ranges a node gives up when it goes. */
  function NodeBlocks(n: Node): seq<Range> {
    if n.ranges != [] && n.ranges[0].start == n.ranges[0].end then n.ranges[1..] else n.ranges
  }

  function Deferred(deferred: map<nat, seq<Range>>, k: nat): seq<Range> {
    if k in deferred then deferred[k] else []
  }

  function XattrRange(x: nat): seq<Range> {
    if x == 0 then [] else [Range(x, x + 1)]
  }

  // ----- Unlink -----

  /** Drop one name of inode `t`, the name that node `n` was. */
  function Release(s: St, n: Node): (r: St)
    ensures r.nodes == s.nodes && r.store == s.store && r.born == s.born
  {
    var t := Target(n);
    var ino := InodeAt(s.inodes, t);
    var links := if ino.links > 0 then ino.links - 1 else 0;
    var blocks := NodeBlocks(n);
    if t < FIRST_INODE then s
    else if links == 0 then
      s.(inodes := SetInode(s.inodes, t, FREE),
         deleted := s.deleted + blocks + Deferred(s.deferred, t) + XattrRange(ino.xattr),
         deferred := s.deferred - {t})
    else
      s.(inodes := SetInode(s.inodes, t, ino.(links := links)),
         deferred := if blocks == [] then s.deferred else s.deferred[t := Deferred(s.deferred, t) + blocks])
  }

  /** The parent directory loses the `..` of a removed directory. */
  function DropDotDot(nodes: Nodes, inodes: seq<Inode>, i: nat): seq<Inode>
    requires i < |nodes|
  {
    var p := Parent(nodes, i);
    if p < |nodes| && IsDirNode(nodes, inodes, i) && InodeAt(inodes, nodes[p].inode).links > 2 then
      var ino := InodeAt(inodes, nodes[p].inode);
      SetInode(inodes, nodes[p].inode, ino.(links := ino.links - 1))
    else inodes
  }

  /** Remove one node whose children are gone. */
  function RemoveLeaf(s: St, i: nat): (r: St)
    requires i < |s.nodes|
    ensures |r.nodes| == |s.nodes|
  {
    var p := Parent(s.nodes, i);
    var nodes := if p < |s.nodes| then RemoveChild(s.nodes, p, s.nodes[i].name) else s.nodes;
    Release(s.(nodes := nodes, inodes := DropDotDot(s.nodes, s.inodes, i)), s.nodes[i])
  }

  /** Remove everything below node `i`, then the node itself unless it is the root. */
  function RemoveTree(s: St, i: nat): (r: St)
    requires i < |s.nodes|
    ensures |r.nodes| == |s.nodes|
    decreases |s.nodes| - i, 1, 0
  {
    var t := RemoveAll(s, i, s.nodes[i].children);
    if i == ROOT then t else RemoveLeaf(t, i)
  }

  /** Remove the listed children of node `i`, in order. */
  function RemoveAll(s: St, i: nat, children: seq<nat>): (r: St)
    requires i < |s.nodes|
    ensures |r.nodes| == |s.nodes|
    decreases |s.nodes| - i, 0, |children|
  {
    if children == [] then s
    else if i < children[0] < |s.nodes| then RemoveAll(RemoveTree(s, children[0]), i, children[1..])
    else RemoveAll(s, i, children[1..])
  }

  datatype Error = NotDirectory | NotFile | NotFound | CannotHardlinkDirectory | MaximumLinksExceeded
                 | InvalidName | FileTooBig | UnsupportedFiletype | XattrInsufficientSpace | TooManyExtents

  datatype Outcome = Outcome(state: St, error: Option<Error>)

  /** Unlink for a path of plain names. */
  function UnlinkNamed(s: St, path: Path, whiteout: bool): (r: Outcome)
    requires |s.nodes| > 0
    ensures |r.state.nodes| == |s.nodes|
  {
    match Lookup(s.nodes, path)
    case None => Outcome(s, None)
    case Some(i) =>
      if whiteout then
        if IsDirNode(s.nodes, s.inodes, i) then Outcome(RemoveAll(s, i, s.nodes[i].children), None)
        else Outcome(s, Some(NotDirectory))
      else Outcome(RemoveTree(s, i), None)
  }

  /** The names that a lookup goes by: names of a single dot are passed over. */
  function Components(path: Path): Path {
    if path == [] then []
    else
      var n := |path| - 1;
      if path[n] == DOT then Components(path[..n]) else Components(path[..n]) + [path[n]]
  }

  predicate EndsInDot(path: Path) { path != [] && path[|path| - 1] == DOT }

  /** What is done to a node that was found by a path ending in a dot: its parent, looked up by the path
      before the dot, is the node itself, and the name to take off its list is the dot. */
  function RemoveByDot(s: St, i: nat): (r: St)
    requires i < |s.nodes|
    ensures |r.nodes| == |s.nodes|
  {
    TakeLink(RemoveAll(s, i, s.nodes[i].children), i)
  }

  function TakeLink(t: St, i: nat): (r: St)
    requires i < |t.nodes|
    ensures |r.nodes| == |t.nodes|
  {
    var q := t.nodes[i].inode;
    var ino := InodeAt(t.inodes, q);
    var inodes := if IsDirNode(t.nodes, t.inodes, i) && ino.links > 2 then
      SetInode(t.inodes, q, ino.(links := ino.links - 1)) else t.inodes;
    Release(t.(nodes := RemoveChild(t.nodes, i, DOT), inodes := inodes), t.nodes[i])
  }

  function Unlink(s: St, path: Path, whiteout: bool): (r: Outcome)
    requires |s.nodes| > 0
    ensures |r.state.nodes| == |s.nodes|
  {
    var found := Lookup(s.nodes, Components(path));
    if found.Some? && EndsInDot(path) && !whiteout then Outcome(RemoveByDot(s, found.value), None)
    else UnlinkNamed(s, Components(path), whiteout)
  }

  // ----- Link -----

  predicate NamesFit(path: Path) {
    forall k :: 0 <= k < |path| ==> |path[k]| <= 255
  }

  function LinkNode(name: Name, target: nat): Node {
    Node(ROOT_INODE, name, [], None, [], Some(target))
  }

  function AddLink(s: St, parent: nat, name: Name, target: nat): St
    requires parent < |s.nodes|
  {
    var ino := InodeAt(s.inodes, target);
    s.(inodes := SetInode(s.inodes, target, ino.(links := Bump(ino.links))),
       nodes := AddChild(s.nodes, parent, LinkNode(name, target)))
  }

  /** The last component of the root path as the formatter sees it. */
  const SLASH: Name := [47]

  function ParentPath(path: Path): Path { if path == [] then [] else path[..|path| - 1] }

  function LastName(path: Path): Name { if path == [] then SLASH else path[|path| - 1] }

  datatype LinkPlan = Fail(error: Error) | Already | Go(parent: nat, ino: nat)

  /** All that link looks at before it changes anything. */
  function PlanLink(s: St, path: Path, target: Path): (r: LinkPlan)
    requires |s.nodes| > 0
    ensures r.Go? ==> r.parent < |s.nodes|
  {
    if !NamesFit(path) then Fail(InvalidName)
    else
      match Lookup(s.nodes, target)
      case None => Fail(NotFound)
      case Some(t) =>
        var ino := s.nodes[t].inode;
        if InodeAt(s.inodes, ino).kind == Directory then Fail(CannotHardlinkDirectory)
        else
          var existing := Lookup(s.nodes, path);
          if existing.Some? && Target(s.nodes[existing.value]) == ino then Already
          else
            match Lookup(s.nodes, ParentPath(path))
            case None => Fail(NotFound)
            case Some(p) =>
              if InodeAt(s.inodes, s.nodes[p].inode).links >= MAX_LINKS then Fail(MaximumLinksExceeded)
              else Go(p, ino)
  }

  /** Take away what the link replaces. */
  function BeforeAdding(s: St, path: Path): (u: St)
    requires |s.nodes| > 0
    ensures |u.nodes| == |s.nodes|
  {
    var existing := Lookup(s.nodes, path);
    if existing.Some? then RemoveTree(s, existing.value) else s
  }

  function Link(s: St, path: Path, target: Path): (r: Outcome)
    requires |s.nodes| > 0
    ensures |s.nodes| <= |r.state.nodes| <= |s.nodes| + 1
  {
    match PlanLink(s, path, target)
    case Fail(e) => Outcome(s, Some(e))
    case Already => Outcome(s, None)
    case Go(p, ino) => Outcome(AddLink(BeforeAdding(s, path), p, LastName(path), ino), None)
  }

  // ----- The entry that create adds -----

  /** Register a new inode and its node under `parent`; a new directory gives its parent a link. */
  function AddEntry(s: St, parent: nat, name: Name, ino: Inode, store: Store, b: Born): St
    requires parent < |s.nodes|
  {
    var q := s.nodes[parent].inode;
    var up := InodeAt(s.inodes, q);
    var inodes := if ino.kind == Directory then SetInode(s.inodes, q, up.(links := Bump(up.links))) else s.inodes;
    s.(store := store,
       inodes := inodes + [ino],
       nodes := AddChild(s.nodes, parent, Node(|s.inodes| + 1, name, [], None, b.ranges, None)),
       born := s.born + [b.(origin := |s.nodes|)])
  }
}
