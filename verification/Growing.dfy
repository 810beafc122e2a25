/** Adding entries: a new inode with its name, or one more name for a file. */
module Growing {
  import opened Bytes
  import opened Payload
  import opened Placement
  import opened FileTree
  import opened Fs
  import opened Namespace
  import opened Ownership
  import opened Pruning

  /** Tree `t` is tree `nodes` with one node more, attached under `p` without children. */
  ghost predicate Grown(nodes: Nodes, t: Nodes, p: nat, node: Node)
    requires LinksAgree(nodes) && LinksAgree(t)
  {
    var n := |nodes|;
    && |t| == n + 1 && p < n
    && t[n] == node.(parent := Some(p)) && node.children == []
    && (forall j :: 0 <= j < n ==>
        t[j].inode == nodes[j].inode && t[j].name == nodes[j].name && t[j].parent == nodes[j].parent
                                   && t[j].ranges == nodes[j].ranges && t[j].link == nodes[j].link)
    && (forall j, c :: 0 <= j < n ==> (c in t[j].children <==> c in nodes[j].children || (j == p && c == n)))
    && (forall j :: 0 <= j < n ==> (Attached(t, j) <==> Attached(nodes, j)))
    && Attached(t, n)
  }

  lemma {:induction false} AddGrows(nodes: Nodes, p: nat, node: Node)
    requires WellFormed(nodes) && p < |nodes| && Attached(nodes, p) && node.children == []
    requires FindChild(nodes, nodes[p].children, node.name) == None
    ensures WellFormed(AddChild(nodes, p, node)) && Grown(nodes, AddChild(nodes, p, node), p, node)
  {
    hide SiblingsDiffer, Attached, LinksAgree, PathOf, FindChild;
    AddAttaches(nodes, p, node);
  }

  lemma NamesGrown(nodes: Nodes, t: Nodes, p: nat, node: Node, k: nat)
    requires LinksAgree(nodes) && LinksAgree(t) && Grown(nodes, t, p, node)
    ensures Names(t, k) == Names(nodes, k) + (if Target(node) == k then {|nodes|} else {})
    ensures |nodes| !in Names(nodes, k)
  {
    hide Attached, LinksAgree;
  }

  /** The inodes after adding a node: old directories stay directories, and the parent's count follows. */
  ghost predicate InodesGrown(nodes: Nodes, inodes: seq<Inode>, after: seq<Inode>, p: nat, isDir: bool)
    requires p < |nodes|
  {
    && (forall k :: 1 <= k <= |inodes| ==>
        InodeAt(after, k).kind == InodeAt(inodes, k).kind && InodeAt(after, k).xattr == InodeAt(inodes, k).xattr)
    && |after| >= |inodes|
    && (forall k :: 1 <= k <= |inodes| && InodeAt(inodes, k).kind == Directory ==>
          InodeAt(after, k).links == InodeAt(inodes, k).links + if isDir && k == nodes[p].inode then 1 else 0)
  }

  lemma DirsGrown(nodes: Nodes, inodes: seq<Inode>, t: Nodes, after: seq<Inode>, p: nat, node: Node, isDir: bool,
                  j: nat)
    requires LinksAgree(nodes) && LinksAgree(t) && Grown(nodes, t, p, node) && NodesSane(nodes, inodes)
    requires InodesGrown(nodes, inodes, after, p, isDir) && j < |nodes|
    ensures IsDirNode(t, after, j) <==> IsDirNode(nodes, inodes, j)
  {
    hide Attached, LinksAgree;
  }

  lemma KidsGrown(nodes: Nodes, inodes: seq<Inode>, t: Nodes, after: seq<Inode>, p: nat, node: Node, isDir: bool,
                  j: nat)
    requires LinksAgree(nodes) && LinksAgree(t) && Grown(nodes, t, p, node) && NodesSane(nodes, inodes)
    requires InodesGrown(nodes, inodes, after, p, isDir) && isDir == IsDirNode(t, after, |nodes|) && j < |nodes|
    ensures DirKids(t, after, j) == DirKids(nodes, inodes, j) + (if isDir && j == p then {|nodes|} else {})
    ensures |nodes| !in DirKids(nodes, inodes, j)
  {
    hide NodesSane, Attached, InodesGrown;
    forall c
      ensures c in DirKids(t, after, j)
              <==> c in DirKids(nodes, inodes, j) + (if isDir && j == p then {|nodes|} else {})
    {
      if c in nodes[j].children {
        var m :| 0 <= m < |nodes[j].children| && nodes[j].children[m] == c;
        DirsGrown(nodes, inodes, t, after, p, node, isDir, c);
      }
    }
  }

  lemma DirCountsGrown(nodes: Nodes, inodes: seq<Inode>, t: Nodes, after: seq<Inode>, p: nat, node: Node, isDir: bool)
    requires LinksAgree(nodes) && LinksAgree(t) && Grown(nodes, t, p, node) && NodesSane(nodes, inodes)
    requires InodesGrown(nodes, inodes, after, p, isDir) && isDir == IsDirNode(t, after, |nodes|)
    requires DirCounts(nodes, inodes) && nodes[p].link == None
    requires isDir ==> InodeAt(after, node.inode).links == 2
    ensures DirCounts(t, after)
  {
    hide DirKids, Attached, LinksAgree;
    forall j {:trigger DirKids(t, after, j)} | 0 <= j < |t| && Attached(t, j) && IsDirNode(t, after, j)
      ensures InodeAt(after, t[j].inode).links == 2 + |DirKids(t, after, j)|
    {
      if j < |nodes| {
        KidsGrown(nodes, inodes, t, after, p, node, isDir, j);
        DirsGrown(nodes, inodes, t, after, p, node, isDir, j);
        assert j != p ==> nodes[j].inode != nodes[p].inode;
      } else {
        NoKids(t, after, j);
      }
    }
  }

  lemma {:induction false} RemovedGrown(nodes: Nodes, inodes: seq<Inode>, t: Nodes, after: seq<Inode>, p: nat,
                                        node: Node, isDir: bool)
    requires LinksAgree(nodes) && LinksAgree(t) && Grown(nodes, t, p, node) && NodesSane(nodes, inodes)
    requires InodesGrown(nodes, inodes, after, p, isDir)
    requires RemovedDirs(nodes, inodes) && Attached(nodes, p) && nodes[p].link == None
    ensures RemovedDirs(t, after)
  {
    hide Attached, LinksAgree;
  }

  lemma {:induction false} KindsGrown(nodes: Nodes, inodes: seq<Inode>, t: Nodes, after: seq<Inode>, p: nat, node: Node,
                                      isDir: bool)
    requires LinksAgree(nodes) && LinksAgree(t) && Grown(nodes, t, p, node) && NodesSane(nodes, inodes)
    requires InodesGrown(nodes, inodes, after, p, isDir) && KindsSane(nodes, inodes)
    requires Attached(nodes, p) && IsDirNode(nodes, inodes, p)
    requires InodeAt(after, Target(node)).kind != Unused
    requires node.link.Some? ==> IsFile(InodeAt(after, Target(node)).kind)
    requires IsDirNode(t, after, |nodes|) ==> node.ranges == []
    ensures KindsSane(t, after)
  {
    hide Attached, LinksAgree;
    forall j | 0 <= j < |nodes| ensures IsDirNode(t, after, j) <==> IsDirNode(nodes, inodes, j) {
      DirsGrown(nodes, inodes, t, after, p, node, isDir, j);
    }
    forall j | 0 <= j < |t| && t[j].children != [] ensures Attached(t, j) && IsDirNode(t, after, j) {
      assert t[j].children[0] in t[j].children;
    }
  }

  lemma NewNode(nodes: Nodes, t: Nodes, p: nat, node: Node)
    requires LinksAgree(nodes) && LinksAgree(t) && Grown(nodes, t, p, node)
    ensures |t| == |nodes| + 1 && t[|nodes|].link == node.link && t[|nodes|].inode == node.inode
    ensures t[|nodes|].ranges == node.ranges
  {
  }

  lemma NodesSaneGrown(nodes: Nodes, inodes: seq<Inode>, t: Nodes, after: seq<Inode>, p: nat, node: Node)
    requires LinksAgree(nodes) && LinksAgree(t) && Grown(nodes, t, p, node) && NodesSane(nodes, inodes)
    requires |inodes| <= |after|
    requires if node.link == None then node.inode == |inodes| + 1 == |after|
             else node.inode == ROOT_INODE && FIRST_INODE <= node.link.value <= |inodes| && node.ranges == []
    ensures NodesSane(t, after)
  {
    hide Attached, LinksAgree;
  }

  // ----- One more name for a file -----

  lemma {:induction false} AddLinkInv(s: St, p: nat, name: Name, k: nat)
    requires Inv(s.nodes, s.inodes) && p < |s.nodes| && Attached(s.nodes, p) && IsDirNode(s.nodes, s.inodes, p)
    requires FindChild(s.nodes, s.nodes[p].children, name) == None
    requires FIRST_INODE <= k <= |s.inodes| && IsFile(InodeAt(s.inodes, k).kind)
    requires InodeAt(s.inodes, k).links < MOST_LINKS
    ensures var r := AddLink(s, p, name, k);
            Inv(r.nodes, r.inodes) && Grown(s.nodes, r.nodes, p, LinkNode(name, k))
            && InodesGrown(s.nodes, s.inodes, r.inodes, p, false)
  {
    hide SiblingsDiffer, DirKids, Names, FileCounts, DirCounts, RemovedDirs, KindsSane, AddChild, Attached, LinksAgree,
         FindChild, Grown;
    var nodes, inodes, node := s.nodes, s.inodes, LinkNode(name, k);
    var r := AddLink(s, p, name, k);
    AddGrows(nodes, p, node);
    NewNode(nodes, r.nodes, p, node);
    NodesSaneGrown(nodes, inodes, r.nodes, r.inodes, p, node);
    assert InodesGrown(nodes, inodes, r.inodes, p, false);
    KindsGrown(nodes, inodes, r.nodes, r.inodes, p, node, false);
    DirCountsGrown(nodes, inodes, r.nodes, r.inodes, p, node, false);
    RemovedGrown(nodes, inodes, r.nodes, r.inodes, p, node, false);
    AddLinkFiles(s, r, p, node, k);
  }

  lemma AddLinkFiles(s: St, r: St, p: nat, node: Node, k: nat)
    requires LinksAgree(s.nodes) && LinksAgree(r.nodes) && Grown(s.nodes, r.nodes, p, node)
    requires FileCounts(s.nodes, s.inodes)
    requires node.link == Some(k) && FIRST_INODE <= k <= |s.inodes| && IsFile(InodeAt(s.inodes, k).kind)
    requires InodeAt(s.inodes, k).links < MOST_LINKS
    requires r.inodes == SetInode(s.inodes, k, InodeAt(s.inodes, k).(links := Bump(InodeAt(s.inodes, k).links)))
    ensures FileCounts(r.nodes, r.inodes)
  {
    hide Names, Grown, Attached, LinksAgree;
    forall x {:trigger InodeAt(r.inodes, x)} | FIRST_INODE <= x <= |r.inodes|
      ensures IsFile(InodeAt(r.inodes, x).kind) ==> InodeAt(r.inodes, x).links == |Names(r.nodes, x)| > 0
      ensures InodeAt(r.inodes, x).kind == Unused ==> InodeAt(r.inodes, x).links == 0
    {
      NamesGrown(s.nodes, r.nodes, p, node, x);
      SetInodeAt(s.inodes, k, InodeAt(s.inodes, k).(links := Bump(InodeAt(s.inodes, k).links)), x);
    }
  }

  lemma {:induction false} AddLinkSound(s: St, p: nat, name: Name, k: nat)
    requires Sound(s) && p < |s.nodes| && Attached(s.nodes, p) && IsDirNode(s.nodes, s.inodes, p)
    requires FindChild(s.nodes, s.nodes[p].children, name) == None
    requires FIRST_INODE <= k <= |s.inodes| && IsFile(InodeAt(s.inodes, k).kind)
    requires InodeAt(s.inodes, k).links < MOST_LINKS
    ensures Sound(AddLink(s, p, name, k))
    ensures Grown(s.nodes, AddLink(s, p, name, k).nodes, p, LinkNode(name, k))
  {
    hide Inv, Attached, LinksAgree, FindChild, Grown, AddChild, Spans;
    InvWellFormed(s);
    AddLinkInv(s, p, name, k);
    var r := AddLink(s, p, name, k);
    InvWellFormed(r);
    OwnedGrown(s, r, p, LinkNode(name, k));
    SameDead(s.inodes, r.inodes, s.deleted, s.born);
  }

  /** Ownership of the old inodes is untouched by a new node. */
  lemma OwnedGrown(s: St, r: St, p: nat, node: Node)
    requires LinksAgree(s.nodes) && LinksAgree(r.nodes) && Grown(s.nodes, r.nodes, p, node)
    requires Origins(s.nodes, s.inodes, s.born) && SetAside(s.nodes, s.inodes, s.deferred, s.born)
    requires |r.inodes| == |s.inodes| && r.born == s.born && r.deferred == s.deferred
    requires forall k :: 1 <= k <= |s.inodes| ==>
             InodeAt(r.inodes, k).kind == InodeAt(s.inodes, k).kind
               && InodeAt(r.inodes, k).xattr == InodeAt(s.inodes, k).xattr
    ensures Origins(r.nodes, r.inodes, r.born) && SetAside(r.nodes, r.inodes, r.deferred, r.born)
  {
    hide Attached, LinksAgree;
  }

  // ----- A new inode with its first name -----

  ghost predicate EntryFits(s: St, ino: Inode, store: Store, b: Born) {
    && ino.kind != Unused && ino.links == (if ino.kind == Directory then 2 else 1)
    && ino.xattr == b.xattr && (ino.kind == Directory ==> b.ranges == [])
    && BornSane(b) && Top(s.store) <= b.lo && b.hi <= Top(store)
  }

  lemma AddEntryInodes(s: St, p: nat, name: Name, ino: Inode, store: Store, b: Born)
    requires p < |s.nodes| && 1 <= s.nodes[p].inode <= |s.inodes|
    requires InodeAt(s.inodes, s.nodes[p].inode).links < MAX_LINKS
    ensures var r := AddEntry(s, p, name, ino, store, b);
            && |r.inodes| == |s.inodes| + 1 && InodeAt(r.inodes, |s.inodes| + 1) == ino
            && InodesGrown(s.nodes, s.inodes, r.inodes, p, ino.kind == Directory)
            && (forall k ::
                  && 1 <= k <= |s.inodes| && InodeAt(s.inodes, k).kind != Directory
                  && InodeAt(s.inodes, s.nodes[p].inode).kind == Directory
                  ==> InodeAt(r.inodes, k) == InodeAt(s.inodes, k))
  {
    hide AddChild;
  }

  lemma AddEntryFiles(s: St, r: St, p: nat, node: Node, ino: Inode)
    requires LinksAgree(s.nodes) && LinksAgree(r.nodes) && Grown(s.nodes, r.nodes, p, node)
    requires FileCounts(s.nodes, s.inodes)
    requires NodesSane(s.nodes, s.inodes)
    requires node.link == None && node.inode == |s.inodes| + 1 == |r.inodes| && InodeAt(r.inodes, |r.inodes|) == ino
    requires IsFile(ino.kind) ==> ino.links == 1
    requires ino.kind != Unused
    requires forall k :: 1 <= k <= |s.inodes| ==> InodeAt(r.inodes, k).kind == InodeAt(s.inodes, k).kind
    requires forall k :: 1 <= k <= |s.inodes| && InodeAt(s.inodes, k).kind != Directory ==>
             InodeAt(r.inodes, k) == InodeAt(s.inodes, k)
    ensures FileCounts(r.nodes, r.inodes)
  {
    hide Names, Grown, Attached, LinksAgree;
    forall x {:trigger InodeAt(r.inodes, x)} | FIRST_INODE <= x <= |r.inodes|
      ensures IsFile(InodeAt(r.inodes, x).kind) ==> InodeAt(r.inodes, x).links == |Names(r.nodes, x)| > 0
      ensures InodeAt(r.inodes, x).kind == Unused ==> InodeAt(r.inodes, x).links == 0
    {
      NamesGrown(s.nodes, r.nodes, p, node, x);
      if x == |r.inodes| { FreshNames(s.nodes, s.inodes, x); }
    }
  }

  lemma FreshNames(nodes: Nodes, inodes: seq<Inode>, k: nat)
    requires LinksAgree(nodes) && NodesSane(nodes, inodes) && k > |inodes|
    ensures Names(nodes, k) == {}
  {
    hide Attached, LinksAgree;
  }

  lemma {:induction false} AddEntryInv(s: St, p: nat, name: Name, ino: Inode, store: Store, b: Born)
    requires Inv(s.nodes, s.inodes) && p < |s.nodes| && Attached(s.nodes, p) && IsDirNode(s.nodes, s.inodes, p)
    requires FindChild(s.nodes, s.nodes[p].children, name) == None && EntryFits(s, ino, store, b)
    requires InodeAt(s.inodes, s.nodes[p].inode).links < MAX_LINKS
    ensures var r := AddEntry(s, p, name, ino, store, b);
            && Inv(r.nodes, r.inodes)
            && Grown(s.nodes, r.nodes, p, Node(|s.inodes| + 1, name, [], None, b.ranges, None))
  {
    hide SiblingsDiffer, DirKids, Names, FileCounts, DirCounts, RemovedDirs, KindsSane, AddChild, Attached, LinksAgree,
         FindChild, Grown, BornSane;
    var nodes, inodes, node := s.nodes, s.inodes, Node(|s.inodes| + 1, name, [], None, b.ranges, None);
    var isDir := ino.kind == Directory;
    var r := AddEntry(s, p, name, ino, store, b);
    AddGrows(nodes, p, node);
    AddEntryInodes(s, p, name, ino, store, b);
    NewNode(nodes, r.nodes, p, node);
    NodesSaneGrown(nodes, inodes, r.nodes, r.inodes, p, node);
    KindsGrown(nodes, inodes, r.nodes, r.inodes, p, node, isDir);
    DirCountsGrown(nodes, inodes, r.nodes, r.inodes, p, node, isDir);
    RemovedGrown(nodes, inodes, r.nodes, r.inodes, p, node, isDir);
    AddEntryFiles(s, r, p, node, ino);
  }

  lemma AddEntryOwned(s: St, r: St, p: nat, node: Node, ino: Inode, b: Born)
    requires LinksAgree(s.nodes) && LinksAgree(r.nodes) && Grown(s.nodes, r.nodes, p, node)
    requires Origins(s.nodes, s.inodes, s.born) && SetAside(s.nodes, s.inodes, s.deferred, s.born)
    requires node.link == None && node.inode == |s.inodes| + 1 == |r.inodes| && node.ranges == b.ranges
    requires r.born == s.born + [b.(origin := |s.nodes|)] && r.deferred == s.deferred
    requires InodeAt(r.inodes, |r.inodes|) == ino && ino.xattr == b.xattr
    requires forall k :: 1 <= k <= |s.inodes| ==>
             InodeAt(r.inodes, k).kind == InodeAt(s.inodes, k).kind
               && InodeAt(r.inodes, k).xattr == InodeAt(s.inodes, k).xattr
    ensures Origins(r.nodes, r.inodes, r.born) && SetAside(r.nodes, r.inodes, r.deferred, r.born)
  {
    hide Attached, LinksAgree;
    assert forall k :: 1 <= k <= |s.born| ==> BornAt(r.born, k) == BornAt(s.born, k);
    assert BornAt(r.born, |r.inodes|) == b.(origin := |s.nodes|);
  }

  lemma SpansGrown(born: seq<Born>, top: nat, b: Born, top': nat)
    requires Spans(born, top) && BornSane(b) && top <= b.lo && b.hi <= top'
    ensures Spans(born + [b], top')
  {
    var all := born + [b];
    assert forall k :: 1 <= k <= |born| ==> BornAt(all, k) == BornAt(born, k);
    assert BornAt(all, |all|) == b;
  }

  lemma DeadGrown(inodes: seq<Inode>, after: seq<Inode>, deleted: seq<Range>, born: seq<Born>, b: Born)
    requires |born| == |inodes| && |after| == |inodes| + 1 && DeletedExactly(inodes, deleted, born)
    requires forall k :: 1 <= k <= |inodes| ==> InodeAt(after, k).kind == InodeAt(inodes, k).kind
    requires InodeAt(after, |after|).kind != Unused
    ensures DeletedExactly(after, deleted, born + [b])
  {
    var all := born + [b];
    assert forall k :: 1 <= k <= |born| ==> BornAt(all, k) == BornAt(born, k);
    assert forall k :: Dead(after, k) <==> Dead(inodes, k);
    forall r | r in deleted ensures exists k :: Dead(after, k) && Gave(all, k, r) {
      var k :| Dead(inodes, k) && Gave(born, k, r);
      assert Dead(after, k) && Gave(all, k, r);
    }
    forall k, r | Dead(after, k) && Gave(all, k, r) ensures r in deleted {
      assert Dead(inodes, k) && Gave(born, k, r);
    }
  }

  /** Adding a new inode with its entry keeps every invariant. */
  lemma {:induction false} AddEntrySound(s: St, p: nat, name: Name, ino: Inode, store: Store, b: Born)
    requires Sound(s) && p < |s.nodes| && Attached(s.nodes, p) && IsDirNode(s.nodes, s.inodes, p)
    requires FindChild(s.nodes, s.nodes[p].children, name) == None && EntryFits(s, ino, store, b)
    requires InodeAt(s.inodes, s.nodes[p].inode).links < MAX_LINKS
    ensures Sound(AddEntry(s, p, name, ino, store, b))
    ensures Grown(s.nodes, AddEntry(s, p, name, ino, store, b).nodes, p,
                  Node(|s.inodes| + 1, name, [], None, b.ranges, None))
  {
    hide Inv, Attached, LinksAgree, FindChild, Grown, AddChild, Spans, Origins, SetAside, DeletedExactly, BornSane;
    InvWellFormed(s);
    OriginsLength(s.nodes, s.inodes, s.born);
    AddEntryInv(s, p, name, ino, store, b);
    var node := Node(|s.inodes| + 1, name, [], None, b.ranges, None);
    var r := AddEntry(s, p, name, ino, store, b);
    InvWellFormed(r);
    InvNode(s, p);
    AddEntryInodes(s, p, name, ino, store, b);
    AddEntryOwned(s, r, p, node, ino, b);
    var c := b.(origin := |s.nodes|);
    SameBorn(b, c);
    SpansGrown(s.born, Top(s.store), c, Top(store));
    DeadGrown(s.inodes, r.inodes, s.deleted, s.born, c);
  }

  lemma SameBorn(b: Born, c: Born)
    requires c == b.(origin := c.origin) && BornSane(b)
    ensures BornSane(c)
  {
  }

  lemma InvNode(s: St, p: nat)
    requires Inv(s.nodes, s.inodes) && p < |s.nodes|
    ensures 1 <= s.nodes[p].inode <= |s.inodes|
  {
  }

  /** A new entry appears at its path; every other path leads where it led. */
  lemma {:induction false} LookupGrown(nodes: Nodes, p: nat, node: Node, path: Path, q: Path)
    requires WellFormed(nodes) && Lookup(nodes, path) == Some(p) && node.children == []
    requires FindChild(nodes, nodes[p].children, node.name) == None
    ensures WellFormed(AddChild(nodes, p, node))
    ensures Lookup(AddChild(nodes, p, node), q) == if q == path + [node.name] then Some(|nodes|) else Lookup(nodes, q)
  {
    hide SiblingsDiffer, AddChild, LinksAgree, FindChild, Attached, PathOf, Lookup;
    FoundIsAttached(nodes, path);
    AddAttaches(nodes, p, node);
    var t, n := AddChild(nodes, p, node), |nodes|;
    AddLength(nodes, p, node);
    LookupIff(t, q, n);
    match Lookup(nodes, q) {
      case Some(j) =>
        LookupIff(nodes, q, j);
        LookupIff(t, q, j);
        if q == path + [node.name] { PathTaken(nodes, p, node.name, path, j); }
      case None =>
        if Lookup(t, q).Some? {
          FoundIsAttached(t, q);
          var j := Lookup(t, q).value;
          if j < n { LookupIff(nodes, q, j); }
        }
    }
  }

  lemma AddLength(nodes: Nodes, p: nat, node: Node)
    requires p < |nodes|
    ensures |AddChild(nodes, p, node)| == |nodes| + 1
  {
  }

  lemma {:induction false} PathTaken(nodes: Nodes, p: nat, name: Name, path: Path, j: nat)
    requires WellFormed(nodes) && Lookup(nodes, path) == Some(p) && Lookup(nodes, path + [name]) == Some(j)
    ensures FindChild(nodes, nodes[p].children, name) != None
  {
    LookupSnoc(nodes, ROOT, path, name);
  }
}
