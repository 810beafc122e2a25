/** Invariants of the namespace: which nodes are directories, how many names an inode has, how many
    links it counts. */
module Namespace {
  import opened Bytes
  import opened FileTree
  import opened Fs

  /** Every node refers to inodes that exist; hard-link entries own no blocks; no two nodes were
      created for the same inode. */
  ghost predicate NodesSane(nodes: Nodes, inodes: seq<Inode>) {
    && |inodes| >= 10 && |nodes| > 0
    && nodes[ROOT].inode == ROOT_INODE && nodes[ROOT].link == None
    && (forall i :: 0 <= i < |nodes| ==> 1 <= nodes[i].inode <= |inodes|)
    && (forall i :: 0 < i < |nodes| && nodes[i].link == None ==> nodes[i].inode >= FIRST_INODE)
    && (forall i :: 0 <= i < |nodes| && nodes[i].link.Some? ==>
        FIRST_INODE <= nodes[i].link.value <= |inodes| && nodes[i].inode == ROOT_INODE && nodes[i].ranges == [])
    && (forall i, j :: 0 <= i < j < |nodes| && nodes[i].link == None && nodes[j].link == None ==>
        nodes[i].inode != nodes[j].inode)
  }

  predicate IsFile(k: Kind) { k == Regular || k == Symlink }

  /** Only attached directories have children; what is attached is in use; hard links lead to files. */
  ghost predicate KindsSane(nodes: Nodes, inodes: seq<Inode>)
    requires LinksAgree(nodes)
  {
    && IsDirNode(nodes, inodes, ROOT)
    && (forall i :: 0 <= i < |nodes| && nodes[i].children != [] ==> Attached(nodes, i) && IsDirNode(nodes, inodes, i))
    && (forall i :: 0 <= i < |nodes| && Attached(nodes, i) ==> InodeAt(inodes, Target(nodes[i])).kind != Unused)
    && (forall i :: 0 <= i < |nodes| && Attached(nodes, i) && nodes[i].link.Some? ==>
        IsFile(InodeAt(inodes, Target(nodes[i])).kind))
    && (forall i :: 0 <= i < |nodes| && IsDirNode(nodes, inodes, i) ==> nodes[i].ranges == [])
  }

  /** The attached nodes that name inode `k`. */
  ghost function Names(nodes: Nodes, k: nat): set<nat>
    requires LinksAgree(nodes)
  {
    set i: nat | i < |nodes| && Attached(nodes, i) && Target(nodes[i]) == k
  }

  ghost function DirKids(nodes: Nodes, inodes: seq<Inode>, i: nat): set<nat>
    requires i < |nodes|
  {
    set c | c in nodes[i].children && IsDirNode(nodes, inodes, c)
  }

  /** A file's link count is the number of its names; an inode out of use has neither. */
  ghost predicate FileCounts(nodes: Nodes, inodes: seq<Inode>)
    requires LinksAgree(nodes)
  {
    forall k {:trigger InodeAt(inodes, k)} :: FIRST_INODE <= k <= |inodes| ==>
      && (IsFile(InodeAt(inodes, k).kind) ==> InodeAt(inodes, k).links == |Names(nodes, k)| > 0)
      && (InodeAt(inodes, k).kind == Unused ==> InodeAt(inodes, k).links == 0)
  }

  /** A directory's link count is 2 plus the number of its child directories. */
  ghost predicate DirCounts(nodes: Nodes, inodes: seq<Inode>)
    requires LinksAgree(nodes)
  {
    forall i {:trigger DirKids(nodes, inodes, i)} ::
      0 <= i < |nodes| && Attached(nodes, i) && IsDirNode(nodes, inodes, i) ==>
      InodeAt(inodes, nodes[i].inode).links == 2 + |DirKids(nodes, inodes, i)|
  }

  /** A directory that was removed keeps its inode, with one link that nothing accounts for. */
  ghost predicate RemovedDirs(nodes: Nodes, inodes: seq<Inode>)
    requires LinksAgree(nodes)
  {
    forall i :: 0 <= i < |nodes| && !Attached(nodes, i) && IsDirNode(nodes, inodes, i) ==>
      InodeAt(inodes, nodes[i].inode).links == 1
  }

  ghost predicate Inv(nodes: Nodes, inodes: seq<Inode>) {
    && WellFormed(nodes) && NodesSane(nodes, inodes) && KindsSane(nodes, inodes)
    && FileCounts(nodes, inodes) && DirCounts(nodes, inodes) && RemovedDirs(nodes, inodes)
  }

  // ----- Removing a childless node -----

  /** The two trees have the same nodes up to child lists. */
  ghost predicate SameStatic(a: Nodes, b: Nodes) {
    && |a| == |b|
    && forall i :: 0 <= i < |a| ==>
         && a[i].inode == b[i].inode && a[i].name == b[i].name && a[i].parent == b[i].parent
         && a[i].ranges == b[i].ranges && a[i].link == b[i].link
  }

  /** What RemoveLeaf does to tree and inodes, spelled out. */
  ghost predicate LeafGone(nodes: Nodes, t: Nodes, i: nat)
    requires LinksAgree(nodes) && LinksAgree(t)
  {
    && SameStatic(nodes, t) && 0 < i < |nodes|
    && (forall j :: 0 <= j < |nodes| ==> (Attached(t, j) <==> Attached(nodes, j) && j != i))
    && (forall j, c :: 0 <= j < |nodes| ==> (c in t[j].children <==> c in nodes[j].children && c != i))
  }

  lemma ParentList(nodes: Nodes, i: nat, j: nat)
    requires LinksAgree(nodes) && 0 < i < |nodes| && j < |nodes| && i in nodes[j].children
    ensures j == Parent(nodes, i)
  {
  }

  lemma {:induction false} ParentOfAttached(nodes: Nodes, i: nat)
    requires LinksAgree(nodes) && 0 < i < |nodes| && Attached(nodes, i)
    ensures Parent(nodes, i) < |nodes| && i in nodes[Parent(nodes, i)].children
  {
  }

  lemma {:induction false} LeafGoes(s: St, i: nat)
    requires WellFormed(s.nodes) && 0 < i < |s.nodes| && Attached(s.nodes, i) && s.nodes[i].children == []
    ensures WellFormed(RemoveLeaf(s, i).nodes) && LeafGone(s.nodes, RemoveLeaf(s, i).nodes, i)
    ensures forall j :: 0 <= j < |s.nodes| ==> PathOf(RemoveLeaf(s, i).nodes, j) == PathOf(s.nodes, j)
  {
    hide DropAt, RemoveChild, Release, DropDotDot, Attached, LinksAgree, SiblingsDiffer, PathOf;
    var nodes := s.nodes;
    var p := Parent(nodes, i);
    ParentOfAttached(nodes, i);
    RemoveDetaches(nodes, p, i);
    var k := RemoveShape(nodes, p, i);
    var t := RemoveChild(nodes, p, nodes[i].name);
    assert RemoveLeaf(s, i).nodes == t;
    forall j, c | 0 <= j < |nodes| ensures c in t[j].children <==> c in nodes[j].children && c != i {
      if j != p && i in nodes[j].children { ParentList(nodes, i, j); }
    }
  }

  /** Removing a directory: it is left with one link, its parent loses one, nothing else changes. */
  ghost predicate DirEffect(nodes: Nodes, inodes: seq<Inode>, after: seq<Inode>, i: nat)
    requires i < |nodes| && Parent(nodes, i) < |nodes|
  {
    var k, q := nodes[i].inode, nodes[Parent(nodes, i)].inode;
    && |after| == |inodes| && k != q
    && InodeAt(inodes, q).links > 2
    && InodeAt(after, k) == InodeAt(inodes, k).(links := 1)
    && InodeAt(after, q) == InodeAt(inodes, q).(links := InodeAt(inodes, q).links - 1)
    && (forall x :: x != k && x != q ==> InodeAt(after, x) == InodeAt(inodes, x))
  }

  /** Removing a name of a file: the inode loses one link, and is cleared with the last one. */
  ghost predicate FileEffect(nodes: Nodes, inodes: seq<Inode>, after: seq<Inode>, i: nat)
    requires i < |nodes|
  {
    var k := Target(nodes[i]);
    && |after| == |inodes|
    && InodeAt(after, k) == (if InodeAt(inodes, k).links <= 1 then FREE
                             else InodeAt(inodes, k).(links := InodeAt(inodes, k).links - 1))
    && (forall x :: x != k ==> InodeAt(after, x) == InodeAt(inodes, x))
  }

  lemma SetInodeAt(inodes: seq<Inode>, k: nat, v: Inode, x: nat)
    requires 1 <= k <= |inodes|
    ensures InodeAt(SetInode(inodes, k, v), x) == if x == k then v else InodeAt(inodes, x)
  {
  }

  lemma {:induction false} KidsNonEmpty(nodes: Nodes, inodes: seq<Inode>, i: nat)
    requires Inv(nodes, inodes) && 0 < i < |nodes| && Attached(nodes, i) && IsDirNode(nodes, inodes, i)
    ensures var p := Parent(nodes, i);
            && p < |nodes| && Attached(nodes, p) && IsDirNode(nodes, inodes, p) && i in DirKids(nodes, inodes, p)
            && InodeAt(inodes, nodes[p].inode).links == 2 + |DirKids(nodes, inodes, p)| > 2
            && nodes[p].inode != nodes[i].inode
  {
    var p := Parent(nodes, i);
    assert i in nodes[p].children;
    assert i in DirKids(nodes, inodes, p);
  }

  lemma {:induction false} DirLeafInodes(s: St, i: nat)
    requires Inv(s.nodes, s.inodes) && 0 < i < |s.nodes| && Attached(s.nodes, i) && s.nodes[i].children == []
    requires IsDirNode(s.nodes, s.inodes, i)
    ensures DirEffect(s.nodes, s.inodes, RemoveLeaf(s, i).inodes, i)
    ensures RemoveLeaf(s, i).deleted == s.deleted && RemoveLeaf(s, i).deferred == s.deferred
  {
    hide DirKids, RemoveChild, WellFormed, FileCounts, RemovedDirs;
    KidsNonEmpty(s.nodes, s.inodes, i);
    var p := Parent(s.nodes, i);
    var k, q := s.nodes[i].inode, s.nodes[p].inode;
    assert DirKids(s.nodes, s.inodes, i) == {} by { NoKids(s.nodes, s.inodes, i); }
    assert InodeAt(s.inodes, k).links == 2;
    var mid := DropDotDot(s.nodes, s.inodes, i);
    assert NodeBlocks(s.nodes[i]) == [];
  }

  lemma NoKids(nodes: Nodes, inodes: seq<Inode>, i: nat)
    requires i < |nodes| && nodes[i].children == []
    ensures DirKids(nodes, inodes, i) == {}
  {
  }

  /** An attached node that is no directory names a file, which counts it. */
  lemma {:induction false} FileFacts(nodes: Nodes, inodes: seq<Inode>, i: nat)
    requires Inv(nodes, inodes) && 0 < i < |nodes| && Attached(nodes, i) && !IsDirNode(nodes, inodes, i)
    ensures var k := Target(nodes[i]);
            && FIRST_INODE <= k <= |inodes| && IsFile(InodeAt(inodes, k).kind)
            && InodeAt(inodes, k).links == |Names(nodes, k)| > 0 && i in Names(nodes, k)
  {
    hide SiblingsDiffer, DirCounts, RemovedDirs;
    var k := Target(nodes[i]);
    assert i in Names(nodes, k);
    assert InodeAt(inodes, k).kind != Unused;
  }

  lemma FileLeafInodes(s: St, i: nat)
    requires i < |s.nodes| && !IsDirNode(s.nodes, s.inodes, i)
    requires FIRST_INODE <= Target(s.nodes[i]) <= |s.inodes| && InodeAt(s.inodes, Target(s.nodes[i])).links > 0
    ensures FileEffect(s.nodes, s.inodes, RemoveLeaf(s, i).inodes, i)
  {
    hide RemoveChild;
  }

  lemma OneName(names: set<nat>, i: nat, j: nat)
    requires |names| == 1 && i in names && j in names
    ensures i == j
  {
    assert |names - {i}| == 0;
    assert names - {i} == {};
  }

  lemma NamesAfter(nodes: Nodes, t: Nodes, i: nat, k: nat)
    requires LinksAgree(nodes) && LinksAgree(t) && LeafGone(nodes, t, i)
    ensures Names(t, k) == Names(nodes, k) - {i}
  {
  }

  /** No node's being a directory changes when a childless node goes. */
  ghost predicate SameDirs(nodes: Nodes, inodes: seq<Inode>, t: Nodes, after: seq<Inode>) {
    |t| == |nodes| && forall j :: 0 <= j < |nodes| ==> (IsDirNode(t, after, j) <==> IsDirNode(nodes, inodes, j))
  }

  lemma KidsAfter(nodes: Nodes, inodes: seq<Inode>, t: Nodes, after: seq<Inode>, i: nat, j: nat)
    requires LinksAgree(nodes) && LinksAgree(t) && LeafGone(nodes, t, i) && j < |nodes|
    requires SameDirs(nodes, inodes, t, after)
    ensures DirKids(t, after, j) == DirKids(nodes, inodes, j) - {i}
  {
    forall c ensures c in DirKids(t, after, j) <==> c in DirKids(nodes, inodes, j) - {i} {
      if c in t[j].children { var m :| 0 <= m < |t[j].children| && t[j].children[m] == c; }
    }
  }

  lemma NodesSaneAfter(nodes: Nodes, inodes: seq<Inode>, t: Nodes, after: seq<Inode>)
    requires NodesSane(nodes, inodes) && SameStatic(nodes, t) && |after| == |inodes|
    ensures NodesSane(t, after)
  {
  }

  /** What both kinds of removal need for the counts: no attached node loses its inode, and a
      directory's links fall only where it lost a child directory. */
  ghost predicate CountsFollow(nodes: Nodes, inodes: seq<Inode>, t: Nodes, after: seq<Inode>, i: nat)
    requires LinksAgree(nodes) && LinksAgree(t)
  {
    && LeafGone(nodes, t, i) && |after| == |inodes| && SameDirs(nodes, inodes, t, after)
    && nodes[i].children == []
    && (forall j :: 0 <= j < |nodes| && Attached(t, j) ==>
          InodeAt(after, Target(nodes[j])).kind == InodeAt(inodes, Target(nodes[j])).kind)
    && (forall j :: 0 <= j < |nodes| && Attached(t, j) && IsDirNode(nodes, inodes, j) ==>
          InodeAt(after, nodes[j].inode).links ==
          InodeAt(inodes, nodes[j].inode).links - (if i in DirKids(nodes, inodes, j) then 1 else 0))
  }

  lemma KindsAfter(nodes: Nodes, inodes: seq<Inode>, t: Nodes, after: seq<Inode>, i: nat)
    requires LinksAgree(nodes) && LinksAgree(t) && KindsSane(nodes, inodes) && NodesSane(nodes, inodes)
    requires CountsFollow(nodes, inodes, t, after, i)
    ensures KindsSane(t, after)
  {
    hide DirKids, NodesSane, Attached, LinksAgree;
    forall j | 0 <= j < |t| && t[j].children != [] ensures Attached(t, j) && IsDirNode(t, after, j) {
      assert t[j].children[0] in nodes[j].children;
    }
  }

  lemma DirCountsAfter(nodes: Nodes, inodes: seq<Inode>, t: Nodes, after: seq<Inode>, i: nat)
    requires LinksAgree(nodes) && LinksAgree(t) && DirCounts(nodes, inodes)
    requires CountsFollow(nodes, inodes, t, after, i)
    ensures DirCounts(t, after)
  {
    hide DirKids;
    forall j {:trigger DirKids(t, after, j)} | 0 <= j < |t| && Attached(t, j) && IsDirNode(t, after, j)
      ensures InodeAt(after, t[j].inode).links == 2 + |DirKids(t, after, j)|
    {
      KidsAfter(nodes, inodes, t, after, i, j);
    }
  }

  lemma DirLeafFollows(nodes: Nodes, inodes: seq<Inode>, t: Nodes, after: seq<Inode>, i: nat)
    requires LinksAgree(nodes) && NodesSane(nodes, inodes) && 0 < i < |nodes| && nodes[i].children == []
    requires IsDirNode(nodes, inodes, i) && DirEffect(nodes, inodes, after, i)
    requires IsDirNode(nodes, inodes, Parent(nodes, i)) && i in DirKids(nodes, inodes, Parent(nodes, i))
    requires LinksAgree(t) && LeafGone(nodes, t, i)
    ensures CountsFollow(nodes, inodes, t, after, i)
  {
    hide DirKids;
    forall j | 0 <= j < |nodes| && j != Parent(nodes, i) ensures i !in DirKids(nodes, inodes, j) {
      NotAKid(nodes, inodes, i, j);
    }
  }

  lemma DirLeafFiles(nodes: Nodes, inodes: seq<Inode>, t: Nodes, after: seq<Inode>, i: nat)
    requires LinksAgree(nodes) && LinksAgree(t) && LeafGone(nodes, t, i) && FileCounts(nodes, inodes)
    requires IsDirNode(nodes, inodes, i) && Parent(nodes, i) < |nodes| && DirEffect(nodes, inodes, after, i)
    requires IsDirNode(nodes, inodes, Parent(nodes, i))
    ensures FileCounts(t, after)
  {
    hide Names, LeafGone;
    forall k {:trigger InodeAt(after, k)} | FIRST_INODE <= k <= |after|
      ensures IsFile(InodeAt(after, k).kind) ==> InodeAt(after, k).links == |Names(t, k)| > 0
      ensures InodeAt(after, k).kind == Unused ==> InodeAt(after, k).links == 0
    {
      NamesAfter(nodes, t, i, k);
      NotAName(nodes, i, k);
    }
  }

  lemma {:induction false} DirLeafRemoved(nodes: Nodes, inodes: seq<Inode>, t: Nodes, after: seq<Inode>, i: nat)
    requires LinksAgree(nodes) && LinksAgree(t) && LeafGone(nodes, t, i) && RemovedDirs(nodes, inodes)
    requires NodesSane(nodes, inodes) && SameDirs(nodes, inodes, t, after)
    requires IsDirNode(nodes, inodes, i) && Parent(nodes, i) < |nodes| && DirEffect(nodes, inodes, after, i)
    requires Attached(nodes, Parent(nodes, i)) && IsDirNode(nodes, inodes, Parent(nodes, i))
    ensures RemovedDirs(t, after)
  {
  }

  /** Removing an empty directory keeps the namespace invariants. */
  lemma {:induction false} DirLeafKeeps(nodes: Nodes, inodes: seq<Inode>, t: Nodes, after: seq<Inode>, i: nat)
    requires Inv(nodes, inodes) && 0 < i < |nodes| && Attached(nodes, i) && nodes[i].children == []
    requires IsDirNode(nodes, inodes, i) && DirEffect(nodes, inodes, after, i)
    requires WellFormed(t) && LeafGone(nodes, t, i)
    ensures Inv(t, after)
  {
    hide SiblingsDiffer, DirKids, FileCounts, DirCounts, RemovedDirs, NodesSane, KindsSane;
    KidsNonEmpty(nodes, inodes, i);
    DirLeafFollows(nodes, inodes, t, after, i);
    NodesSaneAfter(nodes, inodes, t, after);
    KindsAfter(nodes, inodes, t, after, i);
    DirCountsAfter(nodes, inodes, t, after, i);
    DirLeafFiles(nodes, inodes, t, after, i);
    DirLeafRemoved(nodes, inodes, t, after, i);
  }

  lemma NotAName(nodes: Nodes, i: nat, k: nat)
    requires LinksAgree(nodes) && i < |nodes|
    ensures Target(nodes[i]) != k ==> i !in Names(nodes, k)
  {
  }

  lemma NotAKid(nodes: Nodes, inodes: seq<Inode>, i: nat, j: nat)
    requires LinksAgree(nodes) && 0 < i < |nodes| && j < |nodes| && j != Parent(nodes, i)
    ensures i !in DirKids(nodes, inodes, j)
  {
    if i in nodes[j].children { ParentList(nodes, i, j); }
  }

  lemma FileLeafFollows(nodes: Nodes, inodes: seq<Inode>, t: Nodes, after: seq<Inode>, i: nat)
    requires LinksAgree(nodes) && 0 < i < |nodes| && nodes[i].children == []
    requires !IsDirNode(nodes, inodes, i) && FileEffect(nodes, inodes, after, i)
    requires IsFile(InodeAt(inodes, Target(nodes[i])).kind)
    requires InodeAt(inodes, Target(nodes[i])).links == |Names(nodes, Target(nodes[i]))| > 0
    requires i in Names(nodes, Target(nodes[i]))
    requires LinksAgree(t) && LeafGone(nodes, t, i)
    ensures CountsFollow(nodes, inodes, t, after, i)
  {
    hide DirKids, Names, Attached, LinksAgree;
    var k := Target(nodes[i]);
    forall j | 0 <= j < |nodes| ensures i !in DirKids(nodes, inodes, j) { NotADirKid(nodes, inodes, i, j); }
    forall j | 0 <= j < |nodes| && Attached(t, j) && Target(nodes[j]) == k ensures InodeAt(inodes, k).links != 1 {
      NamesHas(nodes, j);
      if InodeAt(inodes, k).links == 1 { OneName(Names(nodes, k), i, j); }
    }
  }

  lemma FileLeafFiles(nodes: Nodes, inodes: seq<Inode>, t: Nodes, after: seq<Inode>, i: nat)
    requires i < |nodes| && LinksAgree(nodes) && LinksAgree(t) && LeafGone(nodes, t, i) && FileCounts(nodes, inodes)
    requires FileEffect(nodes, inodes, after, i) && i in Names(nodes, Target(nodes[i]))
    requires IsFile(InodeAt(inodes, Target(nodes[i])).kind)
    ensures FileCounts(t, after)
  {
    hide Names, SameStatic;
    forall x {:trigger InodeAt(after, x)} | FIRST_INODE <= x <= |after|
      ensures IsFile(InodeAt(after, x).kind) ==> InodeAt(after, x).links == |Names(t, x)| > 0
      ensures InodeAt(after, x).kind == Unused ==> InodeAt(after, x).links == 0
    {
      NamesAfter(nodes, t, i, x);
      NotAName(nodes, i, x);
    }
  }

  lemma FileLeafRemoved(nodes: Nodes, inodes: seq<Inode>, t: Nodes, after: seq<Inode>, i: nat)
    requires LinksAgree(nodes) && LinksAgree(t) && LeafGone(nodes, t, i) && RemovedDirs(nodes, inodes)
    requires SameDirs(nodes, inodes, t, after) && FileEffect(nodes, inodes, after, i)
    requires IsFile(InodeAt(inodes, Target(nodes[i])).kind) && !IsDirNode(nodes, inodes, i)
    ensures RemovedDirs(t, after)
  {
  }

  /** Removing one name of a file keeps the namespace invariants. */
  lemma {:induction false} FileLeafKeeps(nodes: Nodes, inodes: seq<Inode>, t: Nodes, after: seq<Inode>, i: nat)
    requires Inv(nodes, inodes) && 0 < i < |nodes| && Attached(nodes, i) && nodes[i].children == []
    requires !IsDirNode(nodes, inodes, i) && FileEffect(nodes, inodes, after, i)
    requires WellFormed(t) && LeafGone(nodes, t, i)
    ensures Inv(t, after)
  {
    hide SiblingsDiffer, DirKids, Names, FileCounts, DirCounts, RemovedDirs, NodesSane, KindsSane;
    FileFacts(nodes, inodes, i);
    FileLeafFollows(nodes, inodes, t, after, i);
    NodesSaneAfter(nodes, inodes, t, after);
    KindsAfter(nodes, inodes, t, after, i);
    DirCountsAfter(nodes, inodes, t, after, i);
    FileLeafFiles(nodes, inodes, t, after, i);
    FileLeafRemoved(nodes, inodes, t, after, i);
  }

  lemma {:induction false} NamesHas(nodes: Nodes, j: nat)
    requires LinksAgree(nodes) && j < |nodes| && Attached(nodes, j)
    ensures j in Names(nodes, Target(nodes[j]))
  {
  }

  lemma NotADirKid(nodes: Nodes, inodes: seq<Inode>, i: nat, j: nat)
    requires j < |nodes| && !IsDirNode(nodes, inodes, i)
    ensures i !in DirKids(nodes, inodes, j)
  {
  }

  /** Removing any attached childless node keeps the namespace invariants. */
  lemma {:induction false} LeafKeepsInv(s: St, i: nat)
    requires Inv(s.nodes, s.inodes) && 0 < i < |s.nodes| && Attached(s.nodes, i) && s.nodes[i].children == []
    ensures var r := RemoveLeaf(s, i);
            && Inv(r.nodes, r.inodes) && LeafGone(s.nodes, r.nodes, i)
            && (forall j :: 0 <= j < |s.nodes| ==> PathOf(r.nodes, j) == PathOf(s.nodes, j))
  {
    hide SiblingsDiffer, DirKids, Names, FileCounts, DirCounts, RemovedDirs, NodesSane, KindsSane, RemoveLeaf,
         DirEffect, FileEffect;
    var r := RemoveLeaf(s, i);
    LeafGoes(s, i);
    if IsDirNode(s.nodes, s.inodes, i) {
      KidsNonEmpty(s.nodes, s.inodes, i);
      DirLeafInodes(s, i);
      DirLeafKeeps(s.nodes, s.inodes, r.nodes, r.inodes, i);
    } else {
      FileFacts(s.nodes, s.inodes, i);
      FileLeafInodes(s, i);
      FileLeafKeeps(s.nodes, s.inodes, r.nodes, r.inodes, i);
    }
  }
}
