/** link: when it keeps the filesystem sound, and what it adds. */
module Linking {
  import opened Bytes
  import opened Placement
  import opened FileTree
  import opened Fs
  import opened Namespace
  import opened Ownership
  import opened Pruning
  import opened Growing
  import opened Contents
  import opened Creating
  import opened Keeping

  /** Path `q` is a name of the same file as `target`, and not at or below `path`. */
  ghost predicate NameOutside(s: St, path: Path, ino: nat, q: Path)
    requires |s.nodes| > 0
  {
    Lookup(s.nodes, q).Some? && Target(s.nodes[Lookup(s.nodes, q).value]) == ino && !(path <= q)
  }

  /** The link has nothing to do: it is there already. */
  ghost predicate Linked(s: St, path: Path, target: Path)
    requires |s.nodes| > 0
  {
    && Lookup(s.nodes, target).Some? && Lookup(s.nodes, path).Some?
    && Target(s.nodes[Lookup(s.nodes, path).value]) == s.nodes[Lookup(s.nodes, target).value].inode
  }

  /** The entries that lead to the inode and stand outside what a new entry at `path` wipes out. */
  ghost function NamesOutside(s: St, path: Path, ino: nat): set<nat>
    requires |s.nodes| > 0
  {
    set i: nat | i < |s.nodes| && IsNameOutside(s, path, ino, i)
  }

  ghost predicate IsNameOutside(s: St, path: Path, ino: nat, i: nat)
    requires |s.nodes| > 0 && i < |s.nodes|
  {
    Target(s.nodes[i]) == ino && exists q :: Lookup(s.nodes, q) == Some(i) && !(path <= q)
  }

  /** What a caller has to see to when the link is to be made: the parent is a directory, and the file
      has a name that the new entry does not wipe out, but not so many that one more cannot be counted. */
  ghost predicate LinkSafe(s: St, path: Path, target: Path)
    requires |s.nodes| > 0
  {
    && (var p := Lookup(s.nodes, ParentPath(path)); p.Some? ==> IsDirNode(s.nodes, s.inodes, p.value))
    && (var t := Lookup(s.nodes, target); t.Some? ==>
          && (exists q :: NameOutside(s, path, s.nodes[t.value].inode, q))
          && |NamesOutside(s, path, s.nodes[t.value].inode)| < MOST_LINKS)
  }

  lemma BeforeAddingWell(s: St, path: Path)
    requires Sound(s) && |s.nodes| > 0
    ensures var u := BeforeAdding(s, path);
            Sound(u) && Pruned(s, u) && Cleared(s.nodes, u.nodes, path) && Lasting(s.inodes, u.inodes)
              && |u.inodes| == |s.inodes|
  {
    hide Sound, Pruned, Cleared, RemoveTree, Lookup, Lasting;
    ClearWell(s, path, MakeSymlink([]));
    SameLasting(s.inodes);
    if Lookup(s.nodes, path).Some? { TreeLasting(s, Lookup(s.nodes, path).value); }
  }

  lemma ParentOfPath(path: Path)
    ensures !(path <= ParentPath(path)) || path == []
    ensures path == [] ==> ParentPath(path) == [] && ParentPath(path) + [LastName(path)] == [SLASH]
    ensures path != [] ==> ParentPath(path) + [LastName(path)] == path
  {
  }

  /** The place for the new entry is free. */
  lemma {:induction false} PlaceFree(s: St, path: Path, p: nat)
    requires Sound(s) && |s.nodes| > 0 && Lookup(s.nodes, ParentPath(path)) == Some(p)
    ensures var u := BeforeAdding(s, path);
            && Lookup(u.nodes, ParentPath(path)) == Some(p) && p < |u.nodes|
            && FindChild(u.nodes, u.nodes[p].children, LastName(path)) == None
            && WellFormed(u.nodes) && Attached(u.nodes, p)
  {
    hide Sound, Pruned, RemoveTree, Lookup, Lasting, BeforeAdding, FindChild;
    BeforeAddingWell(s, path);
    var u := BeforeAdding(s, path);
    ParentOfPath(path);
    InvHolds(u);
    InvWellFormed(u);
    LookupSnoc(u.nodes, ROOT, ParentPath(path), LastName(path));
    SameLookup(u.nodes, ParentPath(path));
    SameLookup(u.nodes, ParentPath(path) + [LastName(path)]);
    FoundIsAttached(u.nodes, ParentPath(path));
  }

  lemma {:induction false} SameLookup(nodes: Nodes, q: Path)
    requires |nodes| > 0
    ensures Lookup(nodes, q) == LookupFrom(nodes, ROOT, q)
  {
  }

  lemma InvHolds(s: St)
    requires Sound(s)
    ensures Inv(s.nodes, s.inodes)
  {
  }

  /** The file survives the clearing exactly if it has a name outside. */
  lemma Survives(s: St, path: Path, ino: nat)
    requires Sound(s) && |s.nodes| > 0 && FIRST_INODE <= ino <= |s.inodes| && IsFile(InodeAt(s.inodes, ino).kind)
    ensures var u := BeforeAdding(s, path);
            if exists q :: NameOutside(s, path, ino, q) then InodeAt(u.inodes, ino).kind == InodeAt(s.inodes, ino).kind
            else InodeAt(u.inodes, ino).kind == Unused
  {
    hide Sound, Pruned, RemoveTree, Lookup, BeforeAdding, FindChild, Cleared, NodesSane, Attached, LinksAgree, Names,
         PathOf, KindsSane, FileCounts;
    BeforeAddingWell(s, path);
    var u := BeforeAdding(s, path);
    InvHolds(u);
    InvWellFormed(u);
    if q :| NameOutside(s, path, ino, q) {
      OutsideStays(s, u, path, ino, q);
    } else {
      if InodeAt(u.inodes, ino).kind != Unused { NameLeft(s, u, path, ino); }
    }
  }

  lemma OutsideStays(s: St, u: St, path: Path, ino: nat, q: Path)
    requires |s.nodes| > 0 && |u.nodes| > 0 && Cleared(s.nodes, u.nodes, path) && Pruned(s, u) && Inv(u.nodes, u.inodes)
    requires NameOutside(s, path, ino, q)
    ensures InodeAt(u.inodes, ino).kind != Unused
  {
    hide Lookup, NodesSane, FileCounts, PathOf;
    InvWellFormed(u);
    FoundIsAttached(u.nodes, q);
  }

  lemma NameLeft(s: St, u: St, path: Path, ino: nat)
    requires Sound(s) && |s.nodes| > 0 && |u.nodes| > 0 && Cleared(s.nodes, u.nodes, path) && Pruned(s, u)
    requires Inv(u.nodes, u.inodes)
    requires FIRST_INODE <= ino <= |s.inodes| == |u.inodes| && IsFile(InodeAt(u.inodes, ino).kind)
    ensures exists q :: NameOutside(s, path, ino, q)
  {
    hide Lookup, KindsSane, Owned, Attached, LinksAgree;
    InvWellFormed(u);
    assert |Names(u.nodes, ino)| > 0;
    assert Names(u.nodes, ino) != {};
    var j :| j in Names(u.nodes, ino);
    var q := PathOf(u.nodes, j);
    AttachedIsFound(u.nodes, j);
    RootFound(u.nodes);
    assert NameOutside(s, path, ino, q);
  }

  /** The link is really made, to the inode of `target`, under node `p`. */
  ghost predicate Makes(s: St, path: Path, target: Path)
    requires |s.nodes| > 0
  {
    Link(s, path, target).error == None && !Linked(s, path, target)
  }

  lemma MakesWhat(s: St, path: Path, target: Path) returns (p: nat, ino: nat)
    requires Sound(s) && |s.nodes| > 0 && Makes(s, path, target)
    ensures Lookup(s.nodes, ParentPath(path)) == Some(p) && Lookup(s.nodes, target).Some?
    ensures ino == s.nodes[Lookup(s.nodes, target).value].inode
    ensures FIRST_INODE <= ino <= |s.inodes| && IsFile(InodeAt(s.inodes, ino).kind)
    ensures Target(s.nodes[Lookup(s.nodes, target).value]) == ino
    ensures p < |s.nodes| && Link(s, path, target).state == AddLink(BeforeAdding(s, path), p, LastName(path), ino)
  {
    hide Sound, Lookup, RemoveTree, AddLink;
    InvHolds(s);
    TargetIsFile(s, target);
    p := Lookup(s.nodes, ParentPath(path)).value;
    ino := s.nodes[Lookup(s.nodes, target).value].inode;
  }

  lemma TargetIsFile(s: St, target: Path)
    requires Inv(s.nodes, s.inodes) && |s.nodes| > 0 && Lookup(s.nodes, target).Some?
    ensures var n := s.nodes[Lookup(s.nodes, target).value];
            InodeAt(s.inodes, n.inode).kind != Directory ==>
              FIRST_INODE <= n.inode <= |s.inodes| && IsFile(InodeAt(s.inodes, n.inode).kind) && Target(n) == n.inode
  {
    hide Lookup, FileCounts, DirCounts, RemovedDirs, LinksAgree, Attached;
    InvWellFormed(s);
    FoundIsAttached(s.nodes, target);
  }

  lemma {:induction false} DirStays(s: St, u: St, p: nat)
    requires Pruned(s, u) && Lasting(s.inodes, u.inodes) && Sound(u) && p < |s.nodes| && Attached(u.nodes, p)
    requires 1 <= s.nodes[p].inode <= |s.inodes| == |u.inodes|
    ensures IsDirNode(u.nodes, u.inodes, p) <==> IsDirNode(s.nodes, s.inodes, p)
  {
    hide Owned, PathOf, FileCounts, DirCounts, RemovedDirs, NodesSane;
    InvWellFormed(u);
  }

  lemma NodeInode(s: St, p: nat)
    requires Sound(s) && p < |s.nodes|
    ensures 1 <= s.nodes[p].inode <= |s.inodes|
  {
    hide Owned, FileCounts, DirCounts, RemovedDirs, KindsSane;
  }

  /** A child under something that is no directory breaks the tree. */
  lemma ChildOfFile(u: St, p: nat, name: Name, ino: nat)
    requires p < |u.nodes| && !IsDirNode(u.nodes, u.inodes, p)
    ensures !Sound(AddLink(u, p, name, ino))
  {
    hide Owned, FileCounts, DirCounts, RemovedDirs, NodesSane, WellFormed, Attached;
    var r := AddLink(u, p, name, ino);
    assert r.nodes[p].children != [] && r.nodes[p].inode == u.nodes[p].inode && r.nodes[p].link == u.nodes[p].link;
    assert InodeAt(r.inodes, u.nodes[p].inode).kind == InodeAt(u.inodes, u.nodes[p].inode).kind;
  }

  /** A name for a cleared inode is counted nowhere. */
  lemma NameOfNothing(u: St, p: nat, name: Name, ino: nat)
    requires p < |u.nodes| && FIRST_INODE <= ino <= |u.inodes| && InodeAt(u.inodes, ino).kind == Unused
    requires InodeAt(u.inodes, ino).links == 0
    ensures !Sound(AddLink(u, p, name, ino))
  {
    hide Owned, DirCounts, RemovedDirs, NodesSane, KindsSane, WellFormed, Attached, AddChild, Names;
    var r := AddLink(u, p, name, ino);
    assert InodeAt(r.inodes, ino).kind == Unused && InodeAt(r.inodes, ino).links > 0;
  }

  /** One name more than can be counted. */
  lemma OneTooMany(u: St, p: nat, name: Name, ino: nat)
    requires p < |u.nodes| && FIRST_INODE <= ino <= |u.inodes| && IsFile(InodeAt(u.inodes, ino).kind)
    requires InodeAt(u.inodes, ino).links == MOST_LINKS
    ensures var r := AddLink(u, p, name, ino);
            !Sound(r) && IsFile(InodeAt(r.inodes, ino).kind) && InodeAt(r.inodes, ino).links == 0
  {
    hide Owned, DirCounts, RemovedDirs, NodesSane, KindsSane, WellFormed, Attached, AddChild, Names;
    var r := AddLink(u, p, name, ino);
    assert IsFile(InodeAt(r.inodes, ino).kind) && InodeAt(r.inodes, ino).links == 0;
  }

  /** What is counted once the place is cleared: the names outside. */
  lemma CountOutside(s: St, path: Path, ino: nat)
    requires Sound(s) && |s.nodes| > 0 && FIRST_INODE <= ino <= |s.inodes|
    requires IsFile(InodeAt(BeforeAdding(s, path).inodes, ino).kind)
    ensures InodeAt(BeforeAdding(s, path).inodes, ino).links == |NamesOutside(s, path, ino)|
  {
    hide Sound, Pruned, RemoveTree, Lookup, BeforeAdding, Cleared, Attached, LinksAgree, PathOf, KindsSane, DirCounts,
         RemovedDirs;
    BeforeAddingWell(s, path);
    var u := BeforeAdding(s, path);
    InvHolds(u);
    InvWellFormed(u);
    SameSize(s, u);
    assert InodeAt(u.inodes, ino).links == |Names(u.nodes, ino)|;
    forall i: nat ensures i in Names(u.nodes, ino) <==> i in NamesOutside(s, path, ino) {
      OutsideIff(s, u, path, ino, i);
    }
    assert Names(u.nodes, ino) == NamesOutside(s, path, ino);
  }

  lemma SameSize(s: St, u: St)
    requires Pruned(s, u)
    ensures |u.nodes| == |s.nodes|
  {
    hide PathOf;
  }

  lemma OutsideIff(s: St, u: St, path: Path, ino: nat, i: nat)
    requires |s.nodes| > 0 && |u.nodes| > 0 && Cleared(s.nodes, u.nodes, path) && Pruned(s, u) && Inv(u.nodes, u.inodes)
    requires LinksAgree(u.nodes)
    requires ino >= FIRST_INODE
    ensures i in Names(u.nodes, ino) <==> i in NamesOutside(s, path, ino)
  {
    hide Lookup, FileCounts, DirCounts, RemovedDirs, KindsSane, Attached, LinksAgree;
    InvWellFormed(u);
    if i in Names(u.nodes, ino) {
      var q := PathOf(u.nodes, i);
      AttachedIsFound(u.nodes, i);
      RootFound(u.nodes);
      assert Lookup(s.nodes, q) == Some(i) && !(path <= q);
    }
    if i in NamesOutside(s, path, ino) {
      var q :| Lookup(s.nodes, q) == Some(i) && !(path <= q);
      FoundIsAttached(u.nodes, q);
    }
  }

  /** link keeps the filesystem sound exactly when it fails, has nothing to do, or is asked for under a
      directory for a file that has names outside what the new entry replaces, fewer than 65535 of them. */
  lemma LinkSoundIff(s: St, path: Path, target: Path)
    requires Sound(s) && |s.nodes| > 0
    ensures Sound(Link(s, path, target).state) <==> Makes(s, path, target) ==> LinkSafe(s, path, target)
    ensures !Makes(s, path, target) ==> Link(s, path, target).state == s
  {
    hide Sound, Lookup, RemoveTree, AddLink, Pruned, Lasting, BeforeAdding, FindChild, Cleared, Attached;
    if Makes(s, path, target) {
      var p, ino := MakesWhat(s, path, target);
      var u := BeforeAdding(s, path);
      BeforeAddingWell(s, path);
      PlaceFree(s, path, p);
      Survives(s, path, ino);
      NodeInode(s, p);
      InvHolds(u);
      InvWellFormed(u);
      DirStays(s, u, p);
      if !IsDirNode(s.nodes, s.inodes, p) {
        ChildOfFile(u, p, LastName(path), ino);
      } else if exists q :: NameOutside(s, path, ino, q) {
        CountOutside(s, path, ino);
        if InodeAt(u.inodes, ino).links < MOST_LINKS {
          AddLinkSound(u, p, LastName(path), ino);
        } else {
          OneTooMany(u, p, LastName(path), ino);
        }
      } else {
        ClearedCount(u, ino);
        NameOfNothing(u, p, LastName(path), ino);
      }
    }
  }

  /** A link that is made adds exactly its own path, as another name of the target's file; what it
      replaces is gone, and every other path leads where it led. No content is lost. */
  lemma LinkAddsExactly(s: St, path: Path, target: Path, area: nat)
    requires Sound(s) && |s.nodes| > 0 && Makes(s, path, target) && LinkSafe(s, path, target) && Kept(s, area)
    ensures var r := Link(s, path, target).state;
            && path != [] && |r.nodes| > 0 && Kept(r, area) && Later(s, r) && r.born == s.born
            && (forall q :: Lookup(r.nodes, q) == if q == path then Some(|s.nodes|) else if path <= q then None
                else Lookup(s.nodes, q))
            && |s.nodes| < |r.nodes| && Target(r.nodes[|s.nodes|]) == Target(s.nodes[Lookup(s.nodes, target).value])
  {
    hide Sound, Lookup, RemoveTree, Pruned, Lasting, BeforeAdding, FindChild, Attached, Later, Kept, AddChild,
         WellFormed;
    var p, ino := MakesWhat(s, path, target);
    var u := BeforeAdding(s, path);
    BeforeAddingWell(s, path);
    PlaceFree(s, path, p);
    var r := Link(s, path, target).state;
    ParentOfPath(path);
    NotTheRoot(s, path, ino);
    AddLength(u.nodes, p, LinkNode(LastName(path), ino));
    forall q
      ensures Lookup(r.nodes, q) == if q == path then Some(|s.nodes|) else if path <= q then None
              else Lookup(s.nodes, q)
    {
      LookupGrown(u.nodes, p, LinkNode(LastName(path), ino), ParentPath(path), q);
    }
    AddedLast(u.nodes, p, LinkNode(LastName(path), ino));
    LinkKept(s, u, p, LastName(path), ino, area, path);
  }

  lemma ClearedCount(u: St, ino: nat)
    requires Sound(u) && FIRST_INODE <= ino <= |u.inodes| && InodeAt(u.inodes, ino).kind == Unused
    ensures InodeAt(u.inodes, ino).links == 0
  {
    hide Owned, DirCounts, RemovedDirs, NodesSane, KindsSane, WellFormed, Attached, Names;
  }

  lemma AddedLast(nodes: Nodes, p: nat, node: Node)
    requires p < |nodes|
    ensures |AddChild(nodes, p, node)| == |nodes| + 1 && AddChild(nodes, p, node)[|nodes|] == node.(parent := Some(p))
  {
  }

  lemma NotTheRoot(s: St, path: Path, ino: nat)
    requires |s.nodes| > 0 && exists q :: NameOutside(s, path, ino, q)
    ensures path != []
  {
  }

  lemma LinkKept(s: St, u: St, p: nat, name: Name, ino: nat, area: nat, path: Path)
    requires Sound(s) && |s.nodes| > 0 && u == BeforeAdding(s, path) && p < |u.nodes| && Kept(s, area)
    ensures var r := AddLink(u, p, name, ino); Kept(r, area) && Later(s, r) && r.born == s.born
  {
    hide Sound, RemoveTree, Lasting, Kept, Lookup, AddLink, Past, Spans;
    Still(s.store);
    SameLasting(s.inodes);
    BornLength(s);
    if Lookup(s.nodes, path).Some? { TreeLasting(s, Lookup(s.nodes, path).value); }
    AddLinkLasting(u, p, name, ino);
    var r := AddLink(u, p, name, ino);
    LastingTransitive(s.inodes, u.inodes, r.inodes);
    KeptOn(s, r, area);
  }

  // ----- Creating through a hard-link entry -----

  /** A hard-link entry has got a child. */
  ghost predicate LinkWithChild(nodes: Nodes) {
    exists i :: 0 <= i < |nodes| && nodes[i].link.Some? && nodes[i].children != []
  }

  lemma NotBoth(s: St)
    ensures !(Sound(s) && LinkWithChild(s.nodes))
  {
    hide Owned, NodesSane, FileCounts, DirCounts, RemovedDirs, WellFormed, Attached;
  }

  lemma InsertLinkWithChild(s: St, p: nat, name: Name, what: What, x: Xattrs)
    requires p < |s.nodes|
    ensures var r := Insert(s, p, name, what, x);
            && (LinkWithChild(s.nodes) ==> LinkWithChild(r.state.nodes))
            && (r.error == None && s.nodes[p].link.Some? ==> LinkWithChild(r.state.nodes))
            && (r.error.Some? ==> r.state == s.(store := r.state.store))
  {
    hide Stow, PlaceXattr, First, ContentOf, KindOf, Top;
    var r := Insert(s, p, name, what, x);
    if r.error == None {
      assert r.state.nodes[p].children != [] && r.state.nodes[p].link == s.nodes[p].link;
      if LinkWithChild(s.nodes) {
        var i :| 0 <= i < |s.nodes| && s.nodes[i].link.Some? && s.nodes[i].children != [];
        assert r.state.nodes[i].link.Some? && r.state.nodes[i].children != [];
      }
    }
  }

  /** What is there below a hard-link entry: nothing. */
  lemma NothingBelowLink(s: St, q: Path, path: Path, i: nat)
    requires Sound(s) && |s.nodes| > 0 && Lookup(s.nodes, q) == Some(i) && s.nodes[i].link.Some? && q < path
    ensures Lookup(s.nodes, path) == None
    ensures s.nodes[i].inode == ROOT_INODE && InodeAt(s.inodes, ROOT_INODE).kind == Directory
  {
    hide Owned, DirCounts, RemovedDirs, FileCounts, Attached, LinksAgree, Lookup;
    var first := q + [path[|q|]];
    LookupSnoc(s.nodes, ROOT, q, path[|q|]);
    SameLookup(s.nodes, q);
    SameLookup(s.nodes, first);
    assert first <= path;
    NothingBelowNothing(s.nodes, first, path);
  }

  /** A directory asked for where a hard-link entry stands is reported as made, and is not. Anything
      asked for below a hard-link entry either fails with the tree untouched or leaves a tree in which
      a hard-link entry has a child. */
  lemma {:induction false} CreateThroughLink(s: St, q: Path, path: Path, what: What, x: Xattrs, i: nat)
    requires Sound(s) && Top(s.store) > 0 && |s.nodes| > 0 && Lookup(s.nodes, q) == Some(i) && s.nodes[i].link.Some?
    requires q <= path && NamesFit(path)
    requires q == path ==> what.MakeDir?
    ensures var r := Create(s, path, what, x);
            && (q == path ==> r == Outcome(s, None))
            && (q < path ==> if r.state.nodes == s.nodes then r.error.Some?
                && Sound(r.state) else LinkWithChild(r.state.nodes) && !Sound(r.state))
    decreases |path|
  {
    hide Sound, Lookup, Insert, RemoveTree, Past;
    NothingBelowLink(s, q, q + [SLASH], i);
    if q < path {
      NothingBelowLink(s, q, path, i);
      var parent := path[..|path| - 1];
      SplitLast(path, q);
      CreateThroughLink(s, q, parent, MakeDir, NoXattrs, i);
      var v := Create(s, parent, MakeDir, NoXattrs);
      var r := Create(s, path, what, x);
      if v.error == None && Lookup(v.state.nodes, parent).Some? {
        var p := Lookup(v.state.nodes, parent).value;
        InsertLinkWithChild(v.state, p, path[|path| - 1], what, x);
        if q == parent { ThroughLink(s, p, path[|path| - 1], what, x); }
      }
      NotBoth(s);
      NotBoth(r.state);
    }
  }

  /** One entry under the hard-link entry itself. */
  lemma ThroughLink(s: St, p: nat, name: Name, what: What, x: Xattrs)
    requires Sound(s) && Top(s.store) > 0 && p < |s.nodes| && s.nodes[p].link.Some?
    ensures var r := Insert(s, p, name, what, x);
            if r.error.Some? then r.state.nodes == s.nodes && Sound(r.state) else |r.state.nodes| == |s.nodes| + 1
  {
    hide Sound, Stow, PlaceXattr, First, ContentOf, KindOf, Past;
    var r := Insert(s, p, name, what, x);
    if InodeAt(s.inodes, s.nodes[p].inode).links < MAX_LINKS && !x.Refused? {
      var w := PlaceXattr(s.store, x);
      XattrPlaced(s.store, x);
      StowPast(w.store, what);
      PastTransitive(s.store, w.store, Stow(w.store, what).store);
      PastTop(s.store, Stow(w.store, what).store);
      if r.error.Some? { MovedOn(s, r.state.store); }
    }
  }
}
