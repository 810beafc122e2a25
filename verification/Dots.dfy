/** Exactly when unlink is right: for paths with names of a single dot, which a lookup passes over, harmless in the
    middle of a path, not at its end; and which inodes it frees. */
module Dots {
  import opened Bytes
  import opened FileTree
  import opened Fs
  import opened Namespace
  import opened Ownership
  import opened Pruning
  import opened Creating
  import opened Keeping
  import opened Linking

  /** What an unlink, harmless dots and all, takes away. */
  ghost predicate Reaches(path: Path, whiteout: bool, q: Path) {
    Goes(Components(path), whiteout || EndsInDot(path), q)
  }

  /** Nothing is there, or only the root, where an unlink with a dot at its end looks. */
  ghost predicate DotSafe(s: St, path: Path, whiteout: bool)
    requires |s.nodes| > 0
  {
    EndsInDot(path) && !whiteout ==> Lookup(s.nodes, Components(path)) == None || Components(path) == []
  }

  lemma {:induction false} PlainComponents(path: Path)
    requires DOT !in path
    ensures Components(path) == path && !EndsInDot(path)
  {
    if path != [] {
      var n := |path| - 1;
      assert path == path[..n] + [path[n]];
      PlainComponents(path[..n]);
    }
  }

  /** A harmless unlink is one by plain names; with a dot at its end it empties the directory before it. */
  lemma {:induction false} UnlinkIsNamed(s: St, path: Path, whiteout: bool)
    requires Sound(s) && |s.nodes| > 0 && DotSafe(s, path, whiteout)
    ensures Unlink(s, path, whiteout) == UnlinkNamed(s, Components(path), whiteout || EndsInDot(path))
  {
    hide Sound, Lookup, Components, RemoveTree, RemoveAll, Release, RemoveChild;
    if EndsInDot(path) && !whiteout && Lookup(s.nodes, Components(path)).Some? {
      RootFound(s.nodes);
      RootByDot(s);
    }
  }

  lemma {:induction false} RootByDot(s: St)
    requires Sound(s) && |s.nodes| > 0
    ensures RemoveByDot(s, ROOT) == RemoveAll(s, ROOT, s.nodes[ROOT].children) && IsDirNode(s.nodes, s.inodes, ROOT)
  {
    hide Owned, Attached, Lookup, RemoveAll, RemoveTree, FileCounts, RemovedDirs;
    RootIsDir(s);
    RootFound(s.nodes);
    var t := Emptied(s, [], ROOT);
    RootIsDir(t);
    InvWellFormed(t);
    assert DirKids(t.nodes, t.inodes, ROOT) == {};
    NothingToRemove(t.nodes, ROOT);
    RootNode(t);
  }

  lemma RootNode(t: St)
    requires Inv(t.nodes, t.inodes)
    ensures |t.nodes| > 0 && Target(t.nodes[ROOT]) == ROOT_INODE
  {
    hide FileCounts, DirCounts, RemovedDirs, KindsSane;
  }

  lemma {:induction false} NothingToRemove(nodes: Nodes, i: nat)
    requires i < |nodes| && nodes[i].children == []
    ensures RemoveChild(nodes, i, DOT) == nodes
  {
    assert nodes[i].(children := []) == nodes[i];
  }

  /** Once all below it is gone, a node has no children and stands where it stood. */
  lemma {:induction false} Emptied(s: St, path: Path, i: nat) returns (t: St)
    requires Sound(s) && |s.nodes| > 0 && Lookup(s.nodes, path) == Some(i)
    ensures t == RemoveAll(s, i, s.nodes[i].children) && |t.nodes| == |s.nodes| && Sound(t) && LinksAgree(t.nodes)
    ensures Attached(t.nodes, i) && t.nodes[i].children == []
    ensures t.nodes[i].inode == s.nodes[i].inode && t.nodes[i].link == s.nodes[i].link
    ensures Lookup(t.nodes, path) == Some(i)
  {
    hide Inv, Owned, Lookup, RemoveAll, RemoveTree, Attached, PathOf;
    t := RemoveAll(s, i, s.nodes[i].children);
    InvWellFormed(s);
    FoundIsAttached(s.nodes, path);
    assert SiblingsDiffer(s.nodes, s.nodes[i].children);
    SiblingsDistinct(s.nodes, s.nodes[i].children);
    RemoveAllPrunes(s, i, s.nodes[i].children);
    InvWellFormed(t);
    ChildrenGone(s, t, i);
    LookupIff(s.nodes, path, i);
    LookupIff(t.nodes, path, i);
  }

  // ----- What a dot at the end does -----

  /** The inode of a file or of a directory below the root loses a link, and its entry stays where it is. */
  lemma {:induction false} ByDotKeepsEntry(s: St, path: Path, i: nat)
    requires Sound(s) && |s.nodes| > 0 && Lookup(s.nodes, path) == Some(i) && path != []
    ensures var t, r := RemoveAll(s, i, s.nodes[i].children), RemoveByDot(s, i);
            && |t.nodes| == |s.nodes| && Sound(t) && LinksAgree(t.nodes) && Attached(t.nodes, i)
            && t.nodes[i].children == []
            && r == Release(t, t.nodes[i]) && r.nodes == t.nodes && FIRST_INODE <= Target(t.nodes[i]) <= |t.inodes|
            && Target(t.nodes[i]) == Target(s.nodes[i]) && t.nodes[i].link == s.nodes[i].link
            && Lookup(t.nodes, path) == Some(i)
            && InodeAt(t.inodes, Target(t.nodes[i])).kind != Unused && InodeAt(t.inodes, Target(t.nodes[i])).links > 0
            && (IsDirNode(t.nodes, t.inodes, i) ==> InodeAt(t.inodes, Target(t.nodes[i])).links == 2)
  {
    hide Owned, Attached, Lookup, RemoveAll, RemoveTree, LinksAgree, RemovedDirs;
    var t := Emptied(s, path, i);
    InvWellFormed(t);
    assert DirKids(t.nodes, t.inodes, i) == {};
    NothingToRemove(t.nodes, i);
    NotRoot(t, path, i);
    var k := Target(t.nodes[i]);
    if !IsDirNode(t.nodes, t.inodes, i) { assert IsFile(InodeAt(t.inodes, k).kind); }
  }

  lemma {:induction false} NotRoot(t: St, path: Path, i: nat)
    requires Sound(t) && |t.nodes| > 0 && Lookup(t.nodes, path) == Some(i) && path != []
    ensures i != ROOT && FIRST_INODE <= Target(t.nodes[i]) <= |t.inodes|
  {
    hide Owned, Attached, Lookup, FileCounts, DirCounts, RemovedDirs, LinksAgree;
    InvWellFormed(t);
    FoundIsAttached(t.nodes, path);
    RootFound(t.nodes);
    if i == ROOT { FoundIsAttached(t.nodes, []); }
  }

  /** An attached entry whose inode has just lost a link that was counted. */
  lemma {:induction false} LostLink(t: St, i: nat)
    requires Sound(t) && LinksAgree(t.nodes) && i < |t.nodes| && Attached(t.nodes, i)
    requires FIRST_INODE <= Target(t.nodes[i]) <= |t.inodes|
    requires InodeAt(t.inodes, Target(t.nodes[i])).kind != Unused && InodeAt(t.inodes, Target(t.nodes[i])).links > 0
    ensures !Sound(Release(t, t.nodes[i]))
  {
    hide Owned, Attached, LinksAgree, RemovedDirs, WellFormed, NodesSane, NodeBlocks, Deferred, XattrRange;
    InvWellFormed(t);
    var k := Target(t.nodes[i]);
    var ino, r := InodeAt(t.inodes, k), Release(t, t.nodes[i]);
    assert r.nodes == t.nodes;
    if ino.links == 1 {
      assert InodeAt(r.inodes, k).kind == Unused;
    } else {
      assert InodeAt(r.inodes, k) == ino.(links := ino.links - 1);
      if IsDirNode(t.nodes, t.inodes, i) {
        SameKidsAfter(t, r, i, k);
        assert InodeAt(t.inodes, k).links == 2 + |DirKids(t.nodes, t.inodes, i)|;
        assert DirKids(r.nodes, r.inodes, i) == DirKids(t.nodes, t.inodes, i);
      } else {
        assert IsFile(ino.kind);
      }
    }
  }

  lemma SameKidsAfter(t: St, r: St, i: nat, k: nat)
    requires r.nodes == t.nodes && i < |t.nodes| && |r.inodes| == |t.inodes|
    requires InodeAt(r.inodes, k).kind == InodeAt(t.inodes, k).kind
    requires forall x :: x != k ==> InodeAt(r.inodes, x) == InodeAt(t.inodes, x)
    ensures DirKids(r.nodes, r.inodes, i) == DirKids(t.nodes, t.inodes, i)
  {
  }

  /** An unlink keeps the filesystem sound exactly if it does not end in a dot behind an entry other than the
      root; a whiteout always does. */
  lemma UnlinkSoundIff(s: St, path: Path, whiteout: bool)
    requires Sound(s) && |s.nodes| > 0
    ensures Sound(Unlink(s, path, whiteout).state) <==> DotSafe(s, path, whiteout)
  {
    hide Sound, Lookup, Components, RemoveByDot, RemoveTree, RemoveAll, Release, Attached, LinksAgree;
    if DotSafe(s, path, whiteout) {
      UnlinkIsNamed(s, path, whiteout);
      UnlinkRemovesExactly(s, Components(path), whiteout || EndsInDot(path));
    } else {
      var i := Lookup(s.nodes, Components(path)).value;
      ByDotKeepsEntry(s, Components(path), i);
      LostLink(RemoveAll(s, i, s.nodes[i].children), i);
    }
  }

  /** A directory hit twice: its inode is cleared, and its entry is still there. */
  lemma TwiceClears(s: St, path: Path, i: nat)
    requires Sound(s) && |s.nodes| > 0 && Lookup(s.nodes, path) == Some(i) && path != []
    requires IsDirNode(s.nodes, s.inodes, i)
    requires s.nodes[i].children == []
    ensures var r := RemoveByDot(RemoveByDot(s, i), i);
            InodeAt(r.inodes, s.nodes[i].inode) == FREE && Lookup(r.nodes, path) == Some(i) && r.nodes == s.nodes
  {
    hide Sound, Lookup, Attached, LinksAgree, NodeBlocks, Deferred, XattrRange;
    ByDotKeepsEntry(s, path, i);
    NothingToRemove(s.nodes, i);
    assert RemoveAll(s, i, []) == s;
    var t := RemoveByDot(s, i);
    assert InodeAt(t.inodes, s.nodes[i].inode).links == 1;
    assert RemoveAll(t, i, []) == t;
  }

  // ----- When an inode is freed -----

  /** Of the inodes that no name leads to, the directories and only they still have links. */
  lemma NamelessFreedIff(s: St, k: nat)
    requires Sound(s) && LinksAgree(s.nodes) && FIRST_INODE <= k <= |s.inodes| && Names(s.nodes, k) == {}
    ensures InodeAt(s.inodes, k).links == 0 <==> InodeAt(s.inodes, k).kind != Directory
  {
    hide Attached, LinksAgree, DirCounts, NodesSane, SetAside, DeletedExactly;
    InvWellFormed(s);
    var o := BornAt(s.born, k).origin;
    assert s.nodes[o].inode == k && s.nodes[o].link == None;
    if Attached(s.nodes, o) { NamesHas(s.nodes, o); }
  }

  /** A directory without children goes from two links to one. */
  lemma {:induction false} LeafDirectory(t: St, i: nat)
    requires Inv(t.nodes, t.inodes) && LinksAgree(t.nodes) && 0 < i < |t.nodes| && Attached(t.nodes, i)
    requires IsDirNode(t.nodes, t.inodes, i) && t.nodes[i].children == []
    ensures var k := t.nodes[i].inode; InodeAt(RemoveLeaf(t, i).inodes, k) == InodeAt(t.inodes, k).(links := 1)
  {
    hide Attached, LinksAgree, FileCounts, RemovedDirs, RemoveChild;
    assert DirKids(t.nodes, t.inodes, i) == {};
  }

  /** Taking the last name of an inode away frees it if and only if it is no directory. */
  lemma {:induction false} UnlinkFreesIff(s: St, path: Path)
    requires Sound(s) && |s.nodes| > 0 && path != [] && Lookup(s.nodes, path).Some? && LinksAgree(s.nodes)
    requires Names(s.nodes, Target(s.nodes[Lookup(s.nodes, path).value])) == {Lookup(s.nodes, path).value}
    ensures var i, r := Lookup(s.nodes, path).value, UnlinkNamed(s, path, false).state;
            InodeAt(r.inodes, Target(s.nodes[i])).links == 0 <==> !IsDirNode(s.nodes, s.inodes, i)
  {
    hide Inv, Owned, Lookup, RemoveAll, RemoveTree, Attached, PathOf, LinksAgree, Names, Pruned;
    var i, r := Lookup(s.nodes, path).value, UnlinkNamed(s, path, false).state;
    InvWellFormed(s);
    FoundIsAttached(s.nodes, path);
    if IsDirNode(s.nodes, s.inodes, i) {
      DirectoryStays(s, path, i);
    } else {
      UnlinkRemovesExactly(s, path, false);
      InvWellFormed(r);
      LastNameGone(s, r, path, i);
      TreeLasting(s, i);
      FileInode(s, i);
      NamelessFreedIff(r, Target(s.nodes[i]));
    }
  }

  /** An unlinked directory keeps its inode, with one link. */
  lemma {:induction false} DirectoryStays(s: St, path: Path, i: nat)
    requires Sound(s) && |s.nodes| > 0 && path != [] && Lookup(s.nodes, path) == Some(i)
    requires IsDirNode(s.nodes, s.inodes, i)
    ensures var ino := InodeAt(UnlinkNamed(s, path, false).state.inodes, s.nodes[i].inode);
            ino.kind == Directory && ino.links == 1
  {
    hide Inv, Owned, Lookup, RemoveAll, Attached, PathOf, LinksAgree, RemoveLeaf, Lasting, InodeAt;
    var t := Emptied(s, path, i);
    InvWellFormed(s);
    RemoveAllKeepsShape(s, path, i);
    NotTheRoot(s.nodes, path, i);
    LeafDirectory(t, i);
  }

  lemma {:induction false} RemoveAllKeepsShape(s: St, path: Path, i: nat)
    requires Sound(s) && |s.nodes| > 0 && Lookup(s.nodes, path) == Some(i)
    ensures var t := RemoveAll(s, i, s.nodes[i].children);
            i < |t.nodes| && (IsDirNode(t.nodes, t.inodes, i) <==> IsDirNode(s.nodes, s.inodes, i))
  {
    hide Inv, Owned, Lookup, RemoveAll, RemoveTree, Attached, PathOf, Lasting;
    var t := Emptied(s, path, i);
    InvWellFormed(s);
    FoundIsAttached(s.nodes, path);
    assert SiblingsDiffer(s.nodes, s.nodes[i].children);
    SiblingsDistinct(s.nodes, s.nodes[i].children);
    RemoveAllPrunes(s, i, s.nodes[i].children);
    AllLasting(s, i, s.nodes[i].children);
    NodeInode(s, i);
    DirStays(s, t, i);
  }

  lemma {:induction false} NotTheRoot(nodes: Nodes, path: Path, i: nat)
    requires LinksAgree(nodes) && Lookup(nodes, path) == Some(i) && path != []
    ensures i != ROOT
  {
    var c := FindChild(nodes, nodes[ROOT].children, path[0]).value;
    DeeperIsLater(nodes, c, path[1..]);
  }

  lemma {:induction false} DeeperIsLater(nodes: Nodes, from: nat, path: Path)
    requires LinksAgree(nodes) && from < |nodes| && LookupFrom(nodes, from, path).Some?
    ensures from <= LookupFrom(nodes, from, path).value
    decreases |path|
  {
    if path != [] { DeeperIsLater(nodes, FindChild(nodes, nodes[from].children, path[0]).value, path[1..]); }
  }

  lemma {:induction false} LastNameGone(s: St, r: St, path: Path, i: nat)
    requires Sound(s) && Sound(r) && Pruned(s, r) && |s.nodes| > 0 && LinksAgree(s.nodes) && LinksAgree(r.nodes)
    requires path != [] && Lookup(s.nodes, path) == Some(i) && Names(s.nodes, Target(s.nodes[i])) == {i}
    requires forall q :: Lookup(r.nodes, q) == if Goes(path, false, q) then None else Lookup(s.nodes, q)
    ensures Names(r.nodes, Target(s.nodes[i])) == {}
  {
    hide Inv, Owned, Lookup, Attached, LinksAgree, PathOf, Names, Pruned;
    InvWellFormed(s);
    FoundIsAttached(s.nodes, path);
    if j :| j in Names(r.nodes, Target(s.nodes[i])) {
      StillNamed(s, r, path, Target(s.nodes[i]), j);
      assert false;
    }
  }

  /** A name that is left was there before, at a path that did not go. */
  lemma {:induction false} StillNamed(s: St, r: St, path: Path, k: nat, j: nat)
    requires Sound(s) && Sound(r) && Pruned(s, r) && |s.nodes| > 0 && LinksAgree(s.nodes) && LinksAgree(r.nodes)
    requires j in Names(r.nodes, k)
    requires forall q :: Lookup(r.nodes, q) == if Goes(path, false, q) then None else Lookup(s.nodes, q)
    ensures j in Names(s.nodes, k) && !Goes(path, false, PathOf(s.nodes, j))
  {
    hide Inv, Owned, Lookup, Attached, LinksAgree, PathOf;
    InvWellFormed(s);
    InvWellFormed(r);
    AttachedIsFound(r.nodes, j);
    FoundIsAttached(s.nodes, PathOf(r.nodes, j));
  }

  lemma {:induction false} FileInode(s: St, i: nat)
    requires Sound(s) && i < |s.nodes| && LinksAgree(s.nodes) && Attached(s.nodes, i)
    requires !IsDirNode(s.nodes, s.inodes, i)
    ensures FIRST_INODE <= Target(s.nodes[i]) <= |s.inodes| && InodeAt(s.inodes, Target(s.nodes[i])).kind != Directory
  {
    hide Owned, FileCounts, DirCounts, RemovedDirs, Attached, LinksAgree;
    InvWellFormed(s);
  }
}
