/** Who owns the blocks: every range given to a file is with a reachable node, set aside for an inode
    with names left, or deleted; and it is deleted exactly when the last name is gone. */
module Ownership {
  import opened Bytes
  import opened Placement
  import opened FileTree
  import opened Fs
  import opened Namespace

  /** The blocks an inode was given: an xattr block, if any, then the payload ranges, all in its span. */
  ghost predicate BornSane(b: Born) {
    && b.lo <= b.hi && Ascending(b.ranges)
    && (if b.xattr == 0 then Within(b.ranges, b.lo, b.hi)
        else b.lo <= b.xattr < b.hi && Within(b.ranges, b.xattr + 1, b.hi))
  }

  /** Spans follow one another in the order of creation, up to the cursor. */
  ghost predicate Spans(born: seq<Born>, top: nat) {
    && (forall k {:trigger BornAt(born, k)} :: FIRST_INODE <= k <= |born| ==>
        BornSane(BornAt(born, k)) && BornAt(born, k).hi <= top)
    && (forall j, k {:trigger BornAt(born, j), BornAt(born, k)} :: FIRST_INODE <= j < k <= |born| ==>
        BornAt(born, j).hi <= BornAt(born, k).lo)
  }

  ghost predicate Dead(inodes: seq<Inode>, k: nat) {
    FIRST_INODE <= k <= |inodes| && InodeAt(inodes, k).kind == Unused
  }

  /** Range `r` was given to inode `k`. */
  ghost predicate Gave(born: seq<Born>, k: nat, r: Range) {
    r in BornAt(born, k).ranges || r in XattrRange(BornAt(born, k).xattr)
  }

  /** Each inode has the entry it was created with, and that entry records its ranges. */
  ghost predicate Origins(nodes: Nodes, inodes: seq<Inode>, born: seq<Born>) {
    && |born| == |inodes|
    && forall k {:trigger BornAt(born, k)} :: FIRST_INODE <= k <= |inodes| ==>
         var b := BornAt(born, k);
         && 0 < b.origin < |nodes|
         && nodes[b.origin].link == None && nodes[b.origin].inode == k && nodes[b.origin].ranges == b.ranges
         && (InodeAt(inodes, k).kind != Unused ==> InodeAt(inodes, k).xattr == b.xattr)
  }

  /** Ranges are set aside exactly for files whose original entry is gone but which have names left. */
  ghost predicate SetAside(nodes: Nodes, inodes: seq<Inode>, deferred: map<nat, seq<Range>>, born: seq<Born>)
    requires LinksAgree(nodes)
  {
    && (forall k :: k in deferred ==> FIRST_INODE <= k <= |inodes| && IsFile(InodeAt(inodes, k).kind))
    && (forall k {:trigger BornAt(born, k)} :: FIRST_INODE <= k <= |inodes| && IsFile(InodeAt(inodes, k).kind) ==>
          Deferred(deferred, k) == if Attached(nodes, BornAt(born, k).origin) then [] else BornAt(born, k).ranges)
  }

  ghost predicate Disjoint(a: Range, b: Range) { a.end <= b.start || b.end <= a.start }

  /** Deleted is exactly what was given to inodes that are out of use, and nothing is deleted twice. */
  ghost predicate DeletedExactly(inodes: seq<Inode>, deleted: seq<Range>, born: seq<Born>) {
    && (forall k, r :: Dead(inodes, k) && Gave(born, k, r) ==> r in deleted)
    && (forall r :: r in deleted ==> exists k :: Dead(inodes, k) && Gave(born, k, r))
    && (forall x, y :: 0 <= x < y < |deleted| ==> Disjoint(deleted[x], deleted[y]))
  }

  ghost predicate Owned(nodes: Nodes, inodes: seq<Inode>, deleted: seq<Range>, deferred: map<nat, seq<Range>>,
                        born: seq<Born>, top: nat)
    requires LinksAgree(nodes)
  {
    && Origins(nodes, inodes, born) && SetAside(nodes, inodes, deferred, born)
    && DeletedExactly(inodes, deleted, born) && Spans(born, top)
  }

  // ----- Consequences -----

  lemma GaveInSpan(born: seq<Born>, top: nat, k: nat, r: Range)
    requires Spans(born, top) && FIRST_INODE <= k <= |born| && Gave(born, k, r)
    ensures BornAt(born, k).lo <= r.start < r.end <= BornAt(born, k).hi <= top
  {
    var b := BornAt(born, k);
    if r in b.ranges { var i :| 0 <= i < |b.ranges| && b.ranges[i] == r; }
  }

  /** Blocks of different inodes never overlap. */
  lemma SpansDisjoint(born: seq<Born>, top: nat, j: nat, k: nat, q: Range, r: Range)
    requires Spans(born, top) && FIRST_INODE <= j <= |born| && FIRST_INODE <= k <= |born| && j != k
    requires Gave(born, j, q) && Gave(born, k, r)
    ensures Disjoint(q, r)
  {
    GaveInSpan(born, top, j, q);
    GaveInSpan(born, top, k, r);
  }

  /** A range of an inode still in use overlaps nothing in the deleted list. */
  lemma LiveNotDeleted(inodes: seq<Inode>, deleted: seq<Range>, born: seq<Born>, top: nat, k: nat, r: Range, d: Range)
    requires |born| == |inodes| && DeletedExactly(inodes, deleted, born) && Spans(born, top)
    requires FIRST_INODE <= k <= |inodes| && !Dead(inodes, k) && Gave(born, k, r) && d in deleted
    ensures Disjoint(r, d)
  {
    var j :| Dead(inodes, j) && Gave(born, j, d);
    SpansDisjoint(born, top, k, j, r, d);
  }

  // ----- Removing a childless node -----

  lemma OriginsAfter(nodes: Nodes, inodes: seq<Inode>, t: Nodes, after: seq<Inode>, born: seq<Born>)
    requires Origins(nodes, inodes, born) && SameStatic(nodes, t) && |after| == |inodes|
    requires forall k :: InodeAt(after, k).kind != Unused ==>
             InodeAt(after, k).kind == InodeAt(inodes, k).kind && InodeAt(after, k).xattr == InodeAt(inodes, k).xattr
    ensures Origins(t, after, born)
  {
  }

  /** The last name goes: what its node held or what was set aside is all the inode was given. */
  lemma {:induction false} LastNameHolds(s: St, i: nat, k: nat)
    requires Inv(s.nodes, s.inodes) && 0 < i < |s.nodes| && Attached(s.nodes, i) && !IsDirNode(s.nodes, s.inodes, i)
    requires Origins(s.nodes, s.inodes, s.born) && SetAside(s.nodes, s.inodes, s.deferred, s.born)
    requires k == Target(s.nodes[i]) && InodeAt(s.inodes, k).links <= 1
    requires Ascending(BornAt(s.born, k).ranges)
    ensures NodeBlocks(s.nodes[i]) + Deferred(s.deferred, k) == BornAt(s.born, k).ranges
    ensures InodeAt(s.inodes, k).xattr == BornAt(s.born, k).xattr
  {
    hide Attached, LinksAgree, Names, KindsSane, FileCounts, DirCounts, RemovedDirs, SiblingsDiffer;
    FileFacts(s.nodes, s.inodes, i);
    var o := BornAt(s.born, k).origin;
    if i == o {
      assert NodeBlocks(s.nodes[i]) == s.nodes[i].ranges;
    } else if Attached(s.nodes, o) {
      NamesHas(s.nodes, o);
      OneName(Names(s.nodes, k), i, o);
    }
  }

  lemma SetAsideDir(s: St, t: Nodes, after: seq<Inode>, i: nat)
    requires LinksAgree(s.nodes) && LinksAgree(t) && LeafGone(s.nodes, t, i) && |after| == |s.inodes|
    requires IsDirNode(s.nodes, s.inodes, i) && Origins(s.nodes, s.inodes, s.born)
    requires forall k :: InodeAt(after, k).kind == InodeAt(s.inodes, k).kind
    requires SetAside(s.nodes, s.inodes, s.deferred, s.born)
    ensures SetAside(t, after, s.deferred, s.born)
  {
  }

  /** What RemoveLeaf does to the block lists when it takes a name of a file. */
  lemma FileLeafLists(s: St, i: nat)
    requires i < |s.nodes| && !IsDirNode(s.nodes, s.inodes, i)
    requires FIRST_INODE <= Target(s.nodes[i]) <= |s.inodes| && InodeAt(s.inodes, Target(s.nodes[i])).links > 0
    ensures var r, k := RemoveLeaf(s, i), Target(s.nodes[i]);
            var ino, blocks := InodeAt(s.inodes, k), NodeBlocks(s.nodes[i]);
            && r.born == s.born && r.store == s.store
            && (ino.links == 1 ==> r.deleted == s.deleted + blocks + Deferred(s.deferred, k) + XattrRange(ino.xattr)
                                   && r.deferred == s.deferred - {k})
            && (ino.links > 1 ==> r.deleted == s.deleted
                                  && r.deferred == if blocks == [] then s.deferred
                                     else s.deferred[k := Deferred(s.deferred, k) + blocks])
  {
    hide RemoveChild;
  }

  /** The nodes that name a file: its original entry, with the ranges, and hard links, with none. */
  lemma NodeOfFile(nodes: Nodes, inodes: seq<Inode>, born: seq<Born>, i: nat)
    requires NodesSane(nodes, inodes) && Origins(nodes, inodes, born) && 0 < i < |nodes|
    requires FIRST_INODE <= Target(nodes[i]) <= |inodes| && Ascending(BornAt(born, Target(nodes[i])).ranges)
    ensures var b := BornAt(born, Target(nodes[i]));
            && (nodes[i].link == None <==> i == b.origin)
            && NodeBlocks(nodes[i]) == if i == b.origin then b.ranges else []
  {
    var b := BornAt(born, Target(nodes[i]));
    assert nodes[b.origin].inode == Target(nodes[i]);
  }

  /** A name goes and others are left: the original entry's ranges are set aside with it. */
  lemma {:induction false} SetAsideMore(s: St, t: Nodes, after: seq<Inode>, deferred: map<nat, seq<Range>>, i: nat,
                                        k: nat)
    requires LinksAgree(s.nodes) && LinksAgree(t) && LeafGone(s.nodes, t, i) && |after| == |s.inodes|
    requires forall x :: InodeAt(after, x).kind == InodeAt(s.inodes, x).kind
    requires Attached(s.nodes, i) && Origins(s.nodes, s.inodes, s.born)
    requires SetAside(s.nodes, s.inodes, s.deferred, s.born)
    requires FIRST_INODE <= k <= |s.inodes| && IsFile(InodeAt(s.inodes, k).kind)
    requires forall x {:trigger BornAt(s.born, x)} :: FIRST_INODE <= x <= |s.inodes| && x != k ==>
             BornAt(s.born, x).origin != i
    requires var b := BornAt(s.born, k);
             deferred == if i == b.origin && b.ranges != [] then s.deferred[k := Deferred(s.deferred, k) + b.ranges]
               else s.deferred
    ensures SetAside(t, after, deferred, s.born)
  {
    hide Attached, LinksAgree, SameStatic;
    assert BornAt(s.born, k) == BornAt(s.born, k);
    forall x {:trigger BornAt(s.born, x)} | FIRST_INODE <= x <= |after| && IsFile(InodeAt(after, x).kind)
      ensures Deferred(deferred, x) == if Attached(t, BornAt(s.born, x).origin) then [] else BornAt(s.born, x).ranges
    {
      if x == k && i == BornAt(s.born, k).origin {
        assert Deferred(s.deferred, k) == [];
      }
    }
  }

  /** The last name goes: nothing stays set aside for the inode. */
  lemma SetAsideLess(s: St, t: Nodes, after: seq<Inode>, i: nat, k: nat)
    requires LinksAgree(s.nodes) && LinksAgree(t) && LeafGone(s.nodes, t, i) && |after| == |s.inodes|
    requires forall x :: x != k ==> InodeAt(after, x).kind == InodeAt(s.inodes, x).kind
    requires InodeAt(after, k).kind == Unused
    requires Origins(s.nodes, s.inodes, s.born) && SetAside(s.nodes, s.inodes, s.deferred, s.born)
    requires forall x {:trigger BornAt(s.born, x)} :: FIRST_INODE <= x <= |s.inodes| && x != k ==>
             BornAt(s.born, x).origin != i
    ensures SetAside(t, after, s.deferred - {k}, s.born)
  {
  }

  lemma OthersElsewhere(nodes: Nodes, inodes: seq<Inode>, born: seq<Born>, i: nat)
    requires NodesSane(nodes, inodes) && Origins(nodes, inodes, born) && i < |nodes|
    ensures forall x {:trigger BornAt(born, x)} :: FIRST_INODE <= x <= |inodes| && x != Target(nodes[i]) ==>
            BornAt(born, x).origin != i
  {
  }

  // ----- The deleted list -----

  /** What one inode was given, in order, is pairwise disjoint. */
  lemma GivenDisjoint(b: Born)
    requires BornSane(b)
    ensures var g := b.ranges + XattrRange(b.xattr);
            forall x, y :: 0 <= x < y < |g| ==> Disjoint(g[x], g[y])
  {
  }

  lemma DeleteGiven(inodes: seq<Inode>, after: seq<Inode>, deleted: seq<Range>, born: seq<Born>, top: nat, k: nat)
    requires |born| == |inodes| == |after| && Spans(born, top) && DeletedExactly(inodes, deleted, born)
    requires FIRST_INODE <= k <= |inodes| && !Dead(inodes, k) && Dead(after, k)
    requires forall x :: x != k ==> InodeAt(after, x).kind == InodeAt(inodes, x).kind
    ensures DeletedExactly(after, deleted + BornAt(born, k).ranges + XattrRange(BornAt(born, k).xattr), born)
  {
    var b := BornAt(born, k);
    var g := b.ranges + XattrRange(b.xattr);
    var all := deleted + g;
    assert all == deleted + b.ranges + XattrRange(b.xattr);
    GivenDisjoint(b);
    forall x, y | 0 <= x < y < |all| ensures Disjoint(all[x], all[y]) {
      if y < |deleted| {
      } else if x >= |deleted| {
        assert Disjoint(g[x - |deleted|], g[y - |deleted|]);
      } else {
        assert Gave(born, k, g[y - |deleted|]);
        LiveNotDeleted(inodes, deleted, born, top, k, g[y - |deleted|], deleted[x]);
      }
    }
    forall r | r in all ensures exists j :: Dead(after, j) && Gave(born, j, r) {
      if r in deleted {
        var j :| Dead(inodes, j) && Gave(born, j, r);
        assert Dead(after, j);
      } else {
        assert Gave(born, k, r);
      }
    }
    forall j, r | Dead(after, j) && Gave(born, j, r) ensures r in all {
      if j != k { assert Dead(inodes, j); }
    }
  }

  /** Removing any attached childless node keeps ownership exact. */
  lemma {:induction false} LeafKeepsOwned(s: St, i: nat, top: nat)
    requires Inv(s.nodes, s.inodes) && 0 < i < |s.nodes| && Attached(s.nodes, i) && s.nodes[i].children == []
    requires Owned(s.nodes, s.inodes, s.deleted, s.deferred, s.born, top)
    ensures var r := RemoveLeaf(s, i);
            && r.store == s.store && r.born == s.born && LinksAgree(r.nodes)
            && Owned(r.nodes, r.inodes, r.deleted, r.deferred, r.born, top)
  {
    hide SiblingsDiffer, DirKids, Names, FileCounts, DirCounts, RemovedDirs, NodesSane, KindsSane, RemoveLeaf, Origins,
         SetAside, DeletedExactly, Spans;
    LeafGoes(s, i);
    if IsDirNode(s.nodes, s.inodes, i) {
      KidsNonEmpty(s.nodes, s.inodes, i);
      DirLeafInodes(s, i);
      DirLeafOwned(s, RemoveLeaf(s, i), i, top);
      LeafFrame(s, i);
    } else {
      FileFacts(s.nodes, s.inodes, i);
      FileLeafInodes(s, i);
      FileLeafLists(s, i);
      FileLeafOwned(s, RemoveLeaf(s, i), i, top);
    }
  }

  lemma LeafFrame(s: St, i: nat)
    requires i < |s.nodes|
    ensures RemoveLeaf(s, i).store == s.store && RemoveLeaf(s, i).born == s.born
  {
  }

  lemma DirLeafOwned(s: St, r: St, i: nat, top: nat)
    requires LinksAgree(s.nodes) && LinksAgree(r.nodes) && LeafGone(s.nodes, r.nodes, i)
    requires Owned(s.nodes, s.inodes, s.deleted, s.deferred, s.born, top)
    requires IsDirNode(s.nodes, s.inodes, i) && DirEffect(s.nodes, s.inodes, r.inodes, i)
    requires r.deleted == s.deleted && r.deferred == s.deferred
    ensures Owned(r.nodes, r.inodes, r.deleted, r.deferred, s.born, top)
  {
    hide Spans, Origins, SetAside;
    OriginsAfter(s.nodes, s.inodes, r.nodes, r.inodes, s.born);
    SetAsideDir(s, r.nodes, r.inodes, i);
    assert forall k :: Dead(r.inodes, k) <==> Dead(s.inodes, k);
  }

  lemma BornRanges(born: seq<Born>, top: nat, k: nat)
    requires Spans(born, top) && FIRST_INODE <= k <= |born|
    ensures Ascending(BornAt(born, k).ranges)
  {
  }

  lemma {:induction false} FileLeafOwned(s: St, r: St, i: nat, top: nat)
    requires Inv(s.nodes, s.inodes) && 0 < i < |s.nodes| && Attached(s.nodes, i) && !IsDirNode(s.nodes, s.inodes, i)
    requires Owned(s.nodes, s.inodes, s.deleted, s.deferred, s.born, top)
    requires LinksAgree(r.nodes) && LeafGone(s.nodes, r.nodes, i) && FileEffect(s.nodes, s.inodes, r.inodes, i)
    requires var k := Target(s.nodes[i]);
             var ino, blocks := InodeAt(s.inodes, k), NodeBlocks(s.nodes[i]);
             && (ino.links == 1 ==> r.deleted == s.deleted + blocks + Deferred(s.deferred, k) + XattrRange(ino.xattr)
                                    && r.deferred == s.deferred - {k})
             && (ino.links > 1 ==> r.deleted == s.deleted
                                   && r.deferred == if blocks == [] then s.deferred
                                      else s.deferred[k := Deferred(s.deferred, k) + blocks])
    ensures Owned(r.nodes, r.inodes, r.deleted, r.deferred, s.born, top)
  {
    hide SiblingsDiffer, DirKids, Names, FileCounts, DirCounts, RemovedDirs, NodesSane, KindsSane, Origins, SetAside,
         DeletedExactly, Spans, Ascending, NodeBlocks;
    var k := Target(s.nodes[i]);
    FileFacts(s.nodes, s.inodes, i);
    OriginsLength(s.nodes, s.inodes, s.born);
    BornRanges(s.born, top, k);
    OriginsAfter(s.nodes, s.inodes, r.nodes, r.inodes, s.born);
    OthersElsewhere(s.nodes, s.inodes, s.born, i);
    if InodeAt(s.inodes, k).links == 1 {
      LastNameHolds(s, i, k);
      Assoc(s.deleted, NodeBlocks(s.nodes[i]), Deferred(s.deferred, k));
      SetAsideLess(s, r.nodes, r.inodes, i, k);
      DeleteGiven(s.inodes, r.inodes, s.deleted, s.born, top, k);
    } else {
      NodeOfFile(s.nodes, s.inodes, s.born, i);
      SetAsideMore(s, r.nodes, r.inodes, r.deferred, i, k);
      SameDead(s.inodes, r.inodes, s.deleted, s.born);
    }
  }

  lemma OriginsLength(nodes: Nodes, inodes: seq<Inode>, born: seq<Born>)
    requires Origins(nodes, inodes, born)
    ensures |born| == |inodes|
  {
  }

  lemma SameDead(inodes: seq<Inode>, after: seq<Inode>, deleted: seq<Range>, born: seq<Born>)
    requires |after| == |inodes| && DeletedExactly(inodes, deleted, born)
    requires forall k :: InodeAt(after, k).kind == InodeAt(inodes, k).kind
    ensures DeletedExactly(after, deleted, born)
  {
    assert forall k :: Dead(after, k) <==> Dead(inodes, k);
  }
}
