/** The bitmaps of the finished image against the inodes: every block that a live inode leads to is marked, and what a
    cleared inode was given is not. */
module Marking {
  import opened Bytes
  import opened Geometry
  import opened Payload
  import opened Placement
  import opened Allocation
  import opened Extents
  import opened Contents
  import opened FileTree
  import opened Fs
  import opened Namespace
  import opened Ownership
  import opened Pruning
  import opened Creating
  import opened Keeping
  import opened Running
  import opened Committing
  import opened Visiting
  import opened Records
  import opened Closing
  import opened Sealing
  import opened Walking
  import opened Imaging

  ghost predicate FieldLeads(e: Disk, field: seq<byte>, b: nat)
    requires |field| == INODE_BLOCK_SIZE
  {
    PointsAt(field, b) || (ParseExtents(e, field).Ranges? && InRanges(ParseExtents(e, field).ranges, b))
  }

  /** Block `b` is payload, a leaf block or the xattr block of inode `k`, as the image says. */
  ghost predicate LeadsTo(e: Disk, k: nat, b: nat) {
    var ino := ReadInode(e, k);
    || ((ino.kind == Directory || HasTree(ino)) && FieldLeads(e, ino.field, b))
    || (k >= FIRST_INODE && ino.xattr == b > 0)
  }

  /** Block `b` was given to inode `k` as payload or xattr block. */
  ghost predicate WasGiven(born: seq<Born>, k: nat, b: nat) {
    exists r :: Gave(born, k, r) && r.start <= b < r.end
  }

  /** In the span of an inode exactly the blocks it was given are deleted, and only once it is cleared. */
  lemma SpanDeleted(s: St, k: nat, b: nat)
    requires Sound(s) && FIRST_INODE <= k <= |s.inodes| && BornAt(s.born, k).lo <= b < BornAt(s.born, k).hi
    ensures InRanges(s.deleted, b) <==> Dead(s.inodes, k) && WasGiven(s.born, k, b)
  {
    hide SetAside, Inv, BornSane, Origins;
    BornLength(s);
    if InRanges(s.deleted, b) {
      var i :| 0 <= i < |s.deleted| && s.deleted[i].start <= b < s.deleted[i].end;
      var r := s.deleted[i];
      assert r in s.deleted;
      var j :| Dead(s.inodes, j) && Gave(s.born, j, r);
      GaveInSpan(s.born, Top(s.store), j, r);
    }
    if Dead(s.inodes, k) && WasGiven(s.born, k, b) {
      var r :| Gave(s.born, k, r) && r.start <= b < r.end;
      assert r in s.deleted;
      var i :| 0 <= i < |s.deleted| && s.deleted[i] == r;
    }
  }

  /** Nothing behind the last file is deleted. */
  lemma DeletedBelow(s: St, b: nat)
    requires Sound(s) && InRanges(s.deleted, b)
    ensures b < Top(s.store)
  {
    hide SetAside, Inv, BornSane, Origins;
    BornLength(s);
    var i :| 0 <= i < |s.deleted| && s.deleted[i].start <= b < s.deleted[i].end;
    assert s.deleted[i] in s.deleted;
    var j :| Dead(s.inodes, j) && Gave(s.born, j, s.deleted[i]);
    GaveInSpan(s.born, Top(s.store), j, s.deleted[i]);
  }

  /** Below the cursor the bitmaps of the finished image mark what is not deleted. */
  lemma {:induction false} MarkedBelow(s: St, order: seq<nat>, fill: Fill, b: nat)
    requires Sound(s) && Listable(s.nodes) && VisitsAll(s.nodes, order)
    requires var r := CommitAll(s, order).state; Closable(r) && TablesClear(SealLayout(r)) && b < Top(r.store)
    ensures Finished(s, order, fill).Closed?
    ensures (BlockMarked(Finished(s, order, fill).disk, b) <==> !InRanges(s.deleted, b))
  {
    hide Sound, CommitAll, Listable, Attached, LinksAgree, Close, Closable, TablesClear, BlockMarked, LayoutOf,
         SameTree, InRanges, Reserved;
    var r := CommitAll(s, order).state;
    CommitAllSame(s, order);
    SameDeleted(s, r);
    InData(r, fill, b);
    BlocksMarked(r, fill, b);
  }

  lemma SameDeleted(s: St, r: St)
    requires SameTree(s, r)
    ensures r.deleted == s.deleted
  {
  }

  lemma InData(s: St, fill: Fill, b: nat)
    requires Closable(s) && b < Top(s.store)
    ensures var lay := SealLayout(s); b < lay.dataEnd && b / GROUP < lay.groups <= lay.total
    ensures Close(s, fill).Closed? && Close(s, fill).image.dataSize == SealLayout(s).dataEnd
    ensures Close(s, fill).image.groups == SealLayout(s).groups
  {
    hide LayoutOf, Area, AreaFor, ReservedEnd, TableBlocks, Reserved, Apply, Writes, Prepared, ResizeInode, SealLayout,
         Closable, Fitting, DataEnd;
    SealFits(s, fill);
    SealFacts(s, fill);
    ClosesAnyway(s, fill);
    LayoutAround(s, b);
  }

  lemma LayoutAround(s: St, b: nat)
    requires b < Top(s.store)
    ensures var lay := SealLayout(s); b < lay.dataEnd && b / GROUP < lay.groups <= lay.total
  {
    hide LayoutOf, Area, ReservedEnd, TableBlocks, DataEnd, Reserved, Prepared;
    PreparedIs(s);
    LayoutSane(Prepared(s).store, |s.inodes|);
    DataBehind(SealLayout(s).table, SealLayout(s).groups, SealLayout(s).perGroup);
    DivBelow(b, SealLayout(s).groups, GROUP);
  }

  /** Of all blocks of an inode's span, payload, xattr and leaf blocks and what was skipped, the finished image marks
      all as long as the inode is in use, and all but the ones given to it once it is cleared. */
  lemma {:induction false} SpanMarked(s: St, order: seq<nat>, fill: Fill, k: nat, b: nat)
    requires Sound(s) && Listable(s.nodes) && VisitsAll(s.nodes, order) && FIRST_INODE <= k <= |s.inodes|
    requires BornAt(s.born, k).lo <= b < BornAt(s.born, k).hi
    requires var r := CommitAll(s, order).state; Closable(r) && TablesClear(SealLayout(r))
    ensures Finished(s, order, fill).Closed?
    ensures BlockMarked(Finished(s, order, fill).disk, b) <==> !(Dead(s.inodes, k) && WasGiven(s.born, k, b))
  {
    hide Sound, CommitAll, Listable, Attached, LinksAgree, Close, Closable, TablesClear, BlockMarked, SealLayout, Dead,
         WasGiven, InRanges, Past;
    CommitPast(s, order);
    InSpan(s, CommitAll(s, order).state.store, k);
    MarkedBelow(s, order, fill, b);
    SpanDeleted(s, k, b);
  }

  lemma PlacedLeads(e: Disk, field: seq<byte>, lo: nat, hi: nat, b: nat)
    requires Placed(e, field, lo, hi) && FieldLeads(e, field, b)
    ensures lo <= b < hi
  {
    hide PointsAt, ParseExtents;
  }

  /** Where the closed image's inode leads is where it led before. */
  lemma PlacedClosed(d: Disk, e: Disk, field: seq<byte>, lo: nat, hi: nat, top: nat, area: nat)
    requires Placed(d, field, lo, hi) && hi <= top && SameOff(d, e, top, area) && IndexFree(field, area)
    ensures Placed(e, field, lo, hi)
  {
    hide PointsAt, ParseExtents, BlockAt, Reserved;
    PlacedOn(d, e, field, lo, hi);
  }

  lemma FilePlaced(st: Store, ino: Inode, b: Born, area: nat)
    requires Holds(st, ino, b, area) && HasTree(ino)
    ensures Placed(st.disk, ino.field, b.lo, b.hi)
  {
    hide KeepsFile, SturdyIff, Placed, Avoids, Reserved;
  }

  lemma DirPlaced(s: St, r: St, i: nat, area: nat)
    requires i < |s.nodes| && Listable(s.nodes) && DirHeld(s, r, i, area) && IsCommitted(s.nodes, s.inodes, i)
    ensures Placed(r.store.disk, InodeAt(r.inodes, s.nodes[i].inode).field, Top(s.store), Top(r.store))
  {
    hide DirImage, KeepsFile, SturdyIff, Listable, Placed;
  }

  /** Blocks that a reachable directory's inode leads to. */
  lemma {:induction false} DirLeads(s: St, order: seq<nat>, area: nat, fill: Fill, e: Disk, i: nat, b: nat)
    requires Good(s, area) && area < GROUP - 1 && VisitsAll(s.nodes, order) && Listable(s.nodes)
    requires ClosesWell(s, order, area)
    requires Finished(s, order, fill).Closed? && Finished(s, order, fill).disk == e
    requires i < |s.nodes| && Attached(s.nodes, i) && IsDirNode(s.nodes, s.inodes, i)
    requires FieldLeads(e, ReadInode(e, s.nodes[i].inode).field, b)
    ensures Top(s.store) <= b < Top(CommitAll(s, order).state.store)
  {
    hide Owned, Kept, FileCounts, DirCounts, RemovedDirs, KindsSane, CommitAll, Listable, Attached, LinksAgree, Past,
         OtherInodes, Area, DirHeld, SameTree, DirImage, Close, Closable, InodesClear, SealLayout, AreaFor, ReadInode,
         FieldLeads, IndexFree, Placed, SameOff, FilesFree;
    var r := CommitAll(s, order).state;
    InvWellFormed(s);
    ClosableFits(r);
    ClosingIsSafe(r, fill, area);
    TableIsOn(s, order, area, fill);
    ReadThere(s, e, r.inodes, i);
    CommitPast(s, order);
    KeptArea(s, area, r.store);
    CommitAllHolds(s, order, area);
    TreeFacts(s, i);
    var x :| 0 <= x < |order| && order[x] == i;
    DirPlaced(s, r, i, area);
    PlacedClosed(r.store.disk, e, InodeAt(r.inodes, s.nodes[i].inode).field, Top(s.store), Top(r.store), Top(r.store),
                 area);
    PlacedLeads(e, InodeAt(r.inodes, s.nodes[i].inode).field, Top(s.store), Top(r.store), b);
  }

  /** Blocks that a reachable file's inode leads to. */
  lemma {:induction false} FileLeads(s: St, order: seq<nat>, area: nat, fill: Fill, e: Disk, i: nat, b: nat)
    requires Good(s, area) && area < GROUP - 1 && VisitsAll(s.nodes, order) && Listable(s.nodes)
    requires ClosesWell(s, order, area)
    requires Finished(s, order, fill).Closed? && Finished(s, order, fill).disk == e
    requires i < |s.nodes| && Attached(s.nodes, i) && !IsDirNode(s.nodes, s.inodes, i)
    requires var ino := ReadInode(e, Target(s.nodes[i])); HasTree(ino) && FieldLeads(e, ino.field, b)
    ensures var k := Target(s.nodes[i]);
            FIRST_INODE <= k <= |s.inodes| && !Dead(s.inodes, k) && BornAt(s.born, k).lo <= b < BornAt(s.born, k).hi
  {
    hide Owned, Kept, FileCounts, DirCounts, RemovedDirs, CommitAll, Listable, Attached, LinksAgree, Past, OtherInodes,
         Area, DirHeld, SameTree, DirImage, Close, Closable, InodesClear, SealLayout, AreaFor, ReadInode, FieldLeads,
         IndexFree, Placed, SameOff, DirsFree, Holds;
    var r, k := CommitAll(s, order).state, Target(s.nodes[i]);
    InvWellFormed(s);
    ClosableFits(r);
    ClosingIsSafe(r, fill, area);
    TableIsOn(s, order, area, fill);
    ReadThere(s, e, r.inodes, i);
    TreeFacts(s, i);
    FilesSurvive(s, order, k, area);
    CommitPast(s, order);
    InSpan(s, r.store, k);
    CommitAllSame(s, order);
    CommitCounts(s, r);
    var ino, born := InodeAt(r.inodes, k), BornAt(s.born, k);
    FilePlaced(r.store, ino, born, area);
    PlacedClosed(r.store.disk, e, ino.field, born.lo, born.hi, Top(r.store), area);
    PlacedLeads(e, ino.field, born.lo, born.hi, b);
  }

  /** The xattr block of a reachable inode. */
  lemma {:induction false} XattrLeads(s: St, order: seq<nat>, area: nat, fill: Fill, e: Disk, i: nat, b: nat)
    requires Good(s, area) && area < GROUP - 1 && VisitsAll(s.nodes, order) && Listable(s.nodes)
    requires ClosesWell(s, order, area)
    requires Finished(s, order, fill).Closed? && Finished(s, order, fill).disk == e
    requires i < |s.nodes| && Attached(s.nodes, i) && Target(s.nodes[i]) >= FIRST_INODE
    requires ReadInode(e, Target(s.nodes[i])).xattr == b > 0
    ensures var k := Target(s.nodes[i]);
            FIRST_INODE <= k <= |s.inodes| && !Dead(s.inodes, k) && BornAt(s.born, k).lo <= b < BornAt(s.born, k).hi
  {
    hide Kept, FileCounts, DirCounts, RemovedDirs, CommitAll, Listable, Attached, LinksAgree, Past, OtherInodes, Area,
         DirHeld, SameTree, DirImage, Close, Closable, InodesClear, SealLayout, AreaFor, ReadInode, IndexFree, Placed,
         SameOff, AllFree, Holds, SetAside, DeletedExactly;
    var r, k := CommitAll(s, order).state, Target(s.nodes[i]);
    InvWellFormed(s);
    ClosableFits(r);
    TableIsOn(s, order, area, fill);
    ReadThere(s, e, r.inodes, i);
    TreeFacts(s, i);
    Recorded(s, order, i, area);
    CommitAllSame(s, order);
    CommitPast(s, order);
    InSpan(s, r.store, k);
    SameXattr(s, r, k);
    XattrNumber(s, r.store, k);
  }

  lemma SameXattr(s: St, r: St, k: nat)
    requires SameTree(s, r)
    ensures InodeAt(r.inodes, k).xattr == InodeAt(s.inodes, k).xattr
    ensures InodeAt(r.inodes, k).kind == InodeAt(s.inodes, k).kind
  {
    var x := InodeAt(r.inodes, k);
  }

  lemma XattrNumber(s: St, r: Store, k: nat)
    requires Sound(s) && FIRST_INODE <= k <= |s.inodes| && InodeAt(s.inodes, k).kind != Unused && Fits(r)
    requires BornAt(s.born, k).hi <= Top(r)
    ensures var x := InodeAt(s.inodes, k).xattr;
            x < 0x1_0000_0000 && (x > 0 ==> BornAt(s.born, k).lo <= x < BornAt(s.born, k).hi)
  {
    hide SetAside, DeletedExactly, Inv;
    BornLength(s);
    assert BornSane(BornAt(s.born, k));
  }

  /** Every block that a reachable inode of the finished image leads to is marked in its bitmaps. */
  lemma {:induction false} LiveMarked(s: St, order: seq<nat>, area: nat, fill: Fill, e: Disk, i: nat, b: nat)
    requires Good(s, area) && area < GROUP - 1 && VisitsAll(s.nodes, order) && Listable(s.nodes)
    requires ClosesWell(s, order, area)
    requires Finished(s, order, fill).Closed? && Finished(s, order, fill).disk == e
    requires TablesClear(SealLayout(CommitAll(s, order).state))
    requires i < |s.nodes| && Attached(s.nodes, i) && LeadsTo(e, Target(s.nodes[i]), b)
    ensures BlockMarked(e, b)
  {
    hide Sound, Kept, CommitAll, Listable, Attached, LinksAgree, Close, Closable, TablesClear, InodesClear, BlockMarked,
         SealLayout, Dead, WasGiven, InRanges, Past, ReadInode, FieldLeads, AllFree, Area, AreaFor, InodeAt;
    var k := Target(s.nodes[i]);
    if k >= FIRST_INODE && ReadInode(e, k).xattr == b > 0 {
      XattrLeads(s, order, area, fill, e, i, b);
      SpanMarked(s, order, fill, k, b);
    } else if IsDirNode(s.nodes, s.inodes, i) {
      DirLeads(s, order, area, fill, e, i, b);
      if InRanges(s.deleted, b) { DeletedBelow(s, b); }
      MarkedBelow(s, order, fill, b);
    } else {
      NotADirectory(s, order, area, fill, e, i);
      FileLeads(s, order, area, fill, e, i, b);
      SpanMarked(s, order, fill, k, b);
    }
  }

  lemma {:induction false} NotADirectory(s: St, order: seq<nat>, area: nat, fill: Fill, e: Disk, i: nat)
    requires Good(s, area) && VisitsAll(s.nodes, order) && Listable(s.nodes) && ClosesWell(s, order, area)
    requires Finished(s, order, fill).Closed? && Finished(s, order, fill).disk == e
    requires i < |s.nodes| && Attached(s.nodes, i) && !IsDirNode(s.nodes, s.inodes, i)
    ensures ReadInode(e, Target(s.nodes[i])).kind != Directory
  {
    hide Owned, Kept, FileCounts, DirCounts, RemovedDirs, KindsSane, CommitAll, Listable, Attached, LinksAgree, Close,
         Closable, InodesClear, SealLayout, ReadInode, AllFree, Area, AreaFor, SameTree, InodeAt;
    var r := CommitAll(s, order).state;
    TableIsOn(s, order, area, fill);
    InvWellFormed(s);
    ReadThere(s, e, r.inodes, i);
    CommitAllSame(s, order);
    SameXattr(s, r, Target(s.nodes[i]));
    TreeFacts(s, i);
  }
}
