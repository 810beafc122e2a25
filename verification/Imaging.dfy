/** From a new image through any run of operations to the directories on the image: what is read back
    is what was put in. */
module Imaging {
  import opened Bytes
  import opened Geometry
  import opened Payload
  import opened Placement
  import opened Extents
  import opened Contents
  import opened FileTree
  import opened Fs
  import opened Namespace
  import opened Ownership
  import opened Pruning
  import opened Creating
  import opened Keeping
  import opened Running
  import opened Committing
  import opened Visiting
  import opened Records
  import opened Sealing
  import opened Walking

  lemma GoodListable(s: St, area: nat)
    requires Good(s, area) && |s.inodes| < 0x1_0000_0000
    ensures Listable(s.nodes)
  {
    hide Owned, Kept, FileCounts, DirCounts, RemovedDirs, KindsSane, Attached;
  }

  /** What the reader finds at a path of the finished image. */
  datatype Found = Nothing | ADirectory | AFile(content: seq<byte>) | ASymlink(target: seq<byte>)

  /** What the formatter was told to put at a path. */
  ghost function Put(s: St, path: Path): Found
    requires |s.nodes| > 0
  {
    match Lookup(s.nodes, path)
    case None => Nothing
    case Some(i) =>
      var k := Target(s.nodes[i]);
      match InodeAt(s.inodes, k).kind
      case Regular => AFile(BornAt(s.born, k).content)
      case Symlink => ASymlink(BornAt(s.born, k).content)
      case _ => ADirectory
  }

  /** The image has it: the directories lead to an inode of that kind, and that inode to the content. */
  ghost predicate Has(d: Disk, path: Path, found: Found) {
    var k := Walk(d, ROOT_INODE, path);
    match found
    case Nothing => k == None
    case ADirectory => k.Some? && ReadInode(d, k.value).kind == Directory
    case AFile(content) =>
      && k.Some? && ReadInode(d, k.value).kind == Regular
      && ReadInode(d, k.value).size == |content| && HoldsFile(d, ReadInode(d, k.value).field, content)
    case ASymlink(target) =>
      && k.Some? && ReadInode(d, k.value).kind == Symlink && ReadInode(d, k.value).size == |target|
      && if |target| < 60 then target <= ReadInode(d, k.value).field
         else HoldsFile(d, ReadInode(d, k.value).field, target)
  }

  /** The leaf blocks of all files and long symlinks lie outside the reserved areas. */
  ghost predicate FilesFree(inodes: seq<Inode>, area: nat) {
    forall k {:trigger InodeAt(inodes, k)} :: FIRST_INODE <= k <= |inodes| && HasTree(InodeAt(inodes, k)) ==>
      IndexFree(InodeAt(inodes, k).field, area)
  }

  /** The content is in blocks, not in the inode. */
  predicate HasTree(ino: Inode) { ino.kind == Regular || (ino.kind == Symlink && ino.size >= 60) }

  /** A content that is in blocks is on the closed image if and only if none of its leaf blocks is reserved. */
  lemma {:induction false} HeldIff(r: St, fill: Fill, ino: Inode, b: Born, area: nat)
    requires Closable(r) && AreaFor(SealLayout(r).descriptors) <= area < GROUP - 1
    requires Holds(r.store, ino, b, area) && b.hi <= Top(r.store) && HasTree(ino)
    ensures Close(r, fill).Closed?
    ensures (HoldsFile(Close(r, fill).disk, ino.field, b.content) <==> IndexFree(ino.field, area))
  {
    hide HoldsFile, Reserved, Sturdy, Placed, SameOff, KeepsFile, PointsAt, GroupStarts, Close, Closable, SealLayout,
         AreaFor;
    ClosingIsSafe(r, fill, area);
    if IndexFree(ino.field, area) {
      SturdyThere(r.store.disk, ino.field, b.content, b.hi, Top(r.store), area, Close(r, fill).disk);
    } else {
      var x: nat :| PointsAt(ino.field, x) && Reserved(x, area);
      PointerBelow(r.store.disk, ino.field, b.lo, b.hi, x);
      LeafOverwritten(r, fill, ino.field, area, x);
      NotHeld(Close(r, fill).disk, ino.field, b.content);
    }
  }

  lemma PointerBelow(d: Disk, field: seq<byte>, lo: nat, hi: nat, x: nat)
    requires Placed(d, field, lo, hi) && PointsAt(field, x)
    ensures lo <= x < hi
  {
    hide PointsAt, ParseExtents;
  }

  lemma NotHeld(e: Disk, field: seq<byte>, content: seq<byte>)
    requires |field| == 60 && !ParseExtents(e, field).Ranges?
    ensures !HoldsFile(e, field, content)
  {
    hide ParseExtents, Flat;
  }

  lemma SturdyThere(d: Disk, field: seq<byte>, content: seq<byte>, hi: nat, top: nat, area: nat, e: Disk)
    requires Sturdy(d, field, content, hi, area) && hi <= top && SameOff(d, e, top, area)
    ensures HoldsFile(e, field, content)
  {
    hide HoldsFile, Reserved;
    assert SameOff(d, e, hi, area);
  }

  ghost predicate AllFree(s: St, inodes: seq<Inode>, area: nat) { DirsFree(s, inodes, area) && FilesFree(inodes, area) }

  /** Closing goes through and leaves the inodes where they are: the directories fit, closing is not refused and stays
      below 2^32 blocks, the reserved area is no larger than at the start, and no superblock copy falls on a block with
      inodes. */
  ghost predicate Closes(s: St, order: seq<nat>, area: nat)
    requires Listable(s.nodes) && forall x :: 0 <= x < |order| ==> order[x] < |s.nodes|
  {
    var r := CommitAll(s, order);
    && r.error == None && Closable(r.state) && AreaFor(SealLayout(r.state).descriptors) <= area
    && InodesClear(SealLayout(r.state), |r.state.inodes|)
  }

  /** ... and no leaf block of a directory falls into a reserved area. */
  ghost predicate Legible(s: St, order: seq<nat>, area: nat)
    requires Listable(s.nodes) && forall x :: 0 <= x < |order| ==> order[x] < |s.nodes|
  {
    Closes(s, order, area) && DirsFree(s, CommitAll(s, order).state.inodes, area)
  }

  /** ... nor one of a file. */
  ghost predicate ClosesWell(s: St, order: seq<nat>, area: nat)
    requires Listable(s.nodes) && forall x :: 0 <= x < |order| ==> order[x] < |s.nodes|
  {
    Closes(s, order, area) && AllFree(s, CommitAll(s, order).state.inodes, area)
  }

  /** The finished image: directories, then everything that closing writes. */
  ghost function Finished(s: St, order: seq<nat>, fill: Fill): Closed
    requires Listable(s.nodes) && forall x :: 0 <= x < |order| ==> order[x] < |s.nodes|
  {
    Close(CommitAll(s, order).state, fill)
  }

  /** The inode that a node leads to has a record that fits. */
  lemma {:induction false} Recorded(s: St, order: seq<nat>, i: nat, area: nat)
    requires Good(s, area) && VisitsAll(s.nodes, order) && Listable(s.nodes) && i < |s.nodes| && Attached(s.nodes, i)
    requires CommitAll(s, order).error == None && Fits(CommitAll(s, order).state.store)
    ensures var k := Target(s.nodes[i]);
            1 <= k <= |s.inodes| && k != RESIZE_INODE && Encodable(InodeAt(CommitAll(s, order).state.inodes, k))
  {
    hide Owned, Kept, FileCounts, DirCounts, RemovedDirs, CommitAll, Listable, Attached, LinksAgree, Past, OtherInodes,
         Area, DirHeld, Holds, SameTree, DirImage;
    var r, k := CommitAll(s, order).state, Target(s.nodes[i]);
    InvWellFormed(s);
    CommitPast(s, order);
    KeptArea(s, area, r.store);
    CommitAllHolds(s, order, area);
    TreeFacts(s, i);
    if IsDirNode(s.nodes, s.inodes, i) {
      var x :| 0 <= x < |order| && order[x] == i;
      DirRecord(s, r, i, area);
    } else {
      FilesSurvive(s, order, k, area);
      FileRecord(r.store, InodeAt(r.inodes, k), BornAt(s.born, k), area);
    }
  }

  lemma DirRecord(s: St, r: St, i: nat, area: nat)
    requires i < |s.nodes| && Listable(s.nodes) && DirHeld(s, r, i, area) && IsCommitted(s.nodes, s.inodes, i)
    ensures Encodable(InodeAt(r.inodes, s.nodes[i].inode))
  {
    hide DirImage, KeepsFile, SturdyIff, Listable;
  }

  lemma FileRecord(st: Store, ino: Inode, b: Born, area: nat)
    requires Holds(st, ino, b, area)
    ensures Encodable(ino)
  {
    hide KeepsFile, SturdyIff, Placed, Reserved;
  }

  /** The finished image has the inodes of all nodes that can be reached. */
  lemma {:induction false} TableIsOn(s: St, order: seq<nat>, area: nat, fill: Fill)
    requires Good(s, area) && VisitsAll(s.nodes, order) && Listable(s.nodes) && Closes(s, order, area)
    ensures Finished(s, order, fill).Closed?
    ensures TableOn(s, Finished(s, order, fill).disk, CommitAll(s, order).state.inodes)
  {
    hide Sound, Kept, CommitAll, Listable, Attached, LinksAgree, Closable, InodesClear, ReadInode, SealLayout, AreaFor,
         Area, Close, SealPlan, Prepared, Encodable, SameTree;
    var r := CommitAll(s, order).state;
    ClosableFits(r);
    CommitAllSame(s, order);
    CommitCounts(s, r);
    ClosesAnyway(r, fill);
    forall i {:trigger s.nodes[i]} | 0 <= i < |s.nodes| && LinksAgree(s.nodes) && Attached(s.nodes, i)
      ensures ReadInode(Close(r, fill).disk, Target(s.nodes[i])) == Low(InodeAt(r.inodes, Target(s.nodes[i])))
    {
      Recorded(s, order, i, area);
      ClosedReads(r, fill, Target(s.nodes[i]));
    }
  }

  lemma CommitCounts(s: St, r: St)
    requires SameTree(s, r)
    ensures |r.inodes| == |s.inodes|
  {
  }

  lemma ClosesAnyway(r: St, fill: Fill)
    requires Closable(r)
    ensures Close(r, fill).Closed?
  {
    hide SealLayout, Prepared, SealPlan, Apply, Writes, Area, AreaFor, Representable;
    ClosedIff(r, fill);
  }

  /** The closed image as a tree: its blocks outside the reserved areas, its inodes, and where its paths lead. */
  lemma {:induction false} LegibleImage(s: St, order: seq<nat>, path: Path, area: nat, fill: Fill)
    requires Good(s, area) && VisitsAll(s.nodes, order) && NoDots(path) && Listable(s.nodes) && area < GROUP - 1
    requires Legible(s, order, area)
    ensures Finished(s, order, fill).Closed?
    ensures var r, e := CommitAll(s, order).state, Finished(s, order, fill).disk;
            && SameOff(r.store.disk, e, Top(r.store), area) && TableOn(s, e, r.inodes)
            && Walk(e, ROOT_INODE, path) == TargetOf(s.nodes, Lookup(s.nodes, path))
  {
    hide Sound, Kept, CommitAll, Listable, Lookup, Walk, Attached, LinksAgree, DirsFree, SameOff, Past, Area, Closable,
         InodesClear, SealLayout, Close, AreaFor, TableOn;
    var r := CommitAll(s, order).state;
    ClosableFits(r);
    ClosingIsSafe(r, fill, area);
    TableIsOn(s, order, area, fill);
    CommitPast(s, order);
    KeptArea(s, area, r.store);
    ImageIsTheTree(s, order, path, area, Close(r, fill).disk);
  }

  /** No leaf block of what the path leads to is reserved. */
  ghost predicate PathFree(s: St, inodes: seq<Inode>, path: Path, area: nat)
    requires |s.nodes| > 0
  {
    match Lookup(s.nodes, path)
    case None => true
    case Some(i) =>
      var ino := InodeAt(inodes, Target(s.nodes[i]));
      HasTree(ino) ==> IndexFree(ino.field, area)
  }

  /** A path of the closed image holds what the formatter was told to put there if and only if no leaf block of it is
      reserved. */
  lemma {:induction false} PathHeldIff(s: St, order: seq<nat>, path: Path, area: nat, fill: Fill)
    requires Good(s, area) && VisitsAll(s.nodes, order) && NoDots(path) && Listable(s.nodes) && area < GROUP - 1
    requires Legible(s, order, area)
    ensures Finished(s, order, fill).Closed?
    ensures Has(Finished(s, order, fill).disk, path, Put(s, path))
            <==> PathFree(s, CommitAll(s, order).state.inodes, path, area)
  {
    hide Sound, Kept, CommitAll, Listable, Lookup, Walk, Holds, HoldsFile, SameTree, Attached, LinksAgree, DirsFree,
         SameOff, IndexFree, Past, Area, Closable, InodesClear, SealLayout, ReadInode, Close, AreaFor;
    var r := CommitAll(s, order).state;
    LegibleImage(s, order, path, area, fill);
    var e := Close(r, fill).disk;
    CommitAllSame(s, order);
    match Lookup(s.nodes, path) {
      case None =>
      case Some(i) =>
        var k := Target(s.nodes[i]);
        Reachable(s, r, path, i);
        ReadThere(s, e, r.inodes, i);
        if IsFile(InodeAt(s.inodes, k).kind) { FileHeldIff(s, order, k, area, fill); }
    }
  }

  lemma {:induction false} FileHeldIff(s: St, order: seq<nat>, k: nat, area: nat, fill: Fill)
    requires Good(s, area) && VisitsAll(s.nodes, order) && Listable(s.nodes) && area < GROUP - 1
    requires Closes(s, order, area)
    requires FIRST_INODE <= k <= |s.inodes| && IsFile(InodeAt(s.inodes, k).kind)
    ensures Finished(s, order, fill).Closed?
    ensures var ino, b := InodeAt(CommitAll(s, order).state.inodes, k), BornAt(s.born, k);
            && ino.size == |b.content| && ino.kind == b.kind == InodeAt(s.inodes, k).kind
            && if HasTree(ino) then HoldsFile(Finished(s, order, fill).disk, ino.field, b.content)
               <==> IndexFree(ino.field, area)
               else b.content <= ino.field
  {
    hide Sound, Kept, CommitAll, Listable, HoldsFile, Attached, LinksAgree, IndexFree, Past, Area, Closable,
         InodesClear, SealLayout, Close, AreaFor, KeepsFile, SturdyIff, Placed, Reserved;
    var r := CommitAll(s, order).state;
    ClosableFits(r);
    ClosesAnyway(r, fill);
    FilesSurvive(s, order, k, area);
    CommitPast(s, order);
    InSpan(s, r.store, k);
    var ino, b := InodeAt(r.inodes, k), BornAt(s.born, k);
    if HasTree(ino) { HeldIff(r, fill, ino, b, area); }
  }

  /** Every path of the finished image holds exactly what the formatter was told to put there. */
  lemma {:induction false} ImageHasAll(s: St, order: seq<nat>, path: Path, area: nat, fill: Fill)
    requires Good(s, area) && VisitsAll(s.nodes, order) && NoDots(path) && Listable(s.nodes) && area < GROUP - 1
    requires ClosesWell(s, order, area)
    ensures Finished(s, order, fill).Closed? && Has(Finished(s, order, fill).disk, path, Put(s, path))
  {
    hide Sound, Kept, CommitAll, Listable, Lookup, SameTree, Attached, LinksAgree, DirsFree, IndexFree, Closes,
         Finished, Has, Put;
    PathHeldIff(s, order, path, area, fill);
    CommitAllSame(s, order);
    if Lookup(s.nodes, path).Some? { Reachable(s, CommitAll(s, order).state, path, Lookup(s.nodes, path).value); }
    AllPathsFree(s, CommitAll(s, order).state, path, area);
  }

  lemma AllPathsFree(s: St, r: St, path: Path, area: nat)
    requires |s.nodes| > 0 && SameTree(s, r) && FilesFree(r.inodes, area)
    requires match Lookup(s.nodes, path) {
               case None => true
               case Some(i) => var k := Target(s.nodes[i]);
                 1 <= k <= |s.inodes| && (IsFile(InodeAt(s.inodes, k).kind) ==> k >= FIRST_INODE)
             }
    ensures PathFree(s, r.inodes, path, area)
  {
    hide Lookup, IndexFree, InodeAt;
    if Lookup(s.nodes, path).Some? { SameKind(s, r, Target(s.nodes[Lookup(s.nodes, path).value])); }
  }

  lemma {:induction false} ReadThere(s: St, e: Disk, inodes: seq<Inode>, i: nat)
    requires TableOn(s, e, inodes) && i < |s.nodes| && LinksAgree(s.nodes) && Attached(s.nodes, i)
    ensures ReadInode(e, Target(s.nodes[i])) == Low(InodeAt(inodes, Target(s.nodes[i])))
  {
    hide ReadInode, LinksAgree, Attached;
  }

  lemma {:induction false} CommitPast(s: St, order: seq<nat>)
    requires Sound(s) && Listable(s.nodes) && VisitsAll(s.nodes, order)
    ensures Past(s.store, CommitAll(s, order).state.store)
  {
    hide Owned, FileCounts, DirCounts, RemovedDirs, KindsSane, CommitAll, Listable, Attached, LinksAgree, Past,
         OtherInodes, AllHeld, Area;
    CommitAllHolds(s, order, 0);
  }

  lemma KeptArea(s: St, area: nat, r: Store)
    requires Kept(s, area) && Past(s.store, r) && Fits(r)
    ensures area <= Area(s.store.size)
  {
    hide Area, Past, Holds;
    PastFits(s.store, r);
  }

  lemma InSpan(s: St, r: Store, k: nat)
    requires Sound(s) && FIRST_INODE <= k <= |s.inodes| && Past(s.store, r)
    ensures BornAt(s.born, k).hi <= Top(r)
  {
    hide Sound;
    BornLength(s);
    PastTop(s.store, r);
  }

  lemma {:induction false} Reachable(s: St, r: St, path: Path, i: nat)
    requires Sound(s) && |s.nodes| > 0 && Lookup(s.nodes, path) == Some(i) && SameTree(s, r)
    ensures var k := Target(s.nodes[i]);
            && LinksAgree(s.nodes) && Attached(s.nodes, i)
            && 1 <= k <= |s.inodes| && InodeAt(s.inodes, k).kind != Unused
            && InodeAt(r.inodes, k).kind == InodeAt(s.inodes, k).kind
            && (IsFile(InodeAt(s.inodes, k).kind) ==> k >= FIRST_INODE)
  {
    hide Owned, FileCounts, DirCounts, RemovedDirs, Lookup, Attached, LinksAgree;
    InvWellFormed(s);
    FoundIsAttached(s.nodes, path);
    var k := Target(s.nodes[i]);
    assert InodeAt(r.inodes, k).kind == InodeAt(s.inodes, k).kind;
  }

  lemma DirFree(s: St, r: St, i: nat, area: nat)
    requires i < |s.nodes| && Listable(s.nodes) && DirHeld(s, r, i, area) && IsCommitted(s.nodes, s.inodes, i)
    requires |DirImage(s.nodes, s.inodes, i)| <= SMALL
    ensures IndexFree(InodeAt(r.inodes, s.nodes[i].inode).field, area)
  {
    hide DirImage, KeepsFile, Listable, Placed, IndexFree, Sturdy;
  }

  lemma FileFree(st: Store, ino: Inode, b: Born, area: nat)
    requires Holds(st, ino, b, area) && HasTree(ino) && |b.content| <= SMALL
    ensures IndexFree(ino.field, area)
  {
    hide KeepsFile, Placed, Reserved, IndexFree, Sturdy;
  }

  lemma {:induction false} SmallDirsFree(s: St, order: seq<nat>, area: nat)
    requires Good(s, area) && VisitsAll(s.nodes, order) && Listable(s.nodes)
    requires CommitAll(s, order).error == None && Fits(CommitAll(s, order).state.store)
    requires forall i :: 0 <= i < |s.nodes| && Attached(s.nodes, i) && IsCommitted(s.nodes, s.inodes, i) ==>
                           |DirImage(s.nodes, s.inodes, i)| <= SMALL
    ensures DirsFree(s, CommitAll(s, order).state.inodes, area)
  {
    hide Owned, Kept, FileCounts, DirCounts, RemovedDirs, KindsSane, CommitAll, Listable, Attached, LinksAgree, Past,
         OtherInodes, Area, DirHeld, SameTree, DirImage, IndexFree, IsCommitted;
    var r := CommitAll(s, order).state;
    InvWellFormed(s);
    CommitPast(s, order);
    KeptArea(s, area, r.store);
    CommitAllHolds(s, order, area);
    forall i {:trigger IsCommitted(s.nodes, s.inodes, i)}
      | 0 <= i < |s.nodes| && Attached(s.nodes, i) && IsCommitted(s.nodes, s.inodes, i)
      ensures IndexFree(InodeAt(r.inodes, s.nodes[i].inode).field, area)
    {
      var x :| 0 <= x < |order| && order[x] == i;
      DirFree(s, r, i, area);
    }
  }

  /** As long as no file and no directory is over 35 GiB, no leaf block falls into a reserved area. */
  lemma {:induction false} SmallAllFree(s: St, order: seq<nat>, area: nat)
    requires Good(s, area) && VisitsAll(s.nodes, order) && Listable(s.nodes)
    requires CommitAll(s, order).error == None && Fits(CommitAll(s, order).state.store)
    requires forall i :: 0 <= i < |s.nodes| && Attached(s.nodes, i) && IsCommitted(s.nodes, s.inodes, i) ==>
                           |DirImage(s.nodes, s.inodes, i)| <= SMALL
    requires forall k {:trigger BornAt(s.born, k)} :: FIRST_INODE <= k <= |s.inodes| ==>
             |BornAt(s.born, k).content| <= SMALL
    ensures AllFree(s, CommitAll(s, order).state.inodes, area)
  {
    hide Sound, Kept, CommitAll, Listable, Attached, LinksAgree, Area, SameTree, DirImage, IndexFree, Holds,
         IsCommitted, DirsFree;
    var r := CommitAll(s, order).state;
    SmallDirsFree(s, order, area);
    CommitAllSame(s, order);
    CommitCounts(s, r);
    forall k {:trigger InodeAt(r.inodes, k)} | FIRST_INODE <= k <= |r.inodes| && HasTree(InodeAt(r.inodes, k))
      ensures IndexFree(InodeAt(r.inodes, k).field, area)
    {
      SameKind(s, r, k);
      FilesSurvive(s, order, k, area);
      FileFree(r.store, InodeAt(r.inodes, k), BornAt(s.born, k), area);
    }
  }

  lemma SameKind(s: St, r: St, k: nat)
    requires SameTree(s, r)
    ensures InodeAt(r.inodes, k).kind == InodeAt(s.inodes, k).kind
  {
    var x := InodeAt(r.inodes, k);
  }

  /** The state that a run ends in, with what is known of it. */
  ghost function Last(size: positive, ops: seq<Op>): (s: St)
    requires AllAllowed(Fresh(size), ops) && |Run(Fresh(size), ops).inodes| < 0x1_0000_0000
    ensures s == Run(Fresh(size), ops) && Good(s, Area(size)) && Listable(s.nodes) && |s.nodes| > 0
  {
    FreshRunGood(size, ops);
    GoodListable(Run(Fresh(size), ops), Area(size));
    Run(Fresh(size), ops)
  }

  /** The same for every run from a new image. */
  lemma {:induction false} RunImage(size: positive, ops: seq<Op>, order: seq<nat>, path: Path, fill: Fill)
    requires AllAllowed(Fresh(size), ops) && |Run(Fresh(size), ops).inodes| < 0x1_0000_0000 && NoDots(path)
    requires VisitsAll(Last(size, ops).nodes, order) && Legible(Last(size, ops), order, Area(size))
    ensures var s := Last(size, ops);
            && Finished(s, order, fill).Closed?
            && (Has(Finished(s, order, fill).disk, path, Put(s, path))
                <==> PathFree(s, CommitAll(s, order).state.inodes, path, Area(size)))
            && (ClosesWell(s, order, Area(size)) ==> Has(Finished(s, order, fill).disk, path, Put(s, path)))
  {
    hide Run, Fresh, AllAllowed, Good, CommitAll, Listable, Has, Put, ClosesWell, Legible, Finished, PathFree,
         LinksAgree, Attached, Last;
    var s := Last(size, ops);
    PathHeldIff(s, order, path, Area(size), fill);
    if ClosesWell(s, order, Area(size)) { ImageHasAll(s, order, path, Area(size), fill); }
  }
}
