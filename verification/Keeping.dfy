/** What create wrote stays: in every later state each inode still in use leads to the content it was
    created with, and no block given to it lies in a reserved area. */
module Keeping {
  import opened Bytes
  import opened Geometry
  import opened Payload
  import opened Placement
  import opened Allocation
  import opened Contents
  import opened Extents
  import opened FileTree
  import opened Fs
  import opened Ownership
  import opened Pruning
  import opened Creating

  /** From `a` to `b` inodes were only added, cleared, or changed in their link count. */
  ghost predicate Lasting(a: seq<Inode>, b: seq<Inode>) {
    && |a| <= |b|
    && forall k {:trigger InodeAt(b, k)} :: 1 <= k <= |a| && InodeAt(b, k).kind != Unused ==>
         InodeAt(b, k) == InodeAt(a, k).(links := InodeAt(b, k).links)
  }

  lemma LastingTransitive(a: seq<Inode>, b: seq<Inode>, c: seq<Inode>)
    requires Lasting(a, b) && Lasting(b, c)
    ensures Lasting(a, c)
  {
    forall k {:trigger InodeAt(c, k)} | 1 <= k <= |a| && InodeAt(c, k).kind != Unused
      ensures InodeAt(c, k) == InodeAt(a, k).(links := InodeAt(c, k).links)
    {
      assert InodeAt(b, k).kind != Unused;
    }
  }

  lemma LeafLasting(s: St, i: nat)
    requires i < |s.nodes|
    ensures var r := RemoveLeaf(s, i);
            Lasting(s.inodes, r.inodes) && |r.inodes| == |s.inodes| && r.store == s.store && r.born == s.born
  {
    hide RemoveChild, NodeBlocks, Deferred, XattrRange, Parent;
    assert Lasting(s.inodes, DropDotDot(s.nodes, s.inodes, i));
    LastingTransitive(s.inodes, DropDotDot(s.nodes, s.inodes, i), RemoveLeaf(s, i).inodes);
  }

  lemma {:induction false} TreeLasting(s: St, i: nat)
    requires i < |s.nodes|
    ensures var r := RemoveTree(s, i);
            Lasting(s.inodes, r.inodes) && |r.inodes| == |s.inodes| && r.store == s.store && r.born == s.born
    decreases |s.nodes| - i, 1, 0
  {
    hide RemoveLeaf, Lasting;
    AllLasting(s, i, s.nodes[i].children);
    var t := RemoveAll(s, i, s.nodes[i].children);
    if i != ROOT {
      LeafLasting(t, i);
      LastingTransitive(s.inodes, t.inodes, RemoveLeaf(t, i).inodes);
    }
  }

  lemma {:induction false} AllLasting(s: St, i: nat, children: seq<nat>)
    requires i < |s.nodes|
    ensures var r := RemoveAll(s, i, children);
            Lasting(s.inodes, r.inodes) && |r.inodes| == |s.inodes| && r.store == s.store && r.born == s.born
    decreases |s.nodes| - i, 0, |children|
  {
    hide RemoveTree, Lasting;
    if children == [] {
      SameLasting(s.inodes);
    } else if i < children[0] < |s.nodes| {
      TreeLasting(s, children[0]);
      var t := RemoveTree(s, children[0]);
      AllLasting(t, i, children[1..]);
      LastingTransitive(s.inodes, t.inodes, RemoveAll(t, i, children[1..]).inodes);
    } else {
      AllLasting(s, i, children[1..]);
    }
  }

  lemma SameLasting(a: seq<Inode>)
    ensures Lasting(a, a)
  {
  }

  lemma AddLinkLasting(s: St, p: nat, name: Name, target: nat)
    requires p < |s.nodes|
    ensures var r := AddLink(s, p, name, target);
            Lasting(s.inodes, r.inodes) && |r.inodes| == |s.inodes| && r.store == s.store && r.born == s.born
  {
    hide AddChild;
  }

  lemma AddEntryLasting(s: St, p: nat, name: Name, ino: Inode, store: Store, b: Born)
    requires p < |s.nodes|
    ensures Lasting(s.inodes, AddEntry(s, p, name, ino, store, b).inodes)
  {
    hide AddChild;
  }

  // ----- What an inode in use leads to -----

  /** The inode leads to what it was created with, on this image and on all that keep its span; reserved
      blocks within the span do not count exactly if no leaf block is one. */
  ghost predicate Holds(st: Store, ino: Inode, b: Born, area: nat) {
    && ino.kind == b.kind && |ino.field| == 60 && ino.size == |b.content| <= MAX_IMAGE
    && (if ino.kind == Symlink && |b.content| < 60 then ino.field == b.content + Zeros(60 - |b.content|)
        else
          && KeepsFile(st.disk, ino.field, b.content, b.hi) && SturdyIff(st.disk, ino.field, b.content, b.hi, area)
          && Placed(st.disk, ino.field, b.lo, b.hi))
    && Avoids(b.ranges, area)
    && (b.xattr != 0 ==> b.xattr < b.hi && !Reserved(b.xattr, area) && BlockAt(st.disk, b.xattr) == b.attrs)
  }

  /** As long as blocks are numbered in 32 bits, every inode in use holds on to its content. `area` is
      the size of the reserved areas to stay clear of. */
  ghost predicate Kept(s: St, area: nat) {
    Fits(s.store) ==>
      && area <= Area(s.store.size)
      && forall k {:trigger InodeAt(s.inodes, k)} ::
         FIRST_INODE <= k <= |s.inodes| && InodeAt(s.inodes, k).kind != Unused ==>
           Holds(s.store, InodeAt(s.inodes, k), BornAt(s.born, k), area)
  }

  lemma HoldsOn(s: Store, t: Store, ino: Inode, later: Inode, b: Born, area: nat)
    requires Holds(s, ino, b, area) && SameBelow(s.disk, t.disk, b.hi) && later == ino.(links := later.links)
    ensures Holds(t, later, b, area)
  {
    hide HoldsFile, Avoids, Reserved, SturdyIff, Placed;
    if !(ino.kind == Symlink && |b.content| < 60) {
      PlacedBelow(s.disk, t.disk, ino.field, b.lo, b.hi);
      forall e: Disk | SameBelow(t.disk, e, b.hi) ensures HoldsFile(e, ino.field, b.content) {
        SameBelowTrans(s.disk, t.disk, e, b.hi, b.hi);
      }
      SturdyOn(s.disk, t.disk, ino.field, b.content, b.hi, area);
    }
  }

  lemma PlacedBelow(d: Disk, e: Disk, field: seq<byte>, lo: nat, hi: nat)
    requires Placed(d, field, lo, hi) && SameBelow(d, e, hi)
    ensures Placed(e, field, lo, hi)
  {
    hide PointsAt, ParseExtents, BlockAt;
    PlacedOn(d, e, field, lo, hi);
  }

  lemma SturdyOn(d: Disk, t: Disk, field: seq<byte>, content: seq<byte>, hi: nat, area: nat)
    requires SturdyIff(d, field, content, hi, area) && SameBelow(d, t, hi)
    ensures SturdyIff(t, field, content, hi, area)
  {
    hide IndexFree;
    SturdyMoves(d, t, field, content, hi, area);
    SturdyMoves(t, d, field, content, hi, area);
  }

  lemma SturdyMoves(d: Disk, t: Disk, field: seq<byte>, content: seq<byte>, hi: nat, area: nat)
    requires SameBelow(d, t, hi)
    ensures Sturdy(d, field, content, hi, area) ==> Sturdy(t, field, content, hi, area)
  {
    hide HoldsFile, Reserved;
    if Sturdy(d, field, content, hi, area) {
      forall e: Disk | SameOff(t, e, hi, area) ensures HoldsFile(e, field, content) {
        assert SameOff(d, e, hi, area);
      }
    }
  }

  /** Nothing that only clears inodes, changes link counts and writes beyond the cursor can lose content. */
  lemma KeptOn(s: St, r: St, area: nat)
    requires Kept(s, area) && Spans(s.born, Top(s.store)) && |s.born| == |s.inodes| == |r.inodes|
    requires Lasting(s.inodes, r.inodes) && r.born == s.born && Past(s.store, r.store)
    ensures Kept(r, area)
  {
    hide Holds, SameBelow, BornSane, Area;
    if Fits(r.store) {
      FitsBack(s.store, r.store);
      AreaMonotone(s.store.size, r.store.size);
      forall k {:trigger InodeAt(r.inodes, k)} | FIRST_INODE <= k <= |r.inodes| && InodeAt(r.inodes, k).kind != Unused
        ensures Holds(r.store, InodeAt(r.inodes, k), BornAt(r.born, k), area)
      {
        NarrowSame(s.store.disk, r.store.disk, BornAt(s.born, k).hi, Top(s.store));
        HoldsOn(s.store, r.store, InodeAt(s.inodes, k), InodeAt(r.inodes, k), BornAt(s.born, k), area);
      }
    }
  }

  lemma NarrowSame(d: Disk, e: Disk, lo: nat, hi: nat)
    requires SameBelow(d, e, hi) && lo <= hi
    ensures SameBelow(d, e, lo)
  {
  }

  lemma AlignedAvoids(st: Store, bytes: seq<byte>, area: nat)
    requires Fits(WriteAligned(st, bytes).store) && area <= Area(st.size)
    ensures Avoids(WriteAligned(st, bytes).ranges, area)
  {
    hide WriteBytes, Area, ReservedEnd;
    var a := Align(st);
    var b := SkipReserved(a);
    SkipIsForward(a);
    var w := WriteBytes(b, bytes, []);
    AlignForward(w.store);
    FitsBack(w.store, Align(w.store));
    WriteAvoids(b, bytes, [], b.block, area);
  }

  /** Payload and xattr blocks stay clear of the reserved areas. */
  lemma StowAvoids(st: Store, what: What, area: nat)
    requires Stow(st, what).Stowed? && Fits(Stow(st, what).store) && area <= Area(st.size)
    ensures Avoids(Stow(st, what).ranges, area)
  {
    hide Finish, WriteAligned, Area, Fits, WriteChunks, Concat, SkipReserved, Align, Reserved;
    match what {
      case MakeSymlink(target) =>
        if |target| >= 60 { FinishAvoids(st, target, |target|, area); }
      case MakeFile(Some(chunks)) =>
        AcceptedSizes(SkipReserved(Align(st)), chunks, [], 0);
        StowData(st, chunks);
        FinishAvoids(st, Concat(chunks), |Concat(chunks)|, area);
      case MakeFile(None) => NothingStored(st);
      case _ =>
    }
  }

  lemma FinishAvoids(st: Store, bytes: seq<byte>, size: nat, area: nat)
    requires var f := Finish(WriteAligned(st, bytes), size); f.Stowed? && Fits(f.store)
    requires area <= Area(st.size)
    ensures Avoids(Finish(WriteAligned(st, bytes), size).ranges, area)
  {
    hide Finish, WriteBytes, Area, Fits, SkipReserved, Reserved;
    var w := WriteAligned(st, bytes);
    FinishForward(w, size);
    FitsBack(w.store, Finish(w, size).store);
    AlignedAvoids(st, bytes, area);
  }

  lemma ContentAvoids(st: Store, what: What, area: nat)
    requires Stow(st, what).Stowed? && Fits(Stow(st, what).store) && area <= Area(st.size)
    ensures !(what.MakeSymlink? && |what.target| < 60) ==> Avoids(WriteAligned(st, ContentOf(what)).ranges, area)
  {
    hide Finish, WriteAligned, Area, Fits, WriteChunks, Concat, SkipReserved, Align, Reserved;
    match what {
      case MakeSymlink(target) =>
        if |target| >= 60 { FinishAvoids(st, target, |target|, area); WrittenRanges(st, target, |target|); }
      case MakeFile(Some(chunks)) =>
        AcceptedSizes(SkipReserved(Align(st)), chunks, [], 0);
        StowData(st, chunks);
        FinishAvoids(st, Concat(chunks), |Concat(chunks)|, area);
        WrittenRanges(st, Concat(chunks), |Concat(chunks)|);
      case _ => NothingWritten(st);
    }
  }

  lemma WrittenRanges(st: Store, bytes: seq<byte>, size: nat)
    requires Finish(WriteAligned(st, bytes), size).Stowed?
    ensures Finish(WriteAligned(st, bytes), size).ranges == WriteAligned(st, bytes).ranges
  {
    hide WriteAligned;
  }

  lemma NothingWritten(st: Store)
    ensures WriteAligned(st, []).ranges == []
  {
    hide SkipReserved;
  }

  lemma NothingStored(st: Store)
    ensures Stow(st, MakeFile(None)).Stowed? && Stow(st, MakeFile(None)).ranges == []
  {
    hide SkipReserved;
    NoExtents(SkipReserved(st), []);
  }

  lemma XattrHolds(st: Store, x: Xattrs, area: nat)
    requires Top(st) > 0 && Fits(PlaceXattr(st, x).store) && area <= Area(st.size)
    ensures var w := PlaceXattr(st, x);
            First(w.ranges) != 0 ==>
              !Reserved(First(w.ranges), area) && BlockAt(w.store.disk, First(w.ranges)) == AttrsOf(x)
  {
    hide WriteAligned, Area, Fits, Reserved, Total, Ascending;
    if x.Packed? && x.block.Some? {
      var w := PlaceXattr(st, x);
      AlignedAvoids(st, x.block.value, area);
      var pad := WriteAlignedLands(st, x.block.value);
      OneBlockOneRange(w.ranges, Top(st), w.store.block);
      assert InRanges(w.ranges, First(w.ranges));
      OneBlock(w.store.disk, w.ranges, x.block.value, pad);
    }
  }

  lemma {:induction false} OneBlock(d: Disk, ranges: seq<Range>, bytes: Block, pad: seq<byte>)
    requires |ranges| == 1 && ranges[0].end == ranges[0].start + 1 && Flat(d, ranges) == bytes + pad
    ensures BlockAt(d, ranges[0].start) == bytes
  {
    assert ranges == [] + [ranges[0]];
    FlatSnoc(d, [], ranges[0]);
    FlatOne(d, ranges[0].start);
    assert Flat(d, []) == [];
    assert [] + BlockAt(d, ranges[0].start) == BlockAt(d, ranges[0].start);
    FirstPart(BlockAt(d, ranges[0].start), bytes, pad);
  }

  lemma FirstPart(a: seq<byte>, b: seq<byte>, c: seq<byte>)
    requires a == b + c && |a| == |b|
    ensures a == b
  {
    assert c == [];
  }

  /** The inode that Insert makes holds its content. */
  lemma NewHolds(s: Store, what: What, x: Xattrs, area: nat, links: LinkCount, origin: nat)
    requires !x.Refused? && Top(s) > 0 && area <= Area(s.size)
    requires var w := PlaceXattr(s, x); Stow(w.store, what).Stowed? && Fits(Stow(w.store, what).store)
    ensures var w := PlaceXattr(s, x);
            var r := Stow(w.store, what);
            Holds(r.store, Inode(KindOf(what), links, r.size, r.field, First(w.ranges), InlineOf(x)),
                  Born(KindOf(what), ContentOf(what), origin, r.ranges, First(w.ranges), AttrsOf(x), Top(s),
                       Top(r.store)), area)
  {
    hide PlaceXattr, First, Ascending, KeepsFile, Fits, ContentOf, SameBelow, Finish, WriteChunks, WriteAligned,
         AttrsOf, Avoids, Reserved, Area, BlockAt, Stow, Within, SturdyIff, Placed;
    var w := PlaceXattr(s, x);
    XattrPlaced(s, x);
    StowPast(w.store, what);
    var r := Stow(w.store, what);
    FitsBack(w.store, r.store);
    XattrHolds(s, x, area);
    XattrFits(s, x);
    FitsSize(r.store);
    AreaMonotone(s.size, w.store.size);
    StowAvoids(w.store, what, area);
    ContentAvoids(w.store, what, area);
    StowSturdy(w.store, what, area);
    StowWell(w.store, what);
    StowPlaces(w.store, what);
    if !(what.MakeSymlink? && |what.target| < 60) {
      PlacedWider(r.store.disk, r.field, Top(w.store), Top(r.store), Top(s), Top(r.store));
    }
    NoOther(w.store, what);
    SymlinkContent(what);
    if First(w.ranges) != 0 { SameThere(w.store.disk, r.store.disk, Top(w.store), First(w.ranges)); }
  }

  lemma SymlinkContent(what: What)
    ensures KindOf(what) == Symlink <==> what.MakeSymlink?
    ensures what.MakeSymlink? ==> ContentOf(what) == what.target
  {
  }

  lemma NoOther(st: Store, what: What)
    requires Stow(st, what).Stowed?
    ensures what != MakeOther
  {
  }

  lemma SameThere(d: Disk, e: Disk, limit: nat, b: nat)
    requires SameBelow(d, e, limit) && b < limit
    ensures BlockAt(d, b) == BlockAt(e, b)
  {
  }

  lemma FitsSize(st: Store)
    requires Fits(st)
    ensures st.size <= MAX_IMAGE
  {
  }

  lemma XattrFits(s: Store, x: Xattrs)
    ensures s.size <= PlaceXattr(s, x).store.size
  {
    hide WriteBytes, SkipReserved;
    if x.Packed? && x.block.Some? { WriteAlignedPast(s, x.block.value); }
  }

  // ----- Over the operations -----

  /** Inodes only lose links or go, histories only grow, the cursor only moves on. */
  ghost predicate Later(s: St, r: St) {
    Lasting(s.inodes, r.inodes) && s.born <= r.born && Past(s.store, r.store)
  }

  lemma LaterTransitive(s: St, t: St, r: St)
    requires Later(s, t) && Later(t, r)
    ensures Later(s, r)
  {
    hide Lasting, Past;
    LastingTransitive(s.inodes, t.inodes, r.inodes);
    PastTransitive(s.store, t.store, r.store);
  }

  lemma BornLength(s: St)
    requires Sound(s)
    ensures |s.born| == |s.inodes| && Spans(s.born, Top(s.store))
  {
  }

  lemma EntryKept(s: St, p: nat, name: Name, ino: Inode, store: Store, b: Born, area: nat)
    requires p < |s.nodes| && Kept(s, area) && Spans(s.born, Top(s.store)) && |s.born| == |s.inodes|
    requires Past(s.store, store)
    requires Fits(store) && area <= Area(s.store.size) ==> Holds(store, ino, b.(origin := |s.nodes|), area)
    ensures var r := AddEntry(s, p, name, ino, store, b);
            Kept(r, area) && Later(s, r) && |r.born| == |r.inodes| == |s.inodes| + 1
  {
    hide Holds, Lasting, Past, Spans, AddChild, Area, Fits, SameBelow;
    var r := AddEntry(s, p, name, ino, store, b);
    AddEntryLasting(s, p, name, ino, store, b);
    if Fits(store) { EntryHolds(s, r, ino, b, area); }
  }

  lemma EntryHolds(s: St, r: St, ino: Inode, b: Born, area: nat)
    requires Kept(s, area) && Spans(s.born, Top(s.store)) && |s.born| == |s.inodes| && Past(s.store, r.store)
    requires Lasting(s.inodes, r.inodes) && |r.inodes| == |s.inodes| + 1 && InodeAt(r.inodes, |r.inodes|) == ino
    requires r.born == s.born + [b.(origin := |s.nodes|)]
    requires Fits(r.store) && (area <= Area(s.store.size) ==> Holds(r.store, ino, b.(origin := |s.nodes|), area))
    ensures Kept(r, area)
  {
    hide Holds, BornSane, Area, SameBelow;
    FitsBack(s.store, r.store);
    AreaMonotone(s.store.size, r.store.size);
    forall k {:trigger InodeAt(r.inodes, k)} | FIRST_INODE <= k <= |r.inodes| && InodeAt(r.inodes, k).kind != Unused
      ensures Holds(r.store, InodeAt(r.inodes, k), BornAt(r.born, k), area)
    {
      if k <= |s.inodes| {
        assert BornAt(r.born, k) == BornAt(s.born, k);
        NarrowSame(s.store.disk, r.store.disk, BornAt(s.born, k).hi, Top(s.store));
        HoldsOn(s.store, r.store, InodeAt(s.inodes, k), InodeAt(r.inodes, k), BornAt(s.born, k), area);
      } else {
        assert BornAt(r.born, k) == b.(origin := |s.nodes|);
      }
    }
  }

  /** Insert keeps all content and, when it succeeds, adds the one asked for. */
  lemma InsertKept(s: St, p: nat, name: Name, what: What, x: Xattrs, area: nat)
    requires Sound(s) && Top(s.store) > 0 && p < |s.nodes| && Kept(s, area)
    ensures var r := Insert(s, p, name, what, x);
            && Kept(r.state, area) && Later(s, r.state)
            && (r.error == None ==>
                  && |r.state.born| == |r.state.inodes| == |s.inodes| + 1
                  && BornAt(r.state.born, |r.state.born|).content == ContentOf(what))
  {
    hide Sound, Holds, Spans, Stow, PlaceXattr, First, Past, AddChild, Fits, Area, Lasting, ContentOf, AttrsOf, KindOf,
         SameBelow, Kept;
    BornLength(s);
    var r := Insert(s, p, name, what, x);
    Still(s.store);
    SameLasting(s.inodes);
    if InodeAt(s.inodes, s.nodes[p].inode).links < MAX_LINKS && !x.Refused? {
      var w := PlaceXattr(s.store, x);
      XattrPlaced(s.store, x);
      StowPast(w.store, what);
      var st := Stow(w.store, what);
      PastTransitive(s.store, w.store, st.store);
      if st.Stowed? {
        var links := if what.MakeDir? then 2 else 1;
        var ino := Inode(KindOf(what), links, st.size, st.field, First(w.ranges), InlineOf(x));
        var b := Born(KindOf(what), ContentOf(what), 0, st.ranges, First(w.ranges), AttrsOf(x), Top(s.store),
                      Top(st.store));
        if Fits(st.store) && area <= Area(s.store.size) { NewHolds(s.store, what, x, area, links, |s.nodes|); }
        EntryKept(s, p, name, ino, st.store, b, area);
      } else {
        KeptOn(s, s.(store := st.store), area);
      }
    }
  }

  lemma UnlinkKept(s: St, path: Path, whiteout: bool, area: nat)
    requires Sound(s) && |s.nodes| > 0 && Kept(s, area)
    ensures var r := UnlinkNamed(s, path, whiteout).state; Kept(r, area) && Later(s, r) && r.born == s.born
  {
    hide Sound, Holds, Spans, RemoveTree, RemoveAll, Lookup, Lasting, Past, Kept;
    BornLength(s);
    Still(s.store);
    SameLasting(s.inodes);
    match Lookup(s.nodes, path) {
      case None =>
      case Some(i) =>
        TreeLasting(s, i);
        AllLasting(s, i, s.nodes[i].children);
        KeptOn(s, RemoveTree(s, i), area);
        KeptOn(s, RemoveAll(s, i, s.nodes[i].children), area);
    }
  }

  lemma ClearKept(s: St, path: Path, what: What, area: nat)
    requires Sound(s) && |s.nodes| > 0 && Kept(s, area) && Clear(s, path, what).Ready?
    ensures var u := Clear(s, path, what).state;
            Kept(u, area) && Later(s, u) && u.born == s.born && |u.inodes| == |s.inodes|
  {
    hide Sound, Holds, Spans, RemoveTree, Lookup, Lasting, Past, Kept;
    BornLength(s);
    Still(s.store);
    SameLasting(s.inodes);
    match Lookup(s.nodes, path) {
      case None =>
      case Some(i) =>
        TreeLasting(s, i);
        KeptOn(s, RemoveTree(s, i), area);
    }
  }

  /** Create loses no content, and what it adds holds the content it was given. */
  lemma {:induction false} CreateKept(s: St, path: Path, what: What, x: Xattrs, area: nat)
    requires Sound(s) && Top(s.store) > 0 && Plain(s, path, what) && |s.nodes| > 0 && Kept(s, area)
    ensures var r := Create(s, path, what, x);
            && Kept(r.state, area) && Later(s, r.state)
            && (r.error == None && !what.MakeDir? ==>
                |r.state.born| > 0 && BornAt(r.state.born, |r.state.born|).content == ContentOf(what))
    decreases |path|
  {
    hide Sound, Lookup, Past, Insert, RemoveTree, Cleared, Pruned, Kept, Lasting, ContentOf, Created, Spared;
    Still(s.store);
    SameLasting(s.inodes);
    if NamesFit(path) && Clear(s, path, what).Ready? {
      ClearKept(s, path, what, area);
      ClearWell(s, path, what);
      var u := Clear(s, path, what).state;
      if path == [] {
        InsertKept(u, ROOT, SLASH, what, x, area);
        LaterTransitive(s, u, Create(s, path, what, x).state);
      } else {
        PlainHere(s, u, path, what);
        var parent := path[..|path| - 1];
        CreateWell(u, parent, MakeDir, NoXattrs);
        CreateKept(u, parent, MakeDir, NoXattrs, area);
        var v := Create(u, parent, MakeDir, NoXattrs);
        PastTop(u.store, v.state.store);
        LaterTransitive(s, u, v.state);
        if v.error == None && Lookup(v.state.nodes, parent).Some? {
          InsertKept(v.state, Lookup(v.state.nodes, parent).value, path[|path| - 1], what, x, area);
          LaterTransitive(s, v.state, Create(s, path, what, x).state);
        }
      }
    }
  }
}
