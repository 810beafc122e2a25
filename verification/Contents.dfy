/** Storing the content of one inode: xattr block, payload, extent tree; and reading it back. */
module Contents {
  import opened Bytes
  import opened Geometry
  import opened Payload
  import opened Placement
  import opened Allocation
  import opened Extents

  datatype What = MakeDir | MakeFile(data: Option<seq<seq<byte>>>) | MakeSymlink(target: seq<byte>) | MakeOther

  datatype Stowed = Stowed(store: Store, field: seq<byte>, ranges: seq<Range>, size: nat)
                  | TooBigFile(store: Store) | TooDeep(store: Store) | Unsupported(store: Store)

  /** The extent tree goes right after the payload. */
  function Finish(w: Written, size: nat): Stowed {
    var st := SkipReserved(w.store);
    match WriteExtents(st, w.ranges, Zeros(60))
    case Extents(s, field) => Stowed(s, field, w.ranges, size)
    case TooManyExtents => TooDeep(st)
  }

  function Stow(st: Store, what: What): Stowed {
    match what
    case MakeDir => Stowed(st, Zeros(60), [], 0)
    case MakeSymlink(target) =>
      if |target| < 60 then Stowed(st, target + Zeros(60 - |target|), [], |target|)
      else Finish(WriteAligned(st, target), |target|)
    case MakeFile(None) => Finish(Written(st, []), 0)
    case MakeFile(Some(chunks)) =>
      (match WriteChunks(SkipReserved(Align(st)), chunks, [], 0)
       case TooBig(w) => TooBigFile(w.store)
       case Stored(w, size) => Finish(Written(Align(w.store), w.ranges), size))
    case MakeOther => Unsupported(st)
  }

  function ContentOf(what: What): seq<byte> {
    match what
    case MakeSymlink(target) => target
    case MakeFile(Some(chunks)) => Concat(chunks)
    case _ => []
  }

  /** The image holds the content where the block field points, padded to whole blocks. */
  ghost predicate HoldsFile(d: Disk, field: seq<byte>, content: seq<byte>) {
    && |field| == 60 && ParseExtents(d, field).Ranges?
    && var stored := Flat(d, ParseExtents(d, field).ranges); content <= stored && |stored| < |content| + BLOCK
  }

  /** ... and goes on holding it on every image that keeps the blocks below `hi`. */
  ghost predicate KeepsFile(d: Disk, field: seq<byte>, content: seq<byte>, hi: nat) {
    forall e: Disk :: SameBelow(d, e, hi) ==> HoldsFile(e, field, content)
  }

  lemma AlignForward(st: Store)
    ensures Forward(st, Align(st)) && Top(Align(st)) == Top(st) == Align(st).block && Align(st).off == 0
    ensures Align(st).disk == st.disk && Align(st).size == st.size
  {
  }

  lemma SkipIsForward(st: Store)
    ensures Forward(st, SkipReserved(st)) && SkipReserved(st).off == st.off
    ensures SkipReserved(st).disk == st.disk && SkipReserved(st).size == st.size
  {
    SkipForward(st);
  }

  lemma FitsBack(s: Store, t: Store)
    requires Forward(s, t) && Fits(t)
    ensures Fits(s)
  {
  }

  /** Content written in one go from the next free block boundary. */
  lemma WriteAlignedLands(st: Store, bytes: seq<byte>) returns (pad: seq<byte>)
    ensures var w := WriteAligned(st, bytes);
            && Forward(st, w.store) && w.store.off == 0
            && Flat(w.store.disk, w.ranges) == bytes + pad && |pad| < BLOCK
            && Ascending(w.ranges) && Within(w.ranges, Top(st), w.store.block)
            && Total(w.ranges) == BlocksFor(|bytes|)
            && (Fits(w.store) ==> |w.ranges| <= 57)
  {
    hide WriteBytes, Flat, Total, Ascending, SkipReserved, SameBelow;
    var a := Align(st);
    var b := SkipReserved(a);
    AlignForward(st);
    SkipIsForward(a);
    ForwardTransitive(st, a, b);
    var w := WriteBytes(b, bytes, []);
    NoRanges(b.disk, Top(st), b.block);
    pad := WriteLands(b, bytes, [], Top(st));
    WriteForward(b, bytes, []);
    ForwardTransitive(st, b, w.store);
    AlignForward(w.store);
    ForwardTransitive(st, w.store, Align(w.store));
    WriteTotal(b, bytes, [], Top(st));
    assert [] + bytes == bytes;
    if Fits(Align(w.store)) {
      FitsBack(w.store, Align(w.store));
      AtMost57Ranges(b, bytes);
    }
  }

  lemma {:induction false} NoRanges(d: Disk, lo: nat, hi: nat)
    ensures Flat(d, []) == [] && Total([]) == 0 && Ascending([]) && Within([], lo, hi)
  {
  }

  lemma ZeroField(d: Disk)
    ensures HoldsFile(d, Zeros(60), [])
  {
    var z := Zeros(60)[0..2];
    assert z[1..] == [0] && z[1..][1..] == [];
    assert Read(z) == 0;
  }

  /** The field that Finish leaves leads to the content, now and later. */
  lemma FinishKeeps(w: Written, size: nat, content: seq<byte>, pad: seq<byte>, lo: nat, e: Disk)
    requires w.store.off == 0 && Within(w.ranges, lo, w.store.block)
    requires Flat(w.store.disk, w.ranges) == content + pad && |pad| < BLOCK
    requires Total(w.ranges) == 0 ==> content == []
    requires var r := Finish(w, size);
             r.Stowed? && r.store.block <= 0x1_0000_0000 && SameBelow(r.store.disk, e, r.store.block)
    ensures HoldsFile(e, Finish(w, size).field, content)
  {
    hide Flat, Total, WriteExtents, SkipReserved, ParseExtents, Within, SameBelow, CutRanges;
    var st := SkipReserved(w.store);
    SkipIsForward(w.store);
    WidenWithin(w.ranges, lo, w.store.block, st.block);
    ExtentsForward(st, w.ranges, Zeros(60));
    var r := Finish(w, size);
    if Total(w.ranges) == 0 {
      NoExtents(st, w.ranges);
      ZeroField(e);
    } else {
      SameFrom(r.store.disk, e, st.block, r.store.block);
      ExtentsRoundTrip(st, w.ranges, lo, e);
      CutFlat(e, w.ranges);
      ForwardTransitive(w.store, st, r.store);
      SameBelowTrans(w.store.disk, r.store.disk, e, w.store.block, r.store.block);
      FlatFrame(w.store.disk, e, w.ranges, lo, w.store.block);
    }
  }

  lemma SameFrom(d: Disk, e: Disk, from: nat, limit: nat)
    requires SameBelow(d, e, limit)
    ensures forall b :: from <= b < limit ==> BlockAt(d, b) == BlockAt(e, b)
  {
  }

  lemma WidenWithin(ranges: seq<Range>, lo: nat, hi: nat, wider: nat)
    requires Within(ranges, lo, hi) && hi <= wider
    ensures Within(ranges, lo, wider)
  {
  }

  lemma {:induction false} NoExtents(st: Store, ranges: seq<Range>)
    requires Total(ranges) == 0
    ensures WriteExtents(st, ranges, Zeros(60)) == Extents.Extents(st, Zeros(60))
  {
  }

  lemma {:induction false} CutFlat(d: Disk, ranges: seq<Range>)
    ensures Flat(d, CutRanges(ranges)) == Flat(d, ranges)
  {
    LeavesFlat(d, ranges);
  }

  lemma SameBelowTrans(a: Disk, b: Disk, c: Disk, x: nat, y: nat)
    requires SameBelow(a, b, x) && SameBelow(b, c, y) && x <= y
    ensures SameBelow(a, c, x)
  {
  }

  /** No file of up to 128 GiB ever needs a fifth index block: it has at most 57 ranges and 1081
      leaves, and four index blocks hold 1360. */
  lemma NeverTooDeep(w: Written, size: nat, content: seq<byte>)
    requires w.store.off == 0 && |w.ranges| <= 57 && |content| <= MAX_FILE_SIZE
    requires Total(w.ranges) == BlocksFor(|content|)
    ensures |Leaves(w.ranges)| <= 1081 && Finish(w, size).Stowed?
  {
    hide Total, Leaves, WriteExtents, SkipReserved;
    LeafCount(w.ranges);
    SkipIsForward(w.store);
    ExtentsForward(SkipReserved(w.store), w.ranges, Zeros(60));
  }

  lemma FinishForward(w: Written, size: nat)
    requires w.store.off == 0
    ensures Forward(w.store, Finish(w, size).store)
    ensures Finish(w, size).store.off == 0
    ensures Finish(w, size).Stowed? ==>
            |Finish(w, size).field| == 60 && Finish(w, size).ranges == w.ranges && Finish(w, size).size == size
  {
    hide WriteExtents, SkipReserved, SameBelow;
    SkipIsForward(w.store);
    ExtentsForward(SkipReserved(w.store), w.ranges, Zeros(60));
    if Finish(w, size).Stowed? {
      ForwardTransitive(w.store, SkipReserved(w.store), Finish(w, size).store);
    }
  }

  lemma FinishAll(w: Written, size: nat, content: seq<byte>, pad: seq<byte>, lo: nat)
    requires w.store.off == 0 && Within(w.ranges, lo, w.store.block)
    requires Flat(w.store.disk, w.ranges) == content + pad && |pad| < BLOCK
    requires Total(w.ranges) == BlocksFor(|content|)
    requires Finish(w, size).Stowed? && Fits(Finish(w, size).store)
    ensures KeepsFile(Finish(w, size).store.disk, Finish(w, size).field, content, Finish(w, size).store.block)
  {
    hide Flat, Total, Finish, Within, SameBelow, HoldsFile;
    var r := Finish(w, size);
    forall e: Disk | SameBelow(r.store.disk, e, r.store.block) ensures HoldsFile(e, r.field, content) {
      FinishKeeps(w, size, content, pad, lo, e);
    }
  }

  // ----- Where the blocks lie -----

  /** All blocks that the field leads to, payload and leaf blocks, lie in `lo..hi`. */
  ghost predicate Placed(d: Disk, field: seq<byte>, lo: nat, hi: nat) {
    && |field| == 60 && ParseExtents(d, field).Ranges? && Within(ParseExtents(d, field).ranges, lo, hi)
    && forall x: nat :: PointsAt(field, x) ==> lo <= x < hi
  }

  lemma PlacedOn(d: Disk, e: Disk, field: seq<byte>, lo: nat, hi: nat)
    requires Placed(d, field, lo, hi) && forall x: nat :: PointsAt(field, x) ==> BlockAt(d, x) == BlockAt(e, x)
    ensures Placed(e, field, lo, hi)
  {
    hide PointsAt, ParseExtents, BlockAt;
    ParseFrame(d, e, field);
  }

  lemma PlacedWider(d: Disk, field: seq<byte>, lo: nat, hi: nat, from: nat, to: nat)
    requires Placed(d, field, lo, hi) && from <= lo && hi <= to
    ensures Placed(d, field, from, to)
  {
    hide PointsAt, ParseExtents;
  }

  lemma PlacedNowhere(d: Disk, lo: nat, hi: nat)
    ensures Placed(d, Zeros(60), lo, hi)
  {
    hide PointsAt;
    ZeroField(d);
    NoPointers(0, lo, hi);
    var z := Zeros(60)[0..2];
    assert z[1..] == [0] && z[1..][1..] == [];
    assert Read(z) == 0;
  }

  lemma {:induction false} TotalWithin(ranges: seq<Range>, lo: nat, hi: nat)
    requires Ascending(ranges) && Within(ranges, lo, hi) && lo <= hi
    ensures Total(ranges) <= hi - lo
  {
    if ranges != [] {
      var n := |ranges| - 1;
      if n > 0 { assert ranges[n - 1].end < ranges[n].start; }
      TotalWithin(ranges[..n], lo, ranges[n].start);
    }
  }

  /** What is written from the next block boundary on, with its extent tree, lies there, and fits the image. */
  lemma AlignedPlaces(st: Store, content: seq<byte>)
    requires var f := Finish(WriteAligned(st, content), |content|); f.Stowed? && Fits(f.store)
    ensures var f := Finish(WriteAligned(st, content), |content|);
            Placed(f.store.disk, f.field, Top(st), Top(f.store)) && |content| <= MAX_IMAGE
  {
    hide Flat, Total, WriteAligned, SameBelow, Ascending, Within, PointsAt, WriteExtents, SkipReserved, ParseExtents,
         BlockAt, Leaves;
    var w := WriteAligned(st, content);
    var pad := WriteAlignedLands(st, content);
    var t := SkipReserved(w.store);
    SkipIsForward(w.store);
    FinishForward(w, |content|);
    var f := Finish(w, |content|);
    TotalWithin(w.ranges, Top(st), w.store.block);
    ExtentsForward(t, w.ranges, Zeros(60));
    if Total(w.ranges) == 0 {
      NoExtents(t, w.ranges);
      PlacedNowhere(f.store.disk, Top(st), Top(f.store));
    } else {
      WidenWithin(w.ranges, Top(st), w.store.block, t.block);
      ExtentsRoundTrip(t, w.ranges, Top(st), f.store.disk);
      WidenWithin(w.ranges, Top(st), t.block, f.store.block);
      CutInside(w.ranges, Top(st), f.store.block);
      forall x: nat | PointsAt(f.field, x) ensures Top(st) <= x < f.store.block { FieldPointers(t, w.ranges, x); }
    }
  }

  // ----- Blocks in reserved areas do not matter -----

  /** The images agree below `hi` but for reserved blocks. */
  ghost predicate SameOff(d: Disk, e: Disk, hi: nat, area: nat) {
    forall b :: 0 <= b < hi && !Reserved(b, area) ==> BlockAt(d, b) == BlockAt(e, b)
  }

  /** The content is there on every image that keeps the blocks below `hi` outside the reserved areas. */
  ghost predicate Sturdy(d: Disk, field: seq<byte>, content: seq<byte>, hi: nat, area: nat) {
    forall e: Disk :: SameOff(d, e, hi, area) ==> HoldsFile(e, field, content)
  }

  /** 35 GiB: up to here a file's extent tree has at most one leaf block of its own. */
  const SMALL: nat := 280 * 32768 * 4096

  lemma {:induction false} SmallTree(ranges: seq<Range>, content: seq<byte>)
    requires |ranges| <= 57 && |content| <= SMALL && Total(ranges) == BlocksFor(|content|)
    ensures |Leaves(ranges)| <= LEAVES_PER_BLOCK
  {
    hide Total, Leaves;
    LeafCount(ranges);
  }

  lemma {:induction false} FlatRangeOff(d: Disk, e: Disk, start: nat, end: nat)
    requires forall b :: start <= b < end ==> BlockAt(d, b) == BlockAt(e, b)
    ensures FlatRange(d, start, end) == FlatRange(e, start, end)
    decreases end
  {
    hide BlockAt;
    if start < end { FlatRangeOff(d, e, start, end - 1); }
  }

  lemma {:induction false} FlatOff(d: Disk, e: Disk, ranges: seq<Range>)
    requires forall b :: InRanges(ranges, b) ==> BlockAt(d, b) == BlockAt(e, b)
    ensures Flat(d, ranges) == Flat(e, ranges)
  {
    hide BlockAt, FlatRange;
    if ranges != [] {
      var n := |ranges| - 1;
      forall b: nat | InRanges(ranges[..n], b) ensures InRanges(ranges, b) {
        var i :| 0 <= i < n && ranges[..n][i].start <= b < ranges[..n][i].end;
        assert ranges[i] == ranges[..n][i];
      }
      FlatOff(d, e, ranges[..n]);
      forall b | ranges[n].start <= b < ranges[n].end ensures BlockAt(d, b) == BlockAt(e, b) {
        assert InRanges(ranges, b);
      }
      FlatRangeOff(d, e, ranges[n].start, ranges[n].end);
    }
  }

  lemma InsideWithin(ranges: seq<Range>, lo: nat, hi: nat, b: nat)
    requires Within(ranges, lo, hi) && InRanges(ranges, b)
    ensures b < hi
  {
  }

  /** The leaf blocks of the extent tree lie outside the reserved areas. */
  ghost predicate IndexFree(field: seq<byte>, area: nat) {
    forall x: nat :: PointsAt(field, x) ==> !Reserved(x, area)
  }

  /** If a leaf block lies in a reserved area, so does one at the very start of that group. */
  ghost predicate GroupStarts(field: seq<byte>, area: nat) {
    forall x: nat :: PointsAt(field, x) && Reserved(x, area) ==> PointsAt(field, x / GROUP * GROUP)
  }

  /** Leaf blocks follow one another from a block that is not reserved. */
  lemma {:induction false} RunStarts(w: Written, size: nat, area: nat)
    requires w.store.off == 0 && area <= Area(w.store.size) && Finish(w, size).Stowed? && Fits(Finish(w, size).store)
    ensures GroupStarts(Finish(w, size).field, area)
  {
    hide Total, WriteExtents, PointsAt, Area, HasSparse, ReservedEnd;
    var st, r := SkipReserved(w.store), Finish(w, size);
    ReservedEndIsNext(w.store.block, Area(w.store.size));
    StillFree(st.block, area, Area(w.store.size));
    if Total(w.ranges) == 0 {
      NoExtents(st, w.ranges);
      NoPointers(area, 0, 0);
    } else {
      forall x: nat | PointsAt(r.field, x) && Reserved(x, area) ensures PointsAt(r.field, x / GROUP * GROUP) {
        FieldPointers(st, w.ranges, x);
        FieldPointers(st, w.ranges, x / GROUP * GROUP);
        SameGroup(st.block, x, area);
      }
    }
  }

  lemma ReservedBefore(a: nat, x: nat, area: nat)
    requires x / GROUP * GROUP <= a <= x && Reserved(x, area)
    ensures Reserved(a, area)
  {
    hide HasSparse;
    assert a / GROUP == x / GROUP && a % GROUP <= x % GROUP;
  }

  /** A block that is not reserved and lies before one that is lies before its group. */
  lemma SameGroup(a: nat, x: nat, area: nat)
    requires a <= x && !Reserved(a, area) && Reserved(x, area)
    ensures a < x / GROUP * GROUP <= x
  {
    hide Reserved;
    if x / GROUP * GROUP <= a { ReservedBefore(a, x, area); }
  }

  /** A leaf block in a reserved area cannot be done without. */
  lemma ReservedLeaf(d: Disk, field: seq<byte>, content: seq<byte>, hi: nat, area: nat, x: nat)
    requires PointsAt(field, x) && Reserved(x, area)
    ensures !Sturdy(d, field, content, hi, area)
  {
    hide PointsAt, Reserved, ParseExtents, Flat;
    var e := d[x := Zeros(4096)];
    assert SameOff(d, e, hi, area);
    NeedsLeafBlock(e, field, x);
    assert !HoldsFile(e, field, content);
  }

  lemma SturdyNeeds(d: Disk, field: seq<byte>, content: seq<byte>, hi: nat, area: nat)
    requires Sturdy(d, field, content, hi, area)
    ensures IndexFree(field, area)
  {
    hide PointsAt, Reserved, Sturdy;
    forall x: nat | PointsAt(field, x) ensures !Reserved(x, area) {
      if Reserved(x, area) { ReservedLeaf(d, field, content, hi, area, x); }
    }
  }

  /** Content whose payload and leaf blocks avoid the reserved areas survives whatever is written there. */
  lemma FinishSturdy(w: Written, size: nat, content: seq<byte>, pad: seq<byte>, lo: nat, area: nat, e: Disk)
    requires w.store.off == 0 && Within(w.ranges, lo, w.store.block) && Avoids(w.ranges, area)
    requires Flat(w.store.disk, w.ranges) == content + pad && |pad| < BLOCK
    requires Total(w.ranges) == BlocksFor(|content|)
    requires Finish(w, size).Stowed? && Fits(Finish(w, size).store) && IndexFree(Finish(w, size).field, area)
    requires SameOff(Finish(w, size).store.disk, e, Finish(w, size).store.block, area)
    ensures HoldsFile(e, Finish(w, size).field, content)
  {
    hide Flat, Total, WriteExtents, SkipReserved, ParseExtents, Within, SameBelow, CutRanges, Leaves, Reserved, BlockAt,
         Avoids, InRanges, PointsAt;
    var st, r := SkipReserved(w.store), Finish(w, size);
    SkipIsForward(w.store);
    WidenWithin(w.ranges, lo, w.store.block, st.block);
    ExtentsForward(st, w.ranges, Zeros(60));
    if Total(w.ranges) == 0 {
      NoExtents(st, w.ranges);
      ZeroField(e);
    } else {
      forall b: nat | st.block <= b < r.store.block ensures BlockAt(r.store.disk, b) == BlockAt(e, b) {
        FieldPointers(st, w.ranges, b);
      }
      ExtentsRoundTrip(st, w.ranges, lo, e);
      CutFlat(e, w.ranges);
      ForwardTransitive(w.store, st, r.store);
      forall b | InRanges(w.ranges, b) ensures BlockAt(w.store.disk, b) == BlockAt(e, b) {
        PayloadSame(w, r.store, lo, area, e, b);
      }
      FlatOff(w.store.disk, e, w.ranges);
    }
  }

  lemma PayloadSame(w: Written, r: Store, lo: nat, area: nat, e: Disk, b: nat)
    requires Within(w.ranges, lo, w.store.block) && Avoids(w.ranges, area) && InRanges(w.ranges, b)
    requires Forward(w.store, r) && SameOff(r.disk, e, r.block, area)
    ensures BlockAt(w.store.disk, b) == BlockAt(e, b)
  {
    hide BlockAt, Reserved;
    InsideWithin(w.ranges, lo, w.store.block, b);
  }

  lemma {:induction false} OneIndexBlock(st: Store, ranges: seq<Range>)
    requires |Leaves(ranges)| <= LEAVES_PER_BLOCK
    ensures var r := WriteExtents(st, ranges, Zeros(60)); r.Extents? ==> r.store.block <= st.block + 1
  {
    hide Leaves, Total, Node, PutLeafBlocks, IndexNode;
  }

  /** The block right behind the payload is not reserved, so a tree with one leaf block is free of reserved
      areas. */
  lemma {:induction false} OneBlockFree(w: Written, size: nat, content: seq<byte>, area: nat)
    requires w.store.off == 0 && area <= Area(w.store.size) && |w.ranges| <= 57 && |content| <= SMALL
    requires Total(w.ranges) == BlocksFor(|content|)
    requires Finish(w, size).Stowed? && Fits(Finish(w, size).store)
    ensures IndexFree(Finish(w, size).field, area)
  {
    hide Total, WriteExtents, Leaves, PointsAt, Area, Reserved, ReservedEnd;
    var st, r := SkipReserved(w.store), Finish(w, size);
    ReservedEndIsNext(w.store.block, Area(w.store.size));
    StillFree(st.block, area, Area(w.store.size));
    if Total(w.ranges) == 0 {
      NoExtents(st, w.ranges);
      NoPointers(area, 0, 0);
    } else {
      SmallTree(w.ranges, content);
      OneIndexBlock(st, w.ranges);
      forall x: nat | PointsAt(r.field, x) ensures !Reserved(x, area) { FieldPointers(st, w.ranges, x); }
    }
  }

  lemma NoPointers(area: nat, lo: nat, hi: nat)
    ensures IndexFree(Zeros(60), area) && forall x: nat :: PointsAt(Zeros(60), x) ==> lo <= x < hi
  {
    hide Reserved;
    var z := Zeros(60)[0..2];
    assert z[1..] == [0] && z[1..][1..] == [];
    assert Read(z) == 0;
  }

  /** What one call of create stores: everything lies between where the cursor was and where it ends,
      and the content can be read back from there on. */
  ghost predicate StowedWell(st: Store, what: What, r: Stowed)
    requires r.Stowed?
  {
    && Forward(st, r.store) && |r.field| == 60 && r.size == |ContentOf(what)|
    && Ascending(r.ranges) && Within(r.ranges, Top(st), Top(r.store))
    && (what.MakeDir? ==> r.ranges == [])
    && (Fits(r.store) ==>
        if what.MakeSymlink? && |what.target| < 60 then r.field == what.target + Zeros(60 - |what.target|)
                          else KeepsFile(r.store.disk, r.field, ContentOf(what), Top(r.store)))
  }

  lemma StowSymlink(st: Store, target: seq<byte>)
    requires |target| >= 60 && Stow(st, MakeSymlink(target)).Stowed?
    ensures StowedWell(st, MakeSymlink(target), Stow(st, MakeSymlink(target)))
  {
    hide Flat, Total, Finish, WriteAligned, SameBelow, KeepsFile, Ascending;
    var w := WriteAligned(st, target);
    var pad := WriteAlignedLands(st, target);
    FinishForward(w, |target|);
    ForwardTransitive(st, w.store, Finish(w, |target|).store);
    if Fits(Finish(w, |target|).store) {
      FinishAll(w, |target|, target, pad, Top(st));
    }
  }

  lemma StowNothing(st: Store)
    ensures var r := Stow(st, MakeFile(None)); r.Stowed? && StowedWell(st, MakeFile(None), r)
  {
    hide SkipReserved, SameBelow, ParseExtents, Flat;
    SkipIsForward(st);
    NoRanges(st.disk, 0, 0);
    NoExtents(SkipReserved(st), []);
    forall e: Disk ensures HoldsFile(e, Zeros(60), []) { ZeroField(e); }
  }

  lemma {:induction false} StowData(st: Store, chunks: seq<seq<byte>>)
    requires |Concat(chunks)| <= MAX_FILE_SIZE
    ensures Stow(st, MakeFile(Some(chunks))) == Finish(WriteAligned(st, Concat(chunks)), |Concat(chunks)|)
  {
    hide WriteBytes, SkipReserved, Finish, Concat;
    ChunksDoNotMatter(SkipReserved(Align(st)), chunks, [], 0);
  }

  /** However large the content and however the reader cuts it up: what create stores can be read back. */
  lemma StowWell(st: Store, what: What)
    requires Stow(st, what).Stowed?
    ensures StowedWell(st, what, Stow(st, what))
  {
    hide Flat, Total, Finish, WriteAligned, SameBelow, KeepsFile, Concat, WriteChunks, Fits;
    match what {
      case MakeDir =>
        NoRanges(st.disk, 0, 0);
        DirKeeps(st);
      case MakeOther =>
      case MakeFile(None) => StowNothing(st);
      case MakeSymlink(target) =>
        if |target| >= 60 {
          StowSymlink(st, target);
        } else {
          NoRanges(st.disk, 0, 0);
          DirKeeps(st);
          ShortTarget(target);
        }
      case MakeFile(Some(chunks)) =>
        AcceptedSizes(SkipReserved(Align(st)), chunks, [], 0);
        var content := Concat(chunks);
        StowData(st, chunks);
        var w := WriteAligned(st, content);
        var pad := WriteAlignedLands(st, content);
        FinishForward(w, |content|);
        ForwardTransitive(st, w.store, Finish(w, |content|).store);
        if Fits(Finish(w, |content|).store) {
          FinishAll(w, |content|, content, pad, Top(st));
        }
    }
  }

  lemma DirKeeps(st: Store)
    ensures KeepsFile(st.disk, Zeros(60), [], Top(st)) && Forward(st, st)
  {
    forall e: Disk ensures HoldsFile(e, Zeros(60), []) { ZeroField(e); }
  }

  lemma ShortTarget(target: seq<byte>)
    requires |target| < 60
    ensures (target + Zeros(60 - |target|))[..|target|] == target
  {
  }

  /** A regular file is refused exactly when it is over 128 GiB: as long as blocks are numbered in 32
      bits, no file is refused for needing too many extents. */
  lemma {:induction false} FilesRefused(st: Store, chunks: seq<seq<byte>>)
    requires Fits(Stow(st, MakeFile(Some(chunks))).store)
    ensures Stow(st, MakeFile(Some(chunks))).Stowed? <==> |Concat(chunks)| <= MAX_FILE_SIZE
  {
    hide Flat, Total, Finish, WriteAligned, SameBelow, Concat, WriteChunks, Fits, Ascending, Within;
    AcceptedSizes(SkipReserved(Align(st)), chunks, [], 0);
    if |Concat(chunks)| <= MAX_FILE_SIZE {
      var content := Concat(chunks);
      StowData(st, chunks);
      var w := WriteAligned(st, content);
      var pad := WriteAlignedLands(st, content);
      FinishForward(w, |content|);
      FitsBack(w.store, Finish(w, |content|).store);
      NeverTooDeep(w, |content|, content);
    }
  }

  /** The content survives whatever is written into reserved blocks if and only if none of its leaf blocks
      is one; up to 35 GiB none is. */
  ghost predicate SturdyIff(d: Disk, field: seq<byte>, content: seq<byte>, hi: nat, area: nat) {
    && (Sturdy(d, field, content, hi, area) <==> IndexFree(field, area))
    && (|content| <= SMALL ==> IndexFree(field, area))
    && GroupStarts(field, area)
  }

  ghost predicate SturdyStowed(what: What, r: Stowed, area: nat)
    requires r.Stowed?
  {
    !(what.MakeSymlink? && |what.target| < 60) ==> SturdyIff(r.store.disk, r.field, ContentOf(what), Top(r.store), area)
  }

  lemma AlignedSturdy(st: Store, content: seq<byte>, area: nat)
    requires area <= Area(st.size)
    requires var f := Finish(WriteAligned(st, content), |content|); f.Stowed? && Fits(f.store)
    requires Avoids(WriteAligned(st, content).ranges, area)
    ensures var f := Finish(WriteAligned(st, content), |content|);
            SturdyIff(f.store.disk, f.field, content, Top(f.store), area)
  {
    hide Flat, Total, Finish, WriteAligned, SameBelow, Ascending, Within, HoldsFile, Avoids, Area, SameOff, IndexFree,
         GroupStarts;
    var w := WriteAligned(st, content);
    var pad := WriteAlignedLands(st, content);
    FinishForward(w, |content|);
    var f := Finish(w, |content|);
    FitsBack(w.store, f.store);
    AreaMonotone(st.size, w.store.size);
    if IndexFree(f.field, area) {
      forall e: Disk | SameOff(f.store.disk, e, Top(f.store), area) ensures HoldsFile(e, f.field, content) {
        FinishSturdy(w, |content|, content, pad, Top(st), area, e);
      }
    }
    if Sturdy(f.store.disk, f.field, content, Top(f.store), area) {
      SturdyNeeds(f.store.disk, f.field, content, Top(f.store), area);
    }
    if |content| <= SMALL { OneBlockFree(w, |content|, content, area); }
    RunStarts(w, |content|, area);
  }

  /** What is stored with its leaf blocks outside the reserved areas, and nothing else, does not depend on
      the blocks inside them. */
  lemma StowSturdy(st: Store, what: What, area: nat)
    requires Stow(st, what).Stowed? && Fits(Stow(st, what).store) && area <= Area(st.size)
    requires !(what.MakeSymlink? && |what.target| < 60) ==> Avoids(WriteAligned(st, ContentOf(what)).ranges, area)
    ensures SturdyStowed(what, Stow(st, what), area)
  {
    hide Finish, WriteAligned, Area, Fits, WriteChunks, Concat, SkipReserved, Align, SturdyIff, Avoids;
    match what {
      case MakeDir => EmptySturdy(st, area);
      case MakeOther =>
      case MakeSymlink(target) =>
        if 60 <= |target| { AlignedSturdy(st, target, area); }
      case MakeFile(None) => EmptySturdyFile(st, area);
      case MakeFile(Some(chunks)) =>
        AcceptedSizes(SkipReserved(Align(st)), chunks, [], 0);
        StowData(st, chunks);
        AlignedSturdy(st, Concat(chunks), area);
    }
  }

  /** Where what is stored lies, and how large it can be. */
  lemma StowPlaces(st: Store, what: What)
    requires Stow(st, what).Stowed? && Fits(Stow(st, what).store)
    ensures var r := Stow(st, what);
            r.size <= MAX_IMAGE && (!(what.MakeSymlink? && |what.target| < 60) ==>
                                    Placed(r.store.disk, r.field, Top(st), Top(r.store)))
  {
    hide Finish, WriteAligned, Fits, WriteChunks, Concat, SkipReserved, Align, Placed;
    match what {
      case MakeDir => PlacedNowhere(st.disk, Top(st), Top(st));
      case MakeOther =>
      case MakeSymlink(target) =>
        if 60 <= |target| { AlignedPlaces(st, target); AlignedSize(st, target); }
      case MakeFile(None) => EmptyPlaces(st);
      case MakeFile(Some(chunks)) =>
        AcceptedSizes(SkipReserved(Align(st)), chunks, [], 0);
        StowData(st, chunks);
        AlignedPlaces(st, Concat(chunks));
        AlignedSize(st, Concat(chunks));
    }
  }

  lemma AlignedSize(st: Store, content: seq<byte>)
    requires Finish(WriteAligned(st, content), |content|).Stowed?
    ensures Finish(WriteAligned(st, content), |content|).size == |content|
  {
    hide WriteAligned;
  }

  lemma EmptyPlaces(st: Store)
    ensures var r := Stow(st, MakeFile(None));
            r.Stowed? && r.size == 0 && Placed(r.store.disk, r.field, Top(st), Top(r.store))
  {
    hide SkipReserved, Placed;
    NoExtents(SkipReserved(st), []);
    PlacedNowhere(SkipReserved(st).disk, Top(st), Top(SkipReserved(st)));
  }

  lemma EmptySturdy(st: Store, area: nat)
    ensures SturdyIff(st.disk, Zeros(60), [], Top(st), area)
  {
    hide HoldsFile, IndexFree;
    forall e: Disk ensures HoldsFile(e, Zeros(60), []) { ZeroField(e); }
    NoPointers(area, 0, 0);
  }

  lemma EmptySturdyFile(st: Store, area: nat)
    ensures var r := Stow(st, MakeFile(None)); r.Stowed? && SturdyIff(r.store.disk, r.field, [], Top(r.store), area)
  {
    hide SkipReserved, SturdyIff;
    NoExtents(SkipReserved(st), []);
    EmptySturdy(SkipReserved(st), area);
  }
}
