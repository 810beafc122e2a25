/** How far one file takes the cursor: every block outside the reserved areas can be made the last of a file,
    with runs that show where the formatter goes wrong. */
module Reaching {
  import opened Bytes
  import opened Geometry
  import opened Payload
  import opened Placement
  import opened Extents
  import opened Contents
  import opened FileTree
  import opened Fs
  import opened Pruning
  import opened Creating
  import opened Running

  /** Behind every reserved area that its group can have. */
  predicate Beyond(x: nat) { x % GROUP > ADDRESSES_PER_BLOCK }

  /** The most that can be skipped on the way from block `b` to block `x`. */
  function Skippable(b: nat, x: nat): int {
    1025 * (x / GROUP - b / GROUP) + Max(1025 - b % GROUP, 0)
  }

  lemma SkipOnce(st: Store, x: nat)
    requires st.off == 0 && st.block <= x && Beyond(x)
    ensures var s := SkipReserved(st);
            && s.off == 0 && st.block <= s.block <= x && s.disk == st.disk && s.size == st.size
            && s.block - st.block + Skippable(s.block, x) <= Skippable(st.block, x)
  {
    hide Area, HasSparse;
    var area := Area(st.size);
    ReservedEndIsNext(st.block, area);
    assert !Reserved(x, area);
    if Reserved(st.block, area) {
      var g := st.block / GROUP;
      var s := g * GROUP + 1 + area;
      assert s / GROUP == g && s % GROUP == 1 + area;
    }
  }

  lemma OneOn(b: nat, x: nat)
    requires b < x
    ensures Skippable(b + 1, x) <= Skippable(b, x)
  {
    if (b + 1) / GROUP == b / GROUP {
      assert (b + 1) % GROUP == b % GROUP + 1;
    } else {
      assert (b + 1) / GROUP == b / GROUP + 1 && (b + 1) % GROUP == 0;
    }
  }

  lemma ZeroParts(m: nat)
    requires m > 1
    ensures Zeros(m * BLOCK)[..BLOCK] == Zeros(BLOCK) && Zeros(m * BLOCK)[BLOCK..] == Zeros((m - 1) * BLOCK)
  {
  }

  /** Some number of blocks takes the cursor to right behind block `x`, and few of the blocks between are
      skipped. */
  lemma {:induction false} Reach(st: Store, ranges: seq<Range>, x: nat) returns (m: nat)
    requires st.off == 0 && st.block <= x && Beyond(x)
    ensures m > 0 && m <= x + 1 - st.block <= m + Skippable(st.block, x)
    ensures var w := WriteBytes(st, Zeros(m * BLOCK), ranges).store; w.off == 0 && w.block == x + 1
    decreases x - st.block
  {
    hide SkipReserved, Record, Skippable, Beyond, WriteBytes, PutPiece;
    var s := SkipReserved(st);
    SkipOnce(st, x);
    PutWhole(s);
    var t := PutPiece(s, Zeros(BLOCK));
    if s.block == x {
      m := 1;
      WriteOne(st, Zeros(BLOCK), ranges);
      assert Zeros(1 * BLOCK) == Zeros(BLOCK);
    } else {
      var more := Reach(t, Record(ranges, s.block), x);
      m := more + 1;
      ZeroParts(m);
      WriteMore(st, Zeros(m * BLOCK), ranges);
      OneOn(s.block, x);
    }
    SkipsCount(s.block, x);
  }

  lemma PutWhole(s: Store)
    requires s.off == 0
    ensures var t := PutPiece(s, Zeros(BLOCK)); t.off == 0 && t.block == s.block + 1
  {
  }

  lemma SkipsCount(b: nat, x: nat)
    requires b <= x
    ensures Skippable(b, x) >= 0
  {
  }

  // ----- A file whose second leaf block is reserved -----

  lemma {:induction false} LeavesAtLeast(ranges: seq<Range>)
    ensures |Leaves(ranges)| * MAX_BLOCKS_PER_EXTENT >= Total(ranges)
  {
    if ranges != [] {
      var n := |ranges| - 1;
      LeavesAtLeast(ranges[..n]);
      FillAtLeast(ranges[n].start, ranges[n].end, Total(ranges[..n]));
    }
  }

  lemma {:induction false} FillAtLeast(start: nat, end: nat, logical: nat)
    ensures |FillRange(start, end, logical)| * MAX_BLOCKS_PER_EXTENT >= end - start
    decreases end - start
  {
    if start < end {
      var len := Min(end - start, MAX_BLOCKS_PER_EXTENT);
      FillAtLeast(start + len, end, logical + len);
    }
  }

  lemma Group729()
    ensures HasSparse(729)
  {
    assert Pow(3, 3) == 27;
    assert Pow(3, 6) == 27 * Pow(3, 3);
    StripPow(3, 6);
  }

  /** A file with some content goes right under the root. */
  lemma {:induction false} RootFile(s: St, name: Name, content: seq<byte>)
    requires |s.nodes| > 0 && |name| <= 255 && Lookup(s.nodes, [name]) == None
    requires s.nodes[ROOT].inode == ROOT_INODE && InodeAt(s.inodes, ROOT_INODE).kind == Directory
    requires InodeAt(s.inodes, ROOT_INODE).links < MAX_LINKS
    requires |content| <= MAX_FILE_SIZE && Finish(WriteAligned(s.store, content), |content|).Stowed?
    ensures var f, r := Finish(WriteAligned(s.store, content), |content|),
            Create(s, [name], MakeFile(Some([content])), NoXattrs);
            && r == Insert(s, ROOT, name, MakeFile(Some([content])), NoXattrs)
            && r.error == None && r.state.store == f.store
            && r.state.inodes == s.inodes + [Inode(Regular, 1, |content|, f.field, 0, Zeros(96))]
            && r.state.nodes == AddChild(s.nodes, ROOT, Node(|s.inodes| + 1, name, [], None, f.ranges, None))
            && r.state.deleted == s.deleted
  {
    hide Lookup, Stow, FindChild, WriteAligned, Finish, AddChild;
    RootFound(s.nodes);
    OneChunk(content);
    StowData(s.store, [content]);
    FinishNames(WriteAligned(s.store, content), |content|);
    assert [name][..0] == [];
  }

  lemma {:induction false} OneChunk(content: seq<byte>)
    ensures Concat([content]) == content
  {
    assert [content][1..] == [] && Concat([]) == [];
    assert content + [] == content;
  }

  lemma FinishNames(w: Written, size: nat)
    ensures Finish(w, size).Stowed? ==> Finish(w, size).ranges == w.ranges && Finish(w, size).size == size
  {
    hide WriteExtents, SkipReserved;
  }

  /** The cursor of a new image. */
  lemma FreshStore(size: positive)
    ensures var st := Fresh(size).store;
            st.off == 0 && st.block == Area(size) + 1 && st.size == size && |Fresh(size).inodes| == 11
              && Fresh(size).deleted == []
  {
    hide Area, Good;
    var b := Blank(size);
    assert Lookup(b.nodes, [LOST_AND_FOUND]) == None;
    RootEntry(b, LOST_AND_FOUND, MakeDir);
  }

  /** A block of payload right behind which the cursor stands. */
  lemma {:induction false} FileUpTo(st: Store, x: nat) returns (content: seq<byte>)
    requires st.off == 0 && st.block <= x && Beyond(x) && x < 0x200_0000 && st.size <= MAX_IMAGE
    ensures |content| <= MAX_FILE_SIZE && content != [] && |content| % BLOCK == 0 && content == Zeros(|content|)
    ensures var w := WriteAligned(st, content);
            && w.store.off == 0 && w.store.block == x + 1 && Fits(w.store) && |w.ranges| <= 57
            && Total(w.ranges) == BlocksFor(|content|)
            && |content| / BLOCK <= x + 1 - st.block <= |content| / BLOCK + Skippable(st.block, x)
            && w.store.size == Max(st.size, (x + 1) * BLOCK)
            && Finish(w, |content|).Stowed?
  {
    hide WriteBytes, SkipReserved, Skippable, Beyond, Total, Ascending, SameBelow, Flat, Finish;
    var s := SkipReserved(st);
    SkipOnce(st, x);
    var m := Reach(s, [], x);
    content := Zeros(m * BLOCK);
    BlocksOf(m, x);
    var w := WriteBytes(s, content, []);
    WriteForward(s, content, []);
    SizeIs(s, content, []);
    var pad := WriteAlignedLands(st, content);
    NeverTooDeep(WriteAligned(st, content), |content|, content);
  }

  lemma BlocksOf(m: nat, x: nat)
    requires 0 < m <= x + 1 && x < 0x200_0000
    ensures m * BLOCK <= MAX_FILE_SIZE && (m * BLOCK) % BLOCK == 0 && m * BLOCK / BLOCK == m
  {
  }

  /** The size is that of the image or of what has been written. */
  lemma {:induction false} SizeIs(st: Store, bytes: seq<byte>, ranges: seq<Range>)
    requires bytes != []
    ensures var w := WriteBytes(st, bytes, ranges).store; w.size == Max(st.size, w.block * BLOCK + w.off)
    decreases |bytes|
  {
    hide SkipReserved, Record;
    var s := SkipReserved(st);
    SkipForward(st);
    var n := Min(BLOCK - s.off, |bytes|);
    WriteUnfold(st, bytes, ranges);
    var t := PutPiece(s, bytes[..n]);
    PutForward(s, bytes[..n]);
    if bytes[n..] == [] {
      WriteNothing(t, Record(ranges, s.block));
    } else {
      SizeIs(t, bytes[n..], Record(ranges, s.block));
      WriteForward(t, bytes[n..], Record(ranges, s.block));
      LaterEnd(t, WriteBytes(t, bytes[n..], Record(ranges, s.block)).store);
    }
  }

  lemma LaterEnd(t: Store, w: Store)
    requires Forward(t, w) && w.size == Max(t.size, w.block * BLOCK + w.off) && w.block * BLOCK + w.off <= w.size
    requires t.block < w.block || t.off <= w.off
    ensures t.block * BLOCK + t.off <= w.block * BLOCK + w.off
  {
  }

  /** One file of 91 GiB on a new image: its second leaf block is the first block of group 729, which carries a
      superblock copy, so its content does not survive a change of that block. */
  lemma LateLeafReserved(size: positive) returns (content: seq<byte>)
    requires size <= MAX_IMAGE
    ensures var r := Create(Fresh(size), [A], MakeFile(Some([content])), NoXattrs);
            && r.error == None && |content| <= MAX_FILE_SIZE
            && var ino := InodeAt(r.state.inodes, |r.state.inodes|);
            && ino.kind == Regular && PointsAt(ino.field, 729 * GROUP) && !IndexFree(ino.field, Area(size))
            && !Sturdy(r.state.store.disk, ino.field, content, Top(r.state.store), Area(size))
  {
    hide Fresh, Good, Create, Insert, Area, Lookup, Plain, Sound, WriteAligned, Finish, PointsAt, Sturdy, AddChild,
         HasSparse, Beyond, Fits, Total;
    var s, x := Fresh(size), 729 * GROUP - 2;
    FreshRoot(size);
    FreshStore(size);
    assert x % GROUP == GROUP - 2 && Beyond(x) by { EndOfGroup(729); }
    content := FileUpTo(s.store, x);
    RootFile(s, A, content);
    var w := WriteAligned(s.store, content);
    var f := Finish(w, |content|);
    TwoLeafBlocks(w, |content|, s.store.block, x);
    Group729();
    assert (729 * GROUP) / GROUP == 729 && (729 * GROUP) % GROUP == 0;
    ReservedLeaf(f.store.disk, f.field, content, Top(f.store), Area(size), 729 * GROUP);
  }

  lemma EndOfGroup(g: nat)
    requires g > 0
    ensures (g * GROUP - 2) % GROUP == GROUP - 2 && Beyond(g * GROUP - 2)
  {
    assert g * GROUP - 2 == (g - 1) * GROUP + (GROUP - 2);
  }

  lemma TwoLeafBlocks(w: Written, n: nat, from: nat, x: nat)
    requires x == 729 * GROUP - 2 && w.store.off == 0 && w.store.block == x + 1 && from <= 1025 && Finish(w, n).Stowed?
    requires Total(w.ranges) == BlocksFor(n) && n % BLOCK == 0 && x + 1 - from <= n / BLOCK + Skippable(from, x)
    ensures PointsAt(Finish(w, n).field, 729 * GROUP)
  {
    hide WriteExtents, Leaves, PointsAt, Total, Area, HasSparse;
    var st := SkipReserved(w.store);
    LastOfGroup(w.store);
    LeavesAtLeast(w.ranges);
    ManyBlocks(n, from, x);
    TreeBlocks(st, w.ranges);
    FieldPointers(st, w.ranges, 729 * GROUP);
  }

  lemma LastOfGroup(st: Store)
    requires st.off == 0 && st.block == 729 * GROUP - 1
    ensures SkipReserved(st) == st
  {
    hide Area, HasSparse;
    assert st.block == 728 * GROUP + 32767;
    assert st.block % GROUP == 32767;
  }

  lemma ManyBlocks(n: nat, from: nat, x: nat)
    requires x == 729 * GROUP - 2 && from <= 1025 && n % BLOCK == 0 && x + 1 - from <= n / BLOCK + Skippable(from, x)
    ensures BlocksFor(n) > 340 * 32768
  {
    assert x / GROUP == 728;
  }

  lemma {:induction false} TreeBlocks(st: Store, ranges: seq<Range>)
    requires Total(ranges) > 340 * 32768 && |Leaves(ranges)| * MAX_BLOCKS_PER_EXTENT >= Total(ranges)
    ensures var r := WriteExtents(st, ranges, Zeros(60)); r.Extents? ==> st.block + 2 <= r.store.block <= st.block + 4
  {
    hide Leaves, Total, Extents.Node, PutLeafBlocks, IndexNode;
  }
}
