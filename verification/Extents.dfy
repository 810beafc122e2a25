/** Extent trees: the map from a file's logical blocks to block ranges, as bytes in the inode and,
    past four extents, in index blocks of their own. */
module Extents {
  import opened Bytes
  import opened Geometry
  import opened Payload
  import opened Placement

  const MAX_BLOCKS_PER_EXTENT: nat := 0x8000
  const EXTENT_HEADER_MAGIC: nat := 0xF30A
  const LEAVES_PER_BLOCK: nat := 340   // (4096 - 12 - 4) / 12
  const INODE_BLOCK_SIZE: nat := 60

  datatype Leaf = Leaf(block: nat, len: nat, start: nat)

  // ----- Leaves -----

  /** One range cut into leaves of at most 32768 blocks, numbered logically from `logical`. */
  function FillRange(start: nat, end: nat, logical: nat): seq<Leaf>
    decreases end - start
  {
    if start >= end then []
    else
      var len := Min(end - start, MAX_BLOCKS_PER_EXTENT);
      [Leaf(logical, len, start)] + FillRange(start + len, end, logical + len)
  }

  function Leaves(ranges: seq<Range>): seq<Leaf> {
    if ranges == [] then []
    else
      var n := |ranges| - 1;
      Leaves(ranges[..n]) + FillRange(ranges[n].start, ranges[n].end, Total(ranges[..n]))
  }

  function LeafRanges(leaves: seq<Leaf>): (r: seq<Range>)
    ensures |r| == |leaves|
    ensures forall i :: 0 <= i < |leaves| ==> r[i] == Range(leaves[i].start, leaves[i].start + leaves[i].len)
  {
    seq(|leaves|, i requires 0 <= i < |leaves| => Range(leaves[i].start, leaves[i].start + leaves[i].len))
  }

  // ----- Records of twelve bytes -----

  function Header(entries: nat, max: nat, depth: nat): (b: seq<byte>)
    ensures |b| == 12
  {
    LE(EXTENT_HEADER_MAGIC, 2) + LE(entries, 2) + LE(max, 2) + LE(depth, 2) + LE(0, 4)
  }

  function LeafBytes(l: Leaf): (b: seq<byte>)
    ensures |b| == 12
  {
    LE(l.block, 4) + LE(l.len, 2) + LE(0, 2) + LE(l.start, 4)
  }

  function IndexBytes(logical: nat, leafBlock: nat): (b: seq<byte>)
    ensures |b| == 12
  {
    LE(logical, 4) + LE(leafBlock, 4) + LE(0, 2) + LE(0, 2)
  }

  function LeavesBytes(leaves: seq<Leaf>): (b: seq<byte>)
    ensures |b| == 12 * |leaves|
  {
    if leaves == [] then [] else LeavesBytes(leaves[..|leaves| - 1]) + LeafBytes(leaves[|leaves| - 1])
  }

  // ----- Writing -----

  function Node(leaves: seq<Leaf>, max: nat, size: nat): (b: seq<byte>)
    requires 12 + 12 * |leaves| <= size
    ensures |b| == size
  {
    Header(|leaves|, max, 0) + LeavesBytes(leaves) + Zeros(size - 12 - 12 * |leaves|)
  }

  /** The leaves that go into index block `i`. */
  function Slice(leaves: seq<Leaf>, i: nat): seq<Leaf>
    requires i * LEAVES_PER_BLOCK <= |leaves|
  {
    leaves[i * LEAVES_PER_BLOCK..Min((i + 1) * LEAVES_PER_BLOCK, |leaves|)]
  }

  function IndexBlocks(n: nat): nat { (n + LEAVES_PER_BLOCK - 1) / LEAVES_PER_BLOCK }

  /** The image with the first `k` leaf blocks written from block `at` on. */
  function PutLeafBlocks(d: Disk, leaves: seq<Leaf>, at: nat, k: nat): Disk
    requires k <= IndexBlocks(|leaves|)
  {
    if k == 0 then d
    else
      PutLeafBlocks(d, leaves, at, k - 1)[at + k - 1 := Node(Slice(leaves, k - 1), LEAVES_PER_BLOCK, 4096)]
  }

  function IndexEntries(leaves: seq<Leaf>, at: nat, k: nat): (b: seq<byte>)
    requires k <= IndexBlocks(|leaves|)
    ensures |b| == 12 * k
  {
    if k == 0 then []
    else IndexEntries(leaves, at, k - 1) + IndexBytes(leaves[(k - 1) * LEAVES_PER_BLOCK].block, at + k - 1)
  }

  /** The block field of a file with `k` leaf blocks from block `at` on. */
  function IndexNode(leaves: seq<Leaf>, at: nat, k: nat): (b: seq<byte>)
    requires k <= IndexBlocks(|leaves|) && k <= 4
    ensures |b| == INODE_BLOCK_SIZE
  {
    Header(k, 4, 1) + IndexEntries(leaves, at, k) + Zeros(INODE_BLOCK_SIZE - 12 - 12 * k)
  }

  datatype ExtentResult = Extents(store: Store, field: seq<byte>) | TooManyExtents

  /** Build the inode's 60-byte block field. Up to four leaves go straight into it; more go into
      leaf blocks written at the cursor, with up to four index entries in the field. A fifth index
      entry would not fit, and is asserted never to come up. */
  function WriteExtents(st: Store, ranges: seq<Range>, field: seq<byte>): ExtentResult {
    var leaves := Leaves(ranges);
    var k := IndexBlocks(|leaves|);
    if Total(ranges) == 0 then Extents(st, field)
    else if |leaves| <= 4 then Extents(st, Node(leaves, 4, INODE_BLOCK_SIZE))
    else if k > 4 then TooManyExtents
    else
      Extents(st.(disk := PutLeafBlocks(st.disk, leaves, st.block, k), block := st.block + k, off := 0),
              IndexNode(leaves, st.block, k))
  }

  // ----- Parsing -----

  datatype ParseResult = Ranges(ranges: seq<Range>) | InvalidExtents | DeepExtentsUnsupported

  /** The first `n` leaf records of a tree node. */
  function ParseLeaves(buf: seq<byte>, n: nat): ParseResult {
    if n == 0 then Ranges([])
    else
      var p := ParseLeaves(buf, n - 1);
      var off := 12 * n;
      if !p.Ranges? then p
      else if off + 12 > |buf| then InvalidExtents
      else
        var start := Field(buf, off + 8, 4);
        Ranges(p.ranges + [Range(start, start + Field(buf, off + 4, 2))])
  }

  /** The leaves of the first `n` index entries, read from the blocks they point to. */
  function ParseIndex(d: Disk, field: seq<byte>, n: nat): ParseResult {
    if n == 0 then Ranges([])
    else
      var p := ParseIndex(d, field, n - 1);
      var off := 12 * n;
      if !p.Ranges? then p
      else if off + 12 > |field| then InvalidExtents
      else
        var buf := BlockAt(d, Field(field, off + 4, 4) + 0x1_0000_0000 * Field(field, off + 8, 2));
        if Field(buf, 0, 2) != EXTENT_HEADER_MAGIC || Field(buf, 6, 2) != 0 then InvalidExtents
        else
          var q := ParseLeaves(buf, Field(buf, 2, 2));
          if q.Ranges? then Ranges(p.ranges + q.ranges) else q
  }

  function ParseExtents(d: Disk, field: seq<byte>): ParseResult
    requires |field| == INODE_BLOCK_SIZE
  {
    if Field(field, 0, 2) != EXTENT_HEADER_MAGIC then Ranges([])
    else if Field(field, 6, 2) == 0 then ParseLeaves(field, Field(field, 2, 2))
    else if Field(field, 6, 2) == 1 then ParseIndex(d, field, Field(field, 2, 2))
    else DeepExtentsUnsupported
  }

  // ----- The leaves cover the ranges -----

  ghost predicate LeafSane(l: Leaf) {
    1 <= l.len <= MAX_BLOCKS_PER_EXTENT && l.start + l.len <= 0x1_0000_0000
  }

  ghost predicate AllSane(leaves: seq<Leaf>) {
    forall i :: 0 <= i < |leaves| ==> LeafSane(leaves[i])
  }

  /** Each leaf starts, logically, where the leaves before it end. */
  ghost predicate Numbered(leaves: seq<Leaf>, from: nat) {
    leaves == [] || (leaves[0].block == from && Numbered(leaves[1..], from + leaves[0].len))
  }

  ghost function LengthSum(leaves: seq<Leaf>): nat {
    if leaves == [] then 0 else leaves[0].len + LengthSum(leaves[1..])
  }

  lemma {:induction false} FillSane(start: nat, end: nat, logical: nat)
    requires end <= 0x1_0000_0000
    ensures AllSane(FillRange(start, end, logical))
    decreases end - start
  {
    if start < end {
      var len := Min(end - start, MAX_BLOCKS_PER_EXTENT);
      FillSane(start + len, end, logical + len);
    }
  }

  lemma {:induction false} FillNumbered(start: nat, end: nat, logical: nat)
    ensures Numbered(FillRange(start, end, logical), logical)
    ensures LengthSum(FillRange(start, end, logical)) == Max(end - start, 0)
    decreases end - start
  {
    if start < end {
      var len := Min(end - start, MAX_BLOCKS_PER_EXTENT);
      FillNumbered(start + len, end, logical + len);
      assert FillRange(start, end, logical)[1..] == FillRange(start + len, end, logical + len);
    }
  }

  lemma {:induction false} FillCount(start: nat, end: nat, logical: nat)
    ensures |FillRange(start, end, logical)| <= Max(end - start, 0) / MAX_BLOCKS_PER_EXTENT + 1
    ensures start < end ==> |FillRange(start, end, logical)| >= 1
    decreases end - start
  {
    if start < end {
      var len := Min(end - start, MAX_BLOCKS_PER_EXTENT);
      FillCount(start + len, end, logical + len);
      if len == end - start {
        assert FillRange(start + len, end, logical + len) == [];
      } else {
        assert (end - start) / MAX_BLOCKS_PER_EXTENT == (end - start - len) / MAX_BLOCKS_PER_EXTENT + 1;
      }
    }
  }

  lemma {:induction false} NumberedAppend(a: seq<Leaf>, b: seq<Leaf>, from: nat)
    requires Numbered(a, from) && Numbered(b, from + LengthSum(a))
    ensures Numbered(a + b, from) && LengthSum(a + b) == LengthSum(a) + LengthSum(b)
  {
    if a == [] {
      assert a + b == b;
    } else {
      assert (a + b)[1..] == a[1..] + b;
      NumberedAppend(a[1..], b, from + a[0].len);
    }
  }

  /** The leaves number the file's blocks contiguously from 0. */
  lemma {:induction false} LeavesNumbered(ranges: seq<Range>)
    ensures Numbered(Leaves(ranges), 0) && LengthSum(Leaves(ranges)) == Total(ranges)
  {
    if ranges != [] {
      var n := |ranges| - 1;
      LeavesNumbered(ranges[..n]);
      FillNumbered(ranges[n].start, ranges[n].end, Total(ranges[..n]));
      NumberedAppend(Leaves(ranges[..n]), FillRange(ranges[n].start, ranges[n].end, Total(ranges[..n])), 0);
    }
  }

  lemma {:induction false} LeavesSane(ranges: seq<Range>, lo: nat)
    requires Within(ranges, lo, 0x1_0000_0000)
    ensures AllSane(Leaves(ranges))
  {
    if ranges != [] {
      var n := |ranges| - 1;
      LeavesSane(ranges[..n], lo);
      FillSane(ranges[n].start, ranges[n].end, Total(ranges[..n]));
    }
  }

  lemma {:induction false} FillInside(start: nat, end: nat, logical: nat, lo: nat, hi: nat)
    requires lo <= start && end <= hi
    ensures Within(LeafRanges(FillRange(start, end, logical)), lo, hi)
    decreases end - start
  {
    if start < end {
      var len := Min(end - start, MAX_BLOCKS_PER_EXTENT);
      FillInside(start + len, end, logical + len, lo, hi);
      var rest := FillRange(start + len, end, logical + len);
      var all := LeafRanges([Leaf(logical, len, start)] + rest);
      forall i | 0 <= i < |all| ensures lo <= all[i].start && all[i].end <= hi {
        if i > 0 { assert all[i] == LeafRanges(rest)[i - 1]; }
      }
    }
  }

  /** The leaves stay inside the ranges they are cut from. */
  lemma {:induction false} CutInside(ranges: seq<Range>, lo: nat, hi: nat)
    requires Within(ranges, lo, hi)
    ensures Within(CutRanges(ranges), lo, hi)
  {
    hide FillRange;
    if ranges != [] {
      var n := |ranges| - 1;
      CutInside(ranges[..n], lo, hi);
      FillInside(ranges[n].start, ranges[n].end, Total(ranges[..n]), lo, hi);
      var a, b := Leaves(ranges[..n]), FillRange(ranges[n].start, ranges[n].end, Total(ranges[..n]));
      var all := LeafRanges(a + b);
      forall i | 0 <= i < |all| ensures lo <= all[i].start && all[i].end <= hi {
        if i < |a| { assert all[i] == LeafRanges(a)[i]; } else { assert all[i] == LeafRanges(b)[i - |a|]; }
      }
    }
  }

  /** A file of so many blocks in so many ranges needs at most this many leaves. */
  lemma {:induction false} LeafCount(ranges: seq<Range>)
    ensures |Leaves(ranges)| <= Total(ranges) / MAX_BLOCKS_PER_EXTENT + |ranges|
  {
    if ranges != [] {
      var n := |ranges| - 1;
      LeafCount(ranges[..n]);
      var t, l := Total(ranges[..n]), Max(ranges[n].end - ranges[n].start, 0);
      FillCount(ranges[n].start, ranges[n].end, t);
      assert t / MAX_BLOCKS_PER_EXTENT + l / MAX_BLOCKS_PER_EXTENT <= (t + l) / MAX_BLOCKS_PER_EXTENT;
    }
  }

  // ----- Cutting ranges into leaves does not change the file -----

  lemma {:induction false} FlatRangeSplit(d: Disk, start: nat, mid: nat, end: nat)
    requires start <= mid <= end
    ensures FlatRange(d, start, end) == FlatRange(d, start, mid) + FlatRange(d, mid, end)
    decreases end
  {
    if mid < end {
      FlatRangeSplit(d, start, mid, end - 1);
      Assoc(FlatRange(d, start, mid), FlatRange(d, mid, end - 1), BlockAt(d, end - 1));
    }
  }

  lemma {:induction false} FlatAppend(d: Disk, a: seq<Range>, b: seq<Range>)
    ensures Flat(d, a + b) == Flat(d, a) + Flat(d, b)
    decreases |b|
  {
    if b == [] {
      assert a + b == a;
    } else {
      var n := |b| - 1;
      assert a + b == (a + b[..n]) + [b[n]];
      FlatSnoc(d, a + b[..n], b[n]);
      FlatAppend(d, a, b[..n]);
      Assoc(Flat(d, a), Flat(d, b[..n]), FlatRange(d, b[n].start, b[n].end));
    }
  }

  lemma LeafRangesAppend(a: seq<Leaf>, b: seq<Leaf>)
    ensures LeafRanges(a + b) == LeafRanges(a) + LeafRanges(b)
  {
  }

  lemma {:induction false} FlatSingle(d: Disk, r: Range)
    ensures Flat(d, [r]) == FlatRange(d, r.start, r.end)
  {
    FlatSnoc(d, [], r);
    assert [] + [r] == [r];
    assert Flat(d, []) == [];
  }

  lemma {:induction false} FillFlat(d: Disk, start: nat, end: nat, logical: nat)
    ensures Flat(d, LeafRanges(FillRange(start, end, logical))) == FlatRange(d, start, end)
    decreases end - start
  {
    if start < end {
      var len := Min(end - start, MAX_BLOCKS_PER_EXTENT);
      var one, rest := [Leaf(logical, len, start)], FillRange(start + len, end, logical + len);
      var r := Range(start, start + len);
      calc {
        Flat(d, LeafRanges(one + rest));
        { LeafRangesAppend(one, rest); assert LeafRanges(one) == [r]; }
        Flat(d, [r] + LeafRanges(rest));
        { FlatAppend(d, [r], LeafRanges(rest)); FlatSingle(d, r); }
        FlatRange(d, start, start + len) + Flat(d, LeafRanges(rest));
        { FillFlat(d, start + len, end, logical + len); }
        FlatRange(d, start, start + len) + FlatRange(d, start + len, end);
        { FlatRangeSplit(d, start, start + len, end); }
        FlatRange(d, start, end);
      }
    }
  }

  /** The leaves, read back to back, are the file the ranges hold. */
  lemma {:induction false} LeavesFlat(d: Disk, ranges: seq<Range>)
    ensures Flat(d, LeafRanges(Leaves(ranges))) == Flat(d, ranges)
  {
    if ranges != [] {
      var n := |ranges| - 1;
      var init, last := ranges[..n], ranges[n];
      var a, b := Leaves(init), FillRange(last.start, last.end, Total(init));
      calc {
        Flat(d, LeafRanges(a + b));
        { LeafRangesAppend(a, b); FlatAppend(d, LeafRanges(a), LeafRanges(b)); }
        Flat(d, LeafRanges(a)) + Flat(d, LeafRanges(b));
        { LeavesFlat(d, init); FillFlat(d, last.start, last.end, Total(init)); }
        Flat(d, init) + FlatRange(d, last.start, last.end);
      }
    }
  }

  // ----- Round trip -----

  lemma {:induction false} HeaderParts(entries: nat, max: nat, depth: nat)
    ensures var h := Header(entries, max, depth);
            h[0..2] == LE(EXTENT_HEADER_MAGIC, 2) && h[2..4] == LE(entries, 2) && h[6..8] == LE(depth, 2)
  {
    hide LE;
  }

  lemma HeaderFields(buf: seq<byte>, entries: nat, max: nat, depth: nat)
    requires |buf| >= 12 && buf[..12] == Header(entries, max, depth) && entries < 0x1_0000 && depth < 0x1_0000
    ensures Field(buf, 0, 2) == EXTENT_HEADER_MAGIC
    ensures Field(buf, 2, 2) == entries
    ensures Field(buf, 6, 2) == depth
  {
    hide Field, LE;
    var h := Header(entries, max, depth);
    HeaderParts(entries, max, depth);
    assert buf[0..12] == h;
    SliceVia(buf, 0, 12, h, 0, 2, LE(EXTENT_HEADER_MAGIC, 2));
    SliceVia(buf, 0, 12, h, 2, 4, LE(entries, 2));
    SliceVia(buf, 0, 12, h, 6, 8, LE(depth, 2));
    FieldRead(buf, 0, 2, EXTENT_HEADER_MAGIC);
    FieldRead(buf, 2, 2, entries);
    FieldRead(buf, 6, 2, depth);
  }

  lemma LeafParts(l: Leaf)
    ensures LeafBytes(l)[4..6] == LE(l.len, 2) && LeafBytes(l)[8..12] == LE(l.start, 4)
  {
  }

  lemma LeafFields(buf: seq<byte>, off: nat, l: Leaf)
    requires off + 12 <= |buf| && buf[off..off + 12] == LeafBytes(l) && LeafSane(l)
    ensures Field(buf, off + 8, 4) == l.start && Field(buf, off + 4, 2) == l.len
  {
    LeafParts(l);
    SliceVia(buf, off, off + 12, LeafBytes(l), 4, 6, LE(l.len, 2));
    SliceVia(buf, off, off + 12, LeafBytes(l), 8, 12, LE(l.start, 4));
    FieldRead(buf, off + 4, 2, l.len);
    FieldRead(buf, off + 8, 4, l.start);
  }

  lemma {:induction false} LeafAt(leaves: seq<Leaf>, i: nat)
    requires i < |leaves|
    ensures LeavesBytes(leaves)[12 * i..12 * i + 12] == LeafBytes(leaves[i])
  {
    var n := |leaves| - 1;
    if i < n {
      LeafAt(leaves[..n], i);
      assert LeavesBytes(leaves)[..12 * n] == LeavesBytes(leaves[..n]);
      SubSlice(LeavesBytes(leaves), 0, 12 * n, 12 * i, 12 * i + 12);
    }
  }

  lemma {:induction false} LeafRecord(buf: seq<byte>, leaves: seq<Leaf>, i: nat)
    requires i < |leaves| && AllSane(leaves)
    requires 12 + 12 * |leaves| <= |buf| && buf[12..12 + 12 * |leaves|] == LeavesBytes(leaves)
    ensures Field(buf, 12 * i + 20, 4) == leaves[i].start && Field(buf, 12 * i + 16, 2) == leaves[i].len
  {
    LeafSlice(buf, leaves, i);
    LeafFields(buf, 12 * i + 12, leaves[i]);
  }

  lemma {:induction false} LeafSlice(buf: seq<byte>, leaves: seq<Leaf>, i: nat)
    requires i < |leaves|
    requires 12 + 12 * |leaves| <= |buf| && buf[12..12 + 12 * |leaves|] == LeavesBytes(leaves)
    ensures buf[12 * i + 12..12 * i + 24] == LeafBytes(leaves[i])
  {
    hide LeavesBytes, LeafBytes;
    LeafAt(leaves, i);
    SliceVia(buf, 12, 12 + 12 * |leaves|, LeavesBytes(leaves), 12 * i, 12 * i + 12, LeafBytes(leaves[i]));
  }

  lemma LeafRangesTake(leaves: seq<Leaf>, n: nat)
    requires 1 <= n <= |leaves|
    ensures LeafRanges(leaves[..n]) ==
            LeafRanges(leaves[..n - 1]) + [Range(leaves[n - 1].start, leaves[n - 1].start + leaves[n - 1].len)]
  {
  }

  /** A node's leaf records read back as the ranges written. */
  lemma {:induction false} ParseLeavesBack(buf: seq<byte>, leaves: seq<Leaf>, n: nat)
    requires n <= |leaves| && AllSane(leaves)
    requires 12 + 12 * |leaves| <= |buf| && buf[12..12 + 12 * |leaves|] == LeavesBytes(leaves)
    ensures ParseLeaves(buf, n) == Ranges(LeafRanges(leaves[..n]))
  {
    hide LeavesBytes, LeafRanges, AllSane, Field;
    if n == 0 {
      ParseNothing(map[], buf, leaves);
    } else {
      ParseLeavesBack(buf, leaves, n - 1);
      LeafRecord(buf, leaves, n - 1);
      LeafRangesTake(leaves, n);
    }
  }

  lemma {:induction false} NodeParts(leaves: seq<Leaf>, max: nat, size: nat)
    requires 12 + 12 * |leaves| <= size
    ensures var b := Node(leaves, max, size);
            b[..12] == Header(|leaves|, max, 0) && b[12..12 + 12 * |leaves|] == LeavesBytes(leaves)
  {
    MiddleSlice(Header(|leaves|, max, 0), LeavesBytes(leaves), Zeros(size - 12 - 12 * |leaves|));
  }

  lemma ParseNode(leaves: seq<Leaf>, max: nat, size: nat)
    requires 12 + 12 * |leaves| <= size && AllSane(leaves) && |leaves| < 0x1_0000
    ensures var b := Node(leaves, max, size);
            && Field(b, 0, 2) == EXTENT_HEADER_MAGIC && Field(b, 6, 2) == 0
            && ParseLeaves(b, Field(b, 2, 2)) == Ranges(LeafRanges(leaves))
  {
    var b := Node(leaves, max, size);
    NodeParts(leaves, max, size);
    HeaderFields(b, |leaves|, max, 0);
    ParseLeavesBack(b, leaves, |leaves|);
    assert leaves[..|leaves|] == leaves;
  }

  lemma {:induction false} IndexEntryAt(leaves: seq<Leaf>, at: nat, k: nat, i: nat)
    requires i < k <= IndexBlocks(|leaves|)
    ensures IndexEntries(leaves, at, k)[12 * i..12 * i + 12] == IndexBytes(leaves[i * LEAVES_PER_BLOCK].block, at + i)
  {
    if i < k - 1 {
      IndexEntryAt(leaves, at, k - 1, i);
      var e := IndexEntries(leaves, at, k);
      assert e[..12 * (k - 1)] == IndexEntries(leaves, at, k - 1);
      SubSlice(e, 0, 12 * (k - 1), 12 * i, 12 * i + 12);
    }
  }

  lemma {:induction false} IndexParts(logical: nat, leafBlock: nat)
    ensures IndexBytes(logical, leafBlock)[4..8] == LE(leafBlock, 4)
    ensures IndexBytes(logical, leafBlock)[8..10] == LE(0, 2)
  {
  }

  /** Index entry `i` points to leaf block `i`. */
  lemma {:induction false} IndexRecord(field: seq<byte>, leaves: seq<Leaf>, at: nat, k: nat, i: nat)
    requires i < k <= IndexBlocks(|leaves|) && at + k <= 0x1_0000_0000
    requires 12 + 12 * k <= |field| && field[12..12 + 12 * k] == IndexEntries(leaves, at, k)
    ensures Field(field, 12 * i + 16, 4) == at + i && Field(field, 12 * i + 20, 2) == 0
  {
    hide IndexEntries, IndexBytes, LE, Field;
    var logical := leaves[i * LEAVES_PER_BLOCK].block;
    IndexEntryAt(leaves, at, k, i);
    var rec := IndexBytes(logical, at + i);
    SliceVia(field, 12, 12 + 12 * k, IndexEntries(leaves, at, k), 12 * i, 12 * i + 12, rec);
    IndexParts(logical, at + i);
    SliceVia(field, 12 * i + 12, 12 * i + 24, rec, 4, 8, LE(at + i, 4));
    SliceVia(field, 12 * i + 12, 12 * i + 24, rec, 8, 10, LE(0, 2));
    FieldRead(field, 12 * i + 16, 4, at + i);
    FieldRead(field, 12 * i + 20, 2, 0);
  }

  lemma {:induction false} LeafBlocksAt(d: Disk, leaves: seq<Leaf>, at: nat, k: nat, b: nat)
    requires k <= IndexBlocks(|leaves|)
    ensures BlockAt(PutLeafBlocks(d, leaves, at, k), b) ==
            if at <= b < at + k then Node(Slice(leaves, b - at), LEAVES_PER_BLOCK, 4096) else BlockAt(d, b)
  {
    hide Node;
    if k > 0 { LeafBlocksAt(d, leaves, at, k - 1, b); }
  }

  lemma SliceSane(leaves: seq<Leaf>, i: nat)
    requires i * LEAVES_PER_BLOCK <= |leaves| && AllSane(leaves)
    ensures AllSane(Slice(leaves, i)) && |Slice(leaves, i)| <= LEAVES_PER_BLOCK
  {
  }

  lemma TakeSlice(leaves: seq<Leaf>, i: nat)
    requires i * LEAVES_PER_BLOCK < |leaves|
    ensures leaves[..Min((i + 1) * LEAVES_PER_BLOCK, |leaves|)] == leaves[..i * LEAVES_PER_BLOCK] + Slice(leaves, i)
  {
  }

  ghost predicate LeafBlocksStand(d: Disk, leaves: seq<Leaf>, at: nat, k: nat)
    requires k <= IndexBlocks(|leaves|)
  {
    forall i {:trigger Slice(leaves, i)} :: 0 <= i < k ==>
      BlockAt(d, at + i) == Node(Slice(leaves, i), LEAVES_PER_BLOCK, 4096)
  }

  lemma {:induction false} ParseNothing(d: Disk, buf: seq<byte>, leaves: seq<Leaf>)
    ensures ParseIndex(d, buf, 0) == ParseLeaves(buf, 0) == Ranges(LeafRanges(leaves[..0]))
  {
  }

  lemma ParseIndexStep(d: Disk, field: seq<byte>, n: nat, b: nat, p: seq<Range>, q: seq<Range>)
    requires n > 0 && 12 * n + 12 <= |field| && ParseIndex(d, field, n - 1) == Ranges(p)
    requires Field(field, 12 * n + 4, 4) == b && Field(field, 12 * n + 8, 2) == 0
    requires Field(BlockAt(d, b), 0, 2) == EXTENT_HEADER_MAGIC && Field(BlockAt(d, b), 6, 2) == 0
    requires ParseLeaves(BlockAt(d, b), Field(BlockAt(d, b), 2, 2)) == Ranges(q)
    ensures ParseIndex(d, field, n) == Ranges(p + q)
  {
  }

  lemma {:induction false} ParseIndexBack(d: Disk, field: seq<byte>, leaves: seq<Leaf>, at: nat, k: nat, n: nat)
    requires n <= k <= IndexBlocks(|leaves|) && at + k <= 0x1_0000_0000 && AllSane(leaves)
    requires 12 + 12 * k <= |field| && field[12..12 + 12 * k] == IndexEntries(leaves, at, k)
    requires LeafBlocksStand(d, leaves, at, k)
    ensures ParseIndex(d, field, n) == Ranges(LeafRanges(leaves[..Min(n * LEAVES_PER_BLOCK, |leaves|)]))
  {
    hide Node, IndexEntries, LeafRanges, ParseIndex, ParseLeaves, Field, BlockAt, Slice, AllSane;
    if n == 0 {
      ParseNothing(d, field, leaves);
    } else {
      var i := n - 1;
      ParseIndexBack(d, field, leaves, at, k, i);
      IndexRecord(field, leaves, at, k, i);
      var part, before := Slice(leaves, i), leaves[..i * LEAVES_PER_BLOCK];
      SliceSane(leaves, i);
      ParseNode(part, LEAVES_PER_BLOCK, 4096);
      TakeSlice(leaves, i);
      LeafRangesAppend(before, part);
      ParseIndexStep(d, field, n, at + i, LeafRanges(before), LeafRanges(part));
    }
  }

  /** What the extent tree of a file reads back as: its ranges, cut at 32768 blocks. */
  function CutRanges(ranges: seq<Range>): seq<Range> { LeafRanges(Leaves(ranges)) }

  lemma {:induction false} ParseDepthOne(d: Disk, field: seq<byte>, k: nat)
    requires |field| == 60 && field[..12] == Header(k, 4, 1) && k <= 4
    ensures ParseExtents(d, field) == ParseIndex(d, field, k)
  {
    HeaderFields(field, k, 4, 1);
  }

  lemma {:induction false} IndexNodeParts(leaves: seq<Leaf>, at: nat, k: nat)
    requires k <= IndexBlocks(|leaves|) && k <= 4
    ensures var b := IndexNode(leaves, at, k);
            b[..12] == Header(k, 4, 1) && b[12..12 + 12 * k] == IndexEntries(leaves, at, k)
  {
    hide Header, IndexEntries;
    MiddleSlice(Header(k, 4, 1), IndexEntries(leaves, at, k), Zeros(INODE_BLOCK_SIZE - 12 - 12 * k));
  }

  lemma {:induction false} IndexedRoundTrip(st: Store, d: Disk, ranges: seq<Range>, lo: nat)
    requires Within(ranges, lo, st.block) && 4 < |Leaves(ranges)| <= 4 * LEAVES_PER_BLOCK
    requires st.block + IndexBlocks(|Leaves(ranges)|) <= 0x1_0000_0000
    requires LeafBlocksStand(d, Leaves(ranges), st.block, IndexBlocks(|Leaves(ranges)|))
    ensures ParseExtents(d, IndexNode(Leaves(ranges), st.block, IndexBlocks(|Leaves(ranges)|)))
            == Ranges(CutRanges(ranges))
  {
    hide Header, IndexEntries, Leaves, LeafRanges, Node, IndexNode, ParseExtents, ParseIndex, AllSane;
    var leaves := Leaves(ranges);
    var k := IndexBlocks(|leaves|);
    var field := IndexNode(leaves, st.block, k);
    LeavesSane(ranges, lo);
    IndexNodeParts(leaves, st.block, k);
    ParseDepthOne(d, field, k);
    ParseIndexBack(d, field, leaves, st.block, k, k);
    assert leaves[..|leaves|] == leaves;
  }

  /** Writing an extent tree moves only forward. */
  lemma {:induction false} ExtentsForward(st: Store, ranges: seq<Range>, field: seq<byte>)
    requires |field| == 60 && st.off == 0
    ensures var r := WriteExtents(st, ranges, field);
            && (r.TooManyExtents? <==> Total(ranges) > 0 && |Leaves(ranges)| > 4 * LEAVES_PER_BLOCK)
            && (r.Extents? ==> |r.field| == 60 && Forward(st, r.store) && r.store.size == st.size && r.store.off == 0)
  {
    hide Node, Leaves, IndexNode, Total;
    var leaves := Leaves(ranges);
    var k := IndexBlocks(|leaves|);
    if |leaves| > 4 && k <= 4 {
      var put := PutLeafBlocks(st.disk, leaves, st.block, k);
      forall b | 0 <= b < st.block ensures BlockAt(put, b) == BlockAt(st.disk, b) {
        LeafBlocksAt(st.disk, leaves, st.block, k, b);
      }
    }
  }

  /** Round trip: the block field written for a file parses back to the file's ranges, on the image
      as the writer left it and on every later image that keeps the blocks below the cursor. */
  lemma {:induction false} ExtentsRoundTrip(st: Store, ranges: seq<Range>, lo: nat, d: Disk)
    requires Within(ranges, lo, st.block) && Total(ranges) > 0 && st.block <= 0x1_0000_0000
    requires WriteExtents(st, ranges, Zeros(60)).Extents?
    requires WriteExtents(st, ranges, Zeros(60)).store.block <= 0x1_0000_0000
    requires var r := WriteExtents(st, ranges, Zeros(60)).store;
             forall b :: st.block <= b < r.block ==> BlockAt(r.disk, b) == BlockAt(d, b)
    ensures var r := WriteExtents(st, ranges, Zeros(60));
            |r.field| == 60 && ParseExtents(d, r.field) == Ranges(CutRanges(ranges))
  {
    hide Node, Leaves, LeafRanges, IndexNode, Total;
    var leaves := Leaves(ranges);
    var k := IndexBlocks(|leaves|);
    LeavesSane(ranges, lo);
    if |leaves| <= 4 {
      ParseNode(leaves, 4, 60);
    } else {
      forall i {:trigger Slice(leaves, i)} | 0 <= i < k
        ensures BlockAt(d, st.block + i) == Node(Slice(leaves, i), LEAVES_PER_BLOCK, 4096)
      {
        LeafBlocksAt(st.disk, leaves, st.block, k, st.block + i);
      }
      IndexedRoundTrip(st, d, ranges, lo);
    }
  }

  // ----- The leaf blocks that a block field points at -----

  /** Where index entry `n`, counted from 1, points. */
  function Pointer(field: seq<byte>, n: nat): nat
    requires 12 * n + 12 <= |field|
  {
    Field(field, 12 * n + 4, 4) + 0x1_0000_0000 * Field(field, 12 * n + 8, 2)
  }

  ghost predicate PointsAt(field: seq<byte>, x: nat) {
    && |field| == INODE_BLOCK_SIZE && Field(field, 0, 2) == EXTENT_HEADER_MAGIC && Field(field, 6, 2) == 1
    && exists n: nat :: 1 <= n <= Field(field, 2, 2) && n <= 4 && Pointer(field, n) == x
  }

  /** The block field written for a file points at exactly the leaf blocks written with it. */
  lemma {:induction false} FieldPointers(st: Store, ranges: seq<Range>, x: nat)
    requires Total(ranges) > 0 && WriteExtents(st, ranges, Zeros(60)).Extents?
    requires WriteExtents(st, ranges, Zeros(60)).store.block <= 0x1_0000_0000
    ensures var r := WriteExtents(st, ranges, Zeros(60)); PointsAt(r.field, x) <==> st.block <= x < r.store.block
  {
    hide Node, Leaves, IndexNode, Total, Field, PutLeafBlocks;
    var leaves := Leaves(ranges);
    if |leaves| <= 4 {
      NodeParts(leaves, 4, 60);
      HeaderFields(Node(leaves, 4, 60), |leaves|, 4, 0);
    } else {
      IndexPointers(leaves, st.block, IndexBlocks(|leaves|), x);
    }
  }

  lemma {:induction false} IndexPointers(leaves: seq<Leaf>, at: nat, k: nat, x: nat)
    requires k == IndexBlocks(|leaves|) && k <= 4 && at + k <= 0x1_0000_0000
    ensures PointsAt(IndexNode(leaves, at, k), x) <==> at <= x < at + k
  {
    hide Field, IndexNode, IndexEntries, Header;
    var field := IndexNode(leaves, at, k);
    IndexNodeParts(leaves, at, k);
    HeaderFields(field, k, 4, 1);
    forall n: nat | 1 <= n <= k ensures Pointer(field, n) == at + n - 1 { IndexRecord(field, leaves, at, k, n - 1); }
    if at <= x < at + k { assert Pointer(field, x - at + 1) == x; }
  }

  /** A leaf block that cannot be read as one makes the whole tree unreadable. */
  lemma {:induction false} BadLeafBlock(d: Disk, field: seq<byte>, n: nat, m: nat)
    requires 1 <= m <= n && 12 * m + 12 <= |field| && Field(BlockAt(d, Pointer(field, m)), 0, 2) != EXTENT_HEADER_MAGIC
    ensures !ParseIndex(d, field, n).Ranges?
  {
    hide Field;
    if m < n { BadLeafBlock(d, field, n - 1, m); }
  }

  lemma {:induction false} NeedsLeafBlock(d: Disk, field: seq<byte>, x: nat)
    requires PointsAt(field, x) && BlockAt(d, x) == Zeros(4096)
    ensures !ParseExtents(d, field).Ranges?
  {
    hide Field, ParseIndex, BlockAt;
    var n: nat :| 1 <= n <= Field(field, 2, 2) && n <= 4 && Pointer(field, n) == x;
    ZeroMagic();
    BadLeafBlock(d, field, Field(field, 2, 2), n);
  }

  /** Parsing reads nothing but the leaf blocks. */
  lemma {:induction false} ParseFrame(d: Disk, e: Disk, field: seq<byte>)
    requires |field| == INODE_BLOCK_SIZE && forall x: nat :: PointsAt(field, x) ==> BlockAt(d, x) == BlockAt(e, x)
    ensures ParseExtents(d, field) == ParseExtents(e, field)
  {
    hide Field, ParseIndex, BlockAt, ParseLeaves;
    if Field(field, 0, 2) == EXTENT_HEADER_MAGIC && Field(field, 6, 2) == 1 {
      forall n: nat | 1 <= n <= Field(field, 2, 2) && n <= 4
        ensures BlockAt(d, Pointer(field, n)) == BlockAt(e, Pointer(field, n))
      {
        assert PointsAt(field, Pointer(field, n));
      }
      IndexFrame(d, e, field, Field(field, 2, 2));
    }
  }

  lemma {:induction false} IndexFrame(d: Disk, e: Disk, field: seq<byte>, n: nat)
    requires |field| == INODE_BLOCK_SIZE && forall m: nat :: 1 <= m <= n && m <= 4 ==>
             BlockAt(d, Pointer(field, m)) == BlockAt(e, Pointer(field, m))
    ensures ParseIndex(d, field, n) == ParseIndex(e, field, n)
  {
    hide Field, BlockAt, ParseLeaves;
    if n > 0 {
      IndexFrame(d, e, field, n - 1);
      if n <= 4 { assert BlockAt(d, Pointer(field, n)) == BlockAt(e, Pointer(field, n)); }
    }
  }

  lemma {:induction false} ZeroMagic()
    ensures Field(Zeros(4096), 0, 2) == 0
  {
    var z := Zeros(4096)[0..2];
    assert z[1..] == [0] && z[1..][1..] == [];
    assert Read(z) == 0;
  }

  // ----- The loops of the writer -----

  method FillLeaves(ranges: seq<Range>) returns (leaves: seq<Leaf>)
    requires Proper(ranges)
    ensures leaves == Leaves(ranges)
  {
    leaves := [];
    var logical: nat := 0;
    for i := 0 to |ranges|
      invariant leaves == Leaves(ranges[..i]) && logical == Total(ranges[..i])
    {
      ghost var before, from := leaves, logical;
      var phys := ranges[i].start;
      var remaining: nat := ranges[i].end - phys;
      while remaining > 0
        invariant phys + remaining == ranges[i].end && logical + remaining == from + (ranges[i].end - ranges[i].start)
        invariant leaves + FillRange(phys, ranges[i].end, logical) == before
                  + FillRange(ranges[i].start, ranges[i].end, from)
      {
        var len := Min(remaining, MAX_BLOCKS_PER_EXTENT);
        Assoc(leaves, [Leaf(logical, len, phys)], FillRange(phys + len, ranges[i].end, logical + len));
        leaves := leaves + [Leaf(logical, len, phys)];
        phys, logical, remaining := phys + len, logical + len, remaining - len;
      }
      assert ranges[..i + 1][..i] == ranges[..i];
    }
    assert ranges[..|ranges|] == ranges;
  }

  method NodeBuffer(leaves: seq<Leaf>, max: nat, size: nat) returns (buf: seq<byte>)
    requires 12 + 12 * |leaves| <= size
    ensures buf == Node(leaves, max, size)
  {
    hide Header, LeafBytes;
    buf := Header(|leaves|, max, 0);
    ghost var head := buf;
    for i := 0 to |leaves|
      invariant buf == head + LeavesBytes(leaves[..i])
    {
      assert leaves[..i + 1][..i] == leaves[..i];
      Assoc(head, LeavesBytes(leaves[..i]), LeafBytes(leaves[i]));
      buf := buf + LeafBytes(leaves[i]);
    }
    assert leaves[..|leaves|] == leaves;
    buf := buf + Zeros(size - |buf|);
  }

  method IndexBuffer(leaves: seq<Leaf>, at: nat, k: nat) returns (buf: seq<byte>)
    requires k == IndexBlocks(|leaves|) && k <= 4
    ensures buf == IndexNode(leaves, at, k)
  {
    hide Header, IndexBytes;
    buf := Header(k, 4, 1);
    ghost var head := buf;
    for i := 0 to k
      invariant buf == head + IndexEntries(leaves, at, i)
    {
      Assoc(head, IndexEntries(leaves, at, i), IndexBytes(leaves[i * LEAVES_PER_BLOCK].block, at + i));
      buf := buf + IndexBytes(leaves[i * LEAVES_PER_BLOCK].block, at + i);
    }
    buf := buf + Zeros(INODE_BLOCK_SIZE - |buf|);
  }
}
