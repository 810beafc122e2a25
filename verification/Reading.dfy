/** Reading a file back: the loops over leaf records, index entries and extents, and that together
    they return exactly the bytes asked for. */
module Reading {
  import opened Bytes
  import opened Geometry
  import opened Payload
  import opened Placement
  import opened Extents
  import opened Contents

  // ----- Parsing -----

  lemma {:induction false} LeavesFailEarly(buf: seq<byte>, k: nat, n: nat)
    requires k <= n && !ParseLeaves(buf, k).Ranges?
    ensures ParseLeaves(buf, n) == ParseLeaves(buf, k)
    decreases n
  {
    if k < n { LeavesFailEarly(buf, k, n - 1); }
  }

  method ReadLeaves(buf: seq<byte>, entries: nat) returns (r: ParseResult)
    ensures r == ParseLeaves(buf, entries)
  {
    hide Field;
    var ranges := [];
    for i := 0 to entries
      invariant ParseLeaves(buf, i) == Ranges(ranges)
    {
      var off := 12 + i * 12;
      if off + 12 > |buf| {
        LeavesFailEarly(buf, i + 1, entries);
        return InvalidExtents;
      }
      var start := Field(buf, off + 8, 4);
      ranges := ranges + [Range(start, start + Field(buf, off + 4, 2))];
    }
    r := Ranges(ranges);
  }

  lemma {:induction false} IndexFailsEarly(d: Disk, field: seq<byte>, k: nat, n: nat)
    requires k <= n && !ParseIndex(d, field, k).Ranges?
    ensures ParseIndex(d, field, n) == ParseIndex(d, field, k)
    decreases n
  {
    hide Field, ParseLeaves;
    if k < n { IndexFailsEarly(d, field, k, n - 1); }
  }

  method ReadIndex(d: Disk, field: seq<byte>, entries: nat) returns (r: ParseResult)
    ensures r == ParseIndex(d, field, entries)
  {
    hide Field, ParseLeaves;
    var ranges := [];
    for i := 0 to entries
      invariant ParseIndex(d, field, i) == Ranges(ranges)
    {
      var off := 12 + i * 12;
      if off + 12 > |field| {
        IndexFailsEarly(d, field, i + 1, entries);
        return InvalidExtents;
      }
      var buf := BlockAt(d, Field(field, off + 4, 4) + 0x1_0000_0000 * Field(field, off + 8, 2));
      if Field(buf, 0, 2) != EXTENT_HEADER_MAGIC || Field(buf, 6, 2) != 0 {
        IndexFailsEarly(d, field, i + 1, entries);
        return InvalidExtents;
      }
      var leaves := ReadLeaves(buf, Field(buf, 2, 2));
      if !leaves.Ranges? {
        IndexFailsEarly(d, field, i + 1, entries);
        return leaves;
      }
      ranges := ranges + leaves.ranges;
    }
    r := Ranges(ranges);
  }

  method ReadExtents(d: Disk, field: seq<byte>) returns (r: ParseResult)
    requires |field| == INODE_BLOCK_SIZE
    ensures r == ParseExtents(d, field)
  {
    if Field(field, 0, 2) != EXTENT_HEADER_MAGIC { return Ranges([]); }
    var depth := Field(field, 6, 2);
    if depth == 0 {
      r := ReadLeaves(field, Field(field, 2, 2));
    } else if depth == 1 {
      r := ReadIndex(d, field, Field(field, 2, 2));
    } else {
      r := DeepExtentsUnsupported;
    }
  }

  // ----- Reading bytes of the image -----

  function ByteAt(d: Disk, pos: nat): byte { BlockAt(d, pos / BLOCK)[pos % BLOCK] }

  /** What a read of `n` bytes at a byte position of the image file returns. */
  function ReadAt(d: Disk, pos: nat, n: nat): (r: seq<byte>)
    ensures |r| == n
  {
    if n == 0 then [] else ReadAt(d, pos, n - 1) + [ByteAt(d, pos + n - 1)]
  }

  lemma {:induction false} FlatRangeByte(d: Disk, start: nat, end: nat, x: nat)
    requires x < |FlatRange(d, start, end)|
    ensures FlatRange(d, start, end)[x] == ByteAt(d, start * BLOCK + x)
    decreases end
  {
    if start < end {
      FlatRangeLength(d, start, end);
      FlatRangeLength(d, start, end - 1);
      if x < |FlatRange(d, start, end - 1)| {
        FlatRangeByte(d, start, end - 1, x);
      } else {
        var y := x - BLOCK * (end - 1 - start);
        assert start * BLOCK + x == (end - 1) * BLOCK + y;
        InBlock(end - 1, y);
      }
    }
  }

  lemma InBlock(b: nat, y: nat)
    requires y < BLOCK
    ensures (b * BLOCK + y) / BLOCK == b && (b * BLOCK + y) % BLOCK == y
  {
  }

  lemma {:induction false} ReadAtByte(d: Disk, pos: nat, n: nat, i: nat)
    requires i < n
    ensures ReadAt(d, pos, n)[i] == ByteAt(d, pos + i)
  {
    if i < n - 1 { ReadAtByte(d, pos, n - 1, i); }
  }

  /** A read within an extent returns that part of the extent. */
  lemma ReadInside(d: Disk, start: nat, end: nat, o: nat, n: nat)
    requires o + n <= |FlatRange(d, start, end)|
    ensures ReadAt(d, start * BLOCK + o, n) == FlatRange(d, start, end)[o..o + n]
  {
    var a, b := ReadAt(d, start * BLOCK + o, n), FlatRange(d, start, end)[o..o + n];
    forall i | 0 <= i < n ensures a[i] == b[i] {
      FlatRangeByte(d, start, end, o + i);
      ReadAtByte(d, start * BLOCK + o, n, i);
    }
  }

  lemma {:induction false} ReadMore(d: Disk, pos: nat, m: nat, n: nat)
    ensures ReadAt(d, pos, m) + ReadAt(d, pos + m, n) == ReadAt(d, pos, m + n)
    decreases n
  {
    hide ByteAt;
    if n == 0 {
      assert ReadAt(d, pos, m) + [] == ReadAt(d, pos, m);
    } else {
      ReadMore(d, pos, m, n - 1);
      Assoc(ReadAt(d, pos, m), ReadAt(d, pos + m, n - 1), [ByteAt(d, pos + m + n - 1)]);
    }
  }

  /** How many of `count` bytes from `pos` on a file of `length` bytes has. */
  function Left(length: nat, pos: nat, count: nat): nat { Max(Min(count, length - pos), 0) }

  /** Read part of one extent, in pieces of at most 1 MiB that may come back shorter, up to the end of the image
      file. */
  method ReadPart(d: Disk, length: nat, pos: nat, count: nat) returns (r: seq<byte>)
    ensures r == ReadAt(d, pos, Left(length, pos, count))
  {
    hide ReadAt;
    r := ReadAt(d, pos, 0);
    var remaining: nat := count;
    while remaining > 0
      invariant remaining <= count && (remaining < count ==> pos + (count - remaining) <= length)
      invariant r == ReadAt(d, pos, count - remaining)
    {
      var chunk, at := Min(remaining, 0x10_0000), pos + (count - remaining);
      var most := Left(length, at, chunk);
      var n :| 0 <= n <= most && (n == 0 <==> most == 0);
      if n == 0 { break; }
      ReadMore(d, pos, count - remaining, n);
      r := r + ReadAt(d, at, n);
      remaining := remaining - n;
    }
  }

  // ----- Reading through the extents -----

  /** The part of `s` that a request for `n` bytes from offset `a` on can get. */
  function Window(s: seq<byte>, a: nat, n: nat): (r: seq<byte>)
    ensures |r| == Max(Min(a + n, |s|) - a, 0)
  {
    s[Min(a, |s|)..Min(a + n, |s|)]
  }

  lemma WindowIn(f: seq<byte>, g: seq<byte>, a: nat, n: nat)
    requires a + n <= |f|
    ensures Window(f + g, a, n) == Window(f, a, n)
  {
    assert (f + g)[a..a + n] == f[a..a + n];
  }

  lemma WindowPast(f: seq<byte>, g: seq<byte>, a: nat, n: nat)
    requires |f| + |g| <= a
    ensures Window(f + g, a, n) == Window(f, a, n) == []
  {
  }

  lemma WindowAcross(f: seq<byte>, g: seq<byte>, a: nat, n: nat)
    requires a < |f| + |g| && |f| < a + n
    ensures Window(f + g, a, n) == Window(f, a, n) + g[Max(a, |f|) - |f|..Min(a + n, |f| + |g|) - |f|]
  {
    var end := Min(a + n, |f| + |g|);
    if a <= |f| {
      assert (f + g)[a..end] == f[a..] + g[..end - |f|];
      assert Window(f, a, n) == f[a..];
    } else {
      assert (f + g)[a..end] == g[a - |f|..end - |f|];
    }
  }

  lemma WindowGrows(f: seq<byte>, g: seq<byte>, a: nat, n: nat)
    ensures a + n <= |f| ==> Window(f + g, a, n) == Window(f, a, n)
    ensures |f| + |g| <= a ==> Window(f + g, a, n) == Window(f, a, n) == []
    ensures a < |f| + |g| && |f| < a + n ==>
              Window(f + g, a, n) == Window(f, a, n) + g[Max(a, |f|) - |f|..Min(a + n, |f| + |g|) - |f|]
  {
    hide Window;
    if a + n <= |f| { WindowIn(f, g, a, n); }
    if |f| + |g| <= a { WindowPast(f, g, a, n); }
    if a < |f| + |g| && |f| < a + n { WindowAcross(f, g, a, n); }
  }

  /** Once a prefix reaches past the request, the rest does not matter. */
  lemma WindowDone(f: seq<byte>, all: seq<byte>, a: nat, n: nat)
    requires f <= all && (a + n <= |f| || |Window(f, a, n)| == n)
    ensures Window(all, a, n) == Window(f, a, n)
  {
    var g := all[|f|..];
    assert all == f + g;
    WindowGrows(f, g, a, n);
  }

  /** What a request gets from one extent that starts at file offset `logical`. */
  function GotFrom(d: Disk, length: nat, extent: Range, logical: nat, start: nat, count: nat): seq<byte> {
    var next, end := logical + Max(extent.end - extent.start, 0) * BLOCK, start + count;
    if next <= start || end <= logical then []
    else
      var from, to := Max(start, logical), Min(end, next);
      var pos := extent.start * BLOCK + (from - logical);
      ReadAt(d, pos, Left(length, pos, to - from))
  }

  /** What a request gets from all extents: of each that reaches past the end of the image file only what is there, and
      the next one right behind it. */
  function Got(d: Disk, length: nat, extents: seq<Range>, start: nat, count: nat): seq<byte> {
    if extents == [] then []
    else
      var n := |extents| - 1;
      Got(d, length, extents[..n], start, count)
        + GotFrom(d, length, extents[n], BLOCK * Total(extents[..n]), start, count)
  }

  /** All blocks of the extents lie within an image file of `length` bytes. */
  predicate Inside(extents: seq<Range>, length: nat) {
    forall i :: 0 <= i < |extents| ==> ExtentInside(extents[i], length)
  }

  predicate ExtentInside(extent: Range, length: nat) { extent.start < extent.end ==> extent.end * BLOCK <= length }

  lemma {:induction false} ReadLength(d: Disk, pos: nat, n: nat)
    ensures |ReadAt(d, pos, n)| == n
  {
    if n > 0 { ReadLength(d, pos, n - 1); }
  }

  lemma {:induction false} GotSnoc(d: Disk, length: nat, extents: seq<Range>, i: nat, start: nat, count: nat)
    requires i < |extents|
    ensures Got(d, length, extents[..i + 1], start, count) ==
            Got(d, length, extents[..i], start, count)
              + GotFrom(d, length, extents[i], BLOCK * Total(extents[..i]), start, count)
    ensures Total(extents[..i + 1]) == Total(extents[..i]) + Max(extents[i].end - extents[i].start, 0)
  {
    hide GotFrom;
    assert extents[..i + 1][..i] == extents[..i];
  }

  /** No more than the request has in the extents comes back. */
  lemma {:induction false} GotAtMost(d: Disk, length: nat, extents: seq<Range>, start: nat, count: nat)
    ensures |Got(d, length, extents, start, count)| <= Max(Min(start + count, BLOCK * Total(extents)) - start, 0)
  {
    hide ReadAt;
    if extents != [] {
      var n := |extents| - 1;
      GotAtMost(d, length, extents[..n], start, count);
      var logical := BLOCK * Total(extents[..n]);
      var from, to := Max(start, logical),
        Min(start + count, logical + Max(extents[n].end - extents[n].start, 0) * BLOCK);
      if from <= to {
        ReadLength(d, extents[n].start * BLOCK + (from - logical),
                   Left(length, extents[n].start * BLOCK + (from - logical), to - from));
      }
    }
  }

  /** Extents behind the request give nothing. */
  lemma {:induction false} GotDone(d: Disk, length: nat, extents: seq<Range>, i: nat, start: nat, count: nat)
    requires i <= |extents| && BLOCK * Total(extents[..i]) >= start + count
    ensures Got(d, length, extents, start, count) == Got(d, length, extents[..i], start, count)
    decreases |extents| - i
  {
    hide ReadAt, Got;
    if i == |extents| {
      assert extents[..i] == extents;
    } else {
      GotSnoc(d, length, extents, i, start, count);
      GotDone(d, length, extents, i + 1, start, count);
    }
  }

  lemma {:induction false} GotOverlap(d: Disk, length: nat, extent: Range, logical: nat, start: nat, count: nat)
    requires extent.start <= extent.end && extent.end * BLOCK <= length
    requires start < logical + (extent.end - extent.start) * BLOCK && logical < start + count
    ensures var g := FlatRange(d, extent.start, extent.end);
            && |g| == (extent.end - extent.start) * BLOCK
            && GotFrom(d, length, extent, logical, start, count)
               == g[Max(start, logical) - logical..Min(start + count, logical + |g|) - logical]
  {
    hide FlatRange, ReadAt;
    FlatRangeLength(d, extent.start, extent.end);
    var next := logical + (extent.end - extent.start) * BLOCK;
    var from, to := Max(start, logical), Min(start + count, next);
    ReadInside(d, extent.start, extent.end, from - logical, to - from);
    assert extent.start * BLOCK + (to - logical) <= extent.end * BLOCK;
  }

  /** If all extents lie within the image file, the request gets exactly its window of their bytes. */
  lemma {:induction false} GotWhole(d: Disk, length: nat, extents: seq<Range>, start: nat, count: nat)
    requires Proper(extents) && Inside(extents, length)
    ensures Got(d, length, extents, start, count) == Window(Flat(d, extents), start, count)
  {
    hide Window, FlatRange, GotFrom, Total;
    if extents == [] {
      NoRanges(d, 0, 0);
      NothingToSee(start, count);
    } else {
      var n := |extents| - 1;
      GotWhole(d, length, extents[..n], start, count);
      FlatLength(d, extents[..n]);
      GotNext(d, length, Flat(d, extents[..n]), extents[n], start, count);
    }
  }

  /** One more extent adds what the window grows by. */
  lemma {:induction false} GotNext(d: Disk, length: nat, f: seq<byte>, extent: Range, start: nat, count: nat)
    requires extent.start <= extent.end && ExtentInside(extent, length)
    ensures Window(f + FlatRange(d, extent.start, extent.end), start, count) == Window(f, start, count)
            + GotFrom(d, length, extent, |f|, start, count)
  {
    hide Window, FlatRange, GotFrom;
    var g := FlatRange(d, extent.start, extent.end);
    FlatRangeLength(d, extent.start, extent.end);
    WindowGrows(f, g, start, count);
    if extent.start == extent.end {
      GotEmpty(d, length, extent, |f|, start, count);
      assert f + g == f;
    } else if start < |f| + |g| && |f| < start + count {
      GotOverlap(d, length, extent, |f|, start, count);
    } else {
      GotNone(d, length, extent, |f|, start, count);
    }
  }

  lemma {:induction false} GotEmpty(d: Disk, length: nat, extent: Range, logical: nat, start: nat, count: nat)
    requires extent.start == extent.end
    ensures GotFrom(d, length, extent, logical, start, count) == []
  {
  }

  lemma NothingToSee(start: nat, count: nat)
    ensures Window([], start, count) == []
  {
  }

  lemma GotNone(d: Disk, length: nat, extent: Range, logical: nat, start: nat, count: nat)
    requires extent.start <= extent.end
    requires (logical + (extent.end - extent.start) * BLOCK <= start || start + count <= logical)
    ensures GotFrom(d, length, extent, logical, start, count) == []
  {
  }

  /** Walk the extents, skip those before the request, stop after it. */
  method ReadFromExtents(d: Disk, length: nat, extents: seq<Range>, start: nat, count: nat) returns (out: seq<byte>)
    requires Proper(extents)
    ensures out == Got(d, length, extents, start, count)
    ensures Inside(extents, length) ==> out == Window(Flat(d, extents), start, count)
  {
    hide Flat, FlatRange, Window, Got, ReadAt, Total;
    if Inside(extents, length) { GotWhole(d, length, extents, start, count); }
    var end, logical := start + count, 0;
    out := [];
    NothingGot(d, length, extents, start, count);
    for i := 0 to |extents|
      invariant logical == BLOCK * Total(extents[..i]) && out == Got(d, length, extents[..i], start, count)
    {
      GotSnoc(d, length, extents, i, start, count);
      var next := logical + (extents[i].end - extents[i].start) * BLOCK;
      if next > start {
        if logical >= end {
          GotDone(d, length, extents, i, start, count);
          return;
        }
        var from, to := Max(start, logical), Min(end, next);
        var part := ReadPart(d, length, extents[i].start * BLOCK + (from - logical), to - from);
        out := out + part;
        if |out| >= count {
          GotAtMost(d, length, extents[..i + 1], start, count);
          GotDone(d, length, extents, i + 1, start, count);
          return;
        }
      }
      logical := next;
    }
    assert extents[..|extents|] == extents;
  }

  lemma {:induction false} NothingGot(d: Disk, length: nat, extents: seq<Range>, start: nat, count: nat)
    ensures Got(d, length, extents[..0], start, count) == [] && Total(extents[..0]) == 0
  {
  }

  // ----- Whole files -----

  /** The leaf blocks that a block field points at lie within the image file. */
  predicate PointersInside(field: seq<byte>, length: nat)
    requires |field| == INODE_BLOCK_SIZE
  {
    Field(field, 0, 2) == EXTENT_HEADER_MAGIC && Field(field, 6, 2) == 1 ==>
      forall n: nat :: 1 <= n <= 4 && n <= Field(field, 2, 2) ==> (Pointer(field, n) + 1) * BLOCK <= length
  }

  lemma PointersAre(field: seq<byte>, length: nat)
    requires |field| == INODE_BLOCK_SIZE
    ensures PointersInside(field, length) <==> forall x: nat :: PointsAt(field, x) ==> (x + 1) * BLOCK <= length
  {
    hide Field;
    if Field(field, 0, 2) == EXTENT_HEADER_MAGIC && Field(field, 6, 2) == 1 {
      forall n: nat | 1 <= n <= 4 && n <= Field(field, 2, 2) ensures PointsAt(field, Pointer(field, n)) {
      }
    }
  }

  /** The block field of an inode can be parsed. */
  predicate Mapped(d: Disk, length: nat, field: seq<byte>)
    requires |field| == INODE_BLOCK_SIZE
  {
    ParseExtents(d, field).Ranges? && PointersInside(field, length)
  }

  /** What a request for part of a file gets. */
  function Request(d: Disk, length: nat, field: seq<byte>, size: nat, offset: nat,
                   count: Option<nat>): Option<seq<byte>>
    requires |field| == INODE_BLOCK_SIZE
  {
    var start := Min(offset, size);
    var want := if count.Some? then Min(count.value, size - start) else size - start;
    if want == 0 then Some([])
    else if Mapped(d, length, field) then Some(Got(d, length, ParseExtents(d, field).ranges, start, want))
    else None
  }

  /** If the inode leads to a content, and within the image file, that is exactly the requested part of it. */
  lemma RequestIs(d: Disk, length: nat, field: seq<byte>, content: seq<byte>, offset: nat, count: Option<nat>)
    requires HoldsFile(d, field, content) && Mapped(d, length, field) && Inside(ParseExtents(d, field).ranges, length)
    ensures Request(d, length, field, |content|, offset, count)
            == Some(Window(content, offset, if count.Some? then count.value else |content|))
  {
    hide ParseExtents, Flat, Window, Got, Mapped, Inside;
    var start := Min(offset, |content|);
    var want := if count.Some? then Min(count.value, |content| - start) else |content| - start;
    SameWindow(content, offset, count);
    if want > 0 {
      var ranges := ParseExtents(d, field).ranges;
      ExtentsProper(d, field);
      GotWhole(d, length, ranges, start, want);
      WindowOfPrefix(content, Flat(d, ranges), start, want);
    }
  }

  lemma {:induction false} LeavesProper(buf: seq<byte>, n: nat)
    requires ParseLeaves(buf, n).Ranges?
    ensures Proper(ParseLeaves(buf, n).ranges)
  {
    hide Field;
    if n > 0 { LeavesProper(buf, n - 1); }
  }

  lemma {:induction false} IndexProper(d: Disk, field: seq<byte>, n: nat)
    requires ParseIndex(d, field, n).Ranges?
    ensures Proper(ParseIndex(d, field, n).ranges)
  {
    hide Field, ParseLeaves;
    if n > 0 {
      IndexProper(d, field, n - 1);
      var buf := BlockAt(d, Field(field, 12 * n + 4, 4) + 0x1_0000_0000 * Field(field, 12 * n + 8, 2));
      LeavesProper(buf, Field(buf, 2, 2));
    }
  }

  lemma ExtentsProper(d: Disk, field: seq<byte>)
    requires |field| == INODE_BLOCK_SIZE && ParseExtents(d, field).Ranges?
    ensures Proper(ParseExtents(d, field).ranges)
  {
    hide Field, ParseLeaves, ParseIndex;
    if Field(field, 0, 2) == EXTENT_HEADER_MAGIC {
      if Field(field, 6, 2) == 0 { LeavesProper(field, Field(field, 2, 2)); }
      else { IndexProper(d, field, Field(field, 2, 2)); }
    }
  }

  lemma WindowOfPrefix(c: seq<byte>, all: seq<byte>, a: nat, n: nat)
    requires c <= all && a + n <= |c|
    ensures Window(all, a, n) == Window(c, a, n)
  {
    WindowDone(c, all, a, n);
  }

  /** Read up to `count` bytes, or to the end, from `offset` on. If the inode leads to `content`, exactly
      the requested part of it comes back, wherever the extents cut it and however short the reads are. */
  method ReadContent(d: Disk, length: nat, field: seq<byte>, size: nat, offset: nat, count: Option<nat>)
      returns (r: Option<seq<byte>>)
    requires |field| == INODE_BLOCK_SIZE
    ensures r == Request(d, length, field, size, offset, count)
    ensures forall content ::
              HoldsFile(d, field, content) && |content| == size && Mapped(d, length, field)
                && Inside(ParseExtents(d, field).ranges, length) ==>
                r == Some(Window(content, offset, if count.Some? then count.value else size))
  {
    hide ParseExtents, Flat, Window, Got, PointersInside, HoldsFile, Inside;
    forall content | HoldsFile(d, field, content) && |content| == size && Mapped(d, length, field)
      && Inside(ParseExtents(d, field).ranges, length)
      ensures Request(d, length, field, size, offset, count)
              == Some(Window(content, offset, if count.Some? then count.value else size))
    {
      RequestIs(d, length, field, content, offset, count);
    }
    var start := Min(offset, size);
    var most := size - start;
    var want := if count.Some? then Min(count.value, most) else most;
    if want == 0 { return Some([]); }
    var parsed := ReadExtents(d, field);
    if !parsed.Ranges? || !PointersInside(field, length) { return None; }
    ExtentsProper(d, field);
    var out := ReadFromExtents(d, length, parsed.ranges, start, want);
    r := Some(out);
  }

  lemma SameWindow(content: seq<byte>, offset: nat, count: Option<nat>)
    ensures var start := Min(offset, |content|);
            var want := if count.Some? then Min(count.value, |content| - start) else |content| - start;
            && Window(content, offset, if count.Some? then count.value else |content|) == Window(content, start, want)
            && |Window(content, start, want)| == want
  {
  }

  /** The target of a symlink as the reader gets it: in the inode if shorter than 60 bytes, through the extents
      otherwise. */
  function TargetIn(d: Disk, length: nat, field: seq<byte>, size: nat): Option<seq<byte>>
    requires |field| == INODE_BLOCK_SIZE
  {
    if size < 60 then Some(field[..size]) else Request(d, length, field, size, 0, None)
  }

  method ReadTarget(d: Disk, length: nat, field: seq<byte>, size: nat) returns (r: Option<seq<byte>>)
    requires |field| == INODE_BLOCK_SIZE
    ensures r == TargetIn(d, length, field, size)
    ensures forall target ::
              && |target| == size
              && (if size < 60 then target <= field
                  else
                    && HoldsFile(d, field, target) && Mapped(d, length, field)
                    && Inside(ParseExtents(d, field).ranges, length))
              ==> r == Some(target)
  {
    hide PointersInside, Inside, HoldsFile, ParseExtents;
    if size < 60 {
      forall target | |target| == size && target <= field ensures target == field[..size] {
      }
      return Some(field[..size]);
    }
    r := ReadContent(d, length, field, size, 0, None);
    forall target | |target| == size && HoldsFile(d, field, target) && Mapped(d, length, field)
      && Inside(ParseExtents(d, field).ranges, length)
      ensures r == Some(target)
    {
      assert Window(target, 0, size) == target;
    }
  }
}
