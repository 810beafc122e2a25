/** Where payload bytes land: the recorded ranges, read back to back, are the content. */
module Placement {
  import opened Bytes
  import opened Geometry
  import opened Payload

  /** The blocks of one range, back to back. */
  function FlatRange(d: Disk, start: nat, end: nat): seq<byte>
    decreases end
  {
    if start >= end then [] else FlatRange(d, start, end - 1) + BlockAt(d, end - 1)
  }

  /** The blocks of all ranges, back to back: the file as its blocks hold it. */
  function Flat(d: Disk, ranges: seq<Range>): seq<byte> {
    if ranges == [] then []
    else
      var n := |ranges| - 1;
      Flat(d, ranges[..n]) + FlatRange(d, ranges[n].start, ranges[n].end)
  }

  function Total(ranges: seq<Range>): nat {
    if ranges == [] then 0
    else
      var n := |ranges| - 1;
      Total(ranges[..n]) + Max(ranges[n].end - ranges[n].start, 0)
  }

  function BlocksFor(n: nat): nat { (n + BLOCK - 1) / BLOCK }

  /** Nonempty ranges, ascending, with a gap between neighbours: no two could be merged. */
  ghost predicate Ascending(ranges: seq<Range>) {
    && (forall i :: 0 <= i < |ranges| ==> ranges[i].start < ranges[i].end)
    && (forall i, j :: 0 <= i < j < |ranges| ==> ranges[i].end < ranges[j].start)
  }

  /** No range ends before it starts. */
  ghost predicate Proper(ranges: seq<Range>) {
    forall i :: 0 <= i < |ranges| ==> ranges[i].start <= ranges[i].end
  }

  ghost predicate Within(ranges: seq<Range>, lo: nat, hi: nat) {
    forall i :: 0 <= i < |ranges| ==> lo <= ranges[i].start && ranges[i].end <= hi
  }

  ghost predicate SameBelow(d: Disk, e: Disk, limit: nat) {
    forall b :: 0 <= b < limit ==> BlockAt(d, b) == BlockAt(e, b)
  }

  /** The first block the cursor has not touched. */
  function Top(st: Store): nat { if st.off == 0 then st.block else st.block + 1 }

  // ----- Reading ranges back to back -----

  lemma {:induction false} FlatRangeLength(d: Disk, start: nat, end: nat)
    ensures |FlatRange(d, start, end)| == BLOCK * Max(end - start, 0)
    decreases end
  {
    if start < end { FlatRangeLength(d, start, end - 1); }
  }

  lemma {:induction false} FlatLength(d: Disk, ranges: seq<Range>)
    ensures |Flat(d, ranges)| == BLOCK * Total(ranges)
  {
    if ranges != [] {
      var n := |ranges| - 1;
      FlatLength(d, ranges[..n]);
      FlatRangeLength(d, ranges[n].start, ranges[n].end);
    }
  }

  lemma {:induction false} FlatRangeFrame(d: Disk, e: Disk, start: nat, end: nat, limit: nat)
    requires SameBelow(d, e, limit) && end <= limit
    ensures FlatRange(d, start, end) == FlatRange(e, start, end)
    decreases end
  {
    if start < end { FlatRangeFrame(d, e, start, end - 1, limit); }
  }

  /** Blocks outside the ranges do not matter to the file. */
  lemma {:induction false} FlatFrame(d: Disk, e: Disk, ranges: seq<Range>, lo: nat, limit: nat)
    requires SameBelow(d, e, limit) && Within(ranges, lo, limit)
    ensures Flat(d, ranges) == Flat(e, ranges)
  {
    if ranges != [] {
      var n := |ranges| - 1;
      FlatFrame(d, e, ranges[..n], lo, limit);
      FlatRangeFrame(d, e, ranges[n].start, ranges[n].end, limit);
    }
  }

  // ----- Recording one more block -----

  lemma RecordShape(ranges: seq<Range>, block: nat, lo: nat)
    requires Ascending(ranges) && Within(ranges, lo, block) && lo <= block
    ensures Ascending(Record(ranges, block)) && Within(Record(ranges, block), lo, block + 1)
  {
  }

  lemma {:induction false} FlatSnoc(d: Disk, init: seq<Range>, last: Range)
    ensures Flat(d, init + [last]) == Flat(d, init) + FlatRange(d, last.start, last.end)
    ensures Total(init + [last]) == Total(init) + Max(last.end - last.start, 0)
  {
    assert (init + [last])[..|init|] == init;
  }

  /** Recording a block past everything recorded appends exactly that block to the file. */
  lemma {:induction false} RecordAppends(d: Disk, ranges: seq<Range>, block: nat, lo: nat)
    requires Ascending(ranges) && Within(ranges, lo, block) && lo <= block
    ensures Flat(d, Record(ranges, block)) == Flat(d, ranges) + BlockAt(d, block)
    ensures Total(Record(ranges, block)) == Total(ranges) + 1
  {
    var n := |ranges| - 1;
    if ranges != [] && ranges[n].end == block {
      var init, last := ranges[..n], ranges[n];
      assert ranges == init + [last];
      FlatSnoc(d, init, last);
      FlatSnoc(d, init, Range(last.start, block + 1));
      Assoc(Flat(d, init), FlatRange(d, last.start, block), BlockAt(d, block));
    } else {
      FlatSnoc(d, ranges, Range(block, block + 1));
      FlatOne(d, block);
    }
  }

  lemma {:induction false} FlatOne(d: Disk, block: nat)
    ensures FlatRange(d, block, block + 1) == BlockAt(d, block)
  {
    assert FlatRange(d, block, block) == [];
  }

  // ----- Writing -----

  lemma SkipForward(st: Store)
    ensures var s := SkipReserved(st);
            st.block <= s.block && s.off == st.off && s.disk == st.disk && s.size == st.size
  {
    ReservedEndIsNext(st.block, Area(st.size));
  }

  lemma PutForward(s: Store, piece: seq<byte>)
    requires 0 < |piece| <= BLOCK - s.off
    ensures var t := PutPiece(s, piece);
            && s.block <= t.block && Top(s) <= Top(t) && s.size <= t.size
            && SameBelow(s.disk, t.disk, s.block)
            && t.block * BLOCK + t.off <= t.size
  {
  }

  ghost predicate Forward(s: Store, t: Store) {
    && s.block <= t.block && Top(s) <= Top(t) && s.size <= t.size
    && SameBelow(s.disk, t.disk, s.block)
  }

  lemma ForwardTransitive(s: Store, t: Store, u: Store)
    requires Forward(s, t) && Forward(t, u)
    ensures Forward(s, u)
  {
  }

  /** The cursor and the size only grow, and blocks before the cursor are never touched again. */
  lemma {:induction false} WriteForward(st: Store, bytes: seq<byte>, ranges: seq<Range>)
    ensures var s := WriteBytes(st, bytes, ranges).store;
            Forward(st, s) && (bytes != [] ==> s.block * BLOCK + s.off <= s.size)
    decreases |bytes|
  {
    if bytes != [] {
      var s := SkipReserved(st);
      SkipForward(st);
      var w := Min(BLOCK - s.off, |bytes|);
      var t := PutPiece(s, bytes[..w]);
      PutForward(s, bytes[..w]);
      WriteForward(t, bytes[w..], Record(ranges, s.block));
      ForwardTransitive(st, t, WriteBytes(st, bytes, ranges).store);
    }
  }

  /** A piece put at the start of a block is the head of that block; other blocks stay. */
  lemma PutAtStart(s: Store, piece: seq<byte>)
    requires s.off == 0 && 0 < |piece| <= 4096
    ensures var t := PutPiece(s, piece);
            && BlockAt(t.disk, s.block)[..|piece|] == piece
            && SameBelow(s.disk, t.disk, s.block)
            && Top(t) == s.block + 1
  {
    var t := PutPiece(s, piece);
    assert BlockAt(t.disk, s.block) == Overwrite(BlockAt(s.disk, s.block), 0, piece);
  }

  /** The last, possibly partial, block. */
  lemma LandLast(s: Store, bytes: seq<byte>, ranges: seq<Range>, lo: nat) returns (pad: seq<byte>)
    requires s.off == 0 && 0 < |bytes| <= BLOCK
    requires Ascending(ranges) && Within(ranges, lo, s.block) && lo <= s.block
    ensures var t := PutPiece(s, bytes);
            && Flat(t.disk, Record(ranges, s.block)) == Flat(s.disk, ranges) + bytes + pad
            && |pad| < BLOCK
  {
    PutAtStart(s, bytes);
    var t := PutPiece(s, bytes);
    var blk := BlockAt(t.disk, s.block);
    pad := blk[|bytes|..];
    RecordAppends(t.disk, ranges, s.block, lo);
    FlatFrame(s.disk, t.disk, ranges, lo, s.block);
    assert blk == bytes + pad;
    Assoc(Flat(s.disk, ranges), bytes, pad);
  }

  /** One full block. */
  lemma {:induction false} LandBlock(s: Store, piece: seq<byte>, ranges: seq<Range>, lo: nat)
    requires s.off == 0 && |piece| == BLOCK
    requires Ascending(ranges) && Within(ranges, lo, s.block) && lo <= s.block
    ensures Flat(PutPiece(s, piece).disk, Record(ranges, s.block)) == Flat(s.disk, ranges) + piece
  {
    PutAtStart(s, piece);
    var t := PutPiece(s, piece);
    RecordAppends(t.disk, ranges, s.block, lo);
    FlatFrame(s.disk, t.disk, ranges, lo, s.block);
    assert BlockAt(t.disk, s.block)[..BLOCK] == BlockAt(t.disk, s.block);
  }

  /** Content written from a block boundary appends itself, padded to whole blocks, to the file its
      ranges hold. The ranges are ascending, could not be merged, and lie between where the file
      began and where the cursor ends. */
  lemma {:induction false} WriteLands(st: Store, bytes: seq<byte>, ranges: seq<Range>, lo: nat) returns (pad: seq<byte>)
    requires st.off == 0
    requires Ascending(ranges) && Within(ranges, lo, st.block) && lo <= st.block
    ensures var w := WriteBytes(st, bytes, ranges);
            && Flat(w.store.disk, w.ranges) == Flat(st.disk, ranges) + bytes + pad
            && |pad| < BLOCK
            && Ascending(w.ranges) && Within(w.ranges, lo, Top(w.store))
    decreases |bytes|
  {
    hide WriteBytes, SkipReserved, PutPiece, Record, Flat, Ascending, SameBelow;
    var s := SkipReserved(st);
    SkipForward(st);
    if bytes == [] {
      pad := [];
      WriteNothing(st, ranges);
    } else if |bytes| <= BLOCK {
      RecordShape(ranges, s.block, lo);
      pad := LandLast(s, bytes, ranges, lo);
      PutAtStart(s, bytes);
      WriteOne(st, bytes, ranges);
    } else {
      RecordShape(ranges, s.block, lo);
      var head, rest := bytes[..BLOCK], bytes[BLOCK..];
      LandBlock(s, head, ranges, lo);
      WriteMore(st, bytes, ranges);
      pad := WriteLands(PutPiece(s, head), rest, Record(ranges, s.block), lo);
      Joins(Flat(s.disk, ranges), bytes, pad);
    }
  }

  lemma {:induction false} WriteOne(st: Store, bytes: seq<byte>, ranges: seq<Range>)
    requires st.off == 0 && 0 < |bytes| <= BLOCK
    ensures WriteBytes(st, bytes, ranges)
            == Written(PutPiece(SkipReserved(st), bytes), Record(ranges, SkipReserved(st).block))
  {
    hide PutPiece, Record;
    assert bytes[..|bytes|] == bytes && bytes[|bytes|..] == [];
  }

  lemma {:induction false} WriteMore(st: Store, bytes: seq<byte>, ranges: seq<Range>)
    requires st.off == 0 && |bytes| > BLOCK
    ensures var s := SkipReserved(st);
            var t := PutPiece(s, bytes[..BLOCK]);
            && WriteBytes(st, bytes, ranges) == WriteBytes(t, bytes[BLOCK..], Record(ranges, s.block))
            && t.off == 0 && t.block == s.block + 1
  {
    hide Record;
  }

  lemma Joins(f: seq<byte>, bytes: seq<byte>, pad: seq<byte>)
    requires |bytes| > BLOCK
    ensures f + bytes[..BLOCK] + bytes[BLOCK..] + pad == f + bytes + pad
  {
    Assoc(f, bytes[..BLOCK], bytes[BLOCK..]);
    assert bytes[..BLOCK] + bytes[BLOCK..] == bytes;
  }
}
