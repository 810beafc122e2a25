/** What the allocator avoids and how often it can be made to jump. */
module Allocation {
  import opened Bytes
  import opened Geometry
  import opened Payload
  import opened Placement

  ghost predicate InRanges(ranges: seq<Range>, b: nat) {
    exists i :: 0 <= i < |ranges| && ranges[i].start <= b < ranges[i].end
  }

  ghost predicate Avoids(ranges: seq<Range>, area: nat) {
    forall b :: InRanges(ranges, b) ==> !Reserved(b, area)
  }

  /** Every block from `from` up to `to` is in the ranges or reserved: none is wasted. */
  ghost predicate Dense(ranges: seq<Range>, from: nat, to: nat, area: nat) {
    forall b :: from <= b < to ==> InRanges(ranges, b) || Reserved(b, area)
  }

  lemma ReservedMonotone(b: nat, area: nat, wider: nat)
    requires area <= wider && Reserved(b, area)
    ensures Reserved(b, wider)
  {
  }

  lemma StillFree(b: nat, area: nat, wider: nat)
    requires area <= wider && !Reserved(b, wider)
    ensures !Reserved(b, area)
  {
  }

  lemma InRangesSnoc(init: seq<Range>, last: Range, b: nat)
    ensures InRanges(init + [last], b) <==> InRanges(init, b) || last.start <= b < last.end
  {
    var r := init + [last];
    if InRanges(init, b) {
      var i :| 0 <= i < |init| && init[i].start <= b < init[i].end;
      assert r[i] == init[i];
    }
    assert r[|init|] == last;
  }

  lemma RecordMembers(ranges: seq<Range>, block: nat, lo: nat, b: nat)
    requires Ascending(ranges) && Within(ranges, lo, block) && lo <= block
    ensures InRanges(Record(ranges, block), b) <==> InRanges(ranges, b) || b == block
  {
    hide InRanges;
    var n := |ranges| - 1;
    if ranges != [] && ranges[n].end == block {
      InRangesSnoc(ranges[..n], Range(ranges[n].start, block + 1), b);
      InRangesSnoc(ranges[..n], ranges[n], b);
      assert ranges == ranges[..n] + [ranges[n]];
    } else {
      InRangesSnoc(ranges, Range(block, block + 1), b);
    }
  }

  lemma RecordAvoids(ranges: seq<Range>, block: nat, lo: nat, area: nat)
    requires Ascending(ranges) && Within(ranges, lo, block) && lo <= block
    requires Avoids(ranges, area) && !Reserved(block, area)
    ensures Avoids(Record(ranges, block), area)
  {
    forall b | InRanges(Record(ranges, block), b) ensures !Reserved(b, area) {
      RecordMembers(ranges, block, lo, b);
    }
  }

  lemma RecordDense(ranges: seq<Range>, block: nat, lo: nat, area: nat, from: nat, at: nat)
    requires Ascending(ranges) && Within(ranges, lo, block) && lo <= block
    requires Dense(ranges, from, at, area)
    requires forall b :: at <= b < block ==> Reserved(b, area)
    ensures Dense(Record(ranges, block), from, block + 1, area)
  {
    forall b | from <= b < block + 1 ensures InRanges(Record(ranges, block), b) || Reserved(b, area) {
      RecordMembers(ranges, block, lo, b);
    }
  }

  /** The shape facts of one step, shared by the inductions below. */
  lemma Step(st: Store, bytes: seq<byte>, ranges: seq<Range>, lo: nat)
      returns (s: Store, t: Store, r: seq<Range>, rest: seq<byte>)
    requires st.off == 0 && bytes != []
    requires Ascending(ranges) && Within(ranges, lo, st.block) && lo <= st.block
    ensures s == SkipReserved(st) && s.block == ReservedEnd(st.block, Area(st.size)) >= st.block
    ensures r == Record(ranges, s.block) && Ascending(r) && Within(r, lo, s.block + 1)
    ensures |rest| < |bytes| && (rest != [] ==> t.off == 0 && t.block == s.block + 1)
    ensures Top(t) == s.block + 1 && st.size <= t.size
    ensures WriteBytes(st, bytes, ranges) == WriteBytes(t, rest, r)
    ensures t.size <= WriteBytes(st, bytes, ranges).store.size
  {
    s := SkipReserved(st);
    SkipForward(st);
    var w := Min(BLOCK - s.off, |bytes|);
    t, r, rest := PutPiece(s, bytes[..w]), Record(ranges, s.block), bytes[w..];
    RecordShape(ranges, s.block, lo);
    WriteForward(t, rest, r);
  }

  /** No payload block is reserved: the ranges avoid every reserved area no larger than the one in
      force when writing began. */
  lemma {:induction false} WriteAvoids(st: Store, bytes: seq<byte>, ranges: seq<Range>, lo: nat, area: nat)
    requires st.off == 0 && WriteBytes(st, bytes, ranges).store.size <= MAX_IMAGE
    requires Ascending(ranges) && Within(ranges, lo, st.block) && lo <= st.block
    requires Avoids(ranges, area) && area <= Area(st.size)
    ensures Avoids(WriteBytes(st, bytes, ranges).ranges, area)
    decreases |bytes|
  {
    if bytes != [] {
      var s, t, r, rest := Step(st, bytes, ranges, lo);
      ReservedEndIsNext(st.block, Area(st.size));
      StillFree(s.block, area, Area(st.size));
      RecordAvoids(ranges, s.block, lo, area);
      AreaMonotone(st.size, t.size);
      if rest != [] { WriteAvoids(t, rest, r, lo, area); }
    }
  }

  /** No block is wasted: between where the cursor was and where it ends, every block belongs to
      the file or is reserved. */
  lemma {:induction false} WriteDense(st: Store, bytes: seq<byte>, ranges: seq<Range>, lo: nat, from: nat, area: nat)
    requires st.off == 0 && WriteBytes(st, bytes, ranges).store.size <= MAX_IMAGE
    requires area == Area(WriteBytes(st, bytes, ranges).store.size)
    requires Ascending(ranges) && Within(ranges, lo, st.block) && lo <= st.block
    requires Dense(ranges, from, st.block, area)
    ensures Dense(WriteBytes(st, bytes, ranges).ranges, from, Top(WriteBytes(st, bytes, ranges).store), area)
    decreases |bytes|
  {
    if bytes != [] {
      var s, t, r, rest := Step(st, bytes, ranges, lo);
      ReservedEndIsNext(st.block, Area(st.size));
      AreaMonotone(st.size, WriteBytes(st, bytes, ranges).store.size);
      forall b | st.block <= b < s.block ensures Reserved(b, area) {
        ReservedMonotone(b, Area(st.size), area);
      }
      RecordDense(ranges, s.block, lo, area, from, st.block);
      if rest != [] { WriteDense(t, rest, r, lo, from, area); }
    }
  }

  // ----- How many ranges a file can need -----

  /** Sparse groups below 2^17 whose reserved area ends after block `b`. */
  ghost function Ahead(b: nat, area: nat): set<nat> {
    set g: nat | g < 0x2_0000 && HasSparse(g) && b < g * GROUP + 1 + area
  }

  /** How many more jumps there can be: one for each reserved area ahead, and one for each time the
      area can still grow, which it does in steps of 32 up to 1024. */
  ghost function Jumps(b: nat, area: nat): nat
    requires area <= ADDRESSES_PER_BLOCK
  {
    |Ahead(b, area)| + (ADDRESSES_PER_BLOCK - area) / 32
  }

  lemma AheadAtMost25(b: nat, area: nat)
    ensures |Ahead(b, area)| <= 25
  {
    AtMost25Sparse(0);
    SubsetSize(Ahead(b, area), SparseFrom(0));
  }

  /** A jump leaves one reserved area behind. */
  lemma JumpSpends(b: nat, area: nat)
    requires b < 0x1_0000_0000 && area <= ADDRESSES_PER_BLOCK && Reserved(b, area)
    ensures Jumps(ReservedEnd(b, area), area) < Jumps(b, area)
  {
    var g, e := b / GROUP, ReservedEnd(b, area);
    assert g in Ahead(b, area) && g !in Ahead(e, area);
    assert Ahead(e, area) <= Ahead(b, area) - {g};
    SubsetSize(Ahead(e, area), Ahead(b, area) - {g});
  }

  /** Moving on, with the area growing, never adds jumps. */
  lemma MovingOn(b: nat, c: nat, area: nat, wider: nat)
    requires b <= c && area <= wider <= ADDRESSES_PER_BLOCK && area % 32 == 0 && wider % 32 == 0
    ensures Jumps(c, wider) <= Jumps(b, area)
  {
    if area == wider {
      SubsetSize(Ahead(c, wider), Ahead(b, area));
    } else {
      var g := c / GROUP;
      forall x | x in Ahead(c, wider) ensures x in Ahead(b, area) + {g} {
        if x * GROUP + 1 + area <= b {
          assert x * GROUP + 1 <= c < (x + 1) * GROUP;
        }
      }
      SubsetSize(Ahead(c, wider), Ahead(b, area) + {g});
    }
  }

  ghost function Opens(ranges: seq<Range>, block: nat): nat {
    if ranges != [] && ranges[|ranges| - 1].end == block then 0 else 1
  }

  lemma RangeStep(ranges: seq<Range>, b: nat, e: nat, r: seq<Range>, area: nat, wider: nat)
    requires b < 0x1_0000_0000 && area <= wider <= ADDRESSES_PER_BLOCK && area % 32 == 0 && wider % 32 == 0
    requires e == ReservedEnd(b, area) && r == Record(ranges, e)
    ensures |r| + Jumps(e + 1, wider) <= |ranges| + Opens(ranges, b) + Jumps(b, area)
  {
    MovingOn(e, e + 1, area, wider);
    if e != b { JumpSpends(b, area); }
  }

  lemma {:induction false} RangeCount(st: Store, bytes: seq<byte>, ranges: seq<Range>, lo: nat)
    requires st.off == 0 && Fits(WriteBytes(st, bytes, ranges).store)
    requires Ascending(ranges) && Within(ranges, lo, st.block) && lo <= st.block
    ensures |WriteBytes(st, bytes, ranges).ranges| <= |ranges| + Opens(ranges, st.block)
            + Jumps(st.block, Area(st.size))
    decreases |bytes|
  {
    hide WriteBytes, Jumps, Record, Area, ReservedEnd, SkipReserved, Ascending;
    if bytes == [] {
      WriteNothing(st, ranges);
    } else {
      var s, t, r, rest := Step(st, bytes, ranges, lo);
      WriteForward(st, bytes, ranges);
      AreaMonotone(st.size, t.size);
      RangeStep(ranges, st.block, s.block, r, Area(st.size), Area(t.size));
      if rest == [] {
        WriteNothing(t, r);
      } else {
        RangeCount(t, rest, r, lo);
        RecordCloses(ranges, s.block);
      }
    }
  }

  lemma RecordCloses(ranges: seq<Range>, block: nat)
    requires Within(ranges, 0, block)
    ensures Opens(Record(ranges, block), block + 1) == 0
  {
  }

  /** A file never needs more than 57 ranges, whatever its length and wherever it starts. */
  lemma {:induction false} AtMost57Ranges(st: Store, bytes: seq<byte>)
    requires st.off == 0 && Fits(WriteBytes(st, bytes, []).store)
    ensures |WriteBytes(st, bytes, []).ranges| <= 57
  {
    RangeCount(st, bytes, [], st.block);
    AheadAtMost25(st.block, Area(st.size));
  }

  lemma {:induction false} WriteTotal(st: Store, bytes: seq<byte>, ranges: seq<Range>, lo: nat)
    requires st.off == 0
    requires Ascending(ranges) && Within(ranges, lo, st.block) && lo <= st.block
    ensures Total(WriteBytes(st, bytes, ranges).ranges) == Total(ranges) + BlocksFor(|bytes|)
  {
    var pad := WriteLands(st, bytes, ranges, lo);
    var w := WriteBytes(st, bytes, ranges);
    FlatLength(w.store.disk, w.ranges);
    FlatLength(st.disk, ranges);
    assert BLOCK * Total(w.ranges) == BLOCK * Total(ranges) + |bytes| + |pad|;
  }
}
