/** The single-pass payload allocator: a cursor that moves forward through the image, skips
    reserved metadata blocks and records the block ranges it fills. */
module Payload {
  import opened Bytes
  import opened Geometry

  type Block = b: seq<byte> | |b| == 4096 witness Zeros(4096)
  type Offset = x: int | 0 <= x < 4096
  type positive = n: int | n >= 1 witness 1

  /** The image file by blocks; a block never written is a hole that reads as zeros. */
  type Disk = map<nat, Block>

  function BlockAt(d: Disk, b: nat): Block {
    if b in d then d[b] else Zeros(4096)
  }

  /** The image, the cursor as block number and offset within the block, and the image size in
      bytes that the formatter tracks. */
  datatype Store = Store(disk: Disk, block: nat, off: Offset, size: positive)

  datatype Written = Written(store: Store, ranges: seq<Range>)

  const MAX_FILE_SIZE: nat := 128 * 1024 * 1024 * 1024

  /** Everything so far lies below 2^32 blocks. */
  predicate Fits(st: Store) {
    st.block < 0x1_0000_0000 && st.size <= MAX_IMAGE
  }

  function SkipReserved(st: Store): Store {
    if st.off != 0 then st
    else st.(block := ReservedEnd(st.block, Area(st.size)))
  }

  function Record(ranges: seq<Range>, block: nat): seq<Range> {
    if ranges != [] && ranges[|ranges| - 1].start <= block < ranges[|ranges| - 1].end then ranges
    else if ranges != [] && ranges[|ranges| - 1].end == block then
      ranges[..|ranges| - 1] + [Range(ranges[|ranges| - 1].start, block + 1)]
    else ranges + [Range(block, block + 1)]
  }

  function Overwrite(b: Block, off: nat, piece: seq<byte>): Block
    requires off + |piece| <= 4096
  {
    b[..off] + piece + b[off + |piece|..]
  }

  /** Put one piece, no longer than what is left of the current block, at the cursor. */
  function PutPiece(st: Store, piece: seq<byte>): Store
    requires st.off + |piece| <= 4096
  {
    var end := st.off + |piece|;
    Store(st.disk[st.block := Overwrite(BlockAt(st.disk, st.block), st.off, piece)],
          if end == 4096 then st.block + 1 else st.block,
          if end == 4096 then 0 else end,
          Max(st.size, st.block * BLOCK + end))
  }

  function WriteBytes(st: Store, bytes: seq<byte>, ranges: seq<Range>): Written
    decreases |bytes|
  {
    if bytes == [] then Written(st, ranges)
    else
      var s := SkipReserved(st);
      var w := Min(BLOCK - s.off, |bytes|);
      WriteBytes(PutPiece(s, bytes[..w]), bytes[w..], Record(ranges, s.block))
  }

  function Align(st: Store): Store {
    if st.off == 0 then st else st.(block := st.block + 1, off := 0)
  }

  function WriteAligned(st: Store, bytes: seq<byte>): Written {
    var w := WriteBytes(SkipReserved(Align(st)), bytes, []);
    w.(store := Align(w.store))
  }

  function Concat(chunks: seq<seq<byte>>): seq<byte> {
    if chunks == [] then [] else chunks[0] + Concat(chunks[1..])
  }

  datatype ReaderResult = Stored(written: Written, size: nat) | TooBig(written: Written)

  /** What the reader loop does with the pieces the reader hands out; it gives up, with what it
      has written left behind, at the first piece that takes the file over the limit. */
  function WriteChunks(st: Store, chunks: seq<seq<byte>>, ranges: seq<Range>, size: nat): ReaderResult
    decreases |chunks|
  {
    if chunks == [] then Stored(Written(st, ranges), size)
    else if size + |chunks[0]| > MAX_FILE_SIZE then TooBig(Written(st, ranges))
    else
      var w := WriteBytes(st, chunks[0], ranges);
      WriteChunks(w.store, chunks[1..], w.ranges, size + |chunks[0]|)
  }

  // ----- The pieces a reader hands out do not matter -----

  ghost predicate LastSane(ranges: seq<Range>) {
    ranges == [] || ranges[|ranges| - 1].start <= ranges[|ranges| - 1].end
  }

  lemma RecordTwice(ranges: seq<Range>, block: nat)
    requires LastSane(ranges)
    ensures Record(Record(ranges, block), block) == Record(ranges, block)
    ensures LastSane(Record(ranges, block))
  {
    var r := Record(ranges, block);
    assert r[|r| - 1].start <= block < r[|r| - 1].end;
  }

  lemma SkipTwice(st: Store)
    ensures SkipReserved(SkipReserved(st)) == SkipReserved(st)
  {
    ReservedEndIsNext(st.block, Area(st.size));
  }

  lemma OverwriteTwice(b: Block, off: nat, p: seq<byte>, q: seq<byte>)
    requires off + |p| + |q| <= 4096
    ensures Overwrite(Overwrite(b, off, p), off + |p|, q) == Overwrite(b, off, p + q)
  {
  }

  lemma PutPieces(s: Store, a: seq<byte>, b: seq<byte>)
    requires s.off + |a| + |b| <= 4096 && s.off + |a| < 4096
    ensures PutPiece(PutPiece(s, a), b) == PutPiece(s, a + b)
  {
    var blk := BlockAt(s.disk, s.block);
    OverwriteTwice(blk, s.off, a, b);
    var s1 := PutPiece(s, a);
    assert BlockAt(s1.disk, s.block) == Overwrite(blk, s.off, a);
    assert s1.disk[s.block := Overwrite(blk, s.off, a + b)] == s.disk[s.block := Overwrite(blk, s.off, a + b)];
  }

  /** One unfolding of WriteBytes, at a cursor that needs no skip. */
  lemma {:induction false} WriteStep(s: Store, head: seq<byte>, rest: seq<byte>, ranges: seq<Range>)
    requires SkipReserved(s) == s && head != [] && |head| == Min(BLOCK - s.off, |head + rest|)
    ensures WriteBytes(s, head + rest, ranges) == WriteBytes(PutPiece(s, head), rest, Record(ranges, s.block))
  {
    var w := |head|;
    assert (head + rest)[..w] == head && (head + rest)[w..] == rest;
  }

  /** Carrying on in the middle of a block: the rest of the block joins the piece already there. */
  lemma {:induction false} MidBlock(s: Store, a: seq<byte>, b1: seq<byte>, b2: seq<byte>, ranges: seq<Range>)
    requires LastSane(ranges)
    requires a != [] && b1 != [] && s.off + |a| < BLOCK
    requires |b1| == Min(BLOCK - s.off - |a|, |b1 + b2|)
    ensures WriteBytes(PutPiece(s, a), b1 + b2, Record(ranges, s.block)) ==
            WriteBytes(PutPiece(s, a + b1), b2, Record(ranges, s.block))
  {
    PutPieces(s, a, b1);
    RecordTwice(ranges, s.block);
    WriteStep(PutPiece(s, a), b1, b2, Record(ranges, s.block));
  }

  /** The first piece of `a + b` when `a` fits in the current block. */
  lemma {:induction false} ShortFirst(s: Store, a: seq<byte>, b: seq<byte>, ranges: seq<Range>)
    requires SkipReserved(s) == s && LastSane(ranges)
    requires a != [] && b != [] && |a| <= BLOCK - s.off
    ensures WriteBytes(PutPiece(s, a), b, Record(ranges, s.block)) == WriteBytes(s, a + b, ranges)
  {
    hide WriteBytes, Record, SkipReserved, LastSane;
    if |a| == BLOCK - s.off {
      WriteStep(s, a, b, ranges);
    } else {
      var n := Min(BLOCK - s.off - |a|, |b|);
      Regroup(s, a, b, b[..n], b[n..], ranges);
    }
  }

  lemma {:induction false} Regroup(s: Store, a: seq<byte>, b: seq<byte>, b1: seq<byte>, b2: seq<byte>,
                                   ranges: seq<Range>)
    requires SkipReserved(s) == s && LastSane(ranges)
    requires a != [] && b1 != [] && b == b1 + b2 && s.off + |a| < BLOCK
    requires |b1| == Min(BLOCK - s.off - |a|, |b|)
    ensures WriteBytes(PutPiece(s, a), b, Record(ranges, s.block)) == WriteBytes(s, a + b, ranges)
  {
    hide WriteBytes, Record, SkipReserved, LastSane;
    Assoc(a, b1, b2);
    MidBlock(s, a, b1, b2, ranges);
    WriteStep(s, a + b1, b2, ranges);
  }

  lemma {:induction false} WriteBytesAppend(st: Store, a: seq<byte>, b: seq<byte>, ranges: seq<Range>)
    requires LastSane(ranges)
    ensures LastSane(WriteBytes(st, a, ranges).ranges)
    ensures var w := WriteBytes(st, a, ranges);
            WriteBytes(w.store, b, w.ranges) == WriteBytes(st, a + b, ranges)
    decreases |a|
  {
    if a == [] {
      assert a + b == b;
    } else {
      var s := SkipReserved(st);
      SkipTwice(st);
      RecordTwice(ranges, s.block);
      var w := Min(BLOCK - s.off, |a|);
      if w == |a| {
        assert a[..w] == a && a[w..] == [];
        if b == [] {
          assert a + b == a;
        } else {
          ShortFirst(s, a, b, ranges);
        }
      } else {
        assert (a + b)[..w] == a[..w] && (a + b)[w..] == a[w..] + b;
        WriteBytesAppend(PutPiece(s, a[..w]), a[w..], b, Record(ranges, s.block));
      }
    }
  }

  lemma WriteUnfold(st: Store, bytes: seq<byte>, ranges: seq<Range>)
    requires bytes != []
    ensures var s := SkipReserved(st);
            var w := Min(BLOCK - s.off, |bytes|);
            WriteBytes(st, bytes, ranges) == WriteBytes(PutPiece(s, bytes[..w]), bytes[w..], Record(ranges, s.block))
  {
    hide PutPiece, Record, SkipReserved;
  }

  lemma {:induction false} WriteNothing(st: Store, ranges: seq<Range>)
    ensures WriteBytes(st, [], ranges) == Written(st, ranges)
  {
  }

  lemma ChunkStep(st: Store, chunks: seq<seq<byte>>, ranges: seq<Range>, size: nat, w: Written)
    requires chunks != [] && size + |chunks[0]| <= MAX_FILE_SIZE && w == WriteBytes(st, chunks[0], ranges)
    ensures WriteChunks(st, chunks, ranges, size) == WriteChunks(w.store, chunks[1..], w.ranges, size + |chunks[0]|)
  {
  }

  /** Chunk independence: however the reader cuts the content up, the image, the cursor and the
      recorded ranges are those of writing it in one go. */
  lemma {:induction false} ChunksDoNotMatter(st: Store, chunks: seq<seq<byte>>, ranges: seq<Range>, size: nat)
    requires LastSane(ranges) && size + |Concat(chunks)| <= MAX_FILE_SIZE
    ensures WriteChunks(st, chunks, ranges, size) ==
            Stored(WriteBytes(st, Concat(chunks), ranges), size + |Concat(chunks)|)
    decreases |chunks|
  {
    hide WriteBytes, LastSane;
    if chunks == [] {
      WriteNothing(st, ranges);
    } else {
      var c, rest := chunks[0], chunks[1..];
      var w := WriteBytes(st, c, ranges);
      var tail := Concat(rest);
      WriteBytesAppend(st, c, tail, ranges);
      ChunkStep(st, chunks, ranges, size, w);
      ChunksDoNotMatter(w.store, rest, w.ranges, size + |c|);
    }
  }

  /** The reader loop takes exactly the contents of up to 128 GiB. */
  lemma {:induction false} AcceptedSizes(st: Store, chunks: seq<seq<byte>>, ranges: seq<Range>, size: nat)
    requires size <= MAX_FILE_SIZE
    ensures WriteChunks(st, chunks, ranges, size).Stored? <==> size + |Concat(chunks)| <= MAX_FILE_SIZE
    decreases |chunks|
  {
    if chunks != [] && size + |chunks[0]| <= MAX_FILE_SIZE {
      var w := WriteBytes(st, chunks[0], ranges);
      AcceptedSizes(w.store, chunks[1..], w.ranges, size + |chunks[0]|);
    }
  }
}
