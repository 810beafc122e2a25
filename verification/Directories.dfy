/** Directory blocks: variable-length records packed into whole blocks, each block closed by a
    terminator that takes up what is left. */
module Directories {
  import opened Bytes
  import opened Geometry
  import opened FileTree

  /** A directory entry; `kind` is the file type code in the record. */
  datatype Entry = Entry(name: Name, inode: nat, kind: byte)

  ghost predicate Storable(e: Entry) {
    |e.name| <= 255 && 0 < e.inode < 0x1_0000_0000
  }

  ghost predicate AllStorable(entries: seq<Entry>) {
    forall i :: 0 <= i < |entries| ==> Storable(entries[i])
  }

  function RecordSize(nameLength: nat): nat { (8 + nameLength + 3) / 4 * 4 }

  lemma RecordSizes(n: nat)
    ensures 8 + n <= RecordSize(n) < 8 + n + 4 && RecordSize(n) % 4 == 0
    ensures 1 <= n <= 255 ==> 12 <= RecordSize(n) <= 264
  {
  }

  function DirRecord(inode: nat, size: nat, name: seq<byte>, kind: byte): (b: seq<byte>)
    requires 8 + |name| <= size && |name| <= 255
    ensures |b| == size
  {
    LE(inode, 4) + LE(size, 2) + [|name| as byte, kind] + name + Zeros(size - 8 - |name|)
  }

  function EntryBytes(e: Entry): (b: seq<byte>)
    requires |e.name| <= 255
    ensures |b| == RecordSize(|e.name|)
  {
    RecordSizes(|e.name|);
    DirRecord(e.inode, RecordSize(|e.name|), e.name, e.kind)
  }

  // ----- Packing entries into blocks -----

  function SizeOf(entries: seq<Entry>): nat {
    if entries == [] then 0 else SizeOf(entries[..|entries| - 1]) + RecordSize(|entries[|entries| - 1].name|)
  }

  /** Each block takes entries as long as a terminator of 12 bytes still fits behind them. */
  function Pack(current: seq<Entry>, entries: seq<Entry>): (blocks: seq<seq<Entry>>)
    ensures blocks != []
    decreases |entries|
  {
    if entries == [] then [current]
    else if BLOCK < SizeOf(current) + RecordSize(|entries[0].name|) + 12 then
      [current] + Pack([entries[0]], entries[1..])
    else Pack(current + [entries[0]], entries[1..])
  }

  function RecordsBytes(entries: seq<Entry>): (b: seq<byte>)
    requires forall i :: 0 <= i < |entries| ==> |entries[i].name| <= 255
    ensures |b| == SizeOf(entries)
  {
    if entries == [] then []
    else RecordsBytes(entries[..|entries| - 1]) + EntryBytes(entries[|entries| - 1])
  }

  /** The records of one block and the terminator behind them. */
  function BlockBytes(entries: seq<Entry>): (b: seq<byte>)
    requires Packed(entries)
    ensures |b| == BLOCK
  {
    RecordsBytes(entries) + DirRecord(0, BLOCK - SizeOf(entries), [], 0)
  }

  /** A block as the packing leaves it: short names, room for the terminator. */
  ghost predicate Packed(entries: seq<Entry>) {
    AllStorable(entries) && SizeOf(entries) + 12 <= BLOCK
  }

  function AllBytes(blocks: seq<seq<Entry>>): seq<byte>
    requires forall i :: 0 <= i < |blocks| ==> Packed(blocks[i])
  {
    if blocks == [] then [] else assert Packed(blocks[0]); BlockBytes(blocks[0]) + AllBytes(blocks[1..])
  }

  function Flatten(blocks: seq<seq<Entry>>): seq<Entry> {
    if blocks == [] then [] else blocks[0] + Flatten(blocks[1..])
  }

  lemma {:induction false} SizeOfSnoc(entries: seq<Entry>, e: Entry)
    ensures SizeOf(entries + [e]) == SizeOf(entries) + RecordSize(|e.name|)
  {
    assert (entries + [e])[..|entries|] == entries;
  }

  /** No entry is lost, repeated or moved, and the space left in every block is at least 12 bytes. */
  lemma {:induction false} PackKeeps(current: seq<Entry>, entries: seq<Entry>)
    requires Packed(current) && AllStorable(entries)
    ensures Flatten(Pack(current, entries)) == current + entries
    ensures forall i :: 0 <= i < |Pack(current, entries)| ==> Packed(Pack(current, entries)[i])
    decreases |entries|
  {
    hide RecordSize, SizeOf, Packed, Storable, Flatten;
    if entries == [] {
      FlattenOne(current);
    } else {
      var e := entries[0];
      assert Storable(e);
      NoRecords();
      if BLOCK < SizeOf(current) + RecordSize(|e.name|) + 12 {
        RecordSizes(|e.name|);
        PackedSnoc([], e);
        assert [] + [e] == [e];
        PackKeeps([e], entries[1..]);
        FlattenCons(current, Pack([e], entries[1..]));
        assert entries == [e] + entries[1..];
      } else {
        PackedSnoc(current, e);
        PackKeeps(current + [e], entries[1..]);
        assert current + [e] + entries[1..] == current + entries;
      }
    }
  }

  lemma FlattenOne(block: seq<Entry>)
    ensures Flatten([block]) == block + []
  {
    assert [block][1..] == [];
  }

  lemma {:induction false} FlattenCons(first: seq<Entry>, rest: seq<seq<Entry>>)
    ensures Flatten([first] + rest) == first + Flatten(rest)
  {
    assert ([first] + rest)[1..] == rest;
  }

  lemma NoRecords()
    ensures RecordsBytes([]) == [] && SizeOf([]) == 0 && Packed([])
  {
  }

  /** One more record in the block, while the terminator still fits. */
  lemma {:induction false} PackedSnoc(current: seq<Entry>, e: Entry)
    requires Packed(current) && Storable(e) && (SizeOf(current) + RecordSize(|e.name|) + 12 <= BLOCK || current == [])
    ensures Packed(current + [e]) && SizeOf(current + [e]) == SizeOf(current) + RecordSize(|e.name|)
    ensures forall i :: 0 <= i < |current| ==> |current[i].name| <= 255
    ensures RecordsBytes(current + [e]) == RecordsBytes(current) + EntryBytes(e)
  {
    hide EntryBytes, RecordSize, RecordsBytes;
    RecordSizes(|e.name|);
    SizeOfSnoc(current, e);
    RecordsSnoc(current, e);
  }

  lemma {:induction false} RecordsSnoc(current: seq<Entry>, e: Entry)
    requires AllStorable(current) && Storable(e)
    ensures RecordsBytes(current + [e]) == RecordsBytes(current) + EntryBytes(e)
  {
    hide EntryBytes, RecordSize, SizeOf;
    assert (current + [e])[..|current|] == current;
  }

  // ----- Parsing -----

  /** The entry that the record at `offset` stands for, if any. */
  function EntryHere(data: seq<byte>, offset: nat): seq<(Name, nat)>
    requires offset + 8 <= |data|
  {
    var end := offset + 8 + data[offset + 6] as int;
    if Field(data, offset, 4) != 0 && data[offset + 6] > 0 && end <= |data| then
      [(data[offset + 8..end], Field(data, offset, 4))]
    else []
  }

  /** The entries of one block, record by record; a record length of zero ends it. */
  function ParseEntries(data: seq<byte>): seq<(Name, nat)>
    decreases |data|
  {
    if |data| < 8 then []
    else
      var size := Field(data, 4, 2);
      if size == 0 then [] else EntryHere(data, 0) + (if size <= |data| then ParseEntries(data[size..]) else [])
  }

  function ParseBlocks(data: seq<byte>): seq<(Name, nat)>
    decreases |data|
  {
    if |data| < BLOCK then [] else ParseEntries(data[..BLOCK]) + ParseBlocks(data[BLOCK..])
  }

  function Pairs(entries: seq<Entry>): (r: seq<(Name, nat)>)
    ensures |r| == |entries| && forall i :: 0 <= i < |r| ==> r[i] == (entries[i].name, entries[i].inode)
  {
    seq(|entries|, i requires 0 <= i < |entries| => (entries[i].name, entries[i].inode))
  }

  /** The fields of a record that stands at the front. */
  lemma RecordFields(data: seq<byte>, inode: nat, size: nat, name: seq<byte>, kind: byte)
    requires 8 + |name| <= size <= |data| && |name| <= 255 && inode < 0x1_0000_0000 && size < 0x1_0000
    requires data[..size] == DirRecord(inode, size, name, kind)
    ensures Field(data, 0, 4) == inode && Field(data, 4, 2) == size && data[6] == |name| && data[8..8 + |name|] == name
  {
    hide Field;
    var r := DirRecord(inode, size, name, kind);
    RecordParts(inode, size, name, kind);
    assert data[0..size] == r;
    SliceVia(data, 0, size, r, 0, 4, LE(inode, 4));
    SliceVia(data, 0, size, r, 4, 6, LE(size, 2));
    SliceVia(data, 0, size, r, 8, 8 + |name|, name);
    FieldRead(data, 0, 4, inode);
    FieldRead(data, 4, 2, size);
    assert data[6] == data[0..size][6];
  }

  lemma {:induction false} RecordParts(inode: nat, size: nat, name: seq<byte>, kind: byte)
    requires 8 + |name| <= size && |name| <= 255
    ensures var r := DirRecord(inode, size, name, kind);
            r[0..4] == LE(inode, 4) && r[4..6] == LE(size, 2) && r[6] == |name| && r[8..8 + |name|] == name
  {
    hide LE;
  }

  lemma {:induction false} ParseOne(e: Entry, rest: seq<byte>)
    requires Storable(e)
    ensures ParseEntries(EntryBytes(e) + rest) == [(e.name, e.inode)] + ParseEntries(rest)
  {
    hide DirRecord, Field, RecordSize;
    var data, size := EntryBytes(e) + rest, RecordSize(|e.name|);
    RecordSizes(|e.name|);
    assert data[..size] == EntryBytes(e) && data[size..] == rest;
    RecordFields(data, e.inode, size, e.name, e.kind);
  }

  lemma ParseTerminator(size: nat)
    requires 8 <= size <= BLOCK
    ensures ParseEntries(DirRecord(0, size, [], 0)) == []
  {
    hide DirRecord, Field;
    var data := DirRecord(0, size, [], 0);
    assert data[..size] == data && data[size..] == [];
    RecordFields(data, 0, size, [], 0);
    assert ParseEntries([]) == [];
  }

  lemma {:induction false} ParseRecords(entries: seq<Entry>, tail: seq<byte>)
    requires AllStorable(entries)
    ensures ParseEntries(RecordsBytes(entries) + tail) == Pairs(entries) + ParseEntries(tail)
    decreases |entries|
  {
    hide ParseEntries, EntryBytes;
    if entries == [] {
      assert [] + tail == tail && Pairs(entries) + ParseEntries(tail) == ParseEntries(tail);
    } else {
      var n := |entries| - 1;
      var init, last := entries[..n], entries[n];
      Assoc(RecordsBytes(init), EntryBytes(last), tail);
      ParseRecords(init, EntryBytes(last) + tail);
      ParseOne(last, tail);
      Assoc(Pairs(init), [(last.name, last.inode)], ParseEntries(tail));
      assert Pairs(entries) == Pairs(init) + [(last.name, last.inode)];
    }
  }

  lemma BlockRoundTrip(entries: seq<Entry>)
    requires Packed(entries)
    ensures ParseEntries(BlockBytes(entries)) == Pairs(entries)
  {
    hide ParseEntries, RecordsBytes, DirRecord;
    ParseRecords(entries, DirRecord(0, BLOCK - SizeOf(entries), [], 0));
    ParseTerminator(BLOCK - SizeOf(entries));
    assert Pairs(entries) + [] == Pairs(entries);
  }

  lemma {:induction false} BlocksRoundTrip(blocks: seq<seq<Entry>>)
    requires forall i :: 0 <= i < |blocks| ==> Packed(blocks[i])
    ensures |AllBytes(blocks)| == BLOCK * |blocks|
    ensures ParseBlocks(AllBytes(blocks)) == Pairs(Flatten(blocks))
  {
    hide ParseEntries, BlockBytes, Packed, Pairs;
    if blocks == [] {
      assert Pairs([]) == [];
    } else {
      var first, rest := blocks[0], blocks[1..];
      assert Packed(first);
      BlocksRoundTrip(rest);
      BlockRoundTrip(first);
      FrontBlock(BlockBytes(first), AllBytes(rest));
      assert Pairs(first + Flatten(rest)) == Pairs(first) + Pairs(Flatten(rest));
    }
  }

  lemma FrontBlock(b: seq<byte>, rest: seq<byte>)
    requires |b| == BLOCK
    ensures (b + rest)[..BLOCK] == b && (b + rest)[BLOCK..] == rest
  {
  }

  function DirBytes(entries: seq<Entry>): seq<byte>
    requires AllStorable(entries)
  {
    PackKeeps([], entries);
    AllBytes(Pack([], entries))
  }

  /** Whole blocks come out, and parsing them block by block gives back every entry in order. */
  lemma {:induction false} DirectoryRoundTrip(entries: seq<Entry>)
    requires AllStorable(entries)
    ensures |DirBytes(entries)| == BLOCK * |Pack([], entries)| > 0
    ensures ParseBlocks(DirBytes(entries)) == Pairs(entries)
  {
    hide AllBytes, ParseBlocks;
    PackKeeps([], entries);
    assert [] + entries == entries;
    BlocksRoundTrip(Pack([], entries));
  }

  // ----- The writer and the parser at work -----

  lemma {:induction false} AllBytesSnoc(blocks: seq<seq<Entry>>, last: seq<Entry>)
    requires (forall i :: 0 <= i < |blocks| ==> Packed(blocks[i])) && Packed(last)
    ensures forall i :: 0 <= i < |blocks + [last]| ==> Packed((blocks + [last])[i])
    ensures AllBytes(blocks + [last]) == AllBytes(blocks) + BlockBytes(last)
  {
    hide Packed, BlockBytes;
    var all := blocks + [last];
    if blocks == [] {
      assert all == [last] && all[1..] == [];
      assert AllBytes(all) == BlockBytes(last) + AllBytes([]);
      assert BlockBytes(last) + [] == [] + BlockBytes(last);
    } else {
      assert all[1..] == blocks[1..] + [last] && all[0] == blocks[0];
      assert Packed(blocks[0]);
      AllBytesSnoc(blocks[1..], last);
      Assoc(BlockBytes(blocks[0]), AllBytes(blocks[1..]), BlockBytes(last));
    }
  }

  /** The buffer a directory is written into, and the space left in its current block. */
  class DirBuffer {
    var buf: seq<byte>
    var left: int
    ghost var done: seq<seq<Entry>>
    ghost var current: seq<Entry>

    ghost predicate Valid()
      reads this
    {
      && (forall i :: 0 <= i < |done| ==> Packed(done[i])) && Packed(current)
      && buf == AllBytes(done) + RecordsBytes(current) && left == BLOCK - SizeOf(current)
    }

    constructor ()
      ensures Valid() && done == [] && current == []
    {
      buf, left, done, current := [], BLOCK, [], [];
    }

    /** Close the block with a terminator. At least 12 bytes are left for it, so the guard
        against a full block never takes effect. */
    method Finish()
      requires Valid()
      modifies this
      ensures Valid() && done == old(done) + [old(current)] && current == []
    {
      hide DirRecord, RecordsBytes, AllBytes;
      AllBytesSnoc(done, current);
      Assoc(AllBytes(done), RecordsBytes(current), DirRecord(0, left, [], 0));
      buf := buf + DirRecord(0, left, [], 0);
      left := BLOCK;
      done, current := done + [current], [];
      NoRecords();
      assert AllBytes(done) + [] == AllBytes(done);
    }

    method Write(e: Entry)
      requires Valid() && Storable(e)
      modifies this
      ensures Valid()
      ensures if BLOCK < SizeOf(old(current)) + RecordSize(|e.name|) + 12 then done == old(done) + [old(current)]
              && current == [e]
              else done == old(done) && current == old(current) + [e]
    {
      hide EntryBytes, AllBytes, RecordSize, RecordsBytes, SizeOf, Packed, Storable;
      var size := RecordSize(|e.name|);
      NoRecords();
      if left < size + 12 { Finish(); }
      PackedSnoc(current, e);
      assert [] + [e] == [e];
      ShortName(e);
      Assoc(AllBytes(done), RecordsBytes(current), EntryBytes(e));
      buf := buf + EntryBytes(e);
      left := left - size;
      current := current + [e];
    }
  }

  lemma ShortName(e: Entry)
    requires Storable(e)
    ensures |e.name| <= 255
  {
  }

  method WriteDirectory(entries: seq<Entry>) returns (buf: seq<byte>)
    requires AllStorable(entries)
    ensures buf == DirBytes(entries)
  {
    hide AllBytes, RecordsBytes, RecordSize, Packed, SizeOf;
    var b := new DirBuffer();
    PackKeeps([], entries);
    for i := 0 to |entries|
      invariant b.Valid() && b.done + Pack(b.current, entries[i..]) == Pack([], entries)
    {
      assert entries[i..][0] == entries[i] && entries[i..][1..] == entries[i + 1..];
      assert Storable(entries[i]);
      Assoc(b.done, [b.current], Pack([entries[i]], entries[i + 1..]));
      b.Write(entries[i]);
    }
    b.Finish();
    NoRecords();
    assert AllBytes(b.done) + [] == AllBytes(b.done);
    buf := b.buf;
  }

  lemma SameField(data: seq<byte>, offset: nat, at: nat, n: nat)
    requires offset + at + n <= |data|
    ensures Field(data[offset..], at, n) == Field(data, offset + at, n)
  {
    assert data[offset..][at..at + n] == data[offset + at..offset + at + n];
  }

  lemma ParseStep(data: seq<byte>, offset: nat)
    requires offset + 8 <= |data|
    ensures var size := Field(data, offset + 4, 2);
            ParseEntries(data[offset..]) ==
              if size == 0 then []
              else EntryHere(data, offset) + (if offset + size <= |data| then ParseEntries(data[offset + size..])
                                              else [])
  {
    hide Field, EntryHere;
    var rest := data[offset..];
    SameField(data, offset, 0, 4);
    SameField(data, offset, 4, 2);
    SameEntry(data, offset);
    var size := Field(data, offset + 4, 2);
    if size <= |rest| { assert rest[size..] == data[offset + size..]; }
  }

  lemma SameEntry(data: seq<byte>, offset: nat)
    requires offset + 8 <= |data|
    ensures EntryHere(data[offset..], 0) == EntryHere(data, offset)
  {
    hide Field;
    var rest, length := data[offset..], data[offset + 6] as int;
    SameField(data, offset, 0, 4);
    if 8 + length <= |rest| { assert rest[8..8 + length] == data[offset + 8..offset + 8 + length]; }
  }

  /** Walk the records of a block; a record length of zero ends the walk. */
  method ReadEntries(data: seq<byte>) returns (entries: seq<(Name, nat)>)
    ensures entries == ParseEntries(data)
  {
    hide Field, ParseEntries, EntryHere, Rest;
    entries := [];
    var offset: nat := 0;
    RestAll(data);
    while offset + 8 <= |data|
      invariant entries + Rest(data, offset) == ParseEntries(data)
      decreases |data| - offset
    {
      RestStep(data, offset);
      var size := Field(data, offset + 4, 2);
      if size == 0 { return; }
      Assoc(entries, EntryHere(data, offset), Rest(data, offset + size));
      entries := entries + EntryHere(data, offset);
      offset := offset + size;
    }
    TooShort(data, offset);
  }

  function Rest(data: seq<byte>, offset: nat): seq<(Name, nat)> {
    if offset <= |data| then ParseEntries(data[offset..]) else []
  }

  lemma {:induction false} RestAll(data: seq<byte>)
    ensures [] + Rest(data, 0) == ParseEntries(data)
  {
    assert data[0..] == data;
  }

  lemma RestStep(data: seq<byte>, offset: nat)
    requires offset + 8 <= |data|
    ensures var size := Field(data, offset + 4, 2);
            Rest(data, offset) == if size == 0 then [] else EntryHere(data, offset) + Rest(data, offset + size)
  {
    hide Field, ParseEntries, EntryHere;
    ParseStep(data, offset);
  }

  lemma TooShort(data: seq<byte>, offset: nat)
    requires offset + 8 > |data|
    ensures Rest(data, offset) == []
  {
  }
}
