/** What the metadata of a closed image looks like in bytes: inode records, group descriptors, the superblock,
    block lists and bitmaps; and how the reader gets an inode out of them. */
module Records {
  import opened Bytes
  import opened Geometry
  import opened Payload
  import opened Fs
  import opened Bitmaps

  // ----- Records made of parts -----

  function StartOf(parts: seq<seq<byte>>, i: nat): nat
    requires i <= |parts|
  {
    if i == 0 then 0 else StartOf(parts, i - 1) + |parts[i - 1]|
  }

  lemma {:induction false} ConcatSnoc(parts: seq<seq<byte>>, last: seq<byte>)
    ensures Concat(parts + [last]) == Concat(parts) + last
  {
    if parts == [] {
      assert [last][1..] == [] && parts + [last] == [last];
    } else {
      assert (parts + [last])[1..] == parts[1..] + [last];
      ConcatSnoc(parts[1..], last);
    }
  }

  lemma {:induction false} OffsetPrefix(parts: seq<seq<byte>>, n: nat, i: nat)
    requires i <= n <= |parts|
    ensures StartOf(parts[..n], i) == StartOf(parts, i)
  {
    if i > 0 { OffsetPrefix(parts, n, i - 1); }
  }

  /** Each part stands behind the ones before it. */
  lemma {:induction false} PartAt(parts: seq<seq<byte>>, i: nat)
    requires i < |parts|
    ensures |Concat(parts)| == StartOf(parts, |parts|) && StartOf(parts, i) + |parts[i]| <= |Concat(parts)|
    ensures Concat(parts)[StartOf(parts, i)..StartOf(parts, i) + |parts[i]|] == parts[i]
    decreases |parts|
  {
    hide Concat;
    var n := |parts| - 1;
    var init, last := parts[..n], parts[n];
    assert parts == init + [last];
    ConcatSnoc(init, last);
    OffsetPrefix(parts, n, n);
    OffsetPrefix(parts, n, i);
    if n == 0 {
      NoParts();
      assert init == [];
    } else if i < n {
      PartAt(init, i);
    } else {
      PartAt(init, 0);
    }
  }

  lemma {:induction false} NoParts()
    ensures Concat([]) == []
  {
  }

  // ----- Inode records -----

  const RECORD: nat := 256
  const FIELD_SIZE: nat := 60
  const S_IFDIR: nat := 0x4000
  const S_IFREG: nat := 0x8000
  const S_IFLNK: nat := 0xA000

  type InodeBytes = b: seq<byte> | |b| == 256 witness Zeros(256)

  function TypeBits(k: Kind): nat {
    match k
    case Unused => 0
    case Directory => S_IFDIR
    case Regular => S_IFREG
    case Symlink => S_IFLNK
  }

  function TypeOf(mode: nat): Kind {
    if mode / 0x1000 * 0x1000 == S_IFDIR then Directory
    else if mode / 0x1000 * 0x1000 == S_IFREG then Regular
    else if mode / 0x1000 * 0x1000 == S_IFLNK then Symlink
    else Unused
  }

  /** The block field of a record is 60 bytes. */
  function Fixed(field: seq<byte>): seq<byte> { (field + Zeros(FIELD_SIZE))[..FIELD_SIZE] }

  /** The fields of an inode in their places; permissions, owners and times are those of `rest`. */
  function InodeParts(ino: Inode, rest: InodeBytes): seq<seq<byte>> {
    [LE(TypeBits(ino.kind) + Field(rest, 0, 2) % 0x1000, 2), rest[2..4], LE(ino.size % 0x1_0000_0000, 4), rest[8..26],
     LE(ino.links, 2),
     rest[28..40], Fixed(ino.field), rest[100..104], LE(ino.xattr % 0x1_0000_0000, 4), LE(ino.size / 0x1_0000_0000, 4),
       rest[112..160], ino.inline]
  }

  lemma InodeOffsets(ino: Inode, rest: InodeBytes)
    ensures var p := InodeParts(ino, rest);
            && StartOf(p, 0) == 0 && StartOf(p, 2) == 4 && StartOf(p, 4) == 26 && StartOf(p, 6) == 40
            && StartOf(p, 8) == 104 && StartOf(p, 9) == 108 && StartOf(p, 11) == 160 && StartOf(p, 12) == 256
  {
    var p := InodeParts(ino, rest);
    assert StartOf(p, 1) == 2;
    assert StartOf(p, 2) == 4;
    assert StartOf(p, 3) == 8;
    assert StartOf(p, 4) == 26;
    assert StartOf(p, 5) == 28;
    assert StartOf(p, 6) == 40;
    assert StartOf(p, 7) == 100;
    assert StartOf(p, 8) == 104;
    assert StartOf(p, 9) == 108;
    assert StartOf(p, 10) == 112;
    assert StartOf(p, 11) == 160;
  }

  function Encode(ino: Inode, rest: InodeBytes): InodeBytes {
    InodeOffsets(ino, rest);
    PartAt(InodeParts(ino, rest), 0);
    Concat(InodeParts(ino, rest))
  }

  function Decode(b: InodeBytes): (ino: Inode)
    ensures |ino.field| == FIELD_SIZE
  {
    var links := Field(b, 26, 2);
    FieldLimit(b, 26, 2);
    Inode(TypeOf(Field(b, 0, 2)), links, Field(b, 4, 4) + 0x1_0000_0000 * Field(b, 108, 4), b[40..100],
          Field(b, 104, 4), b[160..256])
  }

  lemma FieldLimit(buf: seq<byte>, off: nat, n: nat)
    requires off + n <= |buf| && n <= 2
    ensures Field(buf, off, n) < 0x1_0000
  {
    ReadLimit(buf[off..off + n]);
    Limits();
  }

  /** An inode whose block field and size fit its record. */
  ghost predicate Encodable(ino: Inode) {
    |ino.field| == FIELD_SIZE && ino.size < 0x1_0000_0000_0000_0000
  }

  /** The number of the xattr block has 32 bits. */
  function Low(ino: Inode): Inode { ino.(xattr := ino.xattr % 0x1_0000_0000) }

  lemma ModeRead(k: Kind, low: nat)
    requires low < 0x1000
    ensures TypeBits(k) + low < 0x1_0000 && TypeOf(TypeBits(k) + low) == k
  {
  }

  lemma {:induction false} FieldOf(b: seq<byte>, off: nat, n: nat, v: nat)
    requires off + n <= |b| && b[off..off + n] == LE(v, n) && (n == 2 || n == 4)
    requires v < (if n == 2 then 0x1_0000 else 0x1_0000_0000)
    ensures Field(b, off, n) == v
  {
    FieldRead(b, off, n, v);
  }

  /** A record that reads back as what was written, whatever else is in it. */
  lemma {:induction false} InodeRoundTrip(ino: Inode, rest: InodeBytes)
    requires Encodable(ino)
    ensures Decode(Encode(ino, rest)) == Low(ino)
  {
    hide Concat, StartOf, Field, LE, TypeOf, TypeBits;
    var p, b := InodeParts(ino, rest), Encode(ino, rest);
    InodeOffsets(ino, rest);
    PartAt(p, 0);
    PartAt(p, 2);
    PartAt(p, 4);
    PartAt(p, 6);
    PartAt(p, 8);
    PartAt(p, 9);
    PartAt(p, 11);
    ModeRead(ino.kind, Field(rest, 0, 2) % 0x1000);
    FieldOf(b, 0, 2, TypeBits(ino.kind) + Field(rest, 0, 2) % 0x1000);
    FieldOf(b, 4, 4, ino.size % 0x1_0000_0000);
    FieldOf(b, 26, 2, ino.links);
    FieldOf(b, 104, 4, ino.xattr % 0x1_0000_0000);
    FieldOf(b, 108, 4, ino.size / 0x1_0000_0000);
    assert Fixed(ino.field) == ino.field;
  }

  // ----- Group descriptors -----

  const DESCRIPTOR: nat := 32
  const INODE_UNINIT: nat := 1
  const BLOCK_UNINIT: nat := 2

  /** Where a group has its bitmaps and its inode table, how many blocks and inodes are free, how many
      directories it has, and how many inodes at the end of its table were never used. */
  datatype Descriptor = Descriptor(blockBitmap: nat, inodeBitmap: nat, inodeTable: nat, freeBlocks: nat,
                                   freeInodes: nat,
                                   dirs: nat, flags: nat, unused: nat)

  function DescriptorParts(d: Descriptor, checksum: nat): seq<seq<byte>> {
    [LE(d.blockBitmap, 4), LE(d.inodeBitmap, 4), LE(d.inodeTable, 4), LE(d.freeBlocks, 2), LE(d.freeInodes, 2),
     LE(d.dirs, 2),
     LE(d.flags, 2), Zeros(8), LE(d.unused, 2), LE(checksum, 2)]
  }

  lemma DescriptorOffsets(d: Descriptor, checksum: nat)
    ensures var p := DescriptorParts(d, checksum);
            && StartOf(p, 0) == 0 && StartOf(p, 1) == 4 && StartOf(p, 2) == 8 && StartOf(p, 3) == 12
            && StartOf(p, 4) == 14
            && StartOf(p, 5) == 16 && StartOf(p, 6) == 18 && StartOf(p, 8) == 28 && StartOf(p, 10) == 32
  {
    var p := DescriptorParts(d, checksum);
    assert StartOf(p, 1) == 4;
    assert StartOf(p, 2) == 8;
    assert StartOf(p, 3) == 12;
    assert StartOf(p, 4) == 14;
    assert StartOf(p, 5) == 16;
    assert StartOf(p, 6) == 18;
    assert StartOf(p, 7) == 20;
    assert StartOf(p, 8) == 28;
    assert StartOf(p, 9) == 30;
  }

  function EncodeDescriptor(d: Descriptor, checksum: nat): (b: seq<byte>)
    ensures |b| == DESCRIPTOR
  {
    DescriptorOffsets(d, checksum);
    PartAt(DescriptorParts(d, checksum), 0);
    Concat(DescriptorParts(d, checksum))
  }

  function DecodeDescriptor(b: seq<byte>): Descriptor
    requires |b| == DESCRIPTOR
  {
    Descriptor(Field(b, 0, 4), Field(b, 4, 4), Field(b, 8, 4), Field(b, 12, 2), Field(b, 14, 2), Field(b, 16, 2),
               Field(b, 18, 2),
               Field(b, 28, 2))
  }

  ghost predicate DescriptorFits(d: Descriptor) {
    && d.blockBitmap < 0x1_0000_0000 && d.inodeBitmap < 0x1_0000_0000 && d.inodeTable < 0x1_0000_0000
    && d.freeBlocks < 0x1_0000 && d.freeInodes < 0x1_0000 && d.dirs < 0x1_0000 && d.flags < 0x1_0000
    && d.unused < 0x1_0000
  }

  lemma {:induction false} DescriptorRoundTrip(d: Descriptor, checksum: nat)
    requires DescriptorFits(d)
    ensures DecodeDescriptor(EncodeDescriptor(d, checksum)) == d
  {
    hide Concat, StartOf, Field, LE;
    var p, b := DescriptorParts(d, checksum), EncodeDescriptor(d, checksum);
    DescriptorOffsets(d, checksum);
    PartAt(p, 0);
    PartAt(p, 1);
    PartAt(p, 2);
    PartAt(p, 3);
    PartAt(p, 4);
    PartAt(p, 5);
    PartAt(p, 6);
    PartAt(p, 8);
    FieldOf(b, 0, 4, d.blockBitmap);
    FieldOf(b, 4, 4, d.inodeBitmap);
    FieldOf(b, 8, 4, d.inodeTable);
    FieldOf(b, 12, 2, d.freeBlocks);
    FieldOf(b, 14, 2, d.freeInodes);
    FieldOf(b, 16, 2, d.dirs);
    FieldOf(b, 18, 2, d.flags);
    FieldOf(b, 28, 2, d.unused);
  }

  // ----- The superblock -----

  const SUPERBLOCK_SIZE: nat := 1024
  const MAGIC: nat := 0xEF53

  /** What the superblock says, but for what never changes. */
  datatype Super = Super(inodes: nat, blocks: nat, freeBlocks: nat, freeInodes: nat, perGroup: nat, reserved: nat)

  /** UUID and label. */
  type Identity = b: seq<byte> | |b| == 32 witness Zeros(32)

  function SuperParts(sb: Super, group: nat, id: Identity): seq<seq<byte>> {
    [LE(sb.inodes, 4) + LE(sb.blocks % 0x1_0000_0000, 4) + Zeros(4) + LE(sb.freeBlocks % 0x1_0000_0000, 4)
     + LE(sb.freeInodes, 4) + Zeros(4),
     LE(2, 4),
     LE(2, 4) + LE(GROUP, 4) + LE(GROUP, 4),
     LE(sb.perGroup, 4),
     Zeros(12),
     LE(MAGIC, 2),
     LE(1, 2) + LE(1, 2) + Zeros(14) + LE(1, 4) + Zeros(4) + LE(FIRST_INODE, 4),
     LE(RECORD, 2),
     LE(group, 2) + LE(0x18, 4) + LE(0x242, 4) + LE(0x5B, 4) + id + Zeros(70) + LE(sb.reserved, 2) + Zeros(48),
     Zeros(80),
     LE(sb.blocks / 0x1_0000_0000, 4) + Zeros(4) + LE(sb.freeBlocks / 0x1_0000_0000, 4) + LE(32, 2) + LE(32, 2)
       + Zeros(20)
     + LE(31, 1) + Zeros(243) + LE(FIRST_INODE, 4) + Zeros(404)]
  }

  lemma SuperOffsets(sb: Super, group: nat, id: Identity)
    ensures var p := SuperParts(sb, group, id);
            && StartOf(p, 1) == 24 && StartOf(p, 3) == 40 && StartOf(p, 5) == 56 && StartOf(p, 7) == 88
            && StartOf(p, 9) == 256 && StartOf(p, 11) == 1024
  {
    hide StartOf, LE, Zeros;
    var p := SuperParts(sb, group, id);
    NoOffset(p);
    Behind(p, 0, 0);
    Behind(p, 1, 24);
    Behind(p, 2, 28);
    Behind(p, 3, 40);
    Behind(p, 4, 44);
    Behind(p, 5, 56);
    Behind(p, 6, 58);
    Behind(p, 7, 88);
    Behind(p, 8, 90);
    Behind(p, 9, 256);
    Behind(p, 10, 336);
  }

  lemma {:induction false} NoOffset(parts: seq<seq<byte>>)
    ensures StartOf(parts, 0) == 0
  {
  }

  lemma Behind(parts: seq<seq<byte>>, i: nat, off: nat)
    requires i < |parts| && StartOf(parts, i) == off
    ensures StartOf(parts, i + 1) == off + |parts[i]|
  {
  }

  function EncodeSuper(sb: Super, group: nat, id: Identity): (b: seq<byte>)
    ensures |b| == SUPERBLOCK_SIZE
  {
    SuperOffsets(sb, group, id);
    PartAt(SuperParts(sb, group, id), 0);
    Concat(SuperParts(sb, group, id))
  }

  /** What the reader takes from the superblock: the number of inodes in a group. Images of another block or
      inode size are not modelled. */
  function ReadSuper(b: seq<byte>): Option<nat>
    requires |b| == SUPERBLOCK_SIZE
  {
    if Field(b, 56, 2) == MAGIC && Field(b, 24, 4) == 2 && Field(b, 88, 2) == RECORD && Field(b, 40, 4) > 0 then
      Some(Field(b, 40, 4)) else None
  }

  lemma {:induction false} SuperRead(sb: Super, group: nat, id: Identity)
    requires 0 < sb.perGroup < 0x1_0000_0000
    ensures ReadSuper(EncodeSuper(sb, group, id)) == Some(sb.perGroup)
  {
    hide Concat, StartOf, Field, LE, Zeros;
    var p, b := SuperParts(sb, group, id), EncodeSuper(sb, group, id);
    SuperOffsets(sb, group, id);
    PartAt(p, 1);
    PartAt(p, 3);
    PartAt(p, 5);
    PartAt(p, 7);
    FieldOf(b, 24, 4, 2);
    FieldOf(b, 40, 4, sb.perGroup);
    FieldOf(b, 56, 2, MAGIC);
    FieldOf(b, 88, 2, RECORD);
  }

  /** The first two bytes of a superblock are the low half of the number of inodes. */
  lemma {:induction false} SuperHead(sb: Super, group: nat, id: Identity)
    ensures Field(EncodeSuper(sb, group, id), 0, 2) == sb.inodes % 0x1_0000
  {
    hide Concat, StartOf, SuperParts, LE, Read;
    var p, b := SuperParts(sb, group, id), EncodeSuper(sb, group, id);
    FirstPart(sb, group, id);
    SuperOffsets(sb, group, id);
    NoOffset(p);
    PartAt(p, 0);
    var head := LE(sb.inodes, 4);
    SliceVia(b, 0, |p[0]|, p[0], 0, 4, head);
    SubSlice(b, 0, 4, 0, 2);
    TwoLow(sb.inodes);
  }

  lemma FirstPart(sb: Super, group: nat, id: Identity)
    ensures var p := SuperParts(sb, group, id); |p| > 0 && |p[0]| == 24 && p[0][..4] == LE(sb.inodes, 4)
  {
    hide LE;
  }

  lemma {:induction false} TwoLow(v: nat)
    ensures Read(LE(v, 4)[..2]) == v % 0x1_0000
  {
    var b := LE(v, 4)[..2];
    assert LE(v, 4) == [v % 256] + LE(v / 256, 3);
    assert LE(v / 256, 3) == [v / 256 % 256] + LE(v / 256 / 256, 2);
    assert b == [v % 256, v / 256 % 256];
    assert b[1..] == [v / 256 % 256] && b[1..][1..] == [];
    assert Read(b[1..]) == v / 256 % 256;
  }

  /** A superblock read as four inode records: the first two have no links. */
  lemma {:induction false} SuperAsInodes(sb: Super, group: nat, id: Identity)
    ensures var b := EncodeSuper(sb, group, id);
            Decode(b[0..256]).links == 0 && Decode(b[256..512]).links == 0 && Decode(b[256..512]).kind == Unused
  {
    hide Concat, StartOf, LE;
    var p, b := SuperParts(sb, group, id), EncodeSuper(sb, group, id);
    SuperOffsets(sb, group, id);
    PartAt(p, 1);
    PartAt(p, 9);
    SliceVia(b, 24, 28, LE(2, 4), 2, 4, Zeros(2)) by { TwoIsLow(); }
    SliceVia(b, 256, 336, Zeros(80), 0, 2, Zeros(2));
    SliceVia(b, 256, 336, Zeros(80), 26, 28, Zeros(2));
    SubSlice(b, 0, 256, 26, 28);
    SubSlice(b, 256, 512, 26, 28);
    SubSlice(b, 256, 512, 0, 2);
    TwoZeros();
  }

  lemma TwoIsLow()
    ensures LE(2, 4)[2..4] == Zeros(2)
  {
    assert LE(0, 1) == [0] + LE(0, 0);
    assert LE(0, 2) == [0] + LE(0, 1);
    assert LE(0, 3) == [0] + LE(0, 2);
    assert LE(2, 4) == [2] + LE(0, 3);
  }

  lemma TwoZeros()
    ensures Read(Zeros(2)) == 0
  {
    var z := Zeros(2);
    assert z[1..] == [0] && z[1..][1..] == [];
  }

  // ----- Blocks of records -----

  /** Sixteen inode records. */
  function TableBlock(record: nat -> InodeBytes, j: nat): Block {
    seq(4096, i requires 0 <= i < 4096 => record(16 * j + i / 256)[i % 256])
  }

  lemma RecordAt(record: nat -> InodeBytes, j: nat, m: nat)
    requires m < 16
    ensures TableBlock(record, j)[256 * m..256 * m + 256] == record(16 * j + m)
  {
    var b, r := TableBlock(record, j), record(16 * j + m);
    forall i | 0 <= i < 256 ensures b[256 * m..256 * m + 256][i] == r[i] {
      assert (256 * m + i) / 256 == m && (256 * m + i) % 256 == i;
    }
  }

  type DescriptorBytes = b: seq<byte> | |b| == 32 witness Zeros(32)

  /** 128 group descriptors. */
  function DescriptorBlock(descriptor: nat -> DescriptorBytes, j: nat): Block {
    seq(4096, i requires 0 <= i < 4096 => descriptor(128 * j + i / 32)[i % 32])
  }

  lemma DescriptorAt(descriptor: nat -> DescriptorBytes, j: nat, m: nat)
    requires m < 128
    ensures DescriptorBlock(descriptor, j)[32 * m..32 * m + 32] == descriptor(128 * j + m)
  {
    var b, r := DescriptorBlock(descriptor, j), descriptor(128 * j + m);
    forall i | 0 <= i < 32 ensures b[32 * m..32 * m + 32][i] == r[i] {
      assert (32 * m + i) / 32 == m && (32 * m + i) % 32 == i;
    }
  }

  /** 1024 block numbers. */
  function ListBlock(list: seq<nat>): Block
    requires |list| == ADDRESSES_PER_BLOCK
  {
    seq(4096, i requires 0 <= i < 4096 => LE(list[i / 4], 4)[i % 4])
  }

  lemma ListEntry(list: seq<nat>, m: nat)
    requires |list| == ADDRESSES_PER_BLOCK && m < ADDRESSES_PER_BLOCK && list[m] < 0x1_0000_0000
    ensures Field(ListBlock(list), 4 * m, 4) == list[m]
  {
    hide LE;
    var b, r := ListBlock(list), LE(list[m], 4);
    forall i | 0 <= i < 4 ensures b[4 * m..4 * m + 4][i] == r[i] {
      assert (4 * m + i) / 4 == m && (4 * m + i) % 4 == i;
    }
    assert b[4 * m..4 * m + 4] == r;
    FieldOf(b, 4 * m, 4, list[m]);
  }

  // ----- Bitmaps as bytes -----

  function Value(bits: seq<bool>): nat {
    if bits == [] then 0 else (if bits[0] then 1 else 0) + 2 * Value(bits[1..])
  }

  function Digit(v: nat, k: nat): nat { if k == 0 then v % 2 else Digit(v / 2, k - 1) }

  /** Bits put together and taken apart again. */
  lemma {:induction false} DigitOf(bits: seq<bool>, k: nat)
    requires k < |bits|
    ensures Digit(Value(bits), k) == 1 <==> bits[k]
    decreases k
  {
    if k > 0 { DigitOf(bits[1..], k - 1); }
  }

  lemma {:induction false} EightValue(p: seq<bool>)
    requires |p| == 8
    ensures Value(p) == (if p[0] then 1 else 0) + (if p[1] then 2 else 0) + (if p[2] then 4 else 0)
            + (if p[3] then 8 else 0)
                        + (if p[4] then 16 else 0) + (if p[5] then 32 else 0) + (if p[6] then 64 else 0)
                          + (if p[7] then 128 else 0)
  {
    assert Value(p[8..]) == 0;
    assert Value(p[7..]) == (if p[7] then 1 else 0) by { assert p[7..][1..] == p[8..]; }
    assert Value(p[6..]) == (if p[6] then 1 else 0) + 2 * Value(p[7..]) by { assert p[6..][1..] == p[7..]; }
    assert Value(p[5..]) == (if p[5] then 1 else 0) + 2 * Value(p[6..]) by { assert p[5..][1..] == p[6..]; }
    assert Value(p[4..]) == (if p[4] then 1 else 0) + 2 * Value(p[5..]) by { assert p[4..][1..] == p[5..]; }
    assert Value(p[3..]) == (if p[3] then 1 else 0) + 2 * Value(p[4..]) by { assert p[3..][1..] == p[4..]; }
    assert Value(p[2..]) == (if p[2] then 1 else 0) + 2 * Value(p[3..]) by { assert p[2..][1..] == p[3..]; }
    assert Value(p[1..]) == (if p[1] then 1 else 0) + 2 * Value(p[2..]) by { assert p[1..][1..] == p[2..]; }
  }

  ghost function EightBits(marks: set<nat>, i: nat): (p: seq<bool>)
    ensures |p| == 8
  {
    seq(8, k => 8 * i + k in marks)
  }

  ghost function BitByte(marks: set<nat>, i: nat): byte {
    EightValue(EightBits(marks, i));
    Value(EightBits(marks, i))
  }

  /** One bit for each of 32768 numbers. */
  ghost function BitBlock(marks: set<nat>): Block { seq(4096, i requires 0 <= i < 4096 => BitByte(marks, i)) }

  lemma {:induction false} ByteBits(b: bv8, p: seq<bool>)
    requires |p| == 8 && forall k :: 0 <= k < 8 ==> p[k] == BitOf(b, k)
    ensures b as int == Value(p)
  {
    hide Value;
    EightValue(p);
    ByteSum(b);
  }

  lemma ByteSum(b: bv8)
    ensures b as int == (if BitOf(b, 0) then 1 else 0) + (if BitOf(b, 1) then 2 else 0) + (if BitOf(b, 2) then 4 else 0)
            + (if BitOf(b, 3) then 8 else 0)
                        + (if BitOf(b, 4) then 16 else 0) + (if BitOf(b, 5) then 32 else 0)
                          + (if BitOf(b, 6) then 64 else 0) + (if BitOf(b, 7) then 128 else 0)
  {
  }

  function AsBytes(bits: seq<bv8>): (r: seq<byte>)
    ensures |r| == |bits|
  {
    seq(|bits|, i requires 0 <= i < |bits| => bits[i] as int)
  }

  /** The bitmap that shows a set of numbers, in bytes. */
  lemma ShownBytes(bits: seq<bv8>, marks: set<nat>)
    requires |bits| == 4096 && Shows(bits, GROUP, marks)
    ensures AsBytes(bits) == BitBlock(marks)
  {
    hide BitOf, Value;
    forall i | 0 <= i < 4096 ensures bits[i] as int == BitByte(marks, i) {
      forall k | 0 <= k < 8 ensures EightBits(marks, i)[k] == BitOf(bits[i], k) {
        assert Bit(bits, 8 * i + k) <==> 8 * i + k in marks;
        assert (8 * i + k) / 8 == i && (8 * i + k) % 8 == k;
      }
      ByteBits(bits[i], EightBits(marks, i));
    }
  }

  /** Bit `j` of a bitmap block. */
  predicate Marked(b: Block, j: nat)
    requires j < GROUP
  {
    Digit(b[j / 8], j % 8) == 1
  }

  lemma MarkedIff(marks: set<nat>, j: nat)
    requires j < GROUP
    ensures Marked(BitBlock(marks), j) <==> j in marks
  {
    hide Value, Digit;
    var i, k := j / 8, j % 8;
    assert j == 8 * i + k;
    DigitOf(EightBits(marks, i), k);
  }

  // ----- Reading an inode -----

  /** The descriptor of group `g`, in the table behind the superblock. */
  function ReadDescriptor(d: Disk, g: nat): Descriptor {
    DecodeDescriptor(BlockAt(d, 1 + g / 128)[32 * (g % 128)..32 * (g % 128) + 32])
  }

  /** The inode with number `k` as the reader finds it: by the superblock, the descriptor of its group and
      its place in the group's table. */
  function ReadInode(d: Disk, k: nat): (ino: Inode)
    ensures |ino.field| == FIELD_SIZE
  {
    var per := ReadSuper(BlockAt(d, 0)[1024..2048]);
    if k == 0 || per == None then FREE
    else
      var index := (k - 1) % per.value;
      var at := ReadDescriptor(d, (k - 1) / per.value).inodeTable + index / 16;
      Decode(BlockAt(d, at)[256 * (index % 16)..256 * (index % 16) + 256])
  }

  /** Superblock, descriptor and record of inode `k` lie within an image file of `length` bytes. */
  predicate InodeThere(d: Disk, length: nat, k: nat) {
    var per := ReadSuper(BlockAt(d, 0)[1024..2048]);
    && k >= 1 && per.Some? && 2048 <= length
    && var g := (k - 1) / per.value;
       4096 + 32 * g + 32 <= length && 4096 * ReadDescriptor(d, g).inodeTable + 256 * ((k - 1) % per.value) + 256
         <= length
  }
}
