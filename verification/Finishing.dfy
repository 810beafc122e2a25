/** The loops that write the metadata: each leaves the image that the list of writes describes. */
module Finishing {
  import opened Bytes
  import opened Geometry
  import opened Payload
  import opened Bitmaps
  import opened Records
  import opened Closing
  import opened Metadata
  import opened Sealing

  lemma {:induction false} ApplyNone(d: Disk, ws: seq<Write>)
    ensures Apply(d, ws[..0]) == d
  {
  }

  lemma {:induction false} ApplyNext(d: Disk, ws: seq<Write>, i: nat)
    requires i < |ws|
    ensures Apply(d, ws[..i + 1]) == PutWrite(Apply(d, ws[..i]), ws[i])
  {
    assert ws[..i + 1][..i] == ws[..i];
  }

  lemma AllTaken(ws: seq<Write>)
    ensures ws[..|ws|] == ws
  {
  }

  /** The double-indirect block and the lists of copies. */
  method WriteResize(d: Disk, p: Plan) returns (e: Disk)
    requires AreaFor(p.descriptors) <= RESIZE_SLOTS && |Backups(p)| <= RESIZE_SLOTS
    ensures e == Apply(d, ResizeWrites(p))
  {
    hide ListBlock, CopyList, Indirect, PutWrite, Apply, Backups;
    ghost var ws := ResizeWrites(p);
    var dind, lists := ResizeBlocks(p.descriptors, Backups(p));
    e := d;
    ApplyNone(d, ws);
    for off := 0 to |lists|
      invariant e == Apply(d, ws[..off])
    {
      ApplyNext(d, ws, off);
      e := PutWrite(e, Write(1 + p.descriptors + off, ListBlock(lists[off])));
    }
    ApplyNext(d, ws, |lists|);
    e := PutWrite(e, Write(p.dind, ListBlock(dind)));
    AllTaken(ws);
  }

  /** Sixteen records, one behind the other. */
  method FillTableBlock(p: Plan, j: nat) returns (block: Block)
    ensures block == TableBlock(i => RecordOf(p, i), j)
  {
    hide Encode;
    var bytes: seq<byte> := [];
    ghost var want := TableBlock(i => RecordOf(p, i), j);
    for m := 0 to 16
      invariant |bytes| == 256 * m && bytes == want[..256 * m]
    {
      RecordAt(i => RecordOf(p, i), j, m);
      var index := 16 * j + m;
      bytes := bytes + (if index < |p.im.inodes| then Encode(p.im.inodes[index], p.fill.rest(index)) else Zeros(256));
      assert want[..256 * m] + want[256 * m..256 * m + 256] == want[..256 * (m + 1)];
    }
    block := bytes;
  }

  /** The inode table, and zeros behind the last inode. */
  method WriteTable(d: Disk, p: Plan) returns (e: Disk)
    ensures e == Apply(d, TableWrites(p))
  {
    hide PutWrite, Apply, TableBlock, RecordOf, TableBlocks;
    ghost var ws := TableWrites(p);
    e := d;
    ApplyNone(d, ws);
    for j := 0 to p.im.groups * TableBlocks(p.im.perGroup)
      invariant e == Apply(d, ws[..j])
    {
      ApplyNext(d, ws, j);
      var block := FillTableBlock(p, j);
      e := PutWrite(e, Write(p.im.table + j, block));
    }
    AllTaken(ws);
  }

  /** The bitmaps of all groups; the descriptors and totals come with them. */
  method WriteBitmaps(d: Disk, p: Plan) returns (e: Disk, ds: seq<Descriptor>, freeBlocks: nat, freeInodes: nat)
    requires Sane(p.im)
    ensures e == Apply(d, BitmapWrites(p)) && ds == Descriptors(p.im) && freeBlocks == SumBlocks(ds)
    ensures freeInodes == SumInodes(ds)
  {
    hide PutWrite, Apply, BitBlock, BlockMarks, InodeBits, BlockBitmapOf, SumBlocks, SumInodes, Sane, Descriptors;
    ghost var ws := BitmapWrites(p);
    var blocks, inodes;
    blocks, inodes, ds, freeBlocks, freeInodes := CloseGroups(p.im);
    e := d;
    ApplyNone(d, ws);
    for g := 0 to p.im.total
      invariant e == Apply(d, ws[..2 * g])
    {
      assert Bitmapped(p.im, g, blocks[g], inodes[g]);
      ApplyNext(d, ws, 2 * g);
      ApplyNext(d, ws, 2 * g + 1);
      assert (2 * g) / 2 == g && (2 * g) % 2 == 0 && (2 * g + 1) / 2 == g && (2 * g + 1) % 2 == 1;
      e := PutWrite(e, Write(BlockBitmapOf(p.im, g), AsBytes(blocks[g])));
      e := PutWrite(e, Write(BlockBitmapOf(p.im, g) + 1, AsBytes(inodes[g])));
    }
    AllTaken(ws);
  }

  /** 128 descriptors, zeros behind the last. */
  method FillDescriptorBlock(p: Plan, ds: seq<Descriptor>, j: nat) returns (block: Block)
    requires ds == Descriptors(p.im)
    ensures block == DescriptorsAt(p, j)
  {
    hide EncodeDescriptor, DescriptorOf;
    var bytes: seq<byte> := [];
    ghost var want := DescriptorsAt(p, j);
    for m := 0 to 128
      invariant |bytes| == 32 * m && bytes == want[..32 * m]
    {
      DescriptorAt(g => DescriptorBytesOf(p, g), j, m);
      var g := 128 * j + m;
      bytes := bytes + (if g < p.im.total then EncodeDescriptor(ds[g], p.fill.checksum(g)) else Zeros(32));
      assert want[..32 * m] + want[32 * m..32 * m + 32] == want[..32 * (m + 1)];
    }
    block := bytes;
  }

  method FillDescriptorTable(p: Plan, ds: seq<Descriptor>) returns (table: seq<Block>)
    requires ds == Descriptors(p.im)
    ensures |table| == p.descriptors && forall j :: 0 <= j < p.descriptors ==> table[j] == DescriptorsAt(p, j)
  {
    hide DescriptorsAt, Descriptors;
    table := [];
    for j := 0 to p.descriptors
      invariant |table| == j && forall x :: 0 <= x < j ==> table[x] == DescriptorsAt(p, x)
    {
      var block := FillDescriptorBlock(p, ds, j);
      table := table + [block];
    }
  }

  /** The descriptor table behind block 0, then block 0 with the superblock. */
  method WriteFront(d: Disk, p: Plan, table: seq<Block>, sb: Super) returns (e: Disk)
    requires |table| == p.descriptors && (forall j :: 0 <= j < p.descriptors ==> table[j] == DescriptorsAt(p, j))
    requires sb == SuperOf(p)
    ensures e == Apply(d, FrontWrites(p))
  {
    hide PutWrite, Apply, DescriptorsAt, SuperOf, EncodeSuper;
    ghost var ws := FrontWrites(p);
    e := d;
    ApplyNone(d, ws);
    for j := 0 to p.descriptors
      invariant e == Apply(d, ws[..j])
    {
      ApplyNext(d, ws, j);
      e := PutWrite(e, Write(1 + j, table[j]));
    }
    ApplyNext(d, ws, p.descriptors);
    e := PutWrite(e, Write(0, Zeros(1024) + EncodeSuper(sb, 0, p.fill.id) + Zeros(2048)));
    AllTaken(ws);
  }

  /** Superblock and descriptor table once more in each backup group. */
  method WriteBackups(d: Disk, p: Plan, table: seq<Block>, sb: Super) returns (e: Disk)
    requires |table| == p.descriptors && (forall j :: 0 <= j < p.descriptors ==> table[j] == DescriptorsAt(p, j))
    requires sb == SuperOf(p)
    ensures e == Apply(d, BackupWrites(p))
  {
    hide PutWrite, Apply, DescriptorsAt, SuperOf, EncodeSuper, BackupWrites, BackupGroups, BackupAt;
    ghost var ws := BackupWrites(p);
    var backups, n := Backups(p), 1 + p.descriptors;
    BackupLength(p);
    e := d;
    ApplyNone(d, ws);
    for x := 0 to |backups|
      invariant x * n <= |ws| && e == Apply(d, ws[..x * n])
    {
      NextBackup(p, x, 0);
      ApplyNext(d, ws, x * n);
      e := PutWrite(e, Write(backups[x] * GROUP, EncodeSuper(sb, backups[x], p.fill.id)));
      for j := 1 to n
        invariant x * n + j <= |ws| && e == Apply(d, ws[..x * n + j])
      {
        NextBackup(p, x, j);
        ApplyNext(d, ws, x * n + j);
        e := PutWrite(e, Write(backups[x] * GROUP + j, table[j - 1]));
      }
      assert x * n + n == (x + 1) * n;
    }
    AllTaken(ws);
  }

  /** Everything in order: resize blocks, inode table, bitmaps, descriptors, superblock, backups. */
  method WriteMetadata(d: Disk, p: Plan) returns (e: Disk)
    requires Sane(p.im) && AreaFor(p.descriptors) <= RESIZE_SLOTS && |Backups(p)| <= RESIZE_SLOTS
    ensures e == Apply(d, Writes(p))
  {
    hide Apply, ResizeWrites, TableWrites, BitmapWrites, FrontWrites, BackupWrites, Descriptors, SumBlocks, SumInodes,
         Sane, Backups, DescriptorsAt;
    e := WriteResize(d, p);
    e := WriteTable(e, p);
    var ds, freeBlocks, freeInodes;
    e, ds, freeBlocks, freeInodes := WriteBitmaps(e, p);
    var sb := Super(p.im.total * p.im.perGroup, p.im.total * GROUP, freeBlocks, freeInodes, p.im.perGroup,
                    ReservedGdt(p.descriptors));
    var table := FillDescriptorTable(p, ds);
    e := WriteFront(e, p, table, sb);
    e := WriteBackups(e, p, table, sb);
    ApplyBoth(d, ResizeWrites(p), TableWrites(p));
    ApplyBoth(d, ResizeWrites(p) + TableWrites(p), BitmapWrites(p));
    ApplyBoth(d, ResizeWrites(p) + TableWrites(p) + BitmapWrites(p), FrontWrites(p));
    ApplyBoth(d, ResizeWrites(p) + TableWrites(p) + BitmapWrites(p) + FrontWrites(p), BackupWrites(p));
  }
}
