/** Closing the image: the layout computed from the state, everything that is written, in order, and what the
    reader then finds. */
module Sealing {
  import opened Bytes
  import opened Geometry
  import opened Payload
  import opened Placement
  import opened Extents
  import opened Contents
  import opened Fs
  import opened Bitmaps
  import opened Records
  import opened Closing
  import opened Metadata

  // ----- Writes at block boundaries -----

  type Chunk = b: seq<byte> | |b| <= 4096 witness []

  /** Bytes put at the start of a block. */
  datatype Write = Write(block: nat, bytes: Chunk)

  function PutWrite(d: Disk, w: Write): Disk { d[w.block := Overwrite(BlockAt(d, w.block), 0, w.bytes)] }

  function Apply(d: Disk, ws: seq<Write>): Disk {
    if ws == [] then d else PutWrite(Apply(d, ws[..|ws| - 1]), ws[|ws| - 1])
  }

  ghost predicate Touches(ws: seq<Write>, b: nat) {
    exists i :: 0 <= i < |ws| && ws[i].block == b
  }

  lemma {:induction false} ApplyBoth(d: Disk, a: seq<Write>, b: seq<Write>)
    ensures Apply(d, a + b) == Apply(Apply(d, a), b)
  {
    hide PutWrite;
    if b == [] {
      assert a + b == a;
    } else {
      var n := |b| - 1;
      assert (a + b)[..|a + b| - 1] == a + b[..n];
      ApplyBoth(d, a, b[..n]);
    }
  }

  /** A block that nothing is written to stays. */
  lemma {:induction false} Untouched(d: Disk, ws: seq<Write>, b: nat)
    requires !Touches(ws, b)
    ensures BlockAt(Apply(d, ws), b) == BlockAt(d, b)
  {
    if ws != [] {
      var n := |ws| - 1;
      assert ws[n].block != b;
      Untouched(d, ws[..n], b);
    }
  }

  /** The last bytes written to a block are there. */
  lemma {:induction false} LastWritten(d: Disk, ws: seq<Write>, i: nat)
    requires i < |ws| && forall j :: i < j < |ws| ==> ws[j].block != ws[i].block
    ensures BlockAt(Apply(d, ws), ws[i].block)[..|ws[i].bytes|] == ws[i].bytes
  {
    hide BlockAt;
    var a, b := ws[..i + 1], ws[i + 1..];
    assert ws == a + b && a[..i] == ws[..i];
    ApplyBoth(d, a, b);
    Untouched(Apply(d, a), b, ws[i].block);
    PutThere(Apply(d, ws[..i]), ws[i]);
  }

  lemma PutThere(d: Disk, w: Write)
    ensures BlockAt(PutWrite(d, w), w.block)[..|w.bytes|] == w.bytes
  {
  }

  // ----- The layout -----

  /** Where the inode table starts, how many groups share it with how many inodes each, where the bitmaps
      behind it end, the size of the image, its groups and its descriptor blocks. */
  datatype Layout = Layout(table: nat, groups: nat, perGroup: nat, dataEnd: nat, size: positive, total: nat,
                           descriptors: nat)

  function DataEnd(table: nat, groups: nat, perGroup: nat): nat { table + groups * TableBlocks(perGroup) + 2 * groups }

  /** The size is raised until it holds the groups and the data, and then to a whole number of groups. */
  function LeastSize(size: nat, groups: nat, dataEnd: nat): nat {
    var least := if groups <= 1 then GROUP else (groups - 1) * GROUP + 1;
    Max(Max(size, least * BLOCK), (Max(dataEnd - 1, 0) / GROUP + 1) * GROUP * BLOCK)
  }

  function TotalGroups(size: nat): nat { Max(size / BLOCK - 1, 0) / GROUP + 1 }

  function LayoutOf(st: Store, inodes: nat): (lay: Layout) {
    var per := PerGroup(st.block, inodes);
    var groups := GroupsFor(st.block, inodes, per);
    var end := DataEnd(st.block, groups, per);
    var size := LeastSize(st.size, groups, end);
    var total := TotalGroups(size);
    Layout(st.block, groups, per, end, Max(size, total * GROUP * BLOCK), total, DescriptorBlocks(total))
  }

  lemma DataBehind(table: nat, groups: nat, perGroup: nat)
    ensures table <= DataEnd(table, groups, perGroup)
  {
    hide TableBlocks;
  }

  /** All block numbers of the closed image have 32 bits. */
  predicate Representable(lay: Layout) { lay.size < MAX_IMAGE }

  lemma WholeGroups(size: nat, dataEnd: nat, groups: nat)
    requires groups >= 1 && size >= (Max(dataEnd - 1, 0) / GROUP + 1) * GROUP * BLOCK
    requires size >= (if groups <= 1 then GROUP else (groups - 1) * GROUP + 1) * BLOCK
    ensures var total := TotalGroups(size); groups <= total && dataEnd <= total * GROUP
  {
    var q, m := size / BLOCK, Max(dataEnd - 1, 0) / GROUP + 1;
    assert q >= m * GROUP;
    assert q >= (groups - 1) * GROUP + 1;
    assert (q - 1) / GROUP >= groups - 1;
    assert (q - 1) / GROUP + 1 >= m;
  }

  /** The layout has room for everything: data, tables and bitmaps end within the groups that share the table, every
      inode has a record, and every group a descriptor. */
  lemma LayoutSane(st: Store, inodes: nat)
    ensures var lay := LayoutOf(st, inodes);
            && Candidate(lay.perGroup) && 1 <= lay.groups <= lay.total && inodes <= lay.groups * lay.perGroup
            && lay.table == st.block && lay.dataEnd == DataEnd(lay.table, lay.groups, lay.perGroup)
               <= lay.groups * GROUP
            && st.size <= lay.size && lay.total * GROUP * BLOCK <= lay.size && lay.total <= 128 * lay.descriptors
            && lay.descriptors == DescriptorBlocks(lay.total)
            && (Representable(lay) ==> lay.total < 0x2_0000 && lay.descriptors <= 1024)
  {
    hide GroupsFor, PerGroup, TableBlocks;
    var lay := LayoutOf(st, inodes);
    GroupsSuffice(st.block, inodes, lay.perGroup);
    LayoutFits(st.block, inodes, lay.perGroup);
    WholeGroups(LeastSize(st.size, lay.groups, lay.dataEnd), lay.dataEnd, lay.groups);
    Coverage(lay.total);
  }

  lemma Coverage(total: nat)
    requires total >= 1
    ensures total <= 128 * DescriptorBlocks(total)
    ensures total * GROUP * BLOCK < MAX_IMAGE ==> total < 0x2_0000 && DescriptorBlocks(total) <= 1024
  {
  }

  // ----- Everything that is written -----

  /** What the model leaves open: the rest of each inode's record, checksums, UUID and label. */
  datatype Fill = Fill(rest: nat -> InodeBytes, checksum: nat -> nat, id: Identity)

  const RESIZE_INODE: nat := 7

  /** The resize inode leads to its double-indirect block. */
  function ResizeInode(dind: nat): Inode {
    Inode(Regular, 1, (1024 * 1024 + 1024 + 12) * 4096, Zeros(52) + LE(dind, 4) + Zeros(4), 0, Zeros(96))
  }

  datatype Plan = Plan(im: Image, descriptors: nat, dind: nat, fill: Fill)

  function Backups(p: Plan): seq<nat> { BackupGroups(p.im.total) }

  /** The lists of copies, in the reserved descriptor blocks, and the double-indirect block. */
  function ResizeWrites(p: Plan): seq<Write> {
    var d := p.descriptors;
    seq(ReservedGdt(d) + 1, off requires 0 <= off =>
      if off < ReservedGdt(d) then Write(1 + d + off, ListBlock(CopyList(d, off, Backups(p))))
        else Write(p.dind, ListBlock(Indirect(d))))
  }

  /** The record of inode `i + 1`; behind the last inode the table is zero. */
  function RecordOf(p: Plan, i: nat): InodeBytes {
    if i < |p.im.inodes| then Encode(p.im.inodes[i], p.fill.rest(i)) else Zeros(256)
  }

  function TableWrites(p: Plan): seq<Write> {
    seq(p.im.groups * TableBlocks(p.im.perGroup),
        j requires 0 <= j => Write(p.im.table + j, TableBlock(i => RecordOf(p, i), j)))
  }

  ghost function GroupBits(im: Image, group: nat, second: bool): Block {
    if second then BitBlock(InodeBits(group, im.perGroup, im.inodes)) else BitBlock(BlockMarks(im, group))
  }

  /** Block and inode bitmap of each group. */
  ghost function BitmapWrites(p: Plan): seq<Write> {
    seq(2 * p.im.total, i requires 0
        <= i => Write(BlockBitmapOf(p.im, i / 2) + i % 2, GroupBits(p.im, i / 2, i % 2 == 1)))
  }

  ghost function DescriptorBytesOf(p: Plan, g: nat): DescriptorBytes {
    if g < p.im.total then EncodeDescriptor(DescriptorOf(p.im, g), p.fill.checksum(g)) else Zeros(32)
  }

  ghost function DescriptorsAt(p: Plan, j: nat): Block { DescriptorBlock(g => DescriptorBytesOf(p, g), j) }

  ghost function SuperOf(p: Plan): Super {
    var ds := Descriptors(p.im);
    Super(p.im.total * p.im.perGroup, p.im.total * GROUP, SumBlocks(ds), SumInodes(ds), p.im.perGroup,
          ReservedGdt(p.descriptors))
  }

  /** The descriptor table and the superblock in the middle of block 0. */
  ghost function FrontWrites(p: Plan): seq<Write> {
    seq(p.descriptors, j requires 0 <= j => Write(1 + j, DescriptorsAt(p, j)))
      + [Write(0, Zeros(1024) + EncodeSuper(SuperOf(p), 0, p.fill.id) + Zeros(2048))]
  }

  /** In each backup group the superblock, at the start of its first block, and the descriptor table. */
  ghost function BackupWrites(p: Plan): seq<Write> {
    var n := 1 + p.descriptors;
    seq(|Backups(p)| * n, i requires 0 <= i < |Backups(p)| * n => BackupWrite(p, BackupAt(p, i), i % n))
  }

  function BackupAt(p: Plan, i: nat): nat
    requires i < |Backups(p)| * (1 + p.descriptors)
  {
    DivBelow(i, |Backups(p)|, 1 + p.descriptors);
    Backups(p)[i / (1 + p.descriptors)]
  }

  lemma DivBelow(i: nat, n: nat, m: nat)
    requires m > 0 && i < n * m
    ensures i / m < n
  {
    if i / m >= n { MulMonotone(m, n, i / m); }
  }

  ghost function BackupWrite(p: Plan, g: nat, j: nat): Write {
    Write(g * GROUP + j, if j == 0 then EncodeSuper(SuperOf(p), g, p.fill.id) else DescriptorsAt(p, j - 1))
  }

  ghost function Writes(p: Plan): seq<Write> {
    ResizeWrites(p) + TableWrites(p) + BitmapWrites(p) + FrontWrites(p) + BackupWrites(p)
  }

  // ----- Closing -----

  datatype Closed = Closed(disk: Disk, layout: Layout, image: Image) | NoRoom

  function ImageOf(s: St, lay: Layout, dind: nat): Image {
    Image(lay.dataEnd, Area(lay.size), s.deleted, SetInode(s.inodes, RESIZE_INODE, ResizeInode(dind)), lay.perGroup,
          lay.table, lay.groups, lay.total)
  }

  /** The block for the resize inode is the next free one. */
  function Prepared(s: St): Written { WriteAligned(s.store, Zeros(4096)) }

  function SealLayout(s: St): Layout { LayoutOf(Prepared(s).store, |s.inodes|) }

  function SealPlan(s: St, fill: Fill): Plan
    requires Prepared(s).ranges != []
  {
    var lay, dind := SealLayout(s), Prepared(s).ranges[0].start;
    Plan(ImageOf(s, lay, dind), lay.descriptors, dind, fill)
  }

  /** The rest of closing once the directories are written. */
  ghost function Close(s: St, fill: Fill): Closed {
    if Prepared(s).ranges == [] || AreaFor(SealLayout(s).descriptors) > Area(s.store.size) then NoRoom
    else Closed(Apply(Prepared(s).store.disk, Writes(SealPlan(s, fill))), SealLayout(s), SealPlan(s, fill).im)
  }

  // ----- Which blocks are written -----

  ghost predicate Fitting(p: Plan) {
    && Sane(p.im) && 1 <= p.im.groups
    && p.im.dataSize == DataEnd(p.im.table, p.im.groups, p.im.perGroup) <= p.im.groups * GROUP
    && p.im.total <= 128 * p.descriptors && p.im.total < 0x2_0000 && 1 <= p.descriptors <= 1024
    && AreaFor(p.descriptors) < p.dind && p.dind + 1 == p.im.table
  }

  /** A superblock copy or a copy of the descriptor table. */
  predicate IsBackup(p: Plan, b: nat) {
    0 < b / GROUP < p.im.total && HasSparse(b / GROUP) && b % GROUP <= p.descriptors
  }

  lemma TouchesBoth(a: seq<Write>, b: seq<Write>, x: nat)
    ensures Touches(a + b, x) <==> Touches(a, x) || Touches(b, x)
  {
    if i :| 0 <= i < |a| && a[i].block == x { assert (a + b)[i].block == x; }
    if i :| 0 <= i < |b| && b[i].block == x { assert (a + b)[|a| + i].block == x; }
    if i :| 0 <= i < |a + b| && (a + b)[i].block == x {
      if i < |a| { assert a[i].block == x; } else { assert b[i - |a|].block == x; }
    }
  }

  lemma InResize(p: Plan, b: nat)
    ensures Touches(ResizeWrites(p), b) <==> p.descriptors < b <= AreaFor(p.descriptors) || b == p.dind
  {
    hide ListBlock, CopyList, Indirect, ReservedGdt;
    var ws, d := ResizeWrites(p), p.descriptors;
    if d < b <= AreaFor(d) { assert ws[b - 1 - d].block == b; }
    assert ws[ReservedGdt(d)].block == p.dind;
  }

  lemma InTable(p: Plan, b: nat)
    ensures Touches(TableWrites(p), b) <==> p.im.table <= b < p.im.table + p.im.groups * TableBlocks(p.im.perGroup)
  {
    hide TableBlock, TableBlocks;
    var ws := TableWrites(p);
    if p.im.table <= b < p.im.table + p.im.groups * TableBlocks(p.im.perGroup) { assert ws[b - p.im.table].block == b; }
  }

  lemma InBitmaps(p: Plan, b: nat)
    requires Fitting(p) && Touches(BitmapWrites(p), b)
    ensures p.im.table + p.im.groups * TableBlocks(p.im.perGroup) <= b
  {
    hide GroupBits, TableBlocks, HasSparse;
    var ws := BitmapWrites(p);
    var i :| 0 <= i < |ws| && ws[i].block == b;
    if i / 2 >= p.im.groups { MulMonotone(GROUP, p.im.groups, i / 2); }
  }

  lemma InFront(p: Plan, b: nat)
    ensures Touches(FrontWrites(p), b) <==> b <= p.descriptors
  {
    hide DescriptorsAt, EncodeSuper, SuperOf;
    var ws := FrontWrites(p);
    if b == 0 { assert ws[p.descriptors].block == 0; } else if b <= p.descriptors { assert ws[b - 1].block == b; }
  }

  lemma BackupIs(p: Plan, i: nat)
    requires i < |Backups(p)| * (1 + p.descriptors)
    ensures i < |BackupWrites(p)| && BackupWrites(p)[i] == BackupWrite(p, BackupAt(p, i), i % (1 + p.descriptors))
  {
    hide BackupWrite, BackupAt, Backups;
  }

  lemma BackupLength(p: Plan)
    ensures |BackupWrites(p)| == |Backups(p)| * (1 + p.descriptors)
  {
    hide BackupWrite, BackupAt, Backups;
  }

  lemma BackupGroup(p: Plan, i: nat)
    requires i < |Backups(p)| * (1 + p.descriptors)
    ensures 0 < BackupAt(p, i) < p.im.total && HasSparse(BackupAt(p, i))
  {
    hide HasSparse, BackupGroups;
    DivBelow(i, |Backups(p)|, 1 + p.descriptors);
    var x := i / (1 + p.descriptors);
    assert BackupAt(p, i) == Backups(p)[x];
  }

  lemma NextBackup(p: Plan, x: nat, j: nat)
    requires x < |Backups(p)| && j < 1 + p.descriptors
    ensures var i := x * (1 + p.descriptors) + j;
            i < |BackupWrites(p)| && BackupWrites(p)[i] == BackupWrite(p, Backups(p)[x], j)
    ensures x * (1 + p.descriptors) + (1 + p.descriptors) <= |BackupWrites(p)|
  {
    hide BackupWrites, BackupWrite, Backups;
    var n, i := 1 + p.descriptors, x * (1 + p.descriptors) + j;
    BackupLength(p);
    MulMonotone(n, x + 1, |Backups(p)|);
    BackupIs(p, i);
    DivUnique(i, n, x, j);
  }

  lemma BackupListed(p: Plan, b: nat)
    requires p.descriptors < GROUP && Touches(BackupWrites(p), b)
    ensures IsBackup(p, b)
  {
    hide BackupWrites, DescriptorsAt, EncodeSuper, SuperOf, HasSparse, BackupAt, Backups;
    var ws, n := BackupWrites(p), 1 + p.descriptors;
    var i :| 0 <= i < |ws| && ws[i].block == b;
    BackupLength(p);
    BackupIs(p, i);
    BackupGroup(p, i);
    GroupOf(b, BackupAt(p, i), i % n);
  }

  lemma BackupCovers(p: Plan, b: nat)
    requires p.descriptors < GROUP && IsBackup(p, b)
    ensures Touches(BackupWrites(p), b)
  {
    hide BackupWrites, DescriptorsAt, EncodeSuper, SuperOf, HasSparse;
    var g, j := b / GROUP, b % GROUP;
    var x :| 0 <= x < |Backups(p)| && Backups(p)[x] == g;
    NextBackup(p, x, j);
    assert BackupWrites(p)[x * (1 + p.descriptors) + j].block == b;
  }

  lemma InBackups(p: Plan, b: nat)
    requires p.descriptors < GROUP
    ensures Touches(BackupWrites(p), b) <==> IsBackup(p, b)
  {
    hide Touches, IsBackup, BackupWrites;
    if Touches(BackupWrites(p), b) { BackupListed(p, b); }
    if IsBackup(p, b) { BackupCovers(p, b); }
  }

  lemma GroupOf(b: nat, g: nat, j: nat)
    requires b == g * GROUP + j && j < GROUP
    ensures b / GROUP == g && b % GROUP == j
  {
  }

  lemma DivUnique(a: nat, m: nat, q: nat, r: nat)
    requires m > 0 && a == m * q + r && r < m
    ensures a % m == r && a / m == q
  {
    var x := a / m;
    assert a == m * x + a % m;
    if x < q { MulMonotone(m, x + 1, q); }
    if q < x { MulMonotone(m, q + 1, x); }
  }

  // ----- What the reader finds -----

  /** A block of the last phase that nothing is written to afterwards. */
  lemma {:induction false} PhaseKept(d: Disk, before: seq<Write>, phase: seq<Write>, after: seq<Write>, i: nat)
    requires i < |phase| && |phase[i].bytes| == 4096 && !Touches(after, phase[i].block)
    requires forall j :: i < j < |phase| ==> phase[j].block != phase[i].block
    ensures BlockAt(Apply(d, before + phase + after), phase[i].block) == phase[i].bytes
  {
    hide BlockAt, Touches;
    ApplyBoth(d, before + phase, after);
    ApplyBoth(d, before, phase);
    Untouched(Apply(d, before + phase), after, phase[i].block);
    LastWritten(Apply(d, before), phase, i);
    var b := BlockAt(Apply(Apply(d, before), phase), phase[i].block);
    assert b[..4096] == b;
  }

  /** The superblock. */
  lemma {:induction false} SuperThere(d: Disk, p: Plan)
    requires Fitting(p)
    ensures BlockAt(Apply(d, Writes(p)), 0)[..1024] == Zeros(1024)
    ensures BlockAt(Apply(d, Writes(p)), 0)[1024..2048] == EncodeSuper(SuperOf(p), 0, p.fill.id)
  {
    hide DescriptorsAt, EncodeSuper, SuperOf, ResizeWrites, TableWrites, BitmapWrites, BackupWrites, HasSparse, Sane,
         Apply;
    var before, front, after := ResizeWrites(p) + TableWrites(p) + BitmapWrites(p), FrontWrites(p), BackupWrites(p);
    InBackups(p, 0);
    PhaseKept(d, before, front, after, p.descriptors);
  }

  /** The descriptors of all groups. */
  lemma {:induction false} DescriptorThere(d: Disk, p: Plan, g: nat)
    requires Fitting(p) && g < p.im.total
    ensures BlockAt(Apply(d, Writes(p)), 1 + g / 128)[32 * (g % 128)..32 * (g % 128) + 32]
            == EncodeDescriptor(DescriptorOf(p.im, g), p.fill.checksum(g))
  {
    hide EncodeSuper, SuperOf, ResizeWrites, TableWrites, BitmapWrites, BackupWrites, HasSparse, Sane, Apply,
         DescriptorOf, EncodeDescriptor, DescriptorBlock;
    var before, front, after := ResizeWrites(p) + TableWrites(p) + BitmapWrites(p), FrontWrites(p), BackupWrites(p);
    var j := g / 128;
    InBackups(p, 1 + j);
    assert front[j] == Write(1 + j, DescriptorsAt(p, j));
    PhaseKept(d, before, front, after, j);
    DescriptorAt(x => DescriptorBytesOf(p, x), j, g % 128);
    assert 128 * j + g % 128 == g;
  }

  /** No backup group starts between the inode table's first block and block `end`. */
  ghost predicate ClearUpTo(lay: Layout, end: nat) {
    forall g: nat :: 0 < g < lay.total && HasSparse(g) ==> g * GROUP < lay.table || end <= g * GROUP
  }

  /** ... among all inode tables and bitmaps. */
  ghost predicate TablesClear(lay: Layout) { ClearUpTo(lay, lay.dataEnd) }

  /** ... among the blocks that hold the first `n` inodes. */
  ghost predicate InodesClear(lay: Layout, n: nat) { ClearUpTo(lay, lay.table + (n + 15) / 16) }

  /** The record of an inode, if its block of the table is not written again. */
  lemma {:induction false} RecordThere(d: Disk, p: Plan, k: nat)
    requires Fitting(p) && 1 <= k <= |p.im.inodes| && !IsBackup(p, p.im.table + (k - 1) / 16)
    ensures var b := BlockAt(Apply(d, Writes(p)), p.im.table + (k - 1) / 16);
            b[256 * ((k - 1) % 16)..256 * ((k - 1) % 16) + 256] == Encode(p.im.inodes[k - 1], p.fill.rest(k - 1))
  {
    hide ResizeWrites, BitmapWrites, FrontWrites, BackupWrites, IsBackup, Sane, Apply, Encode, TableBlock, TableBlocks,
         Touches, AreaFor;
    var before, table := ResizeWrites(p), TableWrites(p);
    var after := BitmapWrites(p) + FrontWrites(p) + BackupWrites(p);
    var j := (k - 1) / 16;
    var b := p.im.table + j;
    InsideTable(p, k);
    TouchesBoth(BitmapWrites(p) + FrontWrites(p), BackupWrites(p), b);
    TouchesBoth(BitmapWrites(p), FrontWrites(p), b);
    InBackups(p, b);
    InFront(p, b);
    if Touches(BitmapWrites(p), b) { InBitmaps(p, b); }
    assert table[j] == Write(b, TableBlock(i => RecordOf(p, i), j));
    PhaseKept(d, before, table, after, j);
    WritesRegroup(p);
    RecordAt(i => RecordOf(p, i), j, (k - 1) % 16);
    assert 16 * j + (k - 1) % 16 == k - 1;
  }

  lemma WritesRegroup(p: Plan)
    ensures Writes(p) == ResizeWrites(p) + TableWrites(p) + (BitmapWrites(p) + FrontWrites(p) + BackupWrites(p))
  {
    hide ResizeWrites, TableWrites, BitmapWrites, FrontWrites, BackupWrites;
  }

  lemma InsideTable(p: Plan, k: nat)
    requires Fitting(p) && 1 <= k <= |p.im.inodes|
    ensures (k - 1) / 16 < p.im.groups * TableBlocks(p.im.perGroup) && p.descriptors < p.im.table
  {
    var per := p.im.perGroup;
    TableIsWhole(per);
    assert TableBlocks(per) * 16 == per;
    assert p.im.groups * TableBlocks(per) * 16 == p.im.groups * per;
  }

  lemma CountsFit(im: Image, g: nat)
    requires Sane(im)
    ensures var d := DescriptorOf(im, g);
            d.freeBlocks <= GROUP && d.freeInodes <= GROUP && d.dirs <= GROUP && d.flags <= 3 && d.unused <= GROUP
  {
    hide NumbersBelow, BlockMarks, UsedInodes, PlaceDir, LastUsed;
    SubsetSize(FreeBlocks(im, g), NumbersBelow(GROUP));
    SubsetSize(FreeInodes(im, g), NumbersBelow(im.perGroup));
    SubsetSize(UsedDirs(g, im.perGroup, im.inodes, im.perGroup), NumbersBelow(im.perGroup));
  }

  /** All numbers of the descriptors fit their fields. */
  lemma DescriptorStorable(p: Plan, g: nat)
    requires Fitting(p) && g < p.im.total
    ensures DescriptorFits(DescriptorOf(p.im, g))
  {
    hide HasSparse, TableBlocks, FreeBlocks, FreeInodes, UsedDirs, LastUsed, Candidate;
    CountsFit(p.im, g);
    if g < p.im.groups {
      MulMonotone(TableBlocks(p.im.perGroup), g, p.im.groups);
    } else {
      EmptyFits(p.im, g);
    }
  }

  lemma {:induction false} DescriptorReads(d: Disk, p: Plan, g: nat)
    requires Fitting(p) && g < p.im.total
    ensures ReadDescriptor(Apply(d, Writes(p)), g) == DescriptorOf(p.im, g)
  {
    hide Writes, Apply, Fitting, DescriptorOf, EncodeDescriptor, DecodeDescriptor;
    DescriptorThere(d, p, g);
    DescriptorStorable(p, g);
    DescriptorRoundTrip(DescriptorOf(p.im, g), p.fill.checksum(g));
  }

  /** Dividing by the inodes of a group and by the inodes of a block. */
  lemma PlaceInTable(k: nat, perGroup: nat)
    requires k >= 1 && Candidate(perGroup)
    ensures var g, index := (k - 1) / perGroup, (k - 1) % perGroup;
            g * TableBlocks(perGroup) + index / 16 == (k - 1) / 16 && index % 16 == (k - 1) % 16
  {
    var g, index := (k - 1) / perGroup, (k - 1) % perGroup;
    var t := TableBlocks(perGroup);
    assert perGroup == 16 * t;
    assert k - 1 == g * perGroup + index;
    assert g * perGroup == 16 * (g * t);
  }

  lemma GroupOfInode(p: Plan, k: nat)
    requires Fitting(p) && 1 <= k <= |p.im.inodes|
    ensures p.im.perGroup > 0 && (k - 1) / p.im.perGroup < p.im.groups <= p.im.total
  {
    hide AreaFor, DataEnd;
    DivBelow(k - 1, p.im.groups, p.im.perGroup);
  }

  /** The 256 bytes of a table where the record of inode `k` goes. */
  function RecordIn(e: Disk, table: nat, k: nat): InodeBytes
    requires k >= 1
  {
    BlockAt(e, table + (k - 1) / 16)[256 * ((k - 1) % 16)..256 * ((k - 1) % 16) + 256]
  }

  /** The reader goes to the right block of the table for every inode. */
  lemma {:induction false} ReadsFrom(d: Disk, p: Plan, k: nat)
    requires Fitting(p) && 1 <= k <= |p.im.inodes|
    ensures ReadInode(Apply(d, Writes(p)), k) == Decode(RecordIn(Apply(d, Writes(p)), p.im.table, k))
  {
    hide Writes, Apply, ReadDescriptor, EncodeSuper, ReadSuper, Decode, SuperOf, TableBlocks, DescriptorOf, RecordIn,
         ReadInode, Fitting, Candidate, BlockAt;
    GroupOfInode(p, k);
    var g := (k - 1) / p.im.perGroup;
    SuperThere(d, p);
    PerGroupInSuper(p);
    SuperRead(SuperOf(p), 0, p.fill.id);
    DescriptorReads(d, p, g);
    TableOf(p.im, g);
    ReadVia(Apply(d, Writes(p)), p.im.perGroup, p.im.table, k);
  }

  lemma TableOf(im: Image, g: nat)
    requires g < im.groups
    ensures DescriptorOf(im, g).inodeTable == im.table + g * TableBlocks(im.perGroup)
  {
    hide FreeBlocks, FreeInodes, UsedDirs, LastUsed, TableBlocks;
  }

  lemma ReadVia(e: Disk, per: nat, table: nat, k: nat)
    requires k >= 1 && Candidate(per) && ReadSuper(BlockAt(e, 0)[1024..2048]) == Some(per)
    requires ReadDescriptor(e, (k - 1) / per).inodeTable == table + (k - 1) / per * TableBlocks(per)
    ensures ReadInode(e, k) == Decode(RecordIn(e, table, k))
  {
    hide ReadDescriptor, ReadSuper, Decode, TableBlocks, BlockAt;
    PlaceInTable(k, per);
  }

  lemma PerGroupInSuper(p: Plan)
    requires Fitting(p)
    ensures SuperOf(p).perGroup == p.im.perGroup && 0 < p.im.perGroup < 0x1_0000_0000 && Candidate(p.im.perGroup)
  {
    hide Descriptors, SumBlocks, SumInodes;
  }

  /** Every inode whose block of the table is not written again reads back. */
  lemma {:induction false} InodeReads(d: Disk, p: Plan, k: nat)
    requires Fitting(p) && 1 <= k <= |p.im.inodes| && !IsBackup(p, p.im.table + (k - 1) / 16)
    requires Encodable(p.im.inodes[k - 1])
    ensures ReadInode(Apply(d, Writes(p)), k) == Low(p.im.inodes[k - 1])
  {
    hide Writes, Apply, ReadInode, Decode, Encode, Fitting, IsBackup, Encodable;
    ReadsFrom(d, p, k);
    RecordThere(d, p, k);
    InodeRoundTrip(p.im.inodes[k - 1], p.fill.rest(k - 1));
  }

  /** The first two records of a table block that a superblock copy is put over: no links are left. */
  lemma {:induction false} InodeLost(d: Disk, p: Plan, g: nat, k: nat)
    requires Fitting(p) && g in Backups(p) && 1 <= k <= |p.im.inodes| && p.im.table + (k - 1) / 16 == g * GROUP
    requires (k - 1) % 16 <= 1
    ensures var ino := ReadInode(Apply(d, Writes(p)), k); ino.links == 0 && ((k - 1) % 16 == 1 ==> ino.kind == Unused)
  {
    hide ResizeWrites, TableWrites, BitmapWrites, FrontWrites, BackupWrites, Apply, ReadInode, Decode, Fitting,
         EncodeSuper, SuperOf, DescriptorsAt;
    ReadsFrom(d, p, k);
    CopyThere(d, p, g);
    SuperAsInodes(SuperOf(p), g, p.fill.id);
    var b, sb := BlockAt(Apply(d, Writes(p)), g * GROUP), EncodeSuper(SuperOf(p), g, p.fill.id);
    assert b[0..256] == sb[0..256] && b[256..512] == sb[256..512];
  }

  /** The superblock copy of a backup group. */
  lemma {:induction false} CopyThere(d: Disk, p: Plan, g: nat)
    requires Fitting(p) && g in Backups(p)
    ensures BlockAt(Apply(d, Writes(p)), g * GROUP)[..1024] == EncodeSuper(SuperOf(p), g, p.fill.id)
  {
    hide ResizeWrites, TableWrites, BitmapWrites, FrontWrites, BackupWrites, Apply, EncodeSuper, SuperOf, DescriptorsAt,
         Fitting, Backups, BlockAt;
    var before, ws := ResizeWrites(p) + TableWrites(p) + BitmapWrites(p) + FrontWrites(p), BackupWrites(p);
    var i := CopyLast(p, g);
    ApplyBoth(d, before, ws);
    LastWritten(Apply(d, before), ws, i);
  }

  /** Nothing follows a superblock copy in its block. */
  lemma CopyLast(p: Plan, g: nat) returns (i: nat)
    requires Fitting(p) && g in Backups(p)
    ensures i < |BackupWrites(p)| && BackupWrites(p)[i] == Write(g * GROUP, EncodeSuper(SuperOf(p), g, p.fill.id))
    ensures forall j :: i < j < |BackupWrites(p)| ==> BackupWrites(p)[j].block != g * GROUP
  {
    hide BackupWrites, EncodeSuper, SuperOf, DescriptorsAt, Sane, AreaFor, DataEnd, Backups;
    var x :| 0 <= x < |Backups(p)| && Backups(p)[x] == g;
    NextBackup(p, x, 0);
    i := x * (1 + p.descriptors) + 0;
    forall j | i < j < |BackupWrites(p)| ensures BackupWrites(p)[j].block != g * GROUP { LaterCopy(p, x, j); }
  }

  lemma LaterCopy(p: Plan, x: nat, j: nat)
    requires p.descriptors < GROUP && x < |Backups(p)| && x * (1 + p.descriptors) < j < |BackupWrites(p)|
    ensures BackupWrites(p)[j].block > Backups(p)[x] * GROUP
  {
    hide BackupWrites, DescriptorsAt, EncodeSuper, SuperOf, BackupGroups;
    var n := 1 + p.descriptors;
    BackupLength(p);
    BackupIs(p, j);
    DivUnique(x * n, n, x, 0);
    DivBelow(j, |Backups(p)|, n);
    SlotOrder(x * n, j, n);
    Further(Backups(p), x, j / n);
  }

  lemma Further(list: seq<nat>, x: nat, y: nat)
    requires Increasing(list) && x < |list| && y < |list|
    ensures x < y ==> list[x] * GROUP < list[y] * GROUP
  {
  }

  lemma SlotOrder(i: nat, j: nat, n: nat)
    requires n > 0 && i < j && i % n == 0
    ensures j / n > i / n || (j / n == i / n && j % n > 0)
  {
    assert i == n * (i / n) && j == n * (j / n) + j % n;
    if j / n < i / n { MulMonotone(n, j / n + 1, i / n); }
  }

  // ----- From the state -----

  lemma PreparedIs(s: St)
    ensures var w, x := Prepared(s), ReservedEnd(Top(s.store), Area(s.store.size));
            && w.ranges == [Range(x, x + 1)] && w.store.off == 0 && w.store.block == x + 1
            && w.store.size == Max(s.store.size, (x + 1) * BLOCK)
            && Top(s.store) <= x && !Reserved(x, Area(s.store.size))
            && (forall b :: b != x ==> BlockAt(w.store.disk, b) == BlockAt(s.store.disk, b))
  {
    hide Area, Reserved, ReservedEnd, HasSparse;
    var a := Align(s.store);
    AlignForward(s.store);
    var t := SkipReserved(a);
    ReservedEndIsNext(a.block, Area(a.size));
    WriteOne(t, Zeros(4096), []);
    SkipTwice(a);
  }

  /** The image can be closed and all its block numbers have 32 bits. */
  ghost predicate Closable(s: St) {
    AreaFor(SealLayout(s).descriptors) <= Area(s.store.size) && Representable(SealLayout(s)) && |s.inodes| > 0
  }

  /** Nothing but a lack of descriptor space stops the closing, and then the plan fits. */
  lemma SealFits(s: St, fill: Fill)
    requires Closable(s)
    ensures Prepared(s).ranges != [] && Fitting(SealPlan(s, fill)) && Top(s.store) <= SealPlan(s, fill).dind
  {
    hide Prepared, LayoutOf, Area, PerGroup, GroupsFor, ResizeInode, AreaFor;
    PreparedIs(s);
    LayoutSane(Prepared(s).store, |s.inodes|);
    NotInFront(Prepared(s).ranges[0].start, Area(s.store.size));
  }

  lemma NotInFront(x: nat, area: nat)
    requires !Reserved(x, area) && area < GROUP - 1
    ensures x > area
  {
  }

  lemma ClosedIff(s: St, fill: Fill)
    ensures Close(s, fill).Closed? <==> AreaFor(SealLayout(s).descriptors) <= Area(s.store.size)
  {
    hide Prepared, SealLayout, Apply, Writes, SealPlan, Area, AreaFor, ReservedEnd;
    PreparedIs(s);
  }

  /** Below the cursor only the front of the image and the copies are written. */
  lemma WrittenBelow(p: Plan, b: nat)
    requires Fitting(p) && b < p.dind
    ensures Touches(Writes(p), b) <==> b <= AreaFor(p.descriptors) || IsBackup(p, b)
  {
    hide ResizeWrites, TableWrites, BitmapWrites, FrontWrites, BackupWrites, Touches, IsBackup, AreaFor, Sane,
         TableBlocks;
    TouchesBoth(ResizeWrites(p) + TableWrites(p) + BitmapWrites(p) + FrontWrites(p), BackupWrites(p), b);
    TouchesBoth(ResizeWrites(p) + TableWrites(p) + BitmapWrites(p), FrontWrites(p), b);
    TouchesBoth(ResizeWrites(p) + TableWrites(p), BitmapWrites(p), b);
    TouchesBoth(ResizeWrites(p), TableWrites(p), b);
    InResize(p, b);
    InTable(p, b);
    if Touches(BitmapWrites(p), b) { InBitmaps(p, b); }
    InFront(p, b);
    InBackups(p, b);
    AreaCovers(p.descriptors);
  }

  lemma AreaCovers(d: nat)
    ensures d <= AreaFor(d)
  {
  }

  /** Closing writes into no block that was free for content, from the time of an area of `area` blocks on, if and only
      if the area is now no larger. */
  lemma ClosingIsSafeIff(s: St, fill: Fill, area: nat)
    requires Closable(s) && area < GROUP - 1 && area + 1 < Top(s.store)
    ensures Prepared(s).ranges != []
    ensures (forall b: nat :: b < Top(s.store) && Touches(Writes(SealPlan(s, fill)), b) ==> Reserved(b, area))
            <==> AreaFor(SealLayout(s).descriptors) <= area
  {
    hide Prepared, SealLayout, Writes, Touches, HasSparse, ImageOf, Fitting, AreaFor, Area;
    SealFits(s, fill);
    var p := SealPlan(s, fill);
    AreaCovers(p.descriptors);
    if AreaFor(p.descriptors) <= area {
      forall b: nat | b < Top(s.store) && Touches(Writes(p), b) ensures Reserved(b, area) {
        WrittenBelow(p, b);
        if b <= area { InFirst(b, area); }
      }
    } else {
      WrittenBelow(p, area + 1);
      InFirst(area + 1, area);
      assert Touches(Writes(p), area + 1) && !Reserved(area + 1, area);
    }
  }

  lemma InFirst(b: nat, area: nat)
    requires b < GROUP
    ensures Reserved(b, area) <==> b <= area
  {
  }

  /** ... and then the blocks in between are as they were. */
  lemma ClosingIsSafe(s: St, fill: Fill, area: nat)
    requires Closable(s) && AreaFor(SealLayout(s).descriptors) <= area < GROUP - 1
    ensures Close(s, fill).Closed? && SameOff(s.store.disk, Close(s, fill).disk, Top(s.store), area)
  {
    hide Prepared, SealLayout, Writes, Touches, HasSparse, ImageOf, Fitting, Area, AreaFor, Apply, BlockAt;
    SealFits(s, fill);
    PreparedIs(s);
    var p := SealPlan(s, fill);
    AreaCovers(p.descriptors);
    var e := Close(s, fill).disk;
    forall b: nat | b < Top(s.store) && !Reserved(b, area) ensures BlockAt(s.store.disk, b) == BlockAt(e, b) {
      WrittenBelow(p, b);
      if b <= area { InFirst(b, area); }
      Untouched(Prepared(s).store.disk, Writes(p), b);
    }
  }

  /** The copies leave the blocks from the inode table's first up to `end` alone, be it the ones with inodes or all
      tables and bitmaps, if and only if no backup group starts among them. */
  lemma TablesSafeIff(s: St, fill: Fill, end: nat)
    requires Closable(s)
    ensures Prepared(s).ranges != []
    ensures (forall b: nat :: SealLayout(s).table <= b < end ==> !Touches(BackupWrites(SealPlan(s, fill)), b))
            <==> ClearUpTo(SealLayout(s), end)
  {
    hide LayoutOf, BackupWrites, Touches, HasSparse, Fitting, Area, AreaFor, ResizeInode, ReservedEnd, WriteAligned;
    SealFits(s, fill);
    var p, lay := SealPlan(s, fill), SealLayout(s);
    SealFacts(s, fill);
    if ClearUpTo(lay, end) {
      forall b: nat | lay.table <= b < end ensures !Touches(BackupWrites(p), b) {
        InBackups(p, b);
        if IsBackup(p, b) { CopyBefore(p, b); }
      }
    } else {
      var g: nat :| 0 < g < lay.total && HasSparse(g) && lay.table <= g * GROUP < end;
      InBackups(p, g * GROUP);
      GroupOf(g * GROUP, g, 0);
      assert Touches(BackupWrites(p), g * GROUP);
    }
  }

  lemma SealFacts(s: St, fill: Fill)
    requires Closable(s) && Prepared(s).ranges != []
    ensures var p, lay := SealPlan(s, fill), SealLayout(s);
            && p.descriptors == lay.descriptors < GROUP && p.im.total == lay.total && p.im.table == lay.table
            && p.im.dataSize == lay.dataEnd
            && p.dind + 1 == lay.table && !Reserved(p.dind, p.descriptors) && p.im.groups == lay.groups
            && p.im.perGroup == lay.perGroup
  {
    hide LayoutOf, HasSparse, Area, AreaFor, ResizeInode, ReservedEnd, WriteAligned;
    SealFits(s, fill);
    PreparedIs(s);
    LayoutSane(Prepared(s).store, |s.inodes|);
    AreaCovers(SealLayout(s).descriptors);
  }

  /** A copy that lies behind the last data block starts behind it. */
  lemma CopyBefore(p: Plan, b: nat)
    requires IsBackup(p, b) && !Reserved(p.dind, p.descriptors) && p.dind + 1 == p.im.table <= b
    ensures p.im.table <= b / GROUP * GROUP <= b
  {
    hide HasSparse;
    var g := b / GROUP;
    if g * GROUP < p.im.table {
      GroupOf(p.dind, g, p.dind - g * GROUP);
    }
  }

  lemma TableKept(s: St, fill: Fill, end: nat, b: nat)
    requires Closable(s) && ClearUpTo(SealLayout(s), end) && SealLayout(s).table <= b < end
    ensures Prepared(s).ranges != [] && !IsBackup(SealPlan(s, fill), b)
  {
    hide LayoutOf, HasSparse, Fitting, Area, AreaFor, ResizeInode, ReservedEnd, WriteAligned;
    SealFits(s, fill);
    SealFacts(s, fill);
    if IsBackup(SealPlan(s, fill), b) { CopyBefore(SealPlan(s, fill), b); }
  }

  /** The reader finds every inode that fits its record, and behind number 7 the resize inode. */
  lemma ClosedReads(s: St, fill: Fill, k: nat)
    requires Closable(s) && InodesClear(SealLayout(s), |s.inodes|) && 1 <= k <= |s.inodes|
    requires k != RESIZE_INODE ==> Encodable(InodeAt(s.inodes, k))
    ensures Close(s, fill).Closed? && Prepared(s).ranges != []
    ensures ReadInode(Close(s, fill).disk, k) == if k == RESIZE_INODE then ResizeInode(SealPlan(s, fill).dind)
            else Low(InodeAt(s.inodes, k))
  {
    hide LayoutOf, Apply, Writes, Area, AreaFor, ReadInode, ClearUpTo, Representable, WriteAligned, ResizeInode,
         IsBackup, Sane, DataEnd;
    SealFits(s, fill);
    SealFacts(s, fill);
    var p := SealPlan(s, fill);
    assert InodeAt(p.im.inodes, k) == p.im.inodes[k - 1];
    InsideTable(p, k);
    TableKept(s, fill, p.im.table + (|s.inodes| + 15) / 16, p.im.table + (k - 1) / 16);
    ResizeStorable(p.dind);
    InodeReads(Prepared(s).store.disk, p, k);
  }

  /** The record of every inode lies within the image file. */
  lemma {:induction false} RecordInside(d: Disk, p: Plan, k: nat, length: nat)
    requires Fitting(p) && 1 <= k <= |p.im.inodes| && p.im.total * GROUP * BLOCK <= length
    ensures InodeThere(Apply(d, Writes(p)), length, k)
  {
    hide Writes, Apply, ReadDescriptor, EncodeSuper, ReadSuper, SuperOf, TableBlocks, DescriptorOf, Fitting, Candidate,
         BlockAt;
    GroupOfInode(p, k);
    var g := (k - 1) / p.im.perGroup;
    SuperThere(d, p);
    PerGroupInSuper(p);
    SuperRead(SuperOf(p), 0, p.fill.id);
    DescriptorReads(d, p, g);
    TableOf(p.im, g);
    TableInside(p, g, (k - 1) % p.im.perGroup);
  }

  lemma TableInside(p: Plan, g: nat, index: nat)
    requires Fitting(p) && g < p.im.groups && index < p.im.perGroup
    ensures 4096 * (p.im.table + g * TableBlocks(p.im.perGroup)) + 256 * index + 256 <= p.im.total * GROUP * BLOCK
    ensures 4096 + 32 * g + 32 <= p.im.total * GROUP * BLOCK
  {
    hide AreaFor, TableBlocks, DataEnd;
    var t := TableBlocks(p.im.perGroup);
    BlocksOfTable(p.im.perGroup);
    EndOfTables(p.im.table, p.im.groups, p.im.perGroup);
    MulMonotone(t, g + 1, p.im.groups);
    NextTable(g, t);
    MulMonotone(GROUP, p.im.groups, p.im.total);
    RecordWithin(p.im.table, g * t, p.im.groups * t, t, p.im.total * GROUP, index);
  }

  lemma BlocksOfTable(perGroup: nat)
    requires Candidate(perGroup)
    ensures perGroup == 16 * TableBlocks(perGroup)
  {
  }

  lemma EndOfTables(table: nat, groups: nat, perGroup: nat)
    ensures table + groups * TableBlocks(perGroup) <= DataEnd(table, groups, perGroup)
  {
    hide TableBlocks;
  }

  lemma NextTable(g: nat, t: nat)
    ensures (g + 1) * t == g * t + t
  {
  }

  lemma RecordWithin(table: nat, before: nat, tables: nat, t: nat, end: nat, index: nat)
    requires before + t <= tables && table + tables <= end && index < 16 * t
    ensures 4096 * (table + before) + 256 * index + 256 <= end * BLOCK
  {
  }

  lemma ClosedThere(s: St, fill: Fill, k: nat)
    requires Closable(s) && 1 <= k <= |s.inodes|
    ensures Close(s, fill).Closed? && InodeThere(Close(s, fill).disk, SealLayout(s).size, k) && k < 0x1_0000_0000
  {
    hide LayoutOf, Apply, Writes, Area, AreaFor, InodeThere, WriteAligned, ResizeInode, Sane, DataEnd;
    SealFits(s, fill);
    SealFacts(s, fill);
    LayoutSane(Prepared(s).store, |s.inodes|);
    RecordInside(Prepared(s).store.disk, SealPlan(s, fill), k, SealLayout(s).size);
    MulMonotone(SealLayout(s).perGroup, SealLayout(s).groups, 0x2_0000);
  }

  /** So does everything below the cursor. */
  lemma TopInside(s: St)
    requires Closable(s)
    ensures Top(s.store) * BLOCK <= SealLayout(s).size
  {
    hide LayoutOf, Area, ReservedEnd, TableBlocks, DataEnd, Reserved, Prepared, AreaFor;
    PreparedIs(s);
    LayoutSane(Prepared(s).store, |s.inodes|);
    DataBehind(SealLayout(s).table, SealLayout(s).groups, SealLayout(s).perGroup);
    MulMonotone(GROUP, SealLayout(s).groups, SealLayout(s).total);
  }

  lemma ResizeStorable(dind: nat)
    ensures Encodable(ResizeInode(dind)) && Low(ResizeInode(dind)) == ResizeInode(dind)
  {
  }

  /** The resize inode leads over its double-indirect block to the reserved descriptor blocks, and each of these
      lists its copies. */
  lemma ResizeReads(s: St, fill: Fill, off: nat, i: nat)
    requires Closable(s) && Prepared(s).ranges != []
    requires var p := SealPlan(s, fill); off < ReservedGdt(p.descriptors) && i < |Backups(p)|
    ensures var p, e := SealPlan(s, fill), Close(s, fill).disk;
            && Field(ResizeInode(p.dind).field, 52, 4) == p.dind
            && i < ADDRESSES_PER_BLOCK && p.descriptors + off < ADDRESSES_PER_BLOCK
            && Field(BlockAt(e, p.dind), 4 * (p.descriptors + off), 4) == 1 + p.descriptors + off
            && Field(BlockAt(e, 1 + p.descriptors + off), 4 * i, 4) == BackupSlot(p.descriptors, off, Backups(p)[i])
  {
    hide LayoutOf, Apply, Writes, Area, Representable, WriteAligned, ListBlock, Sane, DataEnd, HasSparse, Field, LE,
         PerGroup, BackupGroups;
    SealFits(s, fill);
    SealFacts(s, fill);
    var p, d := SealPlan(s, fill), Prepared(s).store.disk;
    SlotsFit(p.descriptors, p.im.total);
    NumberFits(p);
    FieldOf(ResizeInode(p.dind).field, 52, 4, p.dind);
    ListThere(d, p, ReservedGdt(p.descriptors));
    ListThere(d, p, off);
    ListEntry(Indirect(p.descriptors), p.descriptors + off);
    ListEntry(CopyList(p.descriptors, off, Backups(p)), i);
  }

  lemma NumberFits(p: Plan)
    requires Fitting(p)
    ensures p.dind < 0x1_0000_0000
  {
    hide Sane, TableBlocks, AreaFor;
    GroupsInside(p.im);
    MulMonotone(GROUP, p.im.groups, p.im.total);
  }

  lemma GroupsInside(im: Image)
    requires Sane(im)
    ensures im.groups <= im.total
  {
  }

  lemma {:induction false} ListThere(d: Disk, p: Plan, i: nat)
    requires Fitting(p) && i <= ReservedGdt(p.descriptors) && !Reserved(p.dind, p.descriptors)
    ensures var w := ResizeWrites(p)[i]; BlockAt(Apply(d, Writes(p)), w.block) == w.bytes
  {
    hide TableWrites, BitmapWrites, FrontWrites, BackupWrites, Sane, Apply, ListBlock, TableBlocks, Touches, HasSparse,
         CopyList, Indirect;
    var ws := ResizeWrites(p);
    var after := TableWrites(p) + BitmapWrites(p) + FrontWrites(p) + BackupWrites(p);
    var b := ws[i].block;
    TouchesBoth(TableWrites(p) + BitmapWrites(p) + FrontWrites(p), BackupWrites(p), b);
    TouchesBoth(TableWrites(p) + BitmapWrites(p), FrontWrites(p), b);
    TouchesBoth(TableWrites(p), BitmapWrites(p), b);
    InTable(p, b);
    if Touches(BitmapWrites(p), b) { InBitmaps(p, b); }
    InFront(p, b);
    InBackups(p, b);
    PhaseKept(d, [], ws, after, i);
    FirstPhase(p);
  }

  lemma FirstPhase(p: Plan)
    ensures Writes(p) == [] + ResizeWrites(p) + (TableWrites(p) + BitmapWrites(p) + FrontWrites(p) + BackupWrites(p))
  {
    hide ResizeWrites, TableWrites, BitmapWrites, FrontWrites, BackupWrites;
  }

  // ----- Extent trees -----

  /** A superblock copy is no extent node: the number of inodes is a multiple of 8192. */
  lemma {:induction false} CopyIsNoNode(d: Disk, p: Plan, g: nat)
    requires Fitting(p) && (g == 0 || g in Backups(p))
    ensures Field(BlockAt(Apply(d, Writes(p)), g * GROUP), 0, 2) != EXTENT_HEADER_MAGIC
  {
    hide Writes, Apply, EncodeSuper, Fitting, Backups, BlockAt, Read, SuperOf;
    var b := BlockAt(Apply(d, Writes(p)), g * GROUP);
    assert b[0..2] == b[..1024][0..2];
    if g == 0 {
      SuperThere(d, p);
      assert Zeros(1024)[0..2] == Zeros(2);
      TwoZeros();
    } else {
      CopyThere(d, p, g);
      SuperHead(SuperOf(p), g, p.fill.id);
      InodeTotal(p);
    }
  }

  lemma InodeTotal(p: Plan)
    requires Fitting(p)
    ensures SuperOf(p).inodes % 0x1_0000 != EXTENT_HEADER_MAGIC
  {
    hide Descriptors, SumBlocks, SumInodes, DataEnd, AreaFor;
    var c := p.im.perGroup / 8192;
    assert p.im.perGroup == 8192 * c;
    assert p.im.total * p.im.perGroup == 8192 * (p.im.total * c);
  }

  /** A block field with a leaf block in a reserved area cannot be parsed any more once the image is closed: the start
      of that group is a leaf block too, and now a superblock copy. */
  lemma {:induction false} LeafOverwritten(s: St, fill: Fill, field: seq<byte>, area: nat, x: nat)
    requires Closable(s) && GroupStarts(field, area) && PointsAt(field, x) && Reserved(x, area) && x < Top(s.store)
    ensures Close(s, fill).Closed? && |field| == 60 && !ParseExtents(Close(s, fill).disk, field).Ranges?
  {
    hide LayoutOf, Apply, Writes, Area, AreaFor, Representable, WriteAligned, ResizeInode, Sane, DataEnd, HasSparse,
         ParseIndex, Field, BackupGroups, BlockAt;
    SealFits(s, fill);
    SealFacts(s, fill);
    ClosedIff(s, fill);
    var p, g := SealPlan(s, fill), x / GROUP;
    GroupInside(s, x);
    assert g == 0 || g in Backups(p);
    CopyIsNoNode(Prepared(s).store.disk, p, g);
    var n: nat :| 1 <= n <= Field(field, 2, 2) && n <= 4 && Pointer(field, n) == g * GROUP;
    BadLeafBlock(Close(s, fill).disk, field, Field(field, 2, 2), n);
  }

  lemma GroupInside(s: St, x: nat)
    requires x < Top(s.store)
    ensures x / GROUP < SealLayout(s).total
  {
    hide LayoutOf, Area, ReservedEnd, TableBlocks, DataEnd, Reserved, Prepared;
    PreparedIs(s);
    LayoutSane(Prepared(s).store, |s.inodes|);
    DataBehind(SealLayout(s).table, SealLayout(s).groups, SealLayout(s).perGroup);
    DivBelow(x, SealLayout(s).groups, GROUP);
  }

  // ----- Bitmaps -----

  lemma BitmapOrder(im: Image, i: nat, j: nat)
    requires Sane(im) && i < j && DataEnd(im.table, im.groups, im.perGroup) <= im.groups * GROUP
    ensures BlockBitmapOf(im, i / 2) + i % 2 < BlockBitmapOf(im, j / 2) + j % 2
  {
    hide TableBlocks, HasSparse, Candidate;
    var t, g, h := TableBlocks(im.perGroup), i / 2, j / 2;
    if h < im.groups {
    } else if g < im.groups {
      MulMonotone(GROUP, im.groups, h);
    } else if g < h {
      EmptyFits(im, g);
      MulMonotone(GROUP, g + 1, h);
    }
  }

  /** The bitmaps of a group are where its descriptor says, unless a copy is put over them. */
  lemma {:induction false} BitmapThere(d: Disk, p: Plan, g: nat, second: bool)
    requires Fitting(p) && g < p.im.total && !IsBackup(p, BlockBitmapOf(p.im, g) + (if second then 1 else 0))
    ensures BlockAt(Apply(d, Writes(p)), BlockBitmapOf(p.im, g) + (if second then 1 else 0))
            == GroupBits(p.im, g, second)
  {
    hide ResizeWrites, TableWrites, FrontWrites, BackupWrites, IsBackup, Apply, GroupBits, TableBlocks, Touches,
         AreaFor, BlockBitmapOf, Sane;
    var before, ws := ResizeWrites(p) + TableWrites(p), BitmapWrites(p);
    var after := FrontWrites(p) + BackupWrites(p);
    var i := 2 * g + (if second then 1 else 0);
    assert i / 2 == g && (i % 2 == 1 <==> second);
    var b := ws[i].block;
    assert Touches(ws, b) by { TouchesOne(ws, i); }
    InBitmaps(p, b);
    TouchesBoth(FrontWrites(p), BackupWrites(p), b);
    InBackups(p, b);
    InFront(p, b);
    AreaCovers(p.descriptors);
    forall j | i < j < |ws| ensures ws[j].block != b { BitmapOrder(p.im, i, j); }
    PhaseKept(d, before, ws, after, i);
    MiddlePhase(p);
  }

  lemma TouchesOne(ws: seq<Write>, i: nat)
    requires i < |ws|
    ensures Touches(ws, ws[i].block)
  {
  }

  lemma MiddlePhase(p: Plan)
    ensures Writes(p) == ResizeWrites(p) + TableWrites(p) + BitmapWrites(p) + (FrontWrites(p) + BackupWrites(p))
  {
    hide ResizeWrites, TableWrites, BitmapWrites, FrontWrites, BackupWrites;
  }

  /** The bit for block `b` in the bitmap of its group. */
  predicate BlockMarked(e: Disk, b: nat) { Marked(BlockAt(e, ReadDescriptor(e, b / GROUP).blockBitmap), b % GROUP) }

  /** The bit for inode `k` in the bitmap of its group. */
  predicate InodeMarked(e: Disk, k: nat) {
    var per := ReadSuper(BlockAt(e, 0)[1024..2048]);
    k >= 1 && per.Some? && (k - 1) % per.value < GROUP
      && Marked(BlockAt(e, ReadDescriptor(e, (k - 1) / per.value).inodeBitmap), (k - 1) % per.value)
  }

  /** The area that the bitmaps go by is at least as large as the one in use. */
  lemma AreaEnough(lay: Layout)
    requires Representable(lay) && lay.total >= 1 && lay.total * GROUP * BLOCK <= lay.size
    requires lay.descriptors == DescriptorBlocks(lay.total)
    ensures AreaFor(lay.descriptors) <= Area(lay.size)
  {
    GroupCountExact(lay.size);
    assert (lay.size - 1) / BLOCK / GROUP + 1 >= lay.total;
    AreaForMonotone(lay.descriptors, DescriptorBlocks(GroupCount(lay.size)));
  }

  lemma BitmapSafe(s: St, fill: Fill, g: nat, second: bool)
    requires Closable(s) && TablesClear(SealLayout(s)) && Prepared(s).ranges != [] && g < SealLayout(s).total
    ensures var p := SealPlan(s, fill); !IsBackup(p, BlockBitmapOf(p.im, g) + (if second then 1 else 0))
  {
    hide LayoutOf, Area, AreaFor, ResizeInode, ReservedEnd, Prepared, ClearUpTo, BlockBitmapOf, IsBackup, Sane, DataEnd,
         Reserved;
    SealFits(s, fill);
    SealFacts(s, fill);
    var p := SealPlan(s, fill);
    if g < p.im.groups {
      BitmapInData(p.im, g, second);
      TableKept(s, fill, SealLayout(s).dataEnd, BlockBitmapOf(p.im, g) + (if second then 1 else 0));
    } else {
      LayoutSane(Prepared(s).store, |s.inodes|);
      AreaEnough(SealLayout(s));
      AreaCovers(p.descriptors);
      BehindCopies(p, g, second);
    }
  }

  lemma BitmapInData(im: Image, g: nat, second: bool)
    requires g < im.groups
    ensures im.table <= BlockBitmapOf(im, g) + (if second then 1 else 0) < DataEnd(im.table, im.groups, im.perGroup)
  {
    hide TableBlocks;
  }

  /** The bitmaps of a group behind the data lie behind its copies. */
  lemma BehindCopies(p: Plan, g: nat, second: bool)
    requires Sane(p.im) && p.im.groups <= g && p.descriptors <= p.im.area
    ensures !IsBackup(p, BlockBitmapOf(p.im, g) + (if second then 1 else 0))
  {
    hide TableBlocks, HasSparse, Candidate;
    EmptyFits(p.im, g);
    var b := BlockBitmapOf(p.im, g) + (if second then 1 else 0);
    GroupOf(b, g, b - g * GROUP);
  }

  /** The block bitmaps of the closed image mark, in the groups with data, exactly the blocks in use, and in each group
      behind them exactly the metadata of that group. */
  lemma BlocksMarked(s: St, fill: Fill, b: nat)
    requires Closable(s) && TablesClear(SealLayout(s)) && b / GROUP < SealLayout(s).total
    ensures Close(s, fill).Closed?
    ensures var im := Close(s, fill).image;
            BlockMarked(Close(s, fill).disk, b) <==>
            if b / GROUP < im.groups then BlockInUse(b, im.dataSize, im.area, s.deleted)
            else b % GROUP < EmptyUsed(im, b / GROUP)
  {
    hide LayoutOf, Area, AreaFor, ResizeInode, ReservedEnd, WriteAligned, TablesClear, Apply, Writes, Fitting,
         BlockInUse, EmptyUsed, FreeBlocks, FreeInodes, UsedDirs, LastUsed, BitBlock, NumbersBelow, BlockBitmapOf,
         InodeTableOf, FlagsOf, Marked, ReadDescriptor, IsBackup;
    SealFits(s, fill);
    SealFacts(s, fill);
    var p, g := SealPlan(s, fill), b / GROUP;
    BitmapSafe(s, fill, g, false);
    BitmapThere(Prepared(s).store.disk, p, g, false);
    DescriptorReads(Prepared(s).store.disk, p, g);
    MarkedIff(BlockMarks(p.im, g), b % GROUP);
    assert g * GROUP + b % GROUP == b;
  }

  lemma MarkVia(e: Disk, per: nat, inodes: seq<Inode>, k: nat)
    requires k >= 1 && Candidate(per) && ReadSuper(BlockAt(e, 0)[1024..2048]) == Some(per)
    requires BlockAt(e, ReadDescriptor(e, (k - 1) / per).inodeBitmap) == BitBlock(InodeBits((k - 1) / per, per, inodes))
    ensures InodeMarked(e, k) <==> InodeInUse(k, inodes)
  {
    hide ReadDescriptor, ReadSuper, BitBlock, Marked, BlockAt, InodeInUse;
    var g, i := (k - 1) / per, (k - 1) % per;
    MarkedIff(InodeBits(g, per, inodes), i);
    assert 1 + g * per + i == k;
  }

  /** The inode bitmaps mark exactly the inodes in use. */
  lemma InodesMarked(s: St, fill: Fill, k: nat)
    requires Closable(s) && TablesClear(SealLayout(s)) && 1 <= k
    requires (k - 1) / SealLayout(s).perGroup < SealLayout(s).total
    ensures Close(s, fill).Closed?
    ensures InodeMarked(Close(s, fill).disk, k) <==> InodeInUse(k, Close(s, fill).image.inodes)
  {
    hide LayoutOf, Area, AreaFor, ResizeInode, ReservedEnd, WriteAligned, TablesClear, Apply, Writes, InodeInUse,
         DescriptorOf, BitBlock, BlockBitmapOf, ReadDescriptor, IsBackup, EncodeSuper, ReadSuper, SuperOf, InodeMarked,
         InodeBits, Fitting, Candidate, Representable, Reserved, BlockAt;
    SealFits(s, fill);
    SealFacts(s, fill);
    var p, d := SealPlan(s, fill), Prepared(s).store.disk;
    PerGroupInSuper(p);
    var g := (k - 1) / p.im.perGroup;
    SuperThere(d, p);
    SuperRead(SuperOf(p), 0, p.fill.id);
    BitmapSafe(s, fill, g, true);
    BitmapThere(d, p, g, true);
    DescriptorReads(d, p, g);
    BitmapsOf(p.im, g);
    MarkVia(Apply(d, Writes(p)), p.im.perGroup, p.im.inodes, k);
  }

  lemma BitmapsOf(im: Image, g: nat)
    ensures DescriptorOf(im, g).blockBitmap == BlockBitmapOf(im, g)
    ensures DescriptorOf(im, g).inodeBitmap == BlockBitmapOf(im, g) + 1
  {
    hide FreeBlocks, FreeInodes, UsedDirs, LastUsed, BlockBitmapOf, InodeTableOf, FlagsOf;
  }

  lemma ClosableFits(s: St)
    requires Closable(s)
    ensures Fits(s.store) && Area(s.store.size) <= ADDRESSES_PER_BLOCK
  {
    hide LayoutOf, Prepared, Area, AreaFor, ReservedEnd, TableBlocks, DataEnd, GroupsFor, Reserved;
    PreparedIs(s);
    LayoutSane(Prepared(s).store, |s.inodes|);
    DataBehind(SealLayout(s).table, SealLayout(s).groups, SealLayout(s).perGroup);
    var lay := SealLayout(s);
    MulMonotone(GROUP, lay.groups, lay.total);
  }
}
