/** Closing the image: choosing the group layout, finding inodes again, and the free counts. */
module Closing {
  import opened Bytes
  import opened Geometry
  import opened Fs
  import opened Bitmaps
  import opened Records

  const INODE_SIZE: nat := 256
  const INODE_STEP: nat := 8192         // 4096 * 512 / 256
  const MAX_INODES_PER_GROUP: nat := 32768

  // ----- The group layout -----

  function TableBlocks(perGroup: nat): nat { perGroup * INODE_SIZE / BLOCK }

  function DataPerGroup(perGroup: nat): nat
    requires perGroup <= MAX_INODES_PER_GROUP
  {
    GROUP - TableBlocks(perGroup) - 2
  }

  /** How many groups a choice of inodes per group takes to hold the blocks and the inodes. */
  function GroupsFor(blocks: nat, inodes: nat, perGroup: nat): nat
    requires 0 < perGroup <= MAX_INODES_PER_GROUP
  {
    var data := DataPerGroup(perGroup);
    var least := Max(inodes - 1, 0) / perGroup * data + 1;
    (Max(blocks, least) + data - 1) / data
  }

  predicate Candidate(perGroup: nat) {
    perGroup % INODE_STEP == 0 && INODE_STEP <= perGroup <= MAX_INODES_PER_GROUP
  }

  lemma CeilDiv(a: nat, d: nat)
    requires d > 0
    ensures var g := (a + d - 1) / d; g * d >= a && (a > 0 ==> (g - 1) * d < a)
  {
    var g := (a + d - 1) / d;
    var r := (a + d - 1) % d;
    assert a + d - 1 == g * d + r;
  }

  lemma MulLess(g: nat, q: nat, d: nat)
    requires d > 0 && g * d > q * d
    ensures g > q
  {
    if g <= q { MulMonotone(d, g, q); }
  }

  /** The groups are enough for all blocks and for all inodes. */
  lemma GroupsSuffice(blocks: nat, inodes: nat, perGroup: nat)
    requires Candidate(perGroup)
    ensures var g := GroupsFor(blocks, inodes, perGroup);
            g >= 1 && g * DataPerGroup(perGroup) >= blocks && g * perGroup >= inodes
  {
    hide TableBlocks;
    PositiveData(perGroup);
    var data, q := DataPerGroup(perGroup), Max(inodes - 1, 0) / perGroup;
    var g := EnoughGroups(blocks, q, data);
    Covers(inodes, perGroup, q, g);
  }

  lemma PositiveData(perGroup: nat)
    requires perGroup <= MAX_INODES_PER_GROUP
    ensures DataPerGroup(perGroup) > 0
  {
  }

  lemma EnoughGroups(blocks: nat, q: nat, data: nat) returns (g: nat)
    requires data > 0
    ensures g == (Max(blocks, q * data + 1) + data - 1) / data && g >= q + 1 && g * data >= blocks
  {
    var least := q * data + 1;
    CeilDiv(Max(blocks, least), data);
    g := (Max(blocks, least) + data - 1) / data;
    MulLess(g, q, data);
  }

  lemma Covers(inodes: nat, perGroup: nat, q: nat, g: nat)
    requires perGroup > 0 && q == Max(inodes - 1, 0) / perGroup && g >= q + 1
    ensures g * perGroup >= inodes
  {
    MulMonotone(perGroup, q + 1, g);
    Remainder(Max(inodes - 1, 0), perGroup);
  }

  lemma Remainder(n: nat, d: nat)
    requires d > 0
    ensures n < (n / d + 1) * d
  {
    assert n == n / d * d + n % d;
  }

  /** Tables and bitmaps behind the data still end within the groups. */
  lemma LayoutFits(blocks: nat, inodes: nat, perGroup: nat)
    requires Candidate(perGroup)
    ensures var g := GroupsFor(blocks, inodes, perGroup);
            blocks + g * TableBlocks(perGroup) + 2 * g <= g * GROUP
  {
    var g, t := GroupsFor(blocks, inodes, perGroup), TableBlocks(perGroup);
    GroupsSuffice(blocks, inodes, perGroup);
    Distribute(g, t);
  }

  lemma Distribute(g: nat, t: nat)
    ensures g * (GROUP - t - 2) == g * GROUP - g * t - 2 * g
  {
  }

  /** Try every candidate and keep the first that takes the fewest groups. */
  method ChooseLayout(blocks: nat, inodes: nat) returns (groups: nat, perGroup: nat)
    ensures Candidate(perGroup) && groups == GroupsFor(blocks, inodes, perGroup)
    ensures forall c: nat :: Candidate(c) ==> groups <= GroupsFor(blocks, inodes, c)
    ensures forall c: nat :: Candidate(c) && c < perGroup ==> groups < GroupsFor(blocks, inodes, c)
    ensures perGroup == PerGroup(blocks, inodes)
  {
    hide GroupsFor;
    perGroup := INODE_STEP;
    groups := GroupsFor(blocks, inodes, perGroup);
    var c := INODE_STEP;
    while c <= MAX_INODES_PER_GROUP
      invariant c % INODE_STEP == 0 && c >= INODE_STEP
      invariant Candidate(perGroup) && groups == GroupsFor(blocks, inodes, perGroup)
      invariant forall x: nat :: Candidate(x) && x < c ==> groups <= GroupsFor(blocks, inodes, x)
      invariant forall x: nat :: Candidate(x) && x < perGroup ==> groups < GroupsFor(blocks, inodes, x)
      decreases MAX_INODES_PER_GROUP - c
    {
      var g := GroupsFor(blocks, inodes, c);
      if g < groups { groups, perGroup := g, c; }
      NextCandidate(c);
      c := c + INODE_STEP;
    }
    ChosenIs(blocks, inodes, groups, perGroup);
  }

  lemma NextCandidate(c: nat)
    requires c % INODE_STEP == 0
    ensures forall x: nat :: Candidate(x) && x < c + INODE_STEP ==> x < c || x == c
  {
  }

  /** The better of two choices, the earlier one if they are equal. */
  function Better(blocks: nat, inodes: nat, a: nat, b: nat): nat
    requires Candidate(a) && Candidate(b)
  {
    if GroupsFor(blocks, inodes, b) < GroupsFor(blocks, inodes, a) then b else a
  }

  /** How many inodes each group gets. */
  function PerGroup(blocks: nat, inodes: nat): (c: nat)
    ensures Candidate(c)
  {
    Better(blocks, inodes, Better(blocks, inodes, Better(blocks, inodes, 8192, 16384), 24576), 32768)
  }

  /** There is one first best choice. */
  lemma ChosenIs(blocks: nat, inodes: nat, groups: nat, perGroup: nat)
    requires Candidate(perGroup) && groups == GroupsFor(blocks, inodes, perGroup)
    requires forall c: nat :: Candidate(c) ==> groups <= GroupsFor(blocks, inodes, c)
    requires forall c: nat :: Candidate(c) && c < perGroup ==> groups < GroupsFor(blocks, inodes, c)
    ensures perGroup == PerGroup(blocks, inodes)
  {
    hide GroupsFor;
    assert Candidate(8192) && Candidate(16384) && Candidate(24576) && Candidate(32768);
  }

  lemma TableIsWhole(perGroup: nat)
    requires Candidate(perGroup)
    ensures TableBlocks(perGroup) * BLOCK == perGroup * INODE_SIZE
  {
  }

  // ----- Bitmaps, descriptors and totals -----

  /** Everything about the closed image that bitmaps and descriptors depend on: the end of the data, the reserved
      area, what was given up, the inodes, their number in a group, where the inode table starts, how many
      groups share it and how many groups there are. */
  datatype Image = Image(dataSize: nat, area: nat, deleted: seq<Range>, inodes: seq<Inode>, perGroup: nat, table: nat,
                         groups: nat, total: nat)

  ghost predicate Sane(im: Image) {
    im.area <= ADDRESSES_PER_BLOCK && Candidate(im.perGroup) && im.groups <= im.total
      && |im.inodes| <= im.groups * im.perGroup
  }

  ghost predicate Used(im: Image, group: nat, j: nat) {
    BlockInUse(group * GROUP + j, im.dataSize, im.area, im.deleted)
  }

  function MetadataBlocks(im: Image, group: nat): nat { if HasSparse(group) then 1 + im.area else 0 }

  /** A group behind the data: superblock copy and descriptors if it has them, its inode table, its two
      bitmaps, and nothing else. */
  function EmptyUsed(im: Image, group: nat): nat { MetadataBlocks(im, group) + TableBlocks(im.perGroup) + 2 }

  /** The blocks of a group that its bitmap marks. */
  ghost function BlockMarks(im: Image, group: nat): set<nat> {
    if group < im.groups then set j: nat | j < GROUP && Used(im, group, j) else NumbersBelow(EmptyUsed(im, group))
  }

  ghost function FreeBlocks(im: Image, group: nat): set<nat> { NumbersBelow(GROUP) - BlockMarks(im, group) }

  ghost function FreeInodes(im: Image, group: nat): set<nat> {
    NumbersBelow(im.perGroup) - UsedInodes(group, im.perGroup, im.inodes, im.perGroup)
  }

  function InodeTableOf(im: Image, group: nat): nat {
    if group < im.groups then im.table + group * TableBlocks(im.perGroup) else group * GROUP + MetadataBlocks(im, group)
  }

  function BlockBitmapOf(im: Image, group: nat): nat {
    if group < im.groups then im.table + im.groups * TableBlocks(im.perGroup) + 2 * group
      else InodeTableOf(im, group) + TableBlocks(im.perGroup)
  }

  function FlagsOf(im: Image, group: nat): nat {
    if group < im.groups then 0 else if group + 1 == im.total then INODE_UNINIT else INODE_UNINIT + BLOCK_UNINIT
  }

  /** The descriptor of a group: the counts are those of what the bitmaps leave free. */
  ghost function DescriptorOf(im: Image, group: nat): Descriptor {
    LastUsedIs(group, im.perGroup, im.inodes, im.perGroup);
    Descriptor(BlockBitmapOf(im, group), BlockBitmapOf(im, group) + 1, InodeTableOf(im, group), |FreeBlocks(im, group)|,
               |FreeInodes(im, group)|,
               |UsedDirs(group, im.perGroup, im.inodes, im.perGroup)|, FlagsOf(im, group),
               im.perGroup - LastUsed(group, im.perGroup, im.inodes, im.perGroup))
  }

  ghost function Descriptors(im: Image): (ds: seq<Descriptor>)
    ensures |ds| == im.total
  {
    seq(im.total, g requires 0 <= g < im.total => DescriptorOf(im, g))
  }

  /** What is not marked is free. */
  lemma {:induction false} Complement(n: nat, marks: set<nat>)
    requires forall j: nat :: j in marks ==> j < n
    ensures |NumbersBelow(n) - marks| == n - |marks| && |marks| <= n
  {
    assert marks <= NumbersBelow(n);
  }

  ghost predicate Bitmapped(im: Image, group: nat, blocks: seq<bv8>, inodes: seq<bv8>) {
    && |blocks| == |inodes| == 4096
    && AsBytes(blocks) == BitBlock(BlockMarks(im, group))
    && AsBytes(inodes) == BitBlock(InodeBits(group, im.perGroup, im.inodes))
  }

  method DataGroup(im: Image, group: nat)
      returns (blocks: seq<bv8>, inodes: seq<bv8>, d: Descriptor, usedBlocks: nat, usedInodes: nat)
    requires Sane(im) && group < im.groups
    ensures Bitmapped(im, group, blocks, inodes) && d == DescriptorOf(im, group)
    ensures usedBlocks + d.freeBlocks == GROUP && usedInodes + d.freeInodes == im.perGroup
  {
    hide NumbersBelow, BlockInUse, PlaceUsed, Shows, UsedInodes, UsedDirs, LastUsed, InodeBits, BitBlock, BlockMarks;
    ghost var marks;
    blocks, usedBlocks, marks := BlockBitmap(group, im.dataSize, im.area, im.deleted);
    SameMarks(im, group, marks);
    var last, dirs;
    inodes, usedInodes, last, dirs := InodeBitmap(group, im.perGroup, im.inodes);
    Complement(GROUP, marks);
    PaddedMarks(group, im.perGroup, im.inodes);
    Complement(im.perGroup, UsedInodes(group, im.perGroup, im.inodes, im.perGroup));
    LastUsedIs(group, im.perGroup, im.inodes, im.perGroup);
    ShownBytes(blocks, marks);
    ShownBytes(inodes, InodeBits(group, im.perGroup, im.inodes));
    d := Descriptor(BlockBitmapOf(im, group), BlockBitmapOf(im, group) + 1, InodeTableOf(im, group), GROUP - usedBlocks,
                    im.perGroup - usedInodes, dirs, 0, im.perGroup - last);
  }

  lemma SameMarks(im: Image, group: nat, marks: set<nat>)
    requires group < im.groups
    requires forall j: nat ::
               j in marks <==> j < GROUP && BlockInUse(group * GROUP + j, im.dataSize, im.area, im.deleted)
    ensures marks == BlockMarks(im, group)
  {
    hide BlockInUse;
    forall j: nat ensures j in marks <==> j in BlockMarks(im, group) {
      assert Used(im, group, j) <==> BlockInUse(group * GROUP + j, im.dataSize, im.area, im.deleted);
    }
  }

  lemma EmptyFits(im: Image, group: nat)
    requires Sane(im)
    ensures EmptyUsed(im, group) <= GROUP
  {
    hide HasSparse;
  }

  /** No group behind the data has inodes in use. */
  lemma {:induction false} NoneUsed(im: Image, group: nat)
    requires Sane(im) && im.groups <= group
    ensures UsedInodes(group, im.perGroup, im.inodes, im.perGroup) == {}
    ensures UsedDirs(group, im.perGroup, im.inodes, im.perGroup) == {}
    ensures LastUsed(group, im.perGroup, im.inodes, im.perGroup) == 0
    ensures InodeBits(group, im.perGroup, im.inodes) == NumbersBelow(GROUP) - NumbersBelow(im.perGroup)
  {
    hide NumbersBelow;
    MulMonotone(im.perGroup, im.groups, group);
    assert forall i: nat :: !PlaceUsed(group, im.perGroup, im.inodes, i);
    LastUsedIs(group, im.perGroup, im.inodes, im.perGroup);
  }

  method EmptyGroup(im: Image, group: nat) returns (blocks: seq<bv8>, inodes: seq<bv8>, d: Descriptor, usedBlocks: nat)
    requires Sane(im) && im.groups <= group < im.total
    ensures Bitmapped(im, group, blocks, inodes) && d == DescriptorOf(im, group)
    ensures usedBlocks + d.freeBlocks == GROUP && d.freeInodes == im.perGroup
  {
    hide NumbersBelow, Bit, Shows, HasSparse, UsedInodes, UsedDirs, LastUsed, InodeBits, BitBlock, BitByte;
    usedBlocks := EmptyUsed(im, group);
    EmptyFits(im, group);
    var a := Bitmaps.Blank(4096, 0);
    Uniforms(a[..], false);
    var total := SetFirst(a, usedBlocks, 0, {});
    blocks := a[..];
    assert {} + NumbersBelow(usedBlocks) == BlockMarks(im, group);
    ShownBytes(blocks, BlockMarks(im, group));
    NoneUsed(im, group);
    inodes := EmptyInodeBits(im.perGroup);
    ShownBytes(inodes, InodeBits(group, im.perGroup, im.inodes));
    Complement(GROUP, NumbersBelow(usedBlocks));
    Complement(im.perGroup, {});
    d := Descriptor(BlockBitmapOf(im, group), BlockBitmapOf(im, group) + 1, InodeTableOf(im, group), GROUP - usedBlocks,
                    im.perGroup, 0, FlagsOf(im, group), im.perGroup);
  }

  function SumBlocks(ds: seq<Descriptor>): nat {
    if ds == [] then 0 else SumBlocks(ds[..|ds| - 1]) + ds[|ds| - 1].freeBlocks
  }
  function SumInodes(ds: seq<Descriptor>): nat {
    if ds == [] then 0 else SumInodes(ds[..|ds| - 1]) + ds[|ds| - 1].freeInodes
  }

  lemma {:induction false} SumSnoc(ds: seq<Descriptor>, d: Descriptor)
    ensures SumBlocks(ds + [d]) == SumBlocks(ds) + d.freeBlocks && SumInodes(ds + [d]) == SumInodes(ds) + d.freeInodes
  {
    assert (ds + [d])[..|ds|] == ds;
  }

  /** All groups: the bitmaps of both kinds, the descriptors, and superblock totals that are the sums of
      the descriptors' counts. */
  method CloseGroups(im: Image) returns (blocks: seq<seq<bv8>>, inodes: seq<seq<bv8>>, ds: seq<Descriptor>,
                                         freeBlocks: nat, freeInodes: nat)
    requires Sane(im)
    ensures |blocks| == |inodes| == im.total && ds == Descriptors(im)
    ensures forall g :: 0 <= g < im.total ==> Bitmapped(im, g, blocks[g], inodes[g])
    ensures freeBlocks == SumBlocks(ds) && freeInodes == SumInodes(ds)
  {
    hide Bitmapped, DescriptorOf, SumBlocks, SumInodes, Candidate;
    blocks, inodes, ds := [], [], [];
    var usedBlocks, usedInodes: nat := 0, 0;
    NoSums();
    for g := 0 to im.groups
      invariant |ds| == |blocks| == |inodes| == g
      invariant forall x :: 0 <= x < g ==> Bitmapped(im, x, blocks[x], inodes[x]) && ds[x] == DescriptorOf(im, x)
      invariant usedBlocks + SumBlocks(ds) == g * GROUP && usedInodes + SumInodes(ds) == g * im.perGroup
    {
      var b, i, d, ub, ui := DataGroup(im, g);
      SumSnoc(ds, d);
      blocks, inodes, ds := blocks + [b], inodes + [i], ds + [d];
      usedBlocks, usedInodes := usedBlocks + ub, usedInodes + ui;
    }
    for g := im.groups to im.total
      invariant |ds| == |blocks| == |inodes| == g
      invariant forall x :: 0 <= x < g ==> Bitmapped(im, x, blocks[x], inodes[x]) && ds[x] == DescriptorOf(im, x)
      invariant usedBlocks + SumBlocks(ds) == g * GROUP && usedInodes + SumInodes(ds) == g * im.perGroup
    {
      var b, i, d, ub := EmptyGroup(im, g);
      SumSnoc(ds, d);
      blocks, inodes, ds, usedBlocks := blocks + [b], inodes + [i], ds + [d], usedBlocks + ub;
    }
    freeBlocks := im.total * GROUP - usedBlocks;
    freeInodes := im.total * im.perGroup - usedInodes;
  }

  lemma NoSums()
    ensures SumBlocks([]) == 0 && SumInodes([]) == 0
  {
  }
}
