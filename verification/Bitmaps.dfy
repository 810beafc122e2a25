/** The bitmaps and free counts written when the image is closed. */
module Bitmaps {
  import opened Bytes
  import opened Geometry
  import opened Allocation
  import opened Fs

  // ----- Bits in bytes -----

  predicate BitOf(b: bv8, k: nat)
    requires k < 8
  {
    (b >> k) & 1 == 1
  }

  function Mask(k: nat): bv8 {
    if k == 0 then 0x01 else if k == 1 then 0x02 else if k == 2 then 0x04 else if k == 3 then 0x08
    else if k == 4 then 0x10 else if k == 5 then 0x20 else if k == 6 then 0x40 else 0x80
  }

  lemma SetMask(b: bv8, k: nat)
    requires k < 8
    ensures SetByte(b, k) == b | Mask(k)
  {
  }

  lemma ClearMask(b: bv8, k: nat)
    requires k < 8
    ensures ClearByte(b, k) == b & !Mask(k)
  {
  }

  lemma BitMask(b: bv8, k: nat)
    requires k < 8
    ensures BitOf(b, k) <==> b & Mask(k) != 0
  {
  }

  lemma SetOne(b: bv8, k: nat, j: nat)
    requires k < 8 && j < 8
    ensures BitOf(SetByte(b, k), j) <==> BitOf(b, j) || j == k
  {
    hide BitOf, SetByte, ClearByte;
    SetMask(b, k);
    BitMask(b, j);
    BitMask(SetByte(b, k), j);
  }

  lemma ClearOne(b: bv8, k: nat, j: nat)
    requires k < 8 && j < 8
    ensures BitOf(ClearByte(b, k), j) <==> BitOf(b, j) && j != k
  {
    hide BitOf, SetByte, ClearByte;
    ClearMask(b, k);
    BitMask(b, j);
    BitMask(ClearByte(b, k), j);
  }

  lemma Uniform(j: nat)
    requires j < 8
    ensures BitOf(0xFF, j) && !BitOf(0, j)
  {
  }

  predicate Bit(bits: seq<bv8>, i: nat)
    requires i < 8 * |bits|
  {
    BitOf(bits[i / 8], i % 8)
  }

  /** The set bits among the first `n` are exactly `marks`. */
  ghost predicate Shows(bits: seq<bv8>, n: nat, marks: set<nat>) {
    && n <= 8 * |bits|
    && (forall i: nat :: i < n ==> (Bit(bits, i) <==> i in marks))
    && (forall i: nat :: i in marks ==> i < n)
  }

  function SetByte(b: bv8, k: nat): bv8
    requires k < 8
  {
    b | (1 << k)
  }

  function ClearByte(b: bv8, k: nat): bv8
    requires k < 8
  {
    b & !(1 << k)
  }

  function SetIn(bits: seq<bv8>, i: nat): seq<bv8>
    requires i < 8 * |bits|
  {
    bits[i / 8 := SetByte(bits[i / 8], i % 8)]
  }

  function ClearIn(bits: seq<bv8>, i: nat): seq<bv8>
    requires i < 8 * |bits|
  {
    bits[i / 8 := ClearByte(bits[i / 8], i % 8)]
  }

  lemma SetShows(bits: seq<bv8>, n: nat, marks: set<nat>, i: nat)
    requires Shows(bits, n, marks) && i < n
    ensures Shows(SetIn(bits, i), n, marks + {i}) && (Bit(bits, i) <==> i in marks)
  {
    hide BitOf, SetByte;
    forall j: nat | j < n ensures Bit(SetIn(bits, i), j) <==> Bit(bits, j) || j == i {
      SetOne(bits[i / 8], i % 8, j % 8);
    }
  }

  lemma ClearShows(bits: seq<bv8>, n: nat, marks: set<nat>, i: nat)
    requires Shows(bits, n, marks) && i < n
    ensures Shows(ClearIn(bits, i), n, marks - {i}) && (Bit(bits, i) <==> i in marks)
  {
    hide BitOf, ClearByte;
    forall j: nat | j < n ensures Bit(ClearIn(bits, i), j) <==> Bit(bits, j) && j != i {
      ClearOne(bits[i / 8], i % 8, j % 8);
    }
  }

  method SetBit(a: array<bv8>, i: nat) returns (was: bool)
    requires i < 8 * a.Length
    modifies a
    ensures a[..] == SetIn(old(a[..]), i) && was == Bit(old(a[..]), i)
  {
    hide BitOf, SetByte;
    was := BitOf(a[i / 8], i % 8);
    a[i / 8] := SetByte(a[i / 8], i % 8);
  }

  method ClearBit(a: array<bv8>, i: nat) returns (was: bool)
    requires i < 8 * a.Length
    modifies a
    ensures a[..] == ClearIn(old(a[..]), i) && was == Bit(old(a[..]), i)
  {
    hide BitOf, ClearByte;
    was := BitOf(a[i / 8], i % 8);
    a[i / 8] := ClearByte(a[i / 8], i % 8);
  }

  method Blank(n: nat, b: bv8) returns (a: array<bv8>)
    ensures fresh(a) && a.Length == n && forall i :: 0 <= i < n ==> a[i] == b
  {
    a := new bv8[n](_ => b);
  }

  lemma OneMore(marks: set<nat>, i: nat)
    ensures |marks + {i}| == |marks| + (if i in marks then 0 else 1)
  {
    if i in marks { assert marks + {i} == marks; }
  }

  lemma OneFewer(marks: set<nat>, i: nat)
    ensures |marks - {i}| == |marks| - (if i in marks then 1 else 0)
  {
    if i !in marks { assert marks - {i} == marks; }
  }

  // ----- The block bitmap of one group -----

  /** A block is in use if it lies below the end of the data or in a reserved area, and was not deleted. */
  ghost predicate BlockInUse(b: nat, dataSize: nat, area: nat, deleted: seq<Range>) {
    (b < dataSize || Reserved(b, area)) && !InRanges(deleted, b)
  }

  /** The first `n` bits of the group are set one after the other. */
  method SetFirst(a: array<bv8>, n: nat, used: nat, ghost marks: set<nat>) returns (more: nat)
    requires a.Length == 4096 && n <= GROUP && Shows(a[..], GROUP, marks) && used == |marks|
    modifies a
    ensures Shows(a[..], GROUP, marks + NumbersBelow(n)) && more == |marks + NumbersBelow(n)|
  {
    hide Bit, Shows, SetIn, NumbersBelow;
    more := used;
    assert marks + NumbersBelow(0) == marks;
    for i := 0 to n
      invariant Shows(a[..], GROUP, marks + NumbersBelow(i)) && more == |marks + NumbersBelow(i)|
    {
      ghost var now := marks + NumbersBelow(i);
      assert marks + NumbersBelow(i + 1) == now + {i};
      SetShows(a[..], GROUP, now, i);
      OneMore(now, i);
      var was := SetBit(a, i);
      if !was { more := more + 1; }
    }
  }

  /** The numbers within the group of the blocks that one range takes in. */
  ghost function InGroup(group: nat, start: nat, end: nat): set<nat> {
    set j: nat | j < GROUP && Falls(group, j, start, end)
  }

  predicate Falls(group: nat, j: nat, start: nat, end: nat) {
    start <= group * GROUP + j < end
  }

  lemma InGroupNone(group: nat, start: nat, end: nat)
    requires start >= end
    ensures InGroup(group, start, end) == {}
  {
  }

  method ClearRange(a: array<bv8>, group: nat, r: Range, used: nat, ghost marks: set<nat>) returns (fewer: nat)
    requires a.Length == 4096 && Shows(a[..], GROUP, marks) && used == |marks|
    modifies a
    ensures Shows(a[..], GROUP, marks - InGroup(group, r.start, r.end))
    ensures fewer == |marks - InGroup(group, r.start, r.end)|
  {
    hide Bit, Shows, ClearIn, InGroup;
    fewer := used;
    if r.start >= r.end {
      InGroupNone(group, r.start, r.end);
      return;
    }
    InGroupNone(group, r.start, r.start);
    assert marks - {} == marks;
    for b := r.start to r.end
      invariant Shows(a[..], GROUP, marks - InGroup(group, r.start, b)) && fewer == |marks - InGroup(group, r.start, b)|
    {
      ghost var now := marks - InGroup(group, r.start, b);
      InGroupNext(group, r.start, b);
      if b / GROUP == group {
        assert marks - InGroup(group, r.start, b + 1) == now - {b % GROUP};
        ClearShows(a[..], GROUP, now, b % GROUP);
        OneFewer(now, b % GROUP);
        var was := ClearBit(a, b % GROUP);
        if was { fewer := fewer - 1; }
      } else {
        assert marks - InGroup(group, r.start, b + 1) == now;
      }
    }
  }

  lemma InGroupNext(group: nat, start: nat, b: nat)
    requires start <= b
    ensures InGroup(group, start, b + 1) == InGroup(group, start, b) + (if b / GROUP == group then {b % GROUP} else {})
  {
    var r, l := InGroup(group, start, b + 1), InGroup(group, start, b)
      + (if b / GROUP == group then {b % GROUP} else {});
    forall j: nat ensures j in r <==> j in l {
      GroupParts(group, j, b);
    }
  }

  lemma GroupParts(group: nat, j: nat, b: nat)
    ensures j < GROUP && group * GROUP + j == b <==> b / GROUP == group && b % GROUP == j
  {
  }

  ghost function AllInGroup(group: nat, deleted: seq<Range>): set<nat> {
    if deleted == [] then {}
    else
      AllInGroup(group, deleted[..|deleted| - 1])
      + InGroup(group, deleted[|deleted| - 1].start, deleted[|deleted| - 1].end)
  }

  lemma {:induction false} AllInGroupNone(group: nat)
    ensures AllInGroup(group, []) == {}
  {
  }

  lemma {:induction false} AllInGroupNext(group: nat, deleted: seq<Range>, k: nat)
    requires k < |deleted|
    ensures AllInGroup(group, deleted[..k + 1]) == AllInGroup(group, deleted[..k])
            + InGroup(group, deleted[k].start, deleted[k].end)
  {
    assert deleted[..k + 1][..k] == deleted[..k];
  }

  lemma {:induction false} AllInGroupIs(group: nat, deleted: seq<Range>, j: nat)
    ensures j in AllInGroup(group, deleted) <==> j < GROUP && InRanges(deleted, group * GROUP + j)
  {
    if deleted != [] {
      var n := |deleted| - 1;
      AllInGroupIs(group, deleted[..n], j);
      assert deleted == deleted[..n] + [deleted[n]];
      InRangesSnoc(deleted[..n], deleted[n], group * GROUP + j);
    }
  }

  /** Everything below the end of the data. */
  method DataBits(group: nat, dataSize: nat) returns (a: array<bv8>, used: nat, ghost marks: set<nat>)
    ensures fresh(a) && a.Length == 4096 && Shows(a[..], GROUP, marks) && used == |marks|
    ensures forall j: nat :: j in marks <==> j < GROUP && j < dataSize - group * GROUP
  {
    hide Bit, Shows, NumbersBelow;
    var start, end := group * GROUP, (group + 1) * GROUP;
    marks, used := {}, 0;
    if end <= dataSize {
      a := Blank(4096, 0xFF);
      Uniforms(a[..], true);
      used := GROUP;
      marks := NumbersBelow(GROUP);
    } else {
      a := Blank(4096, 0);
      Uniforms(a[..], false);
      if start < dataSize {
        used := SetFirst(a, dataSize - start, 0, {});
        marks := {} + NumbersBelow(dataSize - start);
      }
    }
  }

  /** The block bitmap of a group that holds data, and how many of its bits are set. */
  method BlockBitmap(group: nat, dataSize: nat, area: nat, deleted: seq<Range>)
      returns (bits: seq<bv8>, used: nat, ghost marks: set<nat>)
    requires area <= ADDRESSES_PER_BLOCK
    ensures |bits| == 4096 && Shows(bits, GROUP, marks) && used == |marks|
    ensures forall j: nat :: j in marks <==> j < GROUP && BlockInUse(group * GROUP + j, dataSize, area, deleted)
  {
    hide Bit, Shows, InRanges, HasSparse, NumbersBelow, AllInGroup, InGroup, BlockInUse;
    var a;
    a, used, marks := DataBits(group, dataSize);
    var metadata := if HasSparse(group) then 1 + area else 0;
    used := SetFirst(a, Min(metadata, GROUP), used, marks);
    marks := marks + NumbersBelow(Min(metadata, GROUP));
    ghost var full := marks;
    assert full - {} == full && deleted[..0] == [];
    AllInGroupNone(group);
    for k := 0 to |deleted|
      invariant Shows(a[..], GROUP, marks) && used == |marks| && marks == full - AllInGroup(group, deleted[..k])
    {
      AllInGroupNext(group, deleted, k);
      used := ClearRange(a, group, deleted[k], used, marks);
      marks := marks - InGroup(group, deleted[k].start, deleted[k].end);
    }
    assert deleted[..|deleted|] == deleted;
    forall j: nat ensures j in marks <==> j < GROUP && BlockInUse(group * GROUP + j, dataSize, area, deleted) {
      MarkMeans(group, dataSize, area, deleted, j);
    }
    bits := a[..];
  }

  lemma {:induction false} MarkMeans(group: nat, dataSize: nat, area: nat, deleted: seq<Range>, j: nat)
    ensures j < GROUP ==>
              (BlockInUse(group * GROUP + j, dataSize, area, deleted) <==>
                 (j < dataSize - group * GROUP || (HasSparse(group) && j < 1 + area))
                   && j !in AllInGroup(group, deleted))
  {
    hide HasSparse, InRanges;
    AllInGroupIs(group, deleted, j);
    GroupParts(group, j, group * GROUP + j);
  }

  lemma Uniforms(bits: seq<bv8>, full: bool)
    requires |bits| == 4096 && forall i :: 0 <= i < 4096 ==> bits[i] == if full then 0xFF else 0
    ensures Shows(bits, GROUP, if full then NumbersBelow(GROUP) else {})
  {
    hide NumbersBelow;
    forall i: nat | i < GROUP ensures Bit(bits, i) <==> full {
      Uniform(i % 8);
    }
  }

  // ----- The inode bitmap of one group -----

  /** The reserved inodes are always in use, the others as long as they have links. */
  predicate InodeInUse(ino: nat, inodes: seq<Inode>) {
    1 <= ino <= |inodes| && (ino <= 10 || InodeAt(inodes, ino).links > 0)
  }

  /** Inode `i` of a group is in use. */
  predicate PlaceUsed(group: nat, perGroup: nat, inodes: seq<Inode>, i: nat) {
    InodeInUse(1 + group * perGroup + i, inodes)
  }

  /** The inodes in use among the first `n` of a group, by their place in the group. */
  ghost function UsedInodes(group: nat, perGroup: nat, inodes: seq<Inode>, n: nat): set<nat> {
    set i: nat | i < n && PlaceUsed(group, perGroup, inodes, i)
  }

  predicate PlaceDir(group: nat, perGroup: nat, inodes: seq<Inode>, i: nat) {
    PlaceUsed(group, perGroup, inodes, i) && InodeAt(inodes, 1 + group * perGroup + i).kind == Directory
  }

  ghost function UsedDirs(group: nat, perGroup: nat, inodes: seq<Inode>, n: nat): set<nat> {
    set i: nat | i < n && PlaceDir(group, perGroup, inodes, i)
  }

  /** One past the last inode in use among the first `n` of a group, 0 if there is none. */
  function LastUsed(group: nat, perGroup: nat, inodes: seq<Inode>, n: nat): nat {
    if n == 0 then 0 else if PlaceUsed(group, perGroup, inodes, n - 1) then n
      else LastUsed(group, perGroup, inodes, n - 1)
  }

  lemma {:induction false} LastUsedIs(group: nat, perGroup: nat, inodes: seq<Inode>, n: nat)
    ensures var last := LastUsed(group, perGroup, inodes, n);
            && last <= n && (last > 0 ==> last - 1 in UsedInodes(group, perGroup, inodes, n))
            && forall i :: i in UsedInodes(group, perGroup, inodes, n) ==> i < last
  {
    hide PlaceUsed;
    if n > 0 {
      LastUsedIs(group, perGroup, inodes, n - 1);
      forall i | i in UsedInodes(group, perGroup, inodes, n) ensures i < LastUsed(group, perGroup, inodes, n) {
        if i != n - 1 { assert i in UsedInodes(group, perGroup, inodes, n - 1); }
      }
    }
  }

  lemma NextInode(group: nat, perGroup: nat, inodes: seq<Inode>, i: nat)
    ensures UsedInodes(group, perGroup, inodes, i + 1) == UsedInodes(group, perGroup, inodes, i)
            + (if PlaceUsed(group, perGroup, inodes, i) then {i} else {})
    ensures UsedDirs(group, perGroup, inodes, i + 1) == UsedDirs(group, perGroup, inodes, i)
            + (if PlaceDir(group, perGroup, inodes, i) then {i} else {})
    ensures LastUsed(group, perGroup, inodes, i + 1) == if PlaceUsed(group, perGroup, inodes, i) then i + 1
            else LastUsed(group, perGroup, inodes, i)
  {
    hide PlaceUsed, PlaceDir;
  }

  lemma {:induction false} NoInodes(group: nat, perGroup: nat, inodes: seq<Inode>)
    ensures UsedInodes(group, perGroup, inodes, 0) == {} && UsedDirs(group, perGroup, inodes, 0) == {}
    ensures LastUsed(group, perGroup, inodes, 0) == 0
  {
  }

  /** The bits of a group's inode bitmap: its inodes in use, and all bits past its last inode. */
  ghost function InodeBits(group: nat, perGroup: nat, inodes: seq<Inode>): set<nat> {
    set i: nat | i < GROUP && (i >= perGroup || PlaceUsed(group, perGroup, inodes, i))
  }

  method InodeBitmap(group: nat, perGroup: nat, inodes: seq<Inode>)
      returns (bits: seq<bv8>, used: nat, last: nat, dirs: nat)
    requires perGroup % 8 == 0 && perGroup <= GROUP
    ensures |bits| == 4096 && Shows(bits, GROUP, InodeBits(group, perGroup, inodes))
    ensures used == |UsedInodes(group, perGroup, inodes, perGroup)|
    ensures dirs == |UsedDirs(group, perGroup, inodes, perGroup)|
    ensures last == LastUsed(group, perGroup, inodes, perGroup)
  {
    hide Bit, Shows, PlaceUsed, BitOf, SetIn, PlaceDir, LastUsed, UsedInodes, UsedDirs;
    var a := Blank(4096, 0);
    Uniforms(a[..], false);
    used, last, dirs := 0, 0, 0;
    NoInodes(group, perGroup, inodes);
    for i := 0 to perGroup
      invariant Shows(a[..], GROUP, UsedInodes(group, perGroup, inodes, i))
      invariant used == |UsedInodes(group, perGroup, inodes, i)|
      invariant last == LastUsed(group, perGroup, inodes, i) && dirs == |UsedDirs(group, perGroup, inodes, i)|
    {
      NextInode(group, perGroup, inodes, i);
      Absent(group, perGroup, inodes, i);
      if PlaceUsed(group, perGroup, inodes, i) {
        SetShows(a[..], GROUP, UsedInodes(group, perGroup, inodes, i), i);
        var was := SetBit(a, i);
        used, last := used + 1, i + 1;
        if InodeAt(inodes, 1 + group * perGroup + i).kind == Directory { dirs := dirs + 1; }
      }
      DirMeans(group, perGroup, inodes, i);
    }
    ghost var before := a[..];
    for k := perGroup / 8 to 4096
      invariant forall x :: 0 <= x < 4096 ==> a[x] == if perGroup / 8 <= x < k then 0xFF else before[x]
    {
      a[k] := 0xFF;
    }
    bits := a[..];
    PaddedBits(before, bits, perGroup, UsedInodes(group, perGroup, inodes, perGroup),
               InodeBits(group, perGroup, inodes)) by {
      PaddedMarks(group, perGroup, inodes);
    }
  }

  lemma DirMeans(group: nat, perGroup: nat, inodes: seq<Inode>, i: nat)
    ensures PlaceDir(group, perGroup, inodes, i)
            <==> PlaceUsed(group, perGroup, inodes, i) && InodeAt(inodes, 1 + group * perGroup + i).kind == Directory
  {
  }

  lemma Absent(group: nat, perGroup: nat, inodes: seq<Inode>, i: nat)
    ensures i !in UsedInodes(group, perGroup, inodes, i) && i !in UsedDirs(group, perGroup, inodes, i)
  {
  }

  lemma PaddedMarks(group: nat, perGroup: nat, inodes: seq<Inode>)
    requires perGroup <= GROUP
    ensures forall i: nat :: i in UsedInodes(group, perGroup, inodes, perGroup) ==> i < perGroup
    ensures forall i: nat ::
              i in InodeBits(group, perGroup, inodes) <==>
              i < GROUP && (i in UsedInodes(group, perGroup, inodes, perGroup) || i >= perGroup)
  {
    hide PlaceUsed;
  }

  lemma PaddedBits(before: seq<bv8>, bits: seq<bv8>, perGroup: nat, marks: set<nat>, all: set<nat>)
    requires |before| == |bits| == 4096 && perGroup % 8 == 0 && perGroup <= GROUP && Shows(before, GROUP, marks)
    requires forall x :: 0 <= x < 4096 ==> bits[x] == if perGroup / 8 <= x then 0xFF else before[x]
    requires forall i: nat :: i in marks ==> i < perGroup
    requires forall i: nat :: i in all <==> i < GROUP && (i in marks || i >= perGroup)
    ensures Shows(bits, GROUP, all)
  {
    hide BitOf;
    forall i: nat | i < GROUP ensures Bit(bits, i) <==> i in all {
      Uniform(i % 8);
      assert Bit(before, i) <==> i in marks;
    }
  }

  /** The inode bitmap of a group without inodes in use: all bits set, those of its inodes cleared again. */
  method EmptyInodeBits(perGroup: nat) returns (bits: seq<bv8>)
    requires perGroup <= GROUP
    ensures |bits| == 4096 && Shows(bits, GROUP, NumbersBelow(GROUP) - NumbersBelow(perGroup))
  {
    hide Bit, Shows, ClearIn, NumbersBelow;
    var a := Blank(4096, 0xFF);
    Uniforms(a[..], true);
    assert NumbersBelow(GROUP) - NumbersBelow(0) == NumbersBelow(GROUP);
    for i := 0 to perGroup
      invariant Shows(a[..], GROUP, NumbersBelow(GROUP) - NumbersBelow(i))
    {
      assert NumbersBelow(GROUP) - NumbersBelow(i + 1) == NumbersBelow(GROUP) - NumbersBelow(i) - {i};
      ClearShows(a[..], GROUP, NumbersBelow(GROUP) - NumbersBelow(i), i);
      var was := ClearBit(a, i);
    }
    bits := a[..];
  }
}
