/** The resize inode: the descriptor blocks set aside for growth and their copies in the backup groups. */
module Metadata {
  import opened Geometry

  // ----- The resize inode -----

  const RESIZE_SLOTS: nat := ADDRESSES_PER_BLOCK

  /** The groups after the first that carry a superblock copy. */
  function BackupGroups(groups: nat): (r: seq<nat>)
    ensures forall i :: 0 <= i < |r| ==> 0 < r[i] < groups && HasSparse(r[i])
    ensures forall i, j :: 0 <= i < j < |r| ==> r[i] < r[j]
    ensures forall g :: 0 < g < groups && HasSparse(g) ==> g in r
  {
    if groups <= 1 then []
    else if HasSparse(groups - 1) then BackupGroups(groups - 1) + [groups - 1]
    else BackupGroups(groups - 1)
  }

  /** Entry `idx` of the block that lists the copies of reserved descriptor block `off`. */
  function BackupSlot(d: nat, off: nat, group: nat): nat { 1 + d + off + group * GROUP }

  /** The copies of reserved descriptor block `off`, in as many slots as a block has. */
  function CopyList(d: nat, off: nat, backups: seq<nat>): (list: seq<nat>)
    ensures |list| == RESIZE_SLOTS
  {
    seq(RESIZE_SLOTS, i requires 0 <= i => if i < |backups| then BackupSlot(d, off, backups[i]) else 0)
  }

  method ListCopies(d: nat, off: nat, backups: seq<nat>) returns (list: seq<nat>)
    requires |backups| <= RESIZE_SLOTS
    ensures list == CopyList(d, off, backups)
  {
    list := seq(RESIZE_SLOTS, _ => 0);
    for i := 0 to |backups|
      invariant |list| == RESIZE_SLOTS
      invariant forall x :: 0 <= x < RESIZE_SLOTS ==> list[x] == if x < i then BackupSlot(d, off, backups[x]) else 0
    {
      list := list[i := BackupSlot(d, off, backups[i])];
    }
  }

  /** The slots of the double-indirect block: the reserved descriptor blocks, at the places where the
      descriptors they stand for would be. */
  function Indirect(d: nat): (list: seq<nat>)
    ensures |list| == RESIZE_SLOTS
  {
    seq(RESIZE_SLOTS, x requires 0 <= x => if d <= x < AreaFor(d) then 1 + x else 0)
  }

  /** Fill the double-indirect block and, for each reserved descriptor block, the list of its copies. */
  method ResizeBlocks(d: nat, backups: seq<nat>) returns (dind: seq<nat>, lists: seq<seq<nat>>)
    requires AreaFor(d) <= RESIZE_SLOTS && |backups| <= RESIZE_SLOTS
    ensures dind == Indirect(d) && |lists| == ReservedGdt(d)
    ensures forall off :: 0 <= off < |lists| ==> lists[off] == CopyList(d, off, backups)
  {
    dind := seq(RESIZE_SLOTS, _ => 0);
    lists := [];
    for off := 0 to ReservedGdt(d)
      invariant |dind| == RESIZE_SLOTS && |lists| == off
      invariant forall x :: 0 <= x < RESIZE_SLOTS ==> dind[x] == if d <= x < d + off then 1 + x else 0
      invariant forall o :: 0 <= o < off ==> lists[o] == CopyList(d, o, backups)
    {
      dind := dind[d + off := 1 + d + off];
      var list := ListCopies(d, off, backups);
      lists := lists + [list];
    }
  }

  /** An image of up to 2^32 blocks: every slot that is needed exists. */
  lemma {:induction false} SlotsFit(d: nat, groups: nat)
    requires 1 <= d <= 1024 && groups <= 0x2_0000
    ensures d + ReservedGdt(d) <= RESIZE_SLOTS && |BackupGroups(groups)| <= 25
  {
    var r := BackupGroups(groups);
    forall x | x in r ensures x in SparseFrom(0) { SparseHere(x); }
    AtMost25Sparse(0);
    DistinctSize(r);
    SubsetSize(Elements(r), SparseFrom(0));
  }

  lemma SparseHere(g: nat)
    requires g < 0x2_0000 && HasSparse(g)
    ensures g in SparseFrom(0)
  {
  }

  /** All blocks that the resize inode reaches are different, and all lie in reserved areas. */
  lemma {:induction false} ResizeDistinct(d: nat, groups: nat, off: nat, other: nat, g: nat, h: nat)
    requires 1 <= d && d + ReservedGdt(d) <= RESIZE_SLOTS && off < ReservedGdt(d) && other < ReservedGdt(d)
    requires g == 0 || g in BackupGroups(groups)
    ensures BackupSlot(d, off, g) == BackupSlot(d, other, h) <==> off == other && g == h
    ensures Reserved(BackupSlot(d, off, g), AreaFor(d))
  {
    SlotParts(d, off, g);
    SlotParts(d, other, h);
    assert HasSparse(0);
  }

  lemma SlotParts(d: nat, off: nat, g: nat)
    requires 1 + d + off < GROUP
    ensures BackupSlot(d, off, g) / GROUP == g && BackupSlot(d, off, g) % GROUP == 1 + d + off
  {
  }

  /** The copies of reserved descriptor block `off` in the listed groups. */
  ghost function Copies(d: nat, off: nat, list: seq<nat>): set<nat> {
    set i: nat | i < |list| :: BackupSlot(d, off, list[i])
  }

  /** All that the first `n` reserved descriptor blocks lead to, and they themselves. */
  ghost function Reached(d: nat, n: nat, list: seq<nat>): set<nat> {
    set off: nat, i: nat | off < n && i < |list| :: BackupSlot(d, off, list[i])
  }

  ghost predicate Increasing(list: seq<nat>) { forall i, j :: 0 <= i < j < |list| ==> list[i] < list[j] }

  lemma {:induction false} CopiesCount(d: nat, off: nat, list: seq<nat>)
    requires Increasing(list) && 1 + d + off < GROUP
    ensures |Copies(d, off, list)| == |list|
  {
    if list == [] {
      assert Copies(d, off, list) == {};
    } else {
      var n := |list| - 1;
      var head, last := Copies(d, off, list[..n]), BackupSlot(d, off, list[n]);
      CopiesCount(d, off, list[..n]);
      forall i: nat | i < n ensures BackupSlot(d, off, list[i]) != last {
        SlotParts(d, off, list[i]);
        SlotParts(d, off, list[n]);
      }
      forall b | b in Copies(d, off, list) ensures b in head + {last} {
        var i: nat :| i < |list| && b == BackupSlot(d, off, list[i]);
        if i < n { assert b == BackupSlot(d, off, list[..n][i]); }
      }
      assert Copies(d, off, list) == head + {last};
    }
  }

  lemma RowsApart(d: nat, n: nat, list: seq<nat>)
    requires d + n < GROUP && n > 0
    ensures Reached(d, n - 1, list) !! Copies(d, n - 1, list)
  {
    var before, row := Reached(d, n - 1, list), Copies(d, n - 1, list);
    forall b | b in before ensures b !in row {
      var off: nat, i: nat :| off < n - 1 && i < |list| && b == BackupSlot(d, off, list[i]);
      SlotParts(d, off, list[i]);
      forall j: nat | j < |list| ensures BackupSlot(d, n - 1, list[j]) != b { SlotParts(d, n - 1, list[j]); }
    }
  }

  lemma OneMoreRow(d: nat, n: nat, list: seq<nat>)
    requires n > 0
    ensures Reached(d, n, list) == Reached(d, n - 1, list) + Copies(d, n - 1, list)
  {
    hide BackupSlot;
    forall b | b in Reached(d, n, list) ensures b in Reached(d, n - 1, list) + Copies(d, n - 1, list) {
      var off: nat, i: nat :| off < n && i < |list| && b == BackupSlot(d, off, list[i]);
      if off < n - 1 { assert b in Reached(d, n - 1, list); } else { assert b in Copies(d, n - 1, list); }
    }
  }

  lemma {:induction false} ReachedCount(d: nat, n: nat, list: seq<nat>)
    requires Increasing(list) && d + n < GROUP
    ensures |Reached(d, n, list)| == n * |list|
  {
    hide BackupSlot, Copies;
    if n == 0 {
      assert Reached(d, 0, list) == {};
    } else {
      ReachedCount(d, n - 1, list);
      CopiesCount(d, n - 1, list);
      RowsApart(d, n, list);
      OneMoreRow(d, n, list);
      assert n * |list| == (n - 1) * |list| + |list|;
    }
  }

  /** The block count that the resize inode records. */
  function OwnedBlocks(reserved: nat, backups: nat): nat { 1 + reserved * (1 + backups) }

  /** ... is its double-indirect block and as many different blocks as it reaches. */
  lemma {:induction false} ResizeCount(d: nat, groups: nat)
    requires d + ReservedGdt(d) <= RESIZE_SLOTS
    ensures OwnedBlocks(ReservedGdt(d), |BackupGroups(groups)|) == 1
            + |Reached(d, ReservedGdt(d), [0] + BackupGroups(groups))|
  {
    ReachedCount(d, ReservedGdt(d), [0] + BackupGroups(groups));
  }
}
