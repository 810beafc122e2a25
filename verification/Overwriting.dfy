/** Two images with one file each that closing spoils: in one the reserved area has grown over the file, in the other
    a superblock copy falls on the inode table. */
module Overwriting {
  import opened Bytes
  import opened Geometry
  import opened Payload
  import opened Placement
  import opened Extents
  import opened Contents
  import opened FileTree
  import opened Fs
  import opened Namespace
  import opened Ownership
  import opened Pruning
  import opened Creating
  import opened Keeping
  import opened Running
  import opened Directories
  import opened Committing
  import opened Visiting
  import opened Records
  import opened Closing
  import opened Metadata
  import opened Sealing
  import opened Walking
  import opened Imaging
  import opened Reaching

  // ----- Exactly when -----

  lemma {:induction false} NothingWithin(ranges: seq<Range>, lo: nat, hi: nat)
    requires Within(ranges, lo, hi) && hi <= lo
    ensures Total(ranges) == 0
  {
    if ranges != [] { NothingWithin(ranges[..|ranges| - 1], lo, hi); }
  }

  lemma Somewhere(d: Disk, field: seq<byte>, bytes: seq<byte>, lo: nat, hi: nat)
    requires HoldsFile(d, field, bytes) && Placed(d, field, lo, hi) && bytes != []
    ensures lo < hi
  {
    hide ParseExtents, Flat, PointsAt;
    FlatLength(d, ParseExtents(d, field).ranges);
    if hi <= lo { NothingWithin(ParseExtents(d, field).ranges, lo, hi); }
  }

  /** The root directory at least is written. */
  lemma {:induction false} CommitMoves(s: St, order: seq<nat>, area: nat)
    requires Good(s, area) && VisitsAll(s.nodes, order) && Listable(s.nodes)
    requires CommitAll(s, order).error == None && Fits(CommitAll(s, order).state.store)
    ensures Top(s.store) < Top(CommitAll(s, order).state.store)
  {
    hide Owned, Kept, FileCounts, DirCounts, RemovedDirs, KindsSane, CommitAll, Listable, Attached, LinksAgree, Past,
         OtherInodes, Area, DirHeld, SameTree, DirImage;
    var r := CommitAll(s, order).state;
    InvWellFormed(s);
    CommitPast(s, order);
    KeptArea(s, area, r.store);
    CommitAllHolds(s, order, area);
    RootAttached(s.nodes);
    var x :| 0 <= x < |order| && order[x] == ROOT;
    RootIsDir(s);
    TreeFacts(s, ROOT);
    RootWritten(s, r, area);
  }

  lemma RootWritten(s: St, r: St, area: nat)
    requires |s.nodes| > 0 && Listable(s.nodes) && DirHeld(s, r, ROOT, area) && IsCommitted(s.nodes, s.inodes, ROOT)
    ensures Top(s.store) < Top(r.store)
  {
    hide Listable, HoldsFile, Placed, SturdyIff, DirBytes, DirList;
    var ino, bytes := InodeAt(r.inodes, s.nodes[ROOT].inode), DirImage(s.nodes, s.inodes, ROOT);
    DirStorable(s.nodes, s.inodes, ROOT);
    DirectoryRoundTrip(DirList(s.nodes, s.inodes, ROOT));
    ItselfHolds(r.store.disk, ino.field, bytes, Top(r.store));
    Somewhere(r.store.disk, ino.field, bytes, Top(s.store), Top(r.store));
  }

  /** After any run, closing writes into no block that was free for content if and only if the reserved area has not
      grown since the image was made. */
  lemma {:induction false} RunClosingIff(size: positive, ops: seq<Op>, order: seq<nat>, fill: Fill)
    requires AllAllowed(Fresh(size), ops)
    requires var s := Run(Fresh(size), ops);
             VisitsAll(s.nodes, order) && Listable(s.nodes) && CommitAll(s, order).error == None
               && Closable(CommitAll(s, order).state)
    ensures var r := CommitAll(Run(Fresh(size), ops), order).state;
            && Prepared(r).ranges != []
            && ((forall b: nat :: b < Top(r.store) && Touches(Writes(SealPlan(r, fill)), b) ==> Reserved(b, Area(size)))
                <==> AreaFor(SealLayout(r).descriptors) <= Area(size))
  {
    hide Run, Fresh, AllAllowed, Good, CommitAll, Listable, LinksAgree, Attached, Closable, Prepared, SealLayout,
         SealPlan, Writes, Touches, Area, AreaFor, Reserved, Past, Lookup, Plain;
    var s := Run(Fresh(size), ops);
    var r := CommitAll(s, order).state;
    FreshRoot(size);
    RunGood(Fresh(size), ops, Area(size));
    FreshStore(size);
    PastTop(Fresh(size).store, s.store);
    ClosableFits(r);
    CommitMoves(s, order, Area(size));
    ClosingIsSafeIff(r, fill, Area(size));
  }
  // ----- Directories of one block -----

  lemma {:induction false} FewFit(current: seq<Entry>, entries: seq<Entry>)
    requires AllStorable(entries) && SizeOf(current) + 264 * |entries| + 12 <= BLOCK
    ensures |Pack(current, entries)| == 1
    decreases |entries|
  {
    hide SizeOf, RecordSize;
    if entries != [] {
      assert Directories.Storable(entries[0]);
      RecordSizes(|entries[0].name|);
      SizeOfSnoc(current, entries[0]);
      FewFit(current + [entries[0]], entries[1..]);
    }
  }

  lemma {:induction false} KidsAtMost(nodes: Nodes, inodes: seq<Inode>, list: seq<nat>)
    ensures |KidEntries(nodes, inodes, list)| <= |list|
  {
    if list != [] { KidsAtMost(nodes, inodes, list[..|list| - 1]); }
  }

  lemma {:induction false} SortedCount(nodes: Nodes, kids: seq<nat>)
    ensures |SortKids(nodes, kids)| == |kids|
  {
    var r := SortKids(nodes, kids);
    assert |multiset(r)| == |r| && |multiset(kids)| == |kids|;
  }

  /** A directory of a few entries takes one block. */
  lemma SmallDirectory(nodes: Nodes, inodes: seq<Inode>, i: nat)
    requires Listable(nodes) && i < |nodes| && |nodes[i].children| <= 12
    ensures |DirImage(nodes, inodes, i)| == BLOCK
  {
    hide Listable, KidEntries, SortKids, Pack, AllBytes, ParseBlocks;
    DirStorable(nodes, inodes, i);
    SortedCount(nodes, nodes[i].children);
    KidsAtMost(nodes, inodes, SortKids(nodes, nodes[i].children));
    var list := DirList(nodes, inodes, i);
    NoRecords();
    FewFit([], list);
    DirectoryRoundTrip(list);
  }

  // ----- Single blocks behind one another -----

  /** The next block to be written is block `b`. */
  predicate Lands(st: Store, b: nat) { st.off == 0 && SkipReserved(st).block == b }

  predicate Free(b: nat, size: positive) { !Reserved(b, Area(size)) }

  lemma FreeLands(st: Store)
    requires st.off == 0 && Free(st.block, st.size)
    ensures Lands(st, st.block) && SkipReserved(st) == st && Align(st) == st
  {
    hide Area, Reserved;
  }

  lemma BeyondFree(b: nat, size: positive)
    requires Beyond(b)
    ensures Free(b, size)
  {
    hide Area, HasSparse;
  }

  /** One block goes right there. */
  lemma {:induction false} OneBlockThere(st: Store, x: nat, bytes: seq<byte>)
    requires Lands(st, x) && |bytes| == BLOCK
    ensures var w := WriteAligned(st, bytes);
            && w.ranges == [Range(x, x + 1)] && (forall b :: b != x ==> BlockAt(w.store.disk, b) == BlockAt(st.disk, b))
            && w.store.off == 0 && w.store.block == x + 1 && w.store.size == Max(st.size, (x + 1) * BLOCK)
  {
    hide SkipReserved;
    SkipForward(st);
    SkipTwice(st);
    var t := SkipReserved(st);
    WriteOne(t, bytes, []);
    assert Align(PutPiece(t, bytes)) == PutPiece(t, bytes);
  }

  /** With up to four leaves the tree is in the inode. */
  lemma {:induction false} InlineTree(w: Written, size: nat)
    requires w.store.off == 0 && Free(w.store.block, w.store.size) && 0 < |Leaves(w.ranges)| <= 4
    ensures Finish(w, size).Stowed? && Finish(w, size).store == w.store
  {
    hide Leaves, Extents.Node, SkipReserved, Free;
    FreeLands(w.store);
  }

  lemma {:induction false} OneLeaf(a: nat, b: nat)
    requires a < b <= a + MAX_BLOCKS_PER_EXTENT
    ensures |Leaves([Range(a, b)])| == 1 && Total([Range(a, b)]) == b - a
  {
    var r := [Range(a, b)];
    assert r[..0] == [] && Leaves([]) == [] && Total([]) == 0;
    assert FillRange(b, b, b - a) == [];
    assert FillRange(a, b, 0) == [Leaf(0, b - a, a)] + FillRange(b, b, b - a);
  }

  /** A small directory takes one block, and nothing else changes. */
  lemma OneBlockDirectory(s: St, i: nat, x: nat)
    requires i < |s.nodes| && Listable(s.nodes) && |s.nodes[i].children| <= 12 && IsCommitted(s.nodes, s.inodes, i)
    requires Lands(s.store, x) && Free(x + 1, Max(s.store.size, (x + 1) * BLOCK))
    ensures var r := CommitDir(s, i);
            && r.error == None && r.state.store.off == 0 && r.state.store.block == x + 1
            && r.state.store.size == Max(s.store.size, (x + 1) * BLOCK)
            && forall b :: b != x ==> BlockAt(r.state.store.disk, b) == BlockAt(s.store.disk, b)
  {
    hide Listable, DirImage, Finish, WriteAligned, Leaves, Lands, Free, BlockAt;
    SmallDirectory(s.nodes, s.inodes, i);
    var bytes := DirImage(s.nodes, s.inodes, i);
    OneBlockThere(s.store, x, bytes);
    OneLeaf(x, x + 1);
    InlineTree(WriteAligned(s.store, bytes), |bytes|);
  }

  // ----- An image with one file -----

  /** The tree of such an image: the root, lost+found and the file. */
  ghost predicate OneFileTree(t: St) {
    && |t.nodes| == 3 && |t.inodes| == 12 && t.deleted == []
    && t.nodes[0].children == [1, 2] && t.nodes[1].children == [] && t.nodes[2].children == []
    && t.nodes[0].inode == 2 && t.nodes[1].inode == 11 && t.nodes[2].inode == 12
    && t.nodes[0].link == None && t.nodes[1].link == None && t.nodes[2].link == None
    && Parent(t.nodes, 1) == 0 && Parent(t.nodes, 2) == 0
    && InodeAt(t.inodes, 2).kind == Directory && InodeAt(t.inodes, 2).links > 0
    && InodeAt(t.inodes, 11).kind == Directory && InodeAt(t.inodes, 11).links > 0 && InodeAt(t.inodes, 11).size == 0
    && IsFile(InodeAt(t.inodes, 12).kind)
  }

  lemma FreshTree(size: positive)
    ensures var s := Fresh(size);
            && |s.nodes| == 2 && |s.inodes| == 11 && s.deleted == []
            && s.nodes[0].children == [1] && s.nodes[1].children == [] && s.nodes[0].inode == 2
            && s.nodes[1].inode == 11
            && s.nodes[0].link == None && s.nodes[1].link == None && s.nodes[1].parent == Some(0)
            && InodeAt(s.inodes, 2).kind == Directory && InodeAt(s.inodes, 2).links > 0
            && InodeAt(s.inodes, 11).kind == Directory && InodeAt(s.inodes, 11).links > 0
            && InodeAt(s.inodes, 11).size == 0
  {
    hide Area, Good;
    var b := Blank(size);
    assert Lookup(b.nodes, [LOST_AND_FOUND]) == None;
    RootEntry(b, LOST_AND_FOUND, MakeDir);
  }

  /** One file in a new image. */
  function FileOp(content: seq<byte>): Op { DoCreate([A], MakeFile(Some([content])), NoXattrs) }

  lemma OneFile(size: positive, content: seq<byte>)
    requires |content| <= MAX_FILE_SIZE && Finish(WriteAligned(Fresh(size).store, content), |content|).Stowed?
    ensures var t, f := Run(Fresh(size), [FileOp(content)]),
            Finish(WriteAligned(Fresh(size).store, content), |content|);
            && AllAllowed(Fresh(size), [FileOp(content)]) && Step(Fresh(size), FileOp(content)).error == None
            && OneFileTree(t) && t.store == f.store
            && InodeAt(t.inodes, 12) == Inode(Regular, 1, |content|, f.field, 0, Zeros(96)) && Good(t, Area(size))
            && t.nodes[2].ranges == f.ranges
  {
    hide Fresh, Good, Create, Insert, Area, Lookup, Plain, Sound, WriteAligned, Finish, AllAllowed, Run;
    var s, op := Fresh(size), FileOp(content);
    FreshRoot(size);
    FreshTree(size);
    RootFile(s, A, content);
    OneOp(s, op);
    StepGood(s, op, Area(size));
  }

  lemma {:induction false} AllVisited(t: St)
    requires OneFileTree(t) && LinksAgree(t.nodes)
    ensures VisitsAll(t.nodes, [0, 1, 2])
  {
    hide LinksAgree;
    Reached(t, 1);
    Reached(t, 2);
    RootAttached(t.nodes);
  }

  lemma {:induction false} Reached(t: St, i: nat)
    requires OneFileTree(t) && LinksAgree(t.nodes) && 1 <= i <= 2
    ensures Attached(t.nodes, i)
  {
    assert t.nodes[0].children[i - 1] == i;
    RootAttached(t.nodes);
  }

  lemma {:induction false} CommitNone(s: St)
    requires Listable(s.nodes)
    ensures CommitAll(s, []) == Outcome(s, None)
  {
  }

  lemma {:induction false} CommitSnoc(s: St, order: seq<nat>, i: nat)
    requires Listable(s.nodes) && i < |s.nodes| && forall x :: 0 <= x < |order| ==> order[x] < |s.nodes|
    requires CommitAll(s, order).error == None
    ensures CommitAll(s, order + [i]) == CommitDir(CommitAll(s, order).state, i)
  {
    hide CommitDir, Listable;
    assert (order + [i])[..|order|] == order;
  }

  lemma SameShape(t: St, r: St, i: nat)
    requires SameTree(t, r) && i < |t.nodes|
    ensures |r.nodes| == |t.nodes| && |r.inodes| == |t.inodes| && r.nodes[i].children == t.nodes[i].children
    ensures IsCommitted(r.nodes, r.inodes, i) <==> IsCommitted(t.nodes, t.inodes, i)
  {
    assert InodeAt(r.inodes, t.nodes[i].inode).links == InodeAt(t.inodes, t.nodes[i].inode).links;
  }

  /** Directory `i` is the next one of the image to be written. */
  lemma {:induction false} NextDirectory(t: St, order: seq<nat>, i: nat, x: nat)
    requires Listable(t.nodes) && i < |t.nodes| && (forall x :: 0 <= x < |order| ==> order[x] < |t.nodes|)
    requires IsCommitted(t.nodes, t.inodes, i) && |t.nodes[i].children| <= 12
    requires var q := CommitAll(t, order);
             q.error == None && Lands(q.state.store, x) && Free(x + 1, Max(q.state.store.size, (x + 1) * BLOCK))
    ensures var q, r := CommitAll(t, order).state, CommitAll(t, order + [i]);
            && r.error == None && r.state.store.off == 0 && r.state.store.block == x + 1
            && r.state.store.size == Max(q.store.size, (x + 1) * BLOCK)
            && forall b :: b != x ==> BlockAt(r.state.store.disk, b) == BlockAt(q.store.disk, b)
  {
    hide CommitDir, Listable, CommitAll, SameTree, IsCommitted, Lands, Free, BlockAt;
    CommitAllSame(t, order);
    SameShape(t, CommitAll(t, order).state, i);
    OneBlockDirectory(CommitAll(t, order).state, i, x);
    CommitSnoc(t, order, i);
  }

  /** Root and lost+found take a block each, from block `x` on. */
  lemma {:induction false} OneFileCommitted(t: St, x: nat)
    requires OneFileTree(t) && Listable(t.nodes) && OwnInodes(t.nodes, t.inodes) && Lands(t.store, x)
    requires Free(x + 1, Max(t.store.size, (x + 1) * BLOCK)) && Free(x + 2, Max(t.store.size, (x + 2) * BLOCK))
    ensures var r := CommitAll(t, [0, 1, 2]);
            && r.error == None && r.state.store.off == 0 && r.state.store.block == x + 2
            && r.state.store.size == Max(t.store.size, (x + 2) * BLOCK) && Lands(r.state.store, x + 2)
            && |r.state.inodes| == 12 && InodeAt(r.state.inodes, 12) == InodeAt(t.inodes, 12)
            && forall b :: b != x && b != x + 1 ==> BlockAt(r.state.store.disk, b) == BlockAt(t.store.disk, b)
  {
    hide CommitDir, Listable, CommitAll, Lands, Free, BlockAt, SameTree, OwnInodes, Past, AllHeld;
    TwoDirectories(t, x);
    assert [0, 1] + [2] == [0, 1, 2];
    CommitSnoc(t, [0, 1], 2);
    CommitAllSame(t, [0, 1]);
    SameShape(t, CommitAll(t, [0, 1]).state, 2);
    NotWritten(CommitAll(t, [0, 1]).state, 2);
    CommitAllHolds(t, [0, 1, 2], 0);
    OnlyDirectories(t, CommitAll(t, [0, 1, 2]).state);
  }

  lemma {:induction false} TwoDirectories(t: St, x: nat)
    requires OneFileTree(t) && Listable(t.nodes) && Lands(t.store, x)
    requires Free(x + 1, Max(t.store.size, (x + 1) * BLOCK)) && Free(x + 2, Max(t.store.size, (x + 2) * BLOCK))
    ensures var r := CommitAll(t, [0, 1]);
            && r.error == None && r.state.store.off == 0 && r.state.store.block == x + 2
            && r.state.store.size == Max(t.store.size, (x + 2) * BLOCK) && Lands(r.state.store, x + 2)
            && forall b :: b != x && b != x + 1 ==> BlockAt(r.state.store.disk, b) == BlockAt(t.store.disk, b)
  {
    hide CommitDir, Listable, CommitAll, Lands, Free, BlockAt, SameTree;
    CommitNone(t);
    NextDirectory(t, [], 0, x);
    assert [] + [0] == [0] && [0] + [1] == [0, 1];
    FreeLands(CommitAll(t, [0]).state.store);
    NextDirectory(t, [0], 1, x + 1);
    FreeLands(CommitAll(t, [0, 1]).state.store);
  }

  /** ... in particular behind a block that no area reaches. */
  lemma {:induction false} CommittedBeyond(t: St)
    requires OneFileTree(t) && Listable(t.nodes) && OwnInodes(t.nodes, t.inodes) && t.store.off == 0
    requires Beyond(t.store.block) && Beyond(t.store.block + 1) && Beyond(t.store.block + 2)
    ensures var r, c := CommitAll(t, [0, 1, 2]), t.store.block;
            && r.error == None && r.state.store.off == 0 && r.state.store.block == c + 2
            && r.state.store.size == Max(t.store.size, (c + 2) * BLOCK) && Lands(r.state.store, c + 2)
            && |r.state.inodes| == 12 && InodeAt(r.state.inodes, 12) == InodeAt(t.inodes, 12)
            && forall b :: b != c && b != c + 1 ==> BlockAt(r.state.store.disk, b) == BlockAt(t.store.disk, b)
  {
    hide Listable, CommitAll, Beyond, Lands, Free, BlockAt, OwnInodes, OneFileTree;
    var c := t.store.block;
    BeyondFree(c, t.store.size);
    BeyondFree(c + 1, Max(t.store.size, (c + 1) * BLOCK));
    BeyondFree(c + 2, Max(t.store.size, (c + 2) * BLOCK));
    FreeLands(t.store);
    OneFileCommitted(t, c);
  }

  lemma NotWritten(s: St, i: nat)
    requires i < |s.nodes| && Listable(s.nodes) && !IsCommitted(s.nodes, s.inodes, i)
    ensures CommitDir(s, i) == Outcome(s, None)
  {
  }

  lemma OnlyDirectories(t: St, r: St)
    requires OneFileTree(t) && OtherInodes(t, r, [0, 1, 2])
    ensures InodeAt(r.inodes, 12) == InodeAt(t.inodes, 12)
  {
    var order := [0, 1, 2];
    forall x | 0 <= x < |order| && order[x] < |t.nodes| && IsCommitted(t.nodes, t.inodes, order[x])
      ensures t.nodes[order[x]].inode != 12
    {
      assert order[x] == 0 || order[x] == 1;
    }
  }

  lemma GoodFits(t: St, area: nat)
    requires Good(t, area) && |t.inodes| < 0x1_0000_0000
    ensures Listable(t.nodes) && OwnInodes(t.nodes, t.inodes) && LinksAgree(t.nodes)
  {
    hide Owned, Kept, FileCounts, DirCounts, RemovedDirs, Attached;
    GoodListable(t, area);
  }

  // ----- A superblock copy on the inode table -----

  lemma SmallArea(size: positive)
    requires size <= 128 * GROUP * BLOCK
    ensures Area(size) == 32
  {
    GroupCountExact(size);
  }

  lemma InFirstGroup(st: Store)
    requires st.off == 0 && 32 < st.block < GROUP && st.size <= GROUP * BLOCK
    ensures SkipReserved(st) == st
  {
    SmallArea(st.size);
    InFirst(st.block, 32);
  }

  /** Within the first group, blocks are written one behind the other. */
  lemma {:induction false} Contiguous(st: Store, a: nat, m: nat)
    requires st.off == 0 && 32 < st.block && a <= st.block && m > 0 && st.block + m <= GROUP && st.size <= GROUP * BLOCK
    ensures var w := WriteBytes(st, Zeros(m * BLOCK), if a == st.block then [] else [Range(a, st.block)]);
            && w.ranges == [Range(a, st.block + m)] && w.store.off == 0 && w.store.block == st.block + m
            && w.store.size == Max(st.size, (st.block + m) * BLOCK)
    decreases m
  {
    hide WriteBytes, SkipReserved;
    var ranges := if a == st.block then [] else [Range(a, st.block)];
    InFirstGroup(st);
    RecordOne(a, st.block);
    var t := PutPiece(st, Zeros(BLOCK));
    if m == 1 {
      WriteOne(st, Zeros(BLOCK), ranges);
      assert Zeros(1 * BLOCK) == Zeros(BLOCK);
    } else {
      ZeroParts(m);
      WriteMore(st, Zeros(m * BLOCK), ranges);
      Contiguous(t, a, m - 1);
    }
  }

  lemma RecordOne(a: nat, b: nat)
    requires a <= b
    ensures Record(if a == b then [] else [Range(a, b)], b) == [Range(a, b + 1)]
  {
  }

  /** Twelve inodes never decide how many groups there are. */
  lemma GroupsAre(b: nat, c: nat, data: nat, g: nat)
    requires 12 < c <= MAX_INODES_PER_GROUP && data == DataPerGroup(c) > 0 && b > 0 && g > 0
    requires (g - 1) * data < b <= g * data
    ensures GroupsFor(b, 12, c) == g
  {
    hide TableBlocks;
    assert 11 / c == 0;
    DivUnique(b + data - 1, data, g, b - 1 - (g - 1) * data);
  }

  /** The layout when the data ends with the first group: two groups, and the table starts with the second. */
  lemma LayoutAfterFirst(st: Store)
    requires st.block == GROUP && st.size == GROUP * BLOCK
    ensures LayoutOf(st, 12) == Layout(GROUP, 2, 8192, GROUP + 1028, 2 * GROUP * BLOCK, 2, 1)
  {
    hide GroupsFor;
    GroupsAre(GROUP, 8192, 32254, 2);
    GroupsAre(GROUP, 16384, 31742, 2);
    GroupsAre(GROUP, 24576, 31230, 2);
    GroupsAre(GROUP, 32768, 30718, 2);
    assert DataEnd(GROUP, 2, 8192) == GROUP + 1028;
  }

  const FIRST_GROUP: nat := 32732

  /** A file in the first group of a new image takes the blocks from 33 on. */
  lemma FillFirst(m: nat)
    requires 1000 <= m <= FIRST_GROUP
    ensures var st, content := Fresh(4096).store, Zeros(m * BLOCK);
            var f := Finish(WriteAligned(st, content), |content|);
            f.Stowed? && f.store.off == 0 && f.store.block == 33 + m && f.store.size == (33 + m) * BLOCK
  {
    hide Fresh, Area, WriteBytes, SkipReserved, Leaves, Finish;
    var st, content := Fresh(4096).store, Zeros(m * BLOCK);
    FreshStore(4096);
    SmallArea(4096);
    InFirstGroup(st);
    Contiguous(st, 33, m);
    OneLeaf(33, 33 + m);
    BeyondFree(33 + m, WriteAligned(st, content).store.size);
    InlineTree(WriteAligned(st, content), |content|);
  }

  /** The state with one file of so many zero blocks. */
  function WithZeros(size: positive, blocks: nat): (t: St)
    ensures |t.nodes| > 0
  {
    Run(Fresh(size), [FileOp(Zeros(blocks * BLOCK))])
  }

  /** ... once its directories are written, one block each behind the file. */
  lemma Committed(m: nat) returns (r: St)
    requires 1000 <= m <= FIRST_GROUP
    ensures var t := WithZeros(4096, m);
            && AllAllowed(Fresh(4096), [FileOp(Zeros(m * BLOCK))])
            && Running.Step(Fresh(4096), FileOp(Zeros(m * BLOCK))).error == None
            && Good(t, 32) && OneFileTree(t) && Listable(t.nodes) && VisitsAll(t.nodes, [0, 1, 2])
            && CommitAll(t, [0, 1, 2]) == Outcome(r, None) && InodeAt(t.inodes, 12).size == m * BLOCK
    ensures Prepared(r).store.block == 36 + m && Prepared(r).store.size == (36 + m) * BLOCK && |r.inodes| == 12
    ensures Area(r.store.size) == 32
  {
    hide Fresh, Good, Area, WriteAligned, Finish, AllAllowed, Run, Listable, VisitsAll, LinksAgree, OwnInodes,
         CommitAll, Allowed, Running.Step;
    FillFirst(m);
    SizeLimit(m);
    OneFile(4096, Zeros(m * BLOCK));
    SmallArea(4096);
    var t := WithZeros(4096, m);
    GoodFits(t, 32);
    AllVisited(t);
    CommittedBeyond(t);
    r := CommitAll(t, [0, 1, 2]).state;
    SmallArea(r.store.size);
    OneBlockThere(r.store, r.store.block, Zeros(4096));
  }

  lemma SizeLimit(m: nat)
    requires m <= FIRST_GROUP
    ensures m * BLOCK <= MAX_FILE_SIZE
  {
  }

  /** A new image of 4096 bytes, one file of 32732 blocks, and close: all calls succeed, but the copy of the superblock
      in group 1 is written over the first block of the inode table. The root directory has no inode any more, and no
      path leads anywhere. */
  lemma RootLost(fill: Fill, path: Path) returns (e: Disk)
    requires path != []
    ensures var t := WithZeros(4096, FIRST_GROUP);
            && AllAllowed(Fresh(4096), [FileOp(Zeros(FIRST_GROUP * BLOCK))])
            && Running.Step(Fresh(4096), FileOp(Zeros(FIRST_GROUP * BLOCK))).error == None
            && Listable(t.nodes) && VisitsAll(t.nodes, [0, 1, 2]) && CommitAll(t, [0, 1, 2]).error == None
            && Finished(t, [0, 1, 2], fill).Closed? && Finished(t, [0, 1, 2], fill).disk == e
    ensures ReadInode(e, ROOT_INODE).kind == Unused && Walk(e, ROOT_INODE, path) == None
  {
    hide Fresh, Good, Area, AllAllowed, Run, Listable, VisitsAll, CommitAll, LayoutOf, Allowed, Running.Step, ReadInode,
         Apply, Writes, Prepared, BackupGroups, Fitting, OneFileTree;
    var r := Committed(FIRST_GROUP);
    LayoutAfterFirst(Prepared(r).store);
    assert AreaFor(1) == 32;
    SealFits(r, fill);
    SealFacts(r, fill);
    ClosesAnyway(r, fill);
    var p := SealPlan(r, fill);
    e := Close(r, fill).disk;
    FirstBackup(p);
    InodeLost(Prepared(r).store.disk, p, 1, ROOT_INODE);
  }

  // ----- An image that is closed well -----

  /** Little enough for one group. */
  lemma LayoutSmall(st: Store)
    requires 0 < st.block <= 2036 && st.size == st.block * BLOCK
    ensures LayoutOf(st, 12) == Layout(st.block, 1, 8192, st.block + 514, GROUP * BLOCK, 1, 1)
  {
    hide GroupsFor, DataEnd, LeastSize;
    GroupsSmall(st.block);
    SizeSmall(st.block);
  }

  lemma GroupsSmall(b: nat)
    requires 0 < b <= 2036
    ensures GroupsFor(b, 12, 8192) == GroupsFor(b, 12, 16384) == GroupsFor(b, 12, 24576) == GroupsFor(b, 12, 32768) == 1
  {
    hide GroupsFor;
    GroupsAre(b, 8192, 32254, 1);
    GroupsAre(b, 16384, 31742, 1);
    GroupsAre(b, 24576, 31230, 1);
    GroupsAre(b, 32768, 30718, 1);
  }

  lemma SizeSmall(b: nat)
    requires b <= 2036
    ensures DataEnd(b, 1, 8192) == b + 514 && LeastSize(b * BLOCK, 1, b + 514) == GROUP * BLOCK
  {
  }

  lemma ContentSize(s: St, area: nat, k: nat)
    requires Good(s, area) && Fits(s.store) && FIRST_INODE <= k <= |s.inodes| && InodeAt(s.inodes, k).kind != Unused
    ensures |BornAt(s.born, k).content| == InodeAt(s.inodes, k).size
  {
    hide Sound, KeepsFile, SturdyIff, Placed, Reserved, Area;
    assert Holds(s.store, InodeAt(s.inodes, k), BornAt(s.born, k), area);
  }

  /** An image with one entry, of one group, is closed well. */
  lemma {:induction false} SmallClosesWell(t: St, r: St)
    requires Good(t, 32) && OneFileTree(t) && Listable(t.nodes) && VisitsAll(t.nodes, [0, 1, 2])
    requires CommitAll(t, [0, 1, 2]) == Outcome(r, None) && |r.inodes| == 12 && Area(r.store.size) == 32
    requires var st := Prepared(r).store; 0 < st.block <= 2036 && st.size == st.block * BLOCK
    requires InodeAt(t.inodes, 12).size <= SMALL
    ensures ClosesWell(t, [0, 1, 2], 32)
  {
    hide Good, Area, Listable, LinksAgree, Attached, CommitAll, LayoutOf, Prepared, DirImage, AllFree, InodeAt,
         IsCommitted;
    LayoutSmall(Prepared(r).store);
    ClosableFits(r);
    FileInodes(t);
    forall k {:trigger BornAt(t.born, k)} | FIRST_INODE <= k <= |t.inodes|
      ensures |BornAt(t.born, k).content| <= SMALL
    {
      StoreFits(t, [0, 1, 2]);
      ContentSize(t, 32, k);
    }
    forall i | 0 <= i < |t.nodes| && Attached(t.nodes, i) && IsCommitted(t.nodes, t.inodes, i)
      ensures |DirImage(t.nodes, t.inodes, i)| <= SMALL
    {
      SmallDirectory(t.nodes, t.inodes, i);
    }
    SmallAllFree(t, [0, 1, 2], 32);
  }

  /** What the theorems on finished images ask for can be had: with one file of 2000 blocks, for example. */
  lemma ClosesWellHappens()
    ensures var t := WithZeros(4096, 2000);
            && AllAllowed(Fresh(4096), [FileOp(Zeros(2000 * BLOCK))])
            && Listable(t.nodes) && VisitsAll(t.nodes, [0, 1, 2]) && ClosesWell(t, [0, 1, 2], Area(4096))
  {
    hide Fresh, Good, Area, AllAllowed, Run, Listable, VisitsAll, CommitAll, Prepared, ClosesWell, OneFileTree, InodeAt;
    var r := Committed(2000);
    SmallArea(4096);
    SmallClosesWell(WithZeros(4096, 2000), r);
  }

  lemma {:induction false} StoreFits(t: St, order: seq<nat>)
    requires Good(t, 32) && Listable(t.nodes) && VisitsAll(t.nodes, order) && Fits(CommitAll(t, order).state.store)
    ensures Fits(t.store)
  {
    hide Owned, Kept, CommitAll, Listable, Attached, LinksAgree, Inv, Past;
    CommitPast(t, order);
    PastFits(t.store, CommitAll(t, order).state.store);
  }

  lemma FileInodes(t: St)
    requires OneFileTree(t)
    ensures |t.inodes| == 12 && InodeAt(t.inodes, 11).kind != Unused && InodeAt(t.inodes, 12).kind != Unused
  {
  }

  // ----- A reserved area that has grown over the file -----

  lemma {:induction false} KeepsFirst(st: Store, bytes: seq<byte>, ranges: seq<Range>)
    requires ranges != []
    ensures var w := WriteBytes(st, bytes, ranges); w.ranges != [] && w.ranges[0].start == ranges[0].start
    decreases |bytes|
  {
    hide SkipReserved, PutPiece;
    if bytes == [] {
      WriteNothing(st, ranges);
    } else {
      WriteUnfold(st, bytes, ranges);
      var s := SkipReserved(st);
      var n := Min(BLOCK - s.off, |bytes|);
      KeepsFirst(PutPiece(s, bytes[..n]), bytes[n..], Payload.Record(ranges, s.block));
    }
  }

  /** A file starts where the cursor is. */
  lemma {:induction false} StartsThere(st: Store, content: seq<byte>)
    requires st.off == 0 && SkipReserved(st) == st && content != []
    ensures var w := WriteAligned(st, content); w.ranges != [] && w.ranges[0].start == st.block
  {
    hide SkipReserved, PutPiece, WriteBytes;
    WriteUnfold(st, content, []);
    var n := Min(BLOCK - st.off, |content|);
    RecordOne(st.block, st.block);
    KeepsFirst(PutPiece(st, content[..n]), content[n..], [Range(st.block, st.block + 1)]);
  }

  lemma {:induction false} RangeHead(d: Disk, start: nat, end: nat)
    requires start < end
    ensures |FlatRange(d, start, end)| >= BLOCK && FlatRange(d, start, end)[..BLOCK] == BlockAt(d, start)
    decreases end
  {
    hide BlockAt;
    if start + 1 == end {
      FlatOne(d, start);
    } else {
      RangeHead(d, start, end - 1);
      assert (FlatRange(d, start, end - 1) + BlockAt(d, end - 1))[..BLOCK] == FlatRange(d, start, end - 1)[..BLOCK];
    }
  }

  /** The file begins with its first block. */
  lemma {:induction false} FlatHead(d: Disk, ranges: seq<Range>)
    requires ranges != [] && ranges[0].start < ranges[0].end
    ensures |Flat(d, ranges)| >= BLOCK && Flat(d, ranges)[..BLOCK] == BlockAt(d, ranges[0].start)
  {
    hide BlockAt, FlatRange;
    var n := |ranges| - 1;
    if n == 0 {
      assert ranges[..0] == [] && Flat(d, []) == [];
      RangeHead(d, ranges[0].start, ranges[0].end);
      assert [] + FlatRange(d, ranges[0].start, ranges[0].end) == FlatRange(d, ranges[0].start, ranges[0].end);
    } else {
      FlatHead(d, ranges[..n]);
    }
  }

  /** How far the extent tree takes the cursor. */
  lemma {:induction false} TreeEnd(w: Written, size: nat)
    requires w.store.off == 0 && Beyond(w.store.block) && Finish(w, size).Stowed?
    ensures var f := Finish(w, size);
            f.store.off == 0 && w.store.block <= f.store.block <= w.store.block + 4 && f.store.size == w.store.size
  {
    hide Leaves, Total, Extents.Node, PutLeafBlocks, IndexNode, SkipReserved, Beyond, Free;
    BeyondFree(w.store.block, w.store.size);
    FreeLands(w.store);
  }

  const FAR: nat := 130 * 32768 + 2000

  lemma Around(b: nat)
    requires FAR <= b <= FAR + 12
    ensures Beyond(b)
  {
    assert b == 130 * GROUP + (b - 130 * GROUP);
  }

  /** The layout when the data ends there: 133 groups and two descriptor blocks. */
  lemma LayoutFar(st: Store)
    requires FAR + 4 <= st.block <= FAR + 8 && st.size == st.block * BLOCK
    ensures LayoutOf(st, 12) == Layout(st.block, 133, 8192, st.block + 68362, 133 * GROUP * BLOCK, 133, 2)
  {
    hide GroupsFor, DataEnd, LeastSize;
    GroupsFar(st.block);
    SizeFar(st.block);
  }

  lemma GroupsFar(b: nat)
    requires FAR + 4 <= b <= FAR + 8
    ensures GroupsFor(b, 12, 8192) == 133 && GroupsFor(b, 12, 16384) == 135 && GroupsFor(b, 12, 24576) == 137
    ensures GroupsFor(b, 12, 32768) == 139
  {
    hide GroupsFor;
    GroupsAre(b, 8192, 32254, 133);
    GroupsAre(b, 16384, 31742, 135);
    GroupsAre(b, 24576, 31230, 137);
    GroupsAre(b, 32768, 30718, 139);
  }

  lemma SizeFar(b: nat)
    requires FAR + 4 <= b <= FAR + 8
    ensures DataEnd(b, 133, 8192) == b + 68362 && LeastSize(b * BLOCK, 133, b + 68362) == 133 * GROUP * BLOCK
  {
  }

  lemma FarClear(lay: Layout)
    requires FAR + 4 <= lay.table && lay.dataEnd <= FAR + 8 + 68362 && lay.total == 133
    ensures TablesClear(lay) && (lay.table + 1 <= lay.dataEnd ==> InodesClear(lay, 12))
  {
    forall g: nat | 0 < g < lay.total && HasSparse(g) ensures g * GROUP < lay.table || lay.dataEnd <= g * GROUP {
      if g > 130 { NotSparse(g); }
    }
  }

  lemma NotSparse(g: nat)
    requires g == 131 || g == 132
    ensures !HasSparse(g)
  {
    assert Strip(44, 3) == 44;
    assert Strip(132, 3) == Strip(44, 3);
  }

  /** A file of zeros that ends in group 130 of an image made with 4096 bytes: it starts right behind the 32 reserved
      blocks of that size. */
  ghost predicate FarContent(content: seq<byte>, f: Stowed) {
    && content != [] && content == Zeros(|content|) && |content| >= BLOCK && |content| <= MAX_FILE_SIZE
    && var w := WriteAligned(Fresh(4096).store, content);
       && f == Finish(w, |content|) && f.Stowed? && |f.field| == 60 && f.store.off == 0
       && FAR + 1 <= f.store.block <= FAR + 5 && f.store.size == (FAR + 1) * BLOCK
       && w.ranges != [] && w.ranges[0].start == 33 < w.ranges[0].end && w.store.off == 0 && w.store.block == FAR + 1
       && Within(w.ranges, 33, FAR + 1) && Total(w.ranges) > 0
  }

  lemma FarFile() returns (content: seq<byte>, f: Stowed)
    ensures FarContent(content, f)
  {
    hide Fresh, Area, WriteAligned, Finish, SkipReserved, Flat, Total, SameBelow, Beyond;
    var st := Fresh(4096).store;
    FreshStore(4096);
    SmallArea(4096);
    Around(FAR);
    Around(FAR + 1);
    content := FileUpTo(st, FAR);
    InFirstGroup(st);
    StartsThere(st, content);
    var w := WriteAligned(st, content);
    var pad := WriteAlignedLands(st, content);
    FinishForward(w, |content|);
    TreeEnd(w, |content|);
    f := Finish(w, |content|);
  }

  /** The state with that file once its directories are written. */
  lemma GrownState(content: seq<byte>, f: Stowed) returns (r: St)
    requires FarContent(content, f)
    ensures var t := Run(Fresh(4096), [FileOp(content)]);
            && AllAllowed(Fresh(4096), [FileOp(content)]) && Running.Step(Fresh(4096), FileOp(content)).error == None
            && Listable(t.nodes) && VisitsAll(t.nodes, [0, 1, 2]) && CommitAll(t, [0, 1, 2]) == Outcome(r, None)
    ensures r.store.block == f.store.block + 2 && r.store.off == 0 && r.store.size == r.store.block * BLOCK
    ensures |r.inodes| == 12
    ensures f.Stowed? && InodeAt(r.inodes, 12) == Inode(Regular, 1, |content|, f.field, 0, Zeros(96))
    ensures forall b: nat :: b < f.store.block ==> BlockAt(r.store.disk, b) == BlockAt(f.store.disk, b)
  {
    hide Fresh, Good, Area, WriteAligned, Finish, AllAllowed, Run, Listable, VisitsAll, LinksAgree, OwnInodes,
         CommitAll, Allowed, Running.Step, BlockAt, Beyond, Total, Within;
    OneFile(4096, content);
    SmallArea(4096);
    var t := Run(Fresh(4096), [FileOp(content)]);
    GoodFits(t, 32);
    AllVisited(t);
    Around(t.store.block);
    Around(t.store.block + 1);
    Around(t.store.block + 2);
    CommittedBeyond(t);
    r := CommitAll(t, [0, 1, 2]).state;
  }

  /** The area of that image is now of 64 blocks, and nothing keeps it from being closed. */
  lemma GrownLayout(r: St)
    requires FAR + 3 <= r.store.block <= FAR + 7 && r.store.off == 0 && r.store.size == r.store.block * BLOCK
    requires |r.inodes| == 12
    ensures SealLayout(r) == Layout(r.store.block + 1, 133, 8192, r.store.block + 1 + 68362, 133 * GROUP * BLOCK, 133,
                                    2)
    ensures Closable(r) && InodesClear(SealLayout(r), |r.inodes|) && Area(r.store.size) == AreaFor(2) == 64
  {
    hide LayoutOf, Area, Beyond, ClearUpTo, WriteAligned;
    Around(r.store.block);
    BeyondFree(r.store.block, r.store.size);
    FreeLands(r.store);
    OneBlockThere(r.store, r.store.block, Zeros(4096));
    LayoutFar(Prepared(r).store);
    FarClear(SealLayout(r));
    GrownArea(r.store.size);
  }

  lemma GrownArea(size: positive)
    requires 129 * GROUP * BLOCK <= size <= 200 * GROUP * BLOCK
    ensures Area(size) == AreaFor(2) == 64
  {
    GroupCountExact(size);
  }

  /** On the closed image the block field still parses to the file's ranges. */
  lemma {:induction false} RangesThere(content: seq<byte>, f: Stowed, r: St, e: Disk)
    requires FarContent(content, f) && r.store.block == f.store.block + 2 && r.store.off == 0
    requires SameOff(r.store.disk, e, Top(r.store), 64)
    requires forall b: nat :: b < f.store.block ==> BlockAt(r.store.disk, b) == BlockAt(f.store.disk, b)
    ensures var w := WriteAligned(Fresh(4096).store, content);
            |f.field| == 60 && ParseExtents(e, f.field).Ranges?
              && Flat(e, ParseExtents(e, f.field).ranges) == Flat(e, w.ranges)
  {
    hide Fresh, WriteAligned, WriteExtents, SkipReserved, ParseExtents, BlockAt, Flat, Total, CutRanges, Within, Zeros;
    var w := WriteAligned(Fresh(4096).store, content);
    Around(w.store.block);
    BeyondFree(w.store.block, w.store.size);
    FreeLands(w.store);
    forall b: nat | w.store.block <= b < f.store.block ensures BlockAt(f.store.disk, b) == BlockAt(e, b) {
      Around(b);
      assert !Reserved(b, 64);
    }
    ExtentsRoundTrip(w.store, w.ranges, 33, e);
    CutFlat(e, w.ranges);
  }

  lemma FourZeros()
    ensures Field(Zeros(4096), 0, 4) == 0
  {
    var z := Zeros(4096)[0..4];
    assert z[1..] == [0, 0, 0] && z[1..][1..] == [0, 0] && z[1..][1..][1..] == [0] && z[1..][1..][1..][1..] == [];
    assert Read(z[1..][1..][1..]) == 0;
    assert Read(z[1..][1..]) == 0;
    assert Read(z[1..]) == 0;
  }

  /** Zeros cannot be read from a file whose first block starts with another number. */
  lemma {:induction false} HeadLost(e: Disk, field: seq<byte>, content: seq<byte>, first: nat)
    requires |field| == 60 && ParseExtents(e, field).Ranges? && content == Zeros(|content|) && |content| >= BLOCK
    requires var flat := Flat(e, ParseExtents(e, field).ranges); |flat| >= BLOCK && flat[..BLOCK] == BlockAt(e, first)
    requires Field(BlockAt(e, first), 0, 4) > 0
    ensures !HoldsFile(e, field, content)
  {
    hide ParseExtents, Flat, Field, BlockAt;
    FourZeros();
    NotPrefix(content, Flat(e, ParseExtents(e, field).ranges));
  }

  lemma NotPrefix(content: seq<byte>, flat: seq<byte>)
    requires |content| >= BLOCK && content == Zeros(|content|) && |flat| >= BLOCK && flat[..BLOCK] != Zeros(4096)
    ensures !(content <= flat)
  {
    var i :| 0 <= i < BLOCK && flat[..BLOCK][i] != 0;
    assert content[i] == 0;
  }

  lemma FirstBackup(p: Plan)
    requires p.im.total > 1
    ensures |Backups(p)| > 0 && Backups(p)[0] == 1
  {
    assert HasSparse(1);
    var r := Backups(p);
    var i :| 0 <= i < |r| && r[i] == 1;
  }

  /** A new image of 4096 bytes, one file of zeros of over 16 GiB, and close: all calls succeed, the image has grown by
      then to 133 groups, whose descriptor area of 64 blocks is the one that closing asks for and finds, but the file
      starts at block 33, and its first block has become a list of block numbers. */
  lemma FileLost(fill: Fill) returns (content: seq<byte>, e: Disk)
    ensures var t := Run(Fresh(4096), [FileOp(content)]);
            && AllAllowed(Fresh(4096), [FileOp(content)]) && Running.Step(Fresh(4096), FileOp(content)).error == None
            && Listable(t.nodes) && VisitsAll(t.nodes, [0, 1, 2]) && CommitAll(t, [0, 1, 2]).error == None
            && Finished(t, [0, 1, 2], fill).Closed? && Finished(t, [0, 1, 2], fill).disk == e
            && AreaFor(SealLayout(CommitAll(t, [0, 1, 2]).state).descriptors) == 64 && Area(4096) == 32
    ensures ReadInode(e, 12).kind == Regular && !HoldsFile(e, ReadInode(e, 12).field, content)
  {
    hide Fresh, Area, AllAllowed, Run, Listable, VisitsAll, CommitAll, LayoutOf, Running.Step, ReadInode, Apply, Writes,
         Prepared, BackupGroups, WriteAligned, Finish, ParseExtents, Flat, SameOff, Total, Within, InodesClear, BlockAt,
         Field, Zeros, ReservedEnd, ListBlock;
    var f;
    content, f := FarFile();
    var r := GrownState(content, f);
    GrownLayout(r);
    SmallArea(4096);
    ClosesAnyway(r, fill);
    e := Close(r, fill).disk;
    ClosedReads(r, fill, 12);
    ClosingIsSafe(r, fill, 64);
    RangesThere(content, f, r, e);
    var w := WriteAligned(Fresh(4096).store, content);
    FlatHead(e, w.ranges);
    FirstBackup(SealPlan(r, fill));
    ResizeReads(r, fill, 30, 0);
    HeadLost(e, f.field, content, 33);
  }

  // ----- A superblock copy on a leaf block -----

  const LARGE: positive := 740 * 32768 * 4096
  const LATE: nat := 729 * 32768

  lemma LargeArea(size: positive)
    requires 738 * GROUP * BLOCK <= size <= 768 * GROUP * BLOCK
    ensures Area(size) == AreaFor(6) == 192
  {
    GroupCountExact(size);
  }

  /** A file of zeros in an image made with 740 groups: its leaf blocks are the last of group 728 and the first of group
      729. */
  ghost predicate LateContent(content: seq<byte>, f: Stowed) {
    && content != [] && |content| <= MAX_FILE_SIZE
    && f == Finish(WriteAligned(Fresh(LARGE).store, content), |content|) && f.Stowed? && f.store.off == 0
    && LATE + 1 <= f.store.block <= LATE + 3 && f.store.size == LARGE && PointsAt(f.field, LATE)
  }

  lemma LateFile() returns (content: seq<byte>, f: Stowed)
    ensures LateContent(content, f)
  {
    hide Fresh, Area, WriteAligned, Finish, PointsAt, Total, Beyond;
    var st, x := Fresh(LARGE).store, LATE - 2;
    FreshStore(LARGE);
    LargeArea(LARGE);
    EndOfGroup(729);
    content := FileUpTo(st, x);
    var w := WriteAligned(st, content);
    f := Finish(w, |content|);
    TwoLeafBlocks(w, |content|, st.block, x);
    LateTree(w, |content|, st.block);
  }

  lemma {:induction false} LateTree(w: Written, n: nat, from: nat)
    requires w.store.off == 0 && w.store.block == LATE - 1 && from <= 1025 && Finish(w, n).Stowed?
    requires Total(w.ranges) == BlocksFor(n) && n % BLOCK == 0
    requires LATE - 1 - from <= n / BLOCK + Skippable(from, LATE - 2)
    ensures var f := Finish(w, n);
            f.store.off == 0 && LATE + 1 <= f.store.block <= LATE + 3 && f.store.size == w.store.size
  {
    hide WriteExtents, Leaves, Total, Area, HasSparse;
    LastOfGroup(w.store);
    LeavesAtLeast(w.ranges);
    ManyBlocks(n, from, LATE - 2);
    TreeBlocks(w.store, w.ranges);
    ExtentsForward(w.store, w.ranges, Zeros(60));
  }

  /** The directories go behind the reserved area of group 729. */
  lemma LateLands(st: Store)
    requires st.off == 0 && LATE + 1 <= st.block <= LATE + 3 && st.size == LARGE
    ensures Lands(st, LATE + 193) && Free(LATE + 194, LARGE) && Free(LATE + 195, LARGE)
  {
    LargeArea(LARGE);
    Group729();
    var b := st.block;
    GroupOf(b, 729, b - LATE);
    GroupOf(LATE + 194, 729, 194);
    GroupOf(LATE + 195, 729, 195);
  }

  lemma LateLayout(st: Store)
    requires st.block == LATE + 196 && st.size == LARGE
    ensures LayoutOf(st, 12) == Layout(LATE + 196, 741, 8192, LATE + 196 + 380874, 741 * GROUP * BLOCK, 741, 6)
    ensures InodesClear(LayoutOf(st, 12), 12)
  {
    hide GroupsFor, DataEnd, LeastSize, HasSparse;
    GroupsAre(LATE + 196, 8192, 32254, 741);
    GroupsAre(LATE + 196, 16384, 31742, 753);
    GroupsAre(LATE + 196, 24576, 31230, 765);
    GroupsAre(LATE + 196, 32768, 30718, 778);
    LateSize();
  }

  lemma LateSize()
    ensures DataEnd(LATE + 196, 741, 8192) == LATE + 196 + 380874
    ensures LeastSize(LARGE, 741, LATE + 196 + 380874) == 741 * GROUP * BLOCK
  {
  }

  /** The state with that file once its directories are written. */
  lemma LateState(content: seq<byte>, f: Stowed) returns (t: St, r: St)
    requires LateContent(content, f)
    ensures t == Run(Fresh(LARGE), [FileOp(content)]) && AllAllowed(Fresh(LARGE), [FileOp(content)])
    ensures Running.Step(Fresh(LARGE), FileOp(content)).error == None && Good(t, Area(LARGE)) && OneFileTree(t)
    ensures Listable(t.nodes) && VisitsAll(t.nodes, [0, 1, 2]) && CommitAll(t, [0, 1, 2]) == Outcome(r, None)
    ensures f.Stowed? && InodeAt(r.inodes, 12) == Inode(Regular, 1, |content|, f.field, 0, Zeros(96))
    ensures |r.inodes| == 12
    ensures Prepared(r).store.block == LATE + 196 && Prepared(r).store.size == LARGE && r.store.size == LARGE
  {
    hide Fresh, Good, Area, WriteAligned, Finish, AllAllowed, Run, Listable, VisitsAll, LinksAgree, OwnInodes,
         CommitAll, Allowed, Running.Step, BlockAt, Lands, Free, PointsAt;
    OneFile(LARGE, content);
    t := Run(Fresh(LARGE), [FileOp(content)]);
    GoodFits(t, Area(LARGE));
    AllVisited(t);
    LateLands(t.store);
    OneFileCommitted(t, LATE + 193);
    r := CommitAll(t, [0, 1, 2]).state;
    OneBlockThere(r.store, LATE + 195, Zeros(4096));
  }

  /** What the one file of such an image is. */
  lemma {:induction false} FileIs(size: positive, content: seq<byte>)
    requires Running.Step(Fresh(size), FileOp(content)).error == None
    requires OneFileTree(Run(Fresh(size), [FileOp(content)]))
    ensures var t := Run(Fresh(size), [FileOp(content)]);
            && Lookup(t.nodes, [A]).Some? && Target(t.nodes[Lookup(t.nodes, [A]).value]) == 12
            && Put(t, [A]) == AFile(content)
  {
    hide Fresh, Run, Create, Good, Plain, Lookup, Concat, Area;
    FreshRoot(size);
    OneOp(Fresh(size), FileOp(content));
    NewFile(Fresh(size), [A], MakeFile(Some([content])), NoXattrs, Area(size));
    OneChunk(content);
  }

  /** A new image of 740 groups, one file of about 91 GiB, and close: all calls succeed and the area has not grown, but
      the second leaf block of the file is where the superblock copy of group 729 goes, and the file is not on the
      image. */
  lemma LateLeafLost(fill: Fill) returns (content: seq<byte>, e: Disk)
    ensures var t := Run(Fresh(LARGE), [FileOp(content)]);
            && AllAllowed(Fresh(LARGE), [FileOp(content)]) && Running.Step(Fresh(LARGE), FileOp(content)).error == None
            && Listable(t.nodes) && VisitsAll(t.nodes, [0, 1, 2]) && Legible(t, [0, 1, 2], Area(LARGE))
            && Finished(t, [0, 1, 2], fill).Closed? && Finished(t, [0, 1, 2], fill).disk == e
            && |t.inodes| == 12 && Put(t, [A]) == AFile(content)
    ensures !Has(e, [A], AFile(content))
  {
    hide Fresh, Good, Area, AllAllowed, Run, Listable, LinksAgree, Attached, CommitAll, LayoutOf, Running.Step,
         Prepared, DirImage, IsCommitted, PointsAt, DirsFree, ReservedEnd, Has, Put, Finished, Lookup, Reserved;
    var f;
    content, f := LateFile();
    var t, r := LateState(content, f);
    LargeArea(LARGE);
    LateLayout(Prepared(r).store);
    ClosableFits(r);
    forall i | 0 <= i < |t.nodes| && Attached(t.nodes, i) && IsCommitted(t.nodes, t.inodes, i)
      ensures |DirImage(t.nodes, t.inodes, i)| <= SMALL
    {
      SmallDirectory(t.nodes, t.inodes, i);
    }
    SmallDirsFree(t, [0, 1, 2], 192);
    PathHeldIff(t, [0, 1, 2], [A], 192, fill);
    FileIs(LARGE, content);
    e := Finished(t, [0, 1, 2], fill).disk;
    LateReserved();
    assert !IndexFree(f.field, 192);
  }

  lemma LateReserved()
    ensures Reserved(LATE, 192)
  {
    Group729();
    GroupOf(LATE, 729, 0);
  }
}
