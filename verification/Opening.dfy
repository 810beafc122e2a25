/** The finished image as the reader opens it: exactly when that succeeds, and that it then has exactly the paths that
    were put there. */
module Opening {
  import opened Bytes
  import opened Geometry
  import opened Payload
  import opened Placement
  import opened Extents
  import opened Contents
  import opened FileTree
  import opened Fs
  import opened Namespace
  import opened Ownership
  import opened Pruning
  import opened Creating
  import opened Keeping
  import opened Running
  import opened Directories
  import opened Committing
  import opened Visiting
  import opened Records
  import opened Reading
  import opened Sealing
  import opened Walking
  import opened Imaging
  import opened Marking
  import R = Resolving
  import T = Traversing
  import M = Meaning

  // ----- Targets that look like extent trees -----

  predicate Tail(b: byte) { 0x80 <= b <= 0xBF }

  /** The number of bytes of the first character, or 0 if there is none. */
  function FirstChar(s: seq<byte>): (n: nat)
    ensures n <= |s| && n <= 4
  {
    if s == [] then 0
    else if s[0] < 0x80 then 1
    else if |s| >= 2 && 0xC2 <= s[0] <= 0xDF && Tail(s[1]) then 2
    else if |s| >= 3 && 0xE0 <= s[0] <= 0xEF && Tail(s[1]) && Tail(s[2])
            && (s[0] == 0xE0 ==> s[1] >= 0xA0) && (s[0] == 0xED ==> s[1] < 0xA0) then 3
    else if |s| >= 4 && 0xF0 <= s[0] <= 0xF4 && Tail(s[1]) && Tail(s[2]) && Tail(s[3])
            && (s[0] == 0xF0 ==> s[1] >= 0x90) && (s[0] == 0xF4 ==> s[1] < 0x90) then 4
    else 0
  }

  /** The bytes are UTF-8 (section 4 of RFC 3629). */
  predicate Utf8(s: seq<byte>)
    decreases |s|
  {
    s == [] || (FirstChar(s) > 0 && Utf8(s[FirstChar(s)..]))
  }

  /** The target begins with the two bytes that mark an extent tree. */
  predicate Clashes(target: seq<byte>) { |target| >= 2 && target[0] == 0x0A && target[1] == 0xF3 }

  lemma FieldTwo(buf: seq<byte>, off: nat)
    requires off + 2 <= |buf|
    ensures Field(buf, off, 2) == buf[off] as int + 256 * (buf[off + 1] as int)
  {
    var b := buf[off..off + 2];
    assert b[1..] == [buf[off + 1]] && b[1..][1..] == [];
    assert Read(b[1..]) == buf[off + 1];
  }

  lemma {:induction false} ClashCounts(target: seq<byte>)
    requires Utf8(target) && Clashes(target)
    ensures |target| >= 5 && target[2] >= 0x80 && target[3] >= 0x80
  {
    assert FirstChar(target) == 1;
    var rest := target[1..];
    assert rest[0] == 0xF3 && FirstChar(rest) == 4;
    assert rest[1] == target[2] && rest[2] == target[3];
  }

  lemma {:induction false} LeavesTooMany(buf: seq<byte>, n: nat)
    requires |buf| == INODE_BLOCK_SIZE && n > 4
    ensures !ParseLeaves(buf, n).Ranges?
  {
    hide Field;
    if n > 5 { LeavesTooMany(buf, n - 1); }
  }

  lemma {:induction false} IndexTooMany(d: Disk, field: seq<byte>, n: nat)
    requires |field| == INODE_BLOCK_SIZE && n > 4
    ensures !ParseIndex(d, field, n).Ranges?
  {
    hide Field, ParseLeaves;
    if n > 5 { IndexTooMany(d, field, n - 1); }
  }

  /** A short target can be taken for a block field if and only if it does not begin like one: in UTF-8 the bytes that
      follow make the number of entries larger than there is room for. */
  lemma {:induction false} ShortMapped(d: Disk, length: nat, target: seq<byte>)
    requires |target| < 60 && Utf8(target)
    ensures Mapped(d, length, target + Zeros(60 - |target|)) <==> !Clashes(target)
  {
    hide Field, ParseLeaves, ParseIndex;
    var field := target + Zeros(60 - |target|);
    FieldTwo(field, 0);
    FieldTwo(field, 2);
    if Clashes(target) {
      ClashCounts(target);
      LeavesTooMany(field, Field(field, 2, 2));
      IndexTooMany(d, field, Field(field, 2, 2));
    }
  }

  // ----- The inodes of a closed image -----

  /** `e`, in a file of `length` bytes, is what closing leaves of the state. */
  ghost predicate Shut(s: St, order: seq<nat>, area: nat, fill: Fill, e: Disk, length: nat) {
    && Good(s, area) && area < GROUP - 1 && VisitsAll(s.nodes, order) && Listable(s.nodes) && Closes(s, order, area)
    && Finished(s, order, fill).Closed? && Finished(s, order, fill).disk == e
    && length == SealLayout(CommitAll(s, order).state).size
  }

  /** Everything the block field leads to lies within the file. */
  lemma PlacedMapped(e: Disk, field: seq<byte>, lo: nat, hi: nat, length: nat)
    requires Placed(e, field, lo, hi) && hi * BLOCK <= length
    ensures Mapped(e, length, field) && Inside(ParseExtents(e, field).ranges, length)
  {
    hide ParseExtents, PointsAt, PointersInside;
    forall x: nat | PointsAt(field, x) ensures (x + 1) * BLOCK <= length {
      assert x + 1 <= hi;
    }
    PointersAre(field, length);
    var ranges := ParseExtents(e, field).ranges;
    forall i | 0 <= i < |ranges| ensures ExtentInside(ranges[i], length) {
    }
  }

  /** The block field can be parsed on the closed image if and only if no leaf block of it is reserved. */
  lemma {:induction false} TreeMapped(r: St, fill: Fill, e: Disk, field: seq<byte>, lo: nat, hi: nat, area: nat)
    requires Closable(r) && AreaFor(SealLayout(r).descriptors) <= area < GROUP - 1
    requires Close(r, fill).Closed? && Close(r, fill).disk == e
    requires Placed(r.store.disk, field, lo, hi) && hi <= Top(r.store) && GroupStarts(field, area)
    ensures Mapped(e, SealLayout(r).size, field) <==> IndexFree(field, area)
    ensures IndexFree(field, area) ==> Inside(ParseExtents(e, field).ranges, SealLayout(r).size)
  {
    hide Closable, SealLayout, AreaFor, Close, Placed, PointsAt, GroupStarts, Reserved, SameOff, Inside, PointersInside;
    ClosingIsSafe(r, fill, area);
    if IndexFree(field, area) {
      PlacedClosed(r.store.disk, e, field, lo, hi, Top(r.store), area);
      TopInside(r);
      PlacedMapped(e, field, lo, hi, SealLayout(r).size);
    } else {
      var x: nat :| PointsAt(field, x) && Reserved(x, area);
      PointerBelow(r.store.disk, field, lo, hi, x);
      LeafOverwritten(r, fill, field, area, x);
    }
  }

  lemma DirGroups(s: St, r: St, i: nat, area: nat)
    requires i < |s.nodes| && Listable(s.nodes) && DirHeld(s, r, i, area) && IsCommitted(s.nodes, s.inodes, i)
    ensures GroupStarts(InodeAt(r.inodes, s.nodes[i].inode).field, area)
  {
    hide DirImage, KeepsFile, Listable, Placed, Sturdy, IndexFree, GroupStarts;
  }

  lemma FileGroups(st: Store, ino: Inode, b: Born, area: nat)
    requires Holds(st, ino, b, area)
    ensures HasTree(ino) ==> GroupStarts(ino.field, area)
    ensures ino.kind == Symlink && ino.size < 60 ==>
            |b.content| < 60 && ino.field == b.content + Zeros(60 - |b.content|)
  {
    hide KeepsFile, Placed, Sturdy, IndexFree, GroupStarts;
  }

  /** A reachable directory can be read if and only if no leaf block of it is reserved, and then it is its list. */
  lemma {:induction false} DirMapped(s: St, order: seq<nat>, area: nat, fill: Fill, e: Disk, length: nat, i: nat)
    requires Shut(s, order, area, fill, e, length) && i < |s.nodes| && Attached(s.nodes, i)
    requires IsDirNode(s.nodes, s.inodes, i)
    ensures var field := InodeAt(CommitAll(s, order).state.inodes, s.nodes[i].inode).field;
            && |field| == 60 && (Mapped(e, length, field) <==> IndexFree(field, area))
            && (IndexFree(field, area) ==>
                  R.ListingIn(e, length, field) == Some(SortNames(Pairs(DirList(s.nodes, s.inodes, i)))))
  {
    hide Owned, Kept, FileCounts, DirCounts, RemovedDirs, KindsSane, CommitAll, Listable, Attached, LinksAgree, Past,
         OtherInodes, Area, DirHeld, SameTree, DirImage, Close, Closable, InodesClear, SealLayout, AreaFor, IndexFree,
         Placed, SameOff, Mapped, Inside, ReadDir, DirOn, GroupStarts, DirList, Pairs, SortNames, ParseExtents;
    var r := CommitAll(s, order).state;
    var field := InodeAt(r.inodes, s.nodes[i].inode).field;
    InvWellFormed(s);
    ClosableFits(r);
    CommitPast(s, order);
    KeptArea(s, area, r.store);
    CommitAllHolds(s, order, area);
    TreeFacts(s, i);
    var x :| 0 <= x < |order| && order[x] == i;
    DirPlaced(s, r, i, area);
    DirGroups(s, r, i, area);
    TreeMapped(r, fill, e, field, Top(s.store), Top(r.store), area);
    FieldLength(r.store.disk, field, Top(s.store), Top(r.store));
    if IndexFree(field, area) {
      ClosingIsSafe(r, fill, area);
      HeldOn(s, r, i, area, e);
      DirReads(s, e, r.inodes, i);
    }
  }

  lemma FieldLength(d: Disk, field: seq<byte>, lo: nat, hi: nat)
    requires Placed(d, field, lo, hi)
    ensures |field| == 60
  {
    hide ParseExtents, PointsAt;
  }

  /** Every symlink was given a target that is text. */
  ghost predicate TextBorn(born: seq<Born>) {
    forall k: nat {:trigger BornAt(born, k)} :: BornAt(born, k).kind == Symlink ==> Utf8(BornAt(born, k).content)
  }

  /** The reader can make sense of the block field: no leaf block is reserved, and a short target does not clash. */
  ghost predicate Fine(inodes: seq<Inode>, born: seq<Born>, k: nat, area: nat) {
    var ino := InodeAt(inodes, k);
    if ino.kind == Symlink && ino.size < 60 then !Clashes(BornAt(born, k).content) else IndexFree(ino.field, area)
  }

  /** A content in blocks can be read if and only if no leaf block of it is reserved. */
  lemma {:induction false} ContentMapped(s: St, order: seq<nat>, area: nat, fill: Fill, e: Disk, length: nat, k: nat)
    requires Shut(s, order, area, fill, e, length)
    requires FIRST_INODE <= k <= |s.inodes| && IsFile(InodeAt(s.inodes, k).kind)
    ensures var ino, b := InodeAt(CommitAll(s, order).state.inodes, k), BornAt(s.born, k);
            && |ino.field| == 60 && ino.kind == b.kind
            && (if HasTree(ino) then
                  && (Mapped(e, length, ino.field) <==> IndexFree(ino.field, area))
                  && (IndexFree(ino.field, area) ==> Inside(ParseExtents(e, ino.field).ranges, length))
                else |b.content| < 60 && ino.field == b.content + Zeros(60 - |b.content|))
  {
    hide Sound, Kept, CommitAll, Listable, Attached, LinksAgree, IndexFree, Past, Area, Closable, InodesClear,
         SealLayout, Close, AreaFor, KeepsFile, SturdyIff, Placed, Reserved, Mapped, Inside, GroupStarts, ParseExtents;
    var r := CommitAll(s, order).state;
    ClosableFits(r);
    FilesSurvive(s, order, k, area);
    CommitPast(s, order);
    InSpan(s, r.store, k);
    var ino, b := InodeAt(r.inodes, k), BornAt(s.born, k);
    FileGroups(r.store, ino, b, area);
    if HasTree(ino) {
      FilePlaced(r.store, ino, b, area);
      FieldLength(r.store.disk, ino.field, b.lo, b.hi);
      TreeMapped(r, fill, e, ino.field, b.lo, b.hi, area);
    }
  }

  lemma {:induction false} FileMapped(s: St, order: seq<nat>, area: nat, fill: Fill, e: Disk, length: nat, k: nat)
    requires Shut(s, order, area, fill, e, length) && TextBorn(s.born)
    requires FIRST_INODE <= k <= |s.inodes| && IsFile(InodeAt(s.inodes, k).kind)
    ensures var r := CommitAll(s, order).state;
            |InodeAt(r.inodes, k).field| == 60
              && (Mapped(e, length, InodeAt(r.inodes, k).field) <==> Fine(r.inodes, s.born, k, area))
  {
    hide Shut, CommitAll, IndexFree, Mapped, Inside, Clashes, Utf8, InodeAt, Inv, Listable, LinksAgree, Attached;
    ShutFacts(s, order, area, fill, e, length);
    ContentMapped(s, order, area, fill, e, length, k);
    var ino, b := InodeAt(CommitAll(s, order).state.inodes, k), BornAt(s.born, k);
    SameFileKind(s, order, area, fill, e, length, k);
    if !HasTree(ino) { ShortMapped(e, length, b.content); }
  }

  lemma {:induction false} SameFileKind(s: St, order: seq<nat>, area: nat, fill: Fill, e: Disk, length: nat, k: nat)
    requires Shut(s, order, area, fill, e, length)
    ensures InodeAt(CommitAll(s, order).state.inodes, k).kind == InodeAt(s.inodes, k).kind
  {
    hide Sound, Kept, CommitAll, Listable, Attached, LinksAgree, Closes, Finished, SealLayout, SameTree;
    CommitAllSame(s, order);
    SameKind(s, CommitAll(s, order).state, k);
  }

  /** What the reader has of the inode that node `i` leads to. */
  ghost predicate Shown(s: St, fs: R.Objects, inodes: seq<Inode>, area: nat, i: nat)
    requires i < |s.nodes|
  {
    var k := Target(s.nodes[i]);
    && k in fs && fs[k].kind == InodeAt(s.inodes, k).kind && (T.Opens(fs, k) <==> IsDirNode(s.nodes, s.inodes, i))
    && (T.Readable(fs, k) <==> Fine(inodes, s.born, k, area))
    && (IsDirNode(s.nodes, s.inodes, i) && Fine(inodes, s.born, k, area) ==>
          T.Entries(fs, k) == SortNames(Pairs(DirList(s.nodes, s.inodes, i))))
  }

  lemma {:induction false} ObjectThere(s: St, order: seq<nat>, area: nat, fill: Fill, e: Disk, length: nat, i: nat)
    requires Shut(s, order, area, fill, e, length) && i < |s.nodes| && Attached(s.nodes, i)
    ensures var k, r := Target(s.nodes[i]), CommitAll(s, order).state;
            && k in R.ObjectsOf(e, length)
            && R.ObjectsOf(e, length)[k].kind == InodeAt(s.inodes, k).kind == InodeAt(r.inodes, k).kind
            && |InodeAt(r.inodes, k).field| == 60
            && R.ObjectsOf(e, length)[k].mapped == Mapped(e, length, InodeAt(r.inodes, k).field)
            && R.ObjectsOf(e, length)[k].listing == R.ListingIn(e, length, InodeAt(r.inodes, k).field)
            && R.ObjectsOf(e, length)[k].target
               == TargetIn(e, length, InodeAt(r.inodes, k).field, InodeAt(r.inodes, k).size)
            && ReadInode(e, k) == Low(InodeAt(r.inodes, k))
  {
    hide Sound, Kept, CommitAll, Listable, Attached, LinksAgree, Area, SameTree, Close, Closable, InodesClear,
         SealLayout, AreaFor, Mapped, Inside, ReadDir, ReadInode, InodeThere, TargetIn, InodeAt, TableOn;
    var k, r := Target(s.nodes[i]), CommitAll(s, order).state;
    ClosableFits(r);
    TableIsOn(s, order, area, fill);
    ReadThere(s, e, r.inodes, i);
    Recorded(s, order, i, area);
    CommitAllSame(s, order);
    CommitCounts(s, r);
    SameKind(s, r, k);
    ClosedThere(r, fill, k);
  }

  lemma {:induction false} NodeShown(s: St, order: seq<nat>, area: nat, fill: Fill, e: Disk, length: nat, i: nat)
    requires Shut(s, order, area, fill, e, length) && TextBorn(s.born) && i < |s.nodes| && Attached(s.nodes, i)
    ensures Shown(s, R.ObjectsOf(e, length), CommitAll(s, order).state.inodes, area, i)
  {
    hide Owned, Kept, FileCounts, DirCounts, RemovedDirs, CommitAll, Listable, Attached, LinksAgree, Closes, Finished,
         SealLayout, TextBorn, R.ObjectsOf, Mapped, IndexFree, Clashes, R.ListingIn, DirList, Pairs, SortNames;
    InvWellFormed(s);
    ObjectThere(s, order, area, fill, e, length, i);
    if IsDirNode(s.nodes, s.inodes, i) {
      DirMapped(s, order, area, fill, e, length, i);
    } else {
      TreeFacts(s, i);
      FileMapped(s, order, area, fill, e, length, Target(s.nodes[i]));
    }
  }

  // ----- Listings and children -----

  lemma {:induction false} PlacedMembers(list: Listing, entry: (Name, nat), x: (Name, nat))
    ensures x in PlaceName(list, entry) <==> x in list || x == entry
  {
    if list != [] && Less(entry.0, list[|list| - 1].0) {
      PlacedMembers(list[..|list| - 1], entry, x);
      assert list == list[..|list| - 1] + [list[|list| - 1]];
    }
  }

  lemma {:induction false} SortedMembers(list: Listing, x: (Name, nat))
    ensures x in SortNames(list) <==> x in list
  {
    if list != [] {
      var n := |list| - 1;
      SortedMembers(list[..n], x);
      PlacedMembers(SortNames(list[..n]), list[n], x);
      assert list == list[..n] + [list[n]];
    }
  }

  lemma {:induction false} ListedIsKid(nodes: Nodes, inodes: seq<Inode>, list: seq<nat>, x: (Name, nat))
      returns (c: nat)
    requires x in Pairs(KidEntries(nodes, inodes, list))
    ensures c in list && c < |nodes| && x == (nodes[c].name, Target(nodes[c]))
  {
    assert list != [];
    var n := |list| - 1;
    if x in Pairs(KidEntries(nodes, inodes, list[..n])) {
      c := ListedIsKid(nodes, inodes, list[..n], x);
    } else {
      c := list[n];
      PairsSnoc(KidEntries(nodes, inodes, list[..n]), EntryFor(nodes, inodes, c));
    }
  }

  /** A directory lists exactly its children, dots aside. */
  lemma {:induction false} ListsChildren(nodes: Nodes, inodes: seq<Inode>, i: nat, name: Name, k: nat)
    requires WellFormed(nodes) && i < |nodes| && !T.IsDot(name)
    requires forall x :: 0 <= x < |nodes[i].children| ==> HasLinks(nodes, inodes, nodes[i].children[x])
    ensures (name, k) in SortNames(Pairs(DirList(nodes, inodes, i))) <==>
            TargetOf(nodes, FindChild(nodes, nodes[i].children, name)) == Some(k)
  {
    hide KidEntries, SortKids, Pairs, FindChild, LinksAgree, SortNames, FindName;
    var list := Pairs(DirList(nodes, inodes, i));
    SortedMembers(list, (name, k));
    ListFinds(nodes, inodes, i, name);
    if FindName(list, name).Some? { R.FindNameIn(list, name); }
    if (name, k) in list {
      var sorted := SortKids(nodes, nodes[i].children);
      DotsFirst(DirList(nodes, inodes, i), KidEntries(nodes, inodes, sorted), (name, k));
      var c := ListedIsKid(nodes, inodes, sorted, (name, k));
      SortMembers(nodes, nodes[i].children, c);
      FindsIt(nodes, i, c);
    }
  }

  lemma DotsFirst(all: seq<Entry>, entries: seq<Entry>, x: (Name, nat))
    requires |all| == |entries| + 2 && all[2..] == entries && all[0].name == DOT && all[1].name == DOTDOT
    requires !T.IsDot(x.0)
    requires x in Pairs(all)
    ensures x in Pairs(entries)
  {
    var n :| 0 <= n < |Pairs(all)| && Pairs(all)[n] == x;
    assert Pairs(entries)[n - 2] == x;
  }

  // ----- What can be reached -----

  /** The reader has all inodes that the tree leads to. */
  ghost predicate AllShown(s: St, fs: R.Objects, inodes: seq<Inode>, area: nat) {
    && Inv(s.nodes, s.inodes) && LinksAgree(s.nodes)
    && forall i {:trigger Attached(s.nodes, i)} :: 0 <= i < |s.nodes| && Attached(s.nodes, i) ==>
       Shown(s, fs, inodes, area, i)
  }

  lemma {:induction false} EntriesAre(s: St, fs: R.Objects, inodes: seq<Inode>, area: nat, i: nat, name: Name, k: nat)
    requires AllShown(s, fs, inodes, area) && i < |s.nodes| && Attached(s.nodes, i) && !T.IsDot(name)
    ensures (name, k) in T.Entries(fs, Target(s.nodes[i])) <==>
            && IsDirNode(s.nodes, s.inodes, i) && Fine(inodes, s.born, Target(s.nodes[i]), area)
            && TargetOf(s.nodes, FindChild(s.nodes, s.nodes[i].children, name)) == Some(k)
  {
    hide Inv, Attached, LinksAgree, Fine, FindChild, DirList, Pairs, SortNames, HasLinks, IsDirNode, WellFormed;
    assert Shown(s, fs, inodes, area, i);
    ChildrenLinked(s, i);
    InvWellFormed(s);
    ListsChildren(s.nodes, s.inodes, i, name, k);
  }

  /** A child with what is known of it. */
  lemma {:induction false} ChildOf(nodes: Nodes, i: nat, name: Name)
    requires LinksAgree(nodes) && i < |nodes| && Attached(nodes, i) && FindChild(nodes, nodes[i].children, name).Some?
    ensures var c := FindChild(nodes, nodes[i].children, name).value;
            c < |nodes| && Attached(nodes, c) && nodes[c].name == name && PathOf(nodes, c) == PathOf(nodes, i) + [name]
  {
    hide FindChild;
  }

  /** Whatever the reader reaches is in the tree, without dots on the way. */
  lemma {:induction false} WayAttached(s: St, fs: R.Objects, inodes: seq<Inode>, area: nat, trail: seq<nat>)
      returns (j: nat)
    requires AllShown(s, fs, inodes, area) && T.Way(fs, trail)
    ensures j < |s.nodes| && Attached(s.nodes, j) && Target(s.nodes[j]) == R.At(trail) && NoDots(PathOf(s.nodes, j))
  {
    hide Attached, LinksAgree, Fine, FindChild, FileCounts, DirCounts, RemovedDirs, KindsSane, Shown, T.Way,
         T.PlainEntry, PathOf, T.Entries;
    if trail == [] {
      j := ROOT;
      RootAttached(s.nodes);
      RootPath(s.nodes);
    } else {
      var n := |trail| - 1;
      T.WayUp(fs, trail);
      var p := WayAttached(s, fs, inodes, area, trail[..n]);
      var name := PlainName(fs, R.At(trail[..n]), trail[n]);
      EntriesAre(s, fs, inodes, area, p, name, trail[n]);
      j := FindChild(s.nodes, s.nodes[p].children, name).value;
      ChildOf(s.nodes, p, name);
    }
  }

  lemma {:induction false} RootPath(nodes: Nodes)
    requires LinksAgree(nodes)
    ensures |nodes| > 0 && PathOf(nodes, ROOT) == []
  {
  }

  lemma PlainName(fs: R.Objects, k: nat, c: nat) returns (name: Name)
    requires T.PlainEntry(fs, k, c)
    ensures !T.IsDot(name) && (name, c) in T.Entries(fs, k)
  {
    hide T.Entries;
    var list := T.Entries(fs, k);
    var x :| 0 <= x < |list| && !T.IsDot(list[x].0) && list[x].1 == c;
    name := list[x].0;
    assert list[x] == (name, c);
  }

  /** What is in the tree without dots on the way is reached, as long as all that is reached can be read. */
  lemma {:induction false} AttachedWay(s: St, fs: R.Objects, inodes: seq<Inode>, area: nat, j: nat)
      returns (trail: seq<nat>)
    requires AllShown(s, fs, inodes, area) && T.AllReadable(fs)
    requires j < |s.nodes| && Attached(s.nodes, j) && NoDots(PathOf(s.nodes, j))
    ensures T.Way(fs, trail) && R.At(trail) == Target(s.nodes[j])
    decreases j
  {
    hide Attached, LinksAgree, Fine, FindChild, FileCounts, DirCounts, RemovedDirs, T.Way, PathOf, T.Entries, DirList,
         Pairs, SortNames;
    if j == ROOT {
      trail := [];
      EmptyWay(fs);
    } else {
      InvWellFormed(s);
      ParentIn(s.nodes, j);
      var p, name, k := Parent(s.nodes, j), s.nodes[j].name, Target(s.nodes[j]);
      var up := AttachedWay(s, fs, inodes, area, p);
      assert T.Readable(fs, R.At(up));
      assert Shown(s, fs, inodes, area, p);
      FindsIt(s.nodes, p, j);
      EntriesAre(s, fs, inodes, area, p, name, k);
      var list := T.Entries(fs, R.At(up));
      var x :| 0 <= x < |list| && list[x] == (name, k);
      T.WayDown(fs, up, x);
      trail := up + [k];
    }
  }

  lemma EmptyWay(fs: R.Objects)
    ensures T.Way(fs, [])
  {
  }

  lemma {:induction false} ParentIn(nodes: Nodes, j: nat)
    requires LinksAgree(nodes) && 0 < j < |nodes| && Attached(nodes, j) && NoDots(PathOf(nodes, j))
    ensures var p := Parent(nodes, j); p < j && Attached(nodes, p) && j in nodes[p].children
    ensures NoDots(PathOf(nodes, Parent(nodes, j))) && !T.IsDot(nodes[j].name)
  {
    var up, all := PathOf(nodes, Parent(nodes, j)), PathOf(nodes, j);
    assert all == up + [nodes[j].name];
    assert all[|up|] == nodes[j].name;
    forall x | 0 <= x < |up| ensures up[x] != DOT && up[x] != DOTDOT { assert all[x] == up[x]; }
  }

  /** All that can be reached without dots on the way is fine. */
  ghost predicate ReachedFine(s: St, inodes: seq<Inode>, area: nat)
    requires LinksAgree(s.nodes)
  {
    forall j {:trigger Attached(s.nodes, j)} ::
      0 <= j < |s.nodes| && Attached(s.nodes, j) && NoDots(PathOf(s.nodes, j)) ==>
      Fine(inodes, s.born, Target(s.nodes[j]), area)
  }

  lemma {:induction false} ReadableIffFine(s: St, fs: R.Objects, inodes: seq<Inode>, area: nat)
    requires AllShown(s, fs, inodes, area)
    ensures T.AllReadable(fs) <==> ReachedFine(s, inodes, area)
  {
    hide Inv, Attached, LinksAgree, Fine, T.Way, PathOf, T.Entries, T.Readable, NoDots;
    if T.AllReadable(fs) {
      forall j {:trigger Attached(s.nodes, j)} | 0 <= j < |s.nodes| && Attached(s.nodes, j)
        && NoDots(PathOf(s.nodes, j))
        ensures Fine(inodes, s.born, Target(s.nodes[j]), area)
      {
        var trail := AttachedWay(s, fs, inodes, area, j);
        assert T.Readable(fs, R.At(trail)) && Shown(s, fs, inodes, area, j);
      }
    }
    if ReachedFine(s, inodes, area) {
      forall trail | T.Way(fs, trail) ensures T.Readable(fs, R.At(trail)) {
        var j := WayAttached(s, fs, inodes, area, trail);
        assert Shown(s, fs, inodes, area, j);
      }
    }
  }

  // ----- The paths the reader has -----

  /** The reader has inode `k` at the path, as a node of its tree or as a hard link. */
  ghost predicate Sees(nodes: seq<T.Tree>, links: map<Path, nat>, path: Path, k: nat) {
    (exists i :: 0 <= i < |nodes| && T.Where(nodes, i) == path && nodes[i].inode == k)
      || (path in links && links[path] == k)
  }

  /** The entry `name` of a directory that node `p` stands for. */
  lemma {:induction false} EntrySeen(s: St, fs: R.Objects, inodes: seq<Inode>, area: nat, p: nat, name: Name, k: nat)
      returns (j: nat)
    requires AllShown(s, fs, inodes, area) && p < |s.nodes| && Attached(s.nodes, p) && NoDots(PathOf(s.nodes, p))
    requires !T.IsDot(name) && (name, k) in T.Entries(fs, Target(s.nodes[p]))
    ensures j < |s.nodes| && Attached(s.nodes, j) && PathOf(s.nodes, j) == PathOf(s.nodes, p) + [name]
    ensures Target(s.nodes[j]) == k
    ensures NoDots(PathOf(s.nodes, j))
  {
    hide Inv, Attached, LinksAgree, Fine, FindChild, Shown, PathOf, T.Entries;
    EntriesAre(s, fs, inodes, area, p, name, k);
    j := FindChild(s.nodes, s.nodes[p].children, name).value;
    ChildOf(s.nodes, p, name);
  }

  lemma {:induction false} NodeSeen(s: St, fs: R.Objects, inodes: seq<Inode>, area: nat, nodes: seq<T.Tree>,
                                    seen: set<nat>, i: nat) returns (j: nat)
    requires AllShown(s, fs, inodes, area) && T.TreeSane(fs, nodes, seen) && i < |nodes|
    ensures j < |s.nodes| && Attached(s.nodes, j) && PathOf(s.nodes, j) == T.Where(nodes, i)
    ensures Target(s.nodes[j]) == nodes[i].inode
    ensures NoDots(PathOf(s.nodes, j))
    decreases i
  {
    hide Attached, LinksAgree, Shown, PathOf, T.Entries, NoDots, FileCounts, DirCounts, RemovedDirs, KindsSane,
         T.HasInode, T.Readable, T.IsDir;
    if i == 0 {
      j := ROOT;
      RootAttached(s.nodes);
      RootPath(s.nodes);
      NoDotsAtAll();
    } else {
      assert T.EntryOf(fs, nodes[nodes[i].parent].inode, nodes[i]);
      var p := NodeSeen(s, fs, inodes, area, nodes, seen, nodes[i].parent);
      j := EntrySeen(s, fs, inodes, area, p, nodes[i].name, nodes[i].inode);
    }
  }

  lemma NoDotsAtAll()
    ensures NoDots([])
  {
  }

  lemma {:induction false} LinkSeen(s: St, fs: R.Objects, inodes: seq<Inode>, area: nat, nodes: seq<T.Tree>,
                                    seen: set<nat>, links: map<Path, nat>, path: Path) returns (j: nat)
    requires AllShown(s, fs, inodes, area) && T.TreeSane(fs, nodes, seen) && T.LinksRight(fs, nodes, links)
    requires path in links
    ensures j < |s.nodes| && Attached(s.nodes, j) && PathOf(s.nodes, j) == path && Target(s.nodes[j]) == links[path]
    ensures NoDots(PathOf(s.nodes, j))
  {
    hide AllShown, T.TreeSane, PathOf, T.Entries, NoDots, T.HasInode, T.Where;
    var k := links[path];
    assert T.LinkRight(fs, nodes, path, k);
    var q :| 0 <= q < |nodes| && T.LinkIn(fs, nodes, q, path, k) && T.HasInode(nodes, k);
    var p := NodeSeen(s, fs, inodes, area, nodes, seen, q);
    j := EntrySeen(s, fs, inodes, area, p, path[|path| - 1], k);
    assert path == path[..|path| - 1] + [path[|path| - 1]];
  }

  /** A directory has one name only. */
  lemma {:induction false} OneName(s: St, i: nat, j: nat)
    requires Inv(s.nodes, s.inodes) && LinksAgree(s.nodes) && i < |s.nodes| && j < |s.nodes| && Attached(s.nodes, j)
    requires IsDirNode(s.nodes, s.inodes, i) && Target(s.nodes[j]) == Target(s.nodes[i])
    ensures j == i
  {
    hide Attached, LinksAgree, FileCounts, DirCounts, RemovedDirs;
    assert s.nodes[j].link == None;
  }

  /** Whatever the tree has without dots on the way, the reader has, too. */
  lemma {:induction false} TreeSeen(s: St, fs: R.Objects, inodes: seq<Inode>, area: nat, nodes: seq<T.Tree>,
                                    seen: set<nat>, links: map<Path, nat>, visited: seq<nat>, j: nat)
    requires AllShown(s, fs, inodes, area) && T.Complete(fs, nodes, seen, links, visited)
    requires j < |s.nodes| && Attached(s.nodes, j) && NoDots(PathOf(s.nodes, j))
    ensures T.HasInode(nodes, Target(s.nodes[j])) && Sees(nodes, links, PathOf(s.nodes, j), Target(s.nodes[j]))
    decreases j
  {
    hide Inv, Attached, LinksAgree, Shown, PathOf, T.Entries, NoDots, T.TreeSane, T.Accounted, T.Opened, T.LinksRight,
         T.Where, IsDirNode, FindChild, Fine;
    InvWellFormed(s);
    if j == ROOT {
      RootPath(s.nodes);
      RootSeen(s, fs, nodes, seen, links);
    } else {
      ParentIn(s.nodes, j);
      var p := Parent(s.nodes, j);
      TreeSeen(s, fs, inodes, area, nodes, seen, links, visited, p);
      var i :| 0 <= i < |nodes| && nodes[i].inode == Target(s.nodes[p]);
      var q := NodeSeen(s, fs, inodes, area, nodes, seen, i);
      IsParent(s, p, j);
      OneName(s, p, q);
      SeenFine(s, fs, inodes, area, nodes, seen, i, p);
      FindsIt(s.nodes, p, j);
      EntriesAre(s, fs, inodes, area, p, s.nodes[j].name, Target(s.nodes[j]));
      KidSeen(fs, nodes, seen, links, visited, i, s.nodes[j].name, Target(s.nodes[j]));
      PathDown(s.nodes, j);
      if PathOf(s.nodes, j) in links {
        var c := LinkSeen(s, fs, inodes, area, nodes, seen, links, PathOf(s.nodes, j));
        LookupIff(s.nodes, PathOf(s.nodes, j), c);
        LookupIff(s.nodes, PathOf(s.nodes, j), j);
      }
    }
  }

  lemma RootSeen(s: St, fs: R.Objects, nodes: seq<T.Tree>, seen: set<nat>, links: map<Path, nat>)
    requires Inv(s.nodes, s.inodes) && T.TreeSane(fs, nodes, seen)
    ensures T.HasInode(nodes, Target(s.nodes[ROOT])) && Sees(nodes, links, [], Target(s.nodes[ROOT]))
  {
    hide WellFormed, KindsSane, FileCounts, DirCounts, RemovedDirs, T.ParentsFirst, T.Readable, T.IsDir;
    assert nodes[0].inode == Target(s.nodes[ROOT]) && T.Where(nodes, 0) == [];
  }

  lemma IsParent(s: St, p: nat, j: nat)
    requires Inv(s.nodes, s.inodes) && p < |s.nodes| && j in s.nodes[p].children
    ensures IsDirNode(s.nodes, s.inodes, p)
  {
    hide Attached, LinksAgree, FileCounts, DirCounts, RemovedDirs, IsDirNode;
    InvWellFormed(s);
    assert s.nodes[p].children != [];
  }

  lemma {:induction false} PathDown(nodes: Nodes, j: nat)
    requires LinksAgree(nodes) && 0 < j < |nodes|
    ensures Parent(nodes, j) < j && PathOf(nodes, j) == PathOf(nodes, Parent(nodes, j)) + [nodes[j].name]
  {
  }

  lemma {:induction false} SeenFine(s: St, fs: R.Objects, inodes: seq<Inode>, area: nat, nodes: seq<T.Tree>,
                                    seen: set<nat>, i: nat, p: nat)
    requires AllShown(s, fs, inodes, area) && T.TreeSane(fs, nodes, seen) && i < |nodes|
    requires p < |s.nodes| && Attached(s.nodes, p) && Target(s.nodes[p]) == nodes[i].inode
    ensures Fine(inodes, s.born, nodes[i].inode, area)
  {
    hide Inv, Attached, LinksAgree, Fine, T.Readable, T.IsDir, T.ParentsFirst, T.HasInode, T.Opens, T.Entries,
         IsDirNode;
    assert Shown(s, fs, inodes, area, p);
    assert nodes[i].inode in seen;
  }

  /** An entry of a directory with a node has a node or is a hard link. */
  lemma {:induction false} KidSeen(fs: R.Objects, nodes: seq<T.Tree>, seen: set<nat>, links: map<Path, nat>,
                                   visited: seq<nat>, i: nat, name: Name, k: nat)
    requires T.Complete(fs, nodes, seen, links, visited) && i < |nodes| && !T.IsDot(name)
    requires (name, k) in T.Entries(fs, nodes[i].inode)
    ensures T.HasInode(nodes, k)
    ensures Sees(nodes, links, T.Where(nodes, i) + [name], k) || T.Where(nodes, i) + [name] in links
  {
    hide T.Entries, T.Accounted, T.Opened, T.LinksRight, T.HasInode, T.Readable, T.IsDir, T.IsDot;
    var list := T.Entries(fs, nodes[i].inode);
    var x :| 0 <= x < |list| && list[x] == (name, k);
    T.TraversalComplete(fs, nodes, links, visited, i, x);
    if T.Where(nodes, i) + [name] !in links {
      var n :| 0 < n && T.SameNode(nodes, n, i, (name, k));
      assert nodes[n].parent < n;
      assert T.Where(nodes, n) == T.Where(nodes, i) + [name];
    }
  }

  /** Nodes and hard links together are exactly the paths of the tree without dots, each with its inode. */
  lemma {:induction false} SeesExactly(s: St, fs: R.Objects, inodes: seq<Inode>, area: nat, nodes: seq<T.Tree>,
                                       seen: set<nat>, links: map<Path, nat>, visited: seq<nat>, path: Path, k: nat)
    requires AllShown(s, fs, inodes, area) && T.Complete(fs, nodes, seen, links, visited)
    ensures Sees(nodes, links, path, k) <==> NoDots(path) && TargetOf(s.nodes, Lookup(s.nodes, path)) == Some(k)
  {
    hide Inv, Attached, LinksAgree, Shown, PathOf, T.Entries, NoDots, T.TreeSane, T.Accounted, T.Opened, T.LinksRight,
         T.Where, T.HasInode, Lookup;
    InvWellFormed(s);
    RootPath(s.nodes);
    if Sees(nodes, links, path, k) {
      var j;
      if path in links && links[path] == k {
        j := LinkSeen(s, fs, inodes, area, nodes, seen, links, path);
      } else {
        var i :| 0 <= i < |nodes| && T.Where(nodes, i) == path && nodes[i].inode == k;
        j := NodeSeen(s, fs, inodes, area, nodes, seen, i);
      }
      LookupIff(s.nodes, path, j);
    }
    if NoDots(path) && TargetOf(s.nodes, Lookup(s.nodes, path)) == Some(k) {
      var j := Lookup(s.nodes, path).value;
      LookupIff(s.nodes, path, j);
      TreeSeen(s, fs, inodes, area, nodes, seen, links, visited, j);
    }
  }

  // ----- Every symlink's target is text -----

  predicate Text(what: What) { what.MakeSymlink? ==> Utf8(what.target) }

  predicate AllText(ops: seq<Op>) {
    forall i :: 0 <= i < |ops| ==> ops[i].DoCreate? ==> Text(ops[i].what)
  }

  lemma ClearText(s: St, path: Path, what: What)
    requires |s.nodes| > 0 && Clear(s, path, what).Ready?
    ensures Clear(s, path, what).state.born == s.born
  {
    hide RemoveTree, Lookup;
    if Lookup(s.nodes, path).Some? { TreeLasting(s, Lookup(s.nodes, path).value); }
  }

  lemma InsertText(s: St, p: nat, name: Name, what: What, x: Xattrs)
    requires p < |s.nodes| && TextBorn(s.born) && Text(what)
    ensures TextBorn(Insert(s, p, name, what, x).state.born)
  {
    hide Utf8, AddChild, PlaceXattr, Stow;
    var r := Insert(s, p, name, what, x).state;
    forall k: nat {:trigger BornAt(r.born, k)} | BornAt(r.born, k).kind == Symlink
      ensures Utf8(BornAt(r.born, k).content)
    {
      assert k <= |s.born| ==> BornAt(r.born, k) == BornAt(s.born, k);
    }
  }

  lemma {:induction false} CreateText(s: St, path: Path, what: What, x: Xattrs)
    requires |s.nodes| > 0 && TextBorn(s.born) && Text(what)
    ensures TextBorn(Create(s, path, what, x).state.born)
    decreases |path|
  {
    hide TextBorn, Clear, Insert, Lookup, NamesFit, Utf8;
    if NamesFit(path) && Clear(s, path, what).Ready? {
      ClearText(s, path, what);
      var u := Clear(s, path, what).state;
      if path == [] {
        InsertText(u, ROOT, SLASH, what, x);
      } else {
        var parent := path[..|path| - 1];
        CreateText(u, parent, MakeDir, NoXattrs);
        var v := Create(u, parent, MakeDir, NoXattrs);
        if v.error == None && Lookup(v.state.nodes, parent).Some? {
          InsertText(v.state, Lookup(v.state.nodes, parent).value, path[|path| - 1], what, x);
        }
      }
    }
  }

  lemma {:induction false} StepText(s: St, op: Op)
    requires |s.nodes| > 0 && TextBorn(s.born) && (op.DoCreate? ==> Text(op.what))
    ensures TextBorn(Step(s, op).state.born)
  {
    hide TextBorn, Create, Lookup, RemoveTree, RemoveAll, NamesFit, Utf8, Components, RemoveChild, AddChild, Lasting;
    match op {
      case DoCreate(path, what, x) => CreateText(s, path, what, x);
      case DoLink(path, target) =>
        if Lookup(s.nodes, path).Some? { TreeLasting(s, Lookup(s.nodes, path).value); }
      case DoUnlink(path, whiteout) =>
        var found := Lookup(s.nodes, Components(path));
        if found.Some? {
          TreeLasting(s, found.value);
          AllLasting(s, found.value, s.nodes[found.value].children);
        }
    }
  }

  lemma {:induction false} RunText(s: St, ops: seq<Op>)
    requires |s.nodes| > 0 && TextBorn(s.born) && AllText(ops)
    ensures TextBorn(Run(s, ops).born)
    decreases |ops|
  {
    hide TextBorn, Step, Text;
    if ops != [] {
      StepText(s, ops[0]);
      RunText(Step(s, ops[0]).state, ops[1..]);
    }
  }

  lemma FreshText(size: positive)
    ensures TextBorn(Fresh(size).born)
  {
    hide Create, Utf8;
    CreateText(Blank(size), [LOST_AND_FOUND], MakeDir, NoXattrs);
  }

  // ----- Opening what was closed -----

  lemma {:induction false} ImageShown(s: St, order: seq<nat>, area: nat, fill: Fill, e: Disk, length: nat)
    requires Shut(s, order, area, fill, e, length) && TextBorn(s.born)
    ensures AllShown(s, R.ObjectsOf(e, length), CommitAll(s, order).state.inodes, area)
  {
    hide Shut, Inv, LinksAgree, Attached, TextBorn, Shown, CommitAll;
    ShutFacts(s, order, area, fill, e, length);
    forall i {:trigger Attached(s.nodes, i)} | 0 <= i < |s.nodes| && Attached(s.nodes, i)
      ensures Shown(s, R.ObjectsOf(e, length), CommitAll(s, order).state.inodes, area, i)
    {
      NodeShown(s, order, area, fill, e, length, i);
    }
  }

  lemma ShutFacts(s: St, order: seq<nat>, area: nat, fill: Fill, e: Disk, length: nat)
    requires Shut(s, order, area, fill, e, length)
    ensures Inv(s.nodes, s.inodes) && LinksAgree(s.nodes) && Listable(s.nodes) && VisitsAll(s.nodes, order)
    ensures |s.nodes| > 0
  {
    hide Inv, Owned, Kept, LinksAgree, Attached, Closes, Finished, SealLayout;
    InvWellFormed(s);
  }

  /** The reader opens a closed image if and only if everything that can be reached is fine. */
  lemma {:induction false} OpensIff(s: St, order: seq<nat>, area: nat, fill: Fill, e: Disk, length: nat)
    requires Shut(s, order, area, fill, e, length) && TextBorn(s.born)
    ensures T.AllReadable(R.ObjectsOf(e, length)) <==> ReachedFine(s, CommitAll(s, order).state.inodes, area)
  {
    hide Shut, Inv, LinksAgree, Attached, TextBorn, AllShown, CommitAll, T.AllReadable, ReachedFine, R.ObjectsOf;
    ShutFacts(s, order, area, fill, e, length);
    ImageShown(s, order, area, fill, e, length);
    ReadableIffFine(s, R.ObjectsOf(e, length), CommitAll(s, order).state.inodes, area);
  }

  /** A short symlink whose target does not clash, or anything else. */
  predicate Harmless(found: Found) { found.ASymlink? && |found.target| < 60 ==> !Clashes(found.target) }

  /** Where no leaf block is reserved, only clashing targets are in the way. */
  lemma {:induction false} FineIffHarmless(s: St, order: seq<nat>, area: nat, fill: Fill, e: Disk, length: nat)
    requires Shut(s, order, area, fill, e, length) && ClosesWell(s, order, area)
    ensures |s.nodes| > 0
    ensures ReachedFine(s, CommitAll(s, order).state.inodes, area) <==> forall path :: NoDots(path) ==>
            Harmless(Put(s, path))
  {
    hide Shut, Inv, LinksAgree, Attached, CommitAll, ClosesWell, Lookup, PathOf, Put, Harmless, Fine, NoDots;
    ShutFacts(s, order, area, fill, e, length);
    InvWellFormed(s);
    var inodes := CommitAll(s, order).state.inodes;
    if ReachedFine(s, inodes, area) {
      forall path | NoDots(path) ensures Harmless(Put(s, path)) {
        match Lookup(s.nodes, path) {
          case None => NothingHarmless(s, path);
          case Some(j) =>
            LookupIff(s.nodes, path, j);
            NodeHarmless(s, order, area, fill, e, length, path, j);
        }
      }
    }
    if forall path :: NoDots(path) ==> Harmless(Put(s, path)) {
      forall j {:trigger Attached(s.nodes, j)} | 0 <= j < |s.nodes| && Attached(s.nodes, j)
        && NoDots(PathOf(s.nodes, j))
        ensures Fine(inodes, s.born, Target(s.nodes[j]), area)
      {
        LookupIff(s.nodes, PathOf(s.nodes, j), j);
        assert Harmless(Put(s, PathOf(s.nodes, j)));
        NodeHarmless(s, order, area, fill, e, length, PathOf(s.nodes, j), j);
      }
    }
  }

  lemma NothingHarmless(s: St, path: Path)
    requires |s.nodes| > 0 && Lookup(s.nodes, path) == None
    ensures Harmless(Put(s, path))
  {
  }

  lemma {:induction false} NodeHarmless(s: St, order: seq<nat>, area: nat, fill: Fill, e: Disk, length: nat, path: Path,
                                        j: nat)
    requires Shut(s, order, area, fill, e, length) && ClosesWell(s, order, area)
    requires |s.nodes| > 0 && Lookup(s.nodes, path) == Some(j)
    ensures Fine(CommitAll(s, order).state.inodes, s.born, Target(s.nodes[j]), area) <==> Harmless(Put(s, path))
  {
    hide Owned, Kept, FileCounts, DirCounts, RemovedDirs, LinksAgree, Attached, CommitAll, Lookup, Clashes, IndexFree,
         Listable, Closes, Finished, SealLayout, SameTree, Holds, DirsFree, FilesFree;
    var r, k := CommitAll(s, order).state, Target(s.nodes[j]);
    InvWellFormed(s);
    CommitAllSame(s, order);
    CommitCounts(s, r);
    Reachable(s, r, path, j);
    TreeFacts(s, j);
    if IsDirNode(s.nodes, s.inodes, j) {
      DirFine(s, r.inodes, j, area);
    } else {
      FileHeldIff(s, order, k, area, fill);
      TreeFine(r.inodes, k, area);
    }
  }

  lemma {:induction false} DirFine(s: St, inodes: seq<Inode>, j: nat, area: nat)
    requires DirsFree(s, inodes, area) && j < |s.nodes| && LinksAgree(s.nodes) && Attached(s.nodes, j)
    requires IsCommitted(s.nodes, s.inodes, j)
    ensures IndexFree(InodeAt(inodes, s.nodes[j].inode).field, area)
  {
    hide IndexFree, LinksAgree, Attached;
  }

  lemma TreeFine(inodes: seq<Inode>, k: nat, area: nat)
    requires FilesFree(inodes, area) && FIRST_INODE <= k <= |inodes|
    ensures HasTree(InodeAt(inodes, k)) ==> IndexFree(InodeAt(inodes, k).field, area)
  {
    hide IndexFree;
  }

  /** Nodes and hard links lead to the inodes that going down the image by name finds. */
  lemma {:induction false} SeesWalks(s: St, order: seq<nat>, area: nat, fill: Fill, e: Disk, length: nat,
                                     nodes: seq<T.Tree>, seen: set<nat>, links: map<Path, nat>, visited: seq<nat>,
                                       path: Path, k: nat)
    requires Shut(s, order, area, fill, e, length) && TextBorn(s.born) && Legible(s, order, area)
    requires T.Complete(R.ObjectsOf(e, length), nodes, seen, links, visited) && Sees(nodes, links, path, k)
    ensures Walk(e, ROOT_INODE, path) == Some(k)
  {
    hide Good, CommitAll, Listable, Closes, Legible, LinksAgree, Attached, TextBorn, SealLayout, T.Complete, AllShown,
         R.ObjectsOf, NoDots, Sees, Walk, Lookup, SameOff, TableOn;
    ImageShown(s, order, area, fill, e, length);
    SeesExactly(s, R.ObjectsOf(e, length), CommitAll(s, order).state.inodes, area, nodes, seen, links, visited, path,
                k);
    LegibleImage(s, order, path, area, fill);
  }

  /** The run ends in an image that can be closed, as `e` in a file of `length` bytes. */
  ghost predicate Ends(size: positive, ops: seq<Op>, order: seq<nat>, fill: Fill, e: Disk, length: nat) {
    && AllAllowed(Fresh(size), ops) && |Run(Fresh(size), ops).inodes| < 0x1_0000_0000
    && VisitsAll(Last(size, ops).nodes, order) && Closes(Last(size, ops), order, Area(size))
    && Finished(Last(size, ops), order, fill).Closed? && Finished(Last(size, ops), order, fill).disk == e
    && length == SealLayout(CommitAll(Last(size, ops), order).state).size
  }

  lemma {:induction false} EndsShut(size: positive, ops: seq<Op>, order: seq<nat>, fill: Fill, e: Disk, length: nat)
    requires Ends(size, ops, order, fill, e, length)
    ensures Shut(Last(size, ops), order, Area(size), fill, e, length)
    ensures (AllText(ops) ==> TextBorn(Last(size, ops).born))
  {
    hide Run, Fresh, AllAllowed, Good, CommitAll, Listable, Finished, Closes, LinksAgree, Attached, Last, TextBorn,
         AllText, SealLayout;
    FreshText(size);
    if AllText(ops) { RunText(Fresh(size), ops); }
  }

  /** For every run: the reader opens the finished image if and only if all that can be reached is fine. Where closing
      left all leaf blocks alone, that is if and only if no short symlink was told to have a target that begins with the
      bytes 0A F3. */
  lemma {:induction false} ReaderOpensIff(size: positive, ops: seq<Op>, order: seq<nat>, fill: Fill, e: Disk,
                                          length: nat)
    requires Ends(size, ops, order, fill, e, length) && M.AllSucceed(Fresh(size), ops) && AllText(ops)
    ensures var s := Last(size, ops);
            && (T.AllReadable(R.ObjectsOf(e, length)) <==> ReachedFine(s, CommitAll(s, order).state.inodes, Area(size)))
            && (ClosesWell(s, order, Area(size)) ==>
                  (T.AllReadable(R.ObjectsOf(e, length)) <==> forall path :: NoDots(path) ==>
                   Harmless(M.Expect(ops, M.Empty, path))))
  {
    hide Run, Fresh, AllAllowed, M.AllSucceed, Good, CommitAll, Listable, Closes, ClosesWell, Finished, LinksAgree,
         Attached, Last, TextBorn, AllText, Put, M.Expect, Shut, SealLayout, T.AllReadable, ReachedFine, R.ObjectsOf,
         Harmless, NoDots;
    var s := Last(size, ops);
    EndsShut(size, ops, order, fill, e, length);
    OpensIff(s, order, Area(size), fill, e, length);
    if ClosesWell(s, order, Area(size)) {
      FineIffHarmless(s, order, Area(size), fill, e, length);
      forall path ensures Put(s, path) == M.Expect(ops, M.Empty, path) { M.RunMeans(size, ops, path); }
      assert (forall path :: NoDots(path) ==> Harmless(Put(s, path))) <==> forall path :: NoDots(path) ==>
        Harmless(M.Expect(ops, M.Empty, path));
    }
  }

  /** Once it is open, its nodes and hard links together are exactly the paths at which the run leaves anything. */
  lemma {:induction false} ReaderSees(size: positive, ops: seq<Op>, order: seq<nat>, fill: Fill, e: Disk, length: nat,
                                      nodes: seq<T.Tree>, seen: set<nat>, links: map<Path, nat>, visited: seq<nat>,
                                        path: Path)
    requires Ends(size, ops, order, fill, e, length) && M.AllSucceed(Fresh(size), ops) && AllText(ops)
    requires T.Complete(R.ObjectsOf(e, length), nodes, seen, links, visited)
    ensures (exists k: nat :: Sees(nodes, links, path, k)) <==> NoDots(path) && M.Expect(ops, M.Empty, path) != Nothing
  {
    hide Run, Fresh, AllAllowed, M.AllSucceed, Good, CommitAll, Listable, Closes, Finished, LinksAgree, Attached, Last,
         TextBorn, AllText, M.Expect, Shut, SealLayout, T.Complete, AllShown, R.ObjectsOf, NoDots, Sees, Lookup;
    var s := Last(size, ops);
    EndsShut(size, ops, order, fill, e, length);
    ImageShown(s, order, Area(size), fill, e, length);
    M.RunMeans(size, ops, path);
    var fs, inodes := R.ObjectsOf(e, length), CommitAll(s, order).state.inodes;
    forall k: nat
      ensures Sees(nodes, links, path, k) <==> NoDots(path) && TargetOf(s.nodes, Lookup(s.nodes, path)) == Some(k)
    {
      SeesExactly(s, fs, inodes, Area(size), nodes, seen, links, visited, path, k);
    }
    if NoDots(path) && Lookup(s.nodes, path).Some? {
      assert Sees(nodes, links, path, Target(s.nodes[Lookup(s.nodes, path).value]));
    }
  }
}
