/** The image read back as a tree: going down its directories by name leads from the root to exactly
    the inodes that the formatter's own tree has there. */
module Walking {
  import opened Bytes
  import opened Geometry
  import opened Payload
  import opened Placement
  import opened Extents
  import opened Contents
  import opened FileTree
  import opened Fs
  import opened Namespace
  import opened Ownership
  import opened Pruning
  import opened Creating
  import opened Keeping
  import opened Directories
  import opened Committing
  import opened Records

  type Listing = seq<(Name, nat)>

  // ----- A directory as the reader sees it -----

  function PlaceName(list: Listing, e: (Name, nat)): Listing {
    if list == [] || !Less(e.0, list[|list| - 1].0) then list + [e]
    else PlaceName(list[..|list| - 1], e) + [list[|list| - 1]]
  }

  /** Entries in the order of their names; entries of one name keep their order. */
  function SortNames(list: Listing): Listing {
    if list == [] then [] else PlaceName(SortNames(list[..|list| - 1]), list[|list| - 1])
  }

  /** The first entry of that name. */
  function FindName(list: Listing, name: Name): Option<nat> {
    if list == [] then None else if list[0].0 == name then Some(list[0].1) else FindName(list[1..], name)
  }

  function ReadDir(d: Disk, field: seq<byte>): Option<Listing>
    requires |field| == INODE_BLOCK_SIZE
  {
    match ParseExtents(d, field)
    case Ranges(ranges) => Some(SortNames(ParseBlocks(Flat(d, ranges))))
    case _ => None
  }

  /** Go down from inode `k` along the names, through directories only; inodes and directories are read from
      the image. */
  function Walk(d: Disk, k: nat, path: Path): Option<nat>
    decreases |path|
  {
    if path == [] then Some(k)
    else
      var ino := ReadInode(d, k);
      if ino.kind != Directory then None
      else
        match ReadDir(d, ino.field)
        case None => None
        case Some(list) =>
          match FindName(list, path[0])
          case None => None
          case Some(c) => Walk(d, c, path[1..])
  }

  // ----- Finding a name does not depend on the sorting -----

  lemma {:induction false} FindAppend(a: Listing, b: Listing, name: Name)
    ensures FindName(a + b, name) == if FindName(a, name).Some? then FindName(a, name) else FindName(b, name)
  {
    if a == [] {
      assert a + b == b;
    } else {
      assert (a + b)[1..] == a[1..] + b;
      FindAppend(a[1..], b, name);
    }
  }

  lemma {:induction false} FindOne(e: (Name, nat), name: Name)
    ensures FindName([e], name) == if e.0 == name then Some(e.1) else None
  {
    assert [e][1..] == [];
  }

  lemma {:induction false} FindPlaced(list: Listing, e: (Name, nat), name: Name)
    ensures FindName(PlaceName(list, e), name) == FindName(list + [e], name)
  {
    hide FindName;
    if list != [] && Less(e.0, list[|list| - 1].0) {
      var n := |list| - 1;
      var init, last := list[..n], list[n];
      assert list == init + [last];
      FindPlaced(init, e, name);
      FindAppend(PlaceName(init, e), [last], name);
      FindAppend(init, [e], name);
      FindAppend(list, [e], name);
      FindAppend(init, [last], name);
      FindOne(e, name);
      FindOne(last, name);
      LessDiffers(e.0);
    }
  }

  lemma {:induction false} FindSorted(list: Listing, name: Name)
    ensures FindName(SortNames(list), name) == FindName(list, name)
  {
    hide FindName;
    if list != [] {
      var n := |list| - 1;
      var init, last := list[..n], list[n];
      assert list == init + [last];
      FindSorted(init, name);
      FindPlaced(SortNames(init), last, name);
      FindAppend(SortNames(init), [last], name);
      FindAppend(init, [last], name);
    }
  }

  // ----- What a directory of the tree lists -----

  ghost predicate HasLinks(nodes: Nodes, inodes: seq<Inode>, c: nat) {
    c < |nodes| && InodeAt(inodes, Target(nodes[c])).links > 0
  }

  lemma PairsSnoc(entries: seq<Entry>, e: Entry)
    ensures Pairs(entries + [e]) == Pairs(entries) + [(e.name, e.inode)]
  {
  }

  /** A name that no listed child has is not found. */
  lemma {:induction false} KidMissing(nodes: Nodes, inodes: seq<Inode>, list: seq<nat>, name: Name)
    requires forall x :: 0 <= x < |list| ==> HasLinks(nodes, inodes, list[x]) && nodes[list[x]].name != name
    ensures FindName(Pairs(KidEntries(nodes, inodes, list)), name) == None
  {
    hide FindName, Pairs;
    if list == [] {
      NothingFound(name);
    } else {
      var n := |list| - 1;
      KidMissing(nodes, inodes, list[..n], name);
      var e := EntryFor(nodes, inodes, list[n]);
      PairsSnoc(KidEntries(nodes, inodes, list[..n]), e);
      FindAppend(Pairs(KidEntries(nodes, inodes, list[..n])), [(e.name, e.inode)], name);
      FindOne((e.name, e.inode), name);
    }
  }

  lemma {:induction false} NothingFound(name: Name)
    ensures FindName(Pairs([]), name) == None
  {
  }

  /** A name that one listed child has leads to that child's inode. */
  lemma {:induction false} KidListed(nodes: Nodes, inodes: seq<Inode>, list: seq<nat>, c: nat)
    requires forall x :: 0 <= x < |list| ==> HasLinks(nodes, inodes, list[x])
    requires c in list && c < |nodes|
    requires forall x :: 0 <= x < |list| && list[x] != c && list[x] < |nodes| ==> nodes[list[x]].name != nodes[c].name
    ensures FindName(Pairs(KidEntries(nodes, inodes, list)), nodes[c].name) == Some(Target(nodes[c]))
  {
    hide FindName, Pairs;
    var n := |list| - 1;
    var init, last := list[..n], list[n];
    var e := EntryFor(nodes, inodes, last);
    PairsSnoc(KidEntries(nodes, inodes, init), e);
    FindAppend(Pairs(KidEntries(nodes, inodes, init)), [(e.name, e.inode)], nodes[c].name);
    FindOne((e.name, e.inode), nodes[c].name);
    if c in init {
      KidListed(nodes, inodes, init, c);
    } else {
      KidMissing(nodes, inodes, init, nodes[c].name);
    }
  }

  lemma {:induction false} SortMembers(nodes: Nodes, kids: seq<nat>, c: nat)
    ensures c in SortKids(nodes, kids) <==> c in kids
  {
    assert c in multiset(SortKids(nodes, kids)) <==> c in multiset(kids);
  }

  /** The names in a directory's list are those of its children, and lead where they lead. */
  lemma {:induction false} ListFinds(nodes: Nodes, inodes: seq<Inode>, i: nat, name: Name)
    requires WellFormed(nodes) && i < |nodes| && name != DOT && name != DOTDOT
    requires forall k :: 0 <= k < |nodes[i].children| ==> HasLinks(nodes, inodes, nodes[i].children[k])
    ensures FindName(Pairs(DirList(nodes, inodes, i)), name) ==
              match FindChild(nodes, nodes[i].children, name) {
                case None => None case Some(c) => Some(Target(nodes[c]))
              }
  {
    hide FindName, KidEntries, SortKids, Pairs, FindChild, LinksAgree;
    var kids := nodes[i].children;
    var list := SortKids(nodes, kids);
    var entries := KidEntries(nodes, inodes, list);
    DotsSkipped(DirList(nodes, inodes, i), entries, name);
    forall x | 0 <= x < |list| ensures list[x] in kids && HasLinks(nodes, inodes, list[x]) {
      SortMembers(nodes, kids, list[x]);
    }
    SiblingNames(nodes, i);
    match FindChild(nodes, kids, name) {
      case Some(c) =>
        SortMembers(nodes, kids, c);
        KidListed(nodes, inodes, list, c);
      case None =>
        forall x | 0 <= x < |list| ensures nodes[list[x]].name != name {
          if nodes[list[x]].name == name { FindsIt(nodes, i, list[x]); }
        }
        KidMissing(nodes, inodes, list, name);
    }
  }

  lemma {:induction false} FindsIt(nodes: Nodes, i: nat, c: nat)
    requires WellFormed(nodes) && i < |nodes| && c in nodes[i].children && c < |nodes|
    ensures FindChild(nodes, nodes[i].children, nodes[c].name) == Some(c)
  {
    assert SiblingsDiffer(nodes, nodes[i].children);
    FindChildFinds(nodes, nodes[i].children, c);
  }

  lemma SiblingNames(nodes: Nodes, i: nat)
    requires WellFormed(nodes) && i < |nodes|
    ensures forall c, d :: c in nodes[i].children && d in nodes[i].children && c < |nodes| && d < |nodes| && c != d ==>
            nodes[c].name != nodes[d].name
  {
    var kids := nodes[i].children;
    assert SiblingsDiffer(nodes, kids);
    forall c, d | c in kids && d in kids && c < |nodes| && d < |nodes| && c != d
      ensures nodes[c].name != nodes[d].name
    {
      var j :| 0 <= j < |kids| && kids[j] == c;
      var k :| 0 <= k < |kids| && kids[k] == d;
    }
  }

  lemma {:induction false} DotsSkipped(all: seq<Entry>, entries: seq<Entry>, name: Name)
    requires |all| == |entries| + 2 && all[2..] == entries && all[0].name == DOT && all[1].name == DOTDOT && name != DOT
    requires name != DOTDOT
    ensures FindName(Pairs(all), name) == FindName(Pairs(entries), name)
  {
    hide FindName;
    var a, b := (all[0].name, all[0].inode), (all[1].name, all[1].inode);
    assert Pairs(all) == [a] + ([b] + Pairs(entries));
    FindAppend([a], [b] + Pairs(entries), name);
    FindAppend([b], Pairs(entries), name);
    FindOne(a, name);
    FindOne(b, name);
  }

  // ----- The committed image -----

  lemma {:induction false} WholeBlocks(d: Disk, field: seq<byte>, entries: seq<Entry>)
    requires AllStorable(entries) && HoldsFile(d, field, DirBytes(entries))
    ensures |field| == 60 && ParseExtents(d, field).Ranges?
    ensures ParseBlocks(Flat(d, ParseExtents(d, field).ranges)) == Pairs(entries)
  {
    hide ParseExtents, Flat, DirBytes, ParseBlocks, Pairs;
    var ranges := ParseExtents(d, field).ranges;
    DirectoryRoundTrip(entries);
    FlatLength(d, ranges);
    var a, b := Total(ranges), |Pack([], entries)|;
    assert BLOCK * b <= BLOCK * a < BLOCK * b + BLOCK;
    assert a == b;
    WholePrefix(DirBytes(entries), Flat(d, ranges));
  }

  lemma WholePrefix(a: seq<byte>, b: seq<byte>)
    requires a <= b && |a| == |b|
    ensures a == b
  {
  }

  /** The image `e` holds the directory of node `i` where inode table `inodes` says. */
  ghost predicate DirOn(s: St, e: Disk, inodes: seq<Inode>, i: nat)
    requires i < |s.nodes| && Listable(s.nodes)
  {
    IsCommitted(s.nodes, s.inodes, i) ==>
      HoldsFile(e, InodeAt(inodes, s.nodes[i].inode).field, DirImage(s.nodes, s.inodes, i))
  }

  /** A directory that is on the image is read as its list. */
  lemma DirReads(s: St, e: Disk, inodes: seq<Inode>, i: nat)
    requires i < |s.nodes| && Listable(s.nodes) && IsCommitted(s.nodes, s.inodes, i) && DirOn(s, e, inodes, i)
    ensures var ino := InodeAt(inodes, s.nodes[i].inode);
            |ino.field| == 60 && ReadDir(e, ino.field) == Some(SortNames(Pairs(DirList(s.nodes, s.inodes, i))))
  {
    hide ParseExtents, Flat, DirBytes, ParseBlocks, Pairs, DirList, HoldsFile;
    var ino := InodeAt(inodes, s.nodes[i].inode);
    DirStorable(s.nodes, s.inodes, i);
    WholeBlocks(e, ino.field, DirList(s.nodes, s.inodes, i));
  }

  lemma ItselfHolds(d: Disk, field: seq<byte>, bytes: seq<byte>, hi: nat)
    requires KeepsFile(d, field, bytes, hi)
    ensures HoldsFile(d, field, bytes)
  {
    hide HoldsFile;
    assert SameBelow(d, d, hi);
  }

  /** What the walk needs of the tree: attached nodes are in use and only directories have children. */
  lemma {:induction false} TreeFacts(s: St, i: nat)
    requires Inv(s.nodes, s.inodes) && i < |s.nodes| && LinksAgree(s.nodes) && Attached(s.nodes, i)
    ensures InodeAt(s.inodes, Target(s.nodes[i])).links > 0
    ensures !IsDirNode(s.nodes, s.inodes, i) ==>
            s.nodes[i].children == [] && InodeAt(s.inodes, Target(s.nodes[i])).kind != Directory
    ensures IsDirNode(s.nodes, s.inodes, i) ==> IsCommitted(s.nodes, s.inodes, i)
  {
    hide RemovedDirs, LinksAgree;
    InvWellFormed(s);
    var k := Target(s.nodes[i]);
    if IsDirNode(s.nodes, s.inodes, i) {
      assert InodeAt(s.inodes, k).links == 2 + |DirKids(s.nodes, s.inodes, i)|;
    } else {
      assert k >= FIRST_INODE;
      assert IsFile(InodeAt(s.inodes, k).kind);
    }
  }

  ghost predicate NoDots(path: Path) {
    forall x :: 0 <= x < |path| ==> path[x] != DOT && path[x] != DOTDOT
  }

  function TargetOf(nodes: Nodes, found: Option<nat>): Option<nat>
    requires found.Some? ==> found.value < |nodes|
  {
    match found case None => None case Some(c) => Some(Target(nodes[c]))
  }

  /** The image has the inode of every node that can be reached. */
  ghost predicate TableOn(s: St, e: Disk, inodes: seq<Inode>) {
    forall i {:trigger s.nodes[i]} :: 0 <= i < |s.nodes| && LinksAgree(s.nodes) && Attached(s.nodes, i) ==>
      ReadInode(e, Target(s.nodes[i])) == Low(InodeAt(inodes, Target(s.nodes[i])))
  }

  /** From any attached node on, the walk over the image and the lookup in the tree agree. */
  lemma {:induction false} WalkFrom(s: St, r: St, e: Disk, i: nat, path: Path)
    requires Sound(s) && LinksAgree(s.nodes) && i < |s.nodes| && Attached(s.nodes, i) && Listable(s.nodes)
    requires SameTree(s, r) && TableOn(s, e, r.inodes)
    requires forall j :: 0 <= j < |s.nodes| && Attached(s.nodes, j) ==> DirOn(s, e, r.inodes, j)
    requires NoDots(path)
    ensures Walk(e, Target(s.nodes[i]), path) == TargetOf(s.nodes, LookupFrom(s.nodes, i, path))
    decreases |path|
  {
    hide Sound, Inv, Attached, LinksAgree, ReadDir, FindName, FindChild, DirOn, Listable, SameTree, InodeAt, IsDirNode,
         WellFormed, ReadInode, TableOn;
    if path != [] {
      WalkOne(s, r, e, i, path[0]);
      if IsDirNode(s.nodes, s.inodes, i) {
        var found := FindChild(s.nodes, s.nodes[i].children, path[0]);
        if found.Some? {
          ChildIsAttached(s.nodes, i, found.value);
          WalkFrom(s, r, e, found.value, path[1..]);
        }
      } else {
        NoChild(s.nodes, path[0]);
      }
    }
  }

  /** One step of the walk. */
  lemma {:induction false} WalkOne(s: St, r: St, e: Disk, i: nat, name: Name)
    requires Sound(s) && LinksAgree(s.nodes) && i < |s.nodes| && Attached(s.nodes, i) && Listable(s.nodes)
    requires SameTree(s, r) && TableOn(s, e, r.inodes)
    requires DirOn(s, e, r.inodes, i) && name != DOT && name != DOTDOT
    ensures var ino := ReadInode(e, Target(s.nodes[i]));
            if IsDirNode(s.nodes, s.inodes, i) then
              && ino.kind == Directory && |ino.field| == INODE_BLOCK_SIZE && ReadDir(e, ino.field).Some?
              && FindName(ReadDir(e, ino.field).value, name)
                 == TargetOf(s.nodes, FindChild(s.nodes, s.nodes[i].children, name))
            else ino.kind != Directory && s.nodes[i].children == []
  {
    hide Inv, Owned, Attached, LinksAgree, ReadDir, FindName, FindChild, DirOn, Listable, DirList, Pairs, SortNames,
         ReadInode;
    InvWellFormed(s);
    TreeFacts(s, i);
    var k := Target(s.nodes[i]);
    assert InodeAt(r.inodes, k).kind == InodeAt(s.inodes, k).kind;
    if IsDirNode(s.nodes, s.inodes, i) {
      DirReads(s, e, r.inodes, i);
      ChildrenLinked(s, i);
      ListFinds(s.nodes, s.inodes, i, name);
      FindSorted(Pairs(DirList(s.nodes, s.inodes, i)), name);
    }
  }

  lemma {:induction false} NoChild(nodes: Nodes, name: Name)
    ensures FindChild(nodes, [], name) == None
  {
  }

  lemma {:induction false} ChildIsAttached(nodes: Nodes, i: nat, c: nat)
    requires LinksAgree(nodes) && i < |nodes| && Attached(nodes, i) && c in nodes[i].children
    ensures c < |nodes| && Attached(nodes, c)
  {
  }

  lemma {:induction false} ChildrenLinked(s: St, i: nat)
    requires Inv(s.nodes, s.inodes) && i < |s.nodes| && LinksAgree(s.nodes) && Attached(s.nodes, i)
    ensures forall k :: 0 <= k < |s.nodes[i].children| ==> HasLinks(s.nodes, s.inodes, s.nodes[i].children[k])
  {
    hide Inv, Attached, LinksAgree;
    forall k | 0 <= k < |s.nodes[i].children| ensures HasLinks(s.nodes, s.inodes, s.nodes[i].children[k]) {
      ChildIsAttached(s.nodes, i, s.nodes[i].children[k]);
      TreeFacts(s, s.nodes[i].children[k]);
    }
  }

  /** The leaf blocks of all directories in the tree lie outside the reserved areas. */
  ghost predicate DirsFree(s: St, inodes: seq<Inode>, area: nat) {
    forall i {:trigger IsCommitted(s.nodes, s.inodes, i)} ::
      0 <= i < |s.nodes| && LinksAgree(s.nodes) && Attached(s.nodes, i) && IsCommitted(s.nodes, s.inodes, i) ==>
      IndexFree(InodeAt(inodes, s.nodes[i].inode).field, area)
  }

  lemma HeldOn(s: St, r: St, i: nat, area: nat, e: Disk)
    requires i < |s.nodes| && Listable(s.nodes) && DirHeld(s, r, i, area)
    requires SameOff(r.store.disk, e, Top(r.store), area)
    requires IsCommitted(s.nodes, s.inodes, i) ==> IndexFree(InodeAt(r.inodes, s.nodes[i].inode).field, area)
    ensures DirOn(s, e, r.inodes, i)
  {
    hide DirImage, HoldsFile, SameOff, IndexFree, KeepsFile, Placed;
  }

  /** On an image that has the inodes and the blocks outside the reserved areas as they were once all directories were
      written, every path leads to the inode it has in the tree, and a path that is not in the tree leads nowhere. */
  lemma {:induction false} ImageIsTheTree(s: St, order: seq<nat>, path: Path, area: nat, e: Disk)
    requires Sound(s) && Listable(s.nodes) && Distinct(order) && NoDots(path) && |s.nodes| > 0
    requires area <= Area(s.store.size)
    requires LinksAgree(s.nodes) && forall j :: j in order <==> 0 <= j < |s.nodes| && Attached(s.nodes, j)
    requires forall x :: 0 <= x < |order| ==> order[x] < |s.nodes|
    requires var r := CommitAll(s, order);
             && r.error == None && Fits(r.state.store) && DirsFree(s, r.state.inodes, area)
             && SameOff(r.state.store.disk, e, Top(r.state.store), area) && TableOn(s, e, r.state.inodes)
    ensures Walk(e, ROOT_INODE, path) == TargetOf(s.nodes, Lookup(s.nodes, path))
  {
    hide Owned, FileCounts, DirCounts, RemovedDirs, KindsSane, CommitAll, SameTree, Listable, DirHeld, DirOn, Attached,
         LinksAgree, OtherInodes, Past, SameOff, Area, TableOn, IndexFree;
    InvWellFormed(s);
    var r := CommitAll(s, order).state;
    CommitAllSame(s, order);
    CommitAllHolds(s, order, area);
    forall j | 0 <= j < |s.nodes| && Attached(s.nodes, j) ensures DirOn(s, e, r.inodes, j) {
      var x :| 0 <= x < |order| && order[x] == j;
      HeldOn(s, r, j, area, e);
    }
    RootAttached(s.nodes);
    WalkFrom(s, r, e, ROOT, path);
  }

  lemma {:induction false} RootAttached(nodes: Nodes)
    requires LinksAgree(nodes)
    ensures Attached(nodes, ROOT)
  {
  }

  /** ... and every file and symlink still leads to its content. */
  lemma {:induction false} FilesSurvive(s: St, order: seq<nat>, k: nat, area: nat)
    requires Sound(s) && Kept(s, area) && Listable(s.nodes) && Distinct(order)
    requires (forall x :: 0 <= x < |order| ==> order[x] < |s.nodes|)
    requires Fits(CommitAll(s, order).state.store) && FIRST_INODE <= k <= |s.inodes|
    requires IsFile(InodeAt(s.inodes, k).kind)
    ensures var r := CommitAll(s, order).state;
            InodeAt(r.inodes, k) == InodeAt(s.inodes, k)
              && Holds(r.store, InodeAt(r.inodes, k), BornAt(s.born, k), area)
  {
    hide FileCounts, DirCounts, RemovedDirs, KindsSane, CommitAll, Listable, AllHeld, Past, Holds, Origins, SetAside,
         DeletedExactly, BornSane, Area;
    var r := CommitAll(s, order).state;
    CommitAllHolds(s, order, area);
    PastFits(s.store, r.store);
    assert Holds(s.store, InodeAt(s.inodes, k), BornAt(s.born, k), area);
    BornLength(s);
    PastSame(s.store, r.store, BornAt(s.born, k).hi);
    HoldsOn(s.store, r.store, InodeAt(s.inodes, k), InodeAt(s.inodes, k), BornAt(s.born, k), area);
  }

  lemma PastSame(s: Store, t: Store, hi: nat)
    requires Past(s, t) && hi <= Top(s)
    ensures SameBelow(s.disk, t.disk, hi)
  {
  }
}
