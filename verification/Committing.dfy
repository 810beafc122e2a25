/** Writing out the directories when the image is closed: what each directory lists, where the lists
    go, and that the image then holds every directory besides every file. */
module Committing {
  import opened Bytes
  import opened Geometry
  import opened Payload
  import opened Placement
  import opened Contents
  import opened FileTree
  import opened Fs
  import opened Creating
  import opened Keeping
  import opened Directories

  function KindCode(k: Kind): byte {
    match k
    case Unused => 0
    case Regular => 1
    case Directory => 2
    case Symlink => 7
  }

  // ----- What a directory lists -----

  function InodeOf(nodes: Nodes, c: nat): nat { if c < |nodes| then nodes[c].inode else 0 }

  /** Put a child behind all whose inode number is not larger. */
  function Place(nodes: Nodes, list: seq<nat>, c: nat): (r: seq<nat>)
    ensures multiset(r) == multiset(list) + multiset{c}
  {
    if list == [] then [c]
    else
      var n := |list| - 1;
      assert list == list[..n] + [list[n]];
      if InodeOf(nodes, list[n]) <= InodeOf(nodes, c) then list + [c]
      else Place(nodes, list[..n], c) + [list[n]]
  }

  /** Children in the order of their nodes' inode numbers; equal ones keep their order. */
  function SortKids(nodes: Nodes, kids: seq<nat>): (r: seq<nat>)
    ensures multiset(r) == multiset(kids)
  {
    if kids == [] then []
    else
      var n := |kids| - 1;
      assert kids == kids[..n] + [kids[n]];
      Place(nodes, SortKids(nodes, kids[..n]), kids[n])
  }

  ghost predicate Sorted(nodes: Nodes, list: seq<nat>) {
    forall a, b :: 0 <= a < b < |list| ==> InodeOf(nodes, list[a]) <= InodeOf(nodes, list[b])
  }

  lemma {:induction false} PlaceSorted(nodes: Nodes, list: seq<nat>, c: nat)
    requires Sorted(nodes, list)
    ensures Sorted(nodes, Place(nodes, list, c))
  {
    if list != [] {
      var n := |list| - 1;
      if InodeOf(nodes, list[n]) > InodeOf(nodes, c) {
        PlaceSorted(nodes, list[..n], c);
        var r := Place(nodes, list[..n], c);
        forall a | 0 <= a < |r| ensures InodeOf(nodes, r[a]) <= InodeOf(nodes, list[n]) {
          assert r[a] in multiset(r);
          if r[a] != c { assert r[a] in list[..n]; }
        }
      }
    }
  }

  lemma {:induction false} SortKidsSorted(nodes: Nodes, kids: seq<nat>)
    ensures Sorted(nodes, SortKids(nodes, kids))
  {
    if kids != [] {
      var n := |kids| - 1;
      SortKidsSorted(nodes, kids[..n]);
      PlaceSorted(nodes, SortKids(nodes, kids[..n]), kids[n]);
    }
  }

  /** The entry for child `c`: a hard link is listed with the inode it leads to. */
  function EntryFor(nodes: Nodes, inodes: seq<Inode>, c: nat): Entry
    requires c < |nodes|
  {
    Entry(nodes[c].name, Target(nodes[c]), KindCode(InodeAt(inodes, Target(nodes[c])).kind))
  }

  /** The entries of the listed children whose inode has links. */
  function KidEntries(nodes: Nodes, inodes: seq<Inode>, list: seq<nat>): seq<Entry> {
    if list == [] then []
    else
      var n := |list| - 1;
      var init, c := KidEntries(nodes, inodes, list[..n]), list[n];
      if c < |nodes| && InodeAt(inodes, Target(nodes[c])).links > 0 then init + [EntryFor(nodes, inodes, c)] else init
  }

  function DirList(nodes: Nodes, inodes: seq<Inode>, i: nat): seq<Entry>
    requires i < |nodes|
  {
    var up := InodeOf(nodes, Parent(nodes, i));
    [Entry(DOT, nodes[i].inode, KindCode(InodeAt(inodes, nodes[i].inode).kind)),
     Entry(DOTDOT, up, KindCode(InodeAt(inodes, up).kind))]
    + KidEntries(nodes, inodes, SortKids(nodes, nodes[i].children))
  }

  /** Names and inode numbers that fit a directory record. */
  ghost predicate Listable(nodes: Nodes) {
    forall i :: 0 <= i < |nodes| ==>
      && |nodes[i].name| <= 255 && 0 < nodes[i].inode < 0x1_0000_0000 && 0 < Target(nodes[i]) < 0x1_0000_0000
      && Parent(nodes, i) < |nodes|
  }

  lemma {:induction false} KidsStorable(nodes: Nodes, inodes: seq<Inode>, list: seq<nat>)
    requires Listable(nodes)
    ensures AllStorable(KidEntries(nodes, inodes, list))
  {
    if list != [] { KidsStorable(nodes, inodes, list[..|list| - 1]); }
  }

  lemma DirStorable(nodes: Nodes, inodes: seq<Inode>, i: nat)
    requires Listable(nodes) && i < |nodes|
    ensures AllStorable(DirList(nodes, inodes, i))
  {
    KidsStorable(nodes, inodes, SortKids(nodes, nodes[i].children));
  }

  /** The blocks of a directory. */
  function DirImage(nodes: Nodes, inodes: seq<Inode>, i: nat): seq<byte>
    requires Listable(nodes) && i < |nodes|
  {
    DirStorable(nodes, inodes, i);
    DirBytes(DirList(nodes, inodes, i))
  }

  // ----- Writing one directory, and all of them -----

  /** Directories with links are written; everything else is passed over. */
  predicate IsCommitted(nodes: Nodes, inodes: seq<Inode>, i: nat) {
    IsDirNode(nodes, inodes, i) && InodeAt(inodes, nodes[i].inode).links > 0
  }

  function CommitDir(s: St, i: nat): (r: Outcome)
    requires i < |s.nodes| && Listable(s.nodes)
  {
    if !IsCommitted(s.nodes, s.inodes, i) then Outcome(s, None)
    else
      var bytes := DirImage(s.nodes, s.inodes, i);
      var w := WriteAligned(s.store, bytes);
      var k := s.nodes[i].inode;
      match Finish(w, |bytes|)
      case Stowed(store, field, ranges, size) =>
        Outcome(s.(store := store,
                   inodes := SetInode(s.inodes, k, InodeAt(s.inodes, k).(size := size, field := field)),
                   nodes := s.nodes[i := s.nodes[i].(ranges := ranges)]), None)
      case _ => Outcome(s.(store := SkipReserved(w.store)), Some(TooManyExtents))
  }

  /** Same tree and inodes but for the block ranges of nodes and the size and block field of inodes. */
  ghost predicate SameTree(s: St, r: St) {
    && |r.nodes| == |s.nodes| && |r.inodes| == |s.inodes|
    && r.deleted == s.deleted && r.deferred == s.deferred && r.born == s.born
    && (forall j :: 0 <= j < |s.nodes| ==> r.nodes[j] == s.nodes[j].(ranges := r.nodes[j].ranges))
    && (forall k {:trigger InodeAt(r.inodes, k)} ::
        InodeAt(r.inodes, k) == InodeAt(s.inodes, k).(size := InodeAt(r.inodes, k).size,
                                                      field := InodeAt(r.inodes, k).field))
  }

  lemma SameListable(s: St, r: St)
    requires SameTree(s, r) && Listable(s.nodes)
    ensures Listable(r.nodes)
  {
  }

  lemma CommitSame(s: St, i: nat)
    requires i < |s.nodes| && Listable(s.nodes)
    ensures SameTree(s, CommitDir(s, i).state) && Listable(CommitDir(s, i).state.nodes)
  {
    hide DirImage, WriteAligned, Finish, SkipReserved;
    SameListable(s, CommitDir(s, i).state);
  }

  function CommitAll(s: St, order: seq<nat>): (r: Outcome)
    requires Listable(s.nodes) && forall x :: 0 <= x < |order| ==> order[x] < |s.nodes|
    ensures Listable(r.state.nodes) && |r.state.nodes| == |s.nodes|
  {
    if order == [] then Outcome(s, None)
    else
      var n := |order| - 1;
      var r := CommitAll(s, order[..n]);
      if r.error.Some? then r
      else
        CommitSame(r.state, order[n]);
        CommitDir(r.state, order[n])
  }

  lemma SameTreeTransitive(s: St, t: St, r: St)
    requires SameTree(s, t) && SameTree(t, r)
    ensures SameTree(s, r)
  {
  }

  lemma {:induction false} CommitAllSame(s: St, order: seq<nat>)
    requires Listable(s.nodes) && forall x :: 0 <= x < |order| ==> order[x] < |s.nodes|
    ensures SameTree(s, CommitAll(s, order).state)
  {
    hide CommitDir, SameTree, Listable;
    if order == [] {
      SameItself(s);
    } else {
      var n := |order| - 1;
      CommitAllSame(s, order[..n]);
      var t := CommitAll(s, order[..n]);
      if t.error == None {
        CommitSame(t.state, order[n]);
        SameTreeTransitive(s, t.state, CommitDir(t.state, order[n]).state);
      }
    }
  }

  lemma SameItself(s: St)
    ensures SameTree(s, s)
  {
  }

  // ----- What a list depends on -----

  lemma {:induction false} SameKids(s: St, r: St, list: seq<nat>)
    requires SameTree(s, r)
    ensures KidEntries(r.nodes, r.inodes, list) == KidEntries(s.nodes, s.inodes, list)
  {
    if list != [] {
      var n := |list| - 1;
      SameKids(s, r, list[..n]);
      var c := list[n];
      if c < |s.nodes| {
        assert InodeAt(r.inodes, Target(s.nodes[c])).links == InodeAt(s.inodes, Target(s.nodes[c])).links;
      }
    }
  }

  lemma {:induction false} SamePlace(a: Nodes, b: Nodes, list: seq<nat>, c: nat)
    requires forall x :: InodeOf(a, x) == InodeOf(b, x)
    ensures Place(a, list, c) == Place(b, list, c)
  {
    if list != [] { SamePlace(a, b, list[..|list| - 1], c); }
  }

  lemma {:induction false} SameSort(a: Nodes, b: Nodes, kids: seq<nat>)
    requires forall x :: InodeOf(a, x) == InodeOf(b, x)
    ensures SortKids(a, kids) == SortKids(b, kids)
  {
    if kids != [] {
      var n := |kids| - 1;
      SameSort(a, b, kids[..n]);
      SamePlace(a, b, SortKids(a, kids[..n]), kids[n]);
    }
  }

  lemma SameList(s: St, r: St, i: nat)
    requires SameTree(s, r) && i < |s.nodes|
    ensures DirList(r.nodes, r.inodes, i) == DirList(s.nodes, s.inodes, i)
  {
    hide KidEntries, SortKids;
    SameSort(s.nodes, r.nodes, s.nodes[i].children);
    SameKids(s, r, SortKids(s.nodes, s.nodes[i].children));
    assert InodeAt(r.inodes, s.nodes[i].inode).kind == InodeAt(s.inodes, s.nodes[i].inode).kind;
    var up := InodeOf(s.nodes, Parent(s.nodes, i));
    assert InodeAt(r.inodes, up).kind == InodeAt(s.inodes, up).kind;
  }

  // ----- The image holds every directory that was written -----

  /** The inode leads to the bytes, in blocks from `lo` on. */
  ghost predicate HoldsBytes(st: Store, lo: nat, ino: Inode, bytes: seq<byte>, area: nat) {
    && ino.size == |bytes| <= MAX_IMAGE && KeepsFile(st.disk, ino.field, bytes, Top(st))
    && SturdyIff(st.disk, ino.field, bytes, Top(st), area) && Placed(st.disk, ino.field, lo, Top(st))
  }

  lemma HoldsBytesOn(s: Store, t: Store, lo: nat, ino: Inode, bytes: seq<byte>, area: nat)
    requires HoldsBytes(s, lo, ino, bytes, area) && Past(s, t)
    ensures HoldsBytes(t, lo, ino, bytes, area)
  {
    hide HoldsFile, SturdyIff, Placed;
    PlacedBelow(s.disk, t.disk, ino.field, lo, Top(s));
    PlacedWider(t.disk, ino.field, lo, Top(s), lo, Top(t));
    SturdyOn(s.disk, t.disk, ino.field, bytes, Top(s), area);
    SturdyFurther(t.disk, ino.field, bytes, Top(s), Top(t), area);
    forall e: Disk | SameBelow(t.disk, e, Top(t)) ensures HoldsFile(e, ino.field, bytes) {
      NarrowSame(t.disk, e, Top(s), Top(t));
      SameBelowTrans(s.disk, t.disk, e, Top(s), Top(s));
    }
  }

  lemma SturdyFurther(d: Disk, field: seq<byte>, content: seq<byte>, lo: nat, hi: nat, area: nat)
    requires SturdyIff(d, field, content, lo, area) && lo <= hi
    ensures SturdyIff(d, field, content, hi, area)
  {
    hide HoldsFile, Reserved, IndexFree;
    if Sturdy(d, field, content, lo, area) {
      forall e: Disk | SameOff(d, e, hi, area) ensures HoldsFile(e, field, content) {
        assert SameOff(d, e, lo, area);
      }
    }
    if Sturdy(d, field, content, hi, area) { SturdyNeeds(d, field, content, hi, area); }
  }

  /** One directory: the cursor moves on, and its inode leads to its list. */
  lemma CommitHolds(s: St, i: nat, area: nat)
    requires i < |s.nodes| && Listable(s.nodes) && 1 <= s.nodes[i].inode <= |s.inodes|
    ensures var r := CommitDir(s, i);
            && Past(s.store, r.state.store)
            && (r.error == None && IsCommitted(s.nodes, s.inodes, i) && Fits(r.state.store)
                && area <= Area(s.store.size) ==>
                  HoldsBytes(r.state.store, Top(s.store), InodeAt(r.state.inodes, s.nodes[i].inode),
                             DirImage(s.nodes, s.inodes, i), area))
            && (forall k :: k != s.nodes[i].inode ==> InodeAt(r.state.inodes, k) == InodeAt(s.inodes, k))
            && (!IsCommitted(s.nodes, s.inodes, i) ==> r == Outcome(s, None))
  {
    hide DirImage, WriteAligned, Finish, Past, SkipReserved, SameBelow, Flat, Total, KeepsFile, Listable, SturdyIff,
         Area, Placed;
    Still(s.store);
    if IsCommitted(s.nodes, s.inodes, i) {
      var bytes := DirImage(s.nodes, s.inodes, i);
      var w := WriteAligned(s.store, bytes);
      WriteAlignedPast(s.store, bytes);
      var pad := WriteAlignedLands(s.store, bytes);
      FinishPast(w, |bytes|);
      FinishForward(w, |bytes|);
      SkippedPast(w);
      var f := Finish(w, |bytes|);
      PastTransitive(s.store, w.store, f.store);
      PastTransitive(s.store, w.store, SkipReserved(w.store));
      if f.Stowed? && Fits(f.store) {
        FinishAll(w, |bytes|, bytes, pad, Top(s.store));
        AlignedPlaces(s.store, bytes);
        if area <= Area(s.store.size) {
          FitsBack(w.store, f.store);
          AlignedAvoids(s.store, bytes, area);
          AlignedSturdy(s.store, bytes, area);
        }
      }
    }
  }

  lemma SkippedPast(w: Written)
    requires w.store.off == 0
    ensures Past(w.store, SkipReserved(w.store))
  {
    hide SkipReserved;
    SkipIsForward(w.store);
  }

  ghost predicate Distinct(order: seq<nat>) {
    forall x, y :: 0 <= x < y < |order| ==> order[x] != order[y]
  }

  /** After all directories of `order` are written, every one that was due is on the image. */
  ghost predicate AllHeld(s: St, r: St, order: seq<nat>, area: nat) {
    && Listable(s.nodes)
    && forall x :: 0 <= x < |order| ==>
         order[x] < |s.nodes| && DirHeld(s, r, order[x], area)
  }

  ghost predicate DirHeld(s: St, r: St, i: nat, area: nat)
    requires i < |s.nodes| && Listable(s.nodes)
  {
    IsCommitted(s.nodes, s.inodes, i) ==>
      HoldsBytes(r.store, Top(s.store), InodeAt(r.inodes, s.nodes[i].inode), DirImage(s.nodes, s.inodes, i), area)
  }

  ghost predicate OtherInodes(s: St, r: St, order: seq<nat>) {
    forall k {:trigger InodeAt(r.inodes, k)} ::
      (forall x :: 0 <= x < |order| && order[x] < |s.nodes| && IsCommitted(s.nodes, s.inodes, order[x]) ==>
       s.nodes[order[x]].inode != k) ==> InodeAt(r.inodes, k) == InodeAt(s.inodes, k)
  }

  /** Each plain node has an inode of its own. */
  ghost predicate OwnInodes(nodes: Nodes, inodes: seq<Inode>) {
    && (forall i :: 0 <= i < |nodes| ==> 1 <= nodes[i].inode <= |inodes|)
    && (forall i, j :: 0 <= i < j < |nodes| && nodes[i].link == None && nodes[j].link == None ==>
        nodes[i].inode != nodes[j].inode)
  }

  lemma SameImage(s: St, t: St, i: nat)
    requires SameTree(s, t) && i < |s.nodes| && Listable(s.nodes)
    ensures Listable(t.nodes) && DirImage(t.nodes, t.inodes, i) == DirImage(s.nodes, s.inodes, i)
    ensures IsCommitted(t.nodes, t.inodes, i) == IsCommitted(s.nodes, s.inodes, i)
  {
    hide DirBytes, DirList, Listable;
    SameListable(s, t);
    SameList(s, t, i);
    assert InodeAt(t.inodes, s.nodes[i].inode).links == InodeAt(s.inodes, s.nodes[i].inode).links;
  }

  lemma StillHeld(s: St, t: St, r: St, i: nat, j: nat, area: nat)
    requires i < |s.nodes| && j < |s.nodes| && Listable(s.nodes) && DirHeld(s, t, j, area) && Past(t.store, r.store)
    requires i != j && OwnInodes(s.nodes, s.inodes)
    requires IsCommitted(s.nodes, s.inodes, i)
    requires forall k :: k != s.nodes[i].inode ==> InodeAt(r.inodes, k) == InodeAt(t.inodes, k)
    ensures DirHeld(s, r, j, area)
  {
    hide DirImage, Past, HoldsBytes, Listable;
    if IsCommitted(s.nodes, s.inodes, j) {
      HoldsBytesOn(t.store, r.store, Top(s.store), InodeAt(t.inodes, s.nodes[j].inode), DirImage(s.nodes, s.inodes, j),
                   area);
    }
  }

  lemma CommitStep(s: St, t: St, order: seq<nat>, i: nat, area: nat)
    requires Listable(s.nodes) && OwnInodes(s.nodes, s.inodes) && SameTree(s, t) && i < |s.nodes| && Listable(t.nodes)
    requires forall x :: 0 <= x < |order| ==> order[x] < |s.nodes| && order[x] != i
    requires OtherInodes(s, t, order)
    requires var r := CommitDir(t, i); r.error == None && Fits(r.state.store)
    requires AllHeld(s, t, order, area) && area <= Area(t.store.size) && Top(s.store) <= Top(t.store)
    ensures AllHeld(s, CommitDir(t, i).state, order + [i], area)
  {
    hide CommitDir, SameTree, Listable, DirHeld, DirImage, HoldsBytes, Past, IsCommitted, Area;
    SameNode(s, t, i);
    SameImage(s, t, i);
    var r := CommitDir(t, i).state;
    CommitHolds(t, i, area);
    var all := order + [i];
    forall x | 0 <= x < |all| ensures all[x] < |s.nodes| && DirHeld(s, r, all[x], area) {
      if x < |order| {
        assert all[x] == order[x] && DirHeld(s, t, order[x], area);
        if IsCommitted(s.nodes, s.inodes, i) { StillHeld(s, t, r, i, order[x], area); }
      } else {
        NewHeld(s, r, Top(t.store), i, area);
      }
    }
  }

  lemma NewHeld(s: St, r: St, lo: nat, i: nat, area: nat)
    requires i < |s.nodes| && Listable(s.nodes) && Top(s.store) <= lo
    requires IsCommitted(s.nodes, s.inodes, i) ==>
             HoldsBytes(r.store, lo, InodeAt(r.inodes, s.nodes[i].inode), DirImage(s.nodes, s.inodes, i), area)
    ensures DirHeld(s, r, i, area)
  {
    hide DirImage, KeepsFile, SturdyIff, Placed, Listable;
    if IsCommitted(s.nodes, s.inodes, i) {
      PlacedWider(r.store.disk, InodeAt(r.inodes, s.nodes[i].inode).field, lo, Top(r.store), Top(s.store),
                  Top(r.store));
    }
  }

  lemma SameNode(s: St, t: St, i: nat)
    requires SameTree(s, t) && i < |s.nodes| && OwnInodes(s.nodes, s.inodes)
    ensures |t.nodes| == |s.nodes| && t.nodes[i].inode == s.nodes[i].inode && 1 <= t.nodes[i].inode <= |t.inodes|
  {
  }

  lemma OtherStep(s: St, t: St, order: seq<nat>, i: nat)
    requires Listable(t.nodes) && SameTree(s, t) && i < |s.nodes| && OwnInodes(s.nodes, s.inodes) && Listable(s.nodes)
    requires forall x :: 0 <= x < |order| ==> order[x] < |s.nodes|
    requires OtherInodes(s, t, order)
    ensures OtherInodes(s, CommitDir(t, i).state, order + [i])
  {
    hide CommitDir, SameTree, Listable, DirImage, HoldsBytes, Past, IsCommitted;
    SameNode(s, t, i);
    SameImage(s, t, i);
    var r := CommitDir(t, i).state;
    CommitHolds(t, i, 0);
    var all := order + [i];
    forall k {:trigger InodeAt(r.inodes, k)}
      | (forall x :: 0 <= x < |all| && all[x] < |s.nodes| && IsCommitted(s.nodes, s.inodes, all[x]) ==>
         s.nodes[all[x]].inode != k)
      ensures InodeAt(r.inodes, k) == InodeAt(s.inodes, k)
    {
      assert forall x :: 0 <= x < |order| ==> all[x] == order[x];
      assert all[|order|] == i;
      assert InodeAt(t.inodes, k) == InodeAt(s.inodes, k);
    }
  }

  /** Every directory in the order is on the image, and no other inode is touched. */
  lemma {:induction false} CommitAllHolds(s: St, order: seq<nat>, area: nat)
    requires Listable(s.nodes) && OwnInodes(s.nodes, s.inodes) && Distinct(order)
    requires forall x :: 0 <= x < |order| ==> order[x] < |s.nodes|
    ensures var r := CommitAll(s, order);
            && Past(s.store, r.state.store) && OtherInodes(s, r.state, order)
            && (r.error == None && Fits(r.state.store) && area <= Area(s.store.size) ==>
                AllHeld(s, r.state, order, area))
  {
    hide CommitDir, SameTree, Listable, DirHeld, Past, IsCommitted, OtherInodes, AllHeld, OwnInodes, Area;
    if order == [] {
      Still(s.store);
      NothingCommitted(s, area);
    } else {
      var n := |order| - 1;
      var init, i := order[..n], order[n];
      CommitAllHolds(s, init, area);
      CommitAllSame(s, init);
      var t := CommitAll(s, init);
      assert order == init + [i];
      if t.error == None {
        var r := CommitDir(t.state, i);
        SameNode(s, t.state, i);
        CommitHolds(t.state, i, area);
        PastTransitive(s.store, t.state.store, r.state.store);
        OtherStep(s, t.state, init, i);
        if r.error == None && Fits(r.state.store) && area <= Area(s.store.size) {
          PastFits(t.state.store, r.state.store);
          PastArea(s.store, t.state.store);
          PastTop(s.store, t.state.store);
          CommitStep(s, t.state, init, i, area);
        }
      } else {
        OtherFewer(s, t.state, init, i);
      }
    }
  }

  lemma PastArea(s: Store, t: Store)
    requires Past(s, t) && Fits(t)
    ensures Area(s.size) <= Area(t.size)
  {
    hide SameBelow, Area;
    AreaMonotone(s.size, t.size);
  }

  lemma PastFits(s: Store, t: Store)
    requires Past(s, t) && Fits(t)
    ensures Fits(s)
  {
    hide SameBelow;
  }

  lemma NothingCommitted(s: St, area: nat)
    requires Listable(s.nodes)
    ensures OtherInodes(s, s, []) && AllHeld(s, s, [], area)
  {
  }

  lemma OtherFewer(s: St, t: St, order: seq<nat>, i: nat)
    requires OtherInodes(s, t, order) && (forall x :: 0 <= x < |order| ==> order[x] < |s.nodes|) && i < |s.nodes|
    ensures OtherInodes(s, t, order + [i])
  {
    hide IsCommitted;
    var all := order + [i];
    assert forall x :: 0 <= x < |order| ==> all[x] == order[x];
  }

  /** A directory list of up to 128 GiB is never refused. */
  lemma CommitDirSucceeds(s: St, i: nat)
    requires i < |s.nodes| && Listable(s.nodes) && Fits(CommitDir(s, i).state.store)
    requires IsCommitted(s.nodes, s.inodes, i) ==> |DirImage(s.nodes, s.inodes, i)| <= MAX_FILE_SIZE
    ensures CommitDir(s, i).error == None
  {
    hide DirImage, WriteAligned, Finish, SkipReserved, SameBelow, Flat, Total, Listable, Ascending, Within;
    if IsCommitted(s.nodes, s.inodes, i) {
      var bytes := DirImage(s.nodes, s.inodes, i);
      var w := WriteAligned(s.store, bytes);
      var pad := WriteAlignedLands(s.store, bytes);
      FinishForward(w, |bytes|);
      SkipIsForward(w.store);
      if Finish(w, |bytes|).Stowed? {
        FitsBack(w.store, Finish(w, |bytes|).store);
      } else {
        FitsBack(w.store, SkipReserved(w.store));
      }
      NeverTooDeep(w, |bytes|, bytes);
    }
  }

  /** If all directory lists are of up to 128 GiB, all are written, as long as blocks are numbered in 32 bits. */
  lemma {:induction false} CommitSucceeds(s: St, order: seq<nat>)
    requires Listable(s.nodes) && OwnInodes(s.nodes, s.inodes) && Distinct(order)
    requires (forall x :: 0 <= x < |order| ==> order[x] < |s.nodes|)
    requires forall i :: 0 <= i < |s.nodes| && IsCommitted(s.nodes, s.inodes, i) ==>
             |DirImage(s.nodes, s.inodes, i)| <= MAX_FILE_SIZE
    requires Fits(CommitAll(s, order).state.store)
    ensures CommitAll(s, order).error == None
  {
    hide CommitDir, SameTree, Listable, Past, IsCommitted, OwnInodes, DirImage, OtherInodes, AllHeld, Area;
    if order != [] {
      var n := |order| - 1;
      var init, i := order[..n], order[n];
      var t := CommitAll(s, init).state;
      CommitAllSame(s, init);
      if CommitAll(s, init).error == None {
        SameNode(s, t, i);
        CommitHolds(t, i, 0);
        PastFits(t.store, CommitDir(t, i).state.store);
        SameImage(s, t, i);
        CommitDirSucceeds(t, i);
      }
      CommitSucceeds(s, init);
    }
  }
}
