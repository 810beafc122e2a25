/** Extended attributes from create to the finished image. */
module Attributes {
  import opened Bytes
  import opened Geometry
  import opened Payload
  import opened Placement
  import opened Contents
  import opened FileTree
  import opened Fs
  import opened Namespace
  import opened Ownership
  import opened Pruning
  import opened Creating
  import opened Keeping
  import opened Running
  import opened Committing
  import opened Visiting
  import opened Records
  import opened Sealing
  import opened Walking
  import opened Imaging
  import opened Marking
  import X = Xattrs

  /** An empty attribute `system.data` comes before all others. */
  const SENTINEL: X.Attribute := X.Attribute([100, 97, 116, 97], 7, [])

  /** The attributes in the block, if there is one. */
  function InBlock(x: Xattrs): seq<X.Attribute> {
    if x.Packed? && x.block.Some? then X.ReadAttributes(x.block.value, X.BLOCK_HEADER, 0) else []
  }

  function InInode(area: seq<byte>): seq<X.Attribute> { X.ReadAttributes(area, X.INODE_HEADER, X.INODE_HEADER) }

  /** Place the attributes one after the other, up to the first that is refused. */
  method AddAll(state: X.XattrState, all: seq<X.Attribute>) returns (refusal: Option<X.Refusal>)
    requires state.Valid() && state.inlineAttrs == [] && state.blockAttrs == []
    modifies state
    ensures state.Valid()
    ensures refusal == None ==> multiset(state.inlineAttrs) + multiset(state.blockAttrs) == multiset(all)
    ensures refusal == Some(X.InvalidName) ==> exists i :: 0 <= i < |all| && |all[i].name| > 255
  {
    hide X.HaveRoom, X.EntriesSize, X.ValuesSize;
    refusal := None;
    for k := 0 to |all|
      invariant state.Valid() && multiset(state.inlineAttrs) + multiset(state.blockAttrs) == multiset(all[..k])
    {
      assert all[..k + 1] == all[..k] + [all[k]];
      refusal := state.Add(all[k]);
      if refusal.Some? { return; }
    }
    assert all[..|all|] == all;
    refusal := None;
  }

  /** What create does with the attributes it is given: all of them go into the area of the inode or into the block,
      where they can be read, or the first that has room in neither is refused. */
  method PackAttributes(attrs: seq<X.Attribute>) returns (x: Xattrs, area: seq<byte>)
    ensures |area| == X.INODE_CAPACITY
    ensures x == NoXattrs <==> attrs == []
    ensures x.Packed? ==>
            x.area == area && multiset(InInode(x.area)) + multiset(InBlock(x)) == multiset([SENTINEL] + attrs)
    ensures x.Refused? ==>
              || x.error == XattrInsufficientSpace
              || (x.error == InvalidName && exists i :: 0 <= i < |attrs| && |attrs[i].name| > 255)
  {
    hide X.ReadAttributes, X.HaveRoom, X.SortAttributes, X.Buffer, X.InOrder, X.EntriesSize, X.ValuesSize, X.Hashes;
    area := Zeros(X.INODE_CAPACITY);
    if attrs == [] { return NoXattrs, area; }
    var state := new X.XattrState();
    var all := [SENTINEL] + attrs;
    var refusal := AddAll(state, all);
    if refusal == Some(X.InvalidName) {
      LongOne(attrs);
      return Refused(InvalidName), area;
    }
    if refusal.Some? { return Refused(XattrInsufficientSpace), area; }
    var buf := state.WriteInline();
    area := buf[..];
    if state.blockAttrs == [] { return Packed(area, None), area; }
    var block := state.WriteBlock();
    x := Packed(area, Some(block[..]));
  }

  lemma LongOne(attrs: seq<X.Attribute>)
    requires var all := [SENTINEL] + attrs; exists i :: 0 <= i < |all| && |all[i].name| > 255
    ensures exists i :: 0 <= i < |attrs| && |attrs[i].name| > 255
  {
    var all := [SENTINEL] + attrs;
    var i :| 0 <= i < |all| && |all[i].name| > 255;
    assert all[i] == attrs[i - 1];
  }

  /** The xattr block of every inode that can be reached is on the finished image as create filled it. */
  lemma {:induction false} AttributesThere(s: St, order: seq<nat>, area: nat, fill: Fill, e: Disk, i: nat)
    requires Good(s, area) && area < GROUP - 1 && VisitsAll(s.nodes, order) && Listable(s.nodes)
    requires ClosesWell(s, order, area)
    requires Finished(s, order, fill).Closed? && Finished(s, order, fill).disk == e
    requires i < |s.nodes| && Attached(s.nodes, i) && Target(s.nodes[i]) >= FIRST_INODE
    requires ReadInode(e, Target(s.nodes[i])).xattr > 0
    ensures BlockAt(e, ReadInode(e, Target(s.nodes[i])).xattr) == BornAt(s.born, Target(s.nodes[i])).attrs
  {
    hide Owned, Kept, FileCounts, DirCounts, RemovedDirs, KindsSane, CommitAll, Listable, Attached, LinksAgree, Past,
         Area, SameTree, Close, Closable, InodesClear, SealLayout, AreaFor, ReadInode, SameOff, AllFree, Holds, BlockAt,
         InodeAt;
    var r, k := CommitAll(s, order).state, Target(s.nodes[i]);
    InvWellFormed(s);
    ClosableFits(r);
    ClosingIsSafe(r, fill, area);
    TableIsOn(s, order, area, fill);
    ReadThere(s, e, r.inodes, i);
    CommitAllSame(s, order);
    SameXattr(s, r, k);
    CommitPast(s, order);
    Recorded(s, order, i, area);
    InSpan(s, r.store, k);
    PastFits(s.store, r.store);
    InUse(s, i);
    XattrNumber(s, r.store, k);
    BlockKept(s, r.store, k, area, e);
  }

  lemma {:induction false} InUse(s: St, i: nat)
    requires Sound(s) && i < |s.nodes| && Attached(s.nodes, i)
    ensures InodeAt(s.inodes, Target(s.nodes[i])).kind != Unused
  {
    hide Owned, FileCounts, DirCounts, RemovedDirs, Attached, LinksAgree;
    InvWellFormed(s);
    TreeFacts(s, i);
  }

  lemma BlockKept(s: St, r: Store, k: nat, area: nat, e: Disk)
    requires Sound(s) && Kept(s, area) && Fits(s.store) && Past(s.store, r) && SameOff(r.disk, e, Top(r), area)
    requires FIRST_INODE <= k <= |s.inodes| && InodeAt(s.inodes, k).kind != Unused && InodeAt(s.inodes, k).xattr > 0
    ensures BlockAt(e, InodeAt(s.inodes, k).xattr) == BornAt(s.born, k).attrs
  {
    hide Inv, SetAside, DeletedExactly, KeepsFile, SturdyIff, Placed, BlockAt, Reserved, Area;
    BornLength(s);
    var b := BornAt(s.born, k);
    assert Holds(s.store, InodeAt(s.inodes, k), b, area);
    PastSame(s.store, r, Top(s.store));
  }

  // ----- From create to the reader -----

  /** The attributes of inode `k` as the image has them: in its record, then in its block. */
  function AttributesAt(e: Disk, k: nat): seq<X.Attribute> {
    var ino := ReadInode(e, k);
    InInode(ino.inline) + (if ino.xattr > 0 then X.ReadAttributes(BlockAt(e, ino.xattr), X.BLOCK_HEADER, 0) else [])
  }

  lemma InsertEnds(v: St, p: nat, name: Name, what: What, x: Xattrs)
    requires p < |v.nodes| && Top(v.store) > 0 && Insert(v, p, name, what, x).error == None
    ensures var r := Insert(v, p, name, what, x).state;
            |r.inodes| > 0 && |r.born| > 0 && Given(r.inodes[|r.inodes| - 1], r.born[|r.born| - 1], x)
  {
    hide Stow, AddChild, InodeAt, PlaceXattr, First, Past;
    XattrPlaced(v.store, x);
  }

  /** What create notes of the attributes. */
  ghost predicate Given(ino: Inode, b: Born, x: Xattrs) {
    && ino.inline == InlineOf(x) && b.attrs == AttrsOf(x) && ino.xattr == b.xattr
    && (ino.xattr > 0 <==> x.Packed? && x.block.Some?)
  }

  /** A create that succeeds ends with the new inode. */
  lemma {:induction false} CreateEnds(s: St, path: Path, what: What, x: Xattrs)
    requires Sound(s) && Top(s.store) > 0 && Plain(s, path, what) && |s.nodes| > 0
    requires !what.MakeDir? && Create(s, path, what, x).error == None
    ensures var r := Create(s, path, what, x).state;
            |r.inodes| > 0 && |r.born| > 0 && Given(r.inodes[|r.inodes| - 1], r.born[|r.born| - 1], x)
  {
    hide Lookup, RemoveTree, Insert, NamesFit, Given, Sound, Pruned, Cleared, Created, Spared, Past, Plain;
    var u := Clear(s, path, what).state;
    ClearWell(s, path, what);
    if path == [] {
      InsertEnds(u, ROOT, SLASH, what, x);
    } else {
      var parent := path[..|path| - 1];
      var v := Create(u, parent, MakeDir, NoXattrs).state;
      PlainHere(s, u, path, what);
      CreateWell(u, parent, MakeDir, NoXattrs);
      PastTop(u.store, v.store);
      InsertEnds(v, Lookup(v.nodes, parent).value, path[|path| - 1], what, x);
    }
  }

  /** What a path has in the tree it has on the image, attributes included. */
  lemma {:induction false} PathAttributes(t: St, path: Path, order: seq<nat>, area: nat, fill: Fill)
    requires Good(t, area) && area < GROUP - 1 && |t.nodes| > 0 && NoDots(path) && Lookup(t.nodes, path).Some?
    requires VisitsAll(t.nodes, order) && Listable(t.nodes) && ClosesWell(t, order, area)
    requires Target(t.nodes[Lookup(t.nodes, path).value]) >= FIRST_INODE
    ensures Finished(t, order, fill).Closed?
    ensures var k, e := Target(t.nodes[Lookup(t.nodes, path).value]), Finished(t, order, fill).disk;
            && Walk(e, ROOT_INODE, path) == Some(k) && ReadInode(e, k).inline == InodeAt(t.inodes, k).inline
            && k <= |t.inodes| && InodeAt(t.inodes, k).kind != Unused
            && (ReadInode(e, k).xattr > 0 <==> InodeAt(t.inodes, k).xattr > 0)
            && (ReadInode(e, k).xattr > 0 ==> BlockAt(e, ReadInode(e, k).xattr) == BornAt(t.born, k).attrs)
  {
    hide Owned, Kept, FileCounts, DirCounts, RemovedDirs, KindsSane, CommitAll, Listable, Attached, LinksAgree, Past,
         Area, SameTree, Closes, Close, ReadInode, SameOff, FilesFree, DirsFree, Holds, BlockAt, InodeAt, Lookup, Walk,
         TableOn;
    var r, i := CommitAll(t, order).state, Lookup(t.nodes, path).value;
    var k := Target(t.nodes[i]);
    LegibleImage(t, order, path, area, fill);
    var e := Finished(t, order, fill).disk;
    CommitAllSame(t, order);
    Reachable(t, r, path, i);
    ReadThere(t, e, r.inodes, i);
    SameInline(t, r, k);
    ClosesFits(t, order, area);
    CommitPast(t, order);
    InSpan(t, r.store, k);
    XattrNumber(t, r.store, k);
    if ReadInode(e, k).xattr > 0 { AttributesThere(t, order, area, fill, e, i); }
  }

  lemma SameInline(s: St, r: St, k: nat)
    requires SameTree(s, r)
    ensures InodeAt(r.inodes, k).xattr == InodeAt(s.inodes, k).xattr
    ensures InodeAt(r.inodes, k).inline == InodeAt(s.inodes, k).inline
  {
    var x := InodeAt(r.inodes, k);
  }

  lemma {:induction false} ClosesFits(s: St, order: seq<nat>, area: nat)
    requires Listable(s.nodes) && (forall x :: 0 <= x < |order| ==> order[x] < |s.nodes|) && Closes(s, order, area)
    ensures Fits(CommitAll(s, order).state.store)
  {
    hide Listable, CommitAll, Closable;
    ClosableFits(CommitAll(s, order).state);
  }

  /** The attributes given to a create are read back from the closed image, all of them and each once, whatever
      happens to other paths in between. */
  lemma {:induction false} AttributesRead(s: St, path: Path, what: What, x: Xattrs, ops: seq<Op>, order: seq<nat>,
                                          area: nat, fill: Fill)
    requires |s.nodes| > 0 && Good(s, area) && Plain(s, path, what) && area < GROUP - 1 && NoDots(path) && path != []
    requires !what.MakeDir? && x.Packed?
    requires var c := Create(s, path, what, x);
             && c.error == None && AllAllowed(c.state, ops)
             && var t := Run(c.state, ops);
             && VisitsAll(t.nodes, order) && Listable(t.nodes) && ClosesWell(t, order, area)
    requires forall k :: 0 <= k < |ops| ==> LeavesAlone(ops[k], path)
    ensures var t := Run(Create(s, path, what, x).state, ops);
            && Finished(t, order, fill).Closed?
            && var e := Finished(t, order, fill).disk;
            && Walk(e, ROOT_INODE, path).Some?
            && multiset(AttributesAt(e, Walk(e, ROOT_INODE, path).value)) == multiset(InInode(x.area))
               + multiset(InBlock(x))
  {
    hide Create, Run, Good, AllAllowed, Plain, Lookup, Lasting, ClosesWell, Listable, LinksAgree, Attached, CommitAll,
         Finished, Walk, InInode, InBlock, ReadInode, BlockAt, Given, AttributesAt;
    var c := Create(s, path, what, x).state;
    var t := Run(c, ops);
    StepGood(s, DoCreate(path, what, x), area);
    NewFile(s, path, what, x, area);
    GoodFacts(s, area);
    CreateEnds(s, path, what, x);
    RunGood(c, ops, area);
    RunLeaves(c, ops, path, area);
    var i := Lookup(t.nodes, path).value;
    PathAttributes(t, path, order, area, fill);
    LaterInode(c, t, |c.inodes|);
    SameAttributes(Finished(t, order, fill).disk, |c.inodes|, InodeAt(c.inodes, |c.inodes|), BornAt(c.born, |c.inodes|),
                   x);
  }

  lemma SameAttributes(e: Disk, k: nat, ino: Inode, b: Born, x: Xattrs)
    requires Given(ino, b, x) && x.Packed? && ReadInode(e, k).inline == ino.inline
    requires (ReadInode(e, k).xattr > 0 <==> ino.xattr > 0)
    requires ReadInode(e, k).xattr > 0 ==> BlockAt(e, ReadInode(e, k).xattr) == b.attrs
    ensures multiset(AttributesAt(e, k)) == multiset(InInode(x.area)) + multiset(InBlock(x))
  {
    hide ReadInode, BlockAt, X.ReadAttributes;
    BothParts(InInode(x.area), InBlock(x));
  }

  lemma LaterInode(c: St, r: St, k: nat)
    requires Later(c, r) && 1 <= k <= |c.inodes| == |c.born| && InodeAt(r.inodes, k).kind != Unused
    ensures InodeAt(r.inodes, k) == InodeAt(c.inodes, k).(links := InodeAt(r.inodes, k).links)
    ensures BornAt(r.born, k) == BornAt(c.born, k)
  {
    hide Past;
  }

  lemma BothParts<T>(a: seq<T>, b: seq<T>)
    ensures multiset(a + b) == multiset(a) + multiset(b)
  {
  }
}
