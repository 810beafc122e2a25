/** create: what it clears out of the way, the missing parents it makes, the xattr block, content and
    entry it adds; and that every invariant survives whatever the outcome. */
module Creating {
  import opened Bytes
  import opened Payload
  import opened Placement
  import opened Contents
  import opened FileTree
  import opened Fs
  import opened Namespace
  import opened Ownership
  import opened Pruning
  import opened Growing

  /** The extended attributes of a new inode: refused, or packed into the inode and at most one block. */
  datatype Xattrs = NoXattrs | Refused(error: Error) | Packed(area: InlineArea, block: Option<Block>)

  datatype Clearing = Done | Blocked(error: Error) | Ready(state: St)

  /** What stands at the path already: a directory may stay, a file or hard link goes. */
  function Clear(s: St, path: Path, what: What): (c: Clearing)
    requires |s.nodes| > 0
    ensures c.Ready? ==> |c.state.nodes| == |s.nodes|
  {
    match Lookup(s.nodes, path)
    case None => Ready(s)
    case Some(i) =>
      var isDir := InodeAt(s.inodes, s.nodes[i].inode).kind == Directory;
      if what.MakeDir? then if isDir then Done else Blocked(NotDirectory)
      else if s.nodes[i].link == None && isDir && !what.MakeSymlink? then Blocked(NotFile)
      else Ready(RemoveTree(s, i))
  }

  function KindOf(what: What): Kind {
    match what
    case MakeDir => Directory
    case MakeFile(_) => Regular
    case MakeSymlink(_) => Symlink
    case MakeOther => Unused
  }

  /** The xattr block, if there is one, goes to the next free block. */
  function PlaceXattr(st: Store, x: Xattrs): Written {
    if x.Packed? && x.block.Some? then WriteAligned(st, x.block.value) else Written(st, [])
  }

  function AttrsOf(x: Xattrs): seq<byte> {
    if x.Packed? && x.block.Some? then x.block.value else []
  }

  function InlineOf(x: Xattrs): InlineArea { if x.Packed? then x.area else Zeros(96) }

  function First(ranges: seq<Range>): nat { if ranges == [] then 0 else ranges[0].start }

  /** Store the content and add the entry under directory `p`. */
  function Insert(s: St, p: nat, name: Name, what: What, x: Xattrs): (r: Outcome)
    requires p < |s.nodes|
    ensures |r.state.nodes| >= |s.nodes|
  {
    if InodeAt(s.inodes, s.nodes[p].inode).links >= MAX_LINKS then Outcome(s, Some(MaximumLinksExceeded))
    else if x.Refused? then Outcome(s, Some(x.error))
    else
      var w := PlaceXattr(s.store, x);
      var xattr := First(w.ranges);
      match Stow(w.store, what)
      case TooBigFile(st) => Outcome(s.(store := st), Some(FileTooBig))
      case TooDeep(st) => Outcome(s.(store := st), Some(TooManyExtents))
      case Unsupported(st) => Outcome(s.(store := st), Some(UnsupportedFiletype))
      case Stowed(st, field, ranges, size) =>
        var links := if what.MakeDir? then 2 else 1;
        Outcome(AddEntry(s, p, name, Inode(KindOf(what), links, size, field, xattr, InlineOf(x)), st,
                         Born(KindOf(what), ContentOf(what), 0, ranges, xattr, AttrsOf(x), Top(s.store), Top(st))),
                           None)
  }

  function Create(s: St, path: Path, what: What, x: Xattrs): (r: Outcome)
    requires |s.nodes| > 0
    ensures |r.state.nodes| >= |s.nodes|
    decreases |path|
  {
    if !NamesFit(path) then Outcome(s, Some(InvalidName))
    else
      match Clear(s, path, what)
      case Done => Outcome(s, None)
      case Blocked(e) => Outcome(s, Some(e))
      case Ready(u) =>
        if path == [] then Insert(u, ROOT, SLASH, what, x)
        else
          var parent := path[..|path| - 1];
          var v := Create(u, parent, MakeDir, NoXattrs);
          if v.error.Some? then v
          else
            match Lookup(v.state.nodes, parent)
            case None => Outcome(v.state, Some(NotFound))
            case Some(p) => Insert(v.state, p, path[|path| - 1], what, x)
  }

  // ----- One entry -----

  lemma {:induction false} TotalAtLeast(ranges: seq<Range>)
    requires Ascending(ranges)
    ensures Total(ranges) >= |ranges|
  {
    if ranges != [] { TotalAtLeast(ranges[..|ranges| - 1]); }
  }

  lemma {:induction false} OneBlockOneRange(ranges: seq<Range>, lo: nat, hi: nat)
    requires Ascending(ranges) && Within(ranges, lo, hi) && Total(ranges) == 1
    ensures |ranges| == 1 && lo <= ranges[0].start < ranges[0].end <= hi && ranges[0].end == ranges[0].start + 1
  {
    TotalAtLeast(ranges);
  }

  /** The xattr block lies between the old cursor and the new one. */
  lemma XattrPlaced(st: Store, x: Xattrs)
    requires Top(st) > 0
    ensures var w := PlaceXattr(st, x);
            && Past(st, w.store)
            && (First(w.ranges) != 0 <==> x.Packed? && x.block.Some?)
            && (First(w.ranges) != 0 ==> Top(st) <= First(w.ranges) < w.store.block && w.store.off == 0)
  {
    hide WriteAligned, Total, Ascending, Past;
    Still(st);
    if x.Packed? && x.block.Some? {
      var w := PlaceXattr(st, x);
      WriteAlignedPast(st, x.block.value);
      var pad := WriteAlignedLands(st, x.block.value);
      OneBlockOneRange(w.ranges, Top(st), w.store.block);
    }
  }

  /** What Insert hands to AddEntry has the shape AddEntry needs. */
  lemma InsertFits(s: St, what: What, x: Xattrs)
    requires !x.Refused? && Top(s.store) > 0
    requires var w := PlaceXattr(s.store, x); Stow(w.store, what).Stowed?
    ensures var w := PlaceXattr(s.store, x);
            var r := Stow(w.store, what);
            && what != MakeOther
            && EntryFits(s, Inode(KindOf(what), if what.MakeDir? then 2 else 1, r.size, r.field, First(w.ranges),
                                  InlineOf(x)), r.store,
                         Born(KindOf(what), ContentOf(what), 0, r.ranges, First(w.ranges), AttrsOf(x), Top(s.store),
                              Top(r.store)))
  {
    hide PlaceXattr, First, Ascending, KeepsFile, Fits, ContentOf, SameBelow, Finish, WriteChunks, WriteAligned;
    var w := PlaceXattr(s.store, x);
    XattrPlaced(s.store, x);
    StowWell(w.store, what);
  }

  /** The cursor moves on, and no block that it had reached changes. */
  ghost predicate Past(s: Store, t: Store) {
    Forward(s, t) && SameBelow(s.disk, t.disk, Top(s))
  }

  lemma PastTransitive(s: Store, t: Store, u: Store)
    requires Past(s, t) && Past(t, u)
    ensures Past(s, u)
  {
  }

  lemma Still(st: Store)
    ensures Past(st, st) && Forward(st, st)
  {
  }

  lemma FromAligned(st: Store, t: Store)
    requires Forward(Align(st), t)
    ensures Past(st, t)
  {
  }

  lemma WriteAlignedPast(st: Store, bytes: seq<byte>)
    ensures Past(st, WriteAligned(st, bytes).store)
  {
    hide WriteBytes, SkipReserved, SameBelow;
    var a := Align(st);
    SkipIsForward(a);
    var w := WriteBytes(SkipReserved(a), bytes, []);
    WriteForward(SkipReserved(a), bytes, []);
    ForwardTransitive(a, SkipReserved(a), w.store);
    AlignForward(w.store);
    ForwardTransitive(a, w.store, Align(w.store));
    FromAligned(st, Align(w.store));
  }

  /** Storing content, or giving up on the way, changes nothing behind the cursor. */
  lemma StowPast(st: Store, what: What)
    ensures Past(st, Stow(st, what).store)
  {
    hide Finish, SameBelow, WriteChunks, SkipReserved, WriteBytes, Past;
    Still(st);
    match what {
      case MakeDir =>
      case MakeOther =>
      case MakeSymlink(target) =>
        WriteAlignedPast(st, target);
        var w := WriteAligned(st, target);
        FinishPast(w, |target|);
        PastTransitive(st, w.store, Finish(w, |target|).store);
      case MakeFile(None) => NothingPast(st);
      case MakeFile(Some(chunks)) => ReaderPast(st, chunks);
    }
  }

  lemma FinishPast(w: Written, size: nat)
    requires w.store.off == 0
    ensures Past(w.store, Finish(w, size).store)
  {
    hide Finish, SameBelow;
    FinishForward(w, size);
  }

  lemma NothingPast(st: Store)
    ensures Past(st, Stow(st, MakeFile(None)).store)
  {
    hide SkipReserved;
    SkipIsForward(st);
    NoExtents(SkipReserved(st), []);
  }

  lemma ReaderPast(st: Store, chunks: seq<seq<byte>>)
    ensures Past(st, Stow(st, MakeFile(Some(chunks))).store)
  {
    hide Finish, SameBelow, WriteChunks, SkipReserved, Align, Past;
    var a := Align(st);
    SkipIsForward(a);
    ChunksForward(SkipReserved(a), chunks, [], 0);
    var r := WriteChunks(SkipReserved(a), chunks, [], 0);
    ForwardTransitive(a, SkipReserved(a), r.written.store);
    FromAligned(st, r.written.store);
    match r {
      case TooBig(w) =>
      case Stored(w, size) =>
        AlignForward(w.store);
        ForwardTransitive(a, w.store, Align(w.store));
        FinishForward(Written(Align(w.store), w.ranges), size);
        ForwardTransitive(a, Align(w.store), Finish(Written(Align(w.store), w.ranges), size).store);
        FromAligned(st, Finish(Written(Align(w.store), w.ranges), size).store);
    }
  }

  lemma {:induction false} ChunksForward(st: Store, chunks: seq<seq<byte>>, ranges: seq<Range>, size: nat)
    ensures Forward(st, WriteChunks(st, chunks, ranges, size).written.store)
    decreases |chunks|
  {
    hide WriteBytes, SameBelow;
    Still(st);
    if chunks != [] && size + |chunks[0]| <= MAX_FILE_SIZE {
      var w := WriteBytes(st, chunks[0], ranges);
      WriteForward(st, chunks[0], ranges);
      ChunksForward(w.store, chunks[1..], w.ranges, size + |chunks[0]|);
      ForwardTransitive(st, w.store, WriteChunks(st, chunks, ranges, size).written.store);
    }
  }

  /** The store may run ahead of what is recorded: an abandoned create leaves the invariants alone. */
  lemma MovedOn(s: St, st: Store)
    requires Sound(s) && Top(s.store) <= Top(st)
    ensures Sound(s.(store := st))
  {
    hide Inv, Origins, SetAside, DeletedExactly;
  }

  lemma InsertSound(s: St, p: nat, name: Name, what: What, x: Xattrs) returns (ranges: seq<Range>)
    requires Sound(s) && Top(s.store) > 0 && p < |s.nodes| && Attached(s.nodes, p) && IsDirNode(s.nodes, s.inodes, p)
    requires FindChild(s.nodes, s.nodes[p].children, name) == None
    ensures var r := Insert(s, p, name, what, x);
            && Sound(r.state) && Past(s.store, r.state.store)
            && (if r.error.Some? then r.state == s.(store := r.state.store)
                else r.state.nodes == AddChild(s.nodes, p, Node(|s.inodes| + 1, name, [], None, ranges, None)))
  {
    hide Inv, Owned, Attached, LinksAgree, FindChild, AddChild, PlaceXattr, First, Stow, EntryFits, KindOf, ContentOf,
         SameBelow;
    var r := Insert(s, p, name, what, x);
    Still(s.store);
    ranges := [];
    if InodeAt(s.inodes, s.nodes[p].inode).links < MAX_LINKS && !x.Refused? {
      var w := PlaceXattr(s.store, x);
      XattrPlaced(s.store, x);
      StowPast(w.store, what);
      PastTransitive(s.store, w.store, Stow(w.store, what).store);
      if Stow(w.store, what).Stowed? {
        InsertFits(s, what, x);
        var st := Stow(w.store, what);
        var links := if what.MakeDir? then 2 else 1;
        AddEntrySound(s, p, name, Inode(KindOf(what), links, st.size, st.field, First(w.ranges), InlineOf(x)), st.store,
                      Born(KindOf(what), ContentOf(what), 0, st.ranges, First(w.ranges), AttrsOf(x), Top(s.store),
                           Top(st.store)));
        ranges := st.ranges;
      } else {
        MovedOn(s, Stow(w.store, what).store);
      }
    }
  }

  // ----- The whole operation -----

  ghost predicate PlainAt(s: St, q: Path) {
    |s.nodes| > 0 && (Lookup(s.nodes, q).Some? ==> s.nodes[Lookup(s.nodes, q).value].link == None)
  }

  /** No entry on the way to `path` is a hard-link entry, nor is `path` itself if it is to be a directory. */
  ghost predicate Plain(s: St, path: Path, what: What) {
    forall q :: q <= path && (q != path || what.MakeDir?) ==> PlainAt(s, q)
  }

  /** Looking up any path after create: the path and its ancestors are there, those that were there
      stay the same entries, nothing is left below a new file, and nothing else has changed. */
  ghost predicate Created(s: Nodes, r: Nodes, path: Path, what: What)
    requires |s| > 0 && |r| > 0
  {
    forall q ::
      if q <= path then Lookup(r, q).Some?
        && (Lookup(s, q).Some? && (q != path || what.MakeDir?) ==> Lookup(r, q) == Lookup(s, q))
      else Lookup(r, q) == if path <= q && !what.MakeDir? then None else Lookup(s, q)
  }

  /** A create that fails leaves every path alone that is not on the way to `path` or below it; one
      for a directory removes nothing at all. */
  ghost predicate Spared(s: Nodes, r: Nodes, path: Path, what: What)
    requires |s| > 0 && |r| > 0
  {
    forall q :: (!(path <= q) || what.MakeDir?) && (q <= path ==> Lookup(s, q).Some?) ==> Lookup(r, q) == Lookup(s, q)
  }

  /** Lookups once the way is clear. */
  ghost predicate Cleared(s: Nodes, u: Nodes, path: Path)
    requires |s| > 0 && |u| > 0
  {
    forall q :: Lookup(u, q) == if path <= q && q != [] then None else Lookup(s, q)
  }

  lemma ClearWell(s: St, path: Path, what: What)
    requires Sound(s) && Clear(s, path, what).Ready?
    ensures var u := Clear(s, path, what).state;
            && Sound(u) && u.store == s.store && |u.nodes| == |s.nodes| > 0 && Pruned(s, u)
            && Cleared(s.nodes, u.nodes, path)
  {
    hide Inv, Owned, PathOf, RemoveTree, Lookup;
    InvWellFormed(s);
    UnlinkRemovesExactly(s, path, false);
    if Lookup(s.nodes, path) == None {
      RootFound(s.nodes);
      forall q | path <= q ensures Lookup(s.nodes, q) == None { NothingBelowNothing(s.nodes, path, q); }
    }
  }

  lemma RootFound(nodes: Nodes)
    requires |nodes| > 0
    ensures Lookup(nodes, []) == Some(ROOT)
  {
  }

  lemma SplitLast(path: Path, q: Path)
    requires path != []
    ensures var parent := path[..|path| - 1];
            && parent + [path[|path| - 1]] == path
            && (q <= path <==> q == path || q <= parent)
            && (path <= q ==> parent <= q && !(q <= parent))
  {
    var n := |path| - 1;
    if q <= path && q != path {
      assert q == path[..|q|] == path[..n][..|q|];
    }
    if q <= path[..n] {
      assert q == path[..n][..|q|] == path[..|q|];
    }
    if path <= q {
      assert path[..n] == q[..|path|][..n] == q[..n];
    }
  }

  lemma StillPlain(s: St, u: St, path: Path, what: What)
    requires |s.nodes| > 0 && |u.nodes| > 0 && Plain(s, path, what) && SameStatic(s.nodes, u.nodes) && path != []
    requires Cleared(s.nodes, u.nodes, path)
    ensures Plain(u, path[..|path| - 1], MakeDir)
  {
    hide Lookup;
    var parent := path[..|path| - 1];
    forall q | q <= parent ensures PlainAt(u, q) {
      SplitLast(path, q);
      assert PlainAt(s, q);
    }
  }

  /** Clearing, making the parents and adding the entry, put together. */
  lemma Together(s: Nodes, u: Nodes, v: Nodes, r: Nodes, path: Path, what: What, n: nat)
    requires |s| > 0 && |u| > 0 && |v| > 0 && |r| > 0 && path != []
    requires what.MakeDir? ==> Lookup(s, path) == None
    requires Cleared(s, u, path) && Created(u, v, path[..|path| - 1], MakeDir)
    requires forall q :: Lookup(r, q) == if q == path then Some(n) else Lookup(v, q)
    ensures Created(s, r, path, what)
  {
    hide Lookup;
    var parent := path[..|path| - 1];
    forall q
      ensures if q <= path then Lookup(r, q).Some?
              && (Lookup(s, q).Some? && (q != path || what.MakeDir?) ==> Lookup(r, q) == Lookup(s, q))
              else Lookup(r, q) == if path <= q && !what.MakeDir? then None else Lookup(s, q)
    {
      SplitLast(path, q);
      if what.MakeDir? && path <= q { NothingBelowNothing(s, path, q); }
    }
  }

  /** Stopping after the parents were made, or part of them. */
  lemma TogetherSpared(s: Nodes, u: Nodes, v: Nodes, path: Path, what: What)
    requires |s| > 0 && |u| > 0 && |v| > 0 && path != []
    requires what.MakeDir? ==> Lookup(s, path) == None
    requires Cleared(s, u, path) && Spared(u, v, path[..|path| - 1], MakeDir)
    ensures Spared(s, v, path, what)
  {
    hide Lookup;
    forall q | (!(path <= q) || what.MakeDir?) && (q <= path ==> Lookup(s, q).Some?)
      ensures Lookup(v, q) == Lookup(s, q)
    {
      SplitLast(path, q);
      if path <= q && Lookup(s, path) == None { NothingBelowNothing(s, path, q); }
    }
  }

  lemma {:induction false} EmptyChild(nodes: Nodes, path: Path, p: nat)
    requires |nodes| > 0 && path != [] && Lookup(nodes, path) == None && Lookup(nodes, path[..|path| - 1]) == Some(p)
    ensures FindChild(nodes, nodes[p].children, path[|path| - 1]) == None
  {
    LookupSnoc(nodes, ROOT, path[..|path| - 1], path[|path| - 1]);
    SplitLast(path, path);
  }

  /** The last step, once the parent is there. */
  lemma LastStep(v: St, path: Path, what: What, x: Xattrs, p: nat)
    requires Sound(v) && Top(v.store) > 0 && path != [] && |v.nodes| > 0
    requires Lookup(v.nodes, path) == None && Lookup(v.nodes, path[..|path| - 1]) == Some(p)
    requires IsDirNode(v.nodes, v.inodes, p)
    ensures var r := Insert(v, p, path[|path| - 1], what, x);
            && Sound(r.state) && Past(v.store, r.state.store)
            && (r.error.Some? ==> r.state.nodes == v.nodes)
            && (r.error == None ==>
                  && (forall q :: Lookup(r.state.nodes, q) == if q == path then Some(|v.nodes|) else Lookup(v.nodes, q))
                  && |r.state.nodes| == |v.nodes| + 1 && |r.state.inodes| == |v.inodes| + 1
                  && r.state.nodes[|v.nodes|].link == None && r.state.nodes[|v.nodes|].inode == |r.state.inodes|
                  && InodeAt(r.state.inodes, |r.state.inodes|).kind == KindOf(what)
                  && InodeAt(r.state.inodes, |r.state.inodes|).links == (if what.MakeDir? then 2 else 1))
  {
    hide Inv, Owned, Attached, LinksAgree, FindChild, PlaceXattr, First, Stow, ContentOf, SameBelow, Lookup, PathOf,
         SiblingsDiffer, Past, WellFormed;
    InvWellFormed(v);
    EmptyChild(v.nodes, path, p);
    FoundIsAttached(v.nodes, path[..|path| - 1]);
    var name := path[|path| - 1];
    var ranges := InsertSound(v, p, name, what, x);
    var r := Insert(v, p, name, what, x);
    if r.error == None {
      SplitLast(path, path);
      forall q ensures Lookup(r.state.nodes, q) == if q == path then Some(|v.nodes|) else Lookup(v.nodes, q) {
        LookupGrown(v.nodes, p, Node(|v.inodes| + 1, name, [], None, ranges, None), path[..|path| - 1], q);
      }
    }
  }

  lemma CreatedSpares(s: Nodes, r: Nodes, path: Path)
    requires |s| > 0 && |r| > 0 && Created(s, r, path, MakeDir)
    ensures Spared(s, r, path, MakeDir)
  {
    hide Lookup;
  }

  lemma SamePlace(s: Nodes, path: Path, what: What)
    requires |s| > 0
    ensures Spared(s, s, path, what)
    ensures what.MakeDir? && Lookup(s, path).Some? ==> Created(s, s, path, what)
  {
    hide Lookup;
    forall q | q <= path && Lookup(s, path).Some? ensures Lookup(s, q).Some? {
      if Lookup(s, q) == None { NothingBelowNothing(s, q, path); }
    }
  }

  /** A symlink put in place of the root: everything goes, and the root gets one entry. */
  lemma {:induction false} CreateAtRoot(s: St, what: What, x: Xattrs)
    requires Sound(s) && Top(s.store) > 0 && |s.nodes| > 0 && Clear(s, [], what).Ready?
    ensures var r := Create(s, [], what, x); what.MakeSymlink? && Sound(r.state) && Past(s.store, r.state.store)
  {
    hide Inv, Owned, Lookup, Past, Insert, PathOf, RemoveTree, FindChild;
    ClearWell(s, [], what);
    var u := Clear(s, [], what).state;
    InvWellFormed(u);
    RootFound(u.nodes);
    RootFound(s.nodes);
    RootIsDir(u);
    RootIsDir(s);
    assert Lookup(u.nodes, [SLASH]) == None;
    assert [SLASH][..0] == [];
    EmptyChild(u.nodes, [SLASH], ROOT);
    var ranges := InsertSound(u, ROOT, SLASH, what, x);
  }

  lemma RootIsDir(s: St)
    requires Inv(s.nodes, s.inodes)
    ensures |s.nodes| > 0 && IsDirNode(s.nodes, s.inodes, ROOT) && Attached(s.nodes, ROOT)
  {
  }

  /** The invariants hold, nothing behind the cursor changed, and the namespace is what create promises. */
  ghost predicate MadeWell(s: St, path: Path, what: What, r: Outcome) {
    && |s.nodes| > 0 && |r.state.nodes| > 0 && Sound(r.state) && Past(s.store, r.state.store)
    && (path != [] || !what.MakeSymlink? ==>
          if r.error == None then Created(s.nodes, r.state.nodes, path, what)
            else Spared(s.nodes, r.state.nodes, path, what))
    && (r.error == None && what.MakeDir? ==>
          var i := Lookup(r.state.nodes, path); i.Some? && IsDirNode(r.state.nodes, r.state.inodes, i.value))
  }

  lemma {:induction false} BelowRoot(s: St, path: Path, what: What, x: Xattrs, u: St, v: Outcome)
    requires Sound(s) && Top(s.store) > 0 && |s.nodes| > 0 && path != [] && NamesFit(path)
    requires Clear(s, path, what) == Ready(u) && |u.nodes| > 0 && v == Create(u, path[..|path| - 1], MakeDir, NoXattrs)
    requires u.store == s.store && Cleared(s.nodes, u.nodes, path) && MadeWell(u, path[..|path| - 1], MakeDir, v)
    ensures MadeWell(s, path, what, Create(s, path, what, x))
  {
    hide Inv, Owned, Lookup, Past, Insert, PathOf, Spared, Plain, RemoveTree, FindChild, Sound, Created, Cleared;
    var parent := path[..|path| - 1];
    var r := Create(s, path, what, x);
    if v.error == None {
      ParentMade(u.nodes, v.state.nodes, s.nodes, path);
      var p := Lookup(v.state.nodes, parent).value;
      PastTop(u.store, v.state.store);
      LastStep(v.state, path, what, x, p);
      PastTransitive(s.store, v.state.store, r.state.store);
      CreatedSpares(u.nodes, v.state.nodes, parent);
      TogetherSpared(s.nodes, u.nodes, v.state.nodes, path, what);
      if r.error == None { Together(s.nodes, u.nodes, v.state.nodes, r.state.nodes, path, what, |v.state.nodes|); }
    } else {
      TogetherSpared(s.nodes, u.nodes, v.state.nodes, path, what);
    }
  }

  lemma PastTop(s: Store, t: Store)
    requires Past(s, t)
    ensures Top(s) <= Top(t)
  {
  }

  lemma ParentMade(u: Nodes, v: Nodes, s: Nodes, path: Path)
    requires |u| > 0 && |v| > 0 && |s| > 0 && path != []
    requires Cleared(s, u, path) && Created(u, v, path[..|path| - 1], MakeDir)
    ensures Lookup(v, path[..|path| - 1]).Some? && Lookup(v, path) == None
  {
    hide Lookup;
    SplitLast(path, path);
    SplitLast(path, path[..|path| - 1]);
  }

  /** Whatever create is asked for and however it ends, all invariants hold on and nothing behind the
      cursor changes. If it succeeds, exactly the path and its missing ancestors are added; if it fails,
      nothing off the path is touched. */
  lemma {:induction false} CreateWell(s: St, path: Path, what: What, x: Xattrs)
    requires Sound(s) && Top(s.store) > 0 && Plain(s, path, what)
    requires |s.nodes| > 0
    ensures MadeWell(s, path, what, Create(s, path, what, x))
    decreases |path|
  {
    hide Inv, Owned, Lookup, Past, Insert, PathOf, Spared, RemoveTree, FindChild, Sound, Created, Cleared, Pruned;
    Still(s.store);
    SamePlace(s.nodes, path, what);
    if NamesFit(path) && Clear(s, path, what).Ready? {
      if path == [] {
        CreateAtRoot(s, what, x);
      } else {
        ClearWell(s, path, what);
        var u := Clear(s, path, what).state;
        PlainHere(s, u, path, what);
        CreateWell(u, path[..|path| - 1], MakeDir, NoXattrs);
        BelowRoot(s, path, what, x, u, Create(u, path[..|path| - 1], MakeDir, NoXattrs));
      }
    } else if NamesFit(path) && what.MakeDir? && Lookup(s.nodes, path).Some? {
      assert PlainAt(s, path);
    }
  }

  /** The parts of a tree fit together, and every node has an inode. */
  ghost predicate Shaped(s: St) {
    LinksAgree(s.nodes) && forall i :: 0 <= i < |s.nodes| ==> 1 <= s.nodes[i].inode <= |s.inodes|
  }

  lemma SoundShaped(s: St)
    requires Sound(s)
    ensures Shaped(s)
  {
    hide Owned, FileCounts, DirCounts, RemovedDirs, KindsSane;
  }

  lemma InsertShaped(s: St, p: nat, name: Name, what: What, x: Xattrs)
    requires Shaped(s) && p < |s.nodes|
    ensures Shaped(Insert(s, p, name, what, x).state)
  {
    hide Stow, PlaceXattr, First, ContentOf, LinksAgree;
    var r := Insert(s, p, name, what, x);
    if r.error == None { AddLinks(s.nodes, p, r.state.nodes[|s.nodes|]); }
  }

  /** Whatever create goes through on the way, hard-link entries too, the tree stays in shape. */
  lemma {:induction false} CreateShaped(s: St, path: Path, what: What, x: Xattrs)
    requires Sound(s) && |s.nodes| > 0
    ensures Shaped(Create(s, path, what, x).state)
    decreases |path|
  {
    hide Sound, Insert, Shaped, Lookup, RemoveTree, Pruned, Cleared, NamesFit;
    SoundShaped(s);
    if NamesFit(path) && Clear(s, path, what).Ready? {
      var u := Clear(s, path, what).state;
      ClearWell(s, path, what);
      SoundShaped(u);
      if path == [] {
        InsertShaped(u, ROOT, SLASH, what, x);
      } else {
        var parent := path[..|path| - 1];
        CreateShaped(u, parent, MakeDir, NoXattrs);
        var v := Create(u, parent, MakeDir, NoXattrs);
        if v.error == None && Lookup(v.state.nodes, parent).Some? {
          InsertShaped(v.state, Lookup(v.state.nodes, parent).value, path[|path| - 1], what, x);
        }
      }
    }
  }

  lemma PlainHere(s: St, u: St, path: Path, what: What)
    requires |s.nodes| > 0 && |u.nodes| > 0 && Plain(s, path, what) && Pruned(s, u) && path != []
    requires Cleared(s.nodes, u.nodes, path)
    ensures Plain(u, path[..|path| - 1], MakeDir)
  {
    hide Lookup, PathOf;
    StillPlain(s, u, path, what);
  }

  /** The entry that a successful create of a file or symlink leaves at the path is the newest inode. */
  lemma {:induction false} NewEntry(s: St, path: Path, what: What, x: Xattrs)
    requires Sound(s) && Top(s.store) > 0 && Plain(s, path, what) && |s.nodes| > 0
    requires !what.MakeDir? && (path != [] || !what.MakeSymlink?) && Create(s, path, what, x).error == None
    ensures var r := Create(s, path, what, x).state;
            && |r.nodes| > 0 && Lookup(r.nodes, path).Some?
            && r.nodes[Lookup(r.nodes, path).value].link == None
            && r.nodes[Lookup(r.nodes, path).value].inode == |r.inodes|
            && InodeAt(r.inodes, |r.inodes|).kind == KindOf(what) && InodeAt(r.inodes, |r.inodes|).links == 1
  {
    hide Inv, Owned, Lookup, Past, Insert, PathOf, Spared, RemoveTree, FindChild, Sound, Created, Cleared, Pruned,
         KindOf;
    var u := Clear(s, path, what).state;
    if path == [] { CreateAtRoot(s, what, x); }
    ClearWell(s, path, what);
    PlainHere(s, u, path, what);
    var parent := path[..|path| - 1];
    CreateWell(u, parent, MakeDir, NoXattrs);
    var v := Create(u, parent, MakeDir, NoXattrs).state;
    ParentMade(u.nodes, v.nodes, s.nodes, path);
    PastTop(u.store, v.store);
    LastStep(v, path, what, x, Lookup(v.nodes, parent).value);
  }
}
