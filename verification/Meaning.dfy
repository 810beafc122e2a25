/** The operations as changes of a map from paths to contents: what each one means to someone who
    only ever looks things up by path. */
module Meaning {
  import opened Bytes
  import opened Payload
  import opened Placement
  import opened Contents
  import opened FileTree
  import opened Fs
  import opened Namespace
  import opened Ownership
  import opened Pruning
  import opened Creating
  import opened Keeping
  import opened Linking
  import opened Dots
  import opened Running
  import opened Sealing
  import opened Imaging
  import opened Geometry
  import opened Committing
  import opened Visiting
  import opened Walking

  /** An entry that is still looked up the same way still means the same. */
  lemma PutSame(s: St, r: St, q: Path, area: nat)
    requires Good(s, area) && Good(r, area) && Later(s, r) && Refer(s.nodes, r.nodes)
    requires Lookup(r.nodes, q) == Lookup(s.nodes, q)
    ensures Put(r, q) == Put(s, q)
  {
    hide Kept, Lookup, Past, Sound;
    if Lookup(s.nodes, q).Some? {
      var k := Target(s.nodes[Lookup(s.nodes, q).value]);
      InUse(s, q);
      InUse(r, q);
      BornLength(s);
      assert BornAt(r.born, k) == BornAt(s.born, k);
    }
  }

  lemma InUse(s: St, q: Path)
    requires Sound(s) && |s.nodes| > 0 && Lookup(s.nodes, q).Some?
    ensures var k := Target(s.nodes[Lookup(s.nodes, q).value]);
            1 <= k <= |s.inodes| && InodeAt(s.inodes, k).kind != Unused
  {
    hide Owned, FileCounts, DirCounts, RemovedDirs, Lookup, Attached, LinksAgree;
    InvWellFormed(s);
    FoundIsAttached(s.nodes, q);
  }

  /** Unlink empties the path and all below it, or for a whiteout all strictly below it. */
  lemma UnlinkMeans(s: St, path: Path, whiteout: bool, q: Path, area: nat)
    requires Good(s, area) && DotSafe(s, path, whiteout) && Unlink(s, path, whiteout).error == None
    ensures Put(Unlink(s, path, whiteout).state, q) == if Reaches(path, whiteout, q) then Nothing else Put(s, q)
  {
    hide Unlink, UnlinkNamed, Components, DotSafe, Goes, Kept, Lookup, Past, Sound, Later, Refer, Pruned;
    var op, r := DoUnlink(path, whiteout), Unlink(s, path, whiteout).state;
    UnlinkIsNamed(s, path, whiteout);
    UnlinkRemovesExactly(s, Components(path), whiteout || EndsInDot(path));
    StepGood(s, op, area);
    StepRefers(s, op);
    if !Reaches(path, whiteout, q) { PutSame(s, r, q, area); }
  }

  /** Link puts at the new path what stands at the target, and nothing below it. */
  lemma LinkMeans(s: St, path: Path, target: Path, q: Path, area: nat)
    requires Good(s, area) && Makes(s, path, target) && LinkSafe(s, path, target)
    ensures Put(Link(s, path, target).state, q) == if q == path then Put(s, target) else if path <= q then Nothing
            else Put(s, q)
  {
    hide Link, Kept, Lookup, Past, Sound, Refer, Makes, LinkSafe;
    var op, r := DoLink(path, target), Link(s, path, target).state;
    LinkAddsExactly(s, path, target, area);
    StepGood(s, op, area);
    StepRefers(s, op);
    if q == path {
      var p, ino := MakesWhat(s, path, target);
      InUse(r, path);
      BornLength(s);
      LinkedSame(s, r, ino);
    } else if !(path <= q) {
      PutSame(s, r, q, area);
    }
  }

  lemma LinkedSame(s: St, r: St, k: nat)
    requires Later(s, r) && 1 <= k <= |s.inodes| == |s.born| && InodeAt(r.inodes, k).kind != Unused
    ensures InodeAt(r.inodes, k).kind == InodeAt(s.inodes, k).kind && BornAt(r.born, k) == BornAt(s.born, k)
  {
    hide Past;
  }

  function Made(what: What): Found
    requires what != MakeOther
  {
    match what
    case MakeDir => ADirectory
    case MakeFile(_) => AFile(ContentOf(what))
    case MakeSymlink(target) => ASymlink(target)
  }

  /** Create puts what it was given at the path and directories where the way to it was missing; a file
      or symlink has nothing below it; all else stays. */
  lemma {:induction false} CreateMeans(s: St, path: Path, what: What, x: Xattrs, q: Path, area: nat)
    requires Good(s, area) && Plain(s, path, what) && Create(s, path, what, x).error == None && what != MakeOther
    requires path != []
    ensures Put(Create(s, path, what, x).state, q) ==
              if q == path then Made(what)
              else if q < path then ADirectory
              else if path <= q && !what.MakeDir? then Nothing
              else Put(s, q)
  {
    hide Create, Kept, Lookup, Past, Sound, Later, Refer, Plain, ContentOf, Spared;
    var op, r := DoCreate(path, what, x), Create(s, path, what, x).state;
    CreateWell(s, path, what, x);
    StepGood(s, op, area);
    StepRefers(s, op);
    if q == path {
      if what.MakeDir? {
        DirMeans(r, path);
      } else {
        NewFile(s, path, what, x, area);
        SymlinkContent(what);
      }
    } else if q < path {
      AncestorIsDir(r, q, path);
    } else if !(path <= q && !what.MakeDir?) {
      PutSame(s, r, q, area);
    }
  }

  lemma DirMeans(r: St, q: Path)
    requires |r.nodes| > 0 && Lookup(r.nodes, q).Some? && IsDirNode(r.nodes, r.inodes, Lookup(r.nodes, q).value)
    ensures Put(r, q) == ADirectory
  {
    hide Lookup;
  }

  /** What has something below it is a directory. */
  lemma AncestorIsDir(r: St, q: Path, path: Path)
    requires Sound(r) && |r.nodes| > 0 && Lookup(r.nodes, path).Some? && q < path
    ensures Put(r, q) == ADirectory
  {
    hide Owned, FileCounts, DirCounts, RemovedDirs, NodesSane, Attached, LinksAgree, Lookup;
    var first := q + [path[|q|]];
    assert first <= path;
    if Lookup(r.nodes, first) == None { NothingBelowNothing(r.nodes, first, path); }
    LookupSnoc(r.nodes, ROOT, q, path[|q|]);
    SameLookup(r.nodes, q);
    SameLookup(r.nodes, first);
    DirMeans(r, q);
  }

  // ----- When create does what it says -----

  /** The filesystem is sound, and the path leads to what was asked for. */
  ghost predicate Right(r: St, path: Path, what: What) {
    Sound(r) && |r.nodes| > 0 && what != MakeOther && Put(r, path) == Made(what)
  }

  /** A create that reports success has done what it was asked for, with the filesystem sound, if and only
      if no entry on the way is a hard-link entry and it was not to put a symlink in place of the root. */
  lemma {:induction false} CreateRightIff(s: St, path: Path, what: What, x: Xattrs, area: nat)
    requires Good(s, area) && Create(s, path, what, x).error == None
    ensures Right(Create(s, path, what, x).state, path, what)
            <==> Plain(s, path, what) && !(path == [] && what.MakeSymlink?)
  {
    hide Good, Create, Sound, Plain, Put, Lookup;
    GoodIsSound(s, area);
    NodesThere(s, area);
    OtherFails(s, path, what, x, area);
    var r := Create(s, path, what, x).state;
    if path == [] {
      AtTheRoot(s, what, x, area);
    } else if Plain(s, path, what) {
      CreateMeans(s, path, what, x, path, area);
      CreateWell(s, path, what, x);
    } else {
      NotPlainNotRight(s, path, what, x, area);
    }
  }

  lemma NodesThere(s: St, area: nat)
    requires Good(s, area)
    ensures |s.nodes| > 0 && Top(s.store) > 0
  {
    hide Sound, Kept;
  }

  lemma {:induction false} NotPlainNotRight(s: St, path: Path, what: What, x: Xattrs, area: nat)
    requires Sound(s) && |s.nodes| > 0 && Top(s.store) > 0 && !Plain(s, path, what) && what != MakeOther
    requires Create(s, path, what, x).error == None
    ensures !Right(Create(s, path, what, x).state, path, what)
  {
    hide Create, Sound, Lookup, InodeAt;
    var q :| q <= path && (q != path || what.MakeDir?) && !PlainAt(s, q);
    var i := Lookup(s.nodes, q).value;
    NamesDoFit(s, path, what, x);
    CreateThroughLink(s, q, path, what, x, i);
    if q == path { LinkIsNoDirectory(s, q, i); }
  }

  lemma {:induction false} NamesDoFit(s: St, path: Path, what: What, x: Xattrs)
    requires |s.nodes| > 0 && Create(s, path, what, x).error == None
    ensures NamesFit(path)
  {
    hide Lookup, Clear, Insert;
  }

  lemma LinkIsNoDirectory(s: St, q: Path, i: nat)
    requires Sound(s) && |s.nodes| > 0 && Lookup(s.nodes, q) == Some(i) && s.nodes[i].link.Some?
    ensures Put(s, q) != ADirectory
  {
    hide Owned, FileCounts, DirCounts, RemovedDirs, NodesSane, Attached, LinksAgree, Lookup;
    InvWellFormed(s);
    FoundIsAttached(s.nodes, q);
  }

  /** At the root a directory is there already, a file is refused, and a symlink is put below it. */
  lemma {:induction false} AtTheRoot(s: St, what: What, x: Xattrs, area: nat)
    requires Good(s, area) && Sound(s) && |s.nodes| > 0 && Top(s.store) > 0 && what != MakeOther
    requires Create(s, [], what, x).error == None
    ensures Right(Create(s, [], what, x).state, [], what) <==> Plain(s, [], what) && !what.MakeSymlink?
  {
    hide Good, Sound, Lookup, Insert, RemoveTree, Attached;
    RootFound(s.nodes);
    InvHolds(s);
    RootIsDir(s);
    if what.MakeDir? {
      RootPlain(s, what);
      DirMeans(s, []);
    } else if what.MakeSymlink? {
      RootPlain(s, what);
      CreateWell(s, [], what, x);
      var r := Create(s, [], what, x).state;
      RootFound(r.nodes);
      InvHolds(r);
      RootIsDir(r);
      DirMeans(r, []);
    }
  }

  lemma RootPlain(s: St, what: What)
    requires |s.nodes| > 0 && s.nodes[ROOT].link == None
    ensures Plain(s, [], what)
  {
    hide Lookup;
    RootFound(s.nodes);
  }

  /** A new image, a file `a`, a link `b` to it, and a directory asked for at `b`, or a file below it: both are
      reported as made, and neither is right. */
  lemma CreateThroughLinkHappens(size: positive)
    ensures var s := Link(Create(Fresh(size), [A], MakeFile(None), NoXattrs).state, [B], [A]).state;
            && Good(s, Area(size))
            && Create(s, [B], MakeDir, NoXattrs) == Outcome(s, None) && !Right(s, [B], MakeDir)
            && Create(s, [B, A], MakeFile(None), NoXattrs).error == None
            && !Right(Create(s, [B, A], MakeFile(None), NoXattrs).state, [B, A], MakeFile(None))
  {
    hide Good, Fresh, Create, Link, Area, Lookup, Sound, Right, Plain;
    var s, i := FileAndLink(size);
    GoodIsSound(s, Area(size));
    NodesThere(s, Area(size));
    CreateThroughLink(s, [B], [B], MakeDir, NoXattrs, i);
    NotPlainHere(s, [B], MakeDir, i);
    CreateRightIff(s, [B], MakeDir, NoXattrs, Area(size));
    BelowLink(s, i, Area(size));
    NotPlainHere(s, [B, A], MakeFile(None), i);
    CreateRightIff(s, [B, A], MakeFile(None), NoXattrs, Area(size));
  }

  lemma NotPlainHere(s: St, path: Path, what: What, i: nat)
    requires |s.nodes| > 0 && Lookup(s.nodes, [B]) == Some(i) && s.nodes[i].link.Some? && [B] <= path
    requires ([B] != path || what.MakeDir?)
    ensures !Plain(s, path, what)
  {
    hide Lookup;
    assert !PlainAt(s, [B]);
  }

  /** A file asked for below the hard-link entry `b` goes under it. */
  lemma {:induction false} BelowLink(s: St, i: nat, area: nat)
    requires Good(s, area) && Sound(s) && |s.nodes| > 0 && Lookup(s.nodes, [B]) == Some(i) && s.nodes[i].link.Some?
    requires InodeAt(s.inodes, ROOT_INODE).links < MAX_LINKS
    ensures Create(s, [B, A], MakeFile(None), NoXattrs).error == None
  {
    hide Good, Sound, Lookup, Stow, AddEntry;
    NothingBelowLink(s, [B], [B, A], i);
    assert [B, A][..1] == [B];
    assert Create(s, [B], MakeDir, NoXattrs) == Outcome(s, None);
    NothingStored(s.store);
  }

  lemma FileAndLink(size: positive) returns (s: St, i: nat)
    ensures s == Link(Create(Fresh(size), [A], MakeFile(None), NoXattrs).state, [B], [A]).state
    ensures Good(s, Area(size)) && |s.nodes| > 0 && Lookup(s.nodes, [B]) == Some(i) && s.nodes[i].link.Some?
    ensures InodeAt(s.inodes, ROOT_INODE).links < MAX_LINKS
  {
    hide Good, Fresh, Create, Area, Lookup, Sound, Plain, Link, LinkSafe;
    var f, op := Fresh(size), DoCreate([A], MakeFile(None), NoXattrs);
    FreshRoot(size);
    GoodFacts(f, Area(size));
    RootEntry(f, A, MakeFile(None));
    NewEntry(f, [A], MakeFile(None), NoXattrs);
    CreateWell(f, [A], MakeFile(None), NoXattrs);
    StepGood(f, op, Area(size));
    var t := Create(f, [A], MakeFile(None), NoXattrs).state;
    NewestInode(t, [A]);
    InsertedUnder(f, ROOT, A, MakeFile(None));
    FreeForB(size, f, t);
    LinkToA(t, Area(size));
    s := Link(t, [B], [A]).state;
    i := |t.nodes|;
  }

  lemma FreeForB(size: positive, f: St, t: St)
    requires f == Fresh(size) && |t.nodes| > 0 && Created(f.nodes, t.nodes, [A], MakeFile(None))
    ensures Lookup(t.nodes, [B]) == None
  {
    hide Fresh, Lookup, Put, Area;
    FreshMeans(size, [B]);
    NothingPut(f, [B]);
    assert [B][0] != [A][0];
  }

  lemma NothingPut(f: St, q: Path)
    requires |f.nodes| > 0 && Put(f, q) == Nothing
    ensures Lookup(f.nodes, q) == None
  {
    hide Lookup;
  }

  lemma LinkToA(t: St, area: nat)
    requires Good(t, area) && Sound(t) && |t.nodes| > 0 && Lookup(t.nodes, [A]).Some? && Lookup(t.nodes, [B]) == None
    requires var n := t.nodes[Lookup(t.nodes, [A]).value];
             n.link == None && n.inode == |t.inodes| >= FIRST_INODE && InodeAt(t.inodes, |t.inodes|).kind == Regular
               && InodeAt(t.inodes, |t.inodes|).links == 1
    requires t.nodes[ROOT].inode == ROOT_INODE && InodeAt(t.inodes, ROOT_INODE).links < MAX_LINKS
    ensures var s := Link(t, [B], [A]).state;
            && Good(s, area) && |s.nodes| == |t.nodes| + 1 && Lookup(s.nodes, [B]) == Some(|t.nodes|)
            && s.nodes[|t.nodes|].link.Some?
            && InodeAt(s.inodes, ROOT_INODE).links < MAX_LINKS
  {
    hide Good, Sound, Lookup, RemoveTree, Attached, NamesOutside, NameOutside;
    RootFound(t.nodes);
    InvHolds(t);
    RootIsDir(t);
    assert ParentPath([B]) == [] && BeforeAdding(t, [B]) == t;
    var k := |t.inodes|;
    CountOutside(t, [B], k);
    assert [B][0] != [A][0] && !([B] <= [A]);
    OutsideA(t, k);
    StepGood(t, DoLink([B], [A]), area);
    GoodKept(t, area);
    LinkAddsExactly(t, [B], [A], area);
  }

  lemma OutsideA(t: St, k: nat)
    requires |t.nodes| > 0 && Lookup(t.nodes, [A]).Some? && Target(t.nodes[Lookup(t.nodes, [A]).value]) == k
    requires !([B] <= [A])
    ensures NameOutside(t, [B], k, [A])
  {
    hide Lookup;
  }

  lemma GoodKept(s: St, area: nat)
    requires Good(s, area)
    ensures Kept(s, area)
  {
    hide Sound, Kept;
  }

  // ----- Whole runs -----

  /** What the operations leave at a path, last operation first, without any tree, inode or block: only
      by what the operations say. `base` is what was there before them. */
  ghost function Expect(ops: seq<Op>, base: Path -> Found, q: Path): Found
    decreases |ops|
  {
    if ops == [] then base(q)
    else
      var init := ops[..|ops| - 1];
      match ops[|ops| - 1]
      case DoUnlink(path, whiteout) => if Reaches(path, whiteout, q) then Nothing else Expect(init, base, q)
      case DoLink(path, target) => if q == path then Expect(init, base, target) else if path <= q then Nothing
        else Expect(init, base, q)
      case DoCreate(path, what, _) =>
        if q == path && what != MakeOther then Made(what)
        else if q < path then ADirectory
        else if path <= q && !what.MakeDir? then Nothing
        else Expect(init, base, q)
  }

  /** The operation is carried out without error; creating is not at the root. */
  ghost predicate Succeeds(s: St, op: Op)
    requires |s.nodes| > 0
  {
    Step(s, op).error == None && (op.DoCreate? ==> op.path != [])
  }

  ghost predicate AllSucceed(s: St, ops: seq<Op>)
    requires |s.nodes| > 0
    decreases |ops|
  {
    ops != [] ==> Succeeds(s, ops[0]) && AllSucceed(Step(s, ops[0]).state, ops[1..])
  }

  /** A link that is there already is another name of the file, and nothing is below it. */
  lemma AlreadyMeans(s: St, path: Path, target: Path, q: Path)
    requires Sound(s) && |s.nodes| > 0 && Link(s, path, target).error == None && Linked(s, path, target)
    ensures Put(s, path) == Put(s, target) && (path < q ==> Put(s, q) == Nothing)
    ensures Link(s, path, target).state == s
  {
    hide Sound, Lookup, AddLink, BeforeAdding, InodeAt;
    InvHolds(s);
    TargetIsFile(s, target);
    PlannedAlready(s, path, target);
    if path < q { FileHasNothingBelow(s, path, q); }
  }

  lemma PlannedAlready(s: St, path: Path, target: Path)
    requires |s.nodes| > 0 && Link(s, path, target).error == None && Linked(s, path, target)
    ensures Link(s, path, target).state == s && Lookup(s.nodes, target).Some?
    ensures InodeAt(s.inodes, s.nodes[Lookup(s.nodes, target).value].inode).kind != Directory
  {
    hide Lookup, AddLink, BeforeAdding;
  }

  lemma FileHasNothingBelow(s: St, path: Path, q: Path)
    requires Sound(s) && |s.nodes| > 0 && Lookup(s.nodes, path).Some? && path < q
    requires IsFile(InodeAt(s.inodes, Target(s.nodes[Lookup(s.nodes, path).value])).kind)
    ensures Lookup(s.nodes, q) == None
  {
    hide Sound, Lookup;
    NotADirectory(s, Lookup(s.nodes, path).value);
    NothingBelowFile(s, path, q[|path|], Lookup(s.nodes, path).value);
    assert path + [q[|path|]] <= q;
    NothingBelowNothing(s.nodes, path + [q[|path|]], q);
  }

  lemma NotADirectory(s: St, i: nat)
    requires i < |s.nodes| && IsFile(InodeAt(s.inodes, Target(s.nodes[i])).kind)
    ensures !IsDirNode(s.nodes, s.inodes, i)
  {
  }

  /** One operation after others: what it says, on top of what they said. */
  lemma {:induction false} StepMeans(s: St, op: Op, ops: seq<Op>, base: Path -> Found, q: Path, area: nat)
    requires |s.nodes| > 0 && Good(s, area) && Allowed(s, op) && Succeeds(s, op)
    requires forall p :: Put(s, p) == Expect(ops, base, p)
    ensures Put(Step(s, op).state, q) == Expect(ops + [op], base, q)
  {
    hide Good, Put, Unlink, Link, Create, Plain, LinkSafe, Makes, Reaches, Linked, DotSafe;
    assert (ops + [op])[..|ops|] == ops;
    match op {
      case DoUnlink(path, whiteout) => UnlinkMeans(s, path, whiteout, q, area);
      case DoLink(path, target) =>
        GoodIsSound(s, area);
        MakesOrLinked(s, path, target);
        if Makes(s, path, target) { LinkMeans(s, path, target, q, area); }
        else { AlreadyMeans(s, path, target, q); }
      case DoCreate(path, what, x) =>
        OtherFails(s, path, what, x, area);
        CreateMeans(s, path, what, x, q, area);
    }
  }

  lemma GoodIsSound(s: St, area: nat)
    requires Good(s, area)
    ensures Sound(s)
  {
    hide Sound;
  }

  lemma MakesOrLinked(s: St, path: Path, target: Path)
    requires |s.nodes| > 0 && Link(s, path, target).error == None
    ensures Makes(s, path, target) || Linked(s, path, target)
  {
    hide Lookup, AddLink, BeforeAdding;
  }

  /** A device or the like is never created. */
  lemma {:induction false} OtherFails(s: St, path: Path, what: What, x: Xattrs, area: nat)
    requires |s.nodes| > 0 && Good(s, area) && Create(s, path, what, x).error == None
    ensures what != MakeOther
  {
    hide Good, Lookup, RemoveTree, PlaceXattr, First, NamesFit, Clear;
    if what == MakeOther { ClearNotDone(s, path, what); }
  }

  lemma ClearNotDone(s: St, path: Path, what: What)
    requires |s.nodes| > 0 && !what.MakeDir?
    ensures !Clear(s, path, what).Done?
  {
    hide Lookup, RemoveTree;
  }

  lemma {:induction false} RunMeansFrom(s: St, done: seq<Op>, ops: seq<Op>, base: Path -> Found, q: Path, area: nat)
    requires |s.nodes| > 0 && Good(s, area) && AllAllowed(s, ops) && AllSucceed(s, ops)
    requires forall p :: Put(s, p) == Expect(done, base, p)
    ensures Put(Run(s, ops), q) == Expect(done + ops, base, q)
    decreases |ops|
  {
    hide Good, Put, Step, Allowed, Succeeds, Expect;
    if ops == [] {
      assert done + ops == done;
    } else {
      var t := Step(s, ops[0]).state;
      StepGood(s, ops[0], area);
      forall p ensures Put(t, p) == Expect(done + [ops[0]], base, p) {
        StepMeans(s, ops[0], done, base, p, area);
      }
      RunMeansFrom(t, done + [ops[0]], ops[1..], base, q, area);
      assert done + [ops[0]] + ops[1..] == done + ops;
    }
  }

  /** A new image has a root and `lost+found`, both directories. */
  ghost function Empty(q: Path): Found {
    if q == [] || q == [LOST_AND_FOUND] then ADirectory else Nothing
  }

  lemma FreshMeans(size: positive, q: Path)
    ensures Put(Fresh(size), q) == Empty(q)
  {
    hide Good, Put, Create, Plain, Area;
    BlankGood(size);
    RootOnly(size, q);
    BlankRoot(size);
    RootEntry(Blank(size), LOST_AND_FOUND, MakeDir);
    CreateMeans(Blank(size), [LOST_AND_FOUND], MakeDir, NoXattrs, q, Area(size));
    if q < [LOST_AND_FOUND] { assert q == []; }
  }

  lemma BlankRoot(size: positive)
    ensures var s := Blank(size);
            && Lookup(s.nodes, [LOST_AND_FOUND]) == None && s.nodes[ROOT].inode == ROOT_INODE
            && InodeAt(s.inodes, ROOT_INODE).kind == Directory && InodeAt(s.inodes, ROOT_INODE).links < MAX_LINKS
  {
    hide Area;
  }

  lemma RootOnly(size: positive, q: Path)
    ensures Put(Blank(size), q) == if q == [] then ADirectory else Nothing
  {
    hide Area;
    if q != [] { assert FindChild(Blank(size).nodes, [], q[0]) == None; }
  }

  /** After any run from a new image, every path means exactly what the operations said. */
  lemma {:induction false} RunMeans(size: positive, ops: seq<Op>, q: Path)
    requires AllAllowed(Fresh(size), ops) && AllSucceed(Fresh(size), ops)
    ensures Put(Run(Fresh(size), ops), q) == Expect(ops, Empty, q)
  {
    hide Good, Put, Run, Fresh, AllAllowed, AllSucceed;
    FreshGood(size);
    forall p ensures Put(Fresh(size), p) == Expect([], Empty, p) { FreshMeans(size, p); }
    RunMeansFrom(Fresh(size), [], ops, Empty, q, Area(size));
    assert [] + ops == ops;
  }

  lemma FreshGood(size: positive)
    ensures Good(Fresh(size), Area(size))
  {
    hide Good, Area;
    FreshRunGood(size, []);
  }

  /** From operations to image and back: at every path the closed image, read from its superblock on, holds exactly what
      the operations said, if and only if no leaf block of what is there is reserved; so at all paths if it closes
      well. */
  lemma {:induction false} ImageMeans(size: positive, ops: seq<Op>, order: seq<nat>, path: Path, fill: Fill)
    requires AllAllowed(Fresh(size), ops) && AllSucceed(Fresh(size), ops)
    requires |Run(Fresh(size), ops).inodes| < 0x1_0000_0000 && NoDots(path)
    requires VisitsAll(Last(size, ops).nodes, order) && Legible(Last(size, ops), order, Area(size))
    ensures var s := Last(size, ops);
            && Finished(s, order, fill).Closed?
            && (Has(Finished(s, order, fill).disk, path, Expect(ops, Empty, path))
                <==> PathFree(s, CommitAll(s, order).state.inodes, path, Area(size)))
            && (ClosesWell(s, order, Area(size)) ==> Has(Finished(s, order, fill).disk, path, Expect(ops, Empty, path)))
  {
    hide Run, Fresh, AllAllowed, AllSucceed, Good, CommitAll, Listable, Has, Put, Expect, ClosesWell, Legible, Finished,
         PathFree, LinksAgree, Attached, Last;
    RunImage(size, ops, order, path, fill);
    RunMeans(size, ops, path);
  }
}
