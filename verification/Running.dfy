/** Whole runs of the formatter, from an empty image through any sequence of operations. */
module Running {
  import opened Bytes
  import opened Geometry
  import opened Payload
  import opened Placement
  import opened Allocation
  import opened Contents
  import opened FileTree
  import opened Fs
  import opened Namespace
  import opened Ownership
  import opened Pruning
  import opened Creating
  import opened Keeping
  import opened Linking
  import opened Dots

  datatype Op = DoCreate(path: Path, what: What, x: Xattrs)
    | DoLink(path: Path, target: Path) | DoUnlink(path: Path, whiteout: bool)

  function Step(s: St, op: Op): (r: Outcome)
    requires |s.nodes| > 0
    ensures |r.state.nodes| >= |s.nodes|
  {
    match op
    case DoCreate(path, what, x) => Create(s, path, what, x)
    case DoLink(path, target) => Link(s, path, target)
    case DoUnlink(path, whiteout) => Unlink(s, path, whiteout)
  }

  function Run(s: St, ops: seq<Op>): (r: St)
    requires |s.nodes| > 0
    ensures |r.nodes| >= |s.nodes|
    decreases |ops|
  {
    if ops == [] then s else Run(Step(s, ops[0]).state, ops[1..])
  }

  /** What the caller sees to: nothing is created through a hard-link entry, links are made under
      directories to files that keep a name and can count one more, and nothing is unlinked by a path that
      ends in a dot. */
  ghost predicate Allowed(s: St, op: Op)
    requires |s.nodes| > 0
  {
    match op
    case DoCreate(path, what, x) => Plain(s, path, what)
    case DoLink(path, target) => Makes(s, path, target) ==> LinkSafe(s, path, target)
    case DoUnlink(path, whiteout) => DotSafe(s, path, whiteout)
  }

  ghost predicate AllAllowed(s: St, ops: seq<Op>)
    requires |s.nodes| > 0
    decreases |ops|
  {
    ops != [] ==> Allowed(s, ops[0]) && AllAllowed(Step(s, ops[0]).state, ops[1..])
  }

  ghost predicate ShortNames(nodes: Nodes) {
    forall i :: 0 <= i < |nodes| ==> |nodes[i].name| <= 255
  }

  /** Every invariant at once; `area` is the size of the reserved areas at construction. */
  ghost predicate Good(s: St, area: nat) {
    Sound(s) && |s.nodes| > 0 && Top(s.store) > 0 && Kept(s, area) && ShortNames(s.nodes)
  }

  // ----- The empty image -----

  function ReservedInodes(): seq<Inode> {
    [FREE, Inode(Directory, 2, 0, Zeros(60), 0, Zeros(96))] + seq(8, _ => FREE)
  }

  /** The image right after its size is set: the root directory and the reserved inodes, the cursor
      behind the first superblock and descriptor area. */
  function Blank(size: positive): (r: St)
    ensures |r.nodes| > 0
  {
    St(Store(map[], Area(size) + 1, 0, size), ReservedInodes(), [Node(ROOT_INODE, SLASH, [], None, [], None)], [],
       map[], seq(10, _ => UNBORN))
  }

  const LOST_AND_FOUND: Name := [108, 111, 115, 116, 43, 102, 111, 117, 110, 100]

  function Fresh(size: positive): (r: St)
    ensures |r.nodes| > 0
  {
    Create(Blank(size), [LOST_AND_FOUND], MakeDir, NoXattrs).state
  }

  lemma {:induction false} BlankTree(nodes: Nodes)
    requires nodes == [Node(ROOT_INODE, SLASH, [], None, [], None)]
    ensures WellFormed(nodes) && Attached(nodes, ROOT) && forall k :: k != ROOT_INODE ==> Names(nodes, k) == {}
  {
  }

  lemma BlankSound(size: positive)
    ensures Sound(Blank(size))
  {
    hide Attached, LinksAgree, SiblingsDiffer, Names, Area;
    var s := Blank(size);
    BlankTree(s.nodes);
    assert DirKids(s.nodes, s.inodes, ROOT) == {};
    assert |s.inodes| == 10;
  }

  lemma BlankGood(size: positive)
    ensures Good(Blank(size), Area(size)) && forall path, what :: Plain(Blank(size), path, what)
  {
    hide Sound, Area;
    BlankSound(size);
    forall path: Path ensures PlainAt(Blank(size), path) {
    }
  }

  // ----- Names stay short enough for a directory record -----

  lemma SameNames(s: St, r: St)
    requires Pruned(s, r) && ShortNames(s.nodes)
    ensures ShortNames(r.nodes)
  {
    hide PathOf;
  }

  lemma InsertShort(s: St, p: nat, name: Name, what: What, x: Xattrs)
    requires p < |s.nodes| && |name| <= 255 && ShortNames(s.nodes)
    ensures ShortNames(Insert(s, p, name, what, x).state.nodes)
  {
    hide Stow, PlaceXattr, First, ContentOf, KindOf, Top;
  }

  lemma {:induction false} CreateShort(s: St, path: Path, what: What, x: Xattrs)
    requires Sound(s) && Top(s.store) > 0 && Plain(s, path, what) && |s.nodes| > 0 && ShortNames(s.nodes)
    ensures ShortNames(Create(s, path, what, x).state.nodes)
    decreases |path|
  {
    hide Sound, Lookup, Past, Insert, RemoveTree, Cleared, Created, Spared, Pruned, Plain, ShortNames;
    if NamesFit(path) && Clear(s, path, what).Ready? {
      ClearWell(s, path, what);
      var u := Clear(s, path, what).state;
      SameNames(s, u);
      if path == [] {
        InsertShort(u, ROOT, SLASH, what, x);
      } else {
        PlainHere(s, u, path, what);
        var parent := path[..|path| - 1];
        CreateWell(u, parent, MakeDir, NoXattrs);
        CreateShort(u, parent, MakeDir, NoXattrs);
        var v := Create(u, parent, MakeDir, NoXattrs);
        if v.error == None && Lookup(v.state.nodes, parent).Some? {
          InsertShort(v.state, Lookup(v.state.nodes, parent).value, path[|path| - 1], what, x);
        }
      }
    }
  }

  lemma StepShort(s: St, op: Op)
    requires |s.nodes| > 0 && Sound(s) && Top(s.store) > 0 && Allowed(s, op) && ShortNames(s.nodes)
    ensures ShortNames(Step(s, op).state.nodes)
  {
    hide Sound, Create, RemoveTree, RemoveAll, RemoveByDot, UnlinkNamed, Components, DotSafe, Lookup, Plain, LinkSafe,
         Pruned, AddLink, ShortNames, PlanLink, BeforeAdding;
    match op {
      case DoCreate(path, what, x) => CreateShort(s, path, what, x);
      case DoUnlink(path, whiteout) =>
        UnlinkIsNamed(s, path, whiteout);
        UnlinkRemovesExactly(s, Components(path), whiteout || EndsInDot(path));
        SameNames(s, Unlink(s, path, whiteout).state);
      case DoLink(path, target) =>
        LinkSoundIff(s, path, target);
        if Makes(s, path, target) {
          var p, ino := MakesWhat(s, path, target);
          BeforeAddingWell(s, path);
          SameNames(s, BeforeAdding(s, path));
          LinkFits(s, path, target);
          AddLinkShort(BeforeAdding(s, path), p, LastName(path), ino);
        }
    }
  }

  lemma LinkFits(s: St, path: Path, target: Path)
    requires |s.nodes| > 0 && Makes(s, path, target)
    ensures |LastName(path)| <= 255
  {
    hide Lookup, BeforeAdding, AddLink;
    assert NamesFit(path);
  }

  lemma AddLinkShort(u: St, p: nat, name: Name, ino: nat)
    requires p < |u.nodes| && |name| <= 255 && ShortNames(u.nodes)
    ensures ShortNames(AddLink(u, p, name, ino).nodes)
  {
  }

  // ----- Every step keeps every invariant -----

  lemma StepGood(s: St, op: Op, area: nat)
    requires |s.nodes| > 0 && Good(s, area) && Allowed(s, op)
    ensures Good(Step(s, op).state, area) && Later(s, Step(s, op).state)
  {
    hide Sound, Create, Link, Unlink, UnlinkNamed, Components, DotSafe, Kept, Later, Lookup, Plain, LinkSafe, Makes,
         Past, ShortNames;
    StepShort(s, op);
    match op {
      case DoCreate(path, what, x) =>
        CreateWell(s, path, what, x);
        CreateKept(s, path, what, x, area);
        PastTop(s.store, Create(s, path, what, x).state.store);
      case DoUnlink(path, whiteout) =>
        UnlinkIsNamed(s, path, whiteout);
        UnlinkRemovesExactly(s, Components(path), whiteout || EndsInDot(path));
        UnlinkKept(s, Components(path), whiteout || EndsInDot(path), area);
        LaterTop(s, Unlink(s, path, whiteout).state);
      case DoLink(path, target) =>
        LinkSoundIff(s, path, target);
        SameLater(s);
        if Makes(s, path, target) {
          LinkAddsExactly(s, path, target, area);
        }
        LaterTop(s, Link(s, path, target).state);
    }
  }

  lemma LaterTop(s: St, r: St)
    requires Later(s, r)
    ensures Top(s.store) <= Top(r.store)
  {
  }

  lemma SameLater(s: St)
    ensures Later(s, s)
  {
  }

  /** In every state of every run all invariants hold. */
  lemma {:induction false} RunGood(s: St, ops: seq<Op>, area: nat)
    requires |s.nodes| > 0 && Good(s, area) && AllAllowed(s, ops)
    ensures Good(Run(s, ops), area) && Later(s, Run(s, ops))
    decreases |ops|
  {
    hide Good, Later, Step, Allowed;
    SameLater(s);
    if ops != [] {
      StepGood(s, ops[0], area);
      RunGood(Step(s, ops[0]).state, ops[1..], area);
      LaterTransitive(s, Step(s, ops[0]).state, Run(s, ops));
    }
  }

  /** ... and in particular of every run that starts with a new image. */
  lemma {:induction false} FreshRunGood(size: positive, ops: seq<Op>)
    requires AllAllowed(Fresh(size), ops)
    ensures Good(Run(Fresh(size), ops), Area(size))
  {
    hide Good, Blank, Create, Area, AllAllowed;
    BlankGood(size);
    StepGood(Blank(size), DoCreate([LOST_AND_FOUND], MakeDir, NoXattrs), Area(size));
    RunGood(Fresh(size), ops, Area(size));
  }

  // ----- What that means -----

  /** In every state of every run, what different inodes were given, index blocks included, lies apart and
      below the cursor; blocks of an inode in use are not deleted, and its payload and xattr blocks are not
      reserved. */
  lemma {:induction false} RunAllocatesApart(size: positive, ops: seq<Op>, k: nat, r: Range)
    requires AllAllowed(Fresh(size), ops)
    requires var s := Run(Fresh(size), ops); FIRST_INODE <= k <= |s.inodes| && Gave(s.born, k, r)
    ensures var s := Run(Fresh(size), ops);
            && BornAt(s.born, k).lo <= r.start < r.end <= BornAt(s.born, k).hi <= Top(s.store)
            && (forall j :: FIRST_INODE <= j < k ==> BornAt(s.born, j).hi <= BornAt(s.born, k).lo)
            && (InodeAt(s.inodes, k).kind != Unused ==> forall d :: d in s.deleted ==> Disjoint(r, d))
            && (InodeAt(s.inodes, k).kind != Unused && Fits(s.store) ==>
                forall b: nat :: r.start <= b < r.end ==> !Reserved(b, Area(size)))
  {
    hide Run, Fresh, AllAllowed, Reserved, Area, Disjoint, DeletedExactly;
    FreshRunGood(size, ops);
    var s := Run(Fresh(size), ops);
    BornLength(s);
    GaveInSpan(s.born, Top(s.store), k, r);
    SoundDeletes(s);
    if InodeAt(s.inodes, k).kind != Unused {
      forall d | d in s.deleted ensures Disjoint(r, d) {
        LiveNotDeleted(s.inodes, s.deleted, s.born, Top(s.store), k, r, d);
      }
      if Fits(s.store) { GivenAvoids(s, k, r, Area(size)); }
    }
  }

  lemma SoundDeletes(s: St)
    requires Sound(s)
    ensures DeletedExactly(s.inodes, s.deleted, s.born)
  {
    hide Inv, DeletedExactly, Spans;
  }

  lemma GivenAvoids(s: St, k: nat, r: Range, area: nat)
    requires Kept(s, area) && Fits(s.store) && FIRST_INODE <= k <= |s.inodes| && InodeAt(s.inodes, k).kind != Unused
    requires Gave(s.born, k, r)
    ensures forall b: nat :: r.start <= b < r.end ==> !Reserved(b, area)
  {
    hide Reserved, SturdyIff, KeepsFile;
    var born := BornAt(s.born, k);
    assert Holds(s.store, InodeAt(s.inodes, k), born, area);
    forall b: nat | r.start <= b < r.end ensures !Reserved(b, area) {
      if r in born.ranges { assert InRanges(born.ranges, b); }
    }
  }

  /** In every state of every run, a file's link count is the number of names that lead to it, a directory's
      is 2 plus its child directories, and an inode out of use has no name. */
  lemma {:induction false} RunCountsLinks(size: positive, ops: seq<Op>, k: nat, i: nat)
    requires AllAllowed(Fresh(size), ops)
    ensures var s := Run(Fresh(size), ops);
            && LinksAgree(s.nodes)
            && (FIRST_INODE <= k <= |s.inodes| && IsFile(InodeAt(s.inodes, k).kind) ==>
                InodeAt(s.inodes, k).links == |Names(s.nodes, k)| > 0)
            && (FIRST_INODE <= k <= |s.inodes| && InodeAt(s.inodes, k).kind == Unused ==> Names(s.nodes, k) == {})
            && (i < |s.nodes| && Attached(s.nodes, i) && IsDirNode(s.nodes, s.inodes, i) ==>
                InodeAt(s.inodes, s.nodes[i].inode).links == 2 + |DirKids(s.nodes, s.inodes, i)|)
  {
    hide Run, Fresh, AllAllowed, Kept, Attached, Area;
    FreshRunGood(size, ops);
    SoundCounts(Run(Fresh(size), ops), k, i);
  }

  lemma {:induction false} SoundCounts(s: St, k: nat, i: nat)
    requires Sound(s)
    ensures LinksAgree(s.nodes)
    ensures FIRST_INODE <= k <= |s.inodes| && IsFile(InodeAt(s.inodes, k).kind) ==>
            InodeAt(s.inodes, k).links == |Names(s.nodes, k)| > 0
    ensures FIRST_INODE <= k <= |s.inodes| && InodeAt(s.inodes, k).kind == Unused ==> Names(s.nodes, k) == {}
    ensures i < |s.nodes| && Attached(s.nodes, i) && IsDirNode(s.nodes, s.inodes, i) ==>
            InodeAt(s.inodes, s.nodes[i].inode).links == 2 + |DirKids(s.nodes, s.inodes, i)|
  {
    hide Owned, Attached, RemovedDirs;
  }

  /** Every range given to a file or symlink is in exactly one place: with its original entry while
      that is reachable, set aside while the inode has other names, deleted once it has none. */
  lemma ThreePlaces(s: St, k: nat, r: Range)
    requires Sound(s) && FIRST_INODE <= k <= |s.inodes| && InodeAt(s.inodes, k).kind != Directory
    requires r in BornAt(s.born, k).ranges
    ensures var origin := BornAt(s.born, k).origin;
            && origin < |s.nodes| && LinksAgree(s.nodes) && r in s.nodes[origin].ranges
            && (Attached(s.nodes, origin) ==> r !in Deferred(s.deferred, k) && r !in s.deleted)
            && (!Attached(s.nodes, origin) && Names(s.nodes, k) != {} ==>
                r in Deferred(s.deferred, k) && r !in s.deleted)
            && (Names(s.nodes, k) == {} <==> r in s.deleted)
            && (Names(s.nodes, k) == {} ==> !Attached(s.nodes, origin) && k !in s.deferred)
  {
    hide DirCounts, RemovedDirs, Attached, LinksAgree, NodesSane;
    InvWellFormed(s);
    BornLength(s);
    var origin := BornAt(s.born, k).origin;
    assert InodeAt(s.inodes, k).kind == Unused <==> Names(s.nodes, k) == {} by { UnusedHasNoNames(s, k); }
    if Attached(s.nodes, origin) { assert origin in Names(s.nodes, k); }
    assert Gave(s.born, k, r);
    if r in s.deleted && !Dead(s.inodes, k) {
      LiveNotDeleted(s.inodes, s.deleted, s.born, Top(s.store), k, r, r);
      GaveInSpan(s.born, Top(s.store), k, r);
    }
  }

  lemma UnusedHasNoNames(s: St, k: nat)
    requires Sound(s) && FIRST_INODE <= k <= |s.inodes| && InodeAt(s.inodes, k).kind != Directory
    ensures LinksAgree(s.nodes) && (InodeAt(s.inodes, k).kind == Unused <==> Names(s.nodes, k) == {})
  {
    hide DirCounts, RemovedDirs, Attached, LinksAgree, NodesSane, Owned;
    InvWellFormed(s);
  }

  /** The operation leaves the entry at `q` alone. */
  ghost predicate LeavesAlone(op: Op, q: Path) {
    match op
    case DoCreate(path, what, x) => if what.MakeDir? then true else !(path <= q)
    case DoLink(path, target) => !(path <= q)
    case DoUnlink(path, whiteout) => !Reaches(path, whiteout, q)
  }

  /** Nodes keep what they refer to. */
  ghost predicate Refer(s: Nodes, r: Nodes) {
    |s| <= |r| && forall i :: 0 <= i < |s| ==> Target(r[i]) == Target(s[i])
  }

  lemma ReferTransitive(s: Nodes, t: Nodes, r: Nodes)
    requires Refer(s, t) && Refer(t, r)
    ensures Refer(s, r)
  {
  }

  lemma InsertRefers(s: St, p: nat, name: Name, what: What, x: Xattrs)
    requires p < |s.nodes|
    ensures Refer(s.nodes, Insert(s, p, name, what, x).state.nodes)
  {
    hide Stow, PlaceXattr, First, ContentOf, KindOf, Top;
  }

  lemma {:induction false} CreateRefers(s: St, path: Path, what: What, x: Xattrs)
    requires Sound(s) && Top(s.store) > 0 && Plain(s, path, what) && |s.nodes| > 0
    ensures Refer(s.nodes, Create(s, path, what, x).state.nodes)
    decreases |path|
  {
    hide Sound, Lookup, Past, Insert, RemoveTree, Cleared, Created, Spared, PathOf;
    if NamesFit(path) && Clear(s, path, what).Ready? {
      ClearWell(s, path, what);
      var u := Clear(s, path, what).state;
      if path == [] {
        InsertRefers(u, ROOT, SLASH, what, x);
      } else {
        PlainHere(s, u, path, what);
        var parent := path[..|path| - 1];
        CreateWell(u, parent, MakeDir, NoXattrs);
        CreateRefers(u, parent, MakeDir, NoXattrs);
        var v := Create(u, parent, MakeDir, NoXattrs);
        if v.error == None && Lookup(v.state.nodes, parent).Some? {
          InsertRefers(v.state, Lookup(v.state.nodes, parent).value, path[|path| - 1], what, x);
        }
      }
    }
  }

  lemma StepRefers(s: St, op: Op)
    requires |s.nodes| > 0 && Sound(s) && Top(s.store) > 0 && Allowed(s, op)
    ensures Refer(s.nodes, Step(s, op).state.nodes)
  {
    hide Sound, Create, RemoveTree, RemoveAll, RemoveByDot, UnlinkNamed, Components, DotSafe, Lookup, Plain, LinkSafe,
         PathOf, AddLink;
    match op {
      case DoCreate(path, what, x) => CreateRefers(s, path, what, x);
      case DoUnlink(path, whiteout) =>
        UnlinkIsNamed(s, path, whiteout);
        UnlinkRemovesExactly(s, Components(path), whiteout || EndsInDot(path));
      case DoLink(path, target) =>
        LinkSoundIff(s, path, target);
        if Makes(s, path, target) {
          var p, ino := MakesWhat(s, path, target);
          BeforeAddingWell(s, path);
          AddLinkRefers(BeforeAdding(s, path), p, LastName(path), ino);
        }
    }
  }

  lemma AddLinkRefers(u: St, p: nat, name: Name, ino: nat)
    requires p < |u.nodes|
    ensures Refer(u.nodes, AddLink(u, p, name, ino).nodes)
  {
  }

  /** A path that an operation leaves alone still leads to the same entry, even if the operation fails. */
  lemma StepLeaves(s: St, op: Op, q: Path, area: nat)
    requires |s.nodes| > 0 && Good(s, area) && Allowed(s, op) && LeavesAlone(op, q) && Lookup(s.nodes, q).Some?
    ensures Lookup(Step(s, op).state.nodes, q) == Lookup(s.nodes, q)
  {
    hide Sound, Create, Link, Unlink, UnlinkNamed, Components, DotSafe, Goes, Kept, Lookup, Plain, LinkSafe, Makes,
         Past, PathOf;
    match op {
      case DoCreate(path, what, x) =>
        CreateWell(s, path, what, x);
      case DoUnlink(path, whiteout) =>
        UnlinkIsNamed(s, path, whiteout);
        UnlinkRemovesExactly(s, Components(path), whiteout || EndsInDot(path));
      case DoLink(path, target) =>
        LinkSoundIff(s, path, target);
        if Makes(s, path, target) { LinkAddsExactly(s, path, target, area); }
    }
  }

  /** ... and so over any run of such operations, whatever their outcomes. */
  lemma {:induction false} RunLeaves(s: St, ops: seq<Op>, q: Path, area: nat)
    requires |s.nodes| > 0 && Good(s, area) && AllAllowed(s, ops) && Lookup(s.nodes, q).Some?
    requires forall k :: 0 <= k < |ops| ==> LeavesAlone(ops[k], q)
    ensures Lookup(Run(s, ops).nodes, q) == Lookup(s.nodes, q) && Refer(s.nodes, Run(s, ops).nodes)
    decreases |ops|
  {
    hide Step, Lookup, Allowed, LeavesAlone, Sound, Kept;
    if ops != [] {
      var t := Step(s, ops[0]).state;
      assert LeavesAlone(ops[0], q);
      StepGood(s, ops[0], area);
      StepLeaves(s, ops[0], q, area);
      StepRefers(s, ops[0]);
      RunLeaves(t, ops[1..], q, area);
      ReferTransitive(s.nodes, t.nodes, Run(s, ops).nodes);
    }
  }

  /** In any good state, what a path leads to can be read: a regular file through its extent tree, a
      short symlink in the inode, a long one through its extent tree. */
  lemma PathReads(s: St, q: Path, area: nat)
    requires Good(s, area) && Fits(s.store) && Lookup(s.nodes, q).Some?
    ensures var k := Target(s.nodes[Lookup(s.nodes, q).value]);
            k >= FIRST_INODE ==>
              && k <= |s.inodes| && InodeAt(s.inodes, k).kind != Unused
              && InodeAt(s.inodes, k).size == |BornAt(s.born, k).content|
              && (if InodeAt(s.inodes, k).kind == Symlink && |BornAt(s.born, k).content| < 60
                  then BornAt(s.born, k).content <= InodeAt(s.inodes, k).field
                  else HoldsFile(s.store.disk, InodeAt(s.inodes, k).field, BornAt(s.born, k).content))
  {
    hide Owned, DirCounts, RemovedDirs, FileCounts, Lookup, HoldsFile, Avoids, Reserved, Area;
    InvWellFormed(s);
    FoundIsAttached(s.nodes, q);
    var k := Target(s.nodes[Lookup(s.nodes, q).value]);
    if k >= FIRST_INODE { assert Holds(s.store, InodeAt(s.inodes, k), BornAt(s.born, k), area); }
  }

  /** A file that was written is read back, whatever happens to the rest of the filesystem: after any
      further operations that leave its path alone, the path leads to an inode whose size is the length
      of the content and whose extent tree leads to the content, however the input was cut up. */
  lemma {:induction false} WrittenThenRead(s: St, path: Path, chunks: seq<seq<byte>>, x: Xattrs, ops: seq<Op>,
                                           area: nat)
    requires |s.nodes| > 0 && Good(s, area) && Plain(s, path, MakeFile(Some(chunks)))
    requires var c := Create(s, path, MakeFile(Some(chunks)), x);
             && c.error == None && AllAllowed(c.state, ops) && Fits(Run(c.state, ops).store)
    requires forall k :: 0 <= k < |ops| ==> LeavesAlone(ops[k], path)
    ensures var r := Run(Create(s, path, MakeFile(Some(chunks)), x).state, ops);
            && Lookup(r.nodes, path).Some?
            && var ino := InodeAt(r.inodes, Target(r.nodes[Lookup(r.nodes, path).value]));
            && ino.kind == Regular && ino.size == |Concat(chunks)| && HoldsFile(r.store.disk, ino.field, Concat(chunks))
  {
    hide Create, Run, Good, AllAllowed, Plain, Lookup, HoldsFile, Concat, Fits, Kept, Sound, Past, Lasting;
    var what := MakeFile(Some(chunks));
    var c := Create(s, path, what, x).state;
    StepGood(s, DoCreate(path, what, x), area);
    NewFile(s, path, what, x, area);
    RunGood(c, ops, area);
    RunLeaves(c, ops, path, area);
    var r := Run(c, ops);
    PathReads(r, path, area);
    var k := Target(c.nodes[Lookup(c.nodes, path).value]);
    KindKept(c, r, k);
  }

  lemma {:induction false} NewFile(s: St, path: Path, what: What, x: Xattrs, area: nat)
    requires |s.nodes| > 0 && Good(s, area) && Plain(s, path, what)
    requires !what.MakeDir? && (path != [] || !what.MakeSymlink?) && Create(s, path, what, x).error == None
    ensures var r := Create(s, path, what, x).state;
            && |r.nodes| > 0 && Lookup(r.nodes, path).Some? && |r.born| == |r.inodes| >= FIRST_INODE
            && Target(r.nodes[Lookup(r.nodes, path).value]) == |r.inodes|
            && InodeAt(r.inodes, |r.inodes|).kind == KindOf(what)
            && BornAt(r.born, |r.inodes|).content == ContentOf(what)
  {
    hide Create, Plain, Lookup, Kept, Sound, Past, Lasting, KindOf, ContentOf;
    NewEntry(s, path, what, x);
    CreateKept(s, path, what, x, area);
    CreateWell(s, path, what, x);
    var r := Create(s, path, what, x).state;
    BornLength(r);
    NewestInode(r, path);
  }

  lemma NewestInode(r: St, path: Path)
    requires Sound(r) && |r.nodes| > 0 && Lookup(r.nodes, path).Some?
    requires Target(r.nodes[Lookup(r.nodes, path).value]) == |r.inodes|
    ensures |r.inodes| >= FIRST_INODE
  {
    hide Owned, DirCounts, RemovedDirs, FileCounts, KindsSane, Lookup;
  }

  lemma KindKept(c: St, r: St, k: nat)
    requires Later(c, r) && 1 <= k <= |c.inodes| == |c.born| && InodeAt(r.inodes, k).kind != Unused
    ensures InodeAt(r.inodes, k).kind == InodeAt(c.inodes, k).kind && BornAt(r.born, k) == BornAt(c.born, k)
  {
    hide Past;
  }

  // ----- Where link goes wrong -----

  /** Linking below a file succeeds, and the file has a child from then on. */
  lemma LinkBelowFile(s: St, path: Path, name: Name, i: nat)
    requires Sound(s) && |s.nodes| > 0 && Lookup(s.nodes, path) == Some(i) && NamesFit(path + [name])
    requires s.nodes[i].link == None && IsFile(InodeAt(s.inodes, s.nodes[i].inode).kind)
    requires InodeAt(s.inodes, s.nodes[i].inode).links < MAX_LINKS
    ensures var r := Link(s, path + [name], path); r.error == None && !Sound(r.state)
  {
    hide Sound, Lookup, AddLink, RemoveTree, NamesFit;
    var q := path + [name];
    assert q[..|q| - 1] == path;
    NothingBelowFile(s, path, name, i);
    LinkSoundIff(s, q, path);
  }

  lemma NothingBelowFile(s: St, path: Path, name: Name, i: nat)
    requires Sound(s) && |s.nodes| > 0 && Lookup(s.nodes, path) == Some(i) && !IsDirNode(s.nodes, s.inodes, i)
    ensures Lookup(s.nodes, path + [name]) == None
  {
    hide Owned, DirCounts, RemovedDirs, FileCounts, NodesSane, Attached, LinksAgree;
    LookupSnoc(s.nodes, ROOT, path, name);
  }

  /** Linking over a directory that holds the file's only name succeeds, and the new name is for an
      inode that was just cleared. */
  lemma LinkOverOnlyName(s: St, path: Path, target: Path, p: nat, i: nat)
    requires Sound(s) && |s.nodes| > 0 && Lookup(s.nodes, target) == Some(i) && NamesFit(path)
    requires path < target && Lookup(s.nodes, ParentPath(path)) == Some(p)
    requires InodeAt(s.inodes, s.nodes[p].inode).links < MAX_LINKS
    requires s.nodes[i].link == None && IsFile(InodeAt(s.inodes, s.nodes[i].inode).kind)
    requires InodeAt(s.inodes, s.nodes[i].inode).links == 1
    ensures var r := Link(s, path, target); r.error == None && !Sound(r.state)
  {
    hide Sound, Lookup, AddLink, RemoveTree, NamesFit;
    var ino := s.nodes[i].inode;
    forall q | Lookup(s.nodes, q).Some? && Target(s.nodes[Lookup(s.nodes, q).value]) == ino ensures q == target {
      OnlyName(s, q, target);
    }
    LinkSoundIff(s, path, target);
  }

  lemma OnlyName(s: St, q: Path, target: Path)
    requires Sound(s) && |s.nodes| > 0 && Lookup(s.nodes, q).Some? && Lookup(s.nodes, target).Some?
    requires var k := Target(s.nodes[Lookup(s.nodes, q).value]);
             && k == Target(s.nodes[Lookup(s.nodes, target).value]) && IsFile(InodeAt(s.inodes, k).kind)
             && InodeAt(s.inodes, k).links == 1
    ensures q == target
  {
    hide Owned, DirCounts, RemovedDirs, Lookup, Attached, LinksAgree;
    InvWellFormed(s);
    FoundIsAttached(s.nodes, q);
    FoundIsAttached(s.nodes, target);
    var i, j := Lookup(s.nodes, q).value, Lookup(s.nodes, target).value;
    var k := Target(s.nodes[i]);
    assert FIRST_INODE <= k <= |s.inodes|;
    if i != j {
      assert {i, j} <= Names(s.nodes, k);
      SubsetSize({i, j}, Names(s.nodes, k));
    }
  }

  const A: Name := [97]
  const B: Name := [98]

  /** A directory or an empty file goes right under the root. */
  lemma {:induction false} RootEntry(s: St, name: Name, what: What)
    requires |s.nodes| > 0 && |name| <= 255 && Lookup(s.nodes, [name]) == None && what in {MakeDir, MakeFile(None)}
    requires s.nodes[ROOT].inode == ROOT_INODE && InodeAt(s.inodes, ROOT_INODE).kind == Directory
    requires InodeAt(s.inodes, ROOT_INODE).links < MAX_LINKS
    ensures Create(s, [name], what, NoXattrs) == Insert(s, ROOT, name, what, NoXattrs)
    ensures Create(s, [name], what, NoXattrs).error == None
  {
    hide Lookup, Stow, FindChild;
    RootFound(s.nodes);
    NothingStored(s.store);
    DirStored(s.store);
    assert [name][..0] == [];
  }

  lemma DirStored(st: Store)
    ensures Stow(st, MakeDir).Stowed?
  {
  }

  lemma FreshRoot(size: positive)
    ensures var s := Fresh(size);
            && Good(s, Area(size)) && Lookup(s.nodes, [A]) == None && s.nodes[ROOT].inode == ROOT_INODE
            && InodeAt(s.inodes, ROOT_INODE).kind == Directory && InodeAt(s.inodes, ROOT_INODE).links == 3
            && |s.inodes| >= 10
            && forall path, what :: Plain(s, path, what)
  {
    hide Good, Area, Stow, Created, Spared;
    var b := Blank(size);
    BlankGood(size);
    assert Lookup(b.nodes, [LOST_AND_FOUND]) == None;
    RootEntry(b, LOST_AND_FOUND, MakeDir);
    DirStored(b.store);
    StepGood(b, DoCreate([LOST_AND_FOUND], MakeDir, NoXattrs), Area(size));
  }

  /** A new image, one empty file, one link: the run succeeds and its last state is not sound. */
  lemma LinkBelowFileHappens(size: positive)
    ensures var s := Create(Fresh(size), [A], MakeFile(None), NoXattrs);
            var r := Link(s.state, [A, B], [A]);
            s.error == None && Sound(s.state) && r.error == None && !Sound(r.state)
  {
    hide Fresh, Good, Sound, Create, Area, Lookup, Link;
    var f := Fresh(size);
    FreshRoot(size);
    GoodFacts(f, Area(size));
    RootEntry(f, A, MakeFile(None));
    NewEntry(f, [A], MakeFile(None), NoXattrs);
    CreateWell(f, [A], MakeFile(None), NoXattrs);
    var s := Create(f, [A], MakeFile(None), NoXattrs).state;
    assert [A] + [B] == [A, B];
    LinkBelowFile(s, [A], B, Lookup(s.nodes, [A]).value);
  }

  lemma GoodFacts(s: St, area: nat)
    requires Good(s, area)
    ensures Sound(s) && Top(s.store) > 0
  {
    hide Sound;
  }

  /** A new image, one empty file in a new directory, one link over the directory: likewise. */
  lemma LinkOverOnlyNameHappens(size: positive)
    ensures var s := Create(Fresh(size), [A, B], MakeFile(None), NoXattrs);
            var r := Link(s.state, [A], [A, B]);
            s.error == None && Sound(s.state) && r.error == None && !Sound(r.state)
  {
    hide Fresh, Good, Sound, Create, Area, Lookup, Link;
    var f := Fresh(size);
    FreshRoot(size);
    GoodFacts(f, Area(size));
    NestedFile(f);
    NewEntry(f, [A, B], MakeFile(None), NoXattrs);
    CreateWell(f, [A, B], MakeFile(None), NoXattrs);
    var s := Create(f, [A, B], MakeFile(None), NoXattrs).state;
    assert [A] < [A, B] && ParentPath([A]) == [];
    RootFound(s.nodes);
    LinkOverOnlyName(s, [A], [A, B], ROOT, Lookup(s.nodes, [A, B]).value);
  }

  lemma {:induction false} NestedFile(s: St)
    requires Sound(s) && Top(s.store) > 0 && |s.nodes| > 0 && Lookup(s.nodes, [A]) == None
    requires s.nodes[ROOT].inode == ROOT_INODE && |s.inodes| >= 10 && InodeAt(s.inodes, ROOT_INODE).kind == Directory
    requires InodeAt(s.inodes, ROOT_INODE).links == 3
    ensures var r := Create(s, [A, B], MakeFile(None), NoXattrs);
            && r.error == None && r.state.nodes[ROOT].inode == ROOT_INODE
            && InodeAt(r.state.inodes, ROOT_INODE).links == 4
  {
    hide Sound, Lookup, Past, Create, Insert;
    NothingBelowNothing(s.nodes, [A], [A, B]);
    RootEntry(s, A, MakeDir);
    RootFound(s.nodes);
    InvHolds(s);
    RootIsDir(s);
    assert [A][..0] == [];
    LastStep(s, [A], MakeDir, NoXattrs, ROOT);
    InsertedUnder(s, ROOT, A, MakeDir);
    var v := Create(s, [A], MakeDir, NoXattrs).state;
    SecondLevel(s, v, |s.nodes|);
    InsertedUnder(v, |s.nodes|, B, MakeFile(None));
  }

  lemma InsertedUnder(s: St, p: nat, name: Name, what: What)
    requires p < |s.nodes| && Insert(s, p, name, what, NoXattrs).error == None && |s.inodes| >= 10
    ensures var r := Insert(s, p, name, what, NoXattrs).state;
            && r.nodes[ROOT].inode == s.nodes[ROOT].inode
            && InodeAt(r.inodes, ROOT_INODE).links ==
                 InodeAt(s.inodes, ROOT_INODE).links
                   + (if what.MakeDir? && s.nodes[p].inode == ROOT_INODE then 1 else 0)
            && |r.inodes| >= 10
  {
    hide Stow, PlaceXattr, First, ContentOf, Top;
  }

  lemma {:induction false} SecondLevel(s: St, v: St, p: nat)
    requires |s.nodes| > 0 && |v.nodes| > 0 && Lookup(s.nodes, [A, B]) == None
    requires Create(s, [A], MakeDir, NoXattrs) == Outcome(v, None)
    requires Lookup(v.nodes, [A]) == Some(p) && InodeAt(v.inodes, v.nodes[p].inode).links == 2
    ensures Create(s, [A, B], MakeFile(None), NoXattrs) == Insert(v, p, B, MakeFile(None), NoXattrs)
    ensures Create(s, [A, B], MakeFile(None), NoXattrs).error == None
  {
    hide Lookup, Stow, AddEntry;
    assert [A, B][..1] == [A];
    NothingStored(v.store);
  }

  lemma {:induction false} OneOp(s: St, op: Op)
    requires |s.nodes| > 0
    ensures Run(s, [op]) == Step(s, op).state && (AllAllowed(s, [op]) <==> Allowed(s, op))
  {
    hide Step, Allowed;
    assert [op][1..] == [];
  }
}
