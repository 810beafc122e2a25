/** What the reader answers on a finished image: reading a file by any path gives what was put where the path leads,
    through dots and symbolic links. */
module Answering {
  import opened Bytes
  import opened Geometry
  import opened Payload
  import opened Extents
  import opened Contents
  import opened FileTree
  import opened Fs
  import opened Namespace
  import opened Ownership
  import opened Pruning
  import opened Keeping
  import opened Running
  import opened Directories
  import opened Committing
  import opened Visiting
  import opened Records
  import opened Reading
  import opened Sealing
  import opened Walking
  import opened Imaging
  import opened Opening
  import R = Resolving
  import M = Meaning

  // ----- Reading a file by path -----

  datatype Answer = Content(bytes: seq<byte>) | IsDirectory | NotAFile | Failed(why: R.Result)

  /** What a request for part of the file at a path gets. */
  function FileRequest(d: Disk, length: nat, path: seq<byte>, offset: nat, count: Option<nat>): Answer {
    match R.Resolve(R.ObjectsOf(d, length), [], R.Normalize(path), true, R.MAX_SYMLINK_HOPS, {})
    case Found(k) =>
      var ino := ReadInode(d, k);
      if ino.kind == Directory then IsDirectory
      else if ino.kind != Regular then NotAFile
      else (match Request(d, length, ino.field, ino.size, offset, count)
            case Some(bytes) => Content(bytes)
            case None => Failed(R.Unreadable))
    case why => Failed(why)
  }

  method ReadFile(d: Disk, length: nat, path: seq<byte>, offset: nat, count: Option<nat>) returns (r: Answer)
    ensures r == FileRequest(d, length, path, offset, count)
  {
    hide R.Resolve, R.Normalize, R.ObjectsOf, Request, ReadInode, HoldsFile;
    var found := R.ResolvePath(R.ObjectsOf(d, length), path, true);
    if !found.Found? { return Failed(found); }
    var ino := ReadInode(d, found.inode);
    if ino.kind == Directory { return IsDirectory; }
    if ino.kind != Regular { return NotAFile; }
    var bytes := ReadContent(d, length, ino.field, ino.size, offset, count);
    r := if bytes.Some? then Content(bytes.value) else Failed(R.Unreadable);
  }

  // ----- Following a path on a map from paths to contents -----

  datatype Led = There(path: Path) | Lost(why: R.Result)

  /** Follow the components from path `at` on. `id` tells symbolic links apart: each may be passed once, and at most
      `hops` in all. */
  function Follow(look: Path -> Found, id: Path -> nat, at: Path, path: Path, follow: bool, hops: nat,
                  visited: set<nat>): Led
    decreases hops, |path|
  {
    if path == [] then There(at)
    else if path[0] == DOT then Follow(look, id, at, path[1..], follow, hops, visited)
    else if path[0] == DOTDOT then
      Follow(look, id, if at == [] then [] else at[..|at| - 1], path[1..], follow, hops, visited)
    else
      var next := at + [path[0]];
      if look(at) != ADirectory then Lost(R.NotADirectory)
      else
        match look(next)
        case Nothing => Lost(R.PathNotFound)
        case ASymlink(target) =>
          if !follow then Follow(look, id, next, path[1..], follow, hops, visited)
          else if id(next) in visited || hops == 0 then Lost(R.SymlinkLoop)
          else if target == [] then Lost(R.InvalidPath)
          else
            Follow(look, id, if target[0] == R.SLASH_BYTE then [] else at, R.Normalize(target) + path[1..], follow,
                   hops - 1,
                   visited + {id(next)})
        case _ => Follow(look, id, next, path[1..], follow, hops, visited)
  }

  /** The answer to a request where `found` is. */
  function Told(found: Found, offset: nat, count: Option<nat>): Answer {
    match found
    case AFile(content) => Content(Window(content, offset, if count.Some? then count.value else |content|))
    case ADirectory => IsDirectory
    case ASymlink(_) => NotAFile
    case Nothing => Failed(R.PathNotFound)
  }

  // ----- The inodes and directories of a finished image -----

  /** The image as the tree: where a node leads, the reader finds its kind, its children and its target. */
  ghost predicate Serves(s: St, fs: R.Objects, i: nat)
    requires i < |s.nodes|
  {
    var k := Target(s.nodes[i]);
    && k in fs && fs[k].kind == InodeAt(s.inodes, k).kind
    && (fs[k].kind == Directory <==> IsDirNode(s.nodes, s.inodes, i))
    && (fs[k].kind == Directory ==> fs[k].listing.Some? && forall name {:trigger FindName(fs[k].listing.value, name)} ::
          name != DOT && name != DOTDOT ==>
          FindName(fs[k].listing.value, name) == TargetOf(s.nodes, FindChild(s.nodes, s.nodes[i].children, name)))
    && (fs[k].kind == Symlink ==> fs[k].target == Some(BornAt(s.born, k).content))
  }

  lemma {:induction false} DirServed(s: St, i: nat, name: Name)
    requires Inv(s.nodes, s.inodes) && LinksAgree(s.nodes) && i < |s.nodes| && Attached(s.nodes, i) && name != DOT
    requires name != DOTDOT
    ensures FindName(SortNames(Pairs(DirList(s.nodes, s.inodes, i))), name) ==
            TargetOf(s.nodes, FindChild(s.nodes, s.nodes[i].children, name))
  {
    hide Inv, Attached, LinksAgree, FindName, FindChild, DirList, Pairs, SortNames, WellFormed;
    InvWellFormed(s);
    ChildrenLinked(s, i);
    ListFinds(s.nodes, s.inodes, i, name);
    FindSorted(Pairs(DirList(s.nodes, s.inodes, i)), name);
  }

  lemma {:induction false} TargetServed(s: St, order: seq<nat>, area: nat, fill: Fill, e: Disk, length: nat, k: nat)
    requires Shut(s, order, area, fill, e, length) && ClosesWell(s, order, area)
    requires FIRST_INODE <= k <= |s.inodes| && InodeAt(s.inodes, k).kind == Symlink
    ensures var ino := InodeAt(CommitAll(s, order).state.inodes, k);
            |ino.field| == 60 && TargetIn(e, length, ino.field, ino.size) == Some(BornAt(s.born, k).content)
  {
    hide Good, LinksAgree, Attached, CommitAll, Listable, IndexFree, Mapped, Inside, HoldsFile, Closes, SealLayout,
         DirsFree, ParseExtents, TargetIn;
    var ino, b := InodeAt(CommitAll(s, order).state.inodes, k), BornAt(s.born, k);
    ContentMapped(s, order, area, fill, e, length, k);
    FileHeldIff(s, order, k, area, fill);
    TableCount(s, order, area, fill, e, length);
    if HasTree(ino) {
      TreeFine(CommitAll(s, order).state.inodes, k, area);
    }
    TargetWhole(e, length, ino.field, b.content);
  }

  lemma TargetWhole(e: Disk, length: nat, field: seq<byte>, target: seq<byte>)
    requires |field| == 60
    requires if |target| < 60 then target <= field
             else
               && HoldsFile(e, field, target) && Mapped(e, length, field)
               && Inside(ParseExtents(e, field).ranges, length)
    ensures TargetIn(e, length, field, |target|) == Some(target)
  {
    hide Mapped, Inside, HoldsFile, ParseExtents, Request;
    if |target| < 60 {
      assert field[..|target|] == target;
    } else {
      RequestIs(e, length, field, target, 0, None);
      assert Window(target, 0, |target|) == target;
    }
  }

  lemma {:induction false} TableCount(s: St, order: seq<nat>, area: nat, fill: Fill, e: Disk, length: nat)
    requires Shut(s, order, area, fill, e, length)
    ensures |CommitAll(s, order).state.inodes| == |s.inodes|
  {
    hide Sound, Kept, CommitAll, Listable, Attached, LinksAgree, Closes, Finished, SealLayout, SameTree;
    CommitAllSame(s, order);
    CommitCounts(s, CommitAll(s, order).state);
  }

  lemma {:induction false} NodeServed(s: St, order: seq<nat>, area: nat, fill: Fill, e: Disk, length: nat, i: nat)
    requires Shut(s, order, area, fill, e, length) && ClosesWell(s, order, area) && i < |s.nodes|
    requires LinksAgree(s.nodes) && Attached(s.nodes, i)
    ensures Serves(s, R.ObjectsOf(e, length), i)
  {
    hide Owned, Kept, FileCounts, DirCounts, RemovedDirs, CommitAll, Listable, Attached, LinksAgree, Closes, Finished,
         SealLayout, R.ObjectsOf, Mapped, IndexFree, R.ListingIn, DirList, Pairs, SortNames, TargetIn, ReadInode,
         FilesFree, DirsFree, FindName, FindChild;
    InvWellFormed(s);
    ObjectThere(s, order, area, fill, e, length, i);
    TreeFacts(s, i);
    var k := Target(s.nodes[i]);
    if IsDirNode(s.nodes, s.inodes, i) {
      DirMapped(s, order, area, fill, e, length, i);
      DirFine(s, CommitAll(s, order).state.inodes, i, area);
      forall name | name != DOT && name != DOTDOT
        ensures FindName(SortNames(Pairs(DirList(s.nodes, s.inodes, i))), name)
                == TargetOf(s.nodes, FindChild(s.nodes, s.nodes[i].children, name))
      {
        DirServed(s, i, name);
      }
    } else if InodeAt(s.inodes, k).kind == Symlink {
      TargetServed(s, order, area, fill, e, length, k);
    }
  }

  // ----- Following on the image -----

  /** The number of the inode at a path of the tree. */
  ghost function NumberAt(s: St, path: Path): nat
    requires |s.nodes| > 0
  {
    match Lookup(s.nodes, path) case Some(j) => Target(s.nodes[j]) case None => 0
  }

  /** The inodes of the trail are those of the path, step by step. */
  ghost predicate Tracks(s: St, trail: seq<nat>, at: Path)
    requires |s.nodes| > 0
  {
    && |trail| == |at| && NoDots(at)
    && forall i {:trigger at[..i]} :: 0 <= i <= |at| ==>
       TargetOf(s.nodes, Lookup(s.nodes, at[..i])) == Some(R.At(trail[..i]))
  }

  lemma TracksHere(s: St, trail: seq<nat>, at: Path)
    requires |s.nodes| > 0 && Tracks(s, trail, at)
    ensures NoDots(at) && TargetOf(s.nodes, Lookup(s.nodes, at)) == Some(R.At(trail))
  {
    hide Lookup;
    assert at[..|at|] == at && trail[..|trail|] == trail;
  }

  lemma {:induction false} TracksDown(s: St, trail: seq<nat>, at: Path, name: Name, c: nat)
    requires |s.nodes| > 0 && Tracks(s, trail, at) && name != DOT && name != DOTDOT
    requires TargetOf(s.nodes, Lookup(s.nodes, at + [name])) == Some(c)
    ensures Tracks(s, trail + [c], at + [name])
  {
    hide Lookup;
    var path, t := at + [name], trail + [c];
    forall i {:trigger path[..i]} | 0 <= i <= |path|
      ensures TargetOf(s.nodes, Lookup(s.nodes, path[..i])) == Some(R.At(t[..i]))
    {
      if i <= |at| {
        assert path[..i] == at[..i] && t[..i] == trail[..i];
      } else {
        assert path[..i] == path && t[..i] == t;
      }
    }
  }

  /** Only the root has the root's inode. */
  lemma {:induction false} OneRoot(s: St, path: Path)
    requires Inv(s.nodes, s.inodes) && |s.nodes| > 0 && TargetOf(s.nodes, Lookup(s.nodes, path)) == Some(ROOT_INODE)
    ensures path == []
  {
    hide KindsSane, FileCounts, DirCounts, RemovedDirs, LinksAgree, Attached, Lookup;
    InvWellFormed(s);
    var j := Lookup(s.nodes, path).value;
    assert j == ROOT;
    LookupIff(s.nodes, path, ROOT);
    RootPath(s.nodes);
  }

  lemma {:induction false} TracksUp(s: St, trail: seq<nat>, at: Path)
    requires Inv(s.nodes, s.inodes) && |s.nodes| > 0 && Tracks(s, trail, at)
    ensures Tracks(s, R.Up(trail), if at == [] then [] else at[..|at| - 1])
  {
    hide Inv, Lookup;
    TracksHere(s, trail, at);
    if R.At(trail) == ROOT_INODE {
      OneRoot(s, at);
    } else {
      var up, t := at[..|at| - 1], trail[..|trail| - 1];
      forall i {:trigger up[..i]} | 0 <= i <= |up|
        ensures TargetOf(s.nodes, Lookup(s.nodes, up[..i])) == Some(R.At(t[..i]))
      {
        assert up[..i] == at[..i] && t[..i] == trail[..i];
      }
    }
  }

  lemma TracksRoot(s: St, trail: seq<nat>, at: Path)
    requires |s.nodes| > 0 && Tracks(s, trail, at)
    ensures Tracks(s, [], [])
  {
    hide Lookup;
    var path, t := at[..0], trail[..0];
    assert path == [] && t == [];
    assert path[..0] == path && t[..0] == t;
  }

  /** Everything in the tree is served. */
  ghost predicate ServesAll(s: St, fs: R.Objects) {
    && Inv(s.nodes, s.inodes) && LinksAgree(s.nodes)
    && forall i {:trigger Attached(s.nodes, i)} :: 0 <= i < |s.nodes| && Attached(s.nodes, i) ==> Serves(s, fs, i)
  }

  lemma {:induction false} ServedAt(s: St, fs: R.Objects, path: Path)
    requires |s.nodes| > 0 && ServesAll(s, fs) && Lookup(s.nodes, path).Some?
    ensures var j := Lookup(s.nodes, path).value; Attached(s.nodes, j) && Serves(s, fs, j)
    ensures var j, k := Lookup(s.nodes, path).value, NumberAt(s, path);
            && k == Target(s.nodes[j]) && k in fs
            && (fs[k].kind == Directory <==> Put(s, path) == ADirectory)
            && (fs[k].kind == Symlink <==> Put(s, path).ASymlink?)
            && (fs[k].kind == Symlink ==> fs[k].target == Some(Put(s, path).target))
  {
    hide Lookup, Attached, LinksAgree, FileCounts, DirCounts, RemovedDirs, FindName, FindChild;
    InvWellFormed(s);
    FoundIsAttached(s.nodes, path);
    var j := Lookup(s.nodes, path).value;
    TreeFacts(s, j);
  }

  /** One step down on the image is one step down in the tree. */
  lemma {:induction false} ChildLike(s: St, fs: R.Objects, at: Path, name: Name)
    requires |s.nodes| > 0 && ServesAll(s, fs) && Lookup(s.nodes, at).Some? && name != DOT && name != DOTDOT
    ensures R.Child(fs, NumberAt(s, at), name) ==
            if Put(s, at) != ADirectory then R.NotADirectory
            else if Put(s, at + [name]) == Nothing then R.PathNotFound
            else R.Found(NumberAt(s, at + [name]))
  {
    hide LookupFrom, Attached, LinksAgree, Inv, FindName, FindChild;
    ServedAt(s, fs, at);
    InvWellFormed(s);
    var i := Lookup(s.nodes, at).value;
    LookupSnoc(s.nodes, ROOT, at, name);
    if Lookup(s.nodes, at + [name]).Some? { ServedAt(s, fs, at + [name]); }
  }

  /** What the map says is what the tree has. */
  ghost predicate Agrees(s: St, look: Path -> Found, id: Path -> nat)
    requires |s.nodes| > 0
  {
    forall p {:trigger look(p)} {:trigger id(p)} :: NoDots(p) ==> look(p) == Put(s, p) && id(p) == NumberAt(s, p)
  }

  lemma NoDotsMore(at: Path, name: Name)
    requires NoDots(at) && name != DOT && name != DOTDOT
    ensures NoDots(at + [name])
  {
  }

  /** Resolving a path on the image is following it on the map, with the same loops, hops and errors. */
  lemma {:induction false} FollowsLike(s: St, fs: R.Objects, look: Path -> Found, id: Path -> nat, trail: seq<nat>,
                                       at: Path, path: Path, follow: bool, hops: nat, visited: set<nat>)
    requires |s.nodes| > 0 && ServesAll(s, fs) && Agrees(s, look, id) && Tracks(s, trail, at)
    ensures var r := R.Resolve(fs, trail, path, follow, hops, visited);
            match Follow(look, id, at, path, follow, hops, visited)
            case There(p) => NoDots(p) && Lookup(s.nodes, p).Some? && r == R.Found(NumberAt(s, p))
            case Lost(why) => r == why && !why.Found?
    decreases hops, |path|
  {
    hide Tracks, Serves, Inv, LinksAgree, Attached, Lookup, Put, R.Up, R.Child, R.Normalize, R.At, NoDots;
    TracksHere(s, trail, at);
    ServedAt(s, fs, at);
    if path == [] {
    } else if path[0] == DOT {
      FollowsLike(s, fs, look, id, trail, at, path[1..], follow, hops, visited);
    } else if path[0] == DOTDOT {
      TracksUp(s, trail, at);
      FollowsLike(s, fs, look, id, R.Up(trail), if at == [] then [] else at[..|at| - 1], path[1..], follow, hops,
                  visited);
    } else {
      var name, next := path[0], at + [path[0]];
      ChildLike(s, fs, at, name);
      NoDotsMore(at, name);
      assert look(at) == Put(s, at) && look(next) == Put(s, next) && id(next) == NumberAt(s, next);
      if look(at) == ADirectory && look(next) != Nothing {
        NextServed(s, fs, next);
        var c := NumberAt(s, next);
        if look(next).ASymlink? && follow {
          var target := look(next).target;
          if c !in visited && hops > 0 && target != [] {
            TracksRoot(s, trail, at);
            var absolute := target[0] == R.SLASH_BYTE;
            FollowsLike(s, fs, look, id, if absolute then [] else trail, if absolute then [] else at,
                        R.Normalize(target) + path[1..], follow, hops - 1, visited + {c});
          }
        } else {
          TracksDown(s, trail, at, name, c);
          FollowsLike(s, fs, look, id, trail + [c], next, path[1..], follow, hops, visited);
        }
      }
    }
  }

  lemma NextServed(s: St, fs: R.Objects, path: Path)
    requires |s.nodes| > 0 && ServesAll(s, fs) && Put(s, path) != Nothing
    ensures var k := NumberAt(s, path);
            && TargetOf(s.nodes, Lookup(s.nodes, path)) == Some(k) && k in fs
            && (fs[k].kind == Symlink <==> Put(s, path).ASymlink?)
            && (fs[k].kind == Symlink ==> fs[k].target == Some(Put(s, path).target))
  {
    hide Lookup, ServesAll;
    ServedAt(s, fs, path);
  }

  // ----- Answers -----

  lemma {:induction false} ImageServes(s: St, order: seq<nat>, area: nat, fill: Fill, e: Disk, length: nat)
    requires Shut(s, order, area, fill, e, length) && ClosesWell(s, order, area)
    ensures |s.nodes| > 0 && ServesAll(s, R.ObjectsOf(e, length))
  {
    hide Shut, Inv, LinksAgree, Attached, Serves, CommitAll, ClosesWell;
    ShutFacts(s, order, area, fill, e, length);
    forall i {:trigger Attached(s.nodes, i)} | 0 <= i < |s.nodes| && Attached(s.nodes, i)
      ensures Serves(s, R.ObjectsOf(e, length), i)
    {
      NodeServed(s, order, area, fill, e, length, i);
    }
  }

  /** What is read from the inode at a path is what was put there. */
  lemma {:induction false} ToldAt(s: St, order: seq<nat>, area: nat, fill: Fill, e: Disk, length: nat, p: Path,
                                  offset: nat, count: Option<nat>)
    requires Shut(s, order, area, fill, e, length) && ClosesWell(s, order, area)
    requires |s.nodes| > 0 && Lookup(s.nodes, p).Some?
    ensures var ino := ReadInode(e, NumberAt(s, p));
            match Put(s, p)
            case AFile(content) =>
              ino.kind == Regular && Request(e, length, ino.field, ino.size, offset, count)
                                     == Some(Window(content, offset, if count.Some? then count.value else |content|))
            case ADirectory => ino.kind == Directory
            case ASymlink(_) => ino.kind == Symlink
            case Nothing => false
  {
    hide Owned, Kept, FileCounts, DirCounts, RemovedDirs, CommitAll, Listable, Attached, LinksAgree, Closes, Finished,
         SealLayout, R.ObjectsOf, Mapped, IndexFree, R.ListingIn, TargetIn, ReadInode, DirsFree, FilesFree, Lookup,
         HoldsFile, Inside, Window, Request, ParseExtents;
    var r := CommitAll(s, order).state;
    InvWellFormed(s);
    FoundIsAttached(s.nodes, p);
    var j, k := Lookup(s.nodes, p).value, NumberAt(s, p);
    ObjectThere(s, order, area, fill, e, length, j);
    TreeFacts(s, j);
    if Put(s, p).AFile? {
      ContentMapped(s, order, area, fill, e, length, k);
      FileHeldIff(s, order, k, area, fill);
      TableCount(s, order, area, fill, e, length);
      TreeFine(r.inodes, k, area);
      RequestIs(e, length, InodeAt(r.inodes, k).field, BornAt(s.born, k).content, offset, count);
    }
  }

  /** The number of the inode that going down the image by name finds. */
  function NumberOn(e: Disk, path: Path): nat {
    match Walk(e, ROOT_INODE, path) case Some(k) => k case None => 0
  }

  function NumbersOn(e: Disk): Path -> nat { path => NumberOn(e, path) }

  /** What the run leaves at each path. */
  ghost function Remains(ops: seq<Op>): Path -> Found { path => M.Expect(ops, M.Empty, path) }

  lemma {:induction false} RemainsAgree(size: positive, ops: seq<Op>, order: seq<nat>, fill: Fill, e: Disk, length: nat)
    requires Ends(size, ops, order, fill, e, length) && M.AllSucceed(Fresh(size), ops)
    requires ClosesWell(Last(size, ops), order, Area(size))
    ensures var s := Last(size, ops);
            |s.nodes| > 0 && Inv(s.nodes, s.inodes) && Agrees(s, Remains(ops), NumbersOn(e)) && Tracks(s, [], [])
  {
    hide Run, Fresh, AllAllowed, M.AllSucceed, Good, CommitAll, Listable, Closes, ClosesWell, Finished, LinksAgree,
         Attached, Last, Put, M.Expect, Shut, SealLayout, NoDots, Inv, Lookup, Walk, Tracks, NumberAt, NumberOn;
    var s := Last(size, ops);
    EndsShut(size, ops, order, fill, e, length);
    ShutFacts(s, order, Area(size), fill, e, length);
    forall p | NoDots(p) ensures Remains(ops)(p) == Put(s, p) && NumbersOn(e)(p) == NumberAt(s, p) {
      M.RunMeans(size, ops, p);
      NumbersAgree(s, order, Area(size), fill, e, length, p);
    }
    AtRoot(s);
  }

  /** For every run whose image is closed well and for every path there is: reading a file by that path gives the
      requested part of what the run leaves where the path leads, or the reason why it leads nowhere. */
  lemma {:induction false} ReadFileMeans(size: positive, ops: seq<Op>, order: seq<nat>, fill: Fill, e: Disk,
                                         length: nat, path: seq<byte>, offset: nat, count: Option<nat>)
    requires Ends(size, ops, order, fill, e, length) && M.AllSucceed(Fresh(size), ops)
    requires ClosesWell(Last(size, ops), order, Area(size))
    ensures FileRequest(e, length, path, offset, count) ==
            match Follow(Remains(ops), NumbersOn(e), [], R.Normalize(path), true, R.MAX_SYMLINK_HOPS, {})
            case There(p) => Told(Remains(ops)(p), offset, count)
            case Lost(why) => Failed(why)
  {
    hide Run, Fresh, AllAllowed, M.AllSucceed, Good, CommitAll, Listable, Closes, ClosesWell, Finished, LinksAgree,
         Attached, Last, Put, M.Expect, Shut, SealLayout, R.ObjectsOf, NoDots, Follow, R.Resolve, R.Normalize,
         ServesAll, Request, ReadInode, Lookup, Window, Inv, Tracks, Remains, NumbersOn;
    var s := Last(size, ops);
    var fs, names := R.ObjectsOf(e, length), R.Normalize(path);
    RemainsAgree(size, ops, order, fill, e, length);
    EndsShut(size, ops, order, fill, e, length);
    ImageServes(s, order, Area(size), fill, e, length);
    FollowsLike(s, fs, Remains(ops), NumbersOn(e), [], [], names, true, R.MAX_SYMLINK_HOPS, {});
    var led := Follow(Remains(ops), NumbersOn(e), [], names, true, R.MAX_SYMLINK_HOPS, {});
    if led.There? { ToldAt(s, order, Area(size), fill, e, length, led.path, offset, count); }
  }

  lemma {:induction false} NumbersAgree(s: St, order: seq<nat>, area: nat, fill: Fill, e: Disk, length: nat, p: Path)
    requires Shut(s, order, area, fill, e, length) && ClosesWell(s, order, area) && |s.nodes| > 0 && NoDots(p)
    ensures NumberOn(e, p) == NumberAt(s, p)
  {
    hide Good, CommitAll, Listable, Closes, LinksAgree, Attached, Finished, SealLayout, DirsFree, FilesFree, SameOff,
         TableOn, Walk, Lookup;
    LegibleImage(s, order, p, area, fill);
  }

  lemma {:induction false} AtRoot(s: St)
    requires |s.nodes| > 0 && Inv(s.nodes, s.inodes)
    ensures Tracks(s, [], [])
  {
    hide KindsSane, FileCounts, DirCounts, RemovedDirs;
    var path: Path, t: seq<nat> := [], [];
    assert path[..0] == path && t[..0] == t && Lookup(s.nodes, path) == Some(ROOT);
  }

  // ----- Plain paths -----

  /** A path without dots and with no symbolic link on it leads to itself if anything is there, and nowhere
      otherwise. */
  lemma {:induction false} PlainLeads(s: St, look: Path -> Found, id: Path -> nat, at: Path, path: Path, hops: nat,
                                      visited: set<nat>)
    requires |s.nodes| > 0 && Inv(s.nodes, s.inodes) && Agrees(s, look, id) && Lookup(s.nodes, at).Some?
    requires NoDots(at + path)
    requires forall i {:trigger path[..i]} :: 0 < i <= |path| ==> !look(at + path[..i]).ASymlink?
    ensures var r := Follow(look, id, at, path, true, hops, visited);
            if look(at + path) != Nothing then r == There(at + path)
            else r == Lost(R.PathNotFound) || r == Lost(R.NotADirectory)
    decreases |path|
  {
    hide Inv, Lookup, Put;
    if path == [] {
      assert at + path == at;
      InTree(s, at);
    } else {
      var next := at + [path[0]];
      assert at + path == next + path[1..];
      assert path[..1] == [path[0]] && at + path[..1] == next;
      assert (at + path)[|at|] == path[0];
      PrefixClean(at + path, |at|);
      PrefixClean(at + path, |next|);
      assert (at + path)[..|at|] == at && (at + path)[..|next|] == next;
      StepLeads(s, at, path[0], path[1..]);
      assert look(at) == Put(s, at) && look(next) == Put(s, next) && look(at + path) == Put(s, at + path);
      if look(at) == ADirectory && look(next) != Nothing {
        forall i {:trigger path[1..][..i]} | 0 < i <= |path[1..]| ensures !look(next + path[1..][..i]).ASymlink? {
          assert next + path[1..][..i] == at + path[..i + 1];
        }
        PlainLeads(s, look, id, next, path[1..], hops, visited);
      }
    }
  }

  lemma PrefixClean(path: Path, n: nat)
    requires NoDots(path) && n <= |path|
    ensures NoDots(path[..n])
  {
  }

  lemma InTree(s: St, path: Path)
    requires |s.nodes| > 0
    ensures Lookup(s.nodes, path).Some? <==> Put(s, path) != Nothing
  {
    hide Lookup;
  }

  /** Below what is no directory, and below what is not there, is nothing. */
  lemma {:induction false} StepLeads(s: St, at: Path, name: Name, rest: Path)
    requires |s.nodes| > 0 && Inv(s.nodes, s.inodes) && Lookup(s.nodes, at).Some?
    ensures Put(s, at) != ADirectory || Put(s, at + [name]) == Nothing ==> Put(s, at + [name] + rest) == Nothing
    ensures Put(s, at + [name]) != Nothing ==> Lookup(s.nodes, at + [name]).Some?
  {
    hide FileCounts, DirCounts, RemovedDirs, LookupFrom, LinksAgree, Attached;
    InvWellFormed(s);
    FoundIsAttached(s.nodes, at);
    var i := Lookup(s.nodes, at).value;
    LookupSnoc(s.nodes, ROOT, at, name);
    if Lookup(s.nodes, at + [name]) == None { LookupJoin(s.nodes, ROOT, at + [name], rest); }
    TreeFacts(s, i);
    NoChild(s.nodes, name);
  }

  lemma {:induction false} LookupJoin(nodes: Nodes, current: nat, a: Path, b: Path)
    requires current < |nodes| && LookupFrom(nodes, current, a) == None
    ensures LookupFrom(nodes, current, a + b) == None
    decreases |a|
  {
    hide FindChild;
    assert (a + b)[0] == a[0] && (a + b)[1..] == a[1..] + b;
    var c := FindChild(nodes, nodes[current].children, a[0]);
    if c.Some? { LookupJoin(nodes, c.value, a[1..], b); }
  }

  /** In particular: the file at a plain path is read as the run left it, and where nothing is, nothing is read. */
  lemma {:induction false} PlainFileMeans(size: positive, ops: seq<Op>, order: seq<nat>, fill: Fill, e: Disk,
                                          length: nat, path: Path, offset: nat, count: Option<nat>)
    requires Ends(size, ops, order, fill, e, length) && M.AllSucceed(Fresh(size), ops)
    requires ClosesWell(Last(size, ops), order, Area(size))
    requires NoDots(path) && forall i :: 0 <= i < |path| ==> R.SLASH_BYTE !in path[i]
    requires forall i {:trigger path[..i]} :: 0 < i <= |path| ==> !M.Expect(ops, M.Empty, path[..i]).ASymlink?
    ensures var r := FileRequest(e, length, R.Join(path), offset, count);
            match M.Expect(ops, M.Empty, path)
            case AFile(content) => r == Content(Window(content, offset, if count.Some? then count.value else |content|))
            case ADirectory => r == IsDirectory
            case ASymlink(_) => r == NotAFile
            case Nothing => r == Failed(R.PathNotFound) || r == Failed(R.NotADirectory)
  {
    hide Run, Fresh, AllAllowed, M.AllSucceed, Closes, Finished, SealLayout, CommitAll, VisitsAll, ClosesWell, Last,
         M.Expect, NoDots, Follow, R.Normalize, Inv, FileRequest, Window, R.Join, Agrees, Tracks, NumbersOn, Lookup;
    ReadFileMeans(size, ops, order, fill, e, length, R.Join(path), offset, count);
    R.NormalizeJoin(path);
    RemainsAgree(size, ops, order, fill, e, length);
    RootThere(Last(size, ops));
    assert [] + path == path && path[..|path|] == path;
    forall i {:trigger path[..i]} | 0 < i <= |path| ensures !Remains(ops)([] + path[..i]).ASymlink? {
      assert [] + path[..i] == path[..i];
    }
    PlainLeads(Last(size, ops), Remains(ops), NumbersOn(e), [], path, R.MAX_SYMLINK_HOPS, {});
  }

  lemma RootThere(s: St)
    requires |s.nodes| > 0
    ensures Lookup(s.nodes, []).Some?
  {
  }
}
