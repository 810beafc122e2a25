/** Path resolution in the reader: symbolic links, `.` and `..`, hop limit and loop detection. */
module Resolving {
  import opened Bytes
  import opened Payload
  import opened FileTree
  import F = Fs
  import opened Extents
  import opened Reading
  import opened Records
  import opened Walking

  const SLASH_BYTE: byte := 47
  const MAX_SYMLINK_HOPS: nat := 40

  // ----- Splitting a path -----

  /** The components of a path: split at slashes, empty ones dropped. */
  function Split(s: seq<byte>, pending: seq<byte>): (r: Path)
    requires SLASH_BYTE !in pending
    ensures forall i :: 0 <= i < |r| ==> SLASH_BYTE !in r[i]
    decreases |s|
  {
    if s == [] then if pending == [] then [] else [pending]
    else if s[0] == SLASH_BYTE then (if pending == [] then [] else [pending]) + Split(s[1..], [])
    else Split(s[1..], pending + [s[0]])
  }

  function Normalize(s: seq<byte>): Path {
    Split(if s != [] && s[0] == SLASH_BYTE then s[1..] else s, [])
  }

  function Join(path: Path): seq<byte> {
    if path == [] then [] else [SLASH_BYTE] + path[0] + Join(path[1..])
  }

  lemma {:induction false} SplitName(name: seq<byte>, pending: seq<byte>, rest: seq<byte>)
    requires SLASH_BYTE !in name && SLASH_BYTE !in pending
    ensures Split(name + rest, pending) == Split(rest, pending + name)
    decreases |name|
  {
    if name == [] {
      assert name + rest == rest && pending + name == pending;
    } else {
      assert (name + rest)[0] == name[0] && (name + rest)[1..] == name[1..] + rest;
      SplitName(name[1..], pending + [name[0]], rest);
      assert pending + [name[0]] + name[1..] == pending + name;
    }
  }

  lemma {:induction false} SplitJoin(path: Path, pending: seq<byte>)
    requires SLASH_BYTE !in pending && forall i :: 0 <= i < |path| ==> SLASH_BYTE !in path[i]
    ensures Split(Join(path), pending) == (if pending == [] then [] else [pending]) + path
    decreases |path|
  {
    if path != [] {
      var tail := path[0] + Join(path[1..]);
      assert Join(path) == [SLASH_BYTE] + tail;
      assert Join(path)[1..] == tail;
      SplitName(path[0], [], Join(path[1..]));
      assert [] + path[0] == path[0];
      SplitJoin(path[1..], path[0]);
      assert path == [path[0]] + path[1..];
    }
  }

  lemma {:induction false} SplitSlash(s: seq<byte>)
    requires s != [] && s[0] == SLASH_BYTE
    ensures Split(s, []) == Split(s[1..], [])
  {
  }

  /** Joining components with slashes and splitting again gives the components back. */
  lemma {:induction false} NormalizeJoin(path: Path)
    requires forall i :: 0 <= i < |path| ==> SLASH_BYTE !in path[i]
    ensures Normalize(Join(path)) == path
  {
    hide Split;
    SplitJoin(path, []);
    assert [] + path == path;
    if path != [] {
      assert Join(path)[0] == SLASH_BYTE;
      SplitSlash(Join(path));
    }
  }

  // ----- A filesystem as the reader sees it -----

  /** An inode with what its block field leads to: whether the field can be parsed, and what is there as a directory and
      as the target of a link, if it can be read. */
  datatype Object = Object(kind: F.Kind, mapped: bool, listing: Option<Listing>, target: Option<seq<byte>>)

  type Objects = map<nat, Object>

  function ObjectAt(d: Disk, length: nat, k: nat): Object {
    var ino := ReadInode(d, k);
    Object(ino.kind, Mapped(d, length, ino.field), ListingIn(d, length, ino.field),
           TargetIn(d, length, ino.field, ino.size))
  }

  /** The blocks of a directory, if all of them are there. */
  function ListingIn(d: Disk, length: nat, field: seq<byte>): Option<Listing>
    requires |field| == INODE_BLOCK_SIZE
  {
    if Mapped(d, length, field) && Inside(ParseExtents(d, field).ranges, length) then ReadDir(d, field) else None
  }

  /** All inodes that can be read from an image file of `length` bytes. */
  function ObjectsOf(d: Disk, length: nat): Objects {
    map k: nat | k < 0x1_0000_0000 && InodeThere(d, length, k) :: ObjectAt(d, length, k)
  }

  datatype Result = Found(inode: nat) | NotADirectory | PathNotFound | SymlinkLoop | InvalidPath | Unreadable

  /** One step down: the child of that name in directory `k`. */
  function Child(fs: Objects, k: nat, name: Name): Result {
    if k !in fs then Unreadable
    else if fs[k].kind != F.Directory then NotADirectory
    else if fs[k].listing == None then Unreadable
    else
      match FindName(fs[k].listing.value, name)
      case None => PathNotFound
      case Some(c) => if c in fs then Found(c) else Unreadable
  }

  // ----- The resolver, recursively -----

  /** Where a trail of directories below the root has led. */
  function At(trail: seq<nat>): nat { if trail == [] then F.ROOT_INODE else trail[|trail| - 1] }

  /** One directory up; the root is its own parent, also where a listing leads back to it. */
  function Up(trail: seq<nat>): seq<nat> {
    if At(trail) == F.ROOT_INODE then trail else trail[..|trail| - 1]
  }

  /** Follow the components from the end of the trail on. Each symbolic link may be passed once and at most
      `hops` in all; what it says comes before the components still to go. */
  function Resolve(fs: Objects, trail: seq<nat>, path: Path, follow: bool, hops: nat, visited: set<nat>): Result
    decreases hops, |path|
  {
    if path == [] then if At(trail) in fs then Found(At(trail)) else Unreadable
    else if path[0] == DOT then Resolve(fs, trail, path[1..], follow, hops, visited)
    else if path[0] == DOTDOT then Resolve(fs, Up(trail), path[1..], follow, hops, visited)
    else
      match Child(fs, At(trail), path[0])
      case Found(c) =>
        if !(fs[c].kind == F.Symlink && follow) then Resolve(fs, trail + [c], path[1..], follow, hops, visited)
        else if c in visited || hops == 0 then SymlinkLoop
        else if fs[c].target == None then Unreadable
        else
          var target := fs[c].target.value;
          if target == [] then InvalidPath
          else Resolve(fs, if target[0] == SLASH_BYTE then [] else trail, Normalize(target) + path[1..], follow,
                       hops - 1, visited + {c})
      case e => e
  }

  // ----- The resolver, as the loop it is -----

  /** The trail that a current inode and a stack of parents stand for. */
  ghost predicate Stands(trail: seq<nat>, current: nat, parents: seq<nat>) {
    && current == At(trail) && |parents| == |trail|
    && forall i :: 0 <= i < |parents| ==> parents[i] == At(trail[..i])
  }

  lemma StandsDown(trail: seq<nat>, current: nat, parents: seq<nat>, c: nat)
    requires Stands(trail, current, parents)
    ensures Stands(trail + [c], c, parents + [current])
  {
    var t := trail + [c];
    forall i | 0 <= i < |t| ensures (parents + [current])[i] == At(t[..i]) {
      assert t[..i] == trail[..i];
    }
    assert trail[..|trail|] == trail;
  }

  lemma StandsUp(trail: seq<nat>, current: nat, parents: seq<nat>)
    requires Stands(trail, current, parents) && current != F.ROOT_INODE
    ensures parents != [] && Stands(Up(trail), parents[|parents| - 1], parents[..|parents| - 1])
  {
    var n := |trail| - 1;
    forall i | 0 <= i < n ensures parents[..n][i] == At(trail[..n][..i]) {
      assert trail[..n][..i] == trail[..i];
    }
  }

  /** The loop over components with its stack of parents. A parent is always on the stack when one is
      needed, so the entry `..` of a directory is never looked up. */
  method ResolvePath(fs: Objects, path: seq<byte>, follow: bool) returns (r: Result)
    ensures r == Resolve(fs, [], Normalize(path), follow, MAX_SYMLINK_HOPS, {})
  {
    hide Normalize, Child, Stands, At, Up;
    var components := Normalize(path);
    var current, parents, visited, hops: nat, idx: nat := F.ROOT_INODE, [], {}, 0, 0;
    ghost var trail: seq<nat> := [];
    StandsAtRoot();
    assert components[0..] == components;
    while idx < |components|
      invariant idx <= |components| && hops <= MAX_SYMLINK_HOPS && Stands(trail, current, parents)
      invariant Resolve(fs, trail, components[idx..], follow, MAX_SYMLINK_HOPS - hops, visited) ==
                Resolve(fs, [], Normalize(path), follow, MAX_SYMLINK_HOPS, {})
      decreases MAX_SYMLINK_HOPS - hops, |components| - idx
    {
      var name := components[idx];
      ghost var rest := components[idx..];
      assert rest[0] == name && rest[1..] == components[idx + 1..];
      StandsAt(trail, current, parents);
      if name == DOT {
        idx := idx + 1;
      } else if name == DOTDOT {
        UpAtRoot(trail);
        if current != F.ROOT_INODE {
          StandsUp(trail, current, parents);
          trail := Up(trail);
          current, parents := parents[|parents| - 1], parents[..|parents| - 1];
        }
        idx := idx + 1;
      } else {
        var child := Child(fs, current, name);
        if !child.Found? { return child; }
        var c := child.inode;
        ChildThere(fs, current, name);
        if fs[c].kind == F.Symlink && follow {
          if c in visited { return SymlinkLoop; }
          visited := visited + {c};
          hops := hops + 1;
          if hops > MAX_SYMLINK_HOPS { return SymlinkLoop; }
          if fs[c].target == None { return Unreadable; }
          if fs[c].target.value == [] { return InvalidPath; }
          var target := Normalize(fs[c].target.value);
          if fs[c].target.value[0] == SLASH_BYTE {
            current, parents, trail := F.ROOT_INODE, [], [];
            StandsAtRoot();
            components := target + components[idx + 1..];
            idx := 0;
            assert components[0..] == components;
          } else {
            var before := components[..idx];
            components := before + target + components[idx + 1..];
            AfterSplice(before, target, rest[1..]);
          }
        } else {
          StandsDown(trail, current, parents, c);
          trail := trail + [c];
          parents := parents + [current];
          current := c;
          idx := idx + 1;
        }
      }
    }
    StandsAt(trail, current, parents);
    assert components[idx..] == [];
    r := if current in fs then Found(current) else Unreadable;
  }

  lemma StandsAtRoot()
    ensures Stands([], F.ROOT_INODE, [])
  {
  }

  lemma StandsAt(trail: seq<nat>, current: nat, parents: seq<nat>)
    requires Stands(trail, current, parents)
    ensures current == At(trail)
  {
  }

  lemma UpAtRoot(trail: seq<nat>)
    ensures At(trail) == F.ROOT_INODE ==> Up(trail) == trail
  {
  }

  lemma ChildThere(fs: Objects, k: nat, name: Name)
    requires Child(fs, k, name).Found?
    ensures Child(fs, k, name).inode in fs
  {
  }

  lemma AfterSplice<T>(before: seq<T>, target: seq<T>, rest: seq<T>)
    ensures (before + target + rest)[|before|..] == target + rest
  {
  }

  // ----- What resolution finds -----

  /** Each inode of the trail is listed in the directory before it. */
  ghost predicate Chain(fs: Objects, trail: seq<nat>) {
    forall i :: 0 <= i < |trail| ==> ListedIn(fs, At(trail[..i]), trail[i])
  }

  ghost predicate ListedIn(fs: Objects, k: nat, c: nat) {
    k in fs && fs[k].kind == F.Directory && fs[k].listing.Some? && exists e :: e in fs[k].listing.value && e.1 == c
  }

  lemma {:induction false} FindNameIn(list: Listing, name: Name)
    requires FindName(list, name).Some?
    ensures (name, FindName(list, name).value) in list
  {
    if list[0].0 != name { FindNameIn(list[1..], name); }
  }

  lemma ChainDown(fs: Objects, trail: seq<nat>, name: Name)
    requires Chain(fs, trail) && Child(fs, At(trail), name).Found?
    ensures Chain(fs, trail + [Child(fs, At(trail), name).inode])
  {
    var c := Child(fs, At(trail), name).inode;
    var t := trail + [c];
    FindNameIn(fs[At(trail)].listing.value, name);
    forall i | 0 <= i < |t| ensures ListedIn(fs, At(t[..i]), t[i]) {
      assert t[..i] == trail[..i];
      if i == |trail| {
        assert trail[..i] == trail;
        assert (name, c) in fs[At(trail)].listing.value;
      }
    }
  }

  lemma ChainUp(fs: Objects, trail: seq<nat>)
    requires Chain(fs, trail)
    ensures Chain(fs, Up(trail)) && Chain(fs, [])
  {
    var t := Up(trail);
    forall i | 0 <= i < |t| ensures ListedIn(fs, At(t[..i]), t[i]) {
      assert t[..i] == trail[..i];
    }
  }

  /** Whatever is found is reached from the root through directory entries, whatever links and dots the
      path had. */
  lemma {:induction false} FoundIsReached(fs: Objects, trail: seq<nat>, path: Path, follow: bool, hops: nat,
                                          visited: set<nat>) returns (t: seq<nat>)
    requires Chain(fs, trail) && Resolve(fs, trail, path, follow, hops, visited).Found?
    ensures Chain(fs, t) && At(t) == Resolve(fs, trail, path, follow, hops, visited).inode && At(t) in fs
    decreases hops, |path|
  {
    hide Chain, Child, Normalize, Up, At;
    if path == [] {
      t := trail;
    } else if path[0] == DOT {
      t := FoundIsReached(fs, trail, path[1..], follow, hops, visited);
    } else if path[0] == DOTDOT {
      ChainUp(fs, trail);
      t := FoundIsReached(fs, Up(trail), path[1..], follow, hops, visited);
    } else {
      var c := Child(fs, At(trail), path[0]).inode;
      ChildThere(fs, At(trail), path[0]);
      if fs[c].kind == F.Symlink && follow {
        ChainUp(fs, trail);
        var target := fs[c].target.value;
        t := FoundIsReached(fs, if target[0] == SLASH_BYTE then [] else trail, Normalize(target) + path[1..], follow,
                            hops - 1, visited + {c});
      } else {
        ChainDown(fs, trail, path[0]);
        t := FoundIsReached(fs, trail + [c], path[1..], follow, hops, visited);
      }
    }
  }

  // ----- Resolution on an image -----

  /** On the way down from inode `k` everything can be read, and no symbolic link has to be followed. */
  ghost predicate Plainly(fs: Objects, k: nat, path: Path, follow: bool)
    decreases |path|
  {
    && k in fs
    && (path != [] && fs[k].kind == F.Directory ==>
          && fs[k].listing.Some?
          && var c := FindName(fs[k].listing.value, path[0]);
             c.Some? ==> Plainly(fs, c.value, path[1..], follow) && !(follow && fs[c.value].kind == F.Symlink))
  }

  /** Then resolution finds what going down the image by name finds, and nothing where that leads nowhere. */
  lemma {:induction false} ResolvesLikeWalk(e: Disk, length: nat, trail: seq<nat>, path: Path, follow: bool, hops: nat,
                                            visited: set<nat>)
    requires NoDots(path) && Plainly(ObjectsOf(e, length), At(trail), path, follow)
    ensures var r := Resolve(ObjectsOf(e, length), trail, path, follow, hops, visited);
            match Walk(e, At(trail), path) {
              case Some(k) => r == Result.Found(k) case None => r == PathNotFound || r == NotADirectory
            }
    decreases |path|
  {
    hide ReadDir, FindName, Normalize, ReadInode, Mapped, Inside, InodeThere, TargetIn;
    if path != [] {
      var k, fs := At(trail), ObjectsOf(e, length);
      var ino := ReadInode(e, k);
      if ino.kind == F.Directory {
        var found := FindName(ReadDir(e, ino.field).value, path[0]);
        if found.Some? {
          assert At(trail + [found.value]) == found.value;
          ResolvesLikeWalk(e, length, trail + [found.value], path[1..], follow, hops, visited);
        }
      }
    }
  }
}
