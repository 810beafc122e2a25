/** The formatter object: the image, the cursor, the inodes and the tree, updated in place by loops
    over bytes, chunks, ranges and child names. Each method is tied to the function on values that
    the theorems are about. */
module Formatting {
  import opened Bytes
  import opened Geometry
  import opened Payload
  import opened Placement
  import opened Extents
  import opened Contents
  import opened FileTree
  import opened Fs
  import opened Namespace
  import opened Ownership
  import opened Pruning
  import opened Creating
  import opened Linking
  import opened Dots
  import opened Keeping
  import opened InPlace
  import opened Running
  import opened Directories
  import opened Committing
  import opened Visiting
  import opened Closing
  import opened Metadata
  import opened Sealing
  import opened Finishing

  class Formatter {
    var disk: Disk
    var block: nat
    var off: Offset
    var size: positive
    var inodes: seq<Inode>
    const tree: Tree
    var deleted: seq<Range>
    var deferred: map<nat, seq<Range>>
    ghost var born: seq<Born>

    ghost function Stored(): Store
      reads this
    {
      Store(disk, block, off, size)
    }

    ghost function State(): St
      reads this, tree
    {
      St(Store(disk, block, off, size), inodes, tree.nodes, deleted, deferred, born)
    }

    /** A new image of the given size: root directory and reserved inodes, cursor behind the first
        superblock and descriptor area, and `/lost+found`. */
    constructor (imageSize: positive)
      ensures State() == Fresh(imageSize) && fresh(tree)
    {
      hide Creating.Create, Sound, Kept, Plain;
      disk, block, off, size := map[], Area(imageSize) + 1, 0, imageSize;
      inodes := [FREE, Inode(Directory, 2, 0, Zeros(60), 0, Zeros(96))] + seq(8, _ => FREE);
      tree := new Tree(ROOT_INODE, SLASH);
      deleted, deferred := [], map[];
      born := seq(10, _ => UNBORN);
      new;
      BlankGood(imageSize);
      var ignored := Create([LOST_AND_FOUND], MakeDir, NoXattrs);
    }

    // ----- Payload -----

    method SkipReservedBlocks()
      modifies this`block
      ensures Stored() == SkipReserved(old(Stored()))
    {
      if off != 0 { return; }
      while true
        invariant SkipReserved(Stored()) == SkipReserved(old(Stored()))
        decreases SkipReserved(Stored()).block - block
      {
        var next := ReservedEnd(block, Area(size));
        if next == block { return; }
        SkipTwice(Stored());
        block := next;
      }
    }

    method AlignToBlock()
      modifies this`block, this`off
      ensures Stored() == Align(old(Stored()))
    {
      if off != 0 { block, off := block + 1, 0; }
    }

    /** Write bytes at the cursor and note the blocks they fall into. */
    method WritePayload(bytes: seq<byte>, ranges: seq<Range>) returns (filled: seq<Range>)
      modifies this`disk, this`block, this`off, this`size
      ensures Written(Stored(), filled) == WriteBytes(old(Stored()), bytes, ranges)
    {
      hide WriteBytes, PutPiece, Record, SkipReserved;
      var offset: nat := 0;
      filled := ranges;
      assert bytes[0..] == bytes;
      while offset < |bytes|
        invariant offset <= |bytes|
        invariant WriteBytes(Stored(), bytes[offset..], filled) == WriteBytes(old(Stored()), bytes, ranges)
      {
        ghost var st, rest := Stored(), bytes[offset..];
        WriteUnfold(st, rest, filled);
        SkipReservedBlocks();
        var writable := Min(BLOCK - off, |bytes| - offset);
        var piece := bytes[offset..offset + writable];
        assert piece == rest[..writable] && bytes[offset + writable..] == rest[writable..];
        filled := Record(filled, block);
        PutAtCursor(piece);
        offset := offset + writable;
      }
      assert bytes[offset..] == [];
      WriteNothing(Stored(), filled);
    }

    method PutAtCursor(piece: seq<byte>)
      requires 0 < |piece| && off + |piece| <= 4096
      modifies this`disk, this`block, this`off, this`size
      ensures Stored() == PutPiece(old(Stored()), piece)
    {
      var end := off + |piece|;
      disk := disk[block := Overwrite(BlockAt(disk, block), off, piece)];
      size := Max(size, block * BLOCK + end);
      if end == 4096 { block, off := block + 1, 0; } else { off := end; }
    }

    method WriteAlignedPayload(bytes: seq<byte>) returns (filled: seq<Range>)
      modifies this`disk, this`block, this`off, this`size
      ensures Written(Stored(), filled) == WriteAligned(old(Stored()), bytes)
    {
      hide WriteBytes, SkipReserved;
      AlignToBlock();
      SkipReservedBlocks();
      filled := WritePayload(bytes, []);
      AlignToBlock();
    }

    /** Store what a reader hands out, piece by piece, until it ends or the file gets too big. */
    method WriteFromReader(chunks: seq<seq<byte>>, ranges: seq<Range>)
        returns (filled: seq<Range>, length: nat, fits: bool)
      modifies this`disk, this`block, this`off, this`size
      ensures WriteChunks(old(Stored()), chunks, ranges, 0) ==
                if fits then ReaderResult.Stored(Written(Stored(), filled), length)
                  else TooBig(Written(Stored(), filled))
    {
      hide WriteBytes;
      filled, length := ranges, 0;
      for k := 0 to |chunks|
        invariant WriteChunks(Stored(), chunks[k..], filled, length) == WriteChunks(old(Stored()), chunks, ranges, 0)
      {
        if length + |chunks[k]| > MAX_FILE_SIZE { return filled, length, false; }
        assert chunks[k..][1..] == chunks[k + 1..];
        length := length + |chunks[k]|;
        filled := WritePayload(chunks[k], filled);
      }
      fits := true;
    }

    // ----- Extent trees -----

    method CountBlocks(ranges: seq<Range>) returns (total: nat)
      requires Proper(ranges)
      ensures total == Total(ranges)
    {
      total := 0;
      for i := 0 to |ranges|
        invariant total == Total(ranges[..i])
      {
        assert ranges[..i + 1][..i] == ranges[..i];
        total := total + (ranges[i].end - ranges[i].start);
      }
      assert ranges[..|ranges|] == ranges;
    }

    method PutLeaves(leaves: seq<Leaf>, count: nat)
      requires count == IndexBlocks(|leaves|)
      modifies this`disk, this`block, this`off
      ensures disk == PutLeafBlocks(old(disk), leaves, old(block), count) && block == old(block) + count && off == 0
    {
      hide Extents.Node;
      off := 0;
      for i := 0 to count
        invariant disk == PutLeafBlocks(old(disk), leaves, old(block), i) && block == old(block) + i && off == 0
      {
        var from, to := i * LEAVES_PER_BLOCK, Min((i + 1) * LEAVES_PER_BLOCK, |leaves|);
        var buf := NodeBuffer(leaves[from..to], LEAVES_PER_BLOCK, 4096);
        disk := disk[block := buf];
        block := block + 1;
      }
    }

    /** The block field for a file in these ranges; None if it needs a fifth index block. */
    method WriteExtentTree(ranges: seq<Range>) returns (field: Option<seq<byte>>)
      requires Proper(ranges)
      modifies this`disk, this`block, this`off
      ensures WriteExtents(old(Stored()), ranges, Zeros(60)) ==
                if field.Some? then Extents.Extents(Stored(), field.value) else ExtentResult.TooManyExtents
      ensures field == None ==> Stored() == old(Stored())
    {
      hide Total, Leaves, Extents.Node, PutLeafBlocks, IndexNode;
      var total := CountBlocks(ranges);
      if total == 0 { return Some(Zeros(60)); }
      var leaves := FillLeaves(ranges);
      var k := IndexBlocks(|leaves|);
      if |leaves| <= 4 {
        var buf := NodeBuffer(leaves, 4, INODE_BLOCK_SIZE);
        return Some(buf);
      }
      if k > 4 { return None; }
      var buf := IndexBuffer(leaves, block, k);
      PutLeaves(leaves, k);
      return Some(buf);
    }

    // ----- Content -----

    /** Skip on and write the extent tree of what was just stored. */
    method FinishContent(ranges: seq<Range>, length: nat) returns (field: Option<seq<byte>>)
      requires Proper(ranges)
      modifies this`disk, this`block, this`off
      ensures Finish(Written(old(Stored()), ranges), length) ==
                if field.Some? then Stowed.Stowed(Stored(), field.value, ranges, length) else TooDeep(Stored())
    {
      hide WriteExtents, SkipReserved;
      SkipReservedBlocks();
      field := WriteExtentTree(ranges);
    }

    /** Write what the new inode holds. */
    method StoreContent(what: What) returns (error: Option<Error>, field: seq<byte>, ranges: seq<Range>, length: nat)
      modifies this`disk, this`block, this`off, this`size
      ensures var r := Stow(old(Stored()), what);
              && Stored() == r.store
              && match r {
                   case Stowed(_, f, g, n) => error == None && field == f && ranges == g && length == n
                   case TooBigFile(_) => error == Some(FileTooBig)
                   case TooDeep(_) => error == Some(Error.TooManyExtents)
                   case Unsupported(_) => error == Some(UnsupportedFiletype)
                 }
    {
      hide Finish, WriteAligned, WriteChunks, SkipReserved, Align;
      error, field, ranges, length := None, Zeros(60), [], 0;
      match what {
        case MakeDir =>
        case MakeSymlink(target) =>
          length := |target|;
          if |target| < 60 {
            field := target + Zeros(60 - |target|);
          } else {
            AlignedInOrder(Stored(), target);
            ranges := WriteAlignedPayload(target);
            var tree := FinishContent(ranges, length);
            if tree == None { error := Some(Error.TooManyExtents); } else { field := tree.value; }
          }
        case MakeFile(data) =>
          if data.Some? {
            AcceptedInOrder(Stored(), data.value);
            AlignToBlock();
            SkipReservedBlocks();
            var fits;
            ranges, length, fits := WriteFromReader(data.value, []);
            if !fits {
              error := Some(FileTooBig);
              return;
            }
            AlignToBlock();
          }
          var tree := FinishContent(ranges, length);
          if tree == None { error := Some(Error.TooManyExtents); } else { field := tree.value; }
        case MakeOther => error := Some(UnsupportedFiletype);
      }
    }

    // ----- Unlink -----

    method ReleaseName(node: Node)
      requires 1 <= Target(node) <= |inodes|
      modifies this`inodes, this`deleted, this`deferred
      ensures State() == Release(old(State()), node)
    {
      var t := Target(node);
      hide NodeBlocks;
      if t < FIRST_INODE { return; }
      if inodes[t - 1].links > 0 { inodes := inodes[t - 1 := inodes[t - 1].(links := inodes[t - 1].links - 1)]; }
      var blocks := NodeBlocks(node);
      if inodes[t - 1].links == 0 {
        deleted := deleted + blocks;
        if t in deferred {
          deleted := deleted + deferred[t];
          deferred := deferred - {t};
        }
        if inodes[t - 1].xattr != 0 { deleted := deleted + [Range(inodes[t - 1].xattr, inodes[t - 1].xattr + 1)]; }
        inodes := inodes[t - 1 := FREE];
      } else if blocks != [] {
        deferred := deferred[t := Deferred(deferred, t) + blocks];
      }
    }

    /** Take the node off its parent's list; a directory takes its `..` along. */
    method Detach(path: Path, i: nat, isDir: bool)
      requires Sound(State()) && Lookup(tree.nodes, path) == Some(i) && tree.nodes[i].children == []
      requires isDir == IsDirNode(tree.nodes, inodes, i)
      modifies this`inodes, tree
      ensures State() == if i == ROOT then old(State())
                         else old(State()).(nodes := RemoveChild(old(tree.nodes), Parent(old(tree.nodes), i),
                                                                 old(tree.nodes[i].name)),
                                            inodes := DropDotDot(old(tree.nodes), old(inodes), i))
      ensures |inodes| == |old(inodes)|
    {
      hide Sound, Lookup, RemoveChild;
      DetachWhere(State(), path, i);
      var up := tree.Find(ParentPath(path));
      if up.Some? {
        var q := tree.nodes[up.value].inode;
        if isDir && inodes[q - 1].links > 2 {
          inodes := inodes[q - 1 := inodes[q - 1].(links := inodes[q - 1].links - 1)];
        }
        tree.Remove(up.value, LastName(path));
      }
    }

    method RemoveEntry(path: Path, i: nat, isDir: bool)
      requires Sound(State()) && Lookup(tree.nodes, path) == Some(i) && tree.nodes[i].children == []
      requires isDir == IsDirNode(tree.nodes, inodes, i)
      modifies this`inodes, this`deleted, this`deferred, tree
      ensures State() == if i == ROOT then old(State()) else RemoveLeaf(old(State()), i)
    {
      hide Sound, Lookup, RemoveChild, Release, DropDotDot;
      NodeTarget(State(), i);
      DetachWhere(State(), path, i);
      var node := tree.nodes[i];
      Detach(path, i, isDir);
      ghost var t := State();
      ReleaseName(node);
      if i == ROOT { RootReleased(t, node); }
    }

    method ChildNames(children: seq<nat>) returns (names: seq<Name>)
      requires forall k :: 0 <= k < |children| ==> children[k] < |tree.nodes|
      ensures |names| == |children| && forall k :: 0 <= k < |children| ==> names[k] == tree.nodes[children[k]].name
    {
      names := [];
      for k := 0 to |children|
        invariant |names| == k && forall j :: 0 <= j < k ==> names[j] == tree.nodes[children[j]].name
      {
        names := names + [tree.nodes[children[k]].name];
      }
    }

    /** Remove the entry at the path and everything below it, child by child and each by its path; for a
        whiteout only what is below. */
    method UnlinkNamed(path: Path, whiteout: bool) returns (error: Option<Error>)
      requires Sound(State())
      modifies this`inodes, this`deleted, this`deferred, tree
      ensures Outcome(State(), error) == Fs.UnlinkNamed(old(State()), path, whiteout)
      decreases Remaining(tree.nodes, path)
    {
      hide Sound, Lookup, RemoveTree, RemoveAll, RemoveLeaf, PartWay, Remaining, Target, LinksAgree;
      ghost var s := State();
      InvHolds(s);
      InvWellFormed(s);
      error := None;
      var found := tree.Find(path);
      if found == None { return; }
      var i := found.value;
      var node := tree.nodes[i];
      var isDir := node.link == None && InodeAt(inodes, node.inode).kind == Directory;
      if whiteout && !isDir { return Some(NotDirectory); }
      ChildrenInRange(s.nodes, i);
      var names := ChildNames(node.children);
      StartPartWay(s, i);
      for k := 0 to |names|
        invariant PartWay(s, State(), i, node.children, k)
      {
        ghost var t := State();
        ChildByPath(s, t, path, i, k);
        var ignored := UnlinkNamed(path + [names[k]], false);
        NextPartWay(s, t, i, k);
      }
      EndPartWay(s, State(), path, i);
      if whiteout { return; }
      RemoveEntry(path, i, isDir);
      LeafSteps(s, RemoveAll(s, i, node.children), i);
    }

    /** The same for any path. Behind a dot the node is taken for its own parent: it loses a link and stays. */
    method Unlink(path: Path, whiteout: bool) returns (error: Option<Error>)
      requires Sound(State())
      modifies this`inodes, this`deleted, this`deferred, tree
      ensures Outcome(State(), error) == Fs.Unlink(old(State()), path, whiteout)
    {
      hide Sound, Lookup, RemoveTree, RemoveAll, TakeLink, Components, LinksAgree, Target, IsDirNode;
      ghost var s := State();
      InvHolds(s);
      InvWellFormed(s);
      var plain := Components(path);
      if whiteout || !EndsInDot(path) {
        error := UnlinkNamed(plain, whiteout);
        return;
      }
      error := None;
      var found := tree.Find(plain);
      if found == None { return; }
      var i := found.value;
      ByDotReady(s, plain, i);
      var isDir := IsDirNode(tree.nodes, inodes, i);
      if isDir { var ignored := UnlinkNamed(plain, true); }
      DropLink(i, isDir);
    }

    method DropLink(i: nat, isDir: bool)
      requires i < |tree.nodes| && LinksAgree(tree.nodes) && isDir == IsDirNode(tree.nodes, inodes, i)
      requires 1 <= tree.nodes[i].inode <= |inodes| && 1 <= Target(tree.nodes[i]) <= |inodes|
      modifies this`inodes, this`deleted, this`deferred, tree
      ensures State() == TakeLink(old(State()), i)
    {
      hide RemoveChild, Release, LinksAgree;
      var node := tree.nodes[i];
      var q := node.inode;
      if isDir && inodes[q - 1].links > 2 {
        inodes := inodes[q - 1 := inodes[q - 1].(links := inodes[q - 1].links - 1)];
      }
      tree.Remove(i, DOT);
      ReleaseName(node);
    }

    // ----- Link -----

    method CheckNames(path: Path) returns (fit: bool)
      ensures fit == NamesFit(path)
    {
      for k := 0 to |path|
        invariant forall j :: 0 <= j < k ==> |path[j]| <= 255
      {
        if |path[k]| > 255 { return false; }
      }
      return true;
    }

    /** Everything link checks before it changes anything. */
    method CheckLink(path: Path, target: Path) returns (plan: LinkPlan)
      requires Sound(State())
      ensures plan == PlanLink(State(), path, target)
      ensures plan.Go? ==> 1 <= plan.ino <= |inodes|
    {
      hide Sound, Lookup, LinksAgree, NamesFit, InodeAt, Target, ParentPath;
      ghost var s := State();
      InvHolds(s);
      InvWellFormed(s);
      var fit := CheckNames(path);
      if !fit { return Fail(InvalidName); }
      var found := tree.Find(target);
      if found == None { return Fail(NotFound); }
      var ino := tree.nodes[found.value].inode;
      NodeInode(s, found.value);
      if InodeAt(inodes, ino).kind == Directory { return Fail(CannotHardlinkDirectory); }
      var existing := tree.Find(path);
      if existing.Some? && Target(tree.nodes[existing.value]) == ino { return Already; }
      var up := tree.Find(ParentPath(path));
      if up == None { return Fail(NotFound); }
      if InodeAt(inodes, tree.nodes[up.value].inode).links >= MAX_LINKS { return Fail(MaximumLinksExceeded); }
      return Go(up.value, ino);
    }

    /** Make `path` another name of the file at `target`; nothing changes before all checks are passed. */
    method Link(path: Path, target: Path) returns (error: Option<Error>)
      requires Sound(State())
      modifies this`inodes, this`deleted, this`deferred, tree
      ensures Outcome(State(), error) == Fs.Link(old(State()), path, target)
    {
      hide Sound, PlanLink, Lookup, AddLink, Lasting, RemoveTree;
      error := None;
      var plan := CheckLink(path, target);
      if plan.Fail? { return Some(plan.error); }
      if plan.Already? { return; }
      ghost var s := State();
      if Lookup(s.nodes, path).Some? { TreeLasting(s, Lookup(s.nodes, path).value); }
      var ignored := UnlinkNamed(path, false);   // does nothing where nothing is
      AddName(plan.parent, LastName(path), plan.ino);
    }

    method AddName(p: nat, name: Name, ino: nat)
      requires p < |tree.nodes| && 1 <= ino <= |inodes|
      modifies this`inodes, tree
      ensures State() == AddLink(old(State()), p, name, ino)
    {
      inodes := inodes[ino - 1 := inodes[ino - 1].(links := Bump(inodes[ino - 1].links))];
      var ignored := tree.Add(p, LinkNode(name, ino));
    }

    // ----- Create -----

    method StoreXattrs(x: Xattrs) returns (at: nat)
      modifies this`disk, this`block, this`off, this`size
      ensures var w := PlaceXattr(old(Stored()), x); Stored() == w.store && at == First(w.ranges)
    {
      hide WriteAligned;
      at := 0;
      if x.Packed? && x.block.Some? {
        var ranges := WriteAlignedPayload(x.block.value);
        if ranges != [] { at := ranges[0].start; }
      }
    }

    /** Store attributes and content, then register the new inode and its entry under node `p`. */
    method InsertEntry(p: nat, name: Name, what: What, x: Xattrs) returns (error: Option<Error>)
      requires p < |tree.nodes| && 1 <= tree.nodes[p].inode <= |inodes|
      modifies this`disk, this`block, this`off, this`size, this`inodes, this`born, tree
      ensures Outcome(State(), error) == Insert(old(State()), p, name, what, x)
    {
      hide Stow, PlaceXattr, First, AddChild, ContentOf;
      var q := tree.nodes[p].inode;
      if inodes[q - 1].links >= MAX_LINKS { return Some(MaximumLinksExceeded); }
      if x.Refused? { return Some(x.error); }
      ghost var lo := Top(Stored());
      var xattr := StoreXattrs(x);
      var field, ranges, length;
      error, field, ranges, length := StoreContent(what);
      if error.Some? { return; }
      if what.MakeDir? { inodes := inodes[q - 1 := inodes[q - 1].(links := Bump(inodes[q - 1].links))]; }
      inodes := inodes + [Inode(KindOf(what), if what.MakeDir? then 2 else 1, length, field, xattr, InlineOf(x))];
      born := born + [Born(KindOf(what), ContentOf(what), |tree.nodes|, ranges, xattr, AttrsOf(x), lo, Top(Stored()))];
      var ignored := tree.Add(p, Node(|inodes|, name, [], None, ranges, None));
    }

    /** Deal with what stands at the path already. */
    method ClearTheWay(path: Path, what: What) returns (done: bool, error: Option<Error>)
      requires Sound(State())
      modifies this`inodes, this`deleted, this`deferred, tree
      ensures match Clear(old(State()), path, what) {
                case Done => done && error == None && State() == old(State())
                case Blocked(e) => done && error == Some(e) && State() == old(State())
                case Ready(u) => !done && State() == u
              }
    {
      hide Sound, Lookup, RemoveTree, LinksAgree;
      ghost var s := State();
      InvHolds(s);
      InvWellFormed(s);
      done, error := false, None;
      var found := tree.Find(path);
      if found.Some? {
        var node := tree.nodes[found.value];
        NodeInode(s, found.value);
        var isDir := inodes[node.inode - 1].kind == Directory;
        if what.MakeDir? {
          if isDir { return true, None; }
          return true, Some(NotDirectory);
        }
        if node.link == None && isDir && !what.MakeSymlink? { return true, Some(NotFile); }
        var ignored := UnlinkNamed(path, false);
      }
    }

    /** Make a file, symlink or directory at the path, and the directories that lead to it. */
    method Create(path: Path, what: What, x: Xattrs) returns (error: Option<Error>)
      requires Sound(State())
      modifies this, tree
      ensures Outcome(State(), error) == Creating.Create(old(State()), path, what, x)
      decreases |path|
    {
      hide Sound, Lookup, LinksAgree, Insert, NamesFit, Pruned, Cleared, Clear, InodeAt, Target, Inv;
      ghost var s := State();
      var fit := CheckNames(path);
      if !fit { return Some(InvalidName); }
      var done;
      done, error := ClearTheWay(path, what);
      if done { return; }
      ghost var u := State();
      ClearWell(s, path, what);
      if path != [] {
        CreateShaped(u, ParentPath(path), MakeDir, NoXattrs);
        error := Create(ParentPath(path), MakeDir, NoXattrs);
        if error.Some? { return; }
      }
      ghost var v := State();
      if path == [] { SoundShaped(u); }
      RootFound(v.nodes);
      var up := tree.Find(ParentPath(path));
      if up == None { return Some(NotFound); }
      error := InsertEntry(up.value, LastName(path), what, x);
    }

    // ----- Writing the directories out -----

    /** All reachable nodes, breadth first. */
    method BreadthFirst() returns (order: seq<nat>)
      requires Sound(State())
      ensures VisitsAll(tree.nodes, order)
    {
      hide Sound, Inv, Frontier, VisitsAll, LinksAgree;
      ghost var s := State();
      InvHolds(s);
      InvWellFormed(s);
      var queue: seq<nat> := [ROOT];
      order := [];
      FrontierStart(s.nodes);
      while queue != []
        invariant Frontier(s.nodes, order, queue)
        decreases |s.nodes| - |order|
      {
        FrontierStep(s.nodes, order, queue);
        var i := queue[0];
        FrontierRoom(s.nodes, order, queue);
        LinkHasNoChildren(s, i);
        assert queue[1..] + [] == queue[1..];
        queue := if tree.nodes[i].link.Some? then queue[1..] else queue[1..] + tree.nodes[i].children;
        order := order + [i];
      }
      FrontierEnd(s.nodes, order);
    }

    /** One line for each listed child whose inode has links. */
    method ListKids(list: seq<nat>) returns (entries: seq<Entry>)
      requires forall x :: 0 <= x < |list| ==> list[x] < |tree.nodes|
      ensures entries == KidEntries(tree.nodes, inodes, list)
    {
      entries := [];
      for k := 0 to |list|
        invariant entries == KidEntries(tree.nodes, inodes, list[..k])
      {
        assert list[..k + 1][..k] == list[..k];
        var child := tree.nodes[list[k]];
        if InodeAt(inodes, Target(child)).links > 0 { entries := entries + [EntryFor(tree.nodes, inodes, list[k])]; }
      }
      assert list[..|list|] == list;
    }

    /** Write the list of one directory and point its inode at it. */
    method CommitDirectory(i: nat) returns (error: Option<Error>)
      requires i < |tree.nodes| && Listable(tree.nodes) && 1 <= tree.nodes[i].inode <= |inodes|
      requires forall x :: 0 <= x < |tree.nodes[i].children| ==> tree.nodes[i].children[x] < |tree.nodes|
      modifies this`disk, this`block, this`off, this`size, this`inodes, tree
      ensures Outcome(State(), error) == CommitDir(old(State()), i)
    {
      hide WriteAligned, Finish, DirBytes, SortKids, KidEntries, Listable, InodeAt, SkipReserved;
      error := None;
      if !IsCommitted(tree.nodes, inodes, i) { return; }
      ghost var s := State();
      var k, up := tree.nodes[i].inode, InodeOf(tree.nodes, Parent(tree.nodes, i));
      var sorted := SortKids(tree.nodes, tree.nodes[i].children);
      SortedInRange(tree.nodes, tree.nodes[i].children);
      var kids := ListKids(sorted);
      var dots := [Entry(DOT, k, KindCode(InodeAt(inodes, k).kind)),
                   Entry(DOTDOT, up, KindCode(InodeAt(inodes, up).kind))];
      DirStorable(tree.nodes, inodes, i);
      var bytes := WriteDirectory(dots + kids);
      AlignedInOrder(Stored(), bytes);
      var ranges := WriteAlignedPayload(bytes);
      ghost var w := Written(Stored(), ranges);
      FinishDeep(w, |bytes|);
      var field := FinishContent(ranges, |bytes|);
      if field == None { return Some(Error.TooManyExtents); }
      inodes := SetInode(inodes, k, InodeAt(inodes, k).(size := |bytes|, field := field.value));
      tree.nodes := tree.nodes[i := tree.nodes[i].(ranges := ranges)];
    }

    /** Write all directories, breadth first, up to the first that cannot be. */
    method CommitDirectories() returns (error: Option<Error>, ghost order: seq<nat>)
      requires Sound(State()) && Listable(tree.nodes)
      modifies this`disk, this`block, this`off, this`size, this`inodes, tree
      ensures VisitsAll(old(tree.nodes), order) && Outcome(State(), error) == CommitAll(old(State()), order)
    {
      hide CommitDir, Sound, Inv, Listable, VisitsAll, SameTree;
      ghost var s := State();
      var visit := BreadthFirst();
      order := visit;
      OrderInRange(s.nodes, visit);
      for n := 0 to |visit|
        invariant Outcome(State(), None) == CommitAll(s, visit[..n])
      {
        assert visit[..n + 1][..n] == visit[..n];
        CommitAllSame(s, visit[..n]);
        ReadyToCommit(s, State(), visit[n]);
        error := CommitDirectory(visit[n]);
        if error.Some? {
          CommitStops(s, visit, n + 1);
          return;
        }
      }
      assert visit[..|visit|] == visit;
      error := None;
    }

    // ----- Closing the image -----

    /** Raise the size until it holds the groups with data and all metadata, then to whole groups. */
    method RaiseSize(groups: nat, end: nat) returns (total: nat)
      requires groups >= 1
      modifies this`size
      ensures total == TotalGroups(LeastSize(old(size), groups, end))
      ensures size == Max(LeastSize(old(size), groups, end), total * GROUP * BLOCK)
    {
      var least := if groups == 1 then GROUP else (groups - 1) * GROUP + 1;
      if size < least * BLOCK { size := least * BLOCK; }
      var whole := (Max(end - 1, 0) / GROUP + 1) * GROUP * BLOCK;
      if size < whole { size := whole; }
      total := (size / BLOCK - 1) / GROUP + 1;
      if size < total * GROUP * BLOCK { size := total * GROUP * BLOCK; }
    }

    /** Write the directories, find the layout, and write all metadata; refused if the descriptors need more room than
        was set aside. */
    method Close(fill: Fill) returns (closed: bool, ghost order: seq<nat>)
      requires Sound(State()) && Listable(tree.nodes)
      modifies this`disk, this`block, this`off, this`size, this`inodes, tree
      ensures VisitsAll(old(tree.nodes), order) && forall x :: 0 <= x < |order| ==> order[x] < |old(tree.nodes)|
      ensures var r := CommitAll(old(State()), order);
              && (closed <==> r.error == None && Sealing.Close(r.state, fill).Closed?)
              && (closed ==> disk == Sealing.Close(r.state, fill).disk)
    {
      hide Sound, Listable, VisitsAll, CommitAll, WriteAligned, PerGroup, GroupsFor, DataEnd, LeastSize, TotalGroups,
           Area, AreaFor, DescriptorBlocks, Apply, Writes, ResizeInode, Descriptors;
      ghost var s := State();
      var error;
      error, order := CommitDirectories();
      OrderInRange(s.nodes, order);
      if error.Some? { return false, order; }
      ghost var r := State();
      var room := Area(size);
      var ranges := WriteAlignedPayload(Zeros(4096));
      assert Written(Stored(), ranges) == Prepared(r);
      if ranges == [] { return false, order; }
      var dind := ranges[0].start;
      var groups, perGroup := ChooseLayout(block, |inodes|);
      LayoutSane(Stored(), |inodes|);
      var end := DataEnd(block, groups, perGroup);
      var total := RaiseSize(groups, end);
      var d := DescriptorBlocks(total);
      assert SealLayout(r) == Layout(block, groups, perGroup, end, size, total, d);
      if AreaFor(d) > room { return false, order; }
      inodes := SetInode(inodes, RESIZE_INODE, ResizeInode(dind));
      var p := Plan(Image(end, Area(size), deleted, inodes, perGroup, block, groups, total), d, dind, fill);
      assert p == SealPlan(r, fill);
      SlotsEnough(d, total, room);
      disk := WriteMetadata(disk, p);
      closed := true;
    }
  }

  /** There is room for the lists of a table that is no larger than its area. */
  lemma {:induction false} SlotsEnough(d: nat, total: nat, room: nat)
    requires AreaFor(d) <= room <= ADDRESSES_PER_BLOCK && 1 <= total <= 128 * d
    ensures AreaFor(d) <= RESIZE_SLOTS && |BackupGroups(total)| <= RESIZE_SLOTS
  {
    SlotsFit(d, total);
  }

  // ----- Committing -----

  lemma FrontierRoom(nodes: Nodes, order: seq<nat>, queue: seq<nat>)
    requires LinksAgree(nodes) && Frontier(nodes, order, queue) && queue != []
    ensures |order| < |nodes| && queue[0] < |nodes|
  {
    NotMoreThanAll(order + queue, |nodes|);
    assert (order + queue)[|order|] == queue[0];
  }

  lemma LinkHasNoChildren(s: St, i: nat)
    requires Sound(s) && i < |s.nodes|
    ensures s.nodes[i].link.Some? ==> s.nodes[i].children == []
  {
    hide Owned, FileCounts, DirCounts, RemovedDirs, NodesSane, Attached;
  }

  lemma {:induction false} SortedInRange(nodes: Nodes, kids: seq<nat>)
    requires forall x :: 0 <= x < |kids| ==> kids[x] < |nodes|
    ensures forall x :: 0 <= x < |SortKids(nodes, kids)| ==> SortKids(nodes, kids)[x] < |nodes|
  {
    var r := SortKids(nodes, kids);
    forall x | 0 <= x < |r| ensures r[x] < |nodes| {
      assert r[x] in multiset(r);
      assert r[x] in kids;
    }
  }

  lemma FinishDeep(w: Written, size: nat)
    ensures Finish(w, size).Stowed? || Finish(w, size) == TooDeep(SkipReserved(w.store))
    ensures Finish(w, size).Stowed? ==> Finish(w, size).ranges == w.ranges && Finish(w, size).size == size
  {
    hide SkipReserved;
  }

  lemma OrderInRange(nodes: Nodes, order: seq<nat>)
    requires VisitsAll(nodes, order)
    ensures forall x :: 0 <= x < |order| ==> order[x] < |nodes|
  {
  }

  lemma ReadyToCommit(s: St, t: St, i: nat)
    requires Sound(s) && SameTree(s, t) && i < |s.nodes|
    ensures |t.nodes| == |s.nodes| && 1 <= t.nodes[i].inode <= |t.inodes|
    ensures forall x :: 0 <= x < |t.nodes[i].children| ==> t.nodes[i].children[x] < |t.nodes|
  {
    hide Sound, Inv;
    InvHolds(s);
    InvWellFormed(s);
    NodeInode(s, i);
    ChildrenInRange(s.nodes, i);
  }

  /** After an error nothing more happens. */
  lemma {:induction false} CommitStops(s: St, order: seq<nat>, n: nat)
    requires Listable(s.nodes) && (forall x :: 0 <= x < |order| ==> order[x] < |s.nodes|) && n <= |order|
    requires CommitAll(s, order[..n]).error.Some?
    ensures CommitAll(s, order) == CommitAll(s, order[..n])
    decreases |order|
  {
    hide CommitDir, Listable;
    if n == |order| {
      assert order[..n] == order;
    } else {
      var init := order[..|order| - 1];
      assert init[..n] == order[..n];
      CommitStops(s, init, n);
    }
  }

  // ----- Unlink by paths does what unlink by nodes does -----

  lemma {:induction false} ByDotReady(s: St, path: Path, i: nat)
    requires Sound(s) && |s.nodes| > 0 && Lookup(s.nodes, path) == Some(i)
    ensures var t := RemoveAll(s, i, s.nodes[i].children);
            && i < |t.nodes| == |s.nodes| && LinksAgree(t.nodes) && |t.inodes| == |s.inodes|
            && t.nodes[i].inode == s.nodes[i].inode && t.nodes[i].link == s.nodes[i].link
            && 1 <= s.nodes[i].inode <= |s.inodes| && 1 <= Target(t.nodes[i]) <= |t.inodes|
            && (!IsDirNode(s.nodes, s.inodes, i) ==> t == s)
            && IsDirNode(t.nodes, t.inodes, i) == IsDirNode(s.nodes, s.inodes, i)
  {
    hide Sound, Lookup, RemoveAll, Attached, LinksAgree;
    var t := Emptied(s, path, i);
    NodeInode(s, i);
    NodeTarget(t, i);
    AllLasting(s, i, s.nodes[i].children);
    if !IsDirNode(s.nodes, s.inodes, i) { OnlyDirsHaveChildren(s, i); }
    DirStaysDir(s, t, i);
  }

  lemma {:induction false} OnlyDirsHaveChildren(s: St, i: nat)
    requires Sound(s) && i < |s.nodes| && !IsDirNode(s.nodes, s.inodes, i)
    ensures RemoveAll(s, i, s.nodes[i].children) == s
  {
    hide Owned, FileCounts, DirCounts, RemovedDirs, NodesSane, Attached, LinksAgree;
  }

  lemma {:induction false} DirStaysDir(s: St, t: St, i: nat)
    requires Lasting(s.inodes, t.inodes) && |t.inodes| == |s.inodes| && i < |s.nodes| == |t.nodes|
    requires t.nodes[i].inode == s.nodes[i].inode && t.nodes[i].link == s.nodes[i].link
    requires Sound(t) && LinksAgree(t.nodes) && Attached(t.nodes, i) && 1 <= s.nodes[i].inode <= |s.inodes|
    ensures IsDirNode(t.nodes, t.inodes, i) == IsDirNode(s.nodes, s.inodes, i)
  {
    hide Owned, FileCounts, DirCounts, RemovedDirs, NodesSane, Attached, LinksAgree;
    InvWellFormed(t);
  }

  function Remaining(nodes: Nodes, path: Path): nat {
    if |nodes| > 0 && Lookup(nodes, path).Some? then |nodes| - Lookup(nodes, path).value else 0
  }

  lemma ChildrenInRange(nodes: Nodes, i: nat)
    requires LinksAgree(nodes) && i < |nodes|
    ensures forall k :: 0 <= k < |nodes[i].children| ==> i < nodes[i].children[k] < |nodes|
  {
  }

  /** Where the parent of the entry at `path` is found, and under which name the entry stands there. */
  lemma DetachWhere(t: St, path: Path, i: nat)
    requires Sound(t) && |t.nodes| > 0 && Lookup(t.nodes, path) == Some(i) && t.nodes[i].children == []
    ensures LinksAgree(t.nodes) && Lookup(t.nodes, ParentPath(path)) == Some(Parent(t.nodes, i))
    ensures Parent(t.nodes, i) < |t.nodes|
    ensures 1 <= t.nodes[Parent(t.nodes, i)].inode <= |t.inodes|
    ensures i != ROOT ==> LastName(path) == t.nodes[i].name
    ensures i == ROOT ==>
              && Target(t.nodes[i]) == ROOT_INODE && InodeAt(t.inodes, t.nodes[ROOT].inode).links == 2
              && RemoveChild(t.nodes, ROOT, LastName(path)) == t.nodes
  {
    hide Owned, FileCounts, RemovedDirs, Lookup, Attached;
    InvWellFormed(t);
    FoundIsAttached(t.nodes, path);
    RootFound(t.nodes);
    if i != ROOT {
      var p := Parent(t.nodes, i);
      assert PathOf(t.nodes, i) == PathOf(t.nodes, p) + [t.nodes[i].name];
      assert path[..|path| - 1] == PathOf(t.nodes, p);
      AttachedParent(t.nodes, i);
      AttachedIsFound(t.nodes, p);
    } else {
      RootFound(t.nodes);
      assert DirKids(t.nodes, t.inodes, ROOT) == {};
      assert t.nodes[ROOT].(children := []) == t.nodes[ROOT];
    }
  }

  lemma RootReleased(t: St, node: Node)
    requires Target(node) < FIRST_INODE
    ensures Release(t, node) == t
  {
  }

  lemma {:induction false} AttachedParent(nodes: Nodes, i: nat)
    requires LinksAgree(nodes) && Attached(nodes, i) && i != ROOT
    ensures Attached(nodes, Parent(nodes, i))
  {
  }

  /** The first `k` children of node `i`, and all below them, are gone. */
  ghost predicate PartWay(s: St, t: St, i: nat, kids: seq<nat>, k: nat) {
    && Sound(s) && Sound(t) && i < |s.nodes| && |t.nodes| == |s.nodes| && k <= |kids| && kids == s.nodes[i].children
    && LinksAgree(s.nodes) && LinksAgree(t.nodes) && Pruned(s, t)
    && RemoveAll(t, i, kids[k..]) == RemoveAll(s, i, kids)
    && forall j :: 0 <= j < |s.nodes| ==>
       (Attached(t.nodes, j) <==> Attached(s.nodes, j) && !BelowAny(s.nodes, kids[..k], j))
  }

  lemma StartPartWay(s: St, i: nat)
    requires Sound(s) && i < |s.nodes|
    ensures PartWay(s, s, i, s.nodes[i].children, 0)
  {
    hide Inv, Owned, RemoveAll, Attached;
    InvWellFormed(s);
    assert s.nodes[i].children[0..] == s.nodes[i].children;
  }

  /** The next child is still there, and its path leads to it. */
  lemma ChildByPath(s: St, t: St, path: Path, i: nat, k: nat)
    requires i < |s.nodes| && PartWay(s, t, i, s.nodes[i].children, k) && k < |s.nodes[i].children|
    requires Lookup(s.nodes, path) == Some(i)
    ensures var c := s.nodes[i].children[k];
            && i < c < |s.nodes| == |t.nodes| && Sound(t) && LinksAgree(t.nodes)
            && Lookup(t.nodes, path + [s.nodes[c].name]) == Some(c) && Attached(t.nodes, c)
            && Remaining(t.nodes, path + [s.nodes[c].name]) < Remaining(s.nodes, path)
  {
    hide Inv, Owned, RemoveAll, Attached, Lookup;
    InvWellFormed(s);
    InvWellFormed(t);
    var kids := s.nodes[i].children;
    var c := kids[k];
    FoundIsAttached(s.nodes, path);
    ChildAttached(s.nodes, i, k);
    if BelowAny(s.nodes, kids[..k], c) {
      var d :| d in kids[..k] && Below(s.nodes, d, c);
      SiblingNotBelow(s.nodes, i, d, c, k);
    }
    ChildPath(s.nodes, i, k);
    AttachedIsFound(t.nodes, c);
  }

  lemma {:induction false} ChildAttached(nodes: Nodes, i: nat, k: nat)
    requires LinksAgree(nodes) && i < |nodes| && Attached(nodes, i) && k < |nodes[i].children|
    ensures i < nodes[i].children[k] < |nodes| && Attached(nodes, nodes[i].children[k])
  {
  }

  lemma {:induction false} ChildPath(nodes: Nodes, i: nat, k: nat)
    requires LinksAgree(nodes) && i < |nodes| && k < |nodes[i].children|
    ensures var c := nodes[i].children[k]; i < c < |nodes| && PathOf(nodes, c) == PathOf(nodes, i) + [nodes[c].name]
  {
  }

  lemma {:induction false} SiblingNotBelow(nodes: Nodes, i: nat, d: nat, c: nat, k: nat)
    requires WellFormed(nodes) && i < |nodes| && k < |nodes[i].children| && c == nodes[i].children[k]
    requires d in nodes[i].children[..k]
    ensures !Below(nodes, d, c)
  {
    hide Attached;
    var j :| 0 <= j < k && nodes[i].children[..k][j] == d;
    assert nodes[i].children[j] == d;
    assert SiblingsDiffer(nodes, nodes[i].children);
    if Below(nodes, d, i) { BelowOrder(nodes, d, i); }
  }

  lemma {:induction false} NextPartWay(s: St, t: St, i: nat, k: nat)
    requires i < |s.nodes| && PartWay(s, t, i, s.nodes[i].children, k) && k < |s.nodes[i].children|
    requires i < s.nodes[i].children[k] < |t.nodes| && LinksAgree(t.nodes) && Attached(t.nodes, s.nodes[i].children[k])
    ensures PartWay(s, RemoveTree(t, s.nodes[i].children[k]), i, s.nodes[i].children, k + 1)
  {
    hide Inv, Owned, RemoveTree, Attached, PathOf;
    var kids := s.nodes[i].children;
    var c := kids[k];
    RemoveTreePrunes(t, c);
    var r := RemoveTree(t, c);
    InvWellFormed(r);
    PrunedTransitive(s, t, r);
    assert kids[k..][0] == c && kids[k..][1..] == kids[k + 1..];
    forall j | 0 <= j < |s.nodes|
      ensures Attached(r.nodes, j) <==> Attached(s.nodes, j) && !BelowAny(s.nodes, kids[..k + 1], j)
    {
      BelowStatic(s.nodes, t.nodes, c, j);
      BelowOneMore(s.nodes, kids, k, j);
    }
  }

  lemma {:induction false} BelowOneMore(nodes: Nodes, kids: seq<nat>, k: nat, j: nat)
    requires LinksAgree(nodes) && k < |kids|
    ensures BelowAny(nodes, kids[..k + 1], j) <==> BelowAny(nodes, kids[..k], j) || Below(nodes, kids[k], j)
  {
    assert kids[..k + 1] == kids[..k] + [kids[k]];
    if BelowAny(nodes, kids[..k], j) {
      var c :| c in kids[..k] && Below(nodes, c, j);
      assert c in kids[..k + 1];
    }
  }

  lemma {:induction false} EndPartWay(s: St, t: St, path: Path, i: nat)
    requires i < |s.nodes| && PartWay(s, t, i, s.nodes[i].children, |s.nodes[i].children|)
    requires Lookup(s.nodes, path) == Some(i)
    ensures Sound(t) && |t.nodes| == |s.nodes| && t == RemoveAll(s, i, s.nodes[i].children) && t.nodes[i].children == []
    ensures Lookup(t.nodes, path) == Some(i) && IsDirNode(t.nodes, t.inodes, i) == IsDirNode(s.nodes, s.inodes, i)
    ensures t.nodes[i].inode == s.nodes[i].inode && t.nodes[i].link == s.nodes[i].link
    ensures t.nodes[i].ranges == s.nodes[i].ranges && t.nodes[i].name == s.nodes[i].name
    ensures 1 <= Target(t.nodes[i]) <= |t.inodes|
  {
    hide Inv, Owned, Attached, Lookup, RemoveAll;
    var kids := s.nodes[i].children;
    InvWellFormed(s);
    InvWellFormed(t);
    FoundIsAttached(s.nodes, path);
    assert kids[..|kids|] == kids && kids[|kids|..] == [];
    NoMore(t, i);
    ChildrenGone(s, t, i);
    AttachedIsFound(t.nodes, i);
    AllLasting(s, i, kids);
    NodeInode(s, i);
    NodeTarget(t, i);
    DirStays(s, t, i);
  }

  lemma NodeTarget(t: St, i: nat)
    requires Sound(t) && i < |t.nodes|
    ensures 1 <= Target(t.nodes[i]) <= |t.inodes|
  {
    hide Owned, FileCounts, DirCounts, RemovedDirs, KindsSane;
  }

  lemma {:induction false} NoMore(t: St, i: nat)
    requires i < |t.nodes|
    ensures RemoveAll(t, i, []) == t
  {
  }

  lemma {:induction false} LeafSteps(s: St, t: St, i: nat)
    requires i < |s.nodes| && t == RemoveAll(s, i, s.nodes[i].children)
    ensures RemoveTree(s, i) == if i == ROOT then t else RemoveLeaf(t, i)
  {
  }

  lemma AlignedInOrder(st: Store, bytes: seq<byte>)
    ensures forall i :: 0 <= i < |WriteAligned(st, bytes).ranges| ==>
            WriteAligned(st, bytes).ranges[i].start <= WriteAligned(st, bytes).ranges[i].end
  {
    hide WriteAligned, Flat, Total;
    var pad := WriteAlignedLands(st, bytes);
  }

  lemma {:induction false} AcceptedInOrder(st: Store, chunks: seq<seq<byte>>)
    ensures var r := WriteChunks(SkipReserved(Align(st)), chunks, [], 0);
            r.Stored? ==> forall i :: 0 <= i < |r.written.ranges| ==>
              r.written.ranges[i].start <= r.written.ranges[i].end
  {
    hide WriteChunks, SkipReserved, Concat, Flat, Total, WriteBytes;
    var t := SkipReserved(Align(st));
    AcceptedSizes(t, chunks, [], 0);
    if |Concat(chunks)| <= MAX_FILE_SIZE {
      ChunksDoNotMatter(t, chunks, [], 0);
      AlignForward(st);
      SkipIsForward(Align(st));
      NoRanges(t.disk, 0, t.block);
      var pad := WriteLands(t, Concat(chunks), [], 0);
    }
  }
}
