/** Two finished images that the reader does not open: in one a short symlink's target begins like an extent tree, in
    the other a superblock copy has been put over a leaf block of a file. */
module Refusing {
  import opened Bytes
  import opened Geometry
  import opened Payload
  import opened Contents
  import opened FileTree
  import opened Fs
  import opened Pruning
  import opened Creating
  import opened Running
  import opened Committing
  import opened Visiting
  import opened Sealing
  import opened Walking
  import opened Imaging
  import opened Meaning
  import opened Reaching
  import opened Overwriting
  import opened Opening
  import R = Resolving
  import T = Traversing

  /** A line feed and the character U+C0000. */
  const TARGET: seq<byte> := [0x0A, 0xF3, 0x80, 0x80, 0x80]

  const LinkOp: Op := DoCreate([A], MakeSymlink(TARGET), NoXattrs)

  lemma TargetIsText()
    ensures Utf8(TARGET) && Clashes(TARGET)
  {
    assert FirstChar(TARGET) == 1;
    var rest := TARGET[1..];
    assert rest == [0xF3, 0x80, 0x80, 0x80] && FirstChar(rest) == 4 && rest[4..] == [];
    assert Utf8(rest);
  }

  lemma {:induction false} RootSymlink(s: St, name: Name, target: seq<byte>)
    requires |s.nodes| > 0 && |name| <= 255 && Lookup(s.nodes, [name]) == None && |target| < 60
    requires s.nodes[ROOT].inode == ROOT_INODE && InodeAt(s.inodes, ROOT_INODE).kind == Directory
    requires InodeAt(s.inodes, ROOT_INODE).links < MAX_LINKS
    ensures var r := Create(s, [name], MakeSymlink(target), NoXattrs);
            && r.error == None && r.state.store == s.store && r.state.deleted == s.deleted
            && r.state.inodes == s.inodes + [Inode(Symlink, 1, |target|, target + Zeros(60 - |target|), 0, Zeros(96))]
            && r.state.nodes == AddChild(s.nodes, ROOT, Node(|s.inodes| + 1, name, [], None, [], None))
  {
    hide Lookup, FindChild, AddChild;
    RootFound(s.nodes);
    assert [name][..0] == [];
  }

  /** A new image with that symlink. */
  lemma OneSymlink(size: positive)
    ensures var t := Run(Fresh(size), [LinkOp]);
            && AllAllowed(Fresh(size), [LinkOp]) && Running.Step(Fresh(size), LinkOp).error == None
            && OneFileTree(t) && Good(t, Area(size)) && t.store == Fresh(size).store && InodeAt(t.inodes, 12).size == 5
  {
    hide Fresh, Good, Create, Insert, Area, Lookup, Plain, Sound, AllAllowed, Run;
    var s := Fresh(size);
    FreshRoot(size);
    FreshTree(size);
    RootSymlink(s, A, TARGET);
    OneOp(s, LinkOp);
    StepGood(s, LinkOp, Area(size));
  }

  /** ... closed well. */
  lemma SymlinkClosesWell()
    ensures var t := Run(Fresh(4096), [LinkOp]);
            && AllAllowed(Fresh(4096), [LinkOp]) && AllSucceed(Fresh(4096), [LinkOp]) && |t.inodes| == 12
            && Listable(t.nodes) && VisitsAll(t.nodes, [0, 1, 2]) && ClosesWell(t, [0, 1, 2], Area(4096))
  {
    hide Fresh, Good, Area, AllAllowed, Run, Listable, VisitsAll, LinksAgree, OwnInodes, CommitAll, Running.Step,
         WriteAligned, ClosesWell, InodeAt, Lands, Free, BlockAt;
    OneSymlink(4096);
    FreshStore(4096);
    SmallArea(4096);
    var t := Run(Fresh(4096), [LinkOp]);
    GoodFits(t, 32);
    AllVisited(t);
    InFront(t.store);
    OneFileCommitted(t, 33);
    var r := CommitAll(t, [0, 1, 2]).state;
    SmallArea(r.store.size);
    OneBlockThere(r.store, 35, Zeros(4096));
    SmallClosesWell(t, r);
    OneSuccess(Fresh(4096), LinkOp);
  }

  lemma InFront(st: Store)
    requires st.off == 0 && st.block == 33 && st.size == 4096
    ensures Lands(st, 33) && Free(34, 34 * BLOCK) && Free(35, 35 * BLOCK)
  {
    InFirstGroup(st);
    SmallArea(34 * BLOCK);
    SmallArea(35 * BLOCK);
    InFirst(34, 32);
    InFirst(35, 32);
  }

  lemma {:induction false} OneSuccess(s: St, op: Op)
    requires |s.nodes| > 0 && Running.Step(s, op).error == None && op.DoCreate? && op.path != []
    ensures AllSucceed(s, [op])
  {
    hide Running.Step;
    assert [op][1..] == [];
  }

  /** A new image, one symlink whose target is a line feed and U+C0000, and close: all calls succeed, the image is
      closed well and has everything at its path, but the reader does not open it. */
  lemma SymlinkNotOpened(fill: Fill) returns (e: Disk, length: nat)
    ensures Ends(4096, [LinkOp], [0, 1, 2], fill, e, length) && AllSucceed(Fresh(4096), [LinkOp]) && AllText([LinkOp])
    ensures ClosesWell(Last(4096, [LinkOp]), [0, 1, 2], Area(4096))
    ensures forall path :: NoDots(path) ==> Has(e, path, Expect([LinkOp], Empty, path))
    ensures !T.AllReadable(R.ObjectsOf(e, length))
  {
    hide Fresh, Good, Area, AllAllowed, AllSucceed, Run, Listable, LinksAgree, Attached, CommitAll, DirsFree, FilesFree,
         SealLayout, Close, Closable, InodesClear, AreaFor, Has, T.AllReadable, R.ObjectsOf, Expect, Utf8, Put;
    SymlinkClosesWell();
    TargetIsText();
    var t := Last(4096, [LinkOp]);
    ClosesAnyway(CommitAll(t, [0, 1, 2]).state, fill);
    e, length := Finished(t, [0, 1, 2], fill).disk, SealLayout(CommitAll(t, [0, 1, 2]).state).size;
    forall path | NoDots(path) ensures Has(e, path, Expect([LinkOp], Empty, path)) {
      ImageMeans(4096, [LinkOp], [0, 1, 2], path, fill);
    }
    ReaderOpensIff(4096, [LinkOp], [0, 1, 2], fill, e, length);
    LinkExpected();
    assert NoDots([A]) && !Harmless(Expect([LinkOp], Empty, [A]));
  }

  lemma {:induction false} LinkExpected()
    ensures Expect([LinkOp], Empty, [A]) == ASymlink(TARGET)
  {
  }

  /** The image of the 91 GiB file: not only the file is lost, the reader does not open the image at all. */
  lemma LateNotOpened(fill: Fill) returns (content: seq<byte>, e: Disk, length: nat)
    ensures Ends(LARGE, [FileOp(content)], [0, 1, 2], fill, e, length)
    ensures Running.Step(Fresh(LARGE), FileOp(content)).error == None
    ensures Legible(Last(LARGE, [FileOp(content)]), [0, 1, 2], Area(LARGE))
    ensures !Has(e, [A], AFile(content)) && !T.AllReadable(R.ObjectsOf(e, length))
  {
    hide Fresh, Good, AllAllowed, Run, Listable, LinksAgree, Attached, CommitAll, DirsFree, SealLayout, Close, Closable,
         InodesClear, AreaFor, Has, T.AllReadable, R.ObjectsOf, Put, Running.Step, Shut, Utf8, Lookup, IndexFree,
         TextBorn;
    content, e := LateLeafLost(fill);
    var t := Run(Fresh(LARGE), [FileOp(content)]);
    length := SealLayout(CommitAll(t, [0, 1, 2]).state).size;
    LargeArea(LARGE);
    EndsShut(LARGE, [FileOp(content)], [0, 1, 2], fill, e, length);
    OpensIff(t, [0, 1, 2], Area(LARGE), fill, e, length);
    PathHeldIff(t, [0, 1, 2], [A], Area(LARGE), fill);
    ShutFacts(t, [0, 1, 2], Area(LARGE), fill, e, length);
    var j := Lookup(t.nodes, [A]).value;
    InvWellFormed(t);
    LookupIff(t.nodes, [A], j);
    assert !Fine(CommitAll(t, [0, 1, 2]).state.inodes, t.born, Target(t.nodes[j]), Area(LARGE));
  }
}
