/** The 16 bits of a link count: what link does to a file with as many names as can be counted, and a run
    that gets there. */
module Counting {
  import opened Bytes
  import opened Geometry
  import opened Payload
  import opened Contents
  import opened FileTree
  import opened Fs
  import opened Namespace
  import opened Ownership
  import opened Pruning
  import opened Growing
  import opened Creating
  import opened Keeping
  import opened Linking
  import opened Running

  // ----- One link too many -----

  /** The parent is a directory, and the file has 65535 names outside what the new entry replaces. */
  ghost predicate AtTheLimit(s: St, path: Path, target: Path)
    requires |s.nodes| > 0
  {
    && Makes(s, path, target)
    && (var p := Lookup(s.nodes, ParentPath(path)); p.Some? && IsDirNode(s.nodes, s.inodes, p.value))
    && (var t := Lookup(s.nodes, target); t.Some? && |NamesOutside(s, path, s.nodes[t.value].inode)| == MOST_LINKS)
  }

  /** The link is made and the count becomes 0. */
  lemma LinkWraps(s: St, path: Path, target: Path)
    requires Sound(s) && |s.nodes| > 0 && AtTheLimit(s, path, target)
    ensures var r, ino := Link(s, path, target), s.nodes[Lookup(s.nodes, target).value].inode;
            r.error == None && !Sound(r.state) && IsFile(InodeAt(r.state.inodes, ino).kind)
              && InodeAt(r.state.inodes, ino).links == 0
  {
    hide Sound, Lookup, RemoveTree, BeforeAdding, AddLink, NameOutside, NamesOutside;
    var p, ino := MakesWhat(s, path, target);
    var u := BeforeAdding(s, path);
    BeforeAddingWell(s, path);
    PlaceFree(s, path, p);
    HasOutside(s, path, ino);
    Survives(s, path, ino);
    CountOutside(s, path, ino);
    OneTooMany(u, p, LastName(path), ino);
  }

  lemma HasOutside(s: St, path: Path, ino: nat)
    requires |s.nodes| > 0 && |NamesOutside(s, path, ino)| > 0
    ensures exists q :: NameOutside(s, path, ino, q)
  {
    hide Lookup;
    assert NamesOutside(s, path, ino) != {};
    var i :| i in NamesOutside(s, path, ino);
    var q :| Lookup(s.nodes, q) == Some(i) && !(path <= q);
    assert NameOutside(s, path, ino, q);
  }

  /** From then on, taking away any of the other names clears the inode, to which the new name, and tens of
      thousands besides, still lead. */
  lemma ThenUnlinkClears(s: St, path: Path, target: Path, q: Path)
    requires Sound(s) && |s.nodes| > 0 && AtTheLimit(s, path, target)
    requires NameOutside(s, path, s.nodes[Lookup(s.nodes, target).value].inode, q)
    ensures var ino := s.nodes[Lookup(s.nodes, target).value].inode;
            var w := UnlinkNamed(Link(s, path, target).state, q, false);
            && w.error == None && |w.state.nodes| > 0 && InodeAt(w.state.inodes, ino) == FREE
            && Lookup(w.state.nodes, path).Some? && Target(w.state.nodes[Lookup(w.state.nodes, path).value]) == ino
  {
    hide Sound, Lookup, RemoveTree, BeforeAdding, AddLink, NamesOutside, Pruned, FindChild, Attached;
    var p, ino := MakesWhat(s, path, target);
    var u, r := BeforeAdding(s, path), Link(s, path, target).state;
    LinkWraps(s, path, target);
    BeforeAddingWell(s, path);
    PlaceFree(s, path, p);
    NotTheRoot(s, path, ino);
    ParentOfPath(path);
    var node := LinkNode(LastName(path), ino);
    AddedLink(u, p, LastName(path), ino);
    LookupGrown(u.nodes, p, node, ParentPath(path), q);
    LookupGrown(u.nodes, p, node, ParentPath(path), path);
    RootFound(s.nodes);
    TargetKept(s, u, q);
    var i := Lookup(u.nodes, q).value;
    NameIsLeaf(s, u, path, p, ino, i);
    LastNameGoes(r, q, i, path, |u.nodes|, ino);
  }

  lemma AddedLink(u: St, p: nat, name: Name, ino: nat)
    requires p < |u.nodes|
    ensures var r := AddLink(u, p, name, ino);
            && r.nodes == AddChild(u.nodes, p, LinkNode(name, ino)) && |r.nodes| == |u.nodes| + 1
            && Target(r.nodes[|u.nodes|]) == ino && |r.inodes| == |u.inodes|
            && forall i :: 0 <= i < |u.nodes| ==>
               r.nodes[i] == u.nodes[i].(children := r.nodes[i].children) && (i != p ==> r.nodes[i] == u.nodes[i])
  {
  }

  lemma TargetKept(s: St, u: St, q: Path)
    requires |s.nodes| > 0 && Pruned(s, u) && |u.nodes| > 0 && Lookup(u.nodes, q).Some?
    requires Lookup(u.nodes, q) == Lookup(s.nodes, q)
    ensures Target(u.nodes[Lookup(u.nodes, q).value]) == Target(s.nodes[Lookup(s.nodes, q).value])
  {
    hide PathOf, Lookup;
  }

  /** A name of a file has no children, and is not where the new entry goes. */
  lemma {:induction false} NameIsLeaf(s: St, u: St, path: Path, p: nat, ino: nat, i: nat)
    requires Sound(u) && i < |u.nodes| && LinksAgree(u.nodes) && p < |u.nodes| && ino >= FIRST_INODE
    requires Target(u.nodes[i]) == ino && IsFile(InodeAt(AddLink(u, p, LastName(path), ino).inodes, ino).kind)
    requires ino <= |u.inodes|
    requires Pruned(s, u) && p < |s.nodes| && IsDirNode(s.nodes, s.inodes, p) && Attached(u.nodes, p)
    requires Lasting(s.inodes, u.inodes) && |s.inodes| == |u.inodes|
    ensures u.nodes[i].children == [] && i != p && i != ROOT
  {
    hide Owned, FileCounts, DirCounts, RemovedDirs, Attached, LinksAgree, AddChild, Lasting, PathOf;
    assert InodeAt(u.inodes, ino).kind == InodeAt(AddLink(u, p, LastName(path), ino).inodes, ino).kind;
    PruneInode(s, u, p);
    DirStays(s, u, p);
  }

  lemma PruneInode(s: St, u: St, p: nat)
    requires Pruned(s, u) && p < |s.nodes| && Sound(u) && |s.inodes| == |u.inodes|
    ensures p < |u.nodes| && 1 <= s.nodes[p].inode <= |s.inodes|
  {
    hide Owned, FileCounts, DirCounts, RemovedDirs, KindsSane, PathOf;
  }

  /** Unlinking a childless name whose inode counts no links clears the inode; another entry stays. */
  lemma LastNameGoes(r: St, q: Path, i: nat, path: Path, n: nat, ino: nat)
    requires |r.nodes| > 0 && WellFormed(r.nodes) && Lookup(r.nodes, q) == Some(i) && i != ROOT
    requires r.nodes[i].children == []
    requires Target(r.nodes[i]) == ino && FIRST_INODE <= ino <= |r.inodes| && InodeAt(r.inodes, ino).links == 0
    requires IsFile(InodeAt(r.inodes, ino).kind)
    requires Lookup(r.nodes, path) == Some(n) && n != i && Target(r.nodes[n]) == ino
    ensures var w := UnlinkNamed(r, q, false);
            && w.error == None && InodeAt(w.state.inodes, ino) == FREE
            && Lookup(w.state.nodes, path) == Some(n) && n < |w.state.nodes| && Target(w.state.nodes[n]) == ino
  {
    hide Lookup, Attached, LinksAgree, PathOf, RemoveChild, SiblingsDiffer, NodeBlocks, Deferred, XattrRange;
    FoundIsAttached(r.nodes, q);
    FoundIsAttached(r.nodes, path);
    var p := Parent(r.nodes, i);
    ParentLists(r.nodes, i);
    RemoveDetaches(r.nodes, p, i);
    var t := RemoveChild(r.nodes, p, r.nodes[i].name);
    RemovedNodes(r.nodes, p, r.nodes[i].name, n);
    LookupIff(t, path, n);
    assert RemoveAll(r, i, []) == r;
  }

  lemma {:induction false} ParentLists(nodes: Nodes, i: nat)
    requires LinksAgree(nodes) && i < |nodes| && Attached(nodes, i) && i != ROOT
    ensures Parent(nodes, i) < |nodes| && i in nodes[Parent(nodes, i)].children
  {
  }

  lemma RemovedNodes(nodes: Nodes, p: nat, name: Name, n: nat)
    requires p < |nodes| && n < |nodes|
    ensures var t := RemoveChild(nodes, p, name); |t| == |nodes| && t[n] == nodes[n].(children := t[n].children)
  {
  }

  // ----- A run that gets there -----

  function Letters(i: nat, n: nat): (r: seq<byte>)
    ensures |r| == n
  {
    if n == 0 then [] else Letters(i / 16, n - 1) + [97 + i % 16]
  }

  /** Five letters, different for all numbers below 16^5. */
  function LinkName(i: nat): Name { Letters(i, 5) }

  function Power(n: nat): nat { if n == 0 then 1 else 16 * Power(n - 1) }

  lemma {:induction false} LettersDiffer(i: nat, j: nat, n: nat)
    requires i < Power(n) && j < Power(n) && i != j
    ensures Letters(i, n) != Letters(j, n)
  {
    if i / 16 != j / 16 {
      LettersDiffer(i / 16, j / 16, n - 1);
      assert Letters(i, n)[..n - 1] == Letters(i / 16, n - 1) && Letters(j, n)[..n - 1] == Letters(j / 16, n - 1);
    } else {
      assert Letters(i, n)[n - 1] != Letters(j, n)[n - 1];
    }
  }

  lemma NamesDiffer(i: nat, j: nat)
    requires i < 0x1_0000 && j < 0x1_0000 && i != j
    ensures LinkName(i) != LinkName(j) && LinkName(i) != A && |LinkName(i)| == 5
  {
    assert Power(5) == 0x10_0000;
    LettersDiffer(i, j, 5);
  }

  /** The file `a` and `n` hard links to it, all in the root. */
  function ManyLinks(n: nat): seq<Op> {
    if n == 0 then [DoCreate([A], MakeFile(None), NoXattrs)]
    else ManyLinks(n - 1) + [DoLink([LinkName(n - 1)], [A])]
  }

  /** What holds after `n` links: inode `k` has `n + 1` names, and names still to come are free. */
  ghost predicate HasNames(s: St, n: nat, k: nat, area: nat) {
    && Good(s, area) && FIRST_INODE <= k <= |s.inodes| && IsFile(InodeAt(s.inodes, k).kind)
    && InodeAt(s.inodes, k).links == n + 1
    && Lookup(s.nodes, [A]).Some? && s.nodes[Lookup(s.nodes, [A]).value].inode == k
    && s.nodes[Lookup(s.nodes, [A]).value].link == None
    && s.nodes[ROOT].inode == ROOT_INODE && InodeAt(s.inodes, ROOT_INODE).links == 3
    && forall j :: n <= j < 0x1_0000 ==> Lookup(s.nodes, [LinkName(j)]) == None
  }

  lemma {:induction false} RunSnoc(s: St, ops: seq<Op>, op: Op)
    requires |s.nodes| > 0
    ensures Run(s, ops + [op]) == Step(Run(s, ops), op).state
    ensures AllAllowed(s, ops + [op]) <==> AllAllowed(s, ops) && Allowed(Run(s, ops), op)
    decreases |ops|
  {
    hide Step, Allowed;
    if ops == [] {
      assert [] + [op] == [op] && [op][1..] == [];
    } else {
      assert (ops + [op])[0] == ops[0] && (ops + [op])[1..] == ops[1..] + [op];
      RunSnoc(Step(s, ops[0]).state, ops[1..], op);
    }
  }

  lemma LinkedStart(size: positive) returns (k: nat)
    ensures AllAllowed(Fresh(size), ManyLinks(0)) && HasNames(Run(Fresh(size), ManyLinks(0)), 0, k, Area(size))
  {
    hide Fresh, Good, Create, Insert, Area, Lookup, AllAllowed, Run, Sound, Plain;
    var f, op := Fresh(size), DoCreate([A], MakeFile(None), NoXattrs);
    FreshRoot(size);
    GoodFacts(f, Area(size));
    RootEntry(f, A, MakeFile(None));
    NewEntry(f, [A], MakeFile(None), NoXattrs);
    CreateWell(f, [A], MakeFile(None), NoXattrs);
    NewestInode(Create(f, [A], MakeFile(None), NoXattrs).state, [A]);
    StepGood(f, op, Area(size));
    var s := Create(f, [A], MakeFile(None), NoXattrs).state;
    k := |s.inodes|;
    OneOp(f, op);
    InsertedUnder(f, ROOT, A, MakeFile(None));
    forall j | 0 <= j < 0x1_0000 ensures Lookup(s.nodes, [LinkName(j)]) == None {
      NamesDiffer(j, if j == 0 then 1 else 0);
      FreshFree(size, LinkName(j));
      StillFree(f.nodes, s.nodes, LinkName(j));
    }
  }

  lemma StillFree(f: Nodes, s: Nodes, name: Name)
    requires |f| > 0 && |s| > 0 && Created(f, s, [A], MakeFile(None)) && Lookup(f, [name]) == None && name != A
    ensures Lookup(s, [name]) == None
  {
    hide Lookup;
    assert [name][0] != [A][0];
  }

  lemma FreshFree(size: positive, name: Name)
    requires |name| != 10
    ensures Lookup(Fresh(size).nodes, [name]) == None
  {
    hide Good, Area, Stow;
    var b := Blank(size);
    assert Lookup(b.nodes, [LOST_AND_FOUND]) == None;
    RootEntry(b, LOST_AND_FOUND, MakeDir);
    BlankGood(size);
    GoodFacts(b, Area(size));
    CreateWell(b, [LOST_AND_FOUND], MakeDir, NoXattrs);
    assert !([name] <= [LOST_AND_FOUND]);
    assert Lookup(b.nodes, [name]) == None;
  }

  lemma {:induction false} LinkedOn(size: positive, n: nat) returns (k: nat)
    requires n < MOST_LINKS
    ensures AllAllowed(Fresh(size), ManyLinks(n)) && HasNames(Run(Fresh(size), ManyLinks(n)), n, k, Area(size))
  {
    hide Run, AllAllowed, Fresh, HasNames, Step, Allowed, Area;
    if n == 0 {
      k := LinkedStart(size);
    } else {
      k := LinkedOn(size, n - 1);
      var s := Run(Fresh(size), ManyLinks(n - 1));
      LinkedStep(s, n - 1, k, Area(size));
      RunSnoc(Fresh(size), ManyLinks(n - 1), DoLink([LinkName(n - 1)], [A]));
    }
  }

  lemma LinkedStep(s: St, n: nat, k: nat, area: nat)
    requires HasNames(s, n, k, area) && n < MOST_LINKS - 1 && |s.nodes| > 0
    ensures Allowed(s, DoLink([LinkName(n)], [A]))
    ensures HasNames(Step(s, DoLink([LinkName(n)], [A])).state, n + 1, k, area)
  {
    hide Good, Lookup, Sound, NameOutside, NamesOutside, AddLink, RemoveTree, Allowed;
    var path := [LinkName(n)];
    GoodParts(s, area);
    NamesDiffer(n, n + 1);
    LinkIsMade(s, n, k, area);
    assert NothingAt(s, path);
    CountAll(s, path, k);
    var r := Link(s, path, [A]).state;
    IsAllowed(s, path, k);
    StepGood(s, DoLink(path, [A]), area);
    LinkAddsExactly(s, path, [A], area);
    LinkCounts(s, path, k);
    forall j | n + 1 <= j < 0x1_0000 ensures Lookup(r.nodes, [LinkName(j)]) == None {
      NamesDiffer(j, n);
      assert !(path <= [LinkName(j)]);
    }
  }

  lemma GoodParts(s: St, area: nat)
    requires Good(s, area)
    ensures Sound(s) && |s.nodes| > 0 && Kept(s, area)
  {
    hide Sound, Kept;
  }

  ghost predicate NothingAt(s: St, path: Path)
    requires |s.nodes| > 0
  {
    Lookup(s.nodes, path) == None
  }

  lemma LinkIsMade(s: St, n: nat, k: nat, area: nat)
    requires HasNames(s, n, k, area) && n < MOST_LINKS && Sound(s) && |s.nodes| > 0
    ensures var path := [LinkName(n)];
            && Makes(s, path, [A]) && Lookup(s.nodes, path) == None && Lookup(s.nodes, ParentPath(path)) == Some(ROOT)
            && IsDirNode(s.nodes, s.inodes, ROOT)
            && BeforeAdding(s, path) == s && Link(s, path, [A]).state == AddLink(s, ROOT, LinkName(n), k)
  {
    hide Good, Sound, Lookup, AddLink, RemoveTree;
    RootFound(s.nodes);
    InvHolds(s);
    RootIsDir(s);
    NamesDiffer(n, n + 1);
    assert ParentPath([LinkName(n)]) == [];
  }

  /** With nothing there, the names outside are all names. */
  lemma CountAll(s: St, path: Path, k: nat)
    requires Sound(s) && |s.nodes| > 0 && NothingAt(s, path) && BeforeAdding(s, path) == s
    requires FIRST_INODE <= k <= |s.inodes| && IsFile(InodeAt(s.inodes, k).kind)
    ensures |NamesOutside(s, path, k)| == InodeAt(s.inodes, k).links
  {
    hide Sound, Lookup, NamesOutside, BeforeAdding;
    CountOutside(s, path, k);
  }

  lemma IsAllowed(s: St, path: Path, k: nat)
    requires |s.nodes| > 0 && Lookup(s.nodes, ParentPath(path)) == Some(ROOT) && IsDirNode(s.nodes, s.inodes, ROOT)
    requires |path| == 1 && path[0] != A
    requires Lookup(s.nodes, [A]).Some? && s.nodes[Lookup(s.nodes, [A]).value].inode == k
    requires s.nodes[Lookup(s.nodes, [A]).value].link == None
    requires |NamesOutside(s, path, k)| < MOST_LINKS
    ensures Allowed(s, DoLink(path, [A])) && LinkSafe(s, path, [A])
  {
    hide Lookup, NamesOutside;
    assert !(path <= [A]);
    assert NameOutside(s, path, k, [A]);
  }

  lemma LinkCounts(s: St, path: Path, k: nat)
    requires |s.nodes| > 0 && |path| == 1 && Link(s, path, [A]).state == AddLink(s, ROOT, path[0], k)
    requires FIRST_INODE <= k <= |s.inodes| && InodeAt(s.inodes, k).links < MOST_LINKS
    requires Lookup(s.nodes, [A]).Some?
    ensures var r := Link(s, path, [A]).state;
            && InodeAt(r.inodes, k) == InodeAt(s.inodes, k).(links := InodeAt(s.inodes, k).links + 1)
            && |r.inodes| == |s.inodes|
            && InodeAt(r.inodes, ROOT_INODE) == InodeAt(s.inodes, ROOT_INODE)
            && r.nodes[ROOT].inode == s.nodes[ROOT].inode
            && forall i :: 0 <= i < |s.nodes| ==>
               r.nodes[i].inode == s.nodes[i].inode && r.nodes[i].link == s.nodes[i].link
  {
    hide Link, Lookup;
    AddedLink(s, ROOT, path[0], k);
  }

  /** One file and 65535 links: every operation succeeds, all but the last are allowed, and the file then
      counts no links. */
  lemma TooManyLinksHappen(size: positive)
    ensures var s := Run(Fresh(size), ManyLinks(MOST_LINKS - 1));
            && AllAllowed(Fresh(size), ManyLinks(MOST_LINKS - 1)) && Sound(s) && |s.nodes| > 0
            && AtTheLimit(s, [LinkName(MOST_LINKS - 1)], [A]) && !Sound(Link(s, [LinkName(MOST_LINKS - 1)], [A]).state)
  {
    hide Run, AllAllowed, Fresh, Good, Area, Lookup, Sound, NamesOutside, Makes, ManyLinks, LinkName;
    var n := MOST_LINKS - 1;
    var k := LinkedOn(size, n);
    var s := Run(Fresh(size), ManyLinks(n));
    GoodParts(s, Area(size));
    LinkIsMade(s, n, k, Area(size));
    var path := [LinkName(n)];
    assert NothingAt(s, path);
    CountAll(s, path, k);
    LinkWraps(s, path, [A]);
  }
}
