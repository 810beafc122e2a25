/** Applying the tar entries of an image layer: cleaning paths, recognising whiteouts, and driving the
    formatter. */
module Layers {
  import opened Bytes
  import opened Payload
  import opened Placement
  import opened Contents
  import opened FileTree
  import opened Fs
  import opened Pruning
  import opened Creating
  import opened Linking
  import opened Dots
  import opened Growing
  import opened Geometry
  import opened Running
  import opened Meaning
  import opened Walking
  import opened Formatting

  /** A component of a path as it stands in the archive. */
  datatype Component = Normal(name: Name) | ParentDir | CurDir | RootDir

  datatype TarKind = TarFile(data: seq<seq<byte>>) | TarDir | TarSymlink(target: Option<seq<byte>>)
                   | TarLink(other: Option<seq<Component>>) | TarOther

  datatype TarEntry = TarEntry(path: seq<Component>, kind: TarKind)

  const NUL: byte := 0

  // ----- Paths -----

  /** The names of a path; `..` and NUL bytes are refused, `.` and leading slashes dropped. */
  function Clean(path: seq<Component>): Option<Path> {
    if path == [] then Some([])
    else
      var n := |path| - 1;
      match Clean(path[..n])
      case None => None
      case Some(clean) =>
        match path[n]
        case Normal(name) => if NUL in name then None else Some(clean + [name])
        case ParentDir => None
        case _ => Some(clean)
  }

  lemma {:induction false} CleanStays(path: seq<Component>, k: nat)
    requires k <= |path| && Clean(path[..k]) == None
    ensures Clean(path) == None
    decreases |path|
  {
    if k == |path| {
      assert path[..k] == path;
    } else {
      var n := |path| - 1;
      assert path[..n][..k] == path[..k];
      CleanStays(path[..n], k);
    }
  }

  method Sanitize(path: seq<Component>) returns (clean: Option<Path>)
    ensures clean == Clean(path)
  {
    var names: Path := [];
    for k := 0 to |path|
      invariant Clean(path[..k]) == Some(names)
    {
      assert path[..k + 1][..k] == path[..k];
      match path[k] {
        case Normal(name) =>
          if NUL in name {
            CleanStays(path, k + 1);
            return None;
          }
          names := names + [name];
        case ParentDir =>
          CleanStays(path, k + 1);
          return None;
        case _ =>
      }
    }
    assert path[..|path|] == path;
    clean := Some(names);
  }

  /** Components that a path splits into are never `.` or `..` themselves. */
  ghost predicate ProperComponents(path: seq<Component>) {
    forall i :: 0 <= i < |path| && path[i].Normal? ==> path[i].name != DOT && path[i].name != DOTDOT
  }

  /** A cleaned path stays below the root: it has no dots left, and is refused exactly if it asks to go up
      or holds a NUL byte. */
  lemma {:induction false} CleanIsSafe(path: seq<Component>)
    requires ProperComponents(path)
    ensures Clean(path).Some? ==> NoDots(Clean(path).value)
    ensures Clean(path) == None <==> exists i ::
            0 <= i < |path| && (path[i].ParentDir? || (path[i].Normal? && NUL in path[i].name))
  {
    if path != [] {
      var n := |path| - 1;
      CleanIsSafe(path[..n]);
      assert path == path[..n] + [path[n]];
    }
  }

  // ----- Whiteouts -----

  const WHITEOUT: seq<byte> := [46, 119, 104, 46]                                        // .wh.
  const EMPTYING: Name := [46, 119, 104, 46, 46, 119, 104, 46, 46, 111, 112, 113]          // .wh..wh..opq

  datatype Whiteout = Delete(path: Path) | Emptied(path: Path)

  /** What the last name of a path says: nothing, to delete a sibling, or to empty the directory. */
  function ParseWhiteout(path: Path): Option<Whiteout> {
    if path == [] then None
    else
      var n := |path| - 1;
      var name := path[n];
      if name == EMPTYING then Some(Emptied(path[..n]))
      else if WHITEOUT < name then Some(Delete(path[..n] + [name[4..]]))
      else None
  }

  /** A whiteout only ever reaches into the directory it stands in. */
  lemma {:induction false} WhiteoutStays(path: Path, q: Path)
    requires ParseWhiteout(path).Some? && DOT !in path
    ensures match ParseWhiteout(path).value {
              case Delete(p) => Reaches(p, false, q) ==> path[..|path| - 1] < q
              case Emptied(p) => Reaches(p, true, q) ==> path[..|path| - 1] < q
            }
  {
    var n := |path| - 1;
    PlainComponents(path[..n]);
    if WHITEOUT < path[n] && path[n] != EMPTYING {
      var p := path[..n] + [path[n][4..]];
      assert p[..n] == path[..n];
      if Components(p) <= q { assert path[..n] <= Components(p) <= q; }
    }
  }

  // ----- One entry -----

  datatype Plan = Skip | Refuse | Do(op: Op)

  /** What an entry asks of the formatter. */
  function PlanEntry(e: TarEntry): Plan {
    match Clean(e.path)
    case None => Refuse
    case Some(path) =>
      if path == [] then Skip
      else
        match ParseWhiteout(path)
        case Some(Delete(p)) => Do(DoUnlink(p, false))
        case Some(Emptied(p)) => Do(DoUnlink(p, true))
        case None =>
          match e.kind
          case TarFile(data) => Do(DoCreate(path, MakeFile(Some(data)), NoXattrs))
          case TarDir => Do(DoCreate(path, MakeDir, NoXattrs))
          case TarSymlink(None) => Refuse
          case TarSymlink(Some(target)) => if NUL in target then Refuse
            else Do(DoCreate(path, MakeSymlink(target), NoXattrs))
          case TarLink(None) => Refuse
          case TarLink(Some(target)) => (match Clean(target) case None => Refuse case Some(t) => Do(DoLink(path, t)))
          case TarOther => Skip
  }

  /** The operations of a layer, as far as its entries are acceptable. */
  function LayerOps(entries: seq<TarEntry>): seq<Op> {
    if entries == [] then []
    else
      match PlanEntry(entries[0])
      case Skip => LayerOps(entries[1..])
      case Refuse => []
      case Do(op) => [op] + LayerOps(entries[1..])
  }

  ghost predicate Acceptable(entries: seq<TarEntry>) {
    forall i :: 0 <= i < |entries| ==> !PlanEntry(entries[i]).Refuse?
  }

  // ----- The loop over a layer's entries -----

  method Perform(f: Formatter, op: Op) returns (error: Option<Error>)
    requires Sound(f.State()) && Top(f.Stored()) > 0 && Allowed(f.State(), op)
    modifies f, f.tree
    ensures Outcome(f.State(), error) == Step(old(f.State()), op)
  {
    hide Sound, Create, Link, Unlink, Plain, LinkSafe, Makes;
    match op {
      case DoCreate(path, what, x) => error := f.Create(path, what, x);
      case DoLink(path, target) => error := f.Link(path, target);
      case DoUnlink(path, whiteout) => error := f.Unlink(path, whiteout);
    }
  }

  /** Entry after entry, up to the first that is refused or fails. A layer goes through exactly if all its
      entries are acceptable and all its operations succeed; it has then done all of them, in order. However
      it ends, the image is good. */
  method ApplyLayer(f: Formatter, entries: seq<TarEntry>, ghost area: nat) returns (ok: bool)
    requires Good(f.State(), area) && AllAllowed(f.State(), LayerOps(entries))
    modifies f, f.tree
    ensures ok <==> Acceptable(entries) && AllSucceed(old(f.State()), LayerOps(entries))
    ensures ok ==> f.State() == Run(old(f.State()), LayerOps(entries))
    ensures Good(f.State(), area)
  {
    hide Good, Step, Allowed, PlanEntry, AllAllowed, AllSucceed, Run;
    ghost var s := f.State();
    GoodNodes(s, area);
    StartLayer(s, entries);
    for k := 0 to |entries|
      invariant Good(f.State(), area) && LayerAt(s, f.State(), entries, k)
    {
      var plan := PlanEntry(entries[k]);
      if plan.Refuse? { return false; }
      if plan.Skip? {
        SkipEntry(s, f.State(), entries, k);
      } else {
        ghost var t := f.State();
        GoodNodes(t, area);
        AllowedNext(s, t, entries, k);
        StepGood(t, plan.op, area);
        var error := Perform(f, plan.op);
        if error.Some? {
          FailedEntry(s, t, entries, k);
          return false;
        }
        PlanNotRoot(entries[k]);
        DoEntry(s, t, entries, k);
      }
    }
    EndLayer(s, f.State(), entries);
    ok := true;
  }

  /** After `k` entries: the rest of the run from here is the rest of the run from the start. */
  ghost predicate LayerAt(s: St, t: St, entries: seq<TarEntry>, k: nat) {
    && |s.nodes| > 0 && |t.nodes| > 0 && k <= |entries|
    && Run(t, LayerOps(entries[k..])) == Run(s, LayerOps(entries))
    && AllAllowed(t, LayerOps(entries[k..]))
    && (AllSucceed(t, LayerOps(entries[k..])) <==> AllSucceed(s, LayerOps(entries)))
    && (forall i :: 0 <= i < k ==> !PlanEntry(entries[i]).Refuse?)
  }

  lemma GoodNodes(s: St, area: nat)
    requires Good(s, area)
    ensures |s.nodes| > 0 && Sound(s) && Top(s.store) > 0
  {
    hide Sound;
  }

  lemma PlanNotRoot(e: TarEntry)
    ensures PlanEntry(e).Do? && PlanEntry(e).op.DoCreate? ==> PlanEntry(e).op.path != []
  {
    hide Clean;
  }

  lemma {:induction false} StartLayer(s: St, entries: seq<TarEntry>)
    requires |s.nodes| > 0 && AllAllowed(s, LayerOps(entries))
    ensures LayerAt(s, s, entries, 0)
  {
    hide Run, AllAllowed, AllSucceed;
    assert entries[0..] == entries;
  }

  lemma NextOps(entries: seq<TarEntry>, k: nat)
    requires k < |entries| && !PlanEntry(entries[k]).Refuse?
    ensures LayerOps(entries[k..]) == (if PlanEntry(entries[k]).Do? then [PlanEntry(entries[k]).op] else [])
            + LayerOps(entries[k + 1..])
  {
    hide PlanEntry;
    assert entries[k..][0] == entries[k] && entries[k..][1..] == entries[k + 1..];
  }

  lemma SkipEntry(s: St, t: St, entries: seq<TarEntry>, k: nat)
    requires LayerAt(s, t, entries, k) && k < |entries| && PlanEntry(entries[k]).Skip?
    ensures LayerAt(s, t, entries, k + 1)
  {
    hide PlanEntry, Run, AllAllowed, AllSucceed;
    NextOps(entries, k);
    assert [] + LayerOps(entries[k + 1..]) == LayerOps(entries[k + 1..]);
  }

  lemma AllowedNext(s: St, t: St, entries: seq<TarEntry>, k: nat)
    requires LayerAt(s, t, entries, k) && k < |entries| && PlanEntry(entries[k]).Do?
    ensures Allowed(t, PlanEntry(entries[k]).op)
  {
    hide PlanEntry, Run, AllSucceed, Allowed, Step;
    NextOps(entries, k);
    assert LayerOps(entries[k..])[0] == PlanEntry(entries[k]).op;
  }

  lemma DoEntry(s: St, t: St, entries: seq<TarEntry>, k: nat)
    requires LayerAt(s, t, entries, k) && k < |entries| && PlanEntry(entries[k]).Do?
    requires Succeeds(t, PlanEntry(entries[k]).op)
    ensures LayerAt(s, Step(t, PlanEntry(entries[k]).op).state, entries, k + 1)
  {
    hide PlanEntry, Allowed, Step, Succeeds;
    NextOps(entries, k);
    var ops := LayerOps(entries[k..]);
    assert ops[0] == PlanEntry(entries[k]).op && ops[1..] == LayerOps(entries[k + 1..]);
  }

  lemma {:induction false} FailedEntry(s: St, t: St, entries: seq<TarEntry>, k: nat)
    requires LayerAt(s, t, entries, k) && k < |entries| && PlanEntry(entries[k]).Do?
    requires !Succeeds(t, PlanEntry(entries[k]).op)
    ensures !AllSucceed(s, LayerOps(entries))
  {
    hide PlanEntry, Allowed, Step, Succeeds, Run, AllAllowed;
    NextOps(entries, k);
    var ops := LayerOps(entries[k..]);
    assert ops[0] == PlanEntry(entries[k]).op;
  }

  lemma {:induction false} EndLayer(s: St, t: St, entries: seq<TarEntry>)
    requires LayerAt(s, t, entries, |entries|)
    ensures t == Run(s, LayerOps(entries)) && AllSucceed(s, LayerOps(entries)) && Acceptable(entries)
  {
    hide PlanEntry, Allowed, Step;
    assert entries[|entries|..] == [];
  }

  // ----- The whiteout of a dot -----

  const DOT_WHITEOUT: Name := [46, 119, 104, 46, 46]        // .wh..

  /** A whiteout asks for an unlink that ends in a dot exactly if it is named so. */
  lemma WhiteoutOfDotIff(path: Path)
    requires ParseWhiteout(path).Some?
    ensures ParseWhiteout(path).value.Delete? && EndsInDot(ParseWhiteout(path).value.path)
            <==> path[|path| - 1] == DOT_WHITEOUT
  {
    var name := path[|path| - 1];
    if WHITEOUT < name { assert name == WHITEOUT + name[4..]; }
  }

  /** `a`, then `a/.wh..`: the directory stays with a link too few. Once more: its inode is cleared, and the
      entry still leads there. All operations succeed. */
  lemma DotWhiteoutHappens(size: positive)
    ensures var mkdir, dot := TarEntry([Normal(A)], TarDir), TarEntry([Normal(A), Normal(DOT_WHITEOUT)], TarFile([]));
            && PlanEntry(mkdir) == Do(DoCreate([A], MakeDir, NoXattrs))
            && PlanEntry(dot) == Do(DoUnlink([A, DOT], false))
            && var one := Step(Fresh(size), PlanEntry(mkdir).op);
            && var two := Step(one.state, PlanEntry(dot).op);
            && var three := Step(two.state, PlanEntry(dot).op);
            && one.error == two.error == three.error == None && Sound(one.state) && !Sound(two.state)
            && Lookup(three.state.nodes, [A]).Some?
            && InodeAt(three.state.inodes, three.state.nodes[Lookup(three.state.nodes, [A]).value].inode) == FREE
  {
    hide Fresh, Good, Sound, Create, Area, Lookup, RemoveByDot, Attached, LinksAgree, Plain;
    DotPlanned();
    var f := Fresh(size);
    FreshRoot(size);
    GoodFacts(f, Area(size));
    RootEntry(f, A, MakeDir);
    CreateWell(f, [A], MakeDir, NoXattrs);
    var s := Create(f, [A], MakeDir, NoXattrs).state;
    NewDirectory(f, s);
    var i := Lookup(s.nodes, [A]).value;
    DotComponents();
    UnlinkSoundIff(s, [A, DOT], false);
    TwiceClears(s, [A], i);
    ByDotKeepsEntry(s, [A], i);
    OnceKeeps(s, i);
  }

  /** A new image, one directory, and it is unlinked: no path leads to it, and its inode still has a link. */
  lemma RemovedDirectoryHappens(size: positive)
    ensures var s := Create(Fresh(size), [A], MakeDir, NoXattrs);
            && s.error == None && Lookup(s.state.nodes, [A]).Some?
            && var k, r := s.state.nodes[Lookup(s.state.nodes, [A]).value].inode, Unlink(s.state, [A], false);
            && r.error == None && Sound(r.state) && |r.state.nodes| > 0 && Lookup(r.state.nodes, [A]) == None
            && InodeAt(r.state.inodes, k).kind == Directory && InodeAt(r.state.inodes, k).links == 1
  {
    hide Fresh, Good, Sound, Create, Area, Lookup, Attached, LinksAgree, Plain, UnlinkNamed, Pruned;
    var f := Fresh(size);
    FreshRoot(size);
    GoodFacts(f, Area(size));
    RootEntry(f, A, MakeDir);
    CreateWell(f, [A], MakeDir, NoXattrs);
    var s := Create(f, [A], MakeDir, NoXattrs).state;
    NewDirectory(f, s);
    PlainComponents([A]);
    UnlinkRemovesExactly(s, [A], false);
    DirectoryStays(s, [A], Lookup(s.nodes, [A]).value);
  }

  lemma {:induction false} OnceKeeps(s: St, i: nat)
    requires |s.nodes| > 0 && Lookup(s.nodes, [A]) == Some(i) && s.nodes[i].children == []
    requires RemoveByDot(s, i).nodes == RemoveAll(s, i, s.nodes[i].children).nodes
    ensures RemoveByDot(s, i).nodes == s.nodes
  {
    hide RemoveByDot;
  }

  lemma DotPlanned()
    ensures PlanEntry(TarEntry([Normal(A)], TarDir)) == Do(DoCreate([A], MakeDir, NoXattrs))
    ensures PlanEntry(TarEntry([Normal(A), Normal(DOT_WHITEOUT)], TarFile([]))) == Do(DoUnlink([A, DOT], false))
  {
    assert A[0] != NUL && NUL !in DOT_WHITEOUT;
    CleanOne([], [], A);
    assert [] + [Normal(A)] == [Normal(A)] && [] + [A] == [A];
    CleanOne([Normal(A)], [A], DOT_WHITEOUT);
    assert [Normal(A)] + [Normal(DOT_WHITEOUT)] == [Normal(A), Normal(DOT_WHITEOUT)]
      && [A] + [DOT_WHITEOUT] == [A, DOT_WHITEOUT];
    assert DOT_WHITEOUT[4..] == DOT && WHITEOUT < DOT_WHITEOUT;
    assert [A, DOT_WHITEOUT][..1] + [DOT] == [A, DOT];
  }

  lemma {:induction false} CleanOne(path: seq<Component>, clean: Path, name: Name)
    requires Clean(path) == Some(clean) && NUL !in name
    ensures Clean(path + [Normal(name)]) == Some(clean + [name])
  {
    assert (path + [Normal(name)])[..|path|] == path;
  }

  lemma DotComponents()
    ensures Components([A, DOT]) == [A] && EndsInDot([A, DOT])
  {
    assert [A, DOT][..1] == [A] && [A][..0] == [] && Components([]) == [];
  }

  lemma NewDirectory(f: St, s: St)
    requires |f.nodes| > 0 && s == Insert(f, ROOT, A, MakeDir, NoXattrs).state
    requires Insert(f, ROOT, A, MakeDir, NoXattrs).error == None
    requires Lookup(f.nodes, [A]) == None && Sound(f)
    requires |s.nodes| > 0 && Lookup(s.nodes, [A]).Some? && Sound(s)
    ensures var i := Lookup(s.nodes, [A]).value; s.nodes[i].children == [] && IsDirNode(s.nodes, s.inodes, i)
  {
    hide Sound, Stow, Lookup, FindChild;
    DirInserted(f);
    InvHolds(f);
    InvWellFormed(f);
    RootFound(f.nodes);
    var node := Node(|f.inodes| + 1, A, [], None, [], None);
    LookupSnoc(f.nodes, ROOT, [], A);
    SameLookup(f.nodes, []);
    SameLookup(f.nodes, [] + [A]);
    assert [] + [A] == [A];
    LookupGrown(f.nodes, ROOT, node, [], [A]);
  }

  lemma DirInserted(f: St)
    requires |f.nodes| > 0 && Insert(f, ROOT, A, MakeDir, NoXattrs).error == None
    ensures var s := Insert(f, ROOT, A, MakeDir, NoXattrs).state;
            && s.nodes == AddChild(f.nodes, ROOT, Node(|f.inodes| + 1, A, [], None, [], None))
            && InodeAt(s.inodes, |f.inodes| + 1).kind == Directory && |s.nodes| == |f.nodes| + 1
            && s.nodes[|f.nodes|].children == [] && s.nodes[|f.nodes|].inode == |f.inodes| + 1
            && s.nodes[|f.nodes|].link == None
  {
  }
}
