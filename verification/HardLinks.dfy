/** Hard links of a tar archive that name each other: finding cycles and the ends of chains. */
module HardLinks {
  import opened Bytes
  import opened Geometry
  import opened FileTree

  type Links = map<Path, Path>

  /** Where `n` links from `p` lead, if there are that many. */
  function Follow(links: Links, p: Path, n: nat): Option<Path>
    decreases n
  {
    if n == 0 then Some(p)
    else if p in links then Follow(links, links[p], n - 1)
    else None
  }

  ghost predicate OnCycle(links: Links, p: Path, n: nat) { n >= 1 && Follow(links, p, n) == Some(p) }

  ghost predicate Cyclic(links: Links) { exists p, n: nat :: OnCycle(links, p, n) }

  /** The chain from `p` ends at `q`, which is no link itself. */
  ghost predicate EndsAt(links: Links, p: Path, q: Path) {
    q !in links && exists n: nat :: Follow(links, p, n) == Some(q)
  }

  lemma {:induction false} FollowAdd(links: Links, p: Path, m: nat, n: nat)
    requires Follow(links, p, m).Some?
    ensures Follow(links, p, m + n) == Follow(links, Follow(links, p, m).value, n)
    decreases m
  {
    if m > 0 { FollowAdd(links, links[p], m - 1, n); }
  }

  lemma {:induction false} FollowLess(links: Links, p: Path, m: nat, n: nat)
    requires m <= n && Follow(links, p, n).Some?
    ensures Follow(links, p, m).Some?
    decreases m
  {
    if m > 0 { FollowLess(links, links[p], m - 1, n - 1); }
  }

  /** A chain has at most one end. */
  lemma EndUnique(links: Links, p: Path, q: Path, r: Path)
    requires EndsAt(links, p, q) && EndsAt(links, p, r)
    ensures q == r
  {
    var m: nat :| Follow(links, p, m) == Some(q);
    var n: nat :| Follow(links, p, n) == Some(r);
    if m < n { FollowAdd(links, p, m, n - m); }
    if n < m { FollowAdd(links, p, n, m - n); }
  }

  lemma {:induction false} AroundAgain(links: Links, p: Path, n: nat, k: nat)
    requires OnCycle(links, p, n)
    ensures Follow(links, p, k * n) == Some(p)
  {
    if k > 0 {
      AroundAgain(links, p, n, k - 1);
      FollowAdd(links, p, (k - 1) * n, n);
      assert (k - 1) * n + n == k * n;
    }
  }

  /** A chain that enters a cycle has no end. */
  lemma CycleHasNoEnd(links: Links, p: Path, n: nat, q: Path)
    requires OnCycle(links, p, n)
    ensures !EndsAt(links, p, q)
  {
    if EndsAt(links, p, q) {
      var m: nat :| Follow(links, p, m) == Some(q);
      AroundAgain(links, p, n, m + 1);
      assert (m + 1) * n >= m + 1;
      FollowLess(links, p, m + 1, (m + 1) * n);
      FollowAdd(links, p, m, 1);
    }
  }

  /** The inodes passed so far, in order; no two are the same. */
  ghost predicate Trail(links: Links, trail: seq<Path>) {
    && |trail| >= 1
    && (forall i :: 0 <= i < |trail| ==> Follow(links, trail[0], i) == Some(trail[i]))
    && (forall i, j :: 0 <= i < j < |trail| ==> trail[i] != trail[j])
    && (forall i :: 0 <= i < |trail| - 1 ==> trail[i] in links)
  }

  lemma TrailGrows(links: Links, trail: seq<Path>)
    requires Trail(links, trail) && trail[|trail| - 1] in links && links[trail[|trail| - 1]] !in trail
    ensures Trail(links, trail + [links[trail[|trail| - 1]]])
  {
    var n := |trail|;
    FollowAdd(links, trail[0], n - 1, 1);
    assert Follow(links, trail[n - 1], 1) == Follow(links, links[trail[n - 1]], 0);
  }

  lemma TrailCloses(links: Links, trail: seq<Path>, i: nat)
    requires Trail(links, trail) && i < |trail| && trail[|trail| - 1] in links && links[trail[|trail| - 1]] == trail[i]
    ensures OnCycle(links, trail[i], |trail| - i)
  {
    var n := |trail|;
    FollowAdd(links, trail[0], i, n - 1 - i);
    FollowAdd(links, trail[i], n - 1 - i, 1);
    assert Follow(links, trail[n - 1], 1) == Follow(links, links[trail[n - 1]], 0);
  }

  lemma TrailShort(links: Links, trail: seq<Path>)
    requires Trail(links, trail)
    ensures |trail| <= |links| + 1
  {
    hide Follow;
    var init := trail[..|trail| - 1];
    DistinctSize(init);
    forall x | x in Elements(init) ensures x in links.Keys {
      var i :| 0 <= i < |init| && init[i] == x;
      assert trail[i] in links;
    }
    SubsetSize(Elements(init), links.Keys);
  }

  /** Follow the links from `start` until they end or come round. */
  method Chase(links: Links, start: Path) returns (end: Option<Path>)
    ensures end.Some? ==> EndsAt(links, start, end.value)
    ensures end == None ==> Cyclic(links)
  {
    hide Follow;
    var next, visited := start, {start};
    ghost var trail := [start];
    StartTrail(links, start);
    while next in links
      invariant Trail(links, trail) && trail[0] == start && next == trail[|trail| - 1] && visited == Elements(trail)
      decreases |links| + 1 - |trail|
    {
      var item := links[next];
      if item in visited {
        ghost var i :| 0 <= i < |trail| && trail[i] == item;
        TrailCloses(links, trail, i);
        assert OnCycle(links, item, |trail| - i);
        return None;
      }
      TrailGrows(links, trail);
      assert Elements(trail + [item]) == Elements(trail) + {item};
      trail := trail + [item];
      TrailShort(links, trail);
      visited, next := visited + {item}, item;
    }
    assert Follow(links, start, |trail| - 1) == Some(next);
    end := Some(next);
  }

  lemma StartTrail(links: Links, start: Path)
    ensures Trail(links, [start])
  {
  }

  /** True exactly if no link comes back to itself. */
  method CheckAcyclic(links: Links) returns (ok: bool)
    ensures ok <==> !Cyclic(links)
  {
    hide Follow;
    var todo := links.Keys;
    while todo != {}
      invariant todo <= links.Keys
      invariant forall k :: k in links.Keys - todo ==> exists q :: EndsAt(links, links[k], q)
      decreases |todo|
    {
      var k :| k in todo;
      var end := Chase(links, links[k]);
      if end == None { return false; }
      assert EndsAt(links, links[k], end.value);
      todo := todo - {k};
    }
    if Cyclic(links) {
      var p, n :| OnCycle(links, p, n);
      CycleGoesOn(links, p, n);
      var q :| EndsAt(links, links[p], q);
      EndFromBefore(links, p, q);
      CycleHasNoEnd(links, p, n, q);
    }
    ok := true;
  }

  lemma CycleGoesOn(links: Links, p: Path, n: nat)
    requires OnCycle(links, p, n)
    ensures p in links
  {
  }

  lemma EndFromBefore(links: Links, p: Path, q: Path)
    requires p in links && EndsAt(links, links[p], q)
    ensures EndsAt(links, p, q)
  {
    var n: nat :| Follow(links, links[p], n) == Some(q);
    assert Follow(links, p, n + 1) == Some(q);
  }

  /** The end of the chain from a link; in a map without cycles every link has one, and it is no link. */
  method ResolveLink(links: Links, key: Path) returns (end: Option<Path>)
    ensures end.Some? ==> key in links && EndsAt(links, key, end.value)
    ensures !Cyclic(links) && key in links ==> end.Some?
  {
    if key !in links { return None; }
    end := Chase(links, links[key]);
    if end.Some? { EndFromBefore(links, key, end.value); }
  }
}
