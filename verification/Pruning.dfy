/** Removing a whole subtree: exactly the nodes below the removed one go, and every invariant of the
    single removals survives. */
module Pruning {
  import opened Bytes
  import opened Placement
  import opened FileTree
  import opened Fs
  import opened Namespace
  import opened Ownership

  /** Node `i` is node `j` or one of its ancestors. */
  ghost predicate Below(nodes: Nodes, i: nat, j: nat)
    requires LinksAgree(nodes)
    decreases j
  {
    j < |nodes| && (j == i || (j != ROOT && Below(nodes, i, Parent(nodes, j))))
  }

  ghost predicate BelowAny(nodes: Nodes, list: seq<nat>, j: nat)
    requires LinksAgree(nodes)
  {
    exists c :: c in list && Below(nodes, c, j)
  }

  /** All invariants of the namespace and of block ownership. */
  ghost predicate Sound(s: St) {
    && Inv(s.nodes, s.inodes)
    && Owned(s.nodes, s.inodes, s.deleted, s.deferred, s.born, Top(s.store))
  }

  /** From `s` to `r` only child lists, links and block lists changed. */
  ghost predicate Pruned(s: St, r: St) {
    && SameStatic(s.nodes, r.nodes) && r.store == s.store && r.born == s.born
    && forall j :: 0 <= j < |s.nodes| ==> PathOf(r.nodes, j) == PathOf(s.nodes, j)
  }

  lemma {:induction false} BelowOrder(nodes: Nodes, i: nat, j: nat)
    requires LinksAgree(nodes) && Below(nodes, i, j)
    ensures i <= j
    decreases j
  {
    if j != i { BelowOrder(nodes, i, Parent(nodes, j)); }
  }

  lemma {:induction false} BelowStatic(a: Nodes, b: Nodes, i: nat, j: nat)
    requires LinksAgree(a) && LinksAgree(b) && SameStatic(a, b)
    ensures Below(a, i, j) <==> Below(b, i, j)
    decreases j
  {
    if j < |a| && j != i && j != ROOT { BelowStatic(a, b, i, Parent(a, j)); }
  }

  /** Of an attached node's ancestors, the one right below `i` is in `i`'s child list. */
  lemma {:induction false} BelowThroughChild(nodes: Nodes, i: nat, j: nat)
    requires LinksAgree(nodes) && i < |nodes| && Attached(nodes, j) && Below(nodes, i, j) && j != i
    ensures BelowAny(nodes, nodes[i].children, j)
    decreases j
  {
    var q := Parent(nodes, j);
    if q == i {
      assert Below(nodes, j, j);
    } else {
      BelowThroughChild(nodes, i, q);
      var c :| c in nodes[i].children && Below(nodes, c, q);
      assert Below(nodes, c, j);
    }
  }

  lemma {:induction false} BelowTransitive(nodes: Nodes, i: nat, c: nat, j: nat)
    requires LinksAgree(nodes) && Below(nodes, i, c) && Below(nodes, c, j)
    ensures Below(nodes, i, j)
    decreases j
  {
    if j != c { BelowTransitive(nodes, i, c, Parent(nodes, j)); }
  }

  lemma {:induction false} ChildBelow(nodes: Nodes, i: nat, c: nat)
    requires LinksAgree(nodes) && i < |nodes| && c in nodes[i].children
    ensures i < c < |nodes| && Below(nodes, i, c)
  {
    assert Below(nodes, i, i);
  }

  lemma {:induction false} BelowIffChild(nodes: Nodes, i: nat, j: nat)
    requires LinksAgree(nodes) && i < |nodes| && j < |nodes| && Attached(nodes, j)
    ensures Below(nodes, i, j) <==> j == i || BelowAny(nodes, nodes[i].children, j)
  {
    if Below(nodes, i, j) && j != i { BelowThroughChild(nodes, i, j); }
    if BelowAny(nodes, nodes[i].children, j) {
      var c :| c in nodes[i].children && Below(nodes, c, j);
      ChildBelow(nodes, i, c);
      BelowTransitive(nodes, i, c, j);
    }
  }

  lemma PrunedTransitive(s: St, t: St, r: St)
    requires Pruned(s, t) && Pruned(t, r)
    ensures Pruned(s, r)
  {
  }

  lemma {:induction false} RootBelow(nodes: Nodes, j: nat)
    requires LinksAgree(nodes) && j < |nodes|
    ensures Below(nodes, ROOT, j)
    decreases j
  {
    if j != ROOT { RootBelow(nodes, Parent(nodes, j)); }
  }

  lemma {:induction false} LeafSound(s: St, i: nat)
    requires Sound(s) && 0 < i < |s.nodes| && Attached(s.nodes, i) && s.nodes[i].children == []
    ensures var r := RemoveLeaf(s, i);
            && Sound(r) && Pruned(s, r)
            && forall j :: 0 <= j < |s.nodes| ==> (Attached(r.nodes, j) <==> Attached(s.nodes, j) && j != i)
  {
    hide Inv, Owned, RemoveLeaf, PathOf;
    InvWellFormed(s);
    LeafKeepsInv(s, i);
    LeafKeepsOwned(s, i, Top(s.store));
    InvWellFormed(RemoveLeaf(s, i));
  }

  lemma InvWellFormed(s: St)
    requires Inv(s.nodes, s.inodes)
    ensures WellFormed(s.nodes)
  {
  }

  /** Removing the listed children of an attached node removes exactly what is below them. */
  lemma {:induction false} RemoveAllPrunes(s: St, i: nat, list: seq<nat>)
    requires Sound(s) && i < |s.nodes| && Attached(s.nodes, i)
    requires forall k :: 0 <= k < |list| ==> list[k] in s.nodes[i].children
    requires forall j, k :: 0 <= j < k < |list| ==> list[j] != list[k]
    ensures var r := RemoveAll(s, i, list);
            && Sound(r) && Pruned(s, r)
            && forall j :: 0 <= j < |s.nodes| ==>
                 (Attached(r.nodes, j) <==> Attached(s.nodes, j) && !BelowAny(s.nodes, list, j))
    decreases |s.nodes| - i, 0, |list|
  {
    hide Inv, Owned, PathOf, RemoveTree;
    InvWellFormed(s);
    if list != [] {
      var c, rest := list[0], list[1..];
      ChildBelow(s.nodes, i, c);
      RemoveTreePrunes(s, c);
      var t := RemoveTree(s, c);
      InvWellFormed(t);
      KeptChildren(s, t, i, c, rest);
      RemoveAllPrunes(t, i, rest);
      var r := RemoveAll(t, i, rest);
      InvWellFormed(r);
      PrunedTransitive(s, t, r);
      forall j | 0 <= j < |s.nodes|
        ensures Attached(r.nodes, j) <==> Attached(s.nodes, j) && !BelowAny(s.nodes, list, j)
      {
        BelowAnySplit(s, t, list, j);
      }
    }
  }

  /** Node `i` and its other listed children survive the removal of child `c`. */
  lemma {:induction false} KeptChildren(s: St, t: St, i: nat, c: nat, rest: seq<nat>)
    requires LinksAgree(s.nodes) && LinksAgree(t.nodes) && SameStatic(s.nodes, t.nodes)
    requires i < c < |s.nodes| && Attached(s.nodes, i) && c in s.nodes[i].children
    requires forall k :: 0 <= k < |rest| ==> rest[k] in s.nodes[i].children && rest[k] != c
    requires forall j :: 0 <= j < |s.nodes| ==>
             (Attached(t.nodes, j) <==> Attached(s.nodes, j) && !Below(s.nodes, c, j))
    ensures Attached(t.nodes, i)
    ensures forall k :: 0 <= k < |rest| ==> rest[k] in t.nodes[i].children
  {
    if Below(s.nodes, c, i) { BelowOrder(s.nodes, c, i); }
    forall k | 0 <= k < |rest| ensures rest[k] in t.nodes[i].children {
      var d := rest[k];
      ChildBelow(s.nodes, i, d);
      assert Attached(s.nodes, d);
      if Below(s.nodes, c, d) { BelowOrder(s.nodes, c, i); }
      assert Attached(t.nodes, d);
    }
  }

  lemma {:induction false} BelowAnySplit(s: St, t: St, list: seq<nat>, j: nat)
    requires LinksAgree(s.nodes) && LinksAgree(t.nodes) && SameStatic(s.nodes, t.nodes) && list != []
    ensures BelowAny(s.nodes, list, j) <==> Below(s.nodes, list[0], j) || BelowAny(t.nodes, list[1..], j)
  {
    if BelowAny(s.nodes, list, j) {
      var c :| c in list && Below(s.nodes, c, j);
      BelowStatic(s.nodes, t.nodes, c, j);
      if c != list[0] { assert c in list[1..]; }
    }
    if BelowAny(t.nodes, list[1..], j) {
      var c :| c in list[1..] && Below(t.nodes, c, j);
      BelowStatic(s.nodes, t.nodes, c, j);
      assert c in list;
    }
  }

  /** Once all that is below node `i`'s children is gone, its child list is empty. */
  lemma {:induction false} ChildrenGone(s: St, t: St, i: nat)
    requires LinksAgree(s.nodes) && LinksAgree(t.nodes) && SameStatic(s.nodes, t.nodes) && i < |s.nodes|
    requires Attached(s.nodes, i)
    requires forall j :: 0 <= j < |s.nodes| ==>
               (Attached(t.nodes, j) <==> Attached(s.nodes, j) && !BelowAny(s.nodes, s.nodes[i].children, j))
    ensures Attached(t.nodes, i) && t.nodes[i].children == []
  {
    if BelowAny(s.nodes, s.nodes[i].children, i) {
      var c :| c in s.nodes[i].children && Below(s.nodes, c, i);
      ChildBelow(s.nodes, i, c);
      BelowOrder(s.nodes, c, i);
    }
    if t.nodes[i].children != [] {
      var c := t.nodes[i].children[0];
      assert Attached(t.nodes, c);
      assert c in s.nodes[i].children && Below(s.nodes, c, c);
    }
  }

  /** Removing a subtree detaches exactly the nodes of that subtree. */
  lemma {:induction false} RemoveTreePrunes(s: St, i: nat)
    requires Sound(s) && 0 < i < |s.nodes| && Attached(s.nodes, i)
    ensures var r := RemoveTree(s, i);
            && Sound(r) && Pruned(s, r)
            && forall j :: 0 <= j < |s.nodes| ==>
               (Attached(r.nodes, j) <==> Attached(s.nodes, j) && !Below(s.nodes, i, j))
    decreases |s.nodes| - i, 1, 0
  {
    hide Inv, Owned, PathOf, RemoveLeaf, RemoveAll;
    InvWellFormed(s);
    assert SiblingsDiffer(s.nodes, s.nodes[i].children);
    SiblingsDistinct(s.nodes, s.nodes[i].children);
    RemoveAllPrunes(s, i, s.nodes[i].children);
    var t := RemoveAll(s, i, s.nodes[i].children);
    InvWellFormed(t);
    ChildrenGone(s, t, i);
    LeafSound(t, i);
    var r := RemoveLeaf(t, i);
    InvWellFormed(r);
    PrunedTransitive(s, t, r);
    forall j | 0 <= j < |s.nodes| ensures Attached(r.nodes, j) <==> Attached(s.nodes, j) && !Below(s.nodes, i, j) {
      if Attached(s.nodes, j) { BelowIffChild(s.nodes, i, j); }
    }
  }

  // ----- In terms of paths -----

  lemma {:induction false} BelowIsPrefix(nodes: Nodes, i: nat, j: nat)
    requires WellFormed(nodes) && Attached(nodes, i) && Attached(nodes, j) && i < |nodes| && j < |nodes|
    ensures Below(nodes, i, j) <==> PathOf(nodes, i) <= PathOf(nodes, j)
    decreases j
  {
    var p, q := PathOf(nodes, i), PathOf(nodes, j);
    if j == i {
    } else if j == ROOT {
      if p <= q { SamePath(nodes, i, j); }
    } else {
      var u := Parent(nodes, j);
      BelowIsPrefix(nodes, i, u);
      assert q == PathOf(nodes, u) + [nodes[j].name];
      if p <= q {
        if |p| == |q| {
          assert p == q;
          SamePath(nodes, i, j);
        } else {
          PrefixOfSnoc(p, PathOf(nodes, u), nodes[j].name);
        }
      }
    }
  }

  lemma {:induction false} SamePath(nodes: Nodes, i: nat, j: nat)
    requires WellFormed(nodes) && i < |nodes| && j < |nodes| && Attached(nodes, i) && Attached(nodes, j)
    requires PathOf(nodes, i) == PathOf(nodes, j)
    ensures i == j
  {
    AttachedIsFound(nodes, i);
    AttachedIsFound(nodes, j);
  }

  lemma PrefixOfSnoc(p: Path, q: Path, name: Name)
    requires p <= q + [name] && |p| <= |q|
    ensures p <= q
  {
    assert forall k :: 0 <= k < |p| ==> p[k] == (q + [name])[k] == q[k];
  }

  /** Path `q` goes when `path` is unlinked: it is `path` or below it; a whiteout and the root keep
      the entry itself. */
  ghost predicate Goes(path: Path, whiteout: bool, q: Path) {
    path <= q && !(q == path && (whiteout || path == []))
  }

  lemma {:induction false} LookupAfter(s: St, r: St, q: Path, path: Path, i: nat, whiteout: bool)
    requires WellFormed(s.nodes) && WellFormed(r.nodes) && Pruned(s, r)
    requires Lookup(s.nodes, path) == Some(i)
    requires forall j :: 0 <= j < |s.nodes| ==>
               (Attached(r.nodes, j)
                <==> Attached(s.nodes, j) && !(Below(s.nodes, i, j) && !(j == i && (whiteout || i == ROOT))))
    ensures Lookup(r.nodes, q) == if Goes(path, whiteout, q) then None else Lookup(s.nodes, q)
  {
    LookupIff(s.nodes, path, i);
    LookupIff(s.nodes, [], ROOT);
    assert (i == ROOT) <==> path == [];
    match Lookup(s.nodes, q) {
      case Some(j) =>
        LookupIff(s.nodes, q, j);
        BelowIsPrefix(s.nodes, i, j);
        if q == path { SamePath(s.nodes, i, j); }
        LookupIff(r.nodes, q, j);
        if Goes(path, whiteout, q) && Lookup(r.nodes, q).Some? { NoOther(s, r, q, j); }
      case None =>
        if Lookup(r.nodes, q).Some? {
          FoundIsAttached(r.nodes, q);
          AttachedIsFound(s.nodes, Lookup(r.nodes, q).value);
        }
    }
  }

  lemma NoOther(s: St, r: St, q: Path, j: nat)
    requires WellFormed(s.nodes) && WellFormed(r.nodes) && Pruned(s, r) && Lookup(s.nodes, q) == Some(j)
    requires forall x :: 0 <= x < |s.nodes| ==> (Attached(r.nodes, x) ==> Attached(s.nodes, x))
    requires Lookup(r.nodes, q).Some?
    ensures Lookup(r.nodes, q) == Some(j)
  {
    FoundIsAttached(r.nodes, q);
    AttachedIsFound(s.nodes, Lookup(r.nodes, q).value);
  }

  /** Unlink removes exactly the entry and everything below it; an opaque whiteout exactly what is
      strictly below. Every other path still leads to the same entry, and all invariants hold on. */
  lemma UnlinkRemovesExactly(s: St, path: Path, whiteout: bool)
    requires Sound(s)
    ensures var r := UnlinkNamed(s, path, whiteout);
            && Sound(r.state) && Pruned(s, r.state)
            && (r.error.Some? <==>
                whiteout && Lookup(s.nodes, path).Some? && !IsDirNode(s.nodes, s.inodes, Lookup(s.nodes, path).value))
            && (r.error.Some? ==> r.state == s)
            && (r.error == None ==> forall q ::
                Lookup(r.state.nodes, q) == if Goes(path, whiteout, q) then None else Lookup(s.nodes, q))
  {
    hide Inv, Owned, PathOf, RemoveTree, RemoveAll, Lookup;
    InvWellFormed(s);
    var r := UnlinkNamed(s, path, whiteout);
    match Lookup(s.nodes, path) {
      case None =>
        forall q ensures Goes(path, whiteout, q) ==> Lookup(s.nodes, q) == None {
          if Goes(path, whiteout, q) { NothingBelowNothing(s.nodes, path, q); }
        }
      case Some(i) =>
        FoundIsAttached(s.nodes, path);
        if whiteout && !IsDirNode(s.nodes, s.inodes, i) {
        } else {
          if whiteout || i == ROOT {
            assert SiblingsDiffer(s.nodes, s.nodes[i].children);
            SiblingsDistinct(s.nodes, s.nodes[i].children);
            RemoveAllPrunes(s, i, s.nodes[i].children);
            RootTree(s);
            InvWellFormed(r.state);
            StrictBelow(s, r.state, i);
          } else {
            RemoveTreePrunes(s, i);
            InvWellFormed(r.state);
          }
          forall q ensures Lookup(r.state.nodes, q) == if Goes(path, whiteout, q) then None else Lookup(s.nodes, q) {
            LookupAfter(s, r.state, q, path, i, whiteout);
          }
        }
    }
  }

  lemma {:induction false} RootTree(s: St)
    requires |s.nodes| > 0
    ensures RemoveTree(s, ROOT) == RemoveAll(s, ROOT, s.nodes[ROOT].children)
  {
  }

  lemma {:induction false} StrictBelow(s: St, r: St, i: nat)
    requires LinksAgree(s.nodes) && LinksAgree(r.nodes) && i < |s.nodes| && |r.nodes| == |s.nodes|
    requires forall j :: 0 <= j < |s.nodes| ==>
               (Attached(r.nodes, j) <==> Attached(s.nodes, j) && !BelowAny(s.nodes, s.nodes[i].children, j))
    ensures forall j :: 0 <= j < |s.nodes| ==>
               (Attached(r.nodes, j) <==> Attached(s.nodes, j) && !(Below(s.nodes, i, j) && j != i))
  {
    forall j | 0 <= j < |s.nodes| && Attached(s.nodes, j)
      ensures BelowAny(s.nodes, s.nodes[i].children, j) <==> Below(s.nodes, i, j) && j != i
    {
      BelowIffChild(s.nodes, i, j);
      if BelowAny(s.nodes, s.nodes[i].children, i) {
        var c :| c in s.nodes[i].children && Below(s.nodes, c, i);
        ChildBelow(s.nodes, i, c);
        BelowOrder(s.nodes, c, i);
      }
    }
  }

  lemma {:induction false} NothingBelowNothing(nodes: Nodes, path: Path, q: Path)
    requires |nodes| > 0 && Lookup(nodes, path) == None && path <= q
    ensures Lookup(nodes, q) == None
    decreases |q|
  {
    if q != path {
      var n := |q| - 1;
      assert q == q[..n] + [q[n]];
      assert path <= q[..n];
      NothingBelowNothing(nodes, path, q[..n]);
      LookupSnoc(nodes, ROOT, q[..n], q[n]);
    }
  }
}
