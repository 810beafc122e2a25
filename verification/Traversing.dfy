/** The reader's traversal of whatever directories an image has, cyclic or hard-linked: it ends, opens each
    directory once, and puts every entry down as a tree node or as a hard link. */
module Traversing {
  import opened Payload
  import opened FileTree
  import opened Geometry
  import opened Committing
  import opened Walking
  import opened Resolving
  import F = Fs

  /** A node of the reader's tree; the root is node 0. */
  datatype Tree = Tree(inode: nat, name: Name, parent: nat)

  predicate IsDot(name: Name) { name == DOT || name == DOTDOT }

  /** A directory, or the root, whatever it is. */
  predicate Opens(fs: Objects, k: nat)
    requires k in fs
  {
    k == F.ROOT_INODE || fs[k].kind == F.Directory
  }

  /** The inode can be read and its block field parsed, and so can the blocks of a directory. */
  predicate Readable(fs: Objects, k: nat) { k in fs && fs[k].mapped && (Opens(fs, k) ==> fs[k].listing.Some?) }

  predicate IsDir(fs: Objects, k: nat) { Readable(fs, k) && Opens(fs, k) }

  function Entries(fs: Objects, k: nat): Listing {
    if IsDir(fs, k) then fs[k].listing.value else []
  }

  /** The path of a node. */
  function Where(nodes: seq<Tree>, i: nat): Path
    decreases i
  {
    if 0 < i < |nodes| && nodes[i].parent < i then Where(nodes, nodes[i].parent) + [nodes[i].name] else []
  }

  ghost predicate SameNode(nodes: seq<Tree>, i: nat, p: nat, e: (Name, nat)) {
    i < |nodes| && nodes[i] == Tree(e.1, e.0, p)
  }

  /** The entry of node `p` is in the tree, or its path is a hard link. */
  ghost predicate Recorded(nodes: seq<Tree>, links: map<Path, nat>, p: nat, e: (Name, nat)) {
    IsDot(e.0) || (HasInode(nodes, e.1)
                   && ((exists i :: 0 < i && SameNode(nodes, i, p, e)) || Where(nodes, p) + [e.0] in links))
  }

  ghost predicate HasInode(nodes: seq<Tree>, k: nat) {
    exists i :: 0 <= i < |nodes| && nodes[i].inode == k
  }

  ghost predicate AllRecorded(fs: Objects, nodes: seq<Tree>, links: map<Path, nat>, p: nat, n: nat) {
    p < |nodes| && forall k :: 0 <= k < n && k < |Entries(fs, nodes[p].inode)| ==>
      Recorded(nodes, links, p, Entries(fs, nodes[p].inode)[k])
  }

  /** Parents come first and no two nodes share an inode. */
  ghost predicate TreeSane(fs: Objects, nodes: seq<Tree>, seen: set<nat>) {
    && |nodes| > 0 && nodes[0].inode == F.ROOT_INODE && IsDir(fs, F.ROOT_INODE)
    && ParentsFirst(fs, nodes)
    && (forall i, j :: 0 <= i < j < |nodes| ==> nodes[i].inode != nodes[j].inode)
    && (forall i :: 0 <= i < |nodes| ==> nodes[i].inode in seen)
    && (forall k :: k in seen ==> Readable(fs, k) && HasInode(nodes, k))
  }

  ghost predicate ParentsFirst(fs: Objects, nodes: seq<Tree>) {
    forall i :: 0 < i < |nodes| ==> nodes[i].parent < i && EntryOf(fs, nodes[nodes[i].parent].inode, nodes[i])
  }

  ghost predicate EntryOf(fs: Objects, k: nat, n: Tree) {
    !IsDot(n.name) && (n.name, n.inode) in Entries(fs, k)
  }

  /** The directories of the tree are those opened and those waiting, each once. */
  ghost predicate Accounted(fs: Objects, nodes: seq<Tree>, visited: seq<nat>, queue: seq<nat>) {
    && Distinct(visited + queue)
    && (forall i :: 0 <= i < |nodes| ==> (IsDir(fs, nodes[i].inode) <==> i in visited + queue))
    && (forall i :: i in visited + queue ==> 0 <= i < |nodes|)
  }

  lemma {:induction false} WhereStays(nodes: seq<Tree>, n: Tree, i: nat)
    requires i < |nodes|
    ensures Where(nodes + [n], i) == Where(nodes, i)
    decreases i
  {
    if 0 < i && nodes[i].parent < i { WhereStays(nodes, n, nodes[i].parent); }
  }

  lemma HasInodeStays(nodes: seq<Tree>, n: Tree, k: nat)
    ensures HasInode(nodes + [n], k) <==> HasInode(nodes, k) || n.inode == k
  {
    var all := nodes + [n];
    if HasInode(nodes, k) {
      var i :| 0 <= i < |nodes| && nodes[i].inode == k;
      assert all[i].inode == k;
    }
    assert all[|nodes|] == n;
  }

  lemma RecordedStays(nodes: seq<Tree>, links: map<Path, nat>, n: Tree, p: nat, e: (Name, nat))
    requires p < |nodes| && Recorded(nodes, links, p, e)
    ensures Recorded(nodes + [n], links, p, e)
  {
    WhereStays(nodes, n, p);
    HasInodeStays(nodes, n, e.1);
    if i :| 0 < i && SameNode(nodes, i, p, e) { assert SameNode(nodes + [n], i, p, e); }
  }

  lemma AllRecordedStays(fs: Objects, nodes: seq<Tree>, links: map<Path, nat>, node: Tree, p: nat, n: nat)
    requires AllRecorded(fs, nodes, links, p, n)
    ensures AllRecorded(fs, nodes + [node], links, p, n)
  {
    hide Recorded;
    var list := Entries(fs, nodes[p].inode);
    forall k | 0 <= k < n && k < |list| ensures Recorded(nodes + [node], links, p, list[k]) {
      RecordedStays(nodes, links, node, p, list[k]);
    }
  }

  lemma MoreLinks(fs: Objects, nodes: seq<Tree>, links: map<Path, nat>, key: Path, v: nat, p: nat, n: nat)
    requires AllRecorded(fs, nodes, links, p, n)
    ensures AllRecorded(fs, nodes, links[key := v], p, n)
  {
  }

  /** A new node for an inode not seen before. */
  lemma TreeGrows(fs: Objects, nodes: seq<Tree>, seen: set<nat>, node: Tree)
    requires TreeSane(fs, nodes, seen) && node.inode !in seen && Readable(fs, node.inode) && node.parent < |nodes|
    requires EntryOf(fs, nodes[node.parent].inode, node)
    ensures TreeSane(fs, nodes + [node], seen + {node.inode})
  {
    hide HasInode, EntryOf, Readable, IsDir, ParentsFirst;
    var all := nodes + [node];
    ParentsGrow(fs, nodes, node);
    forall k | k in seen + {node.inode} ensures HasInode(all, k) { HasInodeStays(nodes, node, k); }
    forall i, j | 0 <= i < j < |all| ensures all[i].inode != all[j].inode { InodesDiffer(nodes, seen, node, i, j); }
  }

  lemma ParentsGrow(fs: Objects, nodes: seq<Tree>, node: Tree)
    requires ParentsFirst(fs, nodes) && node.parent < |nodes| && EntryOf(fs, nodes[node.parent].inode, node)
    ensures ParentsFirst(fs, nodes + [node])
  {
    hide EntryOf;
    var all := nodes + [node];
    forall i | 0 < i < |all| ensures all[i].parent < i && EntryOf(fs, all[all[i].parent].inode, all[i]) {
      if i < |nodes| { assert all[i] == nodes[i] && all[nodes[i].parent] == nodes[nodes[i].parent]; }
    }
  }

  lemma InodesDiffer(nodes: seq<Tree>, seen: set<nat>, node: Tree, i: nat, j: nat)
    requires node.inode !in seen && i < j <= |nodes| && nodes[i].inode in seen
    requires (j < |nodes| ==> nodes[i].inode != nodes[j].inode)
    ensures (nodes + [node])[i].inode != (nodes + [node])[j].inode
  {
  }

  lemma AccountedGrows(fs: Objects, nodes: seq<Tree>, visited: seq<nat>, queue: seq<nat>, node: Tree)
    requires Accounted(fs, nodes, visited, queue)
    ensures Accounted(fs, nodes + [node], visited, if IsDir(fs, node.inode) then queue + [|nodes|] else queue)
  {
    var all, n := visited + queue, |nodes|;
    assert n !in all;
    if IsDir(fs, node.inode) {
      var next := visited + (queue + [n]);
      assert next == all + [n];
      forall i | 0 <= i <= n ensures i in next <==> i in all || i == n {
      }
    }
  }

  ghost predicate Opened(fs: Objects, nodes: seq<Tree>, links: map<Path, nat>, visited: seq<nat>) {
    forall x :: 0 <= x < |visited| ==>
      visited[x] < |nodes| && AllRecorded(fs, nodes, links, visited[x], |Entries(fs, nodes[visited[x]].inode)|)
  }

  lemma OpenedStays(fs: Objects, nodes: seq<Tree>, links: map<Path, nat>, visited: seq<nat>, node: Tree)
    requires Opened(fs, nodes, links, visited)
    ensures Opened(fs, nodes + [node], links, visited)
  {
    hide AllRecorded;
    forall x | 0 <= x < |visited|
      ensures visited[x] < |nodes| && AllRecorded(fs, nodes + [node], links, visited[x],
                                                  |Entries(fs, nodes[visited[x]].inode)|)
    {
      AllRecordedStays(fs, nodes, links, node, visited[x], |Entries(fs, nodes[visited[x]].inode)|);
    }
  }

  lemma OpenedMoreLinks(fs: Objects, nodes: seq<Tree>, links: map<Path, nat>, visited: seq<nat>, key: Path, v: nat)
    requires Opened(fs, nodes, links, visited)
    ensures Opened(fs, nodes, links[key := v], visited)
  {
    hide AllRecorded;
    forall x | 0 <= x < |visited|
      ensures AllRecorded(fs, nodes, links[key := v], visited[x], |Entries(fs, nodes[visited[x]].inode)|)
    {
      MoreLinks(fs, nodes, links, key, v, visited[x], |Entries(fs, nodes[visited[x]].inode)|);
    }
  }

  /** How many entries, dots aside, the first `n` of a listing are. */
  function CountPlain(list: Listing, n: nat): nat
    requires n <= |list|
  {
    if n == 0 then 0 else CountPlain(list, n - 1) + (if IsDot(list[n - 1].0) then 0 else 1)
  }

  function CountAll(fs: Objects, nodes: seq<Tree>, visited: seq<nat>): nat {
    if visited == [] then 0
    else
      var x := visited[|visited| - 1];
      CountAll(fs, nodes, visited[..|visited| - 1])
      + (if x < |nodes| then CountPlain(Entries(fs, nodes[x].inode), |Entries(fs, nodes[x].inode)|) else 0)
  }

  lemma {:induction false} CountAllStays(fs: Objects, nodes: seq<Tree>, visited: seq<nat>, node: Tree)
    requires forall x :: 0 <= x < |visited| ==> visited[x] < |nodes|
    ensures CountAll(fs, nodes + [node], visited) == CountAll(fs, nodes, visited)
  {
    if visited != [] { CountAllStays(fs, nodes, visited[..|visited| - 1], node); }
  }

  lemma {:induction false} CountAllSnoc(fs: Objects, nodes: seq<Tree>, visited: seq<nat>, p: nat)
    requires p < |nodes|
    ensures CountAll(fs, nodes, visited + [p]) ==
            CountAll(fs, nodes, visited) + CountPlain(Entries(fs, nodes[p].inode), |Entries(fs, nodes[p].inode)|)
  {
    assert (visited + [p])[..|visited|] == visited;
  }

  lemma {:induction false} RecordedHere(nodes: seq<Tree>, links: map<Path, nat>, p: nat, e: (Name, nat))
    requires p < |nodes|
    ensures Recorded(nodes + [Tree(e.1, e.0, p)], links, p, e)
    ensures HasInode(nodes, e.1) ==> Recorded(nodes, links[Where(nodes, p) + [e.0] := e.1], p, e)
  {
    HasInodeStays(nodes, Tree(e.1, e.0, p), e.1);
    assert SameNode(nodes + [Tree(e.1, e.0, p)], |nodes|, p, e);
  }

  /** A recorded hard link is an entry of a directory in the tree, with the inode it leads to, which has a
      node of its own. */
  ghost predicate LinkRight(fs: Objects, nodes: seq<Tree>, path: Path, k: nat) {
    exists p :: 0 <= p < |nodes| && LinkIn(fs, nodes, p, path, k) && HasInode(nodes, k)
  }

  ghost predicate LinkIn(fs: Objects, nodes: seq<Tree>, p: nat, path: Path, k: nat)
    requires p < |nodes|
  {
    && path != [] && path[..|path| - 1] == Where(nodes, p) && !IsDot(path[|path| - 1])
    && (path[|path| - 1], k) in Entries(fs, nodes[p].inode)
  }

  ghost predicate LinksRight(fs: Objects, nodes: seq<Tree>, links: map<Path, nat>) {
    forall path :: path in links ==> LinkRight(fs, nodes, path, links[path])
  }

  lemma LinksRightStay(fs: Objects, nodes: seq<Tree>, links: map<Path, nat>, n: Tree)
    requires LinksRight(fs, nodes, links)
    ensures LinksRight(fs, nodes + [n], links)
  {
    hide HasInode, Where;
    forall path | path in links ensures LinkRight(fs, nodes + [n], path, links[path]) {
      var k := links[path];
      var p :| 0 <= p < |nodes| && LinkIn(fs, nodes, p, path, k) && HasInode(nodes, k);
      WhereStays(nodes, n, p);
      HasInodeStays(nodes, n, k);
      assert LinkIn(fs, nodes + [n], p, path, k);
    }
  }

  lemma {:induction false} LinksRightMore(fs: Objects, nodes: seq<Tree>, links: map<Path, nat>, p: nat, e: (Name, nat))
    requires LinksRight(fs, nodes, links) && p < |nodes| && e in Entries(fs, nodes[p].inode) && HasInode(nodes, e.1)
    requires !IsDot(e.0)
    ensures LinksRight(fs, nodes, links[Where(nodes, p) + [e.0] := e.1])
  {
    hide HasInode, Where;
    var key := Where(nodes, p) + [e.0];
    assert key[..|key| - 1] == Where(nodes, p) && LinkIn(fs, nodes, p, key, e.1);
    var more := links[key := e.1];
    forall path | path in more ensures LinkRight(fs, nodes, path, more[path]) {
      if path != key { assert LinkRight(fs, nodes, path, links[path]); }
    }
  }

  /** An entry of a directory in the tree leads to an inode that cannot be read. */
  ghost predicate Dangling(fs: Objects, nodes: seq<Tree>) {
    exists p :: 0 <= p < |nodes| && DanglingIn(fs, nodes[p].inode)
  }

  ghost predicate DanglingIn(fs: Objects, k: nat) {
    exists x :: 0 <= x < |Entries(fs, k)| && !IsDot(Entries(fs, k)[x].0) && !Readable(fs, Entries(fs, k)[x].1)
  }

  /** A way down from the root by entries other than the dots. */
  ghost predicate Way(fs: Objects, trail: seq<nat>) {
    forall i :: 0 <= i < |trail| ==> PlainEntry(fs, At(trail[..i]), trail[i])
  }

  ghost predicate PlainEntry(fs: Objects, k: nat, c: nat) {
    exists x :: 0 <= x < |Entries(fs, k)| && !IsDot(Entries(fs, k)[x].0) && Entries(fs, k)[x].1 == c
  }

  /** Everything that some way leads to can be read. */
  ghost predicate AllReadable(fs: Objects) { forall trail :: Way(fs, trail) ==> Readable(fs, At(trail)) }

  /** The traversal: the tree built so far, the inodes seen, the hard links found, the directories waiting. */
  class Traversal {
    const fs: Objects
    var nodes: seq<Tree>
    var seen: set<nat>
    var links: map<Path, nat>
    var queue: seq<nat>
    ghost var visited: seq<nat>
    ghost var linked: nat

    /** `count` is the number of entries dealt with in the directory being opened. */
    ghost predicate Valid(done: seq<nat>, count: nat)
      reads this
    {
      && TreeSane(fs, nodes, seen) && Accounted(fs, nodes, visited, queue) && Opened(fs, nodes, links, done)
      && LinksRight(fs, nodes, links)
      && |nodes| - 1 + linked == CountAll(fs, nodes, done) + count
    }

    constructor (objects: Objects)
      requires IsDir(objects, F.ROOT_INODE)
      ensures Valid([], 0) && visited == [] && fs == objects && queue == [0]
    {
      fs := objects;
      nodes, seen, links, queue := [Tree(F.ROOT_INODE, DOT, 0)], {F.ROOT_INODE}, map[], [0];
      visited, linked := [], 0;
      new;
      assert visited + queue == [0];
    }

    /** An entry whose inode is known is a hard link; any other becomes a node, and waits if it is a
        directory. */
    method Enter(p: nat, e: (Name, nat), ghost done: seq<nat>, ghost count: nat, ghost k: nat) returns (ok: bool)
      requires Valid(done, count) && p < |nodes| && !IsDot(e.0) && AllRecorded(fs, nodes, links, p, k)
      requires k < |Entries(fs, nodes[p].inode)| && Entries(fs, nodes[p].inode)[k] == e
      requires forall x :: 0 <= x < |done| ==> done[x] < |nodes|
      modifies this
      ensures ok ==> Valid(done, count + 1) && AllRecorded(fs, nodes, links, p, k + 1)
      ensures !ok ==> TreeSane(fs, nodes, seen) && Dangling(fs, nodes)
      ensures visited == old(visited) && old(nodes) <= nodes && old(seen) <= seen
      ensures ok && seen == old(seen) ==> queue == old(queue)
    {
      hide TreeSane, Accounted, Opened, AllRecorded, CountAll, CountPlain, Recorded, Where, LinksRight, Dangling;
      RecordedHere(nodes, links, p, e);
      if e.1 in seen {
        SeenIsNode(fs, nodes, seen, e.1);
        MoreLinks(fs, nodes, links, Where(nodes, p) + [e.0], e.1, p, k);
        OpenedMoreLinks(fs, nodes, links, done, Where(nodes, p) + [e.0], e.1);
        LinksRightMore(fs, nodes, links, p, e);
        links := links[Where(nodes, p) + [e.0] := e.1];
        linked := linked + 1;
        OneMoreRecorded(fs, nodes, links, p, k);
        return true;
      }
      if !Readable(fs, e.1) {
        IsDangling(fs, nodes, p, k);
        return false;
      }
      var node := Tree(e.1, e.0, p);
      TreeGrows(fs, nodes, seen, node);
      AccountedGrows(fs, nodes, visited, queue, node);
      OpenedStays(fs, nodes, links, done, node);
      AllRecordedStays(fs, nodes, links, node, p, k);
      LinksRightStay(fs, nodes, links, node);
      CountAllStays(fs, nodes, done, node);
      if IsDir(fs, e.1) { queue := queue + [|nodes|]; }
      nodes, seen := nodes + [node], seen + {e.1};
      OneMoreRecorded(fs, nodes, links, p, k);
      ok := true;
    }

    /** Go through one directory. */
    method Open(p: nat, ghost done: seq<nat>) returns (ok: bool)
      requires Valid(done, 0) && p < |nodes| && forall x :: 0 <= x < |done| ==> done[x] < |nodes|
      modifies this
      ensures ok ==> Valid(done + [p], 0)
      ensures !ok ==> TreeSane(fs, nodes, seen) && Dangling(fs, nodes)
      ensures visited == old(visited) && old(nodes) <= nodes && old(seen) <= seen
      ensures ok && seen == old(seen) ==> queue == old(queue)
    {
      hide TreeSane, Accounted, Opened, AllRecorded, CountAll, CountPlain, Recorded, Where, LinksRight, Dangling;
      var list := Entries(fs, nodes[p].inode);
      NothingRecorded(fs, nodes, links, p);
      for k := 0 to |list|
        invariant Valid(done, CountPlain(list, k)) && old(nodes) <= nodes && visited == old(visited)
        invariant old(seen) <= seen
        invariant Entries(fs, nodes[p].inode) == list && AllRecorded(fs, nodes, links, p, k)
        invariant seen == old(seen) ==> queue == old(queue)
      {
        CountStep(list, k);
        if IsDot(list[k].0) {
          DotRecorded(fs, nodes, links, p, k);
        } else {
          ok := Enter(p, list[k], done, CountPlain(list, k), k);
          if !ok { return; }
        }
      }
      OpenedSnoc(fs, nodes, links, done, p);
      CountAllSnoc(fs, nodes, done, p);
      ok := true;
    }

    /** Until no directory is waiting: then the whole of what the directories reach is in the tree, and every
        entry leads to an inode that can be read. It stops early exactly if it meets one that does not. */
    method Traverse() returns (ok: bool)
      requires Valid([], 0) && visited == []
      modifies this
      ensures ok <==> AllReadable(fs)
      ensures ok ==> Valid(visited, 0) && queue == []
    {
      hide TreeSane, Accounted, Opened, CountAll, LinksRight, Dangling, AllReadable;
      while queue != []
        invariant Valid(visited, 0)
        decreases |fs.Keys - seen|, |queue|
      {
        ghost var before, was := seen, fs.Keys - seen;
        var p := queue[|queue| - 1];
        Popped(fs, nodes, visited, queue);
        ghost var done := visited;
        visited := visited + [p];
        queue := queue[..|queue| - 1];
        ghost var waiting := queue;
        ok := Open(p, done);
        if !ok {
          DanglingUnreadable(fs, nodes, seen);
          return;
        }
        SeenShrinks(fs, nodes, seen, before);
      }
      CompleteReadable(fs, nodes, seen, links, visited);
      ok := true;
    }
  }

  lemma SeenIsNode(fs: Objects, nodes: seq<Tree>, seen: set<nat>, k: nat)
    requires TreeSane(fs, nodes, seen) && k in seen
    ensures HasInode(nodes, k)
  {
  }

  lemma CountStep(list: Listing, k: nat)
    requires k < |list|
    ensures CountPlain(list, k + 1) == CountPlain(list, k) + (if IsDot(list[k].0) then 0 else 1)
    ensures CountPlain(list, 0) == 0
  {
  }

  lemma NothingRecorded(fs: Objects, nodes: seq<Tree>, links: map<Path, nat>, p: nat)
    requires p < |nodes|
    ensures AllRecorded(fs, nodes, links, p, 0) && forall list: Listing {:trigger CountPlain(list, 0)} ::
            CountPlain(list, 0) == 0
  {
  }

  lemma OneMoreRecorded(fs: Objects, nodes: seq<Tree>, links: map<Path, nat>, p: nat, k: nat)
    requires AllRecorded(fs, nodes, links, p, k) && k < |Entries(fs, nodes[p].inode)|
    requires Recorded(nodes, links, p, Entries(fs, nodes[p].inode)[k])
    ensures AllRecorded(fs, nodes, links, p, k + 1)
  {
    hide Recorded;
  }

  lemma DotRecorded(fs: Objects, nodes: seq<Tree>, links: map<Path, nat>, p: nat, k: nat)
    requires AllRecorded(fs, nodes, links, p, k) && k < |Entries(fs, nodes[p].inode)|
    requires IsDot(Entries(fs, nodes[p].inode)[k].0)
    ensures AllRecorded(fs, nodes, links, p, k + 1)
  {
  }

  lemma OpenedSnoc(fs: Objects, nodes: seq<Tree>, links: map<Path, nat>, done: seq<nat>, p: nat)
    requires Opened(fs, nodes, links, done) && p < |nodes|
    requires AllRecorded(fs, nodes, links, p, |Entries(fs, nodes[p].inode)|)
    ensures Opened(fs, nodes, links, done + [p])
  {
    hide AllRecorded;
  }

  lemma Popped(fs: Objects, nodes: seq<Tree>, visited: seq<nat>, queue: seq<nat>)
    requires Accounted(fs, nodes, visited, queue) && queue != []
    ensures var p := queue[|queue| - 1];
            && p < |nodes| && Accounted(fs, nodes, visited + [p], queue[..|queue| - 1])
            && forall x :: 0 <= x < |visited| ==> visited[x] < |nodes|
  {
    var n := |queue| - 1;
    var p, all, next := queue[n], visited + queue, visited + [queue[n]] + queue[..n];
    assert all[|visited| + n] == p && p in all;
    forall i: nat ensures i in next <==> i in all {
      if i in all && i !in visited { assert i in queue[..n] + [queue[n]]; }
    }
    forall x, y | 0 <= x < y < |next| ensures next[x] != next[y] {
      var a := if x < |visited| then x else if x == |visited| then |visited| + n else x - 1;
      var b := if y < |visited| then y else if y == |visited| then |visited| + n else y - 1;
      assert next[x] == all[a] && next[y] == all[b];
    }
    forall x | 0 <= x < |visited| ensures visited[x] < |nodes| { assert visited[x] in all; }
  }

  lemma SeenShrinks(fs: Objects, nodes: seq<Tree>, seen: set<nat>, before: set<nat>)
    requires TreeSane(fs, nodes, seen) && before <= seen
    ensures seen != before ==> |fs.Keys - seen| < |fs.Keys - before|
  {
    hide HasInode, EntryOf;
    if seen != before {
      var k :| k in seen && k !in before;
      assert k in fs.Keys - before && k !in fs.Keys - seen;
      assert fs.Keys - seen <= (fs.Keys - before) - {k};
      SubsetSize(fs.Keys - seen, (fs.Keys - before) - {k});
    }
  }

  /** Once nothing is waiting, every directory of the tree has been opened exactly once, every entry in it
      is recorded, and nodes and hard links together are as many as the entries. */
  lemma TraversalComplete(fs: Objects, nodes: seq<Tree>, links: map<Path, nat>, visited: seq<nat>, i: nat, k: nat)
    requires Accounted(fs, nodes, visited, []) && Opened(fs, nodes, links, visited) && i < |nodes|
    requires k < |Entries(fs, nodes[i].inode)|
    ensures Distinct(visited) && i in visited && Recorded(nodes, links, i, Entries(fs, nodes[i].inode)[k])
  {
    hide Recorded;
    assert visited + [] == visited;
    var x :| 0 <= x < |visited| && visited[x] == i;
  }

  lemma IsDangling(fs: Objects, nodes: seq<Tree>, p: nat, x: nat)
    requires p < |nodes| && x < |Entries(fs, nodes[p].inode)| && !IsDot(Entries(fs, nodes[p].inode)[x].0)
    requires !Readable(fs, Entries(fs, nodes[p].inode)[x].1)
    ensures Dangling(fs, nodes)
  {
    assert DanglingIn(fs, nodes[p].inode);
  }

  // ----- The tree is what the directories reach -----

  /** Every inode that some way leads to has a node. */
  lemma {:induction false} ReachedHasNode(fs: Objects, nodes: seq<Tree>, seen: set<nat>, links: map<Path, nat>,
                                          visited: seq<nat>, trail: seq<nat>)
    requires TreeSane(fs, nodes, seen) && Accounted(fs, nodes, visited, []) && Opened(fs, nodes, links, visited)
    requires Way(fs, trail)
    ensures HasInode(nodes, At(trail))
  {
    hide Opened, Accounted, Way, PlainEntry;
    if trail == [] {
      assert nodes[0].inode == F.ROOT_INODE;
    } else {
      var n := |trail| - 1;
      WayUp(fs, trail);
      ReachedHasNode(fs, nodes, seen, links, visited, trail[..n]);
      NextHasNode(fs, nodes, links, visited, At(trail[..n]), trail[n]);
    }
  }

  lemma WayUp(fs: Objects, trail: seq<nat>)
    requires Way(fs, trail) && trail != []
    ensures Way(fs, trail[..|trail| - 1]) && PlainEntry(fs, At(trail[..|trail| - 1]), trail[|trail| - 1])
  {
    hide PlainEntry;
    var init := trail[..|trail| - 1];
    forall i | 0 <= i < |init| ensures PlainEntry(fs, At(init[..i]), init[i]) {
      assert init[..i] == trail[..i] && init[i] == trail[i];
      assert PlainEntry(fs, At(trail[..i]), trail[i]);
    }
  }

  lemma NextHasNode(fs: Objects, nodes: seq<Tree>, links: map<Path, nat>, visited: seq<nat>, k: nat, c: nat)
    requires Accounted(fs, nodes, visited, []) && Opened(fs, nodes, links, visited) && HasInode(nodes, k)
    requires PlainEntry(fs, k, c)
    ensures HasInode(nodes, c)
  {
    hide Opened, Accounted;
    var p :| 0 <= p < |nodes| && nodes[p].inode == k;
    var list := Entries(fs, k);
    var x :| 0 <= x < |list| && !IsDot(list[x].0) && list[x].1 == c;
    TraversalComplete(fs, nodes, links, visited, p, x);
  }

  /** Every node is at the end of some way. */
  lemma {:induction false} NodeIsReached(fs: Objects, nodes: seq<Tree>, seen: set<nat>, i: nat)
      returns (trail: seq<nat>)
    requires TreeSane(fs, nodes, seen) && i < |nodes|
    ensures Way(fs, trail) && At(trail) == nodes[i].inode
    decreases i
  {
    if i == 0 {
      trail := [];
    } else {
      var p := nodes[i].parent;
      var up := NodeIsReached(fs, nodes, seen, p);
      trail := up + [nodes[i].inode];
      var list := Entries(fs, nodes[p].inode);
      assert EntryOf(fs, nodes[p].inode, nodes[i]);
      var x :| 0 <= x < |list| && list[x] == (nodes[i].name, nodes[i].inode);
      WayDown(fs, up, x);
    }
  }

  /** Once nothing is waiting, all that can be reached has been read. */
  lemma CompleteReadable(fs: Objects, nodes: seq<Tree>, seen: set<nat>, links: map<Path, nat>, visited: seq<nat>)
    requires TreeSane(fs, nodes, seen) && Accounted(fs, nodes, visited, []) && Opened(fs, nodes, links, visited)
    ensures AllReadable(fs)
  {
    hide Opened, Accounted, Way, Readable, ParentsFirst, IsDir;
    forall trail | Way(fs, trail) ensures Readable(fs, At(trail)) {
      ReachedHasNode(fs, nodes, seen, links, visited, trail);
      var i :| 0 <= i < |nodes| && nodes[i].inode == At(trail);
    }
  }

  /** An entry that cannot be read is at the end of some way. */
  lemma DanglingUnreadable(fs: Objects, nodes: seq<Tree>, seen: set<nat>)
    requires TreeSane(fs, nodes, seen) && Dangling(fs, nodes)
    ensures !AllReadable(fs)
  {
    hide TreeSane, Way, Readable;
    var p :| 0 <= p < |nodes| && DanglingIn(fs, nodes[p].inode);
    var list := Entries(fs, nodes[p].inode);
    var x :| 0 <= x < |list| && !IsDot(list[x].0) && !Readable(fs, list[x].1);
    var up := NodeIsReached(fs, nodes, seen, p);
    WayDown(fs, up, x);
    assert At(up + [list[x].1]) == list[x].1;
  }

  lemma WayDown(fs: Objects, up: seq<nat>, x: nat)
    requires Way(fs, up) && x < |Entries(fs, At(up))| && !IsDot(Entries(fs, At(up))[x].0)
    ensures Way(fs, up + [Entries(fs, At(up))[x].1])
  {
    hide Entries;
    var trail := up + [Entries(fs, At(up))[x].1];
    forall j | 0 <= j < |trail| ensures PlainEntry(fs, At(trail[..j]), trail[j]) {
      if j < |up| {
        assert trail[..j] == up[..j] && trail[j] == up[j];
        assert PlainEntry(fs, At(up[..j]), up[j]);
      } else {
        assert trail[..j] == up;
      }
    }
  }

  // ----- Opening an image -----

  /** The whole of what the directories reach: nodes and hard links as the traversal leaves them. */
  ghost predicate Complete(fs: Objects, nodes: seq<Tree>, seen: set<nat>, links: map<Path, nat>, visited: seq<nat>) {
    TreeSane(fs, nodes, seen) && Accounted(fs, nodes, visited, []) && Opened(fs, nodes, links, visited)
      && LinksRight(fs, nodes, links)
  }

  /** An image file can be opened if and only if all that can be reached on it can be read. */
  method OpenImage(d: Disk, length: nat)
    returns (ok: bool, nodes: seq<Tree>, links: map<Path, nat>, ghost seen: set<nat>, ghost visited: seq<nat>)
    ensures ok <==> AllReadable(ObjectsOf(d, length))
    ensures ok ==> Complete(ObjectsOf(d, length), nodes, seen, links, visited)
  {
    hide ObjectsOf, AllReadable, Way, TreeSane, Accounted, Opened, LinksRight;
    var fs := ObjectsOf(d, length);
    ok, nodes, links, seen, visited := false, [], map[], {}, [];
    RootFirst(fs);
    if !IsDir(fs, F.ROOT_INODE) { return; }
    var t := new Traversal(fs);
    ok := t.Traverse();
    nodes, links, seen, visited := t.nodes, t.links, t.seen, t.visited;
  }

  lemma RootFirst(fs: Objects)
    ensures AllReadable(fs) ==> IsDir(fs, F.ROOT_INODE)
  {
    assert Way(fs, []);
  }
}
