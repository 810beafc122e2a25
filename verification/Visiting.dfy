/** Visiting the whole tree breadth first: the order takes in every reachable node, each once. */
module Visiting {
  import opened Geometry
  import opened FileTree
  import opened Committing

  /** The order is exactly the reachable nodes, without repetition. */
  ghost predicate VisitsAll(nodes: Nodes, order: seq<nat>) {
    && LinksAgree(nodes) && Distinct(order)
    && (forall x :: 0 <= x < |order| ==> order[x] < |nodes|)
    && (forall j :: j in order <==> 0 <= j < |nodes| && Attached(nodes, j))
  }

  /** Half way: `order` has been visited, `queue` is waiting. */
  ghost predicate Frontier(nodes: Nodes, order: seq<nat>, queue: seq<nat>)
    requires LinksAgree(nodes)
  {
    var all := order + queue;
    && Distinct(all) && ROOT in all
    && (forall x :: 0 <= x < |all| ==> all[x] < |nodes| && Attached(nodes, all[x]))
    && (forall j, c :: j in order && 0 <= j < |nodes| && c in nodes[j].children ==> c in all)
    && (forall j :: j in all && j != ROOT && 0 <= j < |nodes| ==> Parent(nodes, j) in order)
  }

  lemma FrontierStart(nodes: Nodes)
    requires LinksAgree(nodes)
    ensures Frontier(nodes, [], [ROOT])
  {
    assert [] + [ROOT] == [ROOT];
  }

  lemma {:induction false} ParentOf(nodes: Nodes, i: nat, c: nat)
    requires LinksAgree(nodes) && i < |nodes| && c in nodes[i].children
    ensures i < c < |nodes| && Parent(nodes, c) == i && (Attached(nodes, i) ==> Attached(nodes, c))
  {
  }

  lemma DistinctAppend(a: seq<nat>, b: seq<nat>)
    requires Distinct(a) && Distinct(b) && forall x :: x in b ==> x !in a
    ensures Distinct(a + b)
  {
    var all := a + b;
    forall x, y | 0 <= x < y < |all| ensures all[x] != all[y] {
      if x < |a| <= y { assert all[y] in b; }
    }
  }

  /** The node at the head of the queue is visited, and its children join the queue. */
  lemma FrontierStep(nodes: Nodes, order: seq<nat>, queue: seq<nat>)
    requires WellFormed(nodes) && Frontier(nodes, order, queue) && queue != []
    ensures queue[0] < |nodes| && Frontier(nodes, order + [queue[0]], queue[1..] + nodes[queue[0]].children)
  {
    hide Attached, LinksAgree;
    var i, all := queue[0], order + queue;
    assert all[|order|] == i;
    var kids := nodes[i].children;
    var next := (order + [i]) + (queue[1..] + kids);
    assert next == all + kids;
    forall y | 0 <= y < |order| ensures order[y] != i {
      assert all[y] == order[y];
    }
    forall c | c in kids ensures c !in all {
      ParentOf(nodes, i, c);
    }
    KidsDistinct(nodes, i);
    DistinctAppend(all, kids);
    forall x | 0 <= x < |next| ensures next[x] < |nodes| && Attached(nodes, next[x]) {
      if x < |all| { assert next[x] == all[x]; } else { ParentOf(nodes, i, next[x]); }
    }
    forall j | j in next && j != ROOT && 0 <= j < |nodes| ensures Parent(nodes, j) in order + [i] {
      if j in kids { ParentOf(nodes, i, j); }
    }
  }

  lemma KidsDistinct(nodes: Nodes, i: nat)
    requires WellFormed(nodes) && i < |nodes|
    ensures Distinct(nodes[i].children)
  {
    assert SiblingsDiffer(nodes, nodes[i].children);
    SiblingsDistinct(nodes, nodes[i].children);
  }

  /** When nobody waits any more, everybody has been visited. */
  lemma FrontierEnd(nodes: Nodes, order: seq<nat>)
    requires LinksAgree(nodes) && Frontier(nodes, order, [])
    ensures VisitsAll(nodes, order)
  {
    assert order + [] == order;
    forall j | 0 <= j < |nodes| && Attached(nodes, j) ensures j in order {
      Reached(nodes, order, j);
    }
  }

  lemma {:induction false} Reached(nodes: Nodes, order: seq<nat>, j: nat)
    requires LinksAgree(nodes) && Frontier(nodes, order, []) && j < |nodes| && Attached(nodes, j)
    ensures j in order
    decreases j
  {
    assert order + [] == order;
    if j != ROOT { Reached(nodes, order, Parent(nodes, j)); }
  }

  /** At most as many nodes are visited as there are. */
  lemma NotMoreThanAll(order: seq<nat>, n: nat)
    requires Distinct(order) && forall x :: 0 <= x < |order| ==> order[x] < n
    ensures |order| <= n
  {
    DistinctSize(order);
    SubsetSize(Elements(order), NumbersBelow(n));
  }
}
