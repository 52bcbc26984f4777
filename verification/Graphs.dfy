/** Finite directed graphs as adjacency maps, walks in them, and reachability. */
module Graphs {

  ghost predicate Edge<T>(adj: map<T, seq<T>>, u: T, v: T) {
    u in adj && v in adj[u]
  }

  /** Every edge ends at a node of the graph. */
  ghost predicate Closed<T(!new)>(adj: map<T, seq<T>>) {
    forall u, v :: Edge(adj, u, v) ==> v in adj
  }

  /** `p` is a walk from `u` to `v`; its length in edges is `|p| - 1`. */
  ghost predicate Walk<T>(adj: map<T, seq<T>>, p: seq<T>, u: T, v: T) {
    && |p| > 0 && p[0] == u && p[|p| - 1] == v
    && forall i, j :: 0 <= i && j == i + 1 && j < |p| ==> Edge(adj, p[i], p[j])
  }

  ghost predicate Reach<T(!new)>(adj: map<T, seq<T>>, u: T, v: T) {
    exists p :: Walk(adj, p, u, v)
  }

  /** Some node lies on a walk of at least one edge back to itself. */
  ghost predicate Cyclic<T(!new)>(adj: map<T, seq<T>>) {
    exists p, v :: Walk(adj, p, v, v) && |p| > 1
  }

  lemma ReachRefl<T(!new)>(adj: map<T, seq<T>>, u: T)
    ensures Reach(adj, u, u)
  {
    assert Walk(adj, [u], u, u);
  }

  lemma ReachEdge<T(!new)>(adj: map<T, seq<T>>, u: T, v: T)
    requires Edge(adj, u, v)
    ensures Reach(adj, u, v)
  {
    assert Walk(adj, [u, v], u, v);
  }

  lemma WalkConcat<T>(adj: map<T, seq<T>>, p: seq<T>, q: seq<T>, u: T, v: T, w: T)
    requires Walk(adj, p, u, v) && Walk(adj, q, v, w)
    ensures Walk(adj, p + q[1..], u, w)
  {
    var r := p + q[1..];
    forall i, j | 0 <= i && j == i + 1 && j < |r|
      ensures Edge(adj, r[i], r[j])
    {
      if i >= |p| - 1 {
        assert r[i] == q[i - |p| + 1] && r[j] == q[j - |p| + 1];
      }
    }
  }

  lemma ReachTrans<T(!new)>(adj: map<T, seq<T>>, u: T, v: T, w: T)
    requires Reach(adj, u, v) && Reach(adj, v, w)
    ensures Reach(adj, u, w)
  {
    var p :| Walk(adj, p, u, v);
    var q :| Walk(adj, q, v, w);
    WalkConcat(adj, p, q, u, v, w);
  }

  /** Dropping the last node of a walk of at least one edge. */
  lemma WalkInit<T>(adj: map<T, seq<T>>, p: seq<T>, u: T, v: T)
    requires Walk(adj, p, u, v) && |p| > 1
    ensures Walk(adj, p[..|p| - 1], u, p[|p| - 2]) && Edge(adj, p[|p| - 2], v)
  {
  }

  /** A set closed under successors holds everything reachable from it. */
  lemma {:induction false} ClosedSetReach<T(!new)>(adj: map<T, seq<T>>, s: set<T>, u: T, v: T)
    requires forall x, y :: x in s && Edge(adj, x, y) ==> y in s
    requires u in s && Reach(adj, u, v)
    ensures v in s
  {
    var p :| Walk(adj, p, u, v);
    ClosedSetWalk(adj, s, p, u, v);
  }

  lemma {:induction false} ClosedSetWalk<T(!new)>(adj: map<T, seq<T>>, s: set<T>, p: seq<T>, u: T, v: T)
    requires forall x, y :: x in s && Edge(adj, x, y) ==> y in s
    requires u in s && Walk(adj, p, u, v)
    ensures v in s
    decreases |p|
  {
    if |p| > 1 {
      WalkInit(adj, p, u, v);
      ClosedSetWalk(adj, s, p[..|p| - 1], u, p[|p| - 2]);
    }
  }

  /** A part of a walk is a walk. */
  lemma WalkPart<T>(adj: map<T, seq<T>>, p: seq<T>, u: T, v: T, i: nat, j: nat)
    requires Walk(adj, p, u, v) && i <= j < |p|
    ensures Walk(adj, p[i..j + 1], p[i], p[j])
  {
  }
}
