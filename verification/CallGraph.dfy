/** Which functions the roots reach, by what shortest chain of calls, and which of them have too large a frame. */
module CallGraph {
  import opened Wrappers
  import opened Graphs
  import opened Order
  import opened Sets

  type Edges = map<int, seq<int>>

  /** Some root reaches `v`. */
  ghost predicate Reached(edges: Edges, roots: seq<int>, v: int) {
    exists r :: r in roots && Reach(edges, r, v)
  }

  /** `dist` counts the calls on the parent chain of each function, which ends at a root. */
  ghost predicate Tree(edges: Edges, roots: seq<int>, parent: map<int, Option<int>>, dist: map<int, nat>) {
    && dist.Keys == parent.Keys
    && forall v :: v in parent ==>
         if parent[v].None? then v in roots && dist[v] == 0
         else Edge(edges, parent[v].value, v) && parent[v].value in dist && dist[v] == dist[parent[v].value] + 1
  }

  /** Every call out of `u` leads to a function at most one further than `u`. */
  ghost predicate Settled(edges: Edges, dist: map<int, nat>, u: int) {
    u in dist && forall v :: Edge(edges, u, v) ==> v in dist && dist[v] <= dist[u] + 1
  }

  ghost predicate AllSettled(edges: Edges, roots: seq<int>, dist: map<int, nat>) {
    (forall r :: r in roots ==> r in dist && dist[r] == 0) && forall u :: u in dist ==> Settled(edges, dist, u)
  }

  /** No chain from a root is shorter than `dist`. */
  lemma {:induction false} Shortest(edges: Edges, roots: seq<int>, dist: map<int, nat>, p: seq<int>, r: int, v: int)
    requires AllSettled(edges, roots, dist) && r in roots && Walk(edges, p, r, v)
    ensures v in dist && dist[v] <= |p| - 1
    decreases |p|
  {
    if |p| > 1 {
      WalkInit(edges, p, r, v);
      Shortest(edges, roots, dist, p[..|p| - 1], r, p[|p| - 2]);
      assert Settled(edges, dist, p[|p| - 2]);
    }
  }

  /** The parent chain of `v`, root first. */
  ghost function ChainOf(edges: Edges, roots: seq<int>, parent: map<int, Option<int>>, dist: map<int, nat>, v: int): (c: seq<int>)
    requires Tree(edges, roots, parent, dist) && v in parent
    ensures |c| == dist[v] + 1
    decreases dist[v]
  {
    if parent[v].None? then [v] else ChainOf(edges, roots, parent, dist, parent[v].value) + [v]
  }

  lemma {:induction false} ChainWalks(edges: Edges, roots: seq<int>, parent: map<int, Option<int>>, dist: map<int, nat>, v: int)
    requires Tree(edges, roots, parent, dist) && v in parent
    ensures var c := ChainOf(edges, roots, parent, dist, v); c[0] in roots && Walk(edges, c, c[0], v)
    decreases dist[v]
  {
    if parent[v].Some? {
      var u := parent[v].value;
      ChainWalks(edges, roots, parent, dist, u);
      var c := ChainOf(edges, roots, parent, dist, u);
      assert Walk(edges, [u, v], u, v);
      WalkConcat(edges, c, [u, v], c[0], u, v);
      assert [u, v][1..] == [v];
    }
  }

  /** What the search leaves: exactly the reached functions, each with a parent chain no other chain
      from a root is shorter than. */
  ghost predicate Searched(edges: Edges, roots: seq<int>, parent: map<int, Option<int>>, dist: map<int, nat>) {
    Tree(edges, roots, parent, dist) && AllSettled(edges, roots, dist)
  }

  lemma SearchedExactly(edges: Edges, roots: seq<int>, parent: map<int, Option<int>>, dist: map<int, nat>, v: int)
    requires Searched(edges, roots, parent, dist)
    ensures v in parent <==> Reached(edges, roots, v)
  {
    if v in parent {
      ChainWalks(edges, roots, parent, dist, v);
      var c := ChainOf(edges, roots, parent, dist, v);
      assert Reach(edges, c[0], v);
    }
    if Reached(edges, roots, v) {
      var r :| r in roots && Reach(edges, r, v);
      var p :| Walk(edges, p, r, v);
      Shortest(edges, roots, dist, p, r, v);
    }
  }

  // ---- the search

  /** The loop's invariant: everything seen is a tree, what is not queued is settled, and the queue runs
      from `level` to `level + 1`. */
  ghost predicate Searching(edges: Edges, roots: seq<int>, parent: map<int, Option<int>>, dist: map<int, nat>,
                            todo: seq<int>, level: nat, current: Option<int>) {
    && Tree(edges, roots, parent, dist)
    && (forall r :: r in roots ==> r in dist && dist[r] == 0)
    && (forall i :: 0 <= i < |todo| ==> todo[i] in dist && level <= dist[todo[i]])
    && (forall i, j :: 0 <= i < j < |todo| ==> todo[i] in dist && todo[j] in dist && dist[todo[i]] <= dist[todo[j]])
    && (forall v :: v in dist ==> dist[v] <= level + 1)
    && (forall u :: u in dist && u !in todo && Some(u) != current ==> Settled(edges, dist, u))
    && (current.Some? ==> current.value in dist && dist[current.value] == level)
  }

  /** Taking the next function off the queue. */
  lemma TakeNext(edges: Edges, roots: seq<int>, parent: map<int, Option<int>>, dist: map<int, nat>, todo: seq<int>, level: nat)
    requires Searching(edges, roots, parent, dist, todo, level, None) && todo != []
    ensures Searching(edges, roots, parent, dist, todo[1..], dist[todo[0]], Some(todo[0]))
  {
    forall u | u in dist && u !in todo[1..] && u != todo[0]
      ensures Settled(edges, dist, u)
    {
      assert todo == [todo[0]] + todo[1..];
    }
  }

  /** Queueing a function first seen from `f`. */
  lemma Discover(edges: Edges, roots: seq<int>, parent: map<int, Option<int>>, dist: map<int, nat>,
                 todo: seq<int>, f: int, g: int)
    requires f in dist && Searching(edges, roots, parent, dist, todo, dist[f], Some(f))
    requires Edge(edges, f, g) && g !in parent
    ensures Searching(edges, roots, parent[g := Some(f)], dist[g := dist[f] + 1], todo + [g], dist[f], Some(f))
  {
    var dist', todo' := dist[g := dist[f] + 1], todo + [g];
    assert forall i :: 0 <= i < |todo| ==> todo'[i] == todo[i] && todo[i] != g;
    forall u | u in dist' && u !in todo' && Some(u) != Some(f)
      ensures Settled(edges, dist', u)
    {
      assert u != g by { assert todo'[|todo|] == g; }
      assert u !in todo;
      assert Settled(edges, dist, u);
    }
  }

  /** Every call of the current function has been looked at. */
  lemma Finish(edges: Edges, roots: seq<int>, parent: map<int, Option<int>>, dist: map<int, nat>,
               todo: seq<int>, f: int, calls: seq<int>)
    requires f in dist && Searching(edges, roots, parent, dist, todo, dist[f], Some(f))
    requires calls == if f in edges then edges[f] else []
    requires forall i :: 0 <= i < |calls| ==> calls[i] in dist
    ensures Searching(edges, roots, parent, dist, todo, dist[f], None)
  {
    assert Settled(edges, dist, f);
  }

  ghost function Universe(edges: Edges, roots: seq<int>): set<int> {
    (set r | r in roots) + (set u, v | u in edges && v in edges[u] :: v)
  }

  lemma TreeInUniverse(edges: Edges, roots: seq<int>, parent: map<int, Option<int>>, dist: map<int, nat>)
    requires Tree(edges, roots, parent, dist)
    ensures parent.Keys <= Universe(edges, roots)
  {
    forall v | v in parent
      ensures v in Universe(edges, roots)
    {
      assert parent[v].Some? ==> Edge(edges, parent[v].value, v);
    }
  }

  lemma QueueEmpty(edges: Edges, roots: seq<int>, parent: map<int, Option<int>>, dist: map<int, nat>, level: nat)
    requires Searching(edges, roots, parent, dist, [], level, None)
    ensures Searched(edges, roots, parent, dist)
  {
  }

  /** The roots queued, each once. */
  method Seed(roots: seq<int>, ghost edges: Edges)
    returns (parent: map<int, Option<int>>, todo: seq<int>, ghost dist: map<int, nat>)
    ensures Searching(edges, roots, parent, dist, todo, 0, None)
  {
    parent, todo, dist := map[], [], map[];
    for i := 0 to |roots|
      invariant forall r :: r in parent <==> r in roots[..i]
      invariant dist.Keys == parent.Keys && forall r :: r in parent ==> parent[r] == None && dist[r] == 0
      invariant forall r :: r in parent ==> r in todo
      invariant forall k :: 0 <= k < |todo| ==> todo[k] in parent
    {
      assert roots[..i + 1] == roots[..i] + [roots[i]];
      if roots[i] !in parent {
        parent := parent[roots[i] := None];
        dist := dist[roots[i] := 0];
        todo := todo + [roots[i]];
      }
    }
    assert roots[..|roots|] == roots;
    forall k | 0 <= k < |todo|
      ensures todo[k] in dist && dist[todo[k]] == 0
    {
      var t := todo[k];
      assert t in parent;
      assert t in dist && dist[t] == 0;
    }
  }

  /** The invariant keeps the queue and the current function inside `dist`, and all inside the graph. */
  lemma SearchingFacts(edges: Edges, roots: seq<int>, parent: map<int, Option<int>>, dist: map<int, nat>,
                       todo: seq<int>, level: nat, current: Option<int>)
    requires Searching(edges, roots, parent, dist, todo, level, current)
    ensures dist.Keys == parent.Keys && (todo != [] ==> todo[0] in dist) && parent.Keys <= Universe(edges, roots)
    ensures current.Some? ==> current.value in dist && dist[current.value] == level
  {
    TreeInUniverse(edges, roots, parent, dist);
  }

  /** Look at every call of `f`, just taken off the queue. */
  method Expand(roots: seq<int>, edges: Edges, parent: map<int, Option<int>>, todo: seq<int>, f: int,
                ghost dist: map<int, nat>)
    returns (parent': map<int, Option<int>>, todo': seq<int>, ghost dist': map<int, nat>)
    requires f in dist && Searching(edges, roots, parent, dist, todo, dist[f], Some(f))
    ensures Searching(edges, roots, parent', dist', todo', dist[f], None)
    ensures parent.Keys <= parent'.Keys && (parent'.Keys == parent.Keys ==> todo' == todo)
  {
    hide Searching;
    parent', todo', dist' := parent, todo, dist;
    SearchingFacts(edges, roots, parent, dist, todo, dist[f], Some(f));
    var calls := if f in edges then edges[f] else [];
    for i := 0 to |calls|
      invariant f in dist' && dist'[f] == dist[f] && Searching(edges, roots, parent', dist', todo', dist[f], Some(f))
      invariant forall k :: 0 <= k < i ==> calls[k] in dist'
      invariant dist'.Keys == parent'.Keys && parent.Keys <= parent'.Keys
      invariant parent'.Keys == parent.Keys ==> todo' == todo
    {
      if calls[i] !in parent' {
        Discover(edges, roots, parent', dist', todo', f, calls[i]);
        parent' := parent'[calls[i] := Some(f)];
        dist' := dist'[calls[i] := dist[f] + 1];
        todo' := todo' + [calls[i]];
        assert calls[i] !in parent;
      }
    }
    Finish(edges, roots, parent', dist', todo', f, calls);
  }

  method Reachable(roots: seq<int>, edges: Edges) returns (parent: map<int, Option<int>>, ghost dist: map<int, nat>)
    ensures Searched(edges, roots, parent, dist)
    ensures forall v :: v in parent <==> Reached(edges, roots, v)
  {
    hide Searching, Universe, Searched, Reached, Tree, Walk;
    var todo: seq<int>;
    parent, todo, dist := Seed(roots, edges);
    ghost var level := 0;
    while todo != []
      invariant Searching(edges, roots, parent, dist, todo, level, None)
      decreases |Universe(edges, roots) - parent.Keys|, |todo|
    {
      ghost var before := parent;
      SearchingFacts(edges, roots, parent, dist, todo, level, None);
      TakeNext(edges, roots, parent, dist, todo, level);
      var f := todo[0];
      level := dist[f];
      parent, todo, dist := Expand(roots, edges, parent, todo[1..], f, dist);
      SearchingFacts(edges, roots, parent, dist, todo, level, None);
      if parent.Keys != before.Keys {
        assert Universe(edges, roots) - parent.Keys < Universe(edges, roots) - before.Keys;
        FewerElements(Universe(edges, roots) - parent.Keys, Universe(edges, roots) - before.Keys);
      }
    }
    QueueEmpty(edges, roots, parent, dist, level);
    forall v { SearchedExactly(edges, roots, parent, dist, v); }
  }

  // ---- chains and violations

  /** The reversal of a sequence. */
  function Reversed(s: seq<int>): (r: seq<int>)
    ensures |r| == |s| && forall i :: 0 <= i < |s| ==> r[i] == s[|s| - 1 - i]
  {
    seq(|s|, i requires 0 <= i < |s| => s[|s| - 1 - i])
  }

  /** `chain` of a reached function: a call path from a root that no other is shorter than. */
  ghost predicate ShortestChain(edges: Edges, roots: seq<int>, c: seq<int>, f: int) {
    && c != [] && c[0] in roots && Walk(edges, c, c[0], f)
    && forall p, r :: r in roots && Walk(edges, p, r, f) ==> |c| <= |p|
  }

  lemma {:induction false} ChainShortest(edges: Edges, roots: seq<int>, parent: map<int, Option<int>>, dist: map<int, nat>, f: int)
    requires Searched(edges, roots, parent, dist) && f in parent
    ensures ShortestChain(edges, roots, ChainOf(edges, roots, parent, dist, f), f)
  {
    hide Walk;
    ChainWalks(edges, roots, parent, dist, f);
    forall p, r | r in roots && Walk(edges, p, r, f)
      ensures dist[f] + 1 <= |p|
    {
      Shortest(edges, roots, dist, p, r, f);
    }
  }

  method Chain(parent: map<int, Option<int>>, f: int, ghost edges: Edges, ghost roots: seq<int>, ghost dist: map<int, nat>)
    returns (c: seq<int>)
    requires Searched(edges, roots, parent, dist) && f in parent
    ensures ShortestChain(edges, roots, c, f)
  {
    hide AllSettled;
    ghost var whole := ChainOf(edges, roots, parent, dist, f);
    var out := [f];
    var last := f;
    while last in parent && parent[last].Some?
      invariant last in parent && out != [] && out[|out| - 1] == last
      invariant whole == ChainOf(edges, roots, parent, dist, last) + Reversed(out)[1..]
      decreases dist[last]
    {
      var p := parent[last].value;
      ghost var before := Reversed(out)[1..];
      assert Reversed(out + [p])[1..] == [last] + before;
      assert ChainOf(edges, roots, parent, dist, p) + [last] + before
        == ChainOf(edges, roots, parent, dist, p) + ([last] + before);
      out := out + [p];
      last := p;
    }
    c := Reversed(out);
    assert c == [last] + c[1..];
    ChainShortest(edges, roots, parent, dist, f);
  }

  datatype Violation = Violation(addr: int, frame: int, chain: seq<int>)

  /** The sort key `(-frame, addr)`. */
  predicate WorseThan(v: Violation, w: Violation) {
    v.frame > w.frame || (v.frame == w.frame && v.addr < w.addr)
  }

  /** A reached function over the bound. */
  ghost predicate IsOver(edges: Edges, roots: seq<int>, sizes: map<int, int>, bound: int, f: int) {
    Reached(edges, roots, f) && f in sizes && sizes[f] > bound
  }

  /** A listed function is reached and over the bound, with its frame and a shortest chain. */
  ghost predicate Listed(edges: Edges, roots: seq<int>, sizes: map<int, int>, bound: int, v: Violation) {
    && IsOver(edges, roots, sizes, bound, v.addr) && v.frame == sizes[v.addr]
    && ShortestChain(edges, roots, v.chain, v.addr)
  }

  ghost predicate HasAddr(out: seq<Violation>, f: int) {
    exists i :: 0 <= i < |out| && out[i].addr == f
  }

  ghost predicate OnceEach(out: seq<Violation>) {
    forall i, j :: 0 <= i < j < |out| ==> out[i].addr != out[j].addr
  }

  lemma AddOne(out: seq<Violation>, v: Violation)
    requires OnceEach(out) && forall i :: 0 <= i < |out| ==> out[i].addr != v.addr
    ensures OnceEach(out + [v]) && HasAddr(out + [v], v.addr)
    ensures forall f :: HasAddr(out, f) ==> HasAddr(out + [v], f)
  {
    assert (out + [v])[|out|].addr == v.addr;
    forall f | HasAddr(out, f)
      ensures HasAddr(out + [v], f)
    {
      var i :| 0 <= i < |out| && out[i].addr == f;
      assert (out + [v])[i].addr == f;
    }
  }

  /** The reached functions over the bound, in no particular order. */
  method Overs(sizes: map<int, int>, parent: map<int, Option<int>>, bound: nat,
               ghost edges: Edges, ghost roots: seq<int>, ghost dist: map<int, nat>)
    returns (out: seq<Violation>)
    requires Searched(edges, roots, parent, dist)
    ensures forall i :: 0 <= i < |out| ==> Listed(edges, roots, sizes, bound, out[i])
    ensures forall f :: IsOver(edges, roots, sizes, bound, f) ==> HasAddr(out, f)
    ensures OnceEach(out)
  {
    hide Searched, Reached, ShortestChain, OnceEach, HasAddr;
    forall f { SearchedExactly(edges, roots, parent, dist, f); }
    out := [];
    var left := parent.Keys;
    assert OnceEach(out) by { NoneTwice(); }
    while left != {}
      invariant left <= parent.Keys && OnceEach(out)
      invariant forall i :: 0 <= i < |out| ==> Listed(edges, roots, sizes, bound, out[i]) && out[i].addr !in left
      invariant forall f :: f in parent && f !in left && f in sizes && sizes[f] > bound ==> HasAddr(out, f)
      decreases |left|
    {
      var f := Any(left);
      left := left - {f};
      if f in sizes && sizes[f] > bound {
        var c := Chain(parent, f, edges, roots, dist);
        AddOne(out, Violation(f, sizes[f], c));
        out := out + [Violation(f, sizes[f], c)];
      }
    }
  }

  lemma NoneTwice()
    ensures OnceEach([])
  {
  }

  /** The reached functions over the bound, the largest frame first; none if and only if every reached
      frame is within the bound. */
  method Violations(sizes: map<int, int>, parent: map<int, Option<int>>, bound: nat,
                    ghost edges: Edges, ghost roots: seq<int>, ghost dist: map<int, nat>)
    returns (out: seq<Violation>)
    requires Searched(edges, roots, parent, dist)
    ensures forall i :: 0 <= i < |out| ==> Listed(edges, roots, sizes, bound, out[i])
    ensures forall f :: IsOver(edges, roots, sizes, bound, f) ==> HasAddr(out, f)
    ensures OnceEach(out) && Ascending(WorseThan, out)
    ensures WorstFirst(out)
    ensures out == [] <==> forall f :: Reached(edges, roots, f) && f in sizes ==> sizes[f] <= bound
  {
    hide *;
    var found := Overs(sizes, parent, bound, edges, roots, dist);
    out := Sort(WorseThan, found);
    SortedSame(found, out);
    KeptListed(edges, roots, sizes, bound, found, out);
    SomeOver(edges, roots, sizes, bound, out);
    SortedWorst(out);
  }

  /** The larger frame first, and of equal ones the lower address. */
  ghost predicate WorstFirst(out: seq<Violation>) {
    forall i, j :: 0 <= i < j < |out| ==>
      out[i].frame > out[j].frame || (out[i].frame == out[j].frame && out[i].addr < out[j].addr)
  }

  lemma SortedWorst(out: seq<Violation>)
    requires OnceEach(out) && Ascending(WorseThan, out)
    ensures WorstFirst(out)
  {
  }

  lemma KeptListed(edges: Edges, roots: seq<int>, sizes: map<int, int>, bound: int, found: seq<Violation>, out: seq<Violation>)
    requires forall v :: v in out <==> v in found
    requires forall i :: 0 <= i < |found| ==> Listed(edges, roots, sizes, bound, found[i])
    requires forall f :: IsOver(edges, roots, sizes, bound, f) ==> HasAddr(found, f)
    ensures forall i :: 0 <= i < |out| ==> Listed(edges, roots, sizes, bound, out[i])
    ensures forall f :: IsOver(edges, roots, sizes, bound, f) ==> HasAddr(out, f)
  {
    hide Listed, IsOver;
    assert forall i :: 0 <= i < |out| ==> out[i] in found;
    forall f | IsOver(edges, roots, sizes, bound, f)
      ensures HasAddr(out, f)
    {
      var i :| 0 <= i < |found| && found[i].addr == f;
      assert found[i] in out;
    }
  }

  lemma WorseIsWeak()
    ensures StrictWeak(WorseThan)
  {
  }

  /** Sorting keeps the violations and puts the worst first. */
  lemma {:induction false} SortedSame(found: seq<Violation>, out: seq<Violation>)
    requires out == Sort(WorseThan, found) && OnceEach(found)
    ensures forall v :: v in out <==> v in found
    ensures OnceEach(out) && Ascending(WorseThan, out)
  {
    hide WorseThan, StrictWeak, Sort;
    SameElements(out, found);
    WorseIsWeak();
    SortAscending(WorseThan, found);
    assert forall v, w :: v in found && w in found && v.addr == w.addr ==> v == w;
    MultiplicityOne(found);
    forall i, j | 0 <= i < j < |out|
      ensures out[i].addr != out[j].addr
    {
      assert out[i] in found && out[j] in found;
      if out[i] == out[j] {
        TwiceCounts(out, i, j);
      }
    }
  }

  lemma SomeOver(edges: Edges, roots: seq<int>, sizes: map<int, int>, bound: int, out: seq<Violation>)
    requires forall i :: 0 <= i < |out| ==> Listed(edges, roots, sizes, bound, out[i])
    requires forall f :: IsOver(edges, roots, sizes, bound, f) ==> HasAddr(out, f)
    ensures out == [] <==> forall f :: Reached(edges, roots, f) && f in sizes ==> sizes[f] <= bound
  {
    hide Reached, ShortestChain;
    if out != [] {
      assert Listed(edges, roots, sizes, bound, out[0]);
    } else {
      forall f | Reached(edges, roots, f) && f in sizes
        ensures sizes[f] <= bound
      {
        assert !HasAddr(out, f);
      }
    }
  }
}
