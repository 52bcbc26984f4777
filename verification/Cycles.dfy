/** The module graph's two cycle rules: no module pair depends both ways, and no longer cycle. */
module Cycles {
  import opened Graphs
  import opened Order
  import opened Sets
  import opened Tarjan
  import opened Wrappers

  /** `nodes` and `edges` in insertion order; `edges` are dictionary keys, so each occurs once. */
  datatype Graph = Graph(nodes: seq<string>, edges: seq<(string, string)>)

  // ---- adjacency

  /** The targets of `n`'s edges, in edge order. */
  function Targets(edges: seq<(string, string)>, n: string): (r: seq<string>)
    ensures forall m :: m in r <==> (n, m) in edges
  {
    if edges == [] then [] else
      var last := edges[|edges| - 1];
      var init := edges[..|edges| - 1];
      assert edges == init + [last];
      Targets(init, n) + (if last.0 == n then [last.1] else [])
  }

  ghost function Endpoints(edges: seq<(string, string)>): set<string> {
    (set e | e in edges :: e.0) + (set e | e in edges :: e.1)
  }

  /** `long_cycles`' `adj`: every node and edge end, each with its targets. */
  ghost function AdjacencyOf(nodes: set<string>, edges: seq<(string, string)>): Adjacency {
    map n | n in nodes + Endpoints(edges) :: Targets(edges, n)
  }

  ghost function Adj(g: Graph): (adj: Adjacency)
    ensures Closed(adj)
    ensures forall u, v :: Edge(adj, u, v) <==> (u, v) in g.edges
  {
    AdjacencyOf((set n | n in g.nodes), g.edges)
  }

  lemma AdjacencyStep(nodes: set<string>, edges: seq<(string, string)>, i: nat, adj: Adjacency)
    requires i < |edges|
    requires var (a, b) := edges[i];
      var before := AdjacencyOf(nodes, edges[..i]);
      && adj.Keys == before.Keys + {a, b}
      && (forall n :: n in adj ==> adj[n] == (if n in before then before[n] else []) + (if n == a then [b] else []))
    ensures adj == AdjacencyOf(nodes, edges[..i + 1])
  {
    var (a, b) := edges[i];
    assert edges[..i + 1][..i] == edges[..i];
    assert Endpoints(edges[..i + 1]) == Endpoints(edges[..i]) + {a, b} by {
      assert edges[..i + 1] == edges[..i] + [edges[i]];
      assert edges[..i + 1][i] == edges[i];
    }
    forall n | n in adj
      ensures adj[n] == Targets(edges[..i + 1], n)
    {
      if n !in AdjacencyOf(nodes, edges[..i]) {
        NoTargets(edges[..i], n);
      }
    }
  }

  lemma {:induction false} NoTargets(edges: seq<(string, string)>, n: string)
    requires n !in Endpoints(edges)
    ensures Targets(edges, n) == []
  {
    SomeElement(Targets(edges, n));
  }

  method BuildAdjacency(g: Graph) returns (adj: Adjacency)
    ensures adj == Adj(g)
  {
    var nodes := set n | n in g.nodes;
    adj := map n | n in nodes :: [];
    assert adj == AdjacencyOf(nodes, g.edges[..0]);
    for i := 0 to |g.edges|
      invariant adj == AdjacencyOf(nodes, g.edges[..i])
    {
      var (a, b) := g.edges[i];
      var targets := if a in adj then adj[a] else [];
      adj := adj[a := targets + [b]];
      if b !in adj {
        adj := adj[b := []];
      }
      AdjacencyStep(nodes, g.edges, i, adj);
    }
    assert g.edges[..|g.edges|] == g.edges;
  }

  /** `sorted(adj)`. */
  method SortedNodes(adj: Adjacency) returns (r: seq<string>)
    ensures forall n :: n in r <==> n in adj
    ensures StrictlyAscending(NameLess, r)
  {
    var left := adj.Keys;
    r := [];
    while left != {}
      invariant left <= adj.Keys
      invariant forall n :: n in r <==> n in adj && n !in left
      invariant NoRepeats(r)
      decreases |left|
    {
      var n :| n in left;
      r := r + [n];
      left := left - {n};
    }
    NameLessTotal();
    SortStrict(NameLess, r);
    r := Sort(NameLess, r);
  }

  // ---- the search

  /** The variables `visit` shares with `long_cycles`. */
  class Search {
    const adj: Adjacency
    var index: Numbers
    var low: Numbers
    var on: set<string>
    var stack: seq<string>
    var comps: seq<seq<string>>
    var counter: nat

    constructor (adj: Adjacency)
      ensures this.adj == adj
      ensures Snapshot([]) == State(map[], map[], {}, [], [], [], 0)
    {
      this.adj := adj;
      index, low, on, stack, comps, counter := map[], map[], {}, [], [], 0;
    }

    /** The search's state, with `work` as its work list. */
    ghost function Snapshot(work: seq<Frame>): State
      reads this
    {
      State(index, low, on, stack, work, comps, counter)
    }

    /** Index `w`, push it and start its iterator. */
    method Enter(w: string, work: seq<Frame>) returns (work': seq<Frame>)
      requires w in adj && w !in index
      requires work != [] ==> Edge(adj, work[|work| - 1].node, w)
      requires Inv(adj, Snapshot(work))
      modifies this
      ensures index == old(index)[w := old(counter)] && low == old(low)[w := old(counter)]
      ensures on == old(on) + {w}
      ensures |work'| == |work| + 1 && work'[..|work|] == work
      ensures Inv(adj, Snapshot(work'))
    {
      hide Inv;
      var succ := Sort(NameLess, adj[w]);
      SameElements(succ, adj[w]);
      EnterInv(adj, Snapshot(work), w, succ);
      index, low := index[w := counter], low[w := counter];
      counter := counter + 1;
      stack := stack + [w];
      on := on + {w};
      work' := work + [Frame(w, succ)];
    }

    /** The `for w in it` loop on the top frame: stop at a new node, which is entered, or when the
        iterator ends. */
    method Scan(work: seq<Frame>) returns (work': seq<Frame>, advanced: bool)
      requires work != []
      requires Inv(adj, Snapshot(work))
      modifies this
      ensures advanced ==> old(index.Keys) < index.Keys <= adj.Keys
      ensures !advanced ==> index == old(index) && |work'| == |work| && work'[|work| - 1].rest == []
      ensures Inv(adj, Snapshot(work'))
    {
      hide Inv;
      var n := |work| - 1;
      work' := work;
      while work'[n].rest != []
        invariant |work'| == n + 1 && index == old(index)
        invariant Inv(adj, Snapshot(work'))
        decreases |work'[n].rest|
      {
        var node, w := work'[n].node, work'[n].rest[0];
        FrameFacts(adj, Snapshot(work'), n);
        if w !in index {
          LowBelow(adj, Snapshot(work'), n);
          work' := Enter(w, work');
          FrameFacts(adj, Snapshot(work'), n + 1);
          AdvanceInv(adj, Snapshot(work'), n);
          work' := Advance(work', n);
          return work', true;
        }
        if w in on {
          ReachEdge(adj, node, w);
          LowerInv(adj, Snapshot(work'), n, w);
          low := Lower(low, node, index[w]);
        }
        AdvanceInv(adj, Snapshot(work'), n);
        work' := Advance(work', n);
      }
      advanced := false;
    }

    /** The stack down to `node` popped, in popping order. */
    method PopTo(node: string) returns (comp: seq<string>, ghost p: nat)
      requires node in stack && on <= index.Keys && Stacked(index, on, stack)
      modifies this`stack, this`on
      ensures p < |old(stack)| && old(stack)[p] == node && stack == old(stack)[..p]
      ensures on == old(on) - Above(index, old(on), node)
      ensures NoRepeats(comp) && forall x :: x in comp <==> x in old(stack)[p..]
    {
      p :| 0 <= p < |stack| && stack[p] == node;
      ghost var whole, all := stack, on;
      comp := [];
      var w := stack[|stack| - 1];
      stack, on, comp := stack[..|stack| - 1], on - {w}, comp + [w];
      while w != node
        invariant p <= |stack| < |whole| && stack == whole[..|stack|] && w == whole[|stack|]
        invariant |comp| == |whole| - |stack| && forall i :: 0 <= i < |comp| ==> comp[i] == whole[|whole| - 1 - i]
        invariant on == all - (set x | x in comp)
        decreases |stack|
      {
        w := stack[|stack| - 1];
        stack, on, comp := stack[..|stack| - 1], on - {w}, comp + [w];
      }
      assert |stack| == p;
      StackSplit(index, all, whole, p);
      ReversedElements(comp, whole[p..]);
    }

    /** Leave the top frame, whose iterator has ended: fold its `low`, and pop a complete component. */
    method Leave(work: seq<Frame>) returns (work': seq<Frame>)
      requires work != [] && work[|work| - 1].rest == []
      requires Inv(adj, Snapshot(work))
      modifies this
      ensures index == old(index) && |work'| == |work| - 1
      ensures Inv(adj, Snapshot(work'))
    {
      hide Inv;
      var n := |work| - 1;
      var node := work[n].node;
      FrameFacts(adj, Snapshot(work), n);
      TopLow(adj, Snapshot(work));
      work' := work[..n];
      if work' != [] {
        FrameFacts(adj, Snapshot(work), n - 1);
        FoldInv(adj, Snapshot(work));
        low := Lower(low, work'[n - 1].node, low[node]);
        FrameFacts(adj, Snapshot(work), n);
        TopLow(adj, Snapshot(work));
      }
      if low[node] == index[node] {
        TakeComponent(work);
      } else {
        LeaveInv(adj, Snapshot(work));
      }
    }

    /** Pop the component of the top frame's node, and keep it if it has three or more nodes. */
    method TakeComponent(work: seq<Frame>)
      requires AtRoot(Snapshot(work))
      requires Inv(adj, Snapshot(work))
      modifies this
      ensures index == old(index)
      ensures Inv(adj, Snapshot(work[..|work| - 1]))
    {
      hide Inv;
      ghost var s := Snapshot(work);
      FrameFacts(adj, s, |work| - 1);
      StackedFacts(adj, s);
      var comp, p := PopTo(work[|work| - 1].node);
      NameLessTotal();
      SortStrict(NameLess, comp);
      var sorted := Sort(NameLess, comp);
      PopCompInv(adj, s, p, sorted);
      if |comp| >= 3 {
        comps := comps + [sorted];
      }
    }

    method Visit(v: string)
      requires v in adj && v !in index
      requires Inv(adj, Snapshot([]))
      modifies this
      ensures v in index && old(index.Keys) <= index.Keys <= adj.Keys
      ensures Inv(adj, Snapshot([]))
    {
      hide Inv;
      var work := Enter(v, []);
      FrameFacts(adj, Snapshot(work), 0);
      while work != []
        invariant v in index && old(index.Keys) <= index.Keys <= adj.Keys
        invariant Inv(adj, Snapshot(work))
        decreases |adj.Keys - index.Keys|, |work|
      {
        ghost var before := adj.Keys - index.Keys;
        var advanced;
        work, advanced := Scan(work);
        if advanced {
          assert adj.Keys - index.Keys < before;
          FewerElements(adj.Keys - index.Keys, before);
          continue;
        }
        work := Leave(work);
      }
    }
  }

  // ---- the result

  /** Exactly the strongly connected components of three or more nodes, sorted, each once. */
  ghost predicate LongComponents(adj: Adjacency, comps: seq<seq<string>>) {
    && StrictlyAscending(ListLess, comps)
    && (forall c :: c in comps ==> |c| >= 3 && StrictlyAscending(NameLess, c) && exists v :: v in adj && Lists(adj, c, v))
    && (forall v :: v in adj && |Component(adj, v)| >= 3 ==> exists c :: c in comps && Lists(adj, c, v))
  }

  method LongCycles(g: Graph) returns (comps: seq<seq<string>>)
    ensures LongComponents(Adj(g), comps)
  {
    hide Inv, LongComponents, AdjacencyOf;
    var adj := BuildAdjacency(g);
    var search := new Search(adj);
    StartInv(adj);
    var nodes := SortedNodes(adj);
    for i := 0 to |nodes|
      invariant forall j :: 0 <= j < i ==> nodes[j] in search.index
      invariant search.index.Keys <= adj.Keys
      invariant Inv(adj, search.Snapshot([]))
    {
      if nodes[i] !in search.index {
        search.Visit(nodes[i]);
      }
    }
    IdleFacts(adj, search.Snapshot([]));
    assert search.index.Keys == adj.Keys;
    comps := SortComps(adj, search.comps);
  }

  /** `sorted(comps)`. */
  method SortComps(ghost adj: Adjacency, comps: seq<seq<string>>) returns (r: seq<seq<string>>)
    requires Listed(adj, adj.Keys, comps)
    ensures LongComponents(adj, r)
  {
    hide Component, Lists;
    ListLessTotal();
    SortStrict(ListLess, comps);
    r := Sort(ListLess, comps);
    forall c | c in r
      ensures |c| >= 3 && StrictlyAscending(NameLess, c) && exists v :: v in adj && Lists(adj, c, v)
    {
      var i :| 0 <= i < |comps| && comps[i] == c;
      assert GoodComp(adj, adj.Keys, comps[i]);
    }
  }

  /** The specification fixes the result. */
  lemma LongComponentsUnique(adj: Adjacency, a: seq<seq<string>>, b: seq<seq<string>>)
    requires LongComponents(adj, a) && LongComponents(adj, b)
    ensures a == b
  {
    hide Component;
    forall c
      ensures c in a <==> c in b
    {
      if c in a { SameListing(adj, a, b, c); }
      if c in b { SameListing(adj, b, a, c); }
    }
    ListLessTotal();
    StrictlyAscendingUnique(ListLess, a, b);
  }

  lemma SameListing(adj: Adjacency, a: seq<seq<string>>, b: seq<seq<string>>, c: seq<string>)
    requires LongComponents(adj, a) && LongComponents(adj, b) && c in a
    ensures c in b
  {
    var v :| v in adj && Lists(adj, c, v);
    NameLessTotal();
    ListLength(c, Component(adj, v));
    var d :| d in b && Lists(adj, d, v);
    StrictlyAscendingUnique(NameLess, c, d);
  }

  // ---- the two rules together

  /** `failures`' `two-way` keys: pairs of modules with edges both ways, the smaller name first. */
  method TwoWay(g: Graph) returns (pairs: seq<(string, string)>)
    ensures forall a, b :: (a, b) in pairs <==> (a, b) in g.edges && (b, a) in g.edges && NameLess(a, b)
    ensures NoRepeats(g.edges) ==> NoRepeats(pairs)
  {
    pairs := [];
    for i := 0 to |g.edges|
      invariant forall a, b ::
        (a, b) in pairs <==> (a, b) in g.edges[..i] && (b, a) in g.edges && NameLess(a, b)
      invariant NoRepeats(g.edges) ==> NoRepeats(pairs)
    {
      var (a, b) := g.edges[i];
      assert g.edges[..i + 1] == g.edges[..i] + [(a, b)];
      assert NoRepeats(g.edges) ==> (a, b) !in pairs;
      if (b, a) in g.edges && NameLess(a, b) {
        pairs := pairs + [(a, b)];
      }
    }
    assert g.edges[..|g.edges|] == g.edges;
  }

  /** A reference, as the node it stands in and the node it resolves to, either possibly none. */
  datatype Ref = Ref(src: Option<string>, dst: Option<string>)

  /** `build`'s edge loop: an edge per pair of different nodes some reference joins. */
  method BuildEdges(refs: seq<Ref>) returns (edges: seq<(string, string)>)
    ensures forall a, b :: (a, b) in edges <==> a != b && Ref(Some(a), Some(b)) in refs
    ensures NoRepeats(edges)
  {
    edges := [];
    for i := 0 to |refs|
      invariant forall a, b :: (a, b) in edges <==> a != b && Ref(Some(a), Some(b)) in refs[..i]
      invariant NoRepeats(edges)
    {
      assert refs[..i + 1] == refs[..i] + [refs[i]];
      if refs[i].src.None? || refs[i].dst.None? || refs[i].dst.value == refs[i].src.value {
        continue;
      }
      var edge := (refs[i].src.value, refs[i].dst.value);
      if edge !in edges {
        edges := edges + [edge];
      }
    }
    assert refs[..|refs|] == refs;
  }

  ghost predicate NoSelfEdge(g: Graph) {
    forall a :: (a, a) !in g.edges
  }

  /** A component of three or more nodes holds a cycle. */
  lemma ComponentCycle(adj: Adjacency, v: string)
    requires |Component(adj, v)| >= 3
    ensures Cyclic(adj)
  {
    assert exists u :: u in Component(adj, v) && u != v by {
      if forall u :: u in Component(adj, v) ==> u == v {
        assert Component(adj, v) <= {v};
        SubsetSize(Component(adj, v), {v});
      }
    }
    var u :| u in Component(adj, v) && u != v;
    var p :| Walk(adj, p, v, u);
    var q :| Walk(adj, q, u, v);
    WalkConcat(adj, p, q, v, u, v);
    assert Walk(adj, p + q[1..], v, v) && |p + q[1..]| > 1;
  }

  /** The nodes of a cycle lie in one component. */
  lemma OnCycle(adj: Adjacency, p: seq<string>, v: string, i: nat)
    requires Closed(adj) && Walk(adj, p, v, v) && |p| > 1 && i < |p|
    ensures p[i] in Component(adj, v)
  {
    WalkPart(adj, p, v, v, 0, i);
    WalkPart(adj, p, v, v, i, |p| - 1);
    assert Edge(adj, p[0], p[1]);
    assert i > 0 ==> Edge(adj, p[i - 1], p[i]);
  }

  /** On a cycle whose node's component has under three nodes, the first edge is two-way. */
  lemma ShortCycle(g: Graph, p: seq<string>, v: string)
    requires NoSelfEdge(g) && Walk(Adj(g), p, v, v) && |p| > 1
    requires |Component(Adj(g), v)| < 3
    ensures (v, p[1]) in g.edges && (p[1], v) in g.edges && v != p[1]
  {
    var adj := Adj(g);
    assert Edge(adj, p[0], p[1]);
    assert |p| > 2;
    assert Edge(adj, p[1], p[2]);
    hide Component, Walk;
    OnCycle(adj, p, v, 0);
    OnCycle(adj, p, v, 1);
    OnCycle(adj, p, v, 2);
    if p[2] != v {
      assert {p[0], p[1], p[2]} <= Component(adj, v);
      SubsetSize({p[0], p[1], p[2]}, Component(adj, v));
    }
  }

  /** Neither rule fails exactly when the graph has no cycle: each rule alone misses some. */
  lemma BothRules(g: Graph, pairs: seq<(string, string)>, comps: seq<seq<string>>)
    requires NoSelfEdge(g) && LongComponents(Adj(g), comps)
    requires forall a, b :: (a, b) in pairs <==> (a, b) in g.edges && (b, a) in g.edges && NameLess(a, b)
    ensures (pairs == [] && comps == []) <==> !Cyclic(Adj(g))
  {
    var adj := Adj(g);
    NameLessTotal();
    if Cyclic(adj) {
      var p, v :| Walk(adj, p, v, v) && |p| > 1;
      assert Edge(adj, p[0], p[1]);
      if |Component(adj, v)| < 3 {
        ShortCycle(g, p, v);
        assert (v, p[1]) in pairs || (p[1], v) in pairs;
      } else {
        assert exists c :: c in comps && Lists(adj, c, v);
      }
    } else {
      NoPairs(g, pairs);
      SomeElement(comps);
      if comps != [] {
        var c := comps[0];
        var v :| v in adj && Lists(adj, c, v);
        ListLength(c, Component(adj, v));
        ComponentCycle(adj, v);
      }
    }
  }

  lemma NoPairs(g: Graph, pairs: seq<(string, string)>)
    requires forall a, b :: (a, b) in pairs <==> (a, b) in g.edges && (b, a) in g.edges && NameLess(a, b)
    requires !Cyclic(Adj(g))
    ensures pairs == []
  {
    if pairs != [] {
      var (a, b) := pairs[0];
      assert (a, b) in pairs;
      assert Walk(Adj(g), [a, b, a], a, a);
    }
  }

  /** The cycle part of `check`: the references' graph passes both rules exactly when it is acyclic. */
  method CheckCycles(nodes: seq<string>, refs: seq<Ref>)
    returns (edges: seq<(string, string)>, pairs: seq<(string, string)>, comps: seq<seq<string>>)
    ensures forall a, b :: (a, b) in edges <==> a != b && Ref(Some(a), Some(b)) in refs
    ensures forall a, b :: (a, b) in pairs <==> (a, b) in edges && (b, a) in edges && NameLess(a, b)
    ensures LongComponents(Adj(Graph(nodes, edges)), comps)
    ensures (pairs == [] && comps == []) <==> !Cyclic(Adj(Graph(nodes, edges)))
  {
    hide LongComponents, Cyclic;
    edges := BuildEdges(refs);
    var g := Graph(nodes, edges);
    pairs := TwoWay(g);
    comps := LongCycles(g);
    BothRules(g, pairs, comps);
  }
}
