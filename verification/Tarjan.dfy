/** The state of `long_cycles`' search, the invariant of its loops, and why each step keeps it. */
module Tarjan {
  import opened Graphs
  import opened Order

  type Adjacency = map<string, seq<string>>
  type Numbers = map<string, nat>

  /** A `work` entry: a node and what its iterator has yet to yield. */
  datatype Frame = Frame(node: string, rest: seq<string>)

  datatype State = State(
    index: Numbers,
    low: Numbers,
    on: set<string>,
    stack: seq<string>,
    work: seq<Frame>,
    comps: seq<seq<string>>,
    counter: nat)

  /** The strongly connected component of `v`. */
  ghost function Component(adj: Adjacency, v: string): set<string> {
    set u | u in adj && Reach(adj, v, u) && Reach(adj, u, v)
  }

  // ---- the invariant

  /** The nodes of the work list, bottom first: the path being explored. */
  ghost function Nodes(work: seq<Frame>): (path: seq<string>)
    ensures |path| == |work| && forall k :: 0 <= k < |work| ==> path[k] == work[k].node
  {
    seq(|work|, k requires 0 <= k < |work| => work[k].node)
  }

  /** How the fields fit together. */
  ghost predicate Shape(adj: Adjacency, index: Numbers, low: Numbers, on: set<string>, path: seq<string>) {
    && on <= index.Keys <= adj.Keys
    && low.Keys == index.Keys
    && (forall k :: 0 <= k < |path| ==> path[k] in on)
  }

  /** Indices are below the counter, differ, and grow along the path. */
  ghost predicate Numbered(index: Numbers, counter: nat, path: seq<string>) {
    && (forall v :: v in index ==> index[v] < counter)
    && (forall u, v :: u in index && v in index && index[u] == index[v] ==> u == v)
    && (forall i, j :: 0 <= i < j < |path| ==> Before(index, path[i], path[j]))
  }

  ghost predicate Before(index: Numbers, u: string, v: string) {
    u in index && v in index && index[u] < index[v]
  }

  ghost predicate NotAfter(index: Numbers, u: string, v: string) {
    u in index && v in index && index[u] <= index[v]
  }

  /** The stack holds the `on` nodes in index order. */
  ghost predicate Stacked(index: Numbers, on: set<string>, stack: seq<string>) {
    && (forall v :: v in on <==> v in stack)
    && (forall i, j :: 0 <= i < j < |stack| ==> Before(index, stack[i], stack[j]))
  }

  /** Iterators yield successors. */
  ghost predicate Iterates(adj: Adjacency, work: seq<Frame>) {
    forall k, u :: 0 <= k < |work| && u in work[k].rest ==> Edge(adj, work[k].node, u)
  }

  /** The edge from `w` to `u` is still to be looked at. */
  ghost predicate Pending(work: seq<Frame>, w: string, u: string) {
    exists k :: 0 <= k < |work| && work[k].node == w && u in work[k].rest
  }

  /** Every edge looked at leads to an indexed node. */
  ghost predicate Looked(adj: Adjacency, index: Numbers, work: seq<Frame>) {
    forall w, u :: w in index && Edge(adj, w, u) && !Pending(work, w, u) ==> u in index
  }

  /** Nodes off the stack are finished, and lead only to such nodes. */
  ghost predicate Finished(adj: Adjacency, index: Numbers, on: set<string>) {
    forall w, u :: w in index && w !in on && Edge(adj, w, u) ==> u in index && u !in on
  }

  /** A node of the path reaches everything pushed after it. */
  ghost predicate Down(adj: Adjacency, index: Numbers, on: set<string>, path: seq<string>) {
    forall k, w :: 0 <= k < |path| && w in on && NotAfter(index, path[k], w) ==> Reach(adj, path[k], w)
  }

  /** Every node on the stack reaches a node of the path that was pushed no later. */
  ghost predicate Up(adj: Adjacency, index: Numbers, on: set<string>, path: seq<string>) {
    forall w :: w in on ==> HasUp(adj, index, path, w)
  }

  ghost predicate HasUp(adj: Adjacency, index: Numbers, path: seq<string>, w: string) {
    exists k :: UpTo(adj, index, path, w, k)
  }

  ghost predicate UpTo(adj: Adjacency, index: Numbers, path: seq<string>, w: string, k: int) {
    0 <= k < |path| && NotAfter(index, path[k], w) && Reach(adj, w, path[k])
  }

  /** `low` of a path node is the index of a stack node it reaches, itself or an earlier one. */
  ghost predicate LowReached(adj: Adjacency, index: Numbers, low: Numbers, on: set<string>, path: seq<string>) {
    forall k :: 0 <= k < |path| ==> HasLow(adj, index, low, on, path[k])
  }

  ghost predicate HasLow(adj: Adjacency, index: Numbers, low: Numbers, on: set<string>, v: string) {
    exists u :: LowAt(adj, index, low, on, v, u)
  }

  ghost predicate LowAt(adj: Adjacency, index: Numbers, low: Numbers, on: set<string>, v: string, u: string) {
    v in low && u in on && u in index && index[u] == low[v] && NotAfter(index, u, v) && Reach(adj, v, u)
  }

  /** `w` was pushed under path node `k`, and under no later one. */
  ghost predicate Segment(index: Numbers, on: set<string>, path: seq<string>, k: int, w: string) {
    && 0 <= k < |path| && w in on && NotAfter(index, path[k], w)
    && (k + 1 < |path| ==> Before(index, w, path[k + 1]))
  }

  /** `low` bounds every edge looked at from a path node's segment back into the stack. */
  ghost predicate LowBounds(adj: Adjacency, index: Numbers, low: Numbers, on: set<string>, work: seq<Frame>) {
    forall k, w, u ::
      Segment(index, on, Nodes(work), k, w) && Edge(adj, w, u) && !Pending(work, w, u) && u in on
      ==> Bounded(index, low, work[k].node, u)
  }

  ghost predicate Bounded(index: Numbers, low: Numbers, v: string, u: string) {
    v in low && u in index && low[v] <= index[u]
  }

  /** `c` lists the component of `v`. */
  ghost predicate Lists(adj: Adjacency, c: seq<string>, v: string) {
    forall x :: x in c <==> x in Component(adj, v)
  }

  /** A listed component: sorted, of three or more finished nodes. */
  ghost predicate GoodComp(adj: Adjacency, done: set<string>, c: seq<string>) {
    && |c| >= 3 && StrictlyAscending(NameLess, c)
    && (forall x :: x in c ==> x in done)
    && exists v :: v in done && Lists(adj, c, v)
  }

  /** `comps` lists, once each, the components of three or more finished nodes. */
  ghost predicate Listed(adj: Adjacency, done: set<string>, comps: seq<seq<string>>) {
    && (forall i :: 0 <= i < |comps| ==> GoodComp(adj, done, comps[i]))
    && NoRepeats(comps)
    && (forall v :: v in done && |Component(adj, v)| >= 3 ==> exists c :: c in comps && Lists(adj, c, v))
  }

  ghost predicate Inv(adj: Adjacency, s: State) {
    && Closed(adj)
    && Shape(adj, s.index, s.low, s.on, Nodes(s.work))
    && Numbered(s.index, s.counter, Nodes(s.work))
    && Stacked(s.index, s.on, s.stack)
    && Iterates(adj, s.work)
    && Looked(adj, s.index, s.work)
    && Finished(adj, s.index, s.on)
    && Down(adj, s.index, s.on, Nodes(s.work))
    && Up(adj, s.index, s.on, Nodes(s.work))
    && LowReached(adj, s.index, s.low, s.on, Nodes(s.work))
    && LowBounds(adj, s.index, s.low, s.on, s.work)
    && Listed(adj, s.index.Keys - s.on, s.comps)
  }

  // ---- a new node

  /** Index `w` and push it, with an iterator over `succ`. */
  function Enter(s: State, w: string, succ: seq<string>): State {
    State(s.index[w := s.counter], s.low[w := s.counter], s.on + {w}, s.stack + [w],
          s.work + [Frame(w, succ)], s.comps, s.counter + 1)
  }

  lemma EnterShape(adj: Adjacency, index: Numbers, low: Numbers, on: set<string>, path: seq<string>,
                   counter: nat, w: string)
    requires Shape(adj, index, low, on, path) && Numbered(index, counter, path)
    requires w in adj && w !in index
    ensures Shape(adj, index[w := counter], low[w := counter], on + {w}, path + [w])
    ensures Numbered(index[w := counter], counter + 1, path + [w])
  {
  }

  lemma EnterStacked(adj: Adjacency, index: Numbers, low: Numbers, on: set<string>, path: seq<string>,
                     stack: seq<string>, counter: nat, w: string)
    requires Shape(adj, index, low, on, path) && Numbered(index, counter, path)
    requires Stacked(index, on, stack) && w !in index
    ensures Stacked(index[w := counter], on + {w}, stack + [w])
  {
  }

  lemma EnterPending(work: seq<Frame>, w: string, succ: seq<string>, x: string, u: string)
    ensures Pending(work + [Frame(w, succ)], x, u) <==> Pending(work, x, u) || (x == w && u in succ)
  {
    var t := work + [Frame(w, succ)];
    if Pending(work, x, u) {
      var k :| 0 <= k < |work| && work[k].node == x && u in work[k].rest;
      assert t[k] == work[k];
    }
    if x == w && u in succ {
      assert t[|work|] == Frame(w, succ);
    }
  }

  lemma EnterEdges(adj: Adjacency, index: Numbers, low: Numbers, on: set<string>, work: seq<Frame>, counter: nat,
                   w: string, succ: seq<string>)
    requires Shape(adj, index, low, on, Nodes(work)) && Looked(adj, index, work) && Finished(adj, index, on) && w !in index
    requires forall u :: Edge(adj, w, u) ==> u in succ
    ensures Looked(adj, index[w := counter], work + [Frame(w, succ)])
    ensures Finished(adj, index[w := counter], on + {w})
  {
    forall x, u | x in index[w := counter] && Edge(adj, x, u) && !Pending(work + [Frame(w, succ)], x, u)
      ensures u in index[w := counter]
    {
      EnterPending(work, w, succ, x, u);
    }
  }

  lemma EnterDown(adj: Adjacency, index: Numbers, low: Numbers, on: set<string>, path: seq<string>,
                  counter: nat, w: string)
    requires Shape(adj, index, low, on, path) && Numbered(index, counter, path) && Down(adj, index, on, path)
    requires w !in index
    requires path != [] ==> Edge(adj, path[|path| - 1], w)
    ensures Down(adj, index[w := counter], on + {w}, path + [w])
  {
    hide Reach;
    var n := |path|;
    var path', index', on' := path + [w], index[w := counter], on + {w};
    ReachRefl(adj, w);
    forall k, x | 0 <= k < |path'| && x in on' && NotAfter(index', path'[k], x)
      ensures Reach(adj, path'[k], x)
    {
      if k < n && x == w {
        ReachEdge(adj, path[n - 1], w);
        assert NotAfter(index, path[k], path[n - 1]);
        ReachTrans(adj, path[k], path[n - 1], w);
      }
    }
  }

  lemma EnterUp(adj: Adjacency, index: Numbers, low: Numbers, on: set<string>, path: seq<string>,
                counter: nat, w: string)
    requires Shape(adj, index, low, on, path) && Up(adj, index, on, path) && w !in index
    ensures Up(adj, index[w := counter], on + {w}, path + [w])
  {
    hide Reach;
    var path', index' := path + [w], index[w := counter];
    forall x | x in on + {w}
      ensures HasUp(adj, index', path', x)
    {
      if x == w {
        ReachRefl(adj, w);
        assert UpTo(adj, index', path', x, |path|);
      } else {
        var k :| UpTo(adj, index, path, x, k);
        assert UpTo(adj, index', path', x, k);
      }
    }
  }

  lemma EnterLowReached(adj: Adjacency, index: Numbers, low: Numbers, on: set<string>, path: seq<string>,
                        counter: nat, w: string)
    requires Shape(adj, index, low, on, path) && LowReached(adj, index, low, on, path) && w !in index
    ensures LowReached(adj, index[w := counter], low[w := counter], on + {w}, path + [w])
  {
    hide Reach;
    var path', index', low', on' := path + [w], index[w := counter], low[w := counter], on + {w};
    forall k | 0 <= k < |path'|
      ensures HasLow(adj, index', low', on', path'[k])
    {
      if k == |path| {
        ReachRefl(adj, w);
        assert LowAt(adj, index', low', on', w, w);
      } else {
        var u :| LowAt(adj, index, low, on, path[k], u);
        assert LowAt(adj, index', low', on', path[k], u);
      }
    }
  }

  lemma EnterLowBounds(adj: Adjacency, index: Numbers, low: Numbers, on: set<string>, work: seq<Frame>,
                       counter: nat, w: string, succ: seq<string>)
    requires Shape(adj, index, low, on, Nodes(work)) && Numbered(index, counter, Nodes(work))
    requires Looked(adj, index, work) && LowBounds(adj, index, low, on, work) && w !in index
    requires forall u :: Edge(adj, w, u) ==> u in succ
    ensures LowBounds(adj, index[w := counter], low[w := counter], on + {w}, work + [Frame(w, succ)])
  {
    var work', index', low', on' := work + [Frame(w, succ)], index[w := counter], low[w := counter], on + {w};
    forall k, x, u | Segment(index', on', Nodes(work'), k, x) && Edge(adj, x, u) && !Pending(work', x, u) && u in on'
      ensures Bounded(index', low', work'[k].node, u)
    {
      EnterPending(work, w, succ, x, u);
      assert x != w;
      assert u != w;
      assert Segment(index, on, Nodes(work), k, x);
    }
  }

  lemma EnterIterates(adj: Adjacency, work: seq<Frame>, w: string, succ: seq<string>)
    requires Iterates(adj, work) && forall u :: u in succ ==> Edge(adj, w, u)
    ensures Iterates(adj, work + [Frame(w, succ)])
  {
  }

  /** Starting on a new node, a root or a successor of the top frame's node, keeps the invariant. */
  lemma EnterInv(adj: Adjacency, s: State, w: string, succ: seq<string>)
    requires w in adj && w !in s.index
    requires forall u :: u in succ <==> Edge(adj, w, u)
    requires s.work != [] ==> Edge(adj, s.work[|s.work| - 1].node, w)
    requires Inv(adj, s)
    ensures Inv(adj, Enter(s, w, succ))
  {
    hide Closed, Edge, Shape, Numbered, Stacked, Iterates, Looked, Finished, Down, Up, LowReached, LowBounds, Listed;
    var path := Nodes(s.work);
    var t := Enter(s, w, succ);
    assert Nodes(t.work) == path + [w];
    assert t.index.Keys - t.on == s.index.Keys - s.on;
    EnterShape(adj, s.index, s.low, s.on, path, s.counter, w);
    EnterStacked(adj, s.index, s.low, s.on, path, s.stack, s.counter, w);
    EnterIterates(adj, s.work, w, succ);
    EnterEdges(adj, s.index, s.low, s.on, s.work, s.counter, w, succ);
    EnterDown(adj, s.index, s.low, s.on, path, s.counter, w);
    EnterUp(adj, s.index, s.low, s.on, path, s.counter, w);
    EnterLowReached(adj, s.index, s.low, s.on, path, s.counter, w);
    EnterLowBounds(adj, s.index, s.low, s.on, s.work, s.counter, w, succ);
  }

  // ---- an edge to an indexed node

  /** Frame `k`'s iterator yields its next node. */
  function Advance(work: seq<Frame>, k: nat): seq<Frame>
    requires k < |work| && work[k].rest != []
  {
    work[k := Frame(work[k].node, work[k].rest[1..])]
  }

  lemma AdvancePending(work: seq<Frame>, k: nat, x: string, u: string)
    requires k < |work| && work[k].rest != []
    ensures Pending(work, x, u) ==> Pending(Advance(work, k), x, u) || (x == work[k].node && u == work[k].rest[0])
  {
    if Pending(work, x, u) {
      var i :| 0 <= i < |work| && work[i].node == x && u in work[i].rest;
      var t := Advance(work, k);
      assert t[i].node == x;
      if i == k && u != work[k].rest[0] {
        assert work[k].rest == [work[k].rest[0]] + work[k].rest[1..];
        assert u in t[i].rest;
      }
    }
  }

  lemma AdvanceEdges(adj: Adjacency, index: Numbers, work: seq<Frame>, k: nat)
    requires Looked(adj, index, work) && Iterates(adj, work)
    requires k < |work| && work[k].rest != [] && work[k].rest[0] in index
    ensures Looked(adj, index, Advance(work, k)) && Iterates(adj, Advance(work, k))
  {
    var t := Advance(work, k);
    forall x, u | x in index && Edge(adj, x, u) && !Pending(t, x, u)
      ensures u in index
    {
      AdvancePending(work, k, x, u);
    }
    forall i, u | 0 <= i < |t| && u in t[i].rest
      ensures Edge(adj, t[i].node, u)
    {
      assert u in work[i].rest && t[i].node == work[i].node;
    }
  }

  lemma AdvanceLowBounds(adj: Adjacency, index: Numbers, low: Numbers, on: set<string>, work: seq<Frame>, k: nat,
                         counter: nat)
    requires Numbered(index, counter, Nodes(work)) && LowBounds(adj, index, low, on, work)
    requires k < |work| && work[k].rest != []
    requires work[k].rest[0] in on ==> Bounded(index, low, work[k].node, work[k].rest[0])
    requires Nodes(Advance(work, k)) == Nodes(work)
    ensures LowBounds(adj, index, low, on, Advance(work, k))
  {
    var t := Advance(work, k);
    forall i, x, u | Segment(index, on, Nodes(t), i, x) && Edge(adj, x, u) && !Pending(t, x, u) && u in on
      ensures Bounded(index, low, t[i].node, u)
    {
      AdvancePending(work, k, x, u);
      assert t[i].node == work[i].node;
      if Pending(work, x, u) {
        OwnSegment(index, on, Nodes(work), counter, i, k);
      }
    }
  }

  /** A path node lies in its own segment only. */
  lemma OwnSegment(index: Numbers, on: set<string>, path: seq<string>, counter: nat, i: int, k: nat)
    requires Numbered(index, counter, path) && k < |path| && Segment(index, on, path, i, path[k])
    ensures i == k
  {
  }

  /** Passing over an edge whose target is indexed, and bounded when on the stack, keeps the invariant. */
  lemma AdvanceInv(adj: Adjacency, s: State, k: nat)
    requires k < |s.work| && s.work[k].rest != [] && s.work[k].rest[0] in s.index
    requires s.work[k].rest[0] in s.on ==> Bounded(s.index, s.low, s.work[k].node, s.work[k].rest[0])
    requires Inv(adj, s)
    ensures Inv(adj, s.(work := Advance(s.work, k)))
  {
    hide Closed, Shape, Numbered, Stacked, Iterates, Looked, Finished, Down, Up, LowReached, LowBounds, Listed;
    assert Nodes(Advance(s.work, k)) == Nodes(s.work);
    AdvanceEdges(adj, s.index, s.work, k);
    AdvanceLowBounds(adj, s.index, s.low, s.on, s.work, k, s.counter);
  }

  /** `low[v] = min(low[v], m)`. */
  function Lower(low: Numbers, v: string, m: nat): (r: Numbers)
    requires v in low
    ensures r.Keys == low.Keys
  {
    low[v := if low[v] <= m then low[v] else m]
  }

  lemma LowerReached(adj: Adjacency, index: Numbers, low: Numbers, on: set<string>, path: seq<string>, k: nat,
                     w: string)
    requires Shape(adj, index, low, on, path) && LowReached(adj, index, low, on, path)
    requires k < |path| && path[k] in low && w in on && w in index && Reach(adj, path[k], w)
    ensures Shape(adj, index, Lower(low, path[k], index[w]), on, path)
    ensures LowReached(adj, index, Lower(low, path[k], index[w]), on, path)
  {
    hide Reach;
    var low' := Lower(low, path[k], index[w]);
    forall i | 0 <= i < |path|
      ensures HasLow(adj, index, low', on, path[i])
    {
      var u :| LowAt(adj, index, low, on, path[i], u);
      if path[i] == path[k] && index[w] < low[path[k]] {
        assert LowAt(adj, index, low', on, path[i], w);
      } else {
        assert LowAt(adj, index, low', on, path[i], u);
      }
    }
  }

  lemma LowerBounds(adj: Adjacency, index: Numbers, low: Numbers, on: set<string>, work: seq<Frame>, v: string, m: nat)
    requires LowBounds(adj, index, low, on, work) && v in low
    ensures LowBounds(adj, index, Lower(low, v, m), on, work)
  {
  }

  /** Lowering a path node's `low` to the index of a stack node it reaches keeps the invariant. */
  lemma LowerInv(adj: Adjacency, s: State, k: nat, w: string)
    requires k < |s.work| && w in s.on && Reach(adj, s.work[k].node, w)
    requires s.work[k].node in s.low && w in s.index
    requires Inv(adj, s)
    ensures Inv(adj, s.(low := Lower(s.low, s.work[k].node, s.index[w])))
  {
    hide Closed, Shape, Numbered, Stacked, Iterates, Looked, Finished, Down, Up, LowReached, LowBounds, Listed, Reach;
    LowerReached(adj, s.index, s.low, s.on, Nodes(s.work), k, w);
    LowerBounds(adj, s.index, s.low, s.on, s.work, s.work[k].node, s.index[w]);
  }

  // ---- an exhausted iterator: the node stays on the stack

  /** The work list without its top frame, which is exhausted: no edge of the top node is pending. */
  lemma PopPending(work: seq<Frame>, x: string, u: string)
    requires work != [] && work[|work| - 1].rest == []
    ensures Pending(work, x, u) <==> Pending(work[..|work| - 1], x, u)
  {
    var t := work[..|work| - 1];
    if Pending(work, x, u) {
      var k :| 0 <= k < |work| && work[k].node == x && u in work[k].rest;
      assert t[k] == work[k];
    }
    if Pending(t, x, u) {
      var k :| 0 <= k < |t| && t[k].node == x && u in t[k].rest;
      assert t[k] == work[k];
    }
  }

  lemma PopEdges(adj: Adjacency, index: Numbers, work: seq<Frame>)
    requires work != [] && work[|work| - 1].rest == [] && Looked(adj, index, work) && Iterates(adj, work)
    ensures Looked(adj, index, work[..|work| - 1]) && Iterates(adj, work[..|work| - 1])
  {
    forall x, u | x in index && Edge(adj, x, u) && !Pending(work[..|work| - 1], x, u)
      ensures u in index
    {
      PopPending(work, x, u);
    }
  }

  lemma PopUp(adj: Adjacency, index: Numbers, low: Numbers, on: set<string>, path: seq<string>)
    requires path != [] && Up(adj, index, on, path) && LowReached(adj, index, low, on, path)
    requires path[|path| - 1] in low && path[|path| - 1] in index
    requires low[path[|path| - 1]] < index[path[|path| - 1]]
    ensures Up(adj, index, on, path[..|path| - 1])
  {
    hide Reach;
    var n := |path| - 1;
    var node := path[n];
    var u :| LowAt(adj, index, low, on, node, u);
    var j :| UpTo(adj, index, path, u, j);
    assert j < n;
    forall x | x in on
      ensures HasUp(adj, index, path[..n], x)
    {
      var k :| UpTo(adj, index, path, x, k);
      if k < n {
        assert UpTo(adj, index, path[..n], x, k);
      } else {
        ReachTrans(adj, x, node, u);
        ReachTrans(adj, x, u, path[j]);
        assert UpTo(adj, index, path[..n], x, j);
      }
    }
  }

  lemma PopLowBounds(adj: Adjacency, index: Numbers, low: Numbers, on: set<string>, work: seq<Frame>)
    requires |work| > 1 && work[|work| - 1].rest == [] && LowBounds(adj, index, low, on, work)
    requires Shape(adj, index, low, on, Nodes(work))
    requires work[|work| - 2].node in low && work[|work| - 1].node in low
    requires low[work[|work| - 2].node] <= low[work[|work| - 1].node]
    ensures LowBounds(adj, index, low, on, work[..|work| - 1])
  {
    var n := |work| - 1;
    var t := work[..n];
    forall k, x, u | Segment(index, on, Nodes(t), k, x) && Edge(adj, x, u) && !Pending(t, x, u) && u in on
      ensures Bounded(index, low, t[k].node, u)
    {
      PopPending(work, x, u);
      if k == n - 1 && !Before(index, x, Nodes(work)[n]) {
        assert Segment(index, on, Nodes(work), n, x);
      } else {
        assert Segment(index, on, Nodes(work), k, x);
      }
    }
  }

  lemma PopPath(adj: Adjacency, index: Numbers, low: Numbers, on: set<string>, path: seq<string>, counter: nat)
    requires path != []
    requires Shape(adj, index, low, on, path) && Numbered(index, counter, path)
    requires Down(adj, index, on, path) && LowReached(adj, index, low, on, path)
    ensures Shape(adj, index, low, on, path[..|path| - 1]) && Numbered(index, counter, path[..|path| - 1])
    ensures Down(adj, index, on, path[..|path| - 1]) && LowReached(adj, index, low, on, path[..|path| - 1])
  {
    hide Reach, HasLow;
  }

  /** A node whose `low` is below its index has an earlier path node under it. */
  lemma HasParent(adj: Adjacency, index: Numbers, low: Numbers, on: set<string>, path: seq<string>)
    requires path != [] && Up(adj, index, on, path) && LowReached(adj, index, low, on, path)
    requires path[|path| - 1] in low && path[|path| - 1] in index
    requires low[path[|path| - 1]] < index[path[|path| - 1]]
    ensures |path| > 1
  {
    hide Reach;
    var node := path[|path| - 1];
    var u :| LowAt(adj, index, low, on, node, u);
    var j :| UpTo(adj, index, path, u, j);
  }

  /** Leaving a node that reaches further down the stack, its `low` folded into its parent's, keeps
      the invariant. */
  lemma LeaveInv(adj: Adjacency, s: State)
    requires |s.work| > 1 && s.work[|s.work| - 1].rest == []
    requires s.work[|s.work| - 2].node in s.low && s.work[|s.work| - 1].node in s.low
    requires s.work[|s.work| - 1].node in s.index
    requires s.low[s.work[|s.work| - 2].node] <= s.low[s.work[|s.work| - 1].node]
    requires s.low[s.work[|s.work| - 1].node] < s.index[s.work[|s.work| - 1].node]
    requires Inv(adj, s)
    ensures Inv(adj, s.(work := s.work[..|s.work| - 1]))
  {
    hide Closed, Shape, Numbered, Stacked, Iterates, Looked, Finished, Down, Up, LowReached, LowBounds, Listed;
    var n := |s.work| - 1;
    assert Nodes(s.work[..n]) == Nodes(s.work)[..n];
    PopEdges(adj, s.index, s.work);
    PopUp(adj, s.index, s.low, s.on, Nodes(s.work));
    PopLowBounds(adj, s.index, s.low, s.on, s.work);
    PopPath(adj, s.index, s.low, s.on, Nodes(s.work), s.counter);
  }

  // ---- an exhausted iterator: a component is complete

  /** What is popped with `node`: the stack from `node` up. */
  ghost function Above(index: Numbers, on: set<string>, node: string): set<string> {
    set x | x in on && NotAfter(index, node, x)
  }

  lemma PathOrder(index: Numbers, counter: nat, path: seq<string>, k: nat)
    requires Numbered(index, counter, path) && k < |path| && path[k] in index
    ensures NotAfter(index, path[k], path[|path| - 1])
  {
  }

  /** The popped nodes and `node` reach each other. */
  lemma AboveReach(adj: Adjacency, index: Numbers, low: Numbers, on: set<string>, path: seq<string>,
                   counter: nat, x: string)
    requires path != [] && Shape(adj, index, low, on, path) && Numbered(index, counter, path)
    requires Down(adj, index, on, path) && Up(adj, index, on, path)
    requires x in on && NotAfter(index, path[|path| - 1], x)
    ensures x in adj && Reach(adj, path[|path| - 1], x) && Reach(adj, x, path[|path| - 1])
  {
    hide Reach;
    var node := path[|path| - 1];
    var k :| UpTo(adj, index, path, x, k);
    PathOrder(index, counter, path, k);
    ReachTrans(adj, x, path[k], node);
  }

  /** What holds when a component is popped: the top frame is exhausted and `low` is its own index. */
  ghost predicate AtRoot(s: State) {
    && s.work != [] && Top(s).rest == []
    && Top(s).node in s.low && Top(s).node in s.index
    && s.low[Top(s).node] == s.index[Top(s).node]
  }

  function Top(s: State): Frame
    requires s.work != []
  {
    s.work[|s.work| - 1]
  }

  /** The popped nodes lead only to themselves and to finished nodes. */
  lemma AboveLeaves(adj: Adjacency, s: State, x: string, u: string)
    requires AtRoot(s)
    requires Shape(adj, s.index, s.low, s.on, Nodes(s.work)) && Numbered(s.index, s.counter, Nodes(s.work))
    requires Looked(adj, s.index, s.work) && LowBounds(adj, s.index, s.low, s.on, s.work)
    requires x in Above(s.index, s.on, Top(s).node) && Edge(adj, x, u)
    ensures u in s.index && (u in s.on ==> u in Above(s.index, s.on, Top(s).node))
  {
    assert !Pending(s.work, x, u);
    assert Segment(s.index, s.on, Nodes(s.work), |s.work| - 1, x);
  }

  /** Nothing outside the popped and finished nodes is reachable from `node`. */
  lemma NothingElse(adj: Adjacency, s: State, v: string)
    requires AtRoot(s)
    requires Shape(adj, s.index, s.low, s.on, Nodes(s.work)) && Numbered(s.index, s.counter, Nodes(s.work))
    requires Looked(adj, s.index, s.work) && LowBounds(adj, s.index, s.low, s.on, s.work)
    requires Finished(adj, s.index, s.on)
    requires Reach(adj, Top(s).node, v) && Reach(adj, v, Top(s).node)
    ensures v in Above(s.index, s.on, Top(s).node)
  {
    var node := Top(s).node;
    assert node in s.on by { assert Nodes(s.work)[|s.work| - 1] in s.on; }
    var done := s.index.Keys - s.on;
    var all := done + Above(s.index, s.on, node);
    hide Reach, LowBounds, Looked, Numbered, Shape;
    forall x, y | x in all && Edge(adj, x, y)
      ensures y in all
    {
      if x !in done { AboveLeaves(adj, s, x, y); }
    }
    ClosedSetReach(adj, all, node, v);
    if v in done {
      ClosedSetReach(adj, done, v, node);
    }
  }

  /** The stack from `node` up is exactly `node`'s strongly connected component. */
  lemma AboveIsComponent(adj: Adjacency, s: State)
    requires AtRoot(s)
    requires Inv(adj, s)
    ensures Above(s.index, s.on, Top(s).node) == Component(adj, Top(s).node)
  {
    hide Reach, Numbered, Shape, Stacked, Iterates, Looked, Finished, Down, Up, LowReached, LowBounds, Listed;
    var node := Top(s).node;
    assert Nodes(s.work)[|s.work| - 1] == node;
    forall x | x in Above(s.index, s.on, node)
      ensures x in Component(adj, node)
    {
      AboveReach(adj, s.index, s.low, s.on, Nodes(s.work), s.counter, x);
    }
    forall x | x in Component(adj, node)
      ensures x in Above(s.index, s.on, node)
    {
      NothingElse(adj, s, x);
    }
  }

  /** The stack splits at `node` into what stays and what is popped. */
  lemma StackSplit(index: Numbers, on: set<string>, stack: seq<string>, p: nat)
    requires on <= index.Keys && Stacked(index, on, stack) && p < |stack|
    ensures Stacked(index, on - Above(index, on, stack[p]), stack[..p])
    ensures forall x :: x in stack[p..] <==> x in Above(index, on, stack[p])
  {
    forall x
      ensures x in stack[p..] <==> x in Above(index, on, stack[p])
      ensures x in stack[..p] <==> x in on - Above(index, on, stack[p])
    {
      SplitAt(index, on, stack, p, x);
    }
  }

  lemma SplitAt(index: Numbers, on: set<string>, stack: seq<string>, p: nat, x: string)
    requires on <= index.Keys && Stacked(index, on, stack) && p < |stack|
    ensures x in stack[p..] <==> x in Above(index, on, stack[p])
    ensures x in stack[..p] <==> x in on - Above(index, on, stack[p])
  {
    if x in stack {
      var i :| 0 <= i < |stack| && stack[i] == x;
      if i < p {
        assert stack[..p][i] == x && Before(index, x, stack[p]);
      } else {
        assert stack[p..][i - p] == x;
      }
    }
  }

  lemma CompPath(adj: Adjacency, index: Numbers, low: Numbers, on: set<string>, path: seq<string>, counter: nat)
    requires path != [] && Shape(adj, index, low, on, path) && Numbered(index, counter, path)
    ensures Shape(adj, index, low, on - Above(index, on, path[|path| - 1]), path[..|path| - 1])
    ensures Numbered(index, counter, path[..|path| - 1])
  {
  }

  lemma CompDown(adj: Adjacency, index: Numbers, on: set<string>, path: seq<string>)
    requires path != [] && Down(adj, index, on, path)
    ensures Down(adj, index, on - Above(index, on, path[|path| - 1]), path[..|path| - 1])
  {
    hide Reach;
  }

  lemma CompUp(adj: Adjacency, index: Numbers, low: Numbers, on: set<string>, path: seq<string>)
    requires path != [] && path[|path| - 1] in index && on <= index.Keys && Up(adj, index, on, path)
    ensures Up(adj, index, on - Above(index, on, path[|path| - 1]), path[..|path| - 1])
  {
    hide Reach;
    var n := |path| - 1;
    forall x | x in on && x !in Above(index, on, path[n])
      ensures HasUp(adj, index, path[..n], x)
    {
      var k :| UpTo(adj, index, path, x, k);
      assert UpTo(adj, index, path[..n], x, k);
    }
  }

  lemma CompLowReached(adj: Adjacency, index: Numbers, low: Numbers, on: set<string>, path: seq<string>, counter: nat)
    requires path != [] && Numbered(index, counter, path) && LowReached(adj, index, low, on, path)
    ensures LowReached(adj, index, low, on - Above(index, on, path[|path| - 1]), path[..|path| - 1])
  {
    hide Reach;
    var n := |path| - 1;
    var on' := on - Above(index, on, path[n]);
    forall k | 0 <= k < n
      ensures HasLow(adj, index, low, on', path[..n][k])
    {
      var u :| LowAt(adj, index, low, on, path[k], u);
      assert Before(index, path[k], path[n]);
      assert LowAt(adj, index, low, on', path[k], u);
    }
  }

  lemma CompLowBounds(adj: Adjacency, index: Numbers, low: Numbers, on: set<string>, work: seq<Frame>)
    requires work != [] && work[|work| - 1].rest == []
    requires Shape(adj, index, low, on, Nodes(work)) && LowBounds(adj, index, low, on, work)
    ensures LowBounds(adj, index, low, on - Above(index, on, work[|work| - 1].node), work[..|work| - 1])
  {
    var n := |work| - 1;
    var t := work[..n];
    var on' := on - Above(index, on, work[n].node);
    forall k, x, u | Segment(index, on', Nodes(t), k, x) && Edge(adj, x, u) && !Pending(t, x, u) && u in on'
      ensures Bounded(index, low, t[k].node, u)
    {
      PopPending(work, x, u);
      assert Nodes(work)[n] in on;
      assert Segment(index, on, Nodes(work), k, x);
    }
  }

  lemma CompFinished(adj: Adjacency, s: State)
    requires AtRoot(s)
    requires Shape(adj, s.index, s.low, s.on, Nodes(s.work)) && Numbered(s.index, s.counter, Nodes(s.work))
    requires Looked(adj, s.index, s.work) && LowBounds(adj, s.index, s.low, s.on, s.work)
    requires Finished(adj, s.index, s.on)
    ensures Finished(adj, s.index, s.on - Above(s.index, s.on, Top(s).node))
  {
    hide Numbered, Looked, LowBounds;
    var popped := Above(s.index, s.on, Top(s).node);
    forall x, u | x in s.index && x !in s.on - popped && Edge(adj, x, u)
      ensures u in s.index && u !in s.on - popped
    {
      if x in popped { AboveLeaves(adj, s, x, u); }
    }
  }

  /** `comps` after popping `comp`. */
  function Append(comps: seq<seq<string>>, comp: seq<string>): seq<seq<string>> {
    if |comp| >= 3 then comps + [comp] else comps
  }

  lemma SameComponent(adj: Adjacency, u: string, v: string)
    requires v in Component(adj, u)
    ensures Component(adj, v) == Component(adj, u)
  {
    hide Reach;
    forall x | x in Component(adj, v)
      ensures x in Component(adj, u)
    {
      ReachTrans(adj, u, v, x);
      ReachTrans(adj, x, v, u);
    }
    forall x | x in Component(adj, u)
      ensures x in Component(adj, v)
    {
      ReachTrans(adj, v, u, x);
      ReachTrans(adj, x, u, v);
    }
  }

  lemma ListLength(c: seq<string>, s: set<string>)
    requires NoRepeats(c) && forall x :: x in c <==> x in s
    ensures |c| == |s|
  {
    if c == [] {
      assert s == {};
    } else {
      var last := c[|c| - 1];
      var init := c[..|c| - 1];
      assert c == init + [last];
      forall x
        ensures x in init <==> x in s - {last}
      {
        assert x in c <==> x in init || x == last;
      }
      ListLength(init, s - {last});
    }
  }

  lemma CompListed(adj: Adjacency, done: set<string>, comps: seq<seq<string>>, node: string, comp: seq<string>)
    requires Listed(adj, done, comps) && node in adj && node !in done
    requires Component(adj, node) !! done
    requires StrictlyAscending(NameLess, comp) && Lists(adj, comp, node)
    ensures Listed(adj, done + Component(adj, node), Append(comps, comp))
  {
    hide Reach;
    ReachRefl(adj, node);
    assert node in Component(adj, node);
    var done' := done + Component(adj, node);
    var comps' := Append(comps, comp);
    NameLessTotal();
    ListLength(comp, Component(adj, node));
    forall i | 0 <= i < |comps'|
      ensures GoodComp(adj, done', comps'[i])
    {
      if i < |comps| {
        assert GoodComp(adj, done, comps[i]);
      }
    }
    assert NoRepeats(comps') by {
      assert node in comp;
      assert forall i :: 0 <= i < |comps| ==> node !in comps[i];
    }
    forall v | v in done' && |Component(adj, v)| >= 3
      ensures exists c :: c in comps' && Lists(adj, c, v)
    {
      if v in done {
        var c :| c in comps && Lists(adj, c, v);
        assert c in comps';
      } else {
        SameComponent(adj, node, v);
        assert Lists(adj, comp, v);
        assert comps'[|comps|] == comp;
      }
    }
  }

  /** The state after the component of the top frame's node, `stack[p..]`, is popped and listed as `comp`. */
  ghost function PopComp(s: State, p: nat, comp: seq<string>): State
    requires s.work != [] && p <= |s.stack|
  {
    s.(on := s.on - Above(s.index, s.on, Top(s).node), stack := s.stack[..p],
       work := s.work[..|s.work| - 1], comps := Append(s.comps, comp))
  }

  /** Popping a complete component keeps the invariant. */
  lemma PopCompInv(adj: Adjacency, s: State, p: nat, comp: seq<string>)
    requires AtRoot(s) && p < |s.stack| && s.stack[p] == Top(s).node && s.on <= s.index.Keys
    requires StrictlyAscending(NameLess, comp) && forall x :: x in comp <==> x in s.stack[p..]
    requires Inv(adj, s)
    ensures Inv(adj, PopComp(s, p, comp))
  {
    hide Closed, Shape, Numbered, Stacked, Iterates, Looked, Finished, Down, Up, LowReached, LowBounds, Listed, Reach;
    hide Component, Above, StrictlyAscending;
    var n := |s.work| - 1;
    var path := Nodes(s.work);
    var node := Top(s).node;
    assert path[n] == node && Nodes(s.work[..n]) == path[..n];
    StackSplit(s.index, s.on, s.stack, p);
    CompPath(adj, s.index, s.low, s.on, path, s.counter);
    CompDown(adj, s.index, s.on, path);
    CompUp(adj, s.index, s.low, s.on, path);
    CompLowReached(adj, s.index, s.low, s.on, path, s.counter);
    CompLowBounds(adj, s.index, s.low, s.on, s.work);
    CompFinished(adj, s);
    PopEdges(adj, s.index, s.work);
    PopCompListed(adj, s, p, comp);
  }

  lemma PopCompListed(adj: Adjacency, s: State, p: nat, comp: seq<string>)
    requires AtRoot(s) && p < |s.stack| && s.stack[p] == Top(s).node && s.on <= s.index.Keys
    requires StrictlyAscending(NameLess, comp) && forall x :: x in comp <==> x in s.stack[p..]
    requires Inv(adj, s)
    ensures Listed(adj, s.index.Keys - (s.on - Above(s.index, s.on, Top(s).node)), Append(s.comps, comp))
  {
    hide Closed, Numbered, Stacked, Iterates, Looked, Finished, Down, Up, LowReached, LowBounds, Listed, Reach;
    hide StrictlyAscending, Component;
    var node := Top(s).node;
    var done := s.index.Keys - s.on;
    assert node in adj;
    assert node in s.on by { assert Nodes(s.work)[|s.work| - 1] in s.on; }
    StackSplit(s.index, s.on, s.stack, p);
    AboveIsComponent(adj, s);
    assert s.index.Keys - (s.on - Above(s.index, s.on, node)) == done + Component(adj, node);
    CompListed(adj, done, s.comps, node, comp);
  }

  // ---- what the loops read off the invariant

  lemma StartInv(adj: Adjacency)
    requires Closed(adj)
    ensures Inv(adj, State(map[], map[], {}, [], [], [], 0))
  {
  }

  lemma FrameShape(adj: Adjacency, index: Numbers, low: Numbers, on: set<string>, stack: seq<string>,
                   work: seq<Frame>, k: nat)
    requires k < |work| && Shape(adj, index, low, on, Nodes(work)) && Stacked(index, on, stack)
    ensures work[k].node in on && on <= index.Keys && low.Keys == index.Keys && index.Keys <= adj.Keys
    ensures work[k].node in stack
  {
    assert Nodes(work)[k] in on;
  }

  lemma FrameNext(adj: Adjacency, work: seq<Frame>, k: nat)
    requires k < |work| && work[k].rest != [] && Closed(adj) && Iterates(adj, work)
    ensures Edge(adj, work[k].node, work[k].rest[0]) && work[k].rest[0] in adj
  {
    assert work[k].rest[0] in work[k].rest;
  }

  /** Frame `k`'s node is on the stack, and its iterator yields successors. */
  ghost predicate FrameOk(adj: Adjacency, s: State, k: nat) {
    && k < |s.work|
    && s.work[k].node in s.on && s.on <= s.index.Keys && s.low.Keys == s.index.Keys && s.index.Keys <= adj.Keys
    && s.work[k].node in s.stack
    && (s.work[k].rest != [] ==> Edge(adj, s.work[k].node, s.work[k].rest[0]) && s.work[k].rest[0] in adj)
  }

  lemma FrameFacts(adj: Adjacency, s: State, k: nat)
    requires k < |s.work|
    requires Inv(adj, s)
    ensures FrameOk(adj, s, k)
  {
    hide Closed, Shape, Numbered, Stacked, Iterates, Looked, Finished, Down, Up, LowReached, LowBounds, Listed, Edge;
    FrameShape(adj, s.index, s.low, s.on, s.stack, s.work, k);
    if s.work[k].rest != [] { FrameNext(adj, s.work, k); }
  }

  lemma StackedFacts(adj: Adjacency, s: State)
    requires Inv(adj, s)
    ensures s.on <= s.index.Keys && Stacked(s.index, s.on, s.stack)
  {
    hide Closed, Numbered, Stacked, Iterates, Looked, Finished, Down, Up, LowReached, LowBounds, Listed;
  }

  /** Every `low` on the path is below the counter. */
  lemma LowBelow(adj: Adjacency, s: State, k: nat)
    requires k < |s.work|
    requires Inv(adj, s)
    ensures k < |s.work| && s.work[k].node in s.low && s.low[s.work[k].node] < s.counter
  {
    hide Closed, Shape, Stacked, Iterates, Looked, Finished, Down, Up, LowBounds, Listed, Reach;
    assert HasLow(adj, s.index, s.low, s.on, Nodes(s.work)[k]);
  }

  /** Folding the top node's `low` into its parent's keeps the invariant. */
  lemma FoldInv(adj: Adjacency, s: State)
    requires |s.work| > 1
    requires Top(s).node in s.low && s.work[|s.work| - 2].node in s.low
    requires Inv(adj, s)
    ensures Inv(adj, s.(low := Lower(s.low, s.work[|s.work| - 2].node, s.low[Top(s).node])))
  {
    hide Closed, Iterates, Looked, Finished, Down, Up, LowBounds, Listed, Reach;
    var n := |s.work| - 1;
    var path := Nodes(s.work);
    assert path[n] == Top(s).node && path[n - 1] == s.work[n - 1].node;
    assert path[n] in s.on && path[n] in s.index;
    var u :| LowAt(adj, s.index, s.low, s.on, path[n], u);
    ParentReaches(adj, s.index, s.on, path, s.counter);
    ReachTrans(adj, path[n - 1], path[n], u);
    hide Shape, Numbered, Stacked, LowReached;
    LowerInv(adj, s, n - 1, u);
  }

  lemma ParentReaches(adj: Adjacency, index: Numbers, on: set<string>, path: seq<string>, counter: nat)
    requires |path| > 1 && Numbered(index, counter, path) && Down(adj, index, on, path) && path[|path| - 1] in on
    ensures Reach(adj, path[|path| - 2], path[|path| - 1])
  {
    assert Before(index, path[|path| - 2], path[|path| - 1]);
  }

  /** `low` of a path node is at most its index, and below it only when the path goes further down. */
  lemma TopLow(adj: Adjacency, s: State)
    requires s.work != [] && Top(s).node in s.low && Top(s).node in s.index
    requires Inv(adj, s)
    ensures s.low[Top(s).node] <= s.index[Top(s).node]
    ensures s.low[Top(s).node] < s.index[Top(s).node] ==> |s.work| > 1
  {
    hide Closed, Iterates, Looked, Finished, Down, LowBounds, Listed, Reach, Shape, Numbered, Stacked;
    var path := Nodes(s.work);
    assert path[|path| - 1] == Top(s).node;
    var u :| LowAt(adj, s.index, s.low, s.on, path[|path| - 1], u);
    hide LowReached, Up;
    if s.low[Top(s).node] < s.index[Top(s).node] {
      HasParent(adj, s.index, s.low, s.on, path);
    }
  }

  /** With no work left the stack is empty, and every indexed node is finished. */
  lemma IdleFacts(adj: Adjacency, s: State)
    requires s.work == []
    requires Inv(adj, s)
    ensures s.on == {} && s.stack == []
    ensures Listed(adj, s.index.Keys, s.comps)
  {
    hide Closed, Numbered, Iterates, Looked, Finished, Down, LowReached, LowBounds, Listed, Reach;
    assert s.on == {} by {
      if x :| x in s.on {
        assert HasUp(adj, s.index, Nodes(s.work), x);
      }
    }
    SomeElement(s.stack);
    assert s.index.Keys - s.on == s.index.Keys;
  }
}
