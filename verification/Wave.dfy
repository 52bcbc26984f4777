/** Wave 1 of the roadmap: the boxes that cite an urgent finding and the phase-10 roots, closed over needs. */
module Wave {
  import opened Wrappers
  import opened Sets

  datatype Severity = Critical | High | Medium | Low

  datatype Finding = Finding(severity: Severity, latent: bool)

  /** A roadmap line as the regular expressions see it: its text, whether it is a box, whether it ends
      the closed scope, and the finding ids it cites. */
  datatype Line = Line(text: string, box: bool, scopeEnd: bool, cited: seq<string>)

  datatype NeedRow = NeedRow(key: string, needs: seq<string>)

  datatype NeedsFile = NeedsFile(phase: nat, rows: seq<NeedRow>, roots: seq<string>)

  // ---- keys

  predicate FoundAt(text: string, key: string, i: nat) {
    i <= |text| && key <= text[i..]
  }

  /** Python's `key in text`. */
  predicate Holds(text: string, key: string) {
    exists i :: 0 <= i <= |text| && FoundAt(text, key, i)
  }

  ghost predicate Parts(text: string, a: string, key: string, b: string) {
    text == a + key + b
  }

  /** A text holds a key exactly when it is the key with some text before and after. */
  lemma HoldsExactly(text: string, key: string)
    ensures Holds(text, key) <==> exists a, b :: Parts(text, a, key, b)
  {
    if Holds(text, key) {
      var i :| 0 <= i <= |text| && FoundAt(text, key, i);
      assert Parts(text, text[..i], key, text[i..][|key|..]);
    }
    if a, b :| Parts(text, a, key, b) {
      assert text[|a|..] == key + b;
      assert FoundAt(text, key, |a|);
    }
  }

  /** Line `n` (lines count from 1) is a box. */
  predicate IsBox(lines: seq<Line>, n: int) {
    1 <= n <= |lines| && lines[n - 1].box
  }

  predicate HeldBy(lines: seq<Line>, key: string, n: int) {
    1 <= n <= |lines| && Holds(lines[n - 1].text, key)
  }

  /** The key names line `n`: that line is a box, and the one line that holds the key. */
  ghost predicate Names(lines: seq<Line>, key: string, n: nat) {
    IsBox(lines, n) && HeldBy(lines, key, n) && forall m :: HeldBy(lines, key, m) ==> m == n
  }

  /** The line the key names, or None where a `GateError` is raised. */
  method MatchKey(key: string, lines: seq<Line>) returns (r: Option<nat>)
    ensures r.Some? ==> Names(lines, key, r.value)
    ensures r.None? ==> forall n :: !Names(lines, key, n)
  {
    var hits: seq<nat> := [];
    for i := 0 to |lines|
      invariant forall a :: 0 <= a < |hits| ==> hits[a] <= i
      invariant forall m :: m in hits <==> HeldBy(lines, key, m) && m <= i
      invariant forall a, b :: 0 <= a < b < |hits| ==> hits[a] < hits[b]
    {
      if HeldBy(lines, key, i + 1) { hits := hits + [i + 1]; }
    }
    if |hits| != 1 {
      if |hits| > 1 { assert hits[0] in hits && hits[1] in hits; }
      return None;
    }
    var n := hits[0];
    assert n in hits;
    return if IsBox(lines, n) then Some(n) else None;
  }

  lemma NamesOne(lines: seq<Line>, key: string, m: nat, n: nat)
    requires Names(lines, key, m) && Names(lines, key, n)
    ensures m == n
  {
  }

  // ---- needs

  /** Row `r` makes box `k` need box `n`. */
  ghost predicate RowNeeds(lines: seq<Line>, r: NeedRow, k: nat, n: nat) {
    Names(lines, r.key, k) && exists j :: 0 <= j < |r.needs| && Names(lines, r.needs[j], n)
  }

  ghost predicate FileNeeds(lines: seq<Line>, f: NeedsFile, k: nat, n: nat) {
    exists i :: 0 <= i < |f.rows| && RowNeeds(lines, f.rows[i], k, n)
  }

  /** Some row of some needs file makes box `k` need box `n`. */
  ghost predicate Needs(lines: seq<Line>, files: seq<NeedsFile>, k: nat, n: nat) {
    exists i :: 0 <= i < |files| && FileNeeds(lines, files[i], k, n)
  }

  predicate HasEdge(edges: map<nat, set<nat>>, k: nat, n: nat) {
    k in edges && n in edges[k]
  }

  /** Adds the needs of one row. */
  method AddRow(lines: seq<Line>, r: NeedRow, edges: map<nat, set<nat>>) returns (out: map<nat, set<nat>>)
    ensures forall k, n :: HasEdge(out, k, n) <==> HasEdge(edges, k, n) || RowNeeds(lines, r, k, n)
  {
    out := edges;
    var named := MatchKey(r.key, lines);
    if named.None? { return; }
    var k := named.value;
    var s := if k in edges then edges[k] else {};
    ghost var before := s;
    for j := 0 to |r.needs|
      invariant forall n :: n in s <==> n in before || exists i :: 0 <= i < j && Names(lines, r.needs[i], n)
    {
      var m := MatchKey(r.needs[j], lines);
      if m.Some? {
        s := s + {m.value};
        forall n | Names(lines, r.needs[j], n) { NamesOne(lines, r.needs[j], n, m.value); }
      }
    }
    out := edges[k := s];
    forall k', n
      ensures HasEdge(out, k', n) <==> HasEdge(edges, k', n) || RowNeeds(lines, r, k', n)
    {
      if Names(lines, r.key, k') { NamesOne(lines, r.key, k, k'); }
    }
  }

  method AddFile(lines: seq<Line>, f: NeedsFile, edges: map<nat, set<nat>>) returns (out: map<nat, set<nat>>)
    ensures forall k, n :: HasEdge(out, k, n) <==> HasEdge(edges, k, n) || FileNeeds(lines, f, k, n)
  {
    hide RowNeeds;
    out := edges;
    for i := 0 to |f.rows|
      invariant forall k, n :: HasEdge(out, k, n) <==>
        HasEdge(edges, k, n) || exists j :: 0 <= j < i && RowNeeds(lines, f.rows[j], k, n)
    {
      out := AddRow(lines, f.rows[i], out);
    }
  }

  method NeedsEdges(lines: seq<Line>, files: seq<NeedsFile>) returns (edges: map<nat, set<nat>>)
    ensures forall k, n :: HasEdge(edges, k, n) <==> Needs(lines, files, k, n)
  {
    hide FileNeeds;
    edges := map[];
    for i := 0 to |files|
      invariant forall k, n :: HasEdge(edges, k, n) <==> exists j :: 0 <= j < i && FileNeeds(lines, files[j], k, n)
    {
      edges := AddFile(lines, files[i], edges);
    }
  }

  // ---- seeds

  predicate Urgent(findings: map<string, Finding>, id: string) {
    id in findings && !findings[id].latent && findings[id].severity in {Critical, High}
  }

  /** A box before the end of the closed scope that cites a finding rated critical or high and not latent. */
  ghost predicate CitesUrgent(lines: seq<Line>, findings: map<string, Finding>, n: nat) {
    && IsBox(lines, n)
    && (exists id :: id in lines[n - 1].cited && id in findings && !findings[id].latent
                     && (findings[id].severity == Critical || findings[id].severity == High))
    && forall m :: 0 <= m < n ==> !lines[m].scopeEnd
  }

  predicate Cites(findings: map<string, Finding>, cited: seq<string>) {
    exists j :: 0 <= j < |cited| && Urgent(findings, cited[j])
  }

  /** A root of a phase-10 needs file. */
  ghost predicate IsRoot(lines: seq<Line>, files: seq<NeedsFile>, n: nat) {
    exists i, j :: 0 <= i < |files| && files[i].phase == 10 && 0 <= j < |files[i].roots| && Names(lines, files[i].roots[j], n)
  }

  method Cited(lines: seq<Line>, findings: map<string, Finding>) returns (seeds: set<nat>)
    ensures forall n :: n in seeds <==> CitesUrgent(lines, findings, n)
  {
    seeds := {};
    var i := 0;
    while i < |lines| && !lines[i].scopeEnd
      invariant 0 <= i <= |lines|
      invariant forall m :: 0 <= m < i ==> !lines[m].scopeEnd
      invariant forall n: nat :: n in seeds <==> n <= i && CitesUrgent(lines, findings, n)
    {
      if IsBox(lines, i + 1) && Cites(findings, lines[i].cited) {
        seeds := seeds + {i + 1};
      }
      i := i + 1;
    }
  }

  method AddRoots(lines: seq<Line>, files: seq<NeedsFile>, seeds: set<nat>) returns (out: set<nat>)
    ensures forall n :: n in out <==> n in seeds || IsRoot(lines, files, n)
  {
    hide Names;
    out := seeds;
    for i := 0 to |files|
      invariant forall n :: n in out <==> n in seeds || exists a, b ::
        0 <= a < i && files[a].phase == 10 && 0 <= b < |files[a].roots| && Names(lines, files[a].roots[b], n)
    {
      if files[i].phase == 10 {
        ghost var before := out;
        for j := 0 to |files[i].roots|
          invariant forall n :: n in out <==> n in before || exists b :: 0 <= b < j && Names(lines, files[i].roots[b], n)
        {
          var m := MatchKey(files[i].roots[j], lines);
          if m.Some? {
            out := out + {m.value};
            forall n | Names(lines, files[i].roots[j], n) { NamesOne(lines, files[i].roots[j], n, m.value); }
          }
        }
      }
    }
  }

  // ---- the closure

  ghost predicate ClosedUnder(edges: map<nat, set<nat>>, s: set<nat>) {
    forall k, n :: k in s && HasEdge(edges, k, n) ==> n in s
  }

  /** `s` holds the seeds and everything its members need. */
  ghost predicate Covers(edges: map<nat, set<nat>>, seeds: set<nat>, s: set<nat>) {
    seeds <= s && ClosedUnder(edges, s)
  }

  /** The least such set. */
  ghost predicate IsWave(edges: map<nat, set<nat>>, seeds: set<nat>, wave: set<nat>) {
    Covers(edges, seeds, wave) && forall s :: Covers(edges, seeds, s) ==> wave <= s
  }

  /** The set listed in some order. */
  method Listing(s: set<nat>) returns (r: seq<nat>)
    ensures forall x :: x in r <==> x in s
  {
    r := [];
    var left := s;
    while left != {}
      invariant left <= s
      invariant forall x :: x in r <==> x in s && x !in left
      decreases |left|
    {
      var x := Any(left);
      left := left - {x};
      r := r + [x];
    }
  }

  /** Everything that is a seed or needed by something: a finite bound on the wave. */
  ghost function Lines(edges: map<nat, set<nat>>, seeds: set<nat>): (u: set<nat>)
    ensures Covers(edges, seeds, u)
  {
    seeds + (set k, n | k in edges && n in edges[k] :: n)
  }

  /** What the worklist keeps: what it took or still holds is forced, and all that is forced by the wave
      is in the wave or on the list. */
  ghost predicate Working(edges: map<nat, set<nat>>, seeds: set<nat>, wave: set<nat>, todo: seq<nat>) {
    && (forall s :: Covers(edges, seeds, s) ==> wave <= s && forall n :: n in todo ==> n in s)
    && (forall n :: n in seeds ==> n in wave || n in todo)
    && (forall k, n :: k in wave && HasEdge(edges, k, n) ==> n in wave || n in todo)
  }

  lemma Taken(edges: map<nat, set<nat>>, seeds: set<nat>, wave: set<nat>, todo: seq<nat>, n: nat)
    requires Working(edges, seeds, wave, todo + [n]) && n in wave
    ensures Working(edges, seeds, wave, todo)
  {
    assert forall x :: x in todo ==> x in todo + [n];
  }

  lemma Grown(edges: map<nat, set<nat>>, seeds: set<nat>, wave: set<nat>, todo: seq<nat>, n: nat, more: seq<nat>)
    requires Working(edges, seeds, wave, todo + [n])
    requires forall x :: x in more <==> HasEdge(edges, n, x)
    ensures Working(edges, seeds, wave + {n}, todo + more)
  {
    assert forall x :: x in todo + [n] <==> x in todo || x == n;
    assert forall x :: x in todo + more <==> x in todo || x in more;
  }

  lemma Done(edges: map<nat, set<nat>>, seeds: set<nat>, wave: set<nat>)
    requires Working(edges, seeds, wave, [])
    ensures IsWave(edges, seeds, wave)
  {
  }

  lemma Bounded(edges: map<nat, set<nat>>, seeds: set<nat>, wave: set<nat>, todo: seq<nat>)
    requires Working(edges, seeds, wave, todo)
    ensures wave <= Lines(edges, seeds) && forall n :: n in todo ==> n in Lines(edges, seeds)
  {
    assert Covers(edges, seeds, Lines(edges, seeds));
  }

  method Close(edges: map<nat, set<nat>>, seeds: set<nat>) returns (wave: set<nat>)
    ensures IsWave(edges, seeds, wave)
  {
    hide Working, Lines, IsWave;
    wave := {};
    var todo := Listing(seeds);
    assert Working(edges, seeds, wave, todo) by { Started(edges, seeds, todo); }
    while todo != []
      invariant Working(edges, seeds, wave, todo)
      decreases |Lines(edges, seeds) - wave|, |todo|
    {
      var n := todo[|todo| - 1];
      ghost var all := todo;
      Bounded(edges, seeds, wave, todo);
      todo := todo[..|todo| - 1];
      assert all == todo + [n];
      if n in wave {
        Taken(edges, seeds, wave, todo, n);
      } else {
        var more := Listing(if n in edges then edges[n] else {});
        Grown(edges, seeds, wave, todo, n, more);
        FewerElements(Lines(edges, seeds) - (wave + {n}), Lines(edges, seeds) - wave);
        wave := wave + {n};
        todo := todo + more;
      }
    }
    Done(edges, seeds, wave);
  }

  lemma Started(edges: map<nat, set<nat>>, seeds: set<nat>, todo: seq<nat>)
    requires forall x :: x in todo <==> x in seeds
    ensures Working(edges, seeds, {}, todo)
  {
  }

  /** `wave` holds the urgent boxes and the roots, is closed over needs, and is the least such set. */
  ghost predicate IsWaveOne(lines: seq<Line>, findings: map<string, Finding>, files: seq<NeedsFile>, wave: set<nat>) {
    && WaveCovers(lines, findings, files, wave)
    && forall s: set<nat> :: WaveCovers(lines, findings, files, s) ==> wave <= s
  }

  ghost predicate WaveCovers(lines: seq<Line>, findings: map<string, Finding>, files: seq<NeedsFile>, s: set<nat>) {
    && (forall n :: CitesUrgent(lines, findings, n) || IsRoot(lines, files, n) ==> n in s)
    && (forall k, n :: k in s && Needs(lines, files, k, n) ==> n in s)
  }

  method WaveOneLines(lines: seq<Line>, findings: map<string, Finding>, files: seq<NeedsFile>) returns (wave: set<nat>)
    ensures IsWaveOne(lines, findings, files, wave)
    ensures forall n :: n in wave ==> IsBox(lines, n)
  {
    hide CitesUrgent, IsRoot, Needs, IsWaveOne;
    var cited := Cited(lines, findings);
    var seeds := AddRoots(lines, files, cited);
    var edges := NeedsEdges(lines, files);
    wave := Close(edges, seeds);
    Restated(lines, findings, files, edges, seeds, wave);
    OnlyBoxes(lines, findings, files, wave);
  }

  lemma Restated(lines: seq<Line>, findings: map<string, Finding>, files: seq<NeedsFile>,
                 edges: map<nat, set<nat>>, seeds: set<nat>, wave: set<nat>)
    requires forall n :: n in seeds <==> CitesUrgent(lines, findings, n) || IsRoot(lines, files, n)
    requires forall k, n :: HasEdge(edges, k, n) <==> Needs(lines, files, k, n)
    requires IsWave(edges, seeds, wave)
    ensures IsWaveOne(lines, findings, files, wave)
  {
    hide CitesUrgent, IsRoot, Needs, HasEdge;
    forall s: set<nat>
      ensures Covers(edges, seeds, s) <==> WaveCovers(lines, findings, files, s)
    {
    }
  }

  /** Every line of the wave is a box: the boxes alone already cover it. */
  lemma OnlyBoxes(lines: seq<Line>, findings: map<string, Finding>, files: seq<NeedsFile>, wave: set<nat>)
    requires IsWaveOne(lines, findings, files, wave)
    ensures forall n :: n in wave ==> IsBox(lines, n)
  {
    var boxes := set n: nat | 1 <= n <= |lines| && IsBox(lines, n);
    assert WaveCovers(lines, findings, files, boxes);
  }
}
