/** The weekly job-hours of each workflow and the busy share of each lane, over real-valued seconds. */
module Budget {
  import opened Wrappers

  const WEEK: real := 604800.0
  const HOUR: real := 3600.0

  datatype Span = Span(lo: real, hi: real)

  /** A job's workflow, the lane it runs in if it has one, and when it ran. */
  datatype Job = Job(workflow: string, lane: Option<string>, run: Span)

  function Min(x: real, y: real): real { if x <= y then x else y }

  function Max(x: real, y: real): real { if x <= y then y else x }

  function Overlap(a: Span, b: Span): real {
    Max(0.0, Min(a.hi, b.hi) - Max(a.lo, b.lo))
  }

  /** What a run inside a window adds is its length, and one apart from it adds nothing. */
  lemma OverlapExactly(a: Span, w: Span)
    ensures w.lo <= a.lo <= a.hi <= w.hi ==> Overlap(a, w) == a.hi - a.lo
    ensures Apart(a, w) ==> Overlap(a, w) == 0.0
  {
  }

  // ---- consecutive weeks

  ghost predicate Consecutive(ws: seq<Span>) {
    && (forall i :: 0 <= i < |ws| ==> ws[i].lo <= ws[i].hi)
    && forall i, j :: 0 <= i && j == i + 1 && j < |ws| ==> ws[i].hi == ws[j].lo
  }

  /** Cutting a window in two loses and adds nothing. */
  lemma Cut(a: Span, lo: real, mid: real, hi: real)
    requires lo <= mid <= hi
    ensures Overlap(a, Span(lo, mid)) + Overlap(a, Span(mid, hi)) == Overlap(a, Span(lo, hi))
  {
  }

  // ---- disjoint runs

  /** Two runs do not overlap in time: one of them is empty, or one ends before the other starts. */
  predicate Apart(a: Span, b: Span) {
    a.hi <= a.lo || b.hi <= b.lo || a.hi <= b.lo || b.hi <= a.lo
  }

  ghost predicate Disjoint(runs: seq<Span>) {
    forall i, j :: 0 <= i < j < |runs| ==> Apart(runs[i], runs[j])
  }

  function Total(runs: seq<Span>, w: Span): (t: real)
    ensures t >= 0.0
  {
    if runs == [] then 0.0 else Total(runs[..|runs| - 1], w) + Overlap(runs[|runs| - 1], w)
  }

  /** Around a run that overlaps none of the others, the others split into before and after. */
  lemma {:induction false} Around(runs: seq<Span>, a: Span, w: Span)
    requires w.lo <= a.lo < a.hi <= w.hi
    requires forall i :: 0 <= i < |runs| ==> Apart(runs[i], a)
    ensures Total(runs, w) == Total(runs, Span(w.lo, a.lo)) + Total(runs, Span(a.hi, w.hi))
  {
    if runs != [] {
      var front, last := runs[..|runs| - 1], runs[|runs| - 1];
      Around(front, a, w);
      Cut(last, w.lo, a.lo, w.hi);
      Cut(last, a.lo, a.hi, w.hi);
    }
  }

  /** Runs that never overlap fill no window more than once. */
  lemma {:induction false} DisjointFits(runs: seq<Span>, w: Span)
    requires Disjoint(runs) && w.lo <= w.hi
    ensures Total(runs, w) <= w.hi - w.lo
    decreases |runs|
  {
    if runs != [] {
      var front, last := runs[..|runs| - 1], runs[|runs| - 1];
      if Overlap(last, w) == 0.0 {
        DisjointFits(front, w);
      } else {
        var a := Span(Max(last.lo, w.lo), Min(last.hi, w.hi));
        Around(front, a, w);
        DisjointFits(front, Span(w.lo, a.lo));
        DisjointFits(front, Span(a.hi, w.hi));
      }
    }
  }

  // ---- the tables

  /** The runs of the jobs that `key` picks out. */
  function RunsOf(jobs: seq<Job>, lanes: bool, key: string): seq<Span> {
    if jobs == [] then [] else
    var j := jobs[|jobs| - 1];
    RunsOf(jobs[..|jobs| - 1], lanes, key) + (if Keyed(j, lanes, key) then [j.run] else [])
  }

  predicate Keyed(j: Job, lanes: bool, key: string) {
    if lanes then j.lane == Some(key) else j.workflow == key
  }

  /** A row of the table, all zeros until something is added to it. */
  function Row(table: map<string, seq<real>>, key: string, n: nat): seq<real> {
    if key in table then table[key] else seq(n, _ => 0.0)
  }

  function Times(x: real, unit: real): real { x * unit }

  /** Every row says, per week, how long its jobs ran, in units of `unit`. */
  ghost predicate Tallied(table: map<string, seq<real>>, jobs: seq<Job>, lanes: bool, weeks: seq<Span>, unit: real)
    requires unit > 0.0
  {
    forall key :: RowOk(Row(table, key, |weeks|), RunsOf(jobs, lanes, key), weeks, unit)
  }

  ghost predicate RowOk(row: seq<real>, runs: seq<Span>, weeks: seq<Span>, unit: real) {
    |row| == |weeks| && forall i :: 0 <= i < |weeks| ==> Times(row[i], unit) == Total(runs, weeks[i])
  }

  lemma {:induction false} RunsMore(jobs: seq<Job>, j: Job, lanes: bool, key: string)
    ensures RunsOf(jobs + [j], lanes, key) == RunsOf(jobs, lanes, key) + if Keyed(j, lanes, key) then [j.run] else []
  {
    assert (jobs + [j])[..|jobs|] == jobs;
  }

  lemma RowMore(row: seq<real>, row': seq<real>, runs: seq<Span>, a: Span, weeks: seq<Span>, unit: real)
    requires unit > 0.0 && RowOk(row, runs, weeks, unit) && |row'| == |weeks|
    requires forall i :: 0 <= i < |weeks| ==> row'[i] == row[i] + Overlap(a, weeks[i]) / unit
    ensures RowOk(row', runs + [a], weeks, unit)
  {
    hide Times, Overlap;
    assert (runs + [a])[..|runs|] == runs;
    forall i | 0 <= i < |weeks|
      ensures Times(row'[i], unit) == Total(runs + [a], weeks[i])
    {
      Scaled(row[i], Overlap(a, weeks[i]), unit);
    }
  }

  /** `table.setdefault(key, zeros)[i] += x`. */
  function Bump(table: map<string, seq<real>>, key: string, n: nat, i: nat, x: real): map<string, seq<real>>
    requires |Row(table, key, n)| == n && i < n
  {
    table[key := Row(table, key, n)[i := Row(table, key, n)[i] + x]]
  }

  /** Adds one job to its row. */
  method AddJob(table: map<string, seq<real>>, j: Job, lanes: bool, key: string, weeks: seq<Span>, unit: real,
                ghost jobs: seq<Job>)
    returns (out: map<string, seq<real>>)
    requires unit > 0.0 && Keyed(j, lanes, key) && Tallied(table, jobs, lanes, weeks, unit)
    ensures Tallied(out, jobs + [j], lanes, weeks, unit)
  {
    out := table;
    ghost var before := Row(table, key, |weeks|);
    for i := 0 to |weeks|
      invariant forall k :: k != key ==> Row(out, k, |weeks|) == Row(table, k, |weeks|)
      invariant |Row(out, key, |weeks|)| == |weeks|
      invariant forall m :: 0 <= m < |weeks| ==>
        Row(out, key, |weeks|)[m] == before[m] + if m < i then Overlap(j.run, weeks[m]) / unit else 0.0
    {
      out := Bump(out, key, |weeks|, i, Overlap(j.run, weeks[i]) / unit);
    }
    AddedJob(table, out, j, lanes, key, weeks, unit, jobs);
  }

  lemma AddedJob(table: map<string, seq<real>>, out: map<string, seq<real>>, j: Job, lanes: bool, key: string,
                 weeks: seq<Span>, unit: real, jobs: seq<Job>)
    requires unit > 0.0 && Keyed(j, lanes, key) && Tallied(table, jobs, lanes, weeks, unit)
    requires forall k :: k != key ==> Row(out, k, |weeks|) == Row(table, k, |weeks|)
    requires |Row(out, key, |weeks|)| == |weeks| && forall m :: 0 <= m < |weeks| ==>
      Row(out, key, |weeks|)[m] == Row(table, key, |weeks|)[m] + Overlap(j.run, weeks[m]) / unit
    ensures Tallied(out, jobs + [j], lanes, weeks, unit)
  {
    hide Overlap, Row, RowOk, RunsOf;
    forall k
      ensures RowOk(Row(out, k, |weeks|), RunsOf(jobs + [j], lanes, k), weeks, unit)
    {
      RunsMore(jobs, j, lanes, k);
      var runs := RunsOf(jobs, lanes, k);
      if k == key {
        assert |Row(table, k, |weeks|)| == |weeks| by { RowLength(Row(table, k, |weeks|), runs, weeks, unit); }
        RowMore(Row(table, k, |weeks|), Row(out, k, |weeks|), runs, j.run, weeks, unit);
      } else {
        assert runs + [] == runs;
      }
    }
  }

  lemma RowLength(row: seq<real>, runs: seq<Span>, weeks: seq<Span>, unit: real)
    requires RowOk(row, runs, weeks, unit)
    ensures |row| == |weeks|
  {
  }

  lemma Scaled(x: real, y: real, unit: real)
    requires unit > 0.0
    ensures Times(x + y / unit, unit) == Times(x, unit) + y
  {
  }

  /** A job that belongs to no row leaves the table as it is. */
  lemma Skipped(table: map<string, seq<real>>, j: Job, lanes: bool, weeks: seq<Span>, unit: real, jobs: seq<Job>)
    requires unit > 0.0 && Tallied(table, jobs, lanes, weeks, unit) && forall key :: !Keyed(j, lanes, key)
    ensures Tallied(table, jobs + [j], lanes, weeks, unit)
  {
    hide RowOk, Row, RunsOf;
    forall k
      ensures RowOk(Row(table, k, |weeks|), RunsOf(jobs + [j], lanes, k), weeks, unit)
    {
      RunsMore(jobs, j, lanes, k);
      assert RunsOf(jobs, lanes, k) + [] == RunsOf(jobs, lanes, k);
    }
  }

  method Tally(jobs: seq<Job>, weeks: seq<Span>) returns (hours: map<string, seq<real>>, busy: map<string, seq<real>>)
    ensures Tallied(hours, jobs, false, weeks, 60.0 * 60.0)
    ensures Tallied(busy, jobs, true, weeks, 7.0 * 24.0 * 60.0 * 60.0)
  {
    hide Tallied;
    hours, busy := map[], map[];
    Untouched(false, weeks, HOUR);
    Untouched(true, weeks, WEEK);
    assert jobs[..0] == [];
    for i := 0 to |jobs|
      invariant Tallied(hours, jobs[..i], false, weeks, HOUR)
      invariant Tallied(busy, jobs[..i], true, weeks, WEEK)
    {
      var j := jobs[i];
      assert jobs[..i + 1] == jobs[..i] + [j];
      hours := AddJob(hours, j, false, j.workflow, weeks, HOUR, jobs[..i]);
      if j.lane.Some? {
        busy := AddJob(busy, j, true, j.lane.value, weeks, WEEK, jobs[..i]);
      } else {
        Skipped(busy, j, true, weeks, WEEK, jobs[..i]);
      }
    }
    assert jobs[..|jobs|] == jobs;
  }

  lemma Untouched(lanes: bool, weeks: seq<Span>, unit: real)
    requires unit > 0.0
    ensures Tallied(map[], [], lanes, weeks, unit)
  {
  }

  // ---- what the tables promise

  ghost predicate IsWeek(w: Span) { w.hi == w.lo + 7.0 * 24.0 * 60.0 * 60.0 }

  /** A lane whose jobs never overlap is never busy for more than the whole week. */
  lemma {:induction false} ShareAtMostOne(busy: map<string, seq<real>>, jobs: seq<Job>, weeks: seq<Span>, lane: string, i: nat)
    requires Tallied(busy, jobs, true, weeks, WEEK) && i < |weeks| && IsWeek(weeks[i])
    requires Disjoint(RunsOf(jobs, true, lane))
    ensures |Row(busy, lane, |weeks|)| == |weeks| && 0.0 <= Row(busy, lane, |weeks|)[i] <= 1.0
  {
    DisjointFits(RunsOf(jobs, true, lane), weeks[i]);
    assert Times(Row(busy, lane, |weeks|)[i], WEEK) == Total(RunsOf(jobs, true, lane), weeks[i]);
  }

  function SumRow(row: seq<real>): real {
    if row == [] then 0.0 else SumRow(row[..|row| - 1]) + row[|row| - 1]
  }

  function InUnion(runs: seq<Span>, ws: seq<Span>): real {
    if ws == [] then 0.0 else Total(runs, Span(ws[0].lo, ws[|ws| - 1].hi))
  }

  /** A workflow's weekly hours over consecutive weeks sum to the hours its jobs ran inside their union. */
  lemma {:induction false} HoursSum(row: seq<real>, runs: seq<Span>, weeks: seq<Span>, unit: real)
    requires unit > 0.0 && Consecutive(weeks)
    requires RowOk(row, runs, weeks, unit)
    ensures Times(SumRow(row), unit) == InUnion(runs, weeks)
  {
    if weeks == [] {
    } else {
      hide Times, Total;
      var front := weeks[..|weeks| - 1];
      HoursSum(row[..|row| - 1], runs, front, unit);
      Added(SumRow(row[..|row| - 1]), row[|row| - 1], unit);
      if front != [] {
        Ordered(weeks, |weeks| - 1);
        CutAll(runs, weeks[0].lo, weeks[|weeks| - 1].lo, weeks[|weeks| - 1].hi);
      }
    }
  }

  ghost function Length(runs: seq<Span>): real {
    if runs == [] then 0.0 else Length(runs[..|runs| - 1]) + (runs[|runs| - 1].hi - runs[|runs| - 1].lo)
  }

  lemma {:induction false} InsideTotal(runs: seq<Span>, w: Span)
    requires forall i :: 0 <= i < |runs| ==> w.lo <= runs[i].lo <= runs[i].hi <= w.hi
    ensures Total(runs, w) == Length(runs)
  {
    if runs != [] {
      InsideTotal(runs[..|runs| - 1], w);
      OverlapExactly(runs[|runs| - 1], w);
    }
  }

  /** If every job of a workflow ran inside the weeks, its weekly hours sum to the hours they all ran. */
  lemma {:induction false} AllHours(row: seq<real>, runs: seq<Span>, weeks: seq<Span>, unit: real)
    requires unit > 0.0 && Consecutive(weeks) && weeks != [] && RowOk(row, runs, weeks, unit)
    requires forall i :: 0 <= i < |runs| ==> weeks[0].lo <= runs[i].lo <= runs[i].hi <= weeks[|weeks| - 1].hi
    ensures Times(SumRow(row), unit) == Length(runs)
  {
    hide Times, Total, Length, RowOk, SumRow;
    HoursSum(row, runs, weeks, unit);
    InsideTotal(runs, Span(weeks[0].lo, weeks[|weeks| - 1].hi));
  }

  lemma Added(x: real, y: real, unit: real)
    ensures Times(x + y, unit) == Times(x, unit) + Times(y, unit)
  {
  }

  lemma {:induction false} Ordered(weeks: seq<Span>, i: nat)
    requires Consecutive(weeks) && i < |weeks|
    ensures weeks[0].lo <= weeks[i].lo
  {
    if i > 0 { Ordered(weeks, i - 1); }
  }

  lemma {:induction false} CutAll(runs: seq<Span>, lo: real, mid: real, hi: real)
    requires lo <= mid <= hi
    ensures Total(runs, Span(lo, mid)) + Total(runs, Span(mid, hi)) == Total(runs, Span(lo, hi))
  {
    if runs != [] {
      CutAll(runs[..|runs| - 1], lo, mid, hi);
      Cut(runs[|runs| - 1], lo, mid, hi);
    }
  }
}
