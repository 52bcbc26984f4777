/** Runs that show where the protocol's promises stop. */
module HistoryExamples {
  import opened Wrappers
  import opened HistoryFiles
  import opened HistoryProtocol
  import opened History
  import opened HistoryCalls

  const RUN7 := Object(Record(Some(SCHEMA), Some("ci"), Some(7), Some(0), NoTombstone, Some(2024), None))

  function Run7Files(): Tree {
    map[RecordPath("ci", 7) := RUN7]
  }

  lemma Run7Good()
    ensures Good(Run7Files()) && Archives(Run7Files()) == Some([])
    ensures YearOf(RecordPath("ci", 7), RUN7) == Some(2024)
    ensures IsOldest(Run7Files(), 2024) && MovedPaths(Run7Files(), 2024) == {RecordPath("ci", 7)}
  {
    var p := RecordPath("ci", 7);
    assert p in Run7Files();
    forall workflow, runId: nat | workflow in WORKFLOWS && runId > 0 && RecordPath(workflow, runId) in Run7Files()
      ensures ValidRecord(Run7Files()[RecordPath(workflow, runId)], workflow, runId)
    {
      assert RecordPath(workflow, runId) == p;
      assert workflow == p[1] == "ci" && runId == ToInt(Stem(p[2])) == 7;
    }
    assert MovedPaths(Run7Files(), 2024) == {p};
  }

  /** The writer's call, up to its push. */
  lemma Commits(files: Tree) returns (w1: World, w2: World)
    requires files == Run7Files()
    ensures Step(START, Call(0, files)) == Some(w1) && Step(w1, MakeCommit(0, 0)) == Some(w2)
    ensures w2 == World(None, {}, map[0 := Commit(0, files, files, {0})], map[], map[0 := Pushing(Some(0), files, 1)])
  {
    Run7Good();
    hide Good, IsOldest, Archives, Run7Files, NoneDated;
    w1 := Step(START, Call(0, files)).value;
    assert TreeAt(w1, None) + files == files;
    w2 := Step(w1, MakeCommit(0, 0)).value;
    var none: set<nat> := {};
    assert none + {0} == {0};
    assert w2.commits == map[0 := Commit(0, files, files, {0})];
    assert w2.clients == map[0 := Pushing(Some(0), files, 1)];
  }

  /** Its push fails, and so does the fetch after it. */
  lemma GivesUp(w2: World, files: Tree) returns (w3: World, w4: World)
    requires ClientOf(w2, 0) == Pushing(Some(0), files, 1)
    ensures Step(w2, PushFails(0)) == Some(w3) && Step(w3, Fail(0)) == Some(w4)
    ensures w4 == WithClient(w2, 0, Idle(Some(0), Raised(CommandFailed)))
  {
    hide Good, IsOldest, Archives, Archive, Rotated, Tag, NoneDated;
    w3 := Step(w2, PushFails(0)).value;
    w4 := Step(w3, Fail(0)).value;
  }

  /** The writer's push takes effect and is reported failed, up to the point where it will fetch again. */
  lemma WriterMisreported() returns (actions: seq<Action>, w: World)
    ensures Run(START, actions) == Some(w) && w.tip == Some(0)
    ensures w.commits == map[0 := Commit(0, Run7Files(), Run7Files(), {0})] && w.releases == map[] && w.remote == {0}
    ensures w.clients == map[0 := Refetching(Some(0), Run7Files(), 1)]
  {
    var files := Run7Files();
    hide Good, IsOldest, Archives, Run7Files;
    actions := [Call(0, files), MakeCommit(0, 0), Push(0, false)];
    var w1, w2 := Commits(files);
    var w3 := Step(w2, actions[2]).value;
    w := w3;
    assert Run(w2, actions[2..]) == Some(w3);
    assert Run(w1, actions[1..]) == Some(w3) by { assert actions[1..][1..] == actions[2..]; }
  }

  lemma {:induction false} RunConcat(w: World, first: seq<Action>, mid: World, second: seq<Action>, last: World)
    requires Run(w, first) == Some(mid) && Run(mid, second) == Some(last)
    ensures Run(w, first + second) == Some(last)
    decreases |first|
  {
    hide Step;
    if first == [] {
      assert first + second == second;
    } else {
      assert (first + second)[1..] == first[1..] + second;
      RunConcat(Step(w, first[0]).value, first[1..], mid, second, last);
    }
  }

  lemma {:induction false} RunFour(w: World, a: Action, w1: World, b: Action, w2: World, c: Action, w3: World, d: Action, w4: World)
    requires Step(w, a) == Some(w1) && Step(w1, b) == Some(w2) && Step(w2, c) == Some(w3) && Step(w3, d) == Some(w4)
    ensures Run(w, [a, b, c, d]) == Some(w4)
  {
    hide Step;
    assert [a, b, c, d][1..] == [b, c, d] && [b, c, d][1..] == [c, d] && [c, d][1..] == [d] && [d][1..] == [];
    assert Run(w4, []) == Some(w4);
    assert Run(w3, [d]) == Some(w4);
    assert Run(w2, [c, d]) == Some(w4);
    assert Run(w1, [b, c, d]) == Some(w4);
  }

  function Rotation7(): Commit {
    Run7ArchivesFine();
    var tree := Rotated(Run7Files(), 2024);
    Commit(1, tree, tree, {1})
  }

  lemma Run7ArchivesFine()
    ensures Archives(Run7Files()).Some?
  {
    Run7Good();
  }

  lemma Plans(w: World) returns (w1: World, w2: World)
    requires w.tip == Some(0) && 1 !in w.clients
    requires 0 in w.commits && w.commits[0].tree == Run7Files()
    ensures Step(w, StartRotation(1)) == Some(w1) && Step(w1, Plan(1, 2024, 2026)) == Some(w2)
    ensures w2 == WithClient(w, 1, Releasing(Some(0), 0, 2024, 1, map[]))
  {
    Run7Good();
    hide Good, IsOldest, Archives, Run7Files, Archive, Rotated, Tag;
    w1 := Step(w, StartRotation(1)).value;
    w2 := Step(w1, Plan(1, 2024, 2026)).value;
  }

  lemma Releases(w2: World) returns (w3: World)
    requires w2.commits == map[0 := Commit(0, Run7Files(), Run7Files(), {0})] && w2.releases == map[]
    requires ClientOf(w2, 1) == Releasing(Some(0), 0, 2024, 1, map[])
    ensures Step(w2, Release(1, 1)) == Some(w3) && w3.tip == w2.tip && w3.remote == w2.remote
    ensures w3.commits == w2.commits[1 := Rotation7()] && w3.releases == map[Tag(2024) := Archive(Run7Files(), 2024)]
    ensures w3.clients == w2.clients[1 := Leasing(Some(1), 0, 2024, 1, w3.releases)]
  {
    Run7Good();
    hide Good, IsOldest, Archives, Run7Files, Archive, Rotated, Tag;
    w3 := Step(w2, Release(1, 1)).value;
  }

  lemma Leases(w3: World, reported: bool) returns (w4: World)
    requires w3.tip == Some(0) && w3.remote == {0} && 1 in w3.commits && w3.commits[1] == Rotation7()
    requires ClientOf(w3, 1) == Leasing(Some(1), 0, 2024, 1, w3.releases)
    ensures Step(w3, Lease(1, reported)) == Some(w4) && w4.tip == Some(1) && w4.remote == {0, 1}
    ensures w4.commits == w3.commits && w4.releases == w3.releases
    ensures w4.clients == w3.clients[1 := ClientOf(w4, 1)]
    ensures ClientOf(w4, 1) == Renaming(Some(1), 2024, 1, w4.releases, reported)
  {
    hide Good, IsOldest, Archives, Run7Files, Archive, Rotated, Tag;
    w4 := Step(w3, Lease(1, reported)).value;
  }

  /** A rotation of that branch, whose push takes effect and is reported or not. */
  lemma Rotates(w: World, reported: bool) returns (actions: seq<Action>, w': World)
    requires w.tip == Some(0) && w.releases == map[] && w.remote == {0} && 1 !in w.clients
    requires w.commits == map[0 := Commit(0, Run7Files(), Run7Files(), {0})]
    ensures Run(w, actions) == Some(w')
    ensures w'.tip == Some(1) && w'.remote == {0, 1}
    ensures w'.commits == w.commits[1 := Rotation7()]
    ensures w'.releases == map[Tag(2024) := Archive(Run7Files(), 2024)]
    ensures forall c :: c != 1 ==> ClientOf(w', c) == ClientOf(w, c)
    ensures actions == [StartRotation(1), Plan(1, 2024, 2026), Release(1, 1), Lease(1, reported)]
    ensures ClientOf(w', 1) == Renaming(Some(1), 2024, 1, w'.releases, reported)
  {
    hide Step, Run, Run7Files, Archive, Rotated, Tag;
    var w1, w2 := Plans(w);
    var w3 := Releases(w2);
    var w4 := Leases(w3, reported);
    RunFour(w, StartRotation(1), w1, Plan(1, 2024, 2026), w2, Release(1, 1), w3, Lease(1, reported), w4);
    actions, w' := [StartRotation(1), Plan(1, 2024, 2026), Release(1, 1), Lease(1, reported)], w4;
  }

  /** `rotate` can raise although it moved the branch: its push took effect and was reported failed, and
      the next attempt finds no dated record left. */
  lemma RaisesAfterMoving() returns (before: seq<Action>, w: World, after: seq<Action>, w': World)
    ensures Run(START, before) == Some(w) && Run(w, after) == Some(w')
    ensures IsRotateCall(after, 1) && ClientOf(w, 1).Idle?
    ensures w.tip == Some(0) && w'.tip == Some(1) && Moves(w, after, 1) == 1
    ensures ClientOf(w', 1) == Idle(Some(1), Raised(NothingDated)) && Lease(1, true) !in after
  {
    hide Run, Step, Inv, Moves, Pushes, IsRotateCall;
    before, w := WriterMisreported();
    var actions, mid := Rotates(w, false);
    w' := Refused(mid);
    after := actions + [Rename(1), RefuseUndated(1)];
    RunConcat(w, actions, mid, [Rename(1), RefuseUndated(1)], w');
    WriterMisreportedInv(before, w);
    OneMove(w, after, w', false, [Rename(1), RefuseUndated(1)]);
  }

  /** It can raise although its push was even reported: the command after the push fails. */
  lemma RaisesAfterReport() returns (before: seq<Action>, w: World, after: seq<Action>, w': World)
    ensures Run(START, before) == Some(w) && Run(w, after) == Some(w')
    ensures IsRotateCall(after, 1) && ClientOf(w, 1).Idle?
    ensures w.tip == Some(0) && w'.tip == Some(1) && Moves(w, after, 1) == 1
    ensures ClientOf(w', 1) == Idle(Some(1), Raised(CommandFailed)) && Lease(1, false) !in after
  {
    hide Run, Step, Inv, Moves, Pushes, IsRotateCall;
    before, w := WriterMisreported();
    var actions, mid := Rotates(w, true);
    w' := FailsToRename(mid);
    after := actions + [Fail(1)];
    RunConcat(w, actions, mid, [Fail(1)], w');
    WriterMisreportedInv(before, w);
    OneMove(w, after, w', true, [Fail(1)]);
  }

  lemma FailsToRename(mid: World) returns (w': World)
    requires ClientOf(mid, 1).Renaming? && ClientOf(mid, 1).head == Some(1)
    ensures Run(mid, [Fail(1)]) == Some(w') && w' == WithClient(mid, 1, Idle(Some(1), Raised(CommandFailed)))
  {
    hide Good, IsOldest, Archives, Archive, Rotated, Tag, NoneDated;
    w' := Step(mid, Fail(1)).value;
    assert [Fail(1)][1..] == [] && Run(w', []) == Some(w');
  }

  lemma Refused(mid: World) returns (w': World)
    requires mid.tip == Some(1) && 1 in mid.commits && mid.commits[1] == Rotation7()
    requires ClientOf(mid, 1).Renaming? && !ClientOf(mid, 1).pushed && ClientOf(mid, 1).attempt == 1
    ensures Run(mid, [Rename(1), RefuseUndated(1)]) == Some(w') && w'.tip == mid.tip
    ensures ClientOf(w', 1) == Idle(Some(1), Raised(NothingDated))
  {
    hide Step, Rotation7, NoneDated;
    var again := TriesAgain(mid);
    NothingLeft();
    w' := Refuses(again);
    assert [Rename(1), RefuseUndated(1)][1..] == [RefuseUndated(1)] && [RefuseUndated(1)][1..] == [];
    assert Run(w', []) == Some(w');
    assert Run(again, [RefuseUndated(1)]) == Some(w');
  }

  lemma TriesAgain(mid: World) returns (again: World)
    requires ClientOf(mid, 1).Renaming? && !ClientOf(mid, 1).pushed && ClientOf(mid, 1).attempt == 1
    ensures Step(mid, Rename(1)) == Some(again) && again.tip == mid.tip && again.commits == mid.commits
    ensures ClientOf(again, 1).Opening?
  {
    hide Good, IsOldest, Archives, Archive, Rotated, Tag, NoneDated;
    again := Step(mid, Rename(1)).value;
  }

  /** Nothing dated is left on the rotated branch. */
  lemma NothingLeft()
    ensures NoneDated(Rotation7().tree)
  {
    Run7Good();
    KeptExactly(Run7Files(), 2024);
    hide Archive, Rotated, Tag, Good, IsOldest;
  }

  lemma Refuses(again: World) returns (w': World)
    requires again.tip == Some(1) && 1 in again.commits && NoneDated(again.commits[1].tree) && ClientOf(again, 1).Opening?
    ensures Step(again, RefuseUndated(1)) == Some(w') && w'.tip == again.tip
    ensures ClientOf(w', 1) == Idle(Some(1), Raised(NothingDated))
  {
    hide Good, IsOldest, Archives, Archive, Rotated, Tag, NoneDated;
    w' := Step(again, RefuseUndated(1)).value;
  }

  lemma {:induction false} WriterMisreportedInv(before: seq<Action>, w: World)
    requires Run(START, before) == Some(w)
    ensures Inv(w)
  {
    StartInv();
    Reachable(START, before, w);
  }

  /** That rotation is one call with one push that takes effect. */
  lemma {:induction false} OneMove(w: World, after: seq<Action>, w': World, reported: bool, last: seq<Action>)
    requires Inv(w) && Run(w, after) == Some(w')
    requires after == [StartRotation(1), Plan(1, 2024, 2026), Release(1, 1), Lease(1, reported)] + last
    requires last == [Fail(1)] || last == [Rename(1), RefuseUndated(1)]
    ensures IsRotateCall(after, 1) && Moves(w, after, 1) == 1 && Lease(1, !reported) !in after
  {
    hide Inv, Run, Moves;
    var tail := [Plan(1, 2024, 2026), Release(1, 1), Lease(1, reported)] + last;
    assert after[1..] == tail;
    assert forall i :: 0 <= i < |tail| ==> tail[i].Plan? || tail[i].Release? || tail[i].Lease? || tail[i] in last;
    MovesArePushes(w, after, w', 1);
    NoPushes(last, true);
    NoPushes(last, false);
    OnePush(last, reported, true);
    OnePush(last, reported, false);
  }

  lemma {:induction false} NoPushes(last: seq<Action>, reported: bool)
    requires last == [Fail(1)] || last == [Rename(1), RefuseUndated(1)]
    ensures Pushes(last, 1, reported) == 0
  {
    assert [Fail(1)][1..] == [] && [Rename(1), RefuseUndated(1)][1..] == [RefuseUndated(1)] && [RefuseUndated(1)][1..] == [];
    assert Pushes([RefuseUndated(1)], 1, reported) == 0;
  }

  lemma {:induction false} OnePush(last: seq<Action>, reported: bool, asked: bool)
    requires Pushes(last, 1, asked) == 0
    ensures Pushes([StartRotation(1), Plan(1, 2024, 2026), Release(1, 1), Lease(1, reported)] + last, 1, asked)
         == if reported == asked then 1 else 0
  {
    hide Pushes;
    var a := [Lease(1, reported)] + last;
    var b := [Release(1, 1)] + a;
    var d := [Plan(1, 2024, 2026)] + b;
    PushesCons(Lease(1, reported), last, 1, asked);
    PushesCons(Release(1, 1), a, 1, asked);
    PushesCons(Plan(1, 2024, 2026), b, 1, asked);
    PushesCons(StartRotation(1), d, 1, asked);
    assert [StartRotation(1), Plan(1, 2024, 2026), Release(1, 1), Lease(1, reported)] + last == [StartRotation(1)] + d;
  }

  /** A writer waiting to fetch puts its file on a tip that lacks it. */
  lemma Retries(w: World, files: Tree, p: Path) returns (after: seq<Action>, w': World)
    requires w.tip == Some(1) && 1 in w.commits && w.commits[1].history == {1} && 2 !in w.commits
    requires ClientOf(w, 0) == Refetching(Some(0), files, 1) && p in files && p !in w.commits[1].tree
    ensures Run(w, after) == Some(w') && w'.tip == Some(2) && p in TreeAt(w', w'.tip)
    ensures forall i :: 0 <= i < |after| ==> after[i].c == 0 && !after[i].Call?
  {
    var w1 := Step(w, Refetch(0)).value;
    assert w.commits[1].tree + files != w.commits[1].tree;
    var w2 := Step(w1, MakeCommit(0, 2)).value;
    var w3 := Step(w2, Push(0, true)).value;
    hide Step;
    after, w' := [Refetch(0), MakeCommit(0, 2), Push(0, true)], w3;
    assert after[1..] == [MakeCommit(0, 2), Push(0, true)] && after[1..][1..] == [Push(0, true)];
    assert [Push(0, true)][1..] == [] && Run(w3, []) == Some(w3);
    assert Run(w2, [Push(0, true)]) == Some(w3);
    assert Run(w1, after[1..]) == Some(w3);
  }

  /** A writer can bring its own file back after it was rotated away: the push that put the file on the
      branch was reported failed, so the writer applies it again on the rotated tip. */
  lemma OwnFileComesBack() returns (before: seq<Action>, w: World, after: seq<Action>, w': World)
    ensures Run(START, before) == Some(w) && Run(w, after) == Some(w')
    ensures w.tip == Some(1) && RecordPath("ci", 7) !in TreeAt(w, w.tip)
    ensures w'.tip == Some(2) && RecordPath("ci", 7) in TreeAt(w', w'.tip)
    ensures forall i :: 0 <= i < |after| ==> after[i].c == 0 && !after[i].Call?
  {
    hide Step, Run;
    Run7Good();
    KeptExactly(Run7Files(), 2024);
    assert RecordPath("ci", 7) in Run7Files();
    hide Archive, Rotated, Tag, Run7Files, Good, IsOldest, Archives, MovedPaths, YearOf;
    var first, mid := WriterMisreported();
    var second;
    second, w := Rotates(mid, true);
    before := first + second;
    RunConcat(START, first, mid, second, w);
    after, w' := Retries(w, Run7Files(), RecordPath("ci", 7));
  }

  /** Without an `open` first, `commit_files` can report that the branch already holds files it never
      held: they sit in the commit an earlier failed call left checked out. */
  lemma StaleCheckout() returns (actions: seq<Action>, w: World)
    ensures Run(START, actions) == Some(w) && w.tip == None
    ensures |actions| > 0 && actions[|actions| - 1] == Unchanged(0)
  {
    hide Step, Run;
    var files := Run7Files();
    var first, w4 := FailedCall(files);
    var second;
    second, w := UnchangedCall(w4, files);
    RunConcat(START, first, w4, second, w);
    actions := first + second;
  }

  lemma FailedCall(files: Tree) returns (actions: seq<Action>, w4: World)
    requires files == Run7Files()
    ensures Run(START, actions) == Some(w4) && w4.tip == None
    ensures ClientOf(w4, 0).Idle? && ClientOf(w4, 0).head == Some(0) && TreeAt(w4, Some(0)) == files
  {
    hide Run7Files;
    var w1, w2 := Commits(files);
    var w3;
    w3, w4 := GivesUp(w2, files);
    hide Step, Run;
    RunFour(START, Call(0, files), w1, MakeCommit(0, 0), w2, PushFails(0), w3, Fail(0), w4);
    actions := [Call(0, files), MakeCommit(0, 0), PushFails(0), Fail(0)];
  }

  lemma UnchangedCall(w: World, files: Tree) returns (actions: seq<Action>, w': World)
    requires ClientOf(w, 0).Idle? && ClientOf(w, 0).head == Some(0) && TreeAt(w, Some(0)) == files == Run7Files()
    ensures Run(w, actions) == Some(w') && w'.tip == w.tip
    ensures |actions| > 0 && actions[|actions| - 1] == Unchanged(0)
  {
    Run7Good();
    hide Good, IsOldest, Archives, Run7Files;
    var w1 := Step(w, Call(0, files)).value;
    assert files + files == files;
    w' := Step(w1, Unchanged(0)).value;
    hide Step;
    actions := [Call(0, files), Unchanged(0)];
    assert actions[1..] == [Unchanged(0)] && [Unchanged(0)][1..] == [];
    assert Run(w', []) == Some(w');
    assert Run(w1, [Unchanged(0)]) == Some(w');
  }

  /** Rotating away a file that is no valid record makes `has` answer true for its run. */
  lemma InvalidFileListed()
    ensures var bad := Object(Record(Some(SCHEMA), Some("ci"), Some(7), None, NoTombstone, Some(2024), None));
      var t: Tree := map[RecordPath("ci", 7) := bad];
      !Has(t, "ci", 7) && Archives(t).Some? && Has(Rotated(t, 2024), "ci", 7)
  {
    var p := RecordPath("ci", 7);
    var bad := Object(Record(Some(SCHEMA), Some("ci"), Some(7), None, NoTombstone, Some(2024), None));
    var t: Tree := map[p := bad];
    RotationHas(t, 2024, "ci", 7);
    assert p in Archive(t, 2024);
    assert ("ci", 7) in ListedRuns(Archive(t, 2024));
  }

  // ---- what callers of commit_files owe

  lemma {:induction false} AboveAll(s: set<int>) returns (n: int)
    ensures n > 0 && forall x :: x in s ==> x < n
  {
    n := 1;
    if x :| x in s {
      n := AboveAll(s - {x});
      if n <= x { n := x + 1; }
      assert forall y :: y in s ==> y == x || y in s - {x};
    }
  }

  /** Overwriting the archive index loses the runs it listed. */
  lemma IndexOverwritten(files: Tree) returns (t: Tree, n: int)
    requires ARCHIVES in files
    ensures Archives(t).Some? && Has(t, "ci", n) && !Has(t + files, "ci", n)
  {
    var named := set p | p in files && |p| == 3 && IsDigits(Stem(p[2])) :: ToInt(Stem(p[2]));
    var entries := if files[ARCHIVES].Index? then files[ARCHIVES].entries else [];
    var listed := set e, r | e in entries && r in e.runs :: r.1;
    n := AboveAll(named + listed);
    var entry := Entry(0, "", map[], {("ci", n)});
    t := map[ARCHIVES := Index([entry])];
    assert entry in Archives(t).value && ("ci", n) in entry.runs;
    assert n !in named && n !in listed;
    assert RecordPath("ci", n) !in files;
  }

  lemma RecordOverwritten(files: Tree, workflow: string, runId: nat) returns (t: Tree)
    requires ARCHIVES !in files && workflow in WORKFLOWS && runId > 0 && RecordPath(workflow, runId) in files
    requires !ValidRecord(files[RecordPath(workflow, runId)], workflow, runId)
    ensures Archives(t).Some? && Has(t, workflow, runId) && !Has(t + files, workflow, runId)
  {
    t := map[RecordPath(workflow, runId) :=
      Object(Record(Some(SCHEMA), Some(workflow), Some(runId), Some(0), NoTombstone, None, None))];
  }

  /** Non-empty files keep every run of every branch exactly when they are good. */
  lemma GoodExactly(files: Tree)
    requires files != map[]
    ensures Good(files) <==> forall t: Tree :: Archives(t).Some? ==> HasLe(t, t + files)
  {
    hide Has;
    if Good(files) {
      forall t: Tree | Archives(t).Some? { WriteKeepsHas(t, files); }
    } else if ARCHIVES in files {
      var t, n := IndexOverwritten(files);
      assert !HasLe(t, t + files);
    } else {
      var workflow, runId: nat :| workflow in WORKFLOWS && runId > 0 && RecordPath(workflow, runId) in files
        && !ValidRecord(files[RecordPath(workflow, runId)], workflow, runId);
      var t := RecordOverwritten(files, workflow, runId);
      assert !HasLe(t, t + files);
    }
  }
}
