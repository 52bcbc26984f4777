/** What an ended call of `rotate` or `commit_files` says about the branch. */
module HistoryReasons {
  import opened Wrappers
  import opened HistoryFiles
  import opened HistoryProtocol
  import opened History

  // ---- errors

  /** What an error, raised at step `a`, says was the case. */
  ghost predicate WasSo(w: World, a: Action, why: Why) {
    var client := ClientOf(w, a.c);
    match why
    case NothingDated => w.tip.Some? && forall p :: p in TreeAt(w, w.tip) ==> YearOf(p, TreeAt(w, w.tip)[p]) == None
    case CurrentYear =>
      && a.RefuseYear? && w.tip.Some?
      && (exists p :: p in TreeAt(w, w.tip) && YearOf(p, TreeAt(w, w.tip)[p]).Some?)
      && (forall p, y :: p in TreeAt(w, w.tip) && YearOf(p, TreeAt(w, w.tip)[p]) == Some(y) ==> a.now <= y)
    case TagTaken => client.Releasing? && Tag(client.year) in w.releases && Tag(client.year) !in client.released
    case RecordsChanged =>
      && client.Releasing? && client.tip in w.commits && Tag(client.year) in client.released
      && client.released[Tag(client.year)] != Archive(w.commits[client.tip].tree, client.year)
    case OutOfAttempts => client.Pushing? || client.Renaming?
    case CommandFailed => true
  }

  /** A call that raises says what was so when it did. */
  lemma RaisesRight(w: World, a: Action, w': World)
    requires Step(w, a) == Some(w') && !ClientOf(w, a.c).Idle?
    requires ClientOf(w', a.c).Idle? && ClientOf(w', a.c).ended.Raised?
    ensures WasSo(w, a, ClientOf(w', a.c).ended.why)
  {
    hide Good, Rotated, Archive, Archives, Tag, YearOf;
  }

  // ---- only years that are over are rotated

  /** Client `c` chose `year` when `now` was a later year. */
  ghost predicate Planned(actions: seq<Action>, c: nat, year: int) {
    exists i :: 0 <= i < |actions| && IsPlan(actions[i], c, year)
  }

  predicate IsPlan(a: Action, c: nat, year: int) {
    a.Plan? && a.c == c && a.year == year && year < a.now
  }

  ghost predicate HasYear(client: Client) {
    client.Releasing? || client.Leasing? || client.Renaming?
  }

  ghost predicate AllPlanned(actions: seq<Action>, w: World) {
    forall c :: HasYear(ClientOf(w, c)) ==> Planned(actions, c, ClientOf(w, c).year)
  }

  lemma YearKept(w: World, a: Action, w': World, c: nat)
    requires Step(w, a) == Some(w') && HasYear(ClientOf(w', c))
    ensures IsPlan(a, c, ClientOf(w', c).year) || (HasYear(ClientOf(w, c)) && ClientOf(w, c).year == ClientOf(w', c).year)
  {
    hide Good, Rotated, Archive, Archives, Tag, IsOldest, NoneDated;
  }

  lemma PlannedMore(actions: seq<Action>, w: World, a: Action, w': World)
    requires AllPlanned(actions, w) && Step(w, a) == Some(w')
    ensures AllPlanned(actions + [a], w')
  {
    hide Step;
    var more := actions + [a];
    forall c | HasYear(ClientOf(w', c))
      ensures Planned(more, c, ClientOf(w', c).year)
    {
      YearKept(w, a, w', c);
      var year := ClientOf(w', c).year;
      if IsPlan(a, c, year) {
        assert IsPlan(more[|actions|], c, year);
      } else {
        var i :| 0 <= i < |actions| && IsPlan(actions[i], c, year);
        assert IsPlan(more[i], c, year);
      }
    }
  }

  lemma {:induction false} PlannedRun(past: seq<Action>, w: World, actions: seq<Action>, w': World)
    requires AllPlanned(past, w) && Run(w, actions) == Some(w')
    ensures AllPlanned(past + actions, w')
    decreases |actions|
  {
    hide Step, AllPlanned;
    if actions == [] {
      assert past + [] == past;
    } else {
      var next := Step(w, actions[0]).value;
      PlannedMore(past, w, actions[0], next);
      PlannedRun(past + [actions[0]], next, actions[1..], w');
      assert past + [actions[0]] + actions[1..] == past + actions;
    }
  }

  /** In every run from the empty remote, a leased push rotates a year that was over when it was chosen. */
  lemma {:induction false} LeasesPlanned(before: seq<Action>, w: World, c: nat, reported: bool, w': World)
    requires Run(START, before) == Some(w) && Step(w, Lease(c, reported)) == Some(w')
    ensures ClientOf(w, c).Leasing? && Planned(before, c, ClientOf(w, c).year)
  {
    hide Step, Run, Planned;
    LeaseLeases(w, c, reported, w');
    NothingPlanned();
    PlannedRun([], START, before, w);
    assert [] + before == before;
  }

  lemma LeaseLeases(w: World, c: nat, reported: bool, w': World)
    requires Step(w, Lease(c, reported)) == Some(w')
    ensures ClientOf(w, c).Leasing?
  {
  }

  lemma NothingPlanned()
    ensures AllPlanned([], START)
  {
  }

  // ---- a fresh checkout

  /** A writer that opens the branch and at once finds nothing to change is right: the tip has all its files. */
  lemma OpenedUnchanged(w: World, c: nat, files: Tree, w1: World, w2: World, w3: World)
    requires Step(w, Open(c)) == Some(w1) && Step(w1, Call(c, files)) == Some(w2) && Step(w2, Unchanged(c)) == Some(w3)
    ensures w3.tip == w.tip && w3.tip.Some? && Holds(TreeAt(w3, w3.tip), files) && ClientOf(w3, c) == Idle(w.tip, Nothing)
  {
    hide IsOldest, NoneDated, Rotated, Archive, Archives, Tag;
    NothingAdded(TreeAt(w2, w2.tip), files);
  }

  /** A writer that opens the branch and commits at once puts its commit on the tip it opened. */
  lemma OpenedCommit(w: World, c: nat, files: Tree, w1: World, w2: World, id: nat, w3: World)
    requires Inv(w)
    requires Step(w, Open(c)) == Some(w1) && Step(w1, Call(c, files)) == Some(w2) && Step(w2, MakeCommit(c, id)) == Some(w3)
    ensures id in w3.commits && w3.commits[id].tree == TreeAt(w, w.tip) + files
    ensures FastForward(w3, id)
  {
    hide IsOldest, NoneDated, Rotated, Archive, Archives, Tag, Good, ClientOk, ReleasesOk, ContentOk;
    if w.tip.Some? { assert LineOk(w.commits, w.tip.value); }
  }
}
