/** What the `ci-history` protocol guarantees over every interleaving. */
module History {
  import opened Wrappers
  import opened HistoryFiles
  import opened HistoryProtocol

  // ---- no run is ever lost

  /** A plain push takes effect only on a descendant of the tip. */
  lemma PushOnto(w: World, c: nat, reported: bool, w': World)
    requires Inv(w) && Step(w, Push(c, reported)) == Some(w')
    ensures w'.tip.Some? && w'.tip.value in w.commits && w'.tip == ClientOf(w, c).head
    ensures w.tip.Some? ==> w.tip.value in w.commits[w'.tip.value].history
    ensures OwnCommits(w.commits, w.remote, c, w'.tip) && w'.commits == w.commits
  {
    hide CommitsOk, ReleasesOk, RemoteOk, OwnCommits, Good;
    assert ClientOk(w.commits, w.remote, w.releases, c, ClientOf(w, c));
  }

  /** A leased push takes effect only on the tip it read, and rotates that tip. */
  lemma LeaseOnto(w: World, c: nat, reported: bool, w': World)
    requires Inv(w) && Step(w, Lease(c, reported)) == Some(w')
    ensures w.tip.Some? && w'.tip.Some? && w'.commits == w.commits && w'.releases == w.releases
    ensures ClientOf(w, c).Leasing? && w.tip == Some(ClientOf(w, c).tip)
    ensures LeaseOk(w.commits, w.releases, w'.tip.value, w.tip.value, ClientOf(w, c).year)
  {
    hide CommitsOk, ReleasesOk, RemoteOk, OwnCommits, LeaseOk, Good;
    assert ClientOk(w.commits, w.remote, w.releases, c, ClientOf(w, c));
  }

  /** A step never takes a run away from the tip. */
  lemma StepKeepsHas(w: World, a: Action, w': World)
    requires Inv(w) && Step(w, a) == Some(w') && w.tip.Some?
    ensures w'.tip.Some? && HasLe(TreeAt(w, w.tip), TreeAt(w', w'.tip))
  {
    hide Step, ClientOk, Has, Rotated, Archive, ReleasesOk;
    assert w.tip.value in w.commits;
    StepInv(w, a, w');
    StepGrows(w, a, w');
    if a.Push? {
      PushOnto(w, a.c, a.reported, w');
      assert ContentOk(w.commits, w'.tip.value);
    } else if a.Lease? {
      LeaseOnto(w, a.c, a.reported, w');
      RotationKeepsHas(TreeAt(w, w.tip), ClientOf(w, a.c).year);
    }
  }

  /** In every interleaving of any number of writers and rotators, misreported pushes included, once
      the tip answers `has` true for a run, every later tip does. */
  lemma {:induction false} HasForever(w: World, actions: seq<Action>, w': World, workflow: string, runId: int)
    requires Inv(w) && Run(w, actions) == Some(w')
    requires w.tip.Some? && Has(TreeAt(w, w.tip), workflow, runId)
    ensures Inv(w') && w'.tip.Some? && Has(TreeAt(w', w'.tip), workflow, runId)
    decreases |actions|
  {
    hide Step, Inv, Has;
    if actions != [] {
      var next := Step(w, actions[0]).value;
      StepInv(w, actions[0], next);
      StepKeepsHas(w, actions[0], next);
      HasForever(next, actions[1..], w', workflow, runId);
    }
  }

  /** The invariant holds in every world reachable from the empty remote. */
  lemma {:induction false} Reachable(w: World, actions: seq<Action>, w': World)
    requires Inv(w) && Run(w, actions) == Some(w')
    ensures Inv(w')
    decreases |actions|
  {
    hide Step, Inv;
    if actions != [] {
      var next := Step(w, actions[0]).value;
      StepInv(w, actions[0], next);
      Reachable(next, actions[1..], w');
    }
  }

  /** So in every run from the empty remote: what a tip has, every later tip has. */
  lemma {:induction false} EveryRunKeeps(before: seq<Action>, w: World, after: seq<Action>, w': World, workflow: string, runId: int)
    requires Run(START, before) == Some(w) && Run(w, after) == Some(w')
    requires w.tip.Some? && Has(TreeAt(w, w.tip), workflow, runId)
    ensures w'.tip.Some? && Has(TreeAt(w', w'.tip), workflow, runId)
  {
    hide Run, Inv, Has;
    StartInv();
    Reachable(START, before, w);
    HasForever(w, after, w', workflow, runId);
  }

  // ---- a writer touches its own files only

  /** A commit on the way to `head` that writes `p` and that `c` made and had not pushed before. */
  ghost predicate OwnWrite(w: World, c: nat, head: nat, b: nat, p: Path) {
    && head in w.commits && b in w.commits[head].history && b !in w.remote
    && b in w.commits && w.commits[b].author == c && p in w.commits[b].files
  }

  /** A push changes the tip only where the pusher's own new commits write: it drops no other's file,
      and a file that has left the branch comes back exactly when the pusher writes it. */
  lemma PushTouchesOwn(w: World, c: nat, reported: bool, w': World, p: Path)
    requires Inv(w) && Step(w, Push(c, reported)) == Some(w') && w.tip.Some?
    ensures w'.tip.Some? && w.tip.value in w.commits
    ensures SameAt(TreeAt(w, w.tip), TreeAt(w', w'.tip), p) || exists b :: OwnWrite(w, c, w'.tip.value, b, p)
    ensures p !in TreeAt(w, w.tip) ==>
      (p in TreeAt(w', w'.tip) <==> exists b :: OwnWrite(w, c, w'.tip.value, b, p))
  {
    hide Step, ClientOk, Has, Rotated, Archive, ReleasesOk;
    PushOnto(w, c, reported, w');
    var tip, head := w.tip.value, w'.tip.value;
    assert LineOk(w.commits, head) && ContentOk(w.commits, head);
    if Untouched(w.commits, tip, head, p) {
      assert SameAt(w.commits[tip].tree, w.commits[head].tree, p);
    } else {
      var b :| b in w.commits[head].history && b !in w.commits[tip].history && p in w.commits[b].files;
      NotPushed(w, head, b);
      assert OwnWrite(w, c, head, b, p);
    }
  }

  /** What lies strictly between the tip and a descendant was never on the remote. */
  lemma NotPushed(w: World, head: nat, b: nat)
    requires CommitsOk(w.commits) && RemoteOk(w.commits, w.remote, w.tip) && w.tip.Some?
    requires head in w.commits && w.tip.value in w.commits[head].history
    requires b in w.commits[head].history && b !in w.commits[w.tip.value].history
    ensures b !in w.remote
  {
    hide ContentOk;
    assert LineOk(w.commits, head) && LineOk(w.commits, w.tip.value);
  }

  // ---- a call that succeeds has recorded its runs

  /** The tip has every run of every commit the remote ever held. */
  ghost predicate Kept(w: World) {
    w.tip.Some? ==> forall b :: b in w.remote && b in w.commits ==> HasLe(w.commits[b].tree, TreeAt(w, w.tip))
  }

  lemma StepKept(w: World, a: Action, w': World)
    requires Inv(w) && Kept(w) && Step(w, a) == Some(w')
    ensures Inv(w') && Kept(w')
  {
    hide Step, ClientOk, Has, Rotated, Archive, ReleasesOk;
    StepInv(w, a, w');
    StepGrows(w, a, w');
    StepRemote(w, a, w');
    if w.tip.Some? { StepKeepsHas(w, a, w'); }
    if w'.tip.Some? {
      forall b | b in w'.remote && b in w'.commits
        ensures HasLe(w'.commits[b].tree, TreeAt(w', w'.tip))
      {
        if b !in w.remote {
          assert b in w'.commits[w'.tip.value].history;
          assert ContentOk(w'.commits, w'.tip.value);
        }
      }
    }
  }

  lemma StepRemote(w: World, a: Action, w': World)
    requires Step(w, a) == Some(w')
    ensures w'.remote == w.remote || (w'.tip.Some? && w'.tip.value in w'.commits
              && w'.remote == w.remote + w'.commits[w'.tip.value].history)
  {
    hide Good, IsOldest, Rotated, Archive, Archives;
  }

  lemma {:induction false} RunKept(w: World, actions: seq<Action>, w': World)
    requires Inv(w) && Kept(w) && Run(w, actions) == Some(w')
    ensures Inv(w') && Kept(w')
    decreases |actions|
  {
    hide Step, Inv, Kept;
    if actions != [] {
      var next := Step(w, actions[0]).value;
      StepKept(w, actions[0], next);
      RunKept(next, actions[1..], w');
    }
  }

  /** A run whose record `files` holds. */
  ghost predicate Records(files: Tree, workflow: string, runId: int) {
    workflow in WORKFLOWS && runId > 0 && RecordPath(workflow, runId) in files
  }

  /** A commit reported pushed puts all the call's files on the tip. */
  lemma PushedHolds(w: World, c: nat, w': World)
    requires Inv(w) && Step(w, Push(c, true)) == Some(w')
    ensures ClientOf(w, c).Pushing? && Holds(TreeAt(w', w'.tip), ClientOf(w, c).files)
  {
    hide CommitsOk, ReleasesOk, RemoteOk, OwnCommits, Good;
    assert ClientOk(w.commits, w.remote, w.releases, c, ClientOf(w, c));
  }

  lemma HoldsHas(t: Tree, files: Tree, workflow: string, runId: int)
    requires Holds(t, files) && Good(files) && Records(files, workflow, runId)
    ensures Has(t, workflow, runId)
  {
  }

  /** Of some commits on one line, the one that descends from all of them. */
  lemma {:induction false} LineTop(commits: Commits, id: nat, s: set<nat>) returns (b: nat)
    requires CommitsOk(commits) && id in commits && s <= commits[id].history && s != {}
    ensures b in s && b in commits && forall a :: a in s ==> a in commits[b].history
    decreases s
  {
    hide ContentOk;
    assert LineOk(commits, id);
    var x :| x in s;
    assert LineOk(commits, x);
    if s - {x} == {} {
      b := x;
      assert s == {x};
    } else {
      b := LineTop(commits, id, s - {x});
      assert LineOk(commits, b);
      assert forall a :: a in s ==> a == x || a in s - {x};
      if x !in commits[b].history { b := x; }
    }
  }

  /** None of the client's unpushed commits writes any of these files. */
  ghost predicate NotOwn(w: World, head: nat, files: Tree)
    requires head in w.commits
  {
    forall b, p :: b in w.commits[head].history && b !in w.remote && b in w.commits && p in files ==> p !in w.commits[b].files
  }

  /** Finding nothing to change, unless one of the client's own unpushed commits wrote a path of the files,
      is right: a commit the remote has held has all of them. */
  lemma UnchangedHeld(w: World, c: nat, w': World) returns (b: nat)
    requires Inv(w) && Step(w, Unchanged(c)) == Some(w')
    requires ClientOf(w, c).Applying? && ClientOf(w, c).head.Some? && ClientOf(w, c).head.value in w.commits
    requires NotOwn(w, ClientOf(w, c).head.value, ClientOf(w, c).files)
    ensures b in w.remote && b in w.commits && Holds(w.commits[b].tree, ClientOf(w, c).files)
  {
    hide CommitsOk, RemoteOk, ReleasesOk, OwnCommits, LeaseOk, Good, Archives, Holds, NotOwn;
    var client := ClientOf(w, c);
    assert ClientOk(w.commits, w.remote, w.releases, c, client);
    NothingAdded(w.commits[client.head.value].tree, client.files);
    b := HeldAncestor(w, client.head.value, client.files);
  }

  lemma NothingAdded(t: Tree, files: Tree)
    requires t + files == t && Good(files)
    ensures Holds(t, files) && files != map[]
  {
    assert forall p :: p in files ==> (t + files)[p] == files[p];
  }

  lemma HeldAncestor(w: World, head: nat, files: Tree) returns (b: nat)
    requires CommitsOk(w.commits) && RemoteOk(w.commits, w.remote, w.tip) && head in w.commits
    requires files != map[] && Holds(w.commits[head].tree, files) && NotOwn(w, head, files)
    ensures b in w.remote && b in w.commits && Holds(w.commits[b].tree, files)
  {
    hide CommitsOk, RemoteOk, NotOwn;
    var pushed := w.commits[head].history * w.remote;
    SomePushed(w, head, files);
    b := LineTop(w.commits, head, pushed);
    forall p | p in files
      ensures p in w.commits[b].tree && w.commits[b].tree[p] == files[p]
    {
      SameSince(w, head, b, files, p);
    }
  }

  lemma SomePushed(w: World, head: nat, files: Tree)
    requires CommitsOk(w.commits) && head in w.commits
    requires files != map[] && Holds(w.commits[head].tree, files) && NotOwn(w, head, files)
    ensures w.commits[head].history * w.remote != {}
  {
    hide HasLe, Archives, SameAt, Untouched;
    assert LineOk(w.commits, head) && ContentOk(w.commits, head);
    var p :| p in files;
    assert Written(w.commits, head, p);
    var a :| a in w.commits[head].history && p in w.commits[a].files;
    assert a in w.commits[head].history * w.remote;
  }

  /** A pushed commit the other pushed ancestors lead to agrees with the head where no own commit writes. */
  lemma SameSince(w: World, head: nat, b: nat, files: Tree, p: Path)
    requires CommitsOk(w.commits) && head in w.commits && b in w.commits && b in w.commits[head].history
    requires forall a :: a in w.commits[head].history * w.remote ==> a in w.commits[b].history
    requires NotOwn(w, head, files) && p in files
    ensures SameAt(w.commits[b].tree, w.commits[head].tree, p)
  {
    hide HasLe, Archives, SameAt, Written;
    assert LineOk(w.commits, head) && ContentOk(w.commits, head);
    forall d | d in w.commits[head].history && d !in w.commits[b].history
      ensures p !in w.commits[d].files
    {
      assert d !in w.commits[head].history * w.remote;
    }
    assert Untouched(w.commits, b, head, p);
  }

  /** So, whatever has happened to the branch since the checkout, the call's runs are on the tip. */
  lemma UnchangedHolds(w: World, c: nat, w': World, workflow: string, runId: int)
    requires Inv(w) && Kept(w) && Step(w, Unchanged(c)) == Some(w')
    requires ClientOf(w, c).Applying? && ClientOf(w, c).head.Some? && ClientOf(w, c).head.value in w.commits
    requires NotOwn(w, ClientOf(w, c).head.value, ClientOf(w, c).files)
    requires Records(ClientOf(w, c).files, workflow, runId)
    ensures w'.tip.Some? && Has(TreeAt(w', w'.tip), workflow, runId)
  {
    hide CommitsOk, ReleasesOk, OwnCommits, Has, Good;
    var client := ClientOf(w, c);
    assert ClientOk(w.commits, w.remote, w.releases, c, client);
    var b := UnchangedHeld(w, c, w');
    HoldsHas(w.commits[b].tree, client.files, workflow, runId);
    assert HasLe(w.commits[b].tree, TreeAt(w, w.tip));
  }

  // ---- rotation

  /** A step of a `rotate` call. */
  predicate IsRotation(a: Action) {
    a.StartRotation? || a.Plan? || a.Release? || a.ReleaseLost? || a.Reuse? || a.Lease? || a.LeaseFails? || a.Rename?
    || a.Under? || a.RefuseUndated? || a.RefuseYear? || a.RefuseTag? || a.RefuseChanged? || a.Fail?
  }

  ghost predicate TookYear(before: Tree, after: Tree, releases: Releases, year: int) {
    Tag(year) in releases && TakesOldest(before, after, releases[Tag(year)], year)
  }

  /** A leased push that takes effect takes from the tip exactly the files of its oldest dated year: they
      are the year's release, every other file stays as it is, and the index lists what has left. */
  lemma LeaseTakesOldest(w: World, c: nat, reported: bool, w': World)
    requires Inv(w) && Step(w, Lease(c, reported)) == Some(w')
    ensures ClientOf(w, c).Leasing? && w.tip.Some? && w'.tip.Some?
    ensures TookYear(TreeAt(w, w.tip), TreeAt(w', w'.tip), w.releases, ClientOf(w, c).year)
  {
    hide CommitsOk, ReleasesOk, RemoteOk, OwnCommits, Good, Rotated, Archive, Archives, IsOldest, TakesOldest, Tag;
    LeaseOnto(w, c, reported, w');
    assert ClientOk(w.commits, w.remote, w.releases, c, ClientOf(w, c));
    RotationTakes(TreeAt(w, w.tip), ClientOf(w, c).year);
  }

  /** So it is with every leased push of every run from the empty remote. */
  lemma {:induction false} EveryLeaseTakesOldest(before: seq<Action>, w: World, c: nat, reported: bool, w': World)
    requires Run(START, before) == Some(w) && Step(w, Lease(c, reported)) == Some(w')
    ensures ClientOf(w, c).Leasing? && w.tip.Some? && w'.tip.Some?
    ensures TookYear(TreeAt(w, w.tip), TreeAt(w', w'.tip), w.releases, ClientOf(w, c).year)
  {
    hide Run, Step, Inv, TookYear, TreeAt;
    StartInv();
    Reachable(START, before, w);
    LeaseTakesOldest(w, c, reported, w');
  }

  /** No step of a rotation, whether its push wins, loses or is misreported and wherever it stops,
      changes the multiset of records `records()` reports; the branch stays as it is or loses the whole
      of its oldest dated year to a release. */
  lemma RotationAllOrNothing(w: World, a: Action, w': World, r: Record)
    requires Inv(w) && IsRotation(a) && Step(w, a) == Some(w') && w.tip.Some?
    ensures w'.tip.Some? && AllReadable(TreeAt(w, w.tip), w.releases) && AllReadable(TreeAt(w', w'.tip), w'.releases)
    ensures Reported(TreeAt(w', w'.tip), w'.releases, r) == Reported(TreeAt(w, w.tip), w.releases, r)
    ensures w'.tip == w.tip || (a.Lease? && ClientOf(w, a.c).Leasing? && w.tip == Some(ClientOf(w, a.c).tip)
              && TookYear(TreeAt(w, w.tip), TreeAt(w', w'.tip), w.releases, ClientOf(w, a.c).year))
  {
    hide Step, TakesOldest, Tag, ClientOk, CommitsOk, RemoteOk, AllReadable, Archives, Rotated, Archive, Reported, ArchivedCopies;
    StepInv(w, a, w');
    StepGrows(w, a, w');
    TipReadable(w);
    var t := TreeAt(w, w.tip);
    if a.Lease? {
      LeaseOnto(w, a.c, a.reported, w');
      RotationConserves(t, ClientOf(w, a.c).year, w.releases, r);
      LeaseTakesOldest(w, a.c, a.reported, w');
    } else {
      ReportedGrows(t, w.releases, w'.releases, r);
    }
    TipReadable(w');
  }

  lemma TipReadable(w: World)
    requires Inv(w) && w.tip.Some?
    ensures w.tip.value in w.commits && AllReadable(TreeAt(w, w.tip), w.releases)
  {
    hide CommitsOk, ClientOk, AllReadable;
  }

  lemma ReportedGrows(t: Tree, releases: Releases, releases': Releases, r: Record)
    requires AllReadable(t, releases) && ReleasesGrow(releases, releases')
    ensures AllReadable(t, releases') && Reported(t, releases', r) == Reported(t, releases, r)
  {
    hide Archives, Copies;
    ArchivedCopiesGrow(Archives(t).value, releases, releases', r);
  }
}
