/** A year is released at most once: after the call that released it has ended, no call can rotate it. */
module HistorySpent {
  import opened Wrappers
  import opened HistoryFiles
  import opened HistoryProtocol
  import opened History
  import opened HistoryCalls

  /** What the client's call has released. */
  ghost function ReleasedOf(client: Client): Releases {
    if Rotating(client) then client.released else map[]
  }

  /** The tag is released, and by no call still going on. */
  ghost predicate Spent(w: World, tag: string) {
    tag in w.releases && forall c :: tag !in ReleasedOf(ClientOf(w, c))
  }

  /** No two calls going on have released one tag. */
  ghost predicate OwnReleases(w: World) {
    forall c, d, tag :: tag in ReleasedOf(ClientOf(w, c)) && tag in ReleasedOf(ClientOf(w, d)) ==> c == d
  }

  /** A step releases for its client only what was not released before, or nothing. */
  lemma StepReleases(w: World, a: Action, w': World, tag: string)
    requires Inv(w) && Step(w, a) == Some(w') && tag in ReleasedOf(ClientOf(w', a.c))
    ensures tag in ReleasedOf(ClientOf(w, a.c)) || tag !in w.releases
  {
    hide Inv, Good, IsOldest, Rotated, Archive, Archives, NoneDated, Tag;
  }

  lemma ReleasedIsRelease(w: World, c: nat, tag: string)
    requires Inv(w) && tag in ReleasedOf(ClientOf(w, c))
    ensures tag in w.releases
  {
    hide CommitsOk, ReleasesOk, RemoteOk, OwnCommits, LeaseOk, Good;
    assert ClientOk(w.commits, w.remote, w.releases, c, ClientOf(w, c));
  }

  lemma OwnReleasesStep(w: World, a: Action, w': World)
    requires Inv(w) && OwnReleases(w) && Step(w, a) == Some(w')
    ensures OwnReleases(w')
  {
    hide Inv, Step, ReleasedOf;
    forall c, d, tag | tag in ReleasedOf(ClientOf(w', c)) && tag in ReleasedOf(ClientOf(w', d)) && c != d
      ensures false
    {
      if c != a.c { StepOthers(w, a, w', c); ReleasedIsRelease(w, c, tag); }
      if d != a.c { StepOthers(w, a, w', d); ReleasedIsRelease(w, d, tag); }
      if c == a.c || d == a.c { StepReleases(w, a, w', tag); }
    }
  }

  lemma {:induction false} OwnReleasesRun(w: World, actions: seq<Action>, w': World)
    requires Inv(w) && OwnReleases(w) && Run(w, actions) == Some(w')
    ensures Inv(w') && OwnReleases(w')
    decreases |actions|
  {
    hide Inv, Step, OwnReleases;
    if actions != [] {
      var next := Step(w, actions[0]).value;
      StepInv(w, actions[0], next);
      OwnReleasesStep(w, actions[0], next);
      OwnReleasesRun(next, actions[1..], w');
    }
  }

  lemma StartOwnReleases()
    ensures OwnReleases(START)
  {
  }

  // ---- how a tag is spent

  /** A call that ends, in whatever way, spends every tag it released. */
  lemma EndSpends(w: World, a: Action, w': World, tag: string)
    requires Inv(w) && OwnReleases(w) && Step(w, a) == Some(w') && ClientOf(w', a.c).Idle?
    requires tag in ReleasedOf(ClientOf(w, a.c))
    ensures Spent(w', tag)
  {
    hide Inv, Step;
    ReleasedIsRelease(w, a.c, tag);
    StepGrows(w, a, w');
    forall c
      ensures tag !in ReleasedOf(ClientOf(w', c))
    {
      if c != a.c { StepOthers(w, a, w', c); }
    }
  }

  /** So in every run from the empty remote. */
  lemma {:induction false} EveryEndSpends(before: seq<Action>, w: World, a: Action, w': World, tag: string)
    requires Run(START, before) == Some(w) && Step(w, a) == Some(w') && ClientOf(w', a.c).Idle?
    requires tag in ReleasedOf(ClientOf(w, a.c))
    ensures Spent(w', tag)
  {
    hide Inv, Run, Step, OwnReleases;
    StartInv();
    StartOwnReleases();
    OwnReleasesRun(START, before, w);
    EndSpends(w, a, w', tag);
  }

  /** So does a release whose creation is reported failed. */
  lemma LostReleaseSpends(w: World, c: nat, w': World)
    requires Inv(w) && Step(w, ReleaseLost(c)) == Some(w')
    ensures ClientOf(w, c).Releasing? && Spent(w', Tag(ClientOf(w, c).year))
    ensures w'.tip == w.tip && ClientOf(w', c).Idle? && ClientOf(w', c).ended == Raised(CommandFailed)
  {
    hide Inv, Step, Tag;
    var tag := ReleaseLostTag(w, c, w');
    forall d
      ensures tag !in ReleasedOf(ClientOf(w', d))
    {
      if d != c {
        StepOthers(w, ReleaseLost(c), w', d);
        if tag in ReleasedOf(ClientOf(w, d)) { ReleasedIsRelease(w, d, tag); }
      }
    }
  }

  lemma ReleaseLostTag(w: World, c: nat, w': World) returns (tag: string)
    requires Step(w, ReleaseLost(c)) == Some(w')
    ensures ClientOf(w, c).Releasing? && tag == Tag(ClientOf(w, c).year) && tag !in w.releases && tag in w'.releases
    ensures ClientOf(w', c).Idle? && ClientOf(w', c).ended == Raised(CommandFailed) && w'.tip == w.tip
  {
    hide Good, IsOldest, Archive, Archives, Rotated, NoneDated, Tag;
    tag := Tag(ClientOf(w, c).year);
  }

  // ---- what stays impossible

  /** No step leases a spent tag, returns it, or makes it unspent. */
  lemma SpentStep(w: World, a: Action, w': World, tag: string)
    requires Inv(w) && Spent(w, tag) && Step(w, a) == Some(w')
    ensures Spent(w', tag)
    ensures a.Lease? ==> ClientOf(w, a.c).Leasing? && Tag(ClientOf(w, a.c).year) != tag
    ensures forall c :: Returned(ClientOf(w', c), tag) ==> Returned(ClientOf(w, c), tag)
  {
    hide Inv, Step, ReleasedOf, Tag;
    StepGrows(w, a, w');
    forall c
      ensures tag !in ReleasedOf(ClientOf(w', c)) && (Returned(ClientOf(w', c), tag) ==> Returned(ClientOf(w, c), tag))
    {
      if c != a.c {
        StepOthers(w, a, w', c);
      } else {
        if tag in ReleasedOf(ClientOf(w', c)) { StepReleases(w, a, w', tag); }
        LeasesReleased(w, a, w');
      }
    }
    LeasesReleased(w, a, w');
  }

  /** The client's last call returned this tag. */
  ghost predicate Returned(client: Client, tag: string) {
    client.Idle? && client.ended == Tagged(tag)
  }

  /** What a call leases or returns it has released. */
  lemma LeasesReleased(w: World, a: Action, w': World)
    requires Inv(w) && Step(w, a) == Some(w')
    ensures a.Lease? ==> ClientOf(w, a.c).Leasing? && Tag(ClientOf(w, a.c).year) in ReleasedOf(ClientOf(w, a.c))
    ensures forall tag :: Returned(ClientOf(w', a.c), tag) ==>
      Returned(ClientOf(w, a.c), tag) || tag in ReleasedOf(ClientOf(w, a.c))
  {
    hide CommitsOk, ReleasesOk, RemoteOk, OwnCommits, LeaseOk, Good, IsOldest, Rotated, Archive, Archives, NoneDated, Tag;
    assert ClientOk(w.commits, w.remote, w.releases, a.c, ClientOf(w, a.c));
  }

  /** In every run from a world where a tag is spent it stays spent, and no call returns it anew. */
  lemma {:induction false} SpentForever(w: World, actions: seq<Action>, w': World, tag: string)
    requires Inv(w) && Spent(w, tag) && Run(w, actions) == Some(w')
    ensures Inv(w') && Spent(w', tag)
    ensures forall c :: Returned(ClientOf(w', c), tag) ==> Returned(ClientOf(w, c), tag)
    decreases |actions|
  {
    hide Inv, Step, Spent, Returned;
    if actions != [] {
      var next := Step(w, actions[0]).value;
      StepInv(w, actions[0], next);
      SpentStep(w, actions[0], next, tag);
      SpentForever(next, actions[1..], w', tag);
    }
  }

  /** No whole call of `rotate` begun then returns the tag, and none of its steps leases it. */
  lemma {:induction false} SpentCall(w: World, actions: seq<Action>, w': World, c: nat, tag: string)
    requires Inv(w) && Spent(w, tag) && Run(w, actions) == Some(w') && IsRotateCall(actions, c) && ClientOf(w', c).Idle?
    ensures ClientOf(w', c).ended != Tagged(tag)
  {
    hide Inv, Step, Run, Spent;
    Started(w, actions, c);
    var next := Step(w, actions[0]).value;
    StepInv(w, actions[0], next);
    SpentStep(w, actions[0], next, tag);
    SpentForever(next, actions[1..], w', tag);
  }

  lemma SpentLease(w: World, actions: seq<Action>, w': World, i: nat, tag: string) returns (u: World, v: World)
    requires Inv(w) && Spent(w, tag) && Run(w, actions) == Some(w') && i < |actions| && actions[i].Lease?
    ensures Run(w, actions[..i]) == Some(u) && Step(u, actions[i]) == Some(v)
    ensures ClientOf(u, actions[i].c).Leasing? && Tag(ClientOf(u, actions[i].c).year) != tag
  {
    hide Inv, Step, Run, Spent, Tag;
    u, v := RunSplits(w, actions, w', i);
    SpentForever(w, actions[..i], u, tag);
    SpentStep(u, actions[i], v, tag);
  }

  /** A call that has chosen a year whose tag is spent can only raise next. */
  lemma SpentRaises(w: World, a: Action, w': World, tag: string)
    requires Inv(w) && Spent(w, tag) && Step(w, a) == Some(w') && !Between(a)
    requires ClientOf(w, a.c).Releasing? && Tag(ClientOf(w, a.c).year) == tag
    ensures a.RefuseTag? || a.Fail?
    ensures ClientOf(w', a.c).Idle? && ClientOf(w', a.c).ended == Raised(if a.RefuseTag? then TagTaken else CommandFailed)
    ensures w'.tip == w.tip
  {
    hide Inv, Good, IsOldest, Rotated, Archive, Archives, NoneDated, Tag;
    assert tag !in ReleasedOf(ClientOf(w, a.c));
  }
}
