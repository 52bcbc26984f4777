/** How whole calls of `rotate` and `commit_files` end, and how often each moves the branch. */
module HistoryCalls {
  import opened Wrappers
  import opened HistoryFiles
  import opened HistoryProtocol
  import opened History

  /** An action that begins a call or stands between calls. */
  predicate Between(a: Action) {
    a.Open? || a.Call? || a.StartRotation?
  }

  /** Client `c` begins no call and opens nothing in these actions; the other clients do as they like. */
  predicate Within(actions: seq<Action>, c: nat) {
    forall i :: 0 <= i < |actions| ==> !(actions[i].c == c && Between(actions[i]))
  }

  /** The actions of every client while `c` makes one call of `rotate`. */
  predicate IsRotateCall(actions: seq<Action>, c: nat) {
    actions != [] && actions[0] == StartRotation(c) && Within(actions[1..], c)
  }

  /** The actions of every client while `c` makes one call of `commit_files`. */
  predicate IsWriteCall(actions: seq<Action>, c: nat) {
    actions != [] && actions[0].Call? && actions[0].c == c && Within(actions[1..], c)
  }

  /** How many steps of `c` moved the tip. */
  ghost function Moves(w: World, actions: seq<Action>, c: nat): nat
    requires Run(w, actions).Some?
    decreases |actions|
  {
    if actions == [] then 0 else
    var w' := Step(w, actions[0]).value;
    (if actions[0].c == c && w'.tip != w.tip then 1 else 0) + Moves(w', actions[1..], c)
  }

  /** A push of `c` that takes effect, plain or leased, and whether it is reported so. */
  predicate IsPush(a: Action, c: nat, reported: bool) {
    a.c == c && (a.Push? || a.Lease?) && a.reported == reported
  }

  /** How many pushes of `c` took effect and were reported as given. */
  ghost function Pushes(actions: seq<Action>, c: nat, reported: bool): nat {
    if actions == [] then 0
    else (if IsPush(actions[0], c, reported) then 1 else 0) + Pushes(actions[1..], c, reported)
  }

  /** The steps of `c` alone. */
  function Own(actions: seq<Action>, c: nat): (own: seq<Action>)
    ensures forall a :: a in own ==> a.c == c
  {
    if actions == [] then []
    else (if actions[0].c == c then [actions[0]] else []) + Own(actions[1..], c)
  }

  /** The last two steps are these. */
  predicate EndsIn(own: seq<Action>, a: Action, b: Action) {
    |own| >= 2 && own[|own| - 2] == a && own[|own| - 1] == b
  }

  // ---- one step

  /** A client's step moves the tip exactly when it is a push that takes effect. */
  lemma MovesOnPush(w: World, a: Action, w': World)
    requires Inv(w) && Step(w, a) == Some(w')
    ensures w'.tip != w.tip <==> a.Push? || a.Lease?
  {
    hide CommitsOk, ReleasesOk, OwnCommits, LeaseOk, Good, IsOldest, Rotated, Archive, Archives, NoneDated;
    assert ClientOk(w.commits, w.remote, w.releases, a.c, ClientOf(w, a.c));
  }

  ghost predicate Rotating(client: Client) {
    client.Opening? || client.Releasing? || client.Leasing? || client.Renaming?
  }

  ghost predicate Writing(client: Client) {
    client.Applying? || client.Pushing? || client.Refetching? || client.Naming?
  }

  /** A push of the call was reported, and the call has not returned yet. */
  ghost predicate Waiting(client: Client) {
    client.Naming? || (client.Renaming? && client.pushed)
  }

  /** The call has returned the commit or the tag. */
  ghost predicate Reported(client: Client) {
    client.Idle? && (client.ended.Pushed? || client.ended.Tagged?)
  }

  /** The call has ended some other way: it returned None or raised. */
  ghost predicate Unreported(client: Client) {
    client.Idle? && (client.ended.Nothing? || client.ended.Raised?)
  }

  predicate IsReturn(a: Action) {
    a.Name? || a.Rename?
  }

  /** After a reported push one more step ends the call: with the commit or the tag, unless a command fails. */
  lemma WaitingEnds(w: World, a: Action, w': World)
    requires Step(w, a) == Some(w') && Waiting(ClientOf(w, a.c))
    ensures ClientOf(w', a.c).Idle? && !a.Push? && !a.Lease?
    ensures Reported(ClientOf(w', a.c)) <==> IsReturn(a)
    ensures Unreported(ClientOf(w', a.c)) <==> a.Fail? || a.NameFails?
    ensures Rotating(ClientOf(w, a.c)) ==> a.Rename? || a.Fail?
    ensures Writing(ClientOf(w, a.c)) ==> a.Name? || a.NameFails? || a.Fail?
    ensures Rotating(ClientOf(w, a.c)) && Reported(ClientOf(w', a.c)) ==> ClientOf(w', a.c).ended.Tagged?
    ensures Writing(ClientOf(w, a.c)) && Reported(ClientOf(w', a.c)) ==> ClientOf(w', a.c).ended.Pushed?
    ensures a.Fail? ==> ClientOf(w', a.c).ended == Raised(CommandFailed)
  {
    hide Good, IsOldest, Rotated, Archive, Archives, NoneDated, Tag;
  }

  /** Any other step inside a call ends it without a report or stays in it; a report is waited for exactly
      after a push that takes effect and is reported. */
  lemma StepEnds(w: World, a: Action, w': World)
    requires Step(w, a) == Some(w') && !Between(a)
    ensures !ClientOf(w, a.c).Idle?
    ensures !Waiting(ClientOf(w, a.c)) ==>
      && (Waiting(ClientOf(w', a.c)) <==> IsPush(a, a.c, true))
      && (|| Unreported(ClientOf(w', a.c))
          || (Rotating(ClientOf(w, a.c)) && Rotating(ClientOf(w', a.c)))
          || (Writing(ClientOf(w, a.c)) && Writing(ClientOf(w', a.c))))
  {
    hide Good, IsOldest, Rotated, Archive, Archives, NoneDated, Tag;
  }

  lemma StepOthers(w: World, a: Action, w': World, c: nat)
    requires Step(w, a) == Some(w') && a.c != c
    ensures ClientOf(w', c) == ClientOf(w, c)
  {
    hide Good, IsOldest, Rotated, Archive, Archives, NoneDated, Tag;
  }

  // ---- whole calls

  /** Between calls a client takes no step of one. */
  lemma {:induction false} IdleStays(w: World, actions: seq<Action>, w': World, c: nat)
    requires Run(w, actions) == Some(w') && Within(actions, c) && ClientOf(w, c).Idle?
    ensures ClientOf(w', c) == ClientOf(w, c) && Own(actions, c) == []
    decreases |actions|
  {
    hide Step;
    if actions != [] {
      var a, next := actions[0], Step(w, actions[0]).value;
      if a.c == c { StepEnds(w, a, next); }
      StepOthers(w, a, next, c);
      WithinTail(actions, c);
      IdleStays(next, actions[1..], w', c);
    }
  }

  lemma WithinTail(actions: seq<Action>, c: nat)
    requires Within(actions, c) && actions != []
    ensures Within(actions[1..], c) && (actions[0].c == c ==> !Between(actions[0]))
  {
    assert forall i :: 0 <= i < |actions| - 1 ==> actions[1..][i] == actions[i + 1];
  }

  lemma {:induction false} PushesOwn(actions: seq<Action>, c: nat, reported: bool)
    ensures Pushes(actions, c, reported) == Pushes(Own(actions, c), c, reported)
  {
    if actions != [] {
      PushesOwn(actions[1..], c, reported);
      var tail := Own(actions[1..], c);
      if actions[0].c == c {
        assert ([actions[0]] + tail)[1..] == tail;
      } else {
        assert [] + tail == tail;
      }
    }
  }

  lemma {:induction false} PushesCons(a: Action, own: seq<Action>, c: nat, reported: bool)
    ensures Pushes([a] + own, c, reported) == (if IsPush(a, c, reported) then 1 else 0) + Pushes(own, c, reported)
  {
    assert ([a] + own)[1..] == own;
  }

  /** Over any stretch of any run, a client moves the tip once per push of its that takes effect. */
  lemma {:induction false} MovesArePushes(w: World, actions: seq<Action>, w': World, c: nat)
    requires Inv(w) && Run(w, actions) == Some(w')
    ensures Moves(w, actions, c) == Pushes(actions, c, true) + Pushes(actions, c, false)
    decreases |actions|
  {
    hide Inv, Step;
    if actions != [] {
      var next := Step(w, actions[0]).value;
      StepInv(w, actions[0], next);
      MovesOnPush(w, actions[0], next);
      MovesArePushes(next, actions[1..], w', c);
    }
  }

  /** The last step but one is a push that takes effect and is reported. */
  predicate PushedLast(own: seq<Action>, c: nat) {
    |own| >= 2 && IsPush(own[|own| - 2], c, true)
  }

  /** How a call ends, by the client's own steps `own` from inside it: a push is reported at most once, and
      then one more step ends the call, with a report exactly if that step returns. */
  ghost predicate Ends(client: Client, own: seq<Action>, after: Client, c: nat) {
    && after.Idle? && own != []
    && (Reported(after) || Unreported(after))
    && (Rotating(client) && Reported(after) ==> after.ended.Tagged? && own[|own| - 1].Rename?)
    && (Writing(client) && Reported(after) ==> after.ended.Pushed? && own[|own| - 1].Name?)
    && (if Waiting(client) then
          && |own| == 1 && !own[0].Push? && !own[0].Lease? && (Reported(after) <==> IsReturn(own[0]))
          && (Rotating(client) ==> own[0].Rename? || own[0].Fail?)
          && (Unreported(after) ==> own[0].Fail? || own[0].NameFails?)
        else
          && Pushes(own, c, true) == (if PushedLast(own, c) then 1 else 0)
          && (Reported(after) <==> PushedLast(own, c) && IsReturn(own[|own| - 1]))
          && (PushedLast(own, c) && Rotating(client) ==> own[|own| - 1].Rename? || own[|own| - 1].Fail?)
          && (PushedLast(own, c) && Unreported(after) ==> own[|own| - 1].Fail? || own[|own| - 1].NameFails?))
  }

  lemma {:induction false} CallEnds(w: World, actions: seq<Action>, w': World, c: nat)
    requires Run(w, actions) == Some(w') && Within(actions, c)
    requires !ClientOf(w, c).Idle? && ClientOf(w', c).Idle?
    ensures Ends(ClientOf(w, c), Own(actions, c), ClientOf(w', c), c)
    decreases |actions|
  {
    hide Step, Ends;
    var a, next := actions[0], Step(w, actions[0]).value;
    WithinTail(actions, c);
    if a.c != c {
      StepOthers(w, a, next, c);
      CallEnds(next, actions[1..], w', c);
      assert [] + Own(actions[1..], c) == Own(actions[1..], c);
    } else if ClientOf(next, c).Idle? {
      IdleStays(next, actions[1..], w', c);
      assert Own(actions, c) == [a] + [] == [a];
      LastStep(w, a, next);
    } else {
      CallEnds(next, actions[1..], w', c);
      MoreSteps(w, a, next, Own(actions[1..], c), ClientOf(w', c));
    }
  }

  lemma LastStep(w: World, a: Action, w': World)
    requires Step(w, a) == Some(w') && !Between(a) && ClientOf(w', a.c).Idle?
    ensures Ends(ClientOf(w, a.c), [a], ClientOf(w', a.c), a.c)
  {
    hide Step;
    StepEnds(w, a, w');
    if Waiting(ClientOf(w, a.c)) { WaitingEnds(w, a, w'); }
    PushesCons(a, [], a.c, true);
    assert [a] + [] == [a];
  }

  lemma MoreSteps(w: World, a: Action, next: World, own: seq<Action>, after: Client)
    requires Step(w, a) == Some(next) && !Between(a) && !ClientOf(next, a.c).Idle?
    requires Ends(ClientOf(next, a.c), own, after, a.c)
    ensures Ends(ClientOf(w, a.c), [a] + own, after, a.c)
  {
    hide Step, Pushes;
    StepEnds(w, a, next);
    if Waiting(ClientOf(w, a.c)) { WaitingEnds(w, a, next); }
    PushesCons(a, own, a.c, true);
    if Waiting(ClientOf(next, a.c)) { NoPush(own, a.c); }
    assert ([a] + own)[|own|] == own[|own| - 1];
    if |own| >= 2 { assert ([a] + own)[|own| - 1] == own[|own| - 2]; } else { assert ([a] + own)[|own| - 1] == a; }
  }

  lemma {:induction false} NoPush(own: seq<Action>, c: nat)
    requires |own| == 1 && !own[0].Push? && !own[0].Lease?
    ensures Pushes(own, c, true) == 0
  {
    assert own[1..] == [];
  }

  /** One whole call of `rotate`, whatever the other clients do meanwhile. It returns a tag exactly if its last
      steps are a push that takes effect and is reported and the rename after it, and it moves the branch
      once for every push that takes effect. So a call that raises or returns None has moved the branch if
      and only if a push in it took effect and was reported failed, or its last push took effect, was
      reported, and the command after it failed. */
  lemma {:induction false} RotateCall(w: World, actions: seq<Action>, w': World, c: nat)
    requires Inv(w) && Run(w, actions) == Some(w') && IsRotateCall(actions, c) && ClientOf(w', c).Idle?
    ensures var ended, own := ClientOf(w', c).ended, Own(actions, c);
      && (ended.Tagged? || ended.Nothing? || ended.Raised?)
      && (ended.Tagged? <==> EndsIn(own, Lease(c, true), Rename(c)))
      && Moves(w, actions, c) == Pushes(own, c, false)
           + (if EndsIn(own, Lease(c, true), Rename(c)) || EndsIn(own, Lease(c, true), Fail(c)) then 1 else 0)
      && (!ended.Tagged? ==>
            (Moves(w, actions, c) > 0 <==> Lease(c, false) in own || EndsIn(own, Lease(c, true), Fail(c))))
  {
    hide Inv, Step, Pushes, Run;
    var next, inner := InnerCall(w, actions, w', c);
    OnlyRotates(next, actions[1..], w', c);
    var own := Own(actions, c);
    assert forall a :: a in inner ==> IsRotation(a);
    assert forall a :: a in own ==> IsRotation(a) by { assert forall a :: a in own <==> a == actions[0] || a in inner; }
    LeaseCounts(own, c);
    PushesOwn(actions, c, true);
    PushesOwn(actions, c, false);
    MovesArePushes(w, actions, w', c);
    RotateEnds(own, c);
  }

  /** The call seen from its first step on, and how it ends by its own steps. */
  lemma InnerCall(w: World, actions: seq<Action>, w': World, c: nat) returns (next: World, inner: seq<Action>)
    requires Run(w, actions) == Some(w') && ClientOf(w', c).Idle? && (IsRotateCall(actions, c) || IsWriteCall(actions, c))
    ensures Step(w, actions[0]) == Some(next) && Run(next, actions[1..]) == Some(w') && Within(actions[1..], c)
    ensures inner == Own(actions[1..], c) && Own(actions, c) == [actions[0]] + inner
    ensures if actions[0].Call? then Writing(ClientOf(next, c)) else Rotating(ClientOf(next, c))
    ensures Ends(ClientOf(next, c), inner, ClientOf(w', c), c) && !Waiting(ClientOf(next, c))
    ensures Pushes(Own(actions, c), c, true) == Pushes(inner, c, true)
    ensures PushedLast(Own(actions, c), c) <==> PushedLast(inner, c)
    ensures inner != [] && Own(actions, c)[|Own(actions, c)| - 1] == inner[|inner| - 1]
  {
    hide Step, Pushes;
    Started(w, actions, c);
    next, inner := Step(w, actions[0]).value, Own(actions[1..], c);
    CallEnds(next, actions[1..], w', c);
    var own := Own(actions, c);
    assert own == [actions[0]] + inner;
    PushesCons(actions[0], inner, c, true);
    if |inner| >= 2 { assert own[|own| - 2] == inner[|inner| - 2]; } else { assert own[|own| - 2] == actions[0]; }
  }

  lemma RotateEnds(own: seq<Action>, c: nat)
    requires (forall a :: a in own ==> a.c == c && IsRotation(a))
    requires PushedLast(own, c) ==> own[|own| - 1].Rename? || own[|own| - 1].Fail?
    ensures PushedLast(own, c) <==> EndsIn(own, Lease(c, true), Rename(c)) || EndsIn(own, Lease(c, true), Fail(c))
    ensures PushedLast(own, c) && IsReturn(own[|own| - 1]) <==> EndsIn(own, Lease(c, true), Rename(c))
  {
    if |own| >= 2 { assert own[|own| - 2] in own && own[|own| - 1] in own; }
  }

  /** One whole call of `commit_files`, in the same way: it can also return None after a reported push, when
      the pushed commit is not found. */
  lemma {:induction false} WriteCall(w: World, actions: seq<Action>, w': World, c: nat)
    requires Inv(w) && Run(w, actions) == Some(w') && IsWriteCall(actions, c) && ClientOf(w', c).Idle?
    ensures var ended, own := ClientOf(w', c).ended, Own(actions, c);
      && (ended.Pushed? || ended.Nothing? || ended.Raised?)
      && (ended.Pushed? <==> PushedLast(own, c) && own[|own| - 1] == Name(c))
      && Moves(w, actions, c) == Pushes(own, c, false) + (if PushedLast(own, c) then 1 else 0)
      && (!ended.Pushed? && PushedLast(own, c) ==> own[|own| - 1] == Fail(c) || own[|own| - 1] == NameFails(c))
  {
    hide Inv, Step, Pushes, Run;
    var next, inner := InnerCall(w, actions, w', c);
    var own := Own(actions, c);
    assert own[|own| - 1] in own;
    PushesOwn(actions, c, true);
    PushesOwn(actions, c, false);
    MovesArePushes(w, actions, w', c);
  }

  lemma {:induction false} Started(w: World, actions: seq<Action>, c: nat)
    requires Run(w, actions).Some? && (IsRotateCall(actions, c) || IsWriteCall(actions, c))
    ensures Step(w, actions[0]).Some? && Run(Step(w, actions[0]).value, actions[1..]) == Run(w, actions)
    ensures var client := ClientOf(Step(w, actions[0]).value, c);
            if actions[0].Call? then client.Applying? else client.Opening?
  {
    hide Good;
  }

  /** Inside a call of `rotate` every step of the client is one of a rotation. */
  lemma {:induction false} OnlyRotates(w: World, actions: seq<Action>, w': World, c: nat)
    requires Run(w, actions) == Some(w') && Within(actions, c) && (Rotating(ClientOf(w, c)) || ClientOf(w, c).Idle?)
    ensures forall a :: a in Own(actions, c) ==> IsRotation(a)
    decreases |actions|
  {
    hide Step;
    if actions != [] {
      var a, next := actions[0], Step(w, actions[0]).value;
      WithinTail(actions, c);
      if a.c == c {
        StepEnds(w, a, next);
        RotatesWhile(w, a, next);
        if Waiting(ClientOf(w, c)) { WaitingEnds(w, a, next); }
      } else {
        StepOthers(w, a, next, c);
      }
      OnlyRotates(next, actions[1..], w', c);
    }
  }

  lemma RotatesWhile(w: World, a: Action, w': World)
    requires Step(w, a) == Some(w') && Rotating(ClientOf(w, a.c))
    ensures IsRotation(a)
  {
    hide Good, IsOldest, Rotated, Archive, Archives, NoneDated, Tag;
  }

  lemma {:induction false} LeaseCounts(own: seq<Action>, c: nat)
    requires forall a :: a in own ==> a.c == c && IsRotation(a)
    ensures Pushes(own, c, false) > 0 <==> Lease(c, false) in own
  {
    if own != [] {
      assert own == [own[0]] + own[1..];
      LeaseCounts(own[1..], c);
    }
  }

  lemma {:induction false} OwnHolds(actions: seq<Action>, c: nat, i: nat)
    requires i < |actions| && actions[i].c == c
    ensures actions[i] in Own(actions, c)
  {
    if i > 0 { OwnHolds(actions[1..], c, i - 1); }
  }

  // ---- what a call of `rotate` leaves as it was

  lemma {:induction false} RunSplits(w: World, actions: seq<Action>, w': World, i: nat) returns (u: World, v: World)
    requires Run(w, actions) == Some(w') && i < |actions|
    ensures Run(w, actions[..i]) == Some(u) && Step(u, actions[i]) == Some(v)
    decreases |actions|
  {
    hide Step;
    if i == 0 {
      u, v := w, Step(w, actions[0]).value;
    } else {
      u, v := RunSplits(Step(w, actions[0]).value, actions[1..], w', i - 1);
      assert actions[..i][1..] == actions[1..][..i - 1];
    }
  }

  /** Every step the client takes in a call of `rotate`, however the call ends, leaves the multiset of
      reported records as it was, and the tip as it was or without the whole of its oldest dated year. */
  lemma RotateCallConserves(w: World, actions: seq<Action>, w': World, c: nat, i: nat, r: Record)
    returns (u: World, v: World)
    requires Inv(w) && Run(w, actions) == Some(w') && IsRotateCall(actions, c)
    requires i < |actions| && actions[i].c == c
    ensures Run(w, actions[..i]) == Some(u) && Step(u, actions[i]) == Some(v)
    ensures u.tip.Some? ==>
      && v.tip.Some? && AllReadable(TreeAt(u, u.tip), u.releases) && AllReadable(TreeAt(v, v.tip), v.releases)
      && HistoryFiles.Reported(TreeAt(v, v.tip), v.releases, r) == HistoryFiles.Reported(TreeAt(u, u.tip), u.releases, r)
      && (v.tip == u.tip || exists year :: TookYear(TreeAt(u, u.tip), TreeAt(v, v.tip), u.releases, year))
  {
    hide Inv, Step, Run, AllReadable, HistoryFiles.Reported, TookYear, TreeAt;
    u, v := RunSplits(w, actions, w', i);
    History.Reachable(w, actions[..i], u);
    Started(w, actions, c);
    OnlyRotates(Step(w, actions[0]).value, actions[1..], w', c);
    if i > 0 { OwnHolds(actions[1..], c, i - 1); }
    if u.tip.Some? { RotationAllOrNothing(u, actions[i], v, r); }
  }
}
