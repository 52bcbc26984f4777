/** How often one call of `rotate` or `commit_files` tries to push, and when it gives up. */
module HistoryTries {
  import opened Wrappers
  import opened HistoryFiles
  import opened HistoryProtocol
  import opened HistoryCalls

  /** A push tried, whatever comes of it. */
  predicate IsTry(a: Action) {
    a.Push? || a.PushFails? || a.Lease? || a.LeaseFails?
  }

  ghost function Tries(own: seq<Action>): nat {
    if own == [] then 0 else (if IsTry(own[0]) then 1 else 0) + Tries(own[1..])
  }

  predicate AttemptOk(client: Client) {
    if client.Idle? || client.Naming? then true
    else if client.Refetching? then 1 <= client.attempt < PUSH_ATTEMPTS
    else 1 <= client.attempt <= PUSH_ATTEMPTS
  }

  /** How many pushes the call can still try. */
  ghost function Left(client: Client): nat
    requires AttemptOk(client)
  {
    if client.Idle? || Waiting(client) then 0
    else if client.Refetching? || client.Renaming? then PUSH_ATTEMPTS - client.attempt
    else PUSH_ATTEMPTS - client.attempt + 1
  }

  ghost predicate GaveUp(client: Client) {
    client.Idle? && client.ended == Raised(OutOfAttempts)
  }

  /** A step of a call uses up one try if it tries a push and none if not, and is the last one for want of tries
      exactly when it finds the last of them lost. */
  lemma TryStep(w: World, a: Action, w': World)
    requires Step(w, a) == Some(w') && !Between(a) && AttemptOk(ClientOf(w, a.c)) && !Waiting(ClientOf(w, a.c))
    ensures AttemptOk(ClientOf(w', a.c))
    ensures !ClientOf(w', a.c).Idle? && !Waiting(ClientOf(w', a.c)) ==>
      Left(ClientOf(w, a.c)) == Left(ClientOf(w', a.c)) + if IsTry(a) then 1 else 0
    ensures IsTry(a) ==> Left(ClientOf(w, a.c)) > 0
    ensures GaveUp(ClientOf(w', a.c)) <==>
      && ClientOf(w', a.c).Idle? && Left(ClientOf(w, a.c)) == (if IsTry(a) then 1 else 0)
      && (Rotating(ClientOf(w, a.c)) ==> a.Rename?)
  {
    hide Good, IsOldest, Rotated, Archive, Archives, NoneDated, Tag;
  }

  /** How the tries of a call add up, by the client's own steps from inside it. */
  ghost predicate Adds(client: Client, own: seq<Action>, after: Client, c: nat)
    requires AttemptOk(client)
  {
    && own != [] && Tries(own) <= Left(client)
    && (GaveUp(after) <==>
          && !Waiting(client) && Tries(own) == Left(client) && Pushes(own, c, true) == 0
          && (Rotating(client) ==> own[|own| - 1].Rename?))
  }

  lemma {:induction false} TriesCons(a: Action, own: seq<Action>)
    ensures Tries([a] + own) == (if IsTry(a) then 1 else 0) + Tries(own)
  {
    assert ([a] + own)[1..] == own;
  }

  lemma WaitingKeepsOn(w: World, a: Action, w': World)
    requires Step(w, a) == Some(w') && Waiting(ClientOf(w, a.c))
    ensures !GaveUp(ClientOf(w', a.c)) && !IsTry(a) && ClientOf(w', a.c).Idle?
  {
    hide Good, IsOldest, Rotated, Archive, Archives, NoneDated, Tag;
  }

  lemma OnlyStep(w: World, a: Action, w': World)
    requires Step(w, a) == Some(w') && !Between(a) && AttemptOk(ClientOf(w, a.c)) && ClientOf(w', a.c).Idle?
    ensures Adds(ClientOf(w, a.c), [a], ClientOf(w', a.c), a.c)
  {
    hide Step, AttemptOk, Left, GaveUp;
    StepEnds(w, a, w');
    TriesCons(a, []);
    PushesCons(a, [], a.c, true);
    assert [a] + [] == [a];
    if Waiting(ClientOf(w, a.c)) { WaitingKeepsOn(w, a, w'); } else { TryStep(w, a, w'); }
  }

  lemma FurtherStep(w: World, a: Action, next: World, own: seq<Action>, after: Client)
    requires Step(w, a) == Some(next) && !Between(a) && AttemptOk(ClientOf(w, a.c)) && !ClientOf(next, a.c).Idle?
    requires AttemptOk(ClientOf(next, a.c)) && Adds(ClientOf(next, a.c), own, after, a.c)
    ensures Adds(ClientOf(w, a.c), [a] + own, after, a.c)
  {
    assert Waiting(ClientOf(next, a.c)) ==> Left(ClientOf(next, a.c)) == 0;
    hide Step, AttemptOk, Left, GaveUp, Tries, Pushes;
    StepEnds(w, a, next);
    TriesCons(a, own);
    PushesCons(a, own, a.c, true);
    assert ([a] + own)[|own|] == own[|own| - 1];
    if Waiting(ClientOf(w, a.c)) { WaitingKeepsOn(w, a, next); } else { TryStep(w, a, next); }
    if IsPush(a, a.c, true) { assert IsTry(a); }
  }

  lemma {:induction false} TriesAdd(w: World, actions: seq<Action>, w': World, c: nat)
    requires Run(w, actions) == Some(w') && Within(actions, c)
    requires !ClientOf(w, c).Idle? && ClientOf(w', c).Idle? && AttemptOk(ClientOf(w, c))
    ensures Adds(ClientOf(w, c), Own(actions, c), ClientOf(w', c), c)
    decreases |actions|
  {
    hide Step, Adds, AttemptOk;
    var a, next := actions[0], Step(w, actions[0]).value;
    WithinTail(actions, c);
    if a.c != c {
      StepOthers(w, a, next, c);
      TriesAdd(next, actions[1..], w', c);
      assert [] + Own(actions[1..], c) == Own(actions[1..], c);
    } else if ClientOf(next, c).Idle? {
      IdleStays(next, actions[1..], w', c);
      assert Own(actions, c) == [a] + [] == [a];
      OnlyStep(w, a, next);
    } else {
      if Waiting(ClientOf(w, c)) { WaitingKeepsOn(w, a, next); } else { TryStep(w, a, next); }
      TriesAdd(next, actions[1..], w', c);
      FurtherStep(w, a, next, Own(actions[1..], c), ClientOf(w', c));
    }
  }

  lemma CallStarts(w: World, a: Action, w': World)
    requires Step(w, a) == Some(w') && (a.Call? || a.StartRotation?)
    ensures var client := ClientOf(w', a.c); AttemptOk(client) && Left(client) == PUSH_ATTEMPTS && !client.Idle? && !Waiting(client)
    ensures Rotating(ClientOf(w', a.c)) <==> a.StartRotation?
  {
    hide Good;
  }

  /** A call tries at most ten pushes, whatever the other clients do. It gives up exactly when it has tried ten
      and none was reported; a call of `rotate` then still renames its branch, and gives up if that works. */
  lemma {:induction false} CallTries(w: World, actions: seq<Action>, w': World, c: nat)
    requires Run(w, actions) == Some(w') && ClientOf(w', c).Idle? && (IsRotateCall(actions, c) || IsWriteCall(actions, c))
    ensures var ended, own := ClientOf(w', c).ended, Own(actions, c);
      && own != [] && Tries(own) <= 10
      && (ended == Raised(OutOfAttempts) <==>
            Tries(own) == 10 && Pushes(own, c, true) == 0 && (actions[0].StartRotation? ==> own[|own| - 1] == Rename(c)))
  {
    hide Step, Run, Tries, Pushes, AttemptOk, Left;
    var next, inner := InnerCall(w, actions, w', c);
    CallStarts(w, actions[0], next);
    TriesAdd(next, actions[1..], w', c);
    TriesCons(actions[0], inner);
    var own := Own(actions, c);
    assert own[|own| - 1] in own;
  }
}
