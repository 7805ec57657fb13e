// What the idempotency middleware answers, exactly, over every interleaving.
module Outcomes {
  import opened Prelude
  import opened Idempotency

  // ---- States inside a run ----

  lemma {:induction false} Prefix(s: State, actions: seq<Action>, i: nat)
    requires Runs(s, actions) && i <= |actions|
    ensures Runs(s, actions[..i]) && Runs(After(s, actions[..i]), actions[i..])
    ensures After(s, actions) == After(After(s, actions[..i]), actions[i..])
    decreases |actions|
  {
    hide Apply, Enabled;
    if i == 0 {
      assert actions[..0] == [] && actions[0..] == actions;
    } else {
      Prefix(Apply(s, actions[0]), actions[1..], i - 1);
      assert actions[..i][1..] == actions[1..][..i - 1] && actions[1..][i - 1..] == actions[i..];
    }
  }

  // The state in which action i is taken.
  ghost function StateAt(s: State, actions: seq<Action>, i: nat): State
    requires Runs(s, actions) && i <= |actions|
  {
    Prefix(s, actions, i);
    After(s, actions[..i])
  }

  // A run without its last action.
  lemma Snoc(s: State, actions: seq<Action>)
    requires Runs(s, actions) && actions != []
    ensures
      var n := |actions| - 1;
      && Runs(s, actions[..n]) && Enabled(After(s, actions[..n]), actions[n])
      && After(s, actions) == Apply(After(s, actions[..n]), actions[n])
      && forall i :: 0 <= i <= n ==> StateAt(s, actions[..n], i) == StateAt(s, actions, i)
  {
    hide Apply, Enabled;
    var n := |actions| - 1;
    Prefix(s, actions, n);
    var last := actions[n..];
    assert last == [actions[n]] && last[1..] == [];
    assert Runs(After(s, actions[..n]), last);
    assert After(Apply(After(s, actions[..n]), actions[n]), []) == Apply(After(s, actions[..n]), actions[n]);
    forall i | 0 <= i <= n ensures StateAt(s, actions[..n], i) == StateAt(s, actions, i) {
      assert actions[..n][..i] == actions[..i];
    }
  }

  // ---- How a request ends ----

  ghost predicate Stored(s: State, owner: Id)
  {
    Live(s.response, s.now) && s.response.value.owner == owner
  }

  // The action with which request r ends in the given way, from state s.
  ghost predicate Ends(s: State, a: Action, r: Id, outcome: Outcome)
  {
    match outcome
    // A re-read after a lost reservation that finds nothing.
    case Conflict => a.RereadAfterConflict? && a.r == r && (!a.redisOk || !Live(s.response, s.now))
    // An open breaker, or a reservation that throws.
    case Unavailable => a == Arrive(r, true) || (a.Reserve? && a.r == r && a.reply != Acked)
    // A read that finds the response, or the release after one that did.
    case Replayed(owner) =>
      || ((a == FirstGet(r, true) || a == RereadAfterConflict(r, true)) && Stored(s, owner))
      || (a.Release? && a.r == r && r in s.requests && s.requests[r] == Releasing(Some(owner)))
    // A store that throws, or the release after the handler.
    case Executed =>
      || (a.Store? && a.r == r && a.reply != Acked)
      || (a.Release? && a.r == r && r in s.requests && s.requests[r] == Releasing(None))
    case Died => a == Die(r)
  }

  ghost predicate IsDone(s: State, r: Id, outcome: Outcome)
  {
    r in s.requests && s.requests[r] == Done(outcome)
  }

  lemma StepEnds(s: State, a: Action, r: Id, outcome: Outcome)
    requires Enabled(s, a)
    ensures IsDone(Apply(s, a), r, outcome) <==> IsDone(s, r, outcome) || Ends(s, a, r, outcome)
  {
  }

  // In every run from scratch a request has ended in a given way if and only if
  // some action of the run ended it so.
  lemma {:induction false} OutcomeIff(s: State, actions: seq<Action>, r: Id, outcome: Outcome)
    requires Init(s) && Runs(s, actions)
    ensures IsDone(After(s, actions), r, outcome) <==>
      exists i :: 0 <= i < |actions| && Ends(StateAt(s, actions, i), actions[i], r, outcome)
    decreases |actions|
  {
    hide Apply, Enabled, Ends, StateAt, Runs, After;
    if actions == [] {
      NothingYet(s, r, outcome);
    } else {
      var n, before := |actions| - 1, actions[..|actions| - 1];
      Snoc(s, actions);
      AtEnd(s, actions, n);
      OutcomeIff(s, before, r, outcome);
      StepEnds(After(s, before), actions[n], r, outcome);
      assert forall i :: 0 <= i < n ==> before[i] == actions[i] && StateAt(s, before, i) == StateAt(s, actions, i);
      if Ends(StateAt(s, actions, n), actions[n], r, outcome) {
      } else if i :| 0 <= i < |before| && Ends(StateAt(s, before, i), before[i], r, outcome) {
        assert Ends(StateAt(s, actions, i), actions[i], r, outcome);
      }
    }
  }

  lemma NothingYet(s: State, r: Id, outcome: Outcome)
    requires Init(s)
    ensures Runs(s, []) && !IsDone(After(s, []), r, outcome)
  {
  }

  lemma AtEnd(s: State, actions: seq<Action>, n: nat)
    requires Runs(s, actions) && n <= |actions|
    ensures Runs(s, actions[..n]) && StateAt(s, actions, n) == After(s, actions[..n])
  {
    Prefix(s, actions, n);
  }

  // ---- How it got there ----

  // The action that brings request r into a phase on the way.
  ghost predicate Enters(s: State, a: Action, r: Id, p: Phase)
  {
    match p
    case Rereading => a == Reserve(r, Acked) && Live(s.lock, s.now) && s.lock.value.owner != r
    case Releasing(replay) =>
      if replay.Some? then a == RereadAfterReserve(r, true) && Stored(s, replay.value)
      else a == Handle(r, false) || a == Store(r, Acked)
    case _ => true
  }

  // A lock belongs to a request that has tried to reserve it.
  ghost predicate LockClaimed(s: State)
  {
    s.lock.Some? ==>
      var o := s.lock.value.owner;
      o in s.requests && !s.requests[o].New? && !s.requests[o].Reserving? && !s.requests[o].Rereading?
  }

  lemma StepEnters(s: State, a: Action, r: Id)
    requires LockClaimed(s) && Enabled(s, a)
    ensures LockClaimed(Apply(s, a))
    ensures
      var s' := Apply(s, a);
      r in s'.requests ==> (r in s.requests && s.requests[r] == s'.requests[r]) || Enters(s, a, r, s'.requests[r])
  {
  }

  lemma {:induction false} PhaseHasCause(s: State, actions: seq<Action>, r: Id)
    requires Init(s) && Runs(s, actions)
    ensures LockClaimed(After(s, actions))
    ensures
      var s' := After(s, actions);
      r in s'.requests && (s'.requests[r].Rereading? || s'.requests[r].Releasing?) ==>
        exists i :: 0 <= i < |actions| && Enters(StateAt(s, actions, i), actions[i], r, s'.requests[r])
    decreases |actions|
  {
    hide Apply, Enabled, Enters, StateAt, Runs, After;
    if actions == [] {
      NothingYet(s, r, Died);
      NobodyYet(s);
    } else {
      var n, before := |actions| - 1, actions[..|actions| - 1];
      Snoc(s, actions);
      AtEnd(s, actions, n);
      PhaseHasCause(s, before, r);
      StepEnters(After(s, before), actions[n], r);
      var s' := After(s, actions);
      if r in s'.requests && (s'.requests[r].Rereading? || s'.requests[r].Releasing?) {
        if !Enters(StateAt(s, actions, n), actions[n], r, s'.requests[r]) {
          var i :| 0 <= i < |before| && Enters(StateAt(s, before, i), before[i], r, s'.requests[r]);
          assert before[i] == actions[i] && StateAt(s, before, i) == StateAt(s, actions, i);
        }
      }
    }
  }

  lemma NobodyYet(s: State)
    requires Init(s)
    ensures Runs(s, []) && After(s, []) == s && LockClaimed(s) && s.requests == map[]
  {
  }

  // A conflict is answered only to a request that found another's lock alive when
  // it tried to reserve, and then found no response, or could not read.
  lemma ConflictMeansTaken(s: State, actions: seq<Action>, r: Id) returns (i: nat, j: nat)
    requires Init(s) && Runs(s, actions) && IsDone(After(s, actions), r, Conflict)
    ensures i < j < |actions|
    ensures Enters(StateAt(s, actions, i), actions[i], r, Rereading) && Ends(StateAt(s, actions, j), actions[j], r, Conflict)
  {
    hide Apply, Enters, StateAt, Runs, After;
    OutcomeIff(s, actions, r, Conflict);
    j :| 0 <= j < |actions| && Ends(StateAt(s, actions, j), actions[j], r, Conflict);
    StepAt(s, actions, j);
    i := CauseBefore(s, actions, j, r);
  }

  // A replay after a reservation goes back to a read that found that response.
  lemma ReplayAfterReserve(s: State, actions: seq<Action>, r: Id, owner: Id, j: nat) returns (i: nat)
    requires Init(s) && Runs(s, actions) && j < |actions| && actions[j].Release?
    requires Ends(StateAt(s, actions, j), actions[j], r, Replayed(owner))
    ensures i < j && actions[i] == RereadAfterReserve(r, true) && Stored(StateAt(s, actions, i), owner)
  {
    i := CauseBefore(s, actions, j, r);
  }

  lemma StepAt(s: State, actions: seq<Action>, j: nat)
    requires Runs(s, actions) && j < |actions|
    ensures Enabled(StateAt(s, actions, j), actions[j])
  {
    hide Apply, Enabled;
    Prefix(s, actions, j);
    assert actions[j..][0] == actions[j];
  }

  lemma CauseBefore(s: State, actions: seq<Action>, j: nat, r: Id) returns (i: nat)
    requires Init(s) && Runs(s, actions) && j <= |actions| && r in StateAt(s, actions, j).requests
    requires StateAt(s, actions, j).requests[r].Rereading? || StateAt(s, actions, j).requests[r].Releasing?
    ensures i < j && Enters(StateAt(s, actions, i), actions[i], r, StateAt(s, actions, j).requests[r])
  {
    hide Apply, Enabled, Enters, Runs, After;
    AtEnd(s, actions, j);
    PhaseHasCause(s, actions[..j], r);
    i :| 0 <= i < j && Enters(StateAt(s, actions[..j], i), actions[..j][i], r, StateAt(s, actions, j).requests[r]);
    AtEnd(s, actions, i);
    AtEnd(s, actions[..j], i);
    assert actions[..j][..i] == actions[..i];
  }

  // ---- A stored response is the answer ----

  // Wherever a response is stored, a read that succeeds answers with it, at each
  // of the three places where the middleware reads.
  lemma StoredIsAnswered(s: State, r: Id, owner: Id)
    requires Stored(s, owner) && r in s.requests
    ensures s.requests[r].New? ==> Enabled(s, FirstGet(r, true)) && IsDone(Apply(s, FirstGet(r, true)), r, Replayed(owner))
    ensures s.requests[r].Rereading? ==>
      Enabled(s, RereadAfterConflict(r, true)) && IsDone(Apply(s, RereadAfterConflict(r, true)), r, Replayed(owner))
    ensures s.requests[r].Holding? ==>
      && Enabled(s, RereadAfterReserve(r, true))
      && WillReplay(Apply(s, RereadAfterReserve(r, true)), r, owner)
  {
  }

  // Only the release, or the end of the process, is left between r and the replay.
  ghost predicate WillReplay(s: State, r: Id, owner: Id)
  {
    r in s.requests && s.requests[r] in {Releasing(Some(owner)), Done(Replayed(owner)), Done(Died)}
  }

  lemma {:induction false} ReplayFollows(s: State, r: Id, owner: Id, actions: seq<Action>)
    requires WillReplay(s, r, owner) && Runs(s, actions)
    ensures WillReplay(After(s, actions), r, owner)
    decreases |actions|
  {
    if actions != [] {
      assert WillReplay(Apply(s, actions[0]), r, owner);
      ReplayFollows(Apply(s, actions[0]), r, owner, actions[1..]);
    }
  }

  // A response kept until a given time, by a given owner unless it is overwritten.
  ghost predicate KeptUntil(s: State, owner: Id, until: nat, overwritten: bool)
  {
    s.response.Some? && s.response.value.expires >= until && (overwritten || s.response.value.owner == owner)
  }

  lemma {:induction false} ResponseKept(s: State, actions: seq<Action>, owner: Id, until: nat, overwritten: bool)
    requires KeptUntil(s, owner, until, overwritten) && until <= s.now + TTL && Runs(s, actions)
    ensures s.now <= After(s, actions).now
    ensures KeptUntil(After(s, actions), owner, until, overwritten || exists i :: 0 <= i < |actions| && actions[i].Store?)
    decreases |actions|
  {
    if actions != [] {
      var a, rest := actions[0], actions[1..];
      var over := overwritten || a.Store?;
      assert KeptUntil(Apply(s, a), owner, until, over) && s.now <= Apply(s, a).now;
      ResponseKept(Apply(s, a), rest, owner, until, over);
      if i :| 0 <= i < |rest| && rest[i].Store? { assert actions[i + 1].Store?; }
    }
  }

  // After an acknowledged store, whatever happens in the next 24 hours, a new
  // request whose first read succeeds is answered by a replay; and by the replay
  // of that response, unless another was stored over it.
  lemma StoredIsReplayed(s: State, owner: Id, between: seq<Action>, q: Id)
    requires Enabled(s, Store(owner, Acked)) && Runs(Apply(s, Store(owner, Acked)), between)
    requires
      var s' := After(Apply(s, Store(owner, Acked)), between);
      s'.now < s.now + 24 * 60 * 60 && q !in s'.requests
    ensures
      var s' := After(Apply(s, Store(owner, Acked)), between);
      var s1 := Apply(s', Arrive(q, false));
      && s'.response.Some?
      && IsDone(Apply(s1, FirstGet(q, true)), q, Replayed(s'.response.value.owner))
      && ((forall i :: 0 <= i < |between| ==> !between[i].Store?) ==> s'.response.value.owner == owner)
  {
    hide Runs, After;
    var s0 := Apply(s, Store(owner, Acked));
    ResponseKept(s0, between, owner, s.now + TTL, false);
  }

  // ---- Who ran the handler ----

  ghost predicate Ran(actions: seq<Action>, r: Id)
  {
    Handle(r, true) in actions || Handle(r, false) in actions
  }

  // Where a request can be once it has run the handler, and where before.
  ghost predicate AfterHandler(p: Phase)
  {
    p.Storing? || p == Releasing(None) || p == Done(Executed) || p == Done(Died)
  }

  ghost predicate HandledOk(s: State, actions: seq<Action>, r: Id)
  {
    && (Ran(actions, r) ==> r in s.requests && AfterHandler(s.requests[r]))
    && (r in s.requests && AfterHandler(s.requests[r]) && s.requests[r] != Done(Died) ==> Ran(actions, r))
  }

  lemma StepKeepsHandled(s: State, past: seq<Action>, a: Action, r: Id)
    requires HandledOk(s, past, r) && Enabled(s, a)
    ensures HandledOk(Apply(s, a), past + [a], r)
  {
    assert forall x :: x in past + [a] <==> x in past || x == a;
  }

  lemma {:induction false} RunKeepsHandled(s: State, actions: seq<Action>, r: Id)
    requires Init(s) && Runs(s, actions)
    ensures HandledOk(After(s, actions), actions, r)
    decreases |actions|
  {
    hide Apply, Enabled, Runs, After;
    if actions == [] {
      NobodyYet(s);
    } else {
      var n := |actions| - 1;
      Snoc(s, actions);
      RunKeepsHandled(s, actions[..n], r);
      StepKeepsHandled(After(s, actions[..n]), actions[..n], actions[n], r);
      assert actions == actions[..n] + [actions[n]];
    }
  }

  // The handler ran for a request that was answered by it, and for none that was
  // answered by a replay, a conflict or an error.
  lemma HandlerRanIff(s: State, actions: seq<Action>, r: Id, outcome: Outcome)
    requires Init(s) && Runs(s, actions) && IsDone(After(s, actions), r, outcome) && outcome != Died
    ensures Ran(actions, r) <==> outcome == Executed
  {
    hide Apply, Enabled, Runs, After;
    RunKeepsHandled(s, actions, r);
  }

  // A run that is not cacheable, or a stored one, gives the key free again: once
  // released, the lock is gone, and what is stored is the response or nothing new.
  lemma ReleaseFreesKey(s: State, r: Id)
    requires Inv(s) && r in s.requests && s.requests[r].Running?
    ensures
      var s1 := Apply(s, Handle(r, false));
      var s2 := Apply(s1, Release(r, true));
      s2.lock == None && s2.response == s.response && IsDone(s2, r, Executed)
    ensures
      var s1 := Apply(s, Handle(r, true));
      var s2 := Apply(s1, Store(r, Acked));
      var s3 := Apply(s2, Release(r, true));
      s3.lock == None && s3.response == Some(Slot(r, s.now + TTL)) && IsDone(s3, r, Executed)
  {
  }
}
