// Submitting a remittance: any number of requests for one row, interleaved at
// every await, with a database and a network that may fail.
module Remittance {
  import opened Prelude

  type Id = nat

  datatype Status = Pending | Processing | Completed | Failed

  datatype Outcome =
    | Forbidden        // not the sender
    | AlreadySubmitted // the row was read as no longer pending
    | InvalidXdr
    | LostClaim        // 409: the claim found the row no longer pending
    | ServerError
    | Unconfirmed      // submitted, not found by the time polling ended
    | SubmissionFailed
    | Confirmed

  // What submitSignedTx ends with.
  datatype Submission = Success | NotFound | Error

  datatype Phase =
    | New(isSender: bool, validXdr: bool)
    | Validated
    | Claimed
    | Settling(result: Submission)
    | Done(outcome: Outcome)

  // One guarded UPDATE: acknowledged; applied, with the acknowledgement lost to
  // a transient error, and then retried by the query layer; or failed, applied
  // or not.
  datatype UpdateReply = Acked | Retried | Errored(applied: bool)

  // `claimer`, `changed` and `retried` are history: who moved the row out of
  // pending, who changed it at all, and whose update was retried.
  datatype State = State(
    status: Status, requests: map<Id, Phase>, submitted: seq<Id>,
    claimer: Option<Id>, changed: set<Id>, retried: set<Id>)

  datatype Action =
    | Arrive(r: Id, isSender: bool, validXdr: bool)
    | Check(r: Id, dbOk: bool)
    | Claim(r: Id, reply: UpdateReply)
    | Submit(r: Id, reached: bool, result: Submission)
    | Settle(r: Id, reply: UpdateReply)

  ghost predicate Enabled(s: State, a: Action)
  {
    match a
    case Arrive(r, _, _) => r !in s.requests
    case Check(r, _) => r in s.requests && s.requests[r].New?
    case Claim(r, _) => r in s.requests && s.requests[r].Validated?
    // A result other than an error was read from the network.
    case Submit(r, reached, result) => r in s.requests && s.requests[r].Claimed? && (!result.Error? ==> reached)
    case Settle(r, _) => r in s.requests && s.requests[r].Settling?
  }

  // UPDATE ... SET status = next WHERE id = $1 AND status = expected
  function Updated(s: State, r: Id, expected: Status, next: Status, reply: UpdateReply): State
  {
    if s.status == expected && (reply.Errored? ==> reply.applied) then
      s.(status := next, changed := s.changed + {r},
         claimer := if expected.Pending? then Some(r) else s.claimer,
         retried := if reply.Retried? then s.retried + {r} else s.retried)
    else s
  }

  // The update returns a row; a retry finds the status already changed.
  predicate Returns(s: State, expected: Status, reply: UpdateReply)
  {
    s.status == expected && reply.Acked?
  }

  function Moved(s: State, r: Id, p: Phase): State
  {
    s.(requests := s.requests[r := p])
  }

  ghost function Apply(s: State, a: Action): State
    requires Enabled(s, a)
  {
    match a
    case Arrive(r, isSender, validXdr) => Moved(s, r, New(isSender, validXdr))
    case Check(r, dbOk) =>
      var p := s.requests[r];
      Moved(s, r,
        if !dbOk then Done(ServerError)
        else if !p.isSender then Done(Forbidden)
        else if !s.status.Pending? then Done(AlreadySubmitted)
        else if !p.validXdr then Done(InvalidXdr)
        else Validated)
    case Claim(r, reply) =>
      Moved(Updated(s, r, Pending, Processing, reply), r,
        if Returns(s, Pending, reply) then Claimed
        else if reply.Errored? then Done(ServerError)
        else Done(LostClaim))
    case Submit(r, reached, result) =>
      Moved(if reached then s.(submitted := s.submitted + [r]) else s, r,
        if result.NotFound? then Done(Unconfirmed) else Settling(result))
    case Settle(r, reply) =>
      var success := s.requests[r].result.Success?;
      Moved(Updated(s, r, Processing, if success then Completed else Failed, reply), r,
        Done(if !Returns(s, Processing, reply) then ServerError else if success then Confirmed else SubmissionFailed))
  }

  ghost predicate Init(s: State)
  {
    s == State(Pending, map[], [], None, {}, {})
  }

  ghost predicate Runs(s: State, actions: seq<Action>)
    decreases |actions|
  {
    actions == [] || (Enabled(s, actions[0]) && Runs(Apply(s, actions[0]), actions[1..]))
  }

  ghost function After(s: State, actions: seq<Action>): State
    requires Runs(s, actions)
    decreases |actions|
  {
    if actions == [] then s else After(Apply(s, actions[0]), actions[1..])
  }

  // ---- Invariant ----

  // Only the claimer gets past the claim, and only while the row is processing.
  ghost predicate RequestOk(s: State, r: Id)
    requires r in s.requests
  {
    match s.requests[r]
    case New(_, _) => r !in s.changed && r !in s.retried
    case Validated => r !in s.changed && r !in s.retried
    case Claimed => s.claimer == Some(r) && s.status == Processing && s.submitted == []
    case Settling(result) => s.claimer == Some(r) && s.status == Processing && (result.Success? ==> s.submitted == [r])
    case Done(outcome) =>
      match outcome
      case Forbidden => r !in s.changed
      case AlreadySubmitted => r !in s.changed
      case InvalidXdr => r !in s.changed
      case LostClaim => r in s.changed <==> r in s.retried
      case Unconfirmed => s.claimer == Some(r) && s.status == Processing && s.submitted == [r]
      case Confirmed => s.claimer == Some(r) && s.status == Completed && s.submitted == [r]
      case SubmissionFailed => s.claimer == Some(r) && s.status == Failed
      case _ => true
  }

  ghost predicate Inv(s: State)
  {
    && (forall r :: r in s.requests ==> RequestOk(s, r))
    && (s.status.Pending? <==> s.claimer.None?)
    && (s.status.Pending? ==> s.submitted == [] && s.changed == {})
    && (s.submitted == [] || (s.claimer.Some? && s.submitted == [s.claimer.value]))
    && (s.claimer.Some? ==> s.claimer.value in s.requests && s.claimer.value in s.changed)
    && (forall r :: r in s.changed ==> r in s.requests) && s.retried <= s.changed
    && (s.status.Completed? ==> s.submitted != [])
  }

  // pending -> processing -> completed or failed, one way only.
  ghost predicate LegalMove(a: Status, b: Status)
  {
    a == b || (a.Pending? && b.Processing?) || (a.Processing? && (b.Completed? || b.Failed?))
  }

  lemma StepKeepsInv(s: State, a: Action)
    requires Inv(s) && Enabled(s, a)
    ensures Inv(Apply(s, a)) && LegalMove(s.status, Apply(s, a).status)
  {
  }

  lemma {:induction false} RunKeepsInv(s: State, actions: seq<Action>)
    requires Inv(s) && Runs(s, actions)
    ensures Inv(After(s, actions))
    decreases |actions|
  {
    hide Inv, Apply, Enabled;
    if actions != [] {
      StepKeepsInv(s, actions[0]);
      RunKeepsInv(Apply(s, actions[0]), actions[1..]);
    }
  }

  // Whatever the interleaving, at most one request reaches the network, it is
  // the one that claimed the row, and a completed row was really submitted.
  lemma AtMostOneSubmission(s: State, actions: seq<Action>)
    requires Init(s) && Runs(s, actions)
    ensures
      var s' := After(s, actions);
      && |s'.submitted| <= 1 && (s'.submitted != [] ==> s'.claimer == Some(s'.submitted[0]))
      && (s'.status == Completed ==> |s'.submitted| == 1)
  {
    RunKeepsInv(s, actions);
  }

  // A refused request changed nothing; a lost claim changed the row if and only
  // if its own update had been applied before a retry found the row taken.
  lemma RefusedChangesNothing(s: State, actions: seq<Action>, r: Id)
    requires Init(s) && Runs(s, actions) && r in After(s, actions).requests && After(s, actions).requests[r].Done?
    ensures
      var s' := After(s, actions);
      var outcome := s'.requests[r].outcome;
      && (outcome in {Forbidden, AlreadySubmitted, InvalidXdr} ==> r !in s'.changed)
      && (outcome == LostClaim ==> (r in s'.changed <==> r in s'.retried))
  {
    RunKeepsInv(s, actions);
    assert RequestOk(After(s, actions), r);
  }

  // The exception is real: whenever a validated request finds the row pending,
  // a lost acknowledgement turns its claim into a 409 with the row left
  // processing, claimed by nobody who will submit it.
  lemma RetriedClaimStrandsRow(s: State, r: Id)
    requires Inv(s) && s.status == Pending && r in s.requests && s.requests[r].Validated?
    ensures
      var s' := Apply(s, Claim(r, Retried));
      s'.requests[r] == Done(LostClaim) && s'.status == Processing && r in s'.changed && s'.submitted == []
  {
  }

  // A row whose claimer is done without settling it never moves again.
  ghost predicate Stranded(s: State)
  {
    s.status == Processing && s.claimer.Some? && s.claimer.value in s.requests && s.requests[s.claimer.value].Done?
  }

  lemma {:induction false} StrandedForever(s: State, actions: seq<Action>)
    requires Inv(s) && Stranded(s) && Runs(s, actions)
    ensures After(s, actions).status == Processing && After(s, actions).submitted == s.submitted
    decreases |actions|
  {
    if actions != [] {
      var s' := Apply(s, actions[0]);
      StepKeepsInv(s, actions[0]);
      assert Stranded(s') && s'.submitted == s.submitted;
      StrandedForever(s', actions[1..]);
    }
  }

  // An unconfirmed submission leaves the row processing, then and ever after.
  lemma UnconfirmedStaysProcessing(s: State, actions: seq<Action>, more: seq<Action>, r: Id)
    requires Init(s) && Runs(s, actions) && Runs(After(s, actions), more)
    requires r in After(s, actions).requests && After(s, actions).requests[r] == Done(Unconfirmed)
    ensures After(After(s, actions), more).status == Processing
  {
    RunKeepsInv(s, actions);
    assert RequestOk(After(s, actions), r);
    StrandedForever(After(s, actions), more);
  }

  // The transactions that reached the network in a run.
  function Reached(actions: seq<Action>): seq<Action>
  {
    if actions == [] then []
    else (if actions[0].Submit? && actions[0].reached then [actions[0]] else []) + Reached(actions[1..])
  }

  lemma ReachedSplit(actions: seq<Action>)
    ensures Reached(actions) == if actions == [] then [] else Reached([actions[0]]) + Reached(actions[1..])
  {
    if actions != [] { assert [actions[0]][1..] == []; }
  }

  // A request's only submission, and what the row says once it has failed.
  ghost predicate Recorded(s: State, sent: seq<Action>)
  {
    && |sent| == |s.submitted| && (forall i :: 0 <= i < |sent| ==> sent[i].Submit? && sent[i].r == s.submitted[i])
    && (forall r :: r in s.requests && s.requests[r].Settling? ==>
          !s.requests[r].result.NotFound? && forall i :: 0 <= i < |sent| ==> sent[i].result == s.requests[r].result)
    && (s.status == Failed ==> forall i :: 0 <= i < |sent| ==> sent[i].result == Error)
  }

  lemma StepRecords(s: State, a: Action, sent: seq<Action>)
    requires Inv(s) && Recorded(s, sent) && Enabled(s, a)
    ensures Recorded(Apply(s, a), sent + Reached([a]))
  {
    assert [a][1..] == [];
    if a.r in s.requests { assert RequestOk(s, a.r); }
    forall r | r in s.requests && s.requests[r].Settling? ensures s.claimer == Some(r) { assert RequestOk(s, r); }
  }

  lemma {:induction false} RunRecords(s: State, sent: seq<Action>, actions: seq<Action>)
    requires Inv(s) && Recorded(s, sent) && Runs(s, actions)
    ensures Recorded(After(s, actions), sent + Reached(actions))
    decreases |actions|
  {
    hide Inv, Apply, Enabled, Recorded, Reached;
    ReachedSplit(actions);
    if actions == [] {
      assert sent + [] == sent;
    } else {
      var a, rest := actions[0], Reached(actions[1..]);
      StepKeepsInv(s, a);
      StepRecords(s, a, sent);
      RunRecords(Apply(s, a), sent + Reached([a]), actions[1..]);
      assert sent + Reached([a]) + rest == sent + (Reached([a]) + rest);
    }
  }

  lemma {:induction false} ReachedMembers(actions: seq<Action>, a: Action)
    ensures a in Reached(actions) <==> a in actions && a.Submit? && a.reached
  {
    if actions != [] {
      ReachedMembers(actions[1..], a);
      assert actions == [actions[0]] + actions[1..];
    }
  }

  // A failed row was submitted all the same if and only if the error came after
  // sending, such as while polling: the code does not tell it from an error
  // before, and the row looks the same.
  lemma FailedAfterSending(s: State, actions: seq<Action>)
    requires Init(s) && Runs(s, actions) && After(s, actions).status == Failed
    ensures After(s, actions).claimer.Some?
    ensures
      var s' := After(s, actions);
      s'.submitted != [] <==> Submit(s'.claimer.value, true, Error) in actions
  {
    hide Runs, After, Reached;
    RunKeepsInv(s, actions);
    RunRecords(s, [], actions);
    var s', sent := After(s, actions), Reached(actions);
    assert [] + sent == sent;
    ReachedMembers(actions, Submit(s'.claimer.value, true, Error));
    if s'.submitted != [] {
      ReachedMembers(actions, sent[0]);
      assert sent[0] == Submit(s'.claimer.value, true, Error);
    }
  }

  // Both happen: whichever request holds the claim, either kind of error leaves
  // the row failed.
  lemma FailsEitherWay(s: State, r: Id, reached: bool)
    requires Inv(s) && r in s.requests && s.requests[r].Claimed?
    ensures
      var s1 := Apply(s, Submit(r, reached, Error));
      var s2 := Apply(s1, Settle(r, Acked));
      s2.status == Failed && s2.submitted == if reached then [r] else []
  {
    assert RequestOk(s, r);
  }

  // ---- Who gets to submit ----

  // What the checks decide: the sender first, then the status, then the XDR.
  lemma CheckDecides(s: State, r: Id, isSender: bool, validXdr: bool)
    requires r in s.requests && s.requests[r] == New(isSender, validXdr)
    ensures Enabled(s, Check(r, true))
    ensures
      var s' := Apply(s, Check(r, true));
      && s' == s.(requests := s'.requests)
      && (s'.requests[r] == Validated <==> isSender && s.status == Pending && validXdr)
      && (s'.requests[r] == Done(Forbidden) <==> !isSender)
      && (s'.requests[r] == Done(AlreadySubmitted) <==> isSender && s.status != Pending)
      && (s'.requests[r] == Done(InvalidXdr) <==> isSender && s.status == Pending && !validXdr)
  {
  }

  ghost predicate Came(past: seq<Action>, r: Id, isSender: bool)
  {
    Arrive(r, isSender, true) in past || Arrive(r, isSender, false) in past
  }

  // What each request that got this far was when it arrived.
  ghost predicate Vetted(s: State, past: seq<Action>, r: Id)
  {
    && (r in s.submitted || s.claimer == Some(r) ==> Arrive(r, true, true) in past)
    && (r in s.requests ==>
          match s.requests[r]
          case New(isSender, validXdr) => Arrive(r, isSender, validXdr) in past
          case Done(outcome) =>
            (match outcome
             case ServerError => true
             case Forbidden => Came(past, r, false)
             case AlreadySubmitted => Came(past, r, true)
             case InvalidXdr => Arrive(r, true, false) in past
             case _ => Arrive(r, true, true) in past)
          case _ => Arrive(r, true, true) in past)
  }

  lemma StepKeepsVetted(s: State, past: seq<Action>, a: Action, r: Id)
    requires Vetted(s, past, r) && Enabled(s, a)
    ensures Vetted(Apply(s, a), past + [a], r)
  {
    assert forall x :: x in past + [a] <==> x in past || x == a;
  }

  lemma {:induction false} RunKeepsVetted(s: State, past: seq<Action>, actions: seq<Action>, r: Id)
    requires Vetted(s, past, r) && Runs(s, actions)
    ensures Vetted(After(s, actions), past + actions, r)
    decreases |actions|
  {
    hide Apply, Enabled, Vetted;
    if actions == [] {
      assert past + actions == past;
    } else {
      StepKeepsVetted(s, past, actions[0], r);
      RunKeepsVetted(Apply(s, actions[0]), past + [actions[0]], actions[1..], r);
      assert past + [actions[0]] + actions[1..] == past + actions;
    }
  }

  // In every run, only the sender's request with a valid transaction claims the
  // row or reaches the network; and a refusal is for the reason it gives.
  lemma OnlySenderSubmits(s: State, actions: seq<Action>, r: Id)
    requires Init(s) && Runs(s, actions)
    ensures
      var s' := After(s, actions);
      && (r in s'.submitted || s'.claimer == Some(r) ==> Arrive(r, true, true) in actions)
      && (r in s'.requests && s'.requests[r].Done? ==>
            && (s'.requests[r].outcome == Forbidden ==> Came(actions, r, false))
            && (s'.requests[r].outcome == InvalidXdr ==> Arrive(r, true, false) in actions)
            && (s'.requests[r].outcome in {Confirmed, SubmissionFailed, Unconfirmed, LostClaim} ==> Arrive(r, true, true) in actions))
  {
    hide Apply, Enabled, Runs, After;
    RunKeepsVetted(s, [], actions, r);
    assert [] + actions == actions;
  }
}
