// The idempotency middleware: any number of requests with one scope and key,
// interleaved at every await, over one response slot and one lock slot in Redis.
module Idempotency {
  import opened Prelude

  const TTL: nat := 86_400 // seconds; the same for the response and the lock

  type Id = nat // a request; also stands for its random lock token and its response

  datatype Slot = Slot(owner: Id, expires: nat)

  datatype Outcome =
    | Replayed(owner: Id) // a stored response, marked as a replay
    | Conflict            // 409
    | Unavailable         // 503
    | Executed            // the handler's own response
    | Died                // the process went away

  // Where a request is. `lost` records that its re-read after the reservation
  // came back empty although a response was stored.
  datatype Phase =
    | New
    | Reserving
    | Rereading
    | Holding(reservedAt: nat)
    | Running(reservedAt: nat, startedAt: nat, lost: bool)
    | Storing(reservedAt: nat)
    | Releasing(replay: Option<Id>)
    | Done(outcome: Outcome)

  // One completed run of the handler.
  datatype Run = Run(id: Id, reservedAt: nat, startedAt: nat, finishedAt: nat, cacheable: bool, lost: bool)

  datatype State = State(now: nat, response: Option<Slot>, lock: Option<Slot>, requests: map<Id, Phase>, runs: seq<Run>)

  // The cache service: `get` answers null when Redis fails; `reserve` and
  // `setRequired` throw, possibly after taking effect; `deleteIfMatch` reports
  // nothing, so only whether it took effect matters.
  datatype WriteReply = Acked | Threw(applied: bool)

  datatype Action =
    | Arrive(r: Id, breakerOpen: bool)
    | FirstGet(r: Id, redisOk: bool)
    | Reserve(r: Id, reply: WriteReply)
    | RereadAfterConflict(r: Id, redisOk: bool)
    | RereadAfterReserve(r: Id, redisOk: bool)
    | Handle(r: Id, cacheable: bool)
    | Store(r: Id, reply: WriteReply)
    | Release(r: Id, deleted: bool)
    | Die(r: Id)
    | Tick(seconds: nat)

  predicate Live(slot: Option<Slot>, now: nat)
  {
    slot.Some? && now < slot.value.expires
  }

  // The request owns the lock and has not given it up.
  ghost predicate IsHolder(p: Phase)
  {
    p.Holding? || p.Running? || p.Storing?
  }

  ghost predicate At(s: State, r: Id)
  {
    r in s.requests
  }

  ghost predicate Enabled(s: State, a: Action)
  {
    match a
    case Arrive(r, _) => r !in s.requests
    case FirstGet(r, _) => At(s, r) && s.requests[r].New?
    case Reserve(r, _) => At(s, r) && s.requests[r].Reserving?
    case RereadAfterConflict(r, _) => At(s, r) && s.requests[r].Rereading?
    case RereadAfterReserve(r, _) => At(s, r) && s.requests[r].Holding?
    case Handle(r, _) => At(s, r) && s.requests[r].Running?
    case Store(r, _) => At(s, r) && s.requests[r].Storing?
    case Release(r, _) => At(s, r) && s.requests[r].Releasing?
    case Die(r) => At(s, r) && !s.requests[r].Done?
    // A handler, with the store that follows it, ends before its lock expires.
    case Tick(d) => forall r :: r in s.requests && IsHolder(s.requests[r]) ==> s.now + d < s.requests[r].reservedAt + TTL
  }

  function Moved(s: State, r: Id, p: Phase): State
  {
    s.(requests := s.requests[r := p])
  }

  ghost function Apply(s: State, a: Action): State
    requires Enabled(s, a)
  {
    match a
    case Arrive(r, open) => Moved(s, r, if open then Done(Unavailable) else New)
    case FirstGet(r, ok) =>
      Moved(s, r, if ok && Live(s.response, s.now) then Done(Replayed(s.response.value.owner)) else Reserving)
    case Reserve(r, reply) =>
      var free := !Live(s.lock, s.now);
      var taken := free && (reply.Acked? || reply.applied);
      var s' := if taken then s.(lock := Some(Slot(r, s.now + TTL))) else s;
      Moved(s', r, if reply.Threw? then Done(Unavailable) else if free then Holding(s.now) else Rereading)
    case RereadAfterConflict(r, ok) =>
      Moved(s, r, Done(if ok && Live(s.response, s.now) then Replayed(s.response.value.owner) else Conflict))
    case RereadAfterReserve(r, ok) =>
      var live := Live(s.response, s.now);
      Moved(s, r, if ok && live then Releasing(Some(s.response.value.owner)) else Running(s.requests[r].reservedAt, s.now, live))
    case Handle(r, cacheable) =>
      var Running(reservedAt, startedAt, lost) := s.requests[r];
      Moved(s.(runs := s.runs + [Run(r, reservedAt, startedAt, s.now, cacheable, lost)]),
            r, if cacheable then Storing(reservedAt) else Releasing(None))
    case Store(r, reply) =>
      var s' := if reply.Acked? || reply.applied then s.(response := Some(Slot(r, s.now + TTL))) else s;
      Moved(s', r, if reply.Acked? then Releasing(None) else Done(Executed))
    case Release(r, deleted) =>
      var s' := if deleted && s.lock.Some? && s.lock.value.owner == r then s.(lock := None) else s;
      Moved(s', r, Done(if s.requests[r].replay.Some? then Replayed(s.requests[r].replay.value) else Executed))
    case Die(r) => Moved(s, r, Done(Died))
    case Tick(d) => s.(now := s.now + d)
  }

  ghost predicate Init(s: State)
  {
    s.response == None && s.lock == None && s.requests == map[] && s.runs == []
  }

  ghost predicate Runs(s: State, actions: seq<Action>)
    decreases |actions|
  {
    actions == [] || (Enabled(s, actions[0]) && Runs(Apply(s, actions[0]), actions[1..]))
  }

  ghost function After(s: State, actions: seq<Action>): State
    requires Runs(s, actions)
    decreases |actions|
  {
    if actions == [] then s else After(Apply(s, actions[0]), actions[1..])
  }

  // ---- Invariant ----

  // Whoever holds the lock is the one in the lock slot, and it has not expired.
  ghost predicate HoldersOk(s: State)
  {
    forall r :: r in s.requests && IsHolder(s.requests[r]) ==>
      var t := s.requests[r].reservedAt;
      s.lock == Some(Slot(r, t + TTL)) && t <= s.now < t + TTL
  }

  // A completed cacheable run is guarded for 24 hours from its reservation: by
  // the stored response, or else by its own lock, which nobody will release.
  ghost predicate Guarded(s: State, run: Run)
  {
    || (s.response.Some? && run.reservedAt + TTL <= s.response.value.expires)
    || (s.lock == Some(Slot(run.id, run.reservedAt + TTL)) && run.id in s.requests
        && (s.requests[run.id].Storing? || s.requests[run.id].Done?))
  }

  ghost predicate RunsGuarded(s: State)
  {
    forall i :: 0 <= i < |s.runs| && s.runs[i].cacheable && s.now < s.runs[i].reservedAt + TTL ==> Guarded(s, s.runs[i])
  }

  // The run starts after the other's 24 hours are over, unless its re-read was lost.
  ghost predicate Follows(startedAt: nat, lost: bool, earlier: Run)
  {
    earlier.cacheable ==> lost || earlier.reservedAt + TTL <= startedAt
  }

  ghost predicate RunningFollows(s: State)
  {
    forall r :: r in s.requests && s.requests[r].Running? ==>
      && s.requests[r].reservedAt <= s.requests[r].startedAt <= s.now
      && forall i :: 0 <= i < |s.runs| ==> Follows(s.requests[r].startedAt, s.requests[r].lost, s.runs[i])
  }

  ghost predicate RunsFollow(s: State)
  {
    && (forall i :: 0 <= i < |s.runs| ==> s.runs[i].reservedAt <= s.runs[i].startedAt <= s.runs[i].finishedAt <= s.now)
    && (forall i, j :: 0 <= i < j < |s.runs| ==> Follows(s.runs[j].startedAt, s.runs[j].lost, s.runs[i]))
  }

  ghost predicate Produced(runs: seq<Run>, r: Id)
  {
    exists i :: 0 <= i < |runs| && runs[i].id == r && runs[i].cacheable
  }

  // Only responses that a handler produced are stored or replayed.
  ghost predicate ReplaysReal(s: State)
  {
    && (s.response.Some? ==> Produced(s.runs, s.response.value.owner))
    && (forall r :: r in s.requests && s.requests[r].Storing? ==> Produced(s.runs, r))
    && (forall r :: r in s.requests && s.requests[r].Releasing? && s.requests[r].replay.Some? ==> Produced(s.runs, s.requests[r].replay.value))
    && (forall r :: r in s.requests && s.requests[r].Done? && s.requests[r].outcome.Replayed? ==> Produced(s.runs, s.requests[r].outcome.owner))
  }

  ghost predicate Inv(s: State)
  {
    HoldersOk(s) && RunsGuarded(s) && RunningFollows(s) && RunsFollow(s) && ReplaysReal(s)
  }

  lemma StepKeepsHolders(s: State, a: Action)
    requires HoldersOk(s) && Enabled(s, a)
    ensures HoldersOk(Apply(s, a))
  {
  }

  lemma StepKeepsGuards(s: State, a: Action)
    requires HoldersOk(s) && RunsGuarded(s) && RunsFollow(s) && Enabled(s, a)
    ensures RunsGuarded(Apply(s, a))
  {
  }

  // The heart of the argument: whoever has reserved the lock and finds no stored
  // response comes after the 24 hours of every earlier cacheable run.
  lemma EmptyMeansOver(s: State, r: Id, i: nat)
    requires HoldersOk(s) && RunsGuarded(s) && r in s.requests && s.requests[r].Holding?
    requires !Live(s.response, s.now) && i < |s.runs|
    ensures Follows(s.now, false, s.runs[i])
  {
    if s.runs[i].cacheable && s.now < s.runs[i].reservedAt + TTL { assert Guarded(s, s.runs[i]); }
  }

  lemma LostFollows(startedAt: nat, run: Run)
    ensures Follows(startedAt, true, run)
  {
  }

  lemma StepKeepsRunning(s: State, a: Action)
    requires HoldersOk(s) && RunsGuarded(s) && RunningFollows(s) && Enabled(s, a)
    ensures RunningFollows(Apply(s, a))
  {
    hide Follows, RunsGuarded, Live;
    if a.RereadAfterReserve? {
      forall i | 0 <= i < |s.runs| ensures Follows(s.now, Live(s.response, s.now), s.runs[i]) {
        if Live(s.response, s.now) { LostFollows(s.now, s.runs[i]); } else { EmptyMeansOver(s, a.r, i); }
      }
    }
  }

  lemma StepKeepsOrder(s: State, a: Action)
    requires RunningFollows(s) && RunsFollow(s) && Enabled(s, a)
    ensures RunsFollow(Apply(s, a))
  {
    hide Follows, Live;
  }

  lemma ProducedGrows(runs: seq<Run>, run: Run)
    ensures forall r :: Produced(runs, r) ==> Produced(runs + [run], r)
    ensures run.cacheable ==> Produced(runs + [run], run.id)
  {
    var runs' := runs + [run];
    forall r | Produced(runs, r) ensures Produced(runs', r) {
      var i :| 0 <= i < |runs| && runs[i].id == r && runs[i].cacheable;
      assert runs'[i] == runs[i];
    }
    assert runs'[|runs|] == run;
  }

  lemma StepKeepsReplays(s: State, a: Action)
    requires ReplaysReal(s) && Enabled(s, a)
    ensures ReplaysReal(Apply(s, a))
  {
    hide Produced;
    if a.Handle? {
      var p := s.requests[a.r];
      ProducedGrows(s.runs, Run(a.r, p.reservedAt, p.startedAt, s.now, a.cacheable, p.lost));
    }
  }

  lemma StepKeepsInv(s: State, a: Action)
    requires Inv(s) && Enabled(s, a)
    ensures Inv(Apply(s, a))
  {
    hide HoldersOk, RunsGuarded, RunningFollows, RunsFollow, ReplaysReal, Apply;
    StepKeepsHolders(s, a);
    StepKeepsGuards(s, a);
    StepKeepsRunning(s, a);
    StepKeepsOrder(s, a);
    StepKeepsReplays(s, a);
  }

  lemma {:induction false} RunKeepsInv(s: State, actions: seq<Action>)
    requires Inv(s) && Runs(s, actions)
    ensures Inv(After(s, actions))
    decreases |actions|
  {
    hide Inv, Apply, Enabled;
    if actions != [] {
      StepKeepsInv(s, actions[0]);
      RunKeepsInv(Apply(s, actions[0]), actions[1..]);
    }
  }

  // ---- What every interleaving guarantees ----

  // Two handlers never run at once.
  lemma MutualExclusion(s: State, actions: seq<Action>, q: Id, r: Id)
    requires Init(s) && Runs(s, actions)
    requires
      var s' := After(s, actions);
      q in s'.requests && r in s'.requests && s'.requests[q].Running? && s'.requests[r].Running?
    ensures q == r
  {
    RunKeepsInv(s, actions);
  }

  // Of two runs that both end in a cacheable response, the later one starts at
  // least 24 hours after the earlier one's reservation, even when storing the
  // response failed; the only exception is a run whose re-read, after it had
  // reserved the lock, came back empty although a response was stored.
  lemma AtMostOneCacheableRun(s: State, actions: seq<Action>, i: nat, j: nat)
    requires Init(s) && Runs(s, actions)
    requires
      var runs := After(s, actions).runs;
      i < j < |runs| && runs[i].cacheable && runs[j].cacheable && !runs[j].lost
    ensures
      var runs := After(s, actions).runs;
      runs[i].reservedAt + 24 * 60 * 60 <= runs[j].startedAt <= runs[j].finishedAt
  {
    RunKeepsInv(s, actions);
    var runs := After(s, actions).runs;
    assert Follows(runs[j].startedAt, runs[j].lost, runs[i]);
  }

  // A replayed response is one that some handler run produced.
  lemma ReplayIsReal(s: State, actions: seq<Action>, r: Id, owner: Id)
    requires Init(s) && Runs(s, actions)
    requires r in After(s, actions).requests && After(s, actions).requests[r] == Done(Replayed(owner))
    ensures Produced(After(s, actions).runs, owner)
  {
    RunKeepsInv(s, actions);
  }

  // The exception is real wherever it can arise: whenever a request has reserved
  // the lock while a response is stored, one failing read sends it into the
  // handler at once, before the stored response expires, and a second cacheable
  // run follows.
  lemma LostRereadRunsAgain(s: State, r: Id)
    requires Inv(s) && r in s.requests && s.requests[r].Holding? && Live(s.response, s.now)
    ensures
      var actions := [RereadAfterReserve(r, false), Handle(r, true)];
      && Runs(s, actions)
      && var runs := After(s, actions).runs;
         && Produced(s.runs, s.response.value.owner)
         && runs == s.runs + [Run(r, s.requests[r].reservedAt, s.now, s.now, true, true)] && s.now < s.response.value.expires
  {
    var actions := [RereadAfterReserve(r, false), Handle(r, true)];
    var s1 := Apply(s, actions[0]);
    var s2 := Apply(s1, actions[1]);
    assert actions[1..] == [Handle(r, true)] && [Handle(r, true)][1..] == [];
    assert Runs(s2, []) && Runs(s1, [Handle(r, true)]);
    assert After(s1, [Handle(r, true)]) == s2;
  }

  // From scratch and in no time: request 1 completes and stores its response;
  // request 2 misses it on its first read, reserves the free lock, misses it
  // again, and the handler has run twice within the 24 hours.
  lemma HandlerCanRunTwice(s: State) returns (actions: seq<Action>)
    requires Init(s)
    ensures Runs(s, actions)
    ensures
      var runs := After(s, actions).runs;
      |runs| == 2 && runs[0].cacheable && runs[1].cacheable && runs[1].lost && runs[1].startedAt < runs[0].reservedAt + TTL
  {
    actions := StoreAndReserve(s);
    var s1 := After(s, actions);
    actions := Extend(s, actions, RereadAfterReserve(2, false));
    actions := Extend(s, actions, Handle(2, true));
  }

  lemma StoreAndReserve(s: State) returns (actions: seq<Action>)
    requires Init(s)
    ensures Runs(s, actions)
    ensures
      var s' := After(s, actions);
      && s'.now == s.now && 2 in s'.requests && s'.requests[2].Holding? && Live(s'.response, s'.now)
      && s'.runs == [Run(1, s.now, s.now, s.now, true, false)]
  {
    actions := [];
    actions := Extend(s, actions, Arrive(1, false));
    actions := Extend(s, actions, FirstGet(1, true));
    actions := Extend(s, actions, Reserve(1, Acked));
    actions := Extend(s, actions, RereadAfterReserve(1, true));
    actions := Extend(s, actions, Handle(1, true));
    actions := Extend(s, actions, Store(1, Acked));
    actions := Extend(s, actions, Release(1, true));
    actions := Extend(s, actions, Arrive(2, false));
    actions := Extend(s, actions, FirstGet(2, false));
    actions := Extend(s, actions, Reserve(2, Acked));
  }

  lemma {:induction false} Extend(s: State, actions: seq<Action>, a: Action) returns (actions': seq<Action>)
    requires Runs(s, actions) && Enabled(After(s, actions), a)
    ensures actions' == actions + [a] && Runs(s, actions') && After(s, actions') == Apply(After(s, actions), a)
    decreases |actions|
  {
    hide Apply, Enabled;
    actions' := actions + [a];
    if actions == [] {
      assert actions'[1..] == [];
    } else {
      var rest := Extend(Apply(s, actions[0]), actions[1..], a);
      assert actions'[1..] == rest;
    }
  }
}
