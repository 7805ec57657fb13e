// The pause guard: one process's view of whether contract operations are
// paused, over a database and a cache that may fail at any time. Each exported
// operation is one step.
module PauseGuard {
  import opened Prelude

  datatype Source = Database | Cache | Memory | FailClosed | Unloaded

  datatype PauseState = PauseState(isPaused: bool, pausedAt: Option<int>, reason: Option<string>, contracts: seq<string>, source: Source)

  datatype Pending = Pending(reason: Option<string>, contracts: seq<string>)

  // The pause_state row, and the state mirrored to the cache.
  datatype Row = Row(isPaused: bool, pausedAt: Option<int>, reason: Option<string>, contracts: seq<string>)

  datatype DbRead = ReadFailed | ReadOk(row: Option<Row>)

  // The module's variables; `alerts` is the log of alerts raised.
  datatype Guard = Guard(state: PauseState, pending: Option<Pending>, alerted: Option<Source>, alerts: seq<Source>)

  const UNVERIFIED_REASON := "Pause state could not be verified (database unavailable)"

  const START := Guard(PauseState(false, None, None, [], Unloaded), None, None, [])

  function FromRow(row: Row, source: Source): PauseState
  {
    PauseState(row.isPaused, row.pausedAt, row.reason, row.contracts, source)
  }

  // reason || null
  function NonEmpty(reason: Option<string>): Option<string>
  {
    if reason.Some? && reason.value == "" then None else reason
  }

  // A state that came from somewhere, as opposed to a guess.
  predicate IsReal(source: Source)
  {
    source.Database? || source.Cache? || source.Memory?
  }

  function WithAlert(g: Guard, source: Source): Guard
  {
    if g.alerted == Some(source) then g else g.(alerted := Some(source), alerts := g.alerts + [source])
  }

  function Applied(g: Guard, next: PauseState): Guard
  {
    var g' := g.(state := next);
    if next.source.Database? then g'.(alerted := None) else WithAlert(g', next.source)
  }

  // The fallback with the state it captured before it awaited the cache.
  function FellBackFrom(g: Guard, known: PauseState, cached: Option<Row>): Guard
  {
    if cached.Some? then
      if known.isPaused && !cached.value.isPaused && IsReal(known.source) then Applied(g, known.(source := Memory))
      else Applied(g, FromRow(cached.value, Cache))
    else if IsReal(known.source) then Applied(g, known.(source := Memory))
    else Applied(g, PauseState(true, known.pausedAt, Some(UNVERIFIED_REASON), known.contracts, FailClosed))
  }

  function FellBack(g: Guard, cached: Option<Row>): Guard
  {
    FellBackFrom(g, g.state, cached)
  }

  function PauseSet(g: Guard, isPaused: bool, contracts: seq<string>, reason: Option<string>, now: int, written: bool): Guard
  {
    if written then
      Applied(g.(pending := None), PauseState(isPaused, if isPaused then Some(now) else None, NonEmpty(reason), contracts, Database))
    else if isPaused then
      Applied(g.(pending := Some(Pending(NonEmpty(reason), contracts))), PauseState(true, Some(now), NonEmpty(reason), contracts, Memory))
    else g
  }

  function Refreshed(g: Guard, read: DbRead, cached: Option<Row>, now: int, written: bool): Guard
  {
    if read.ReadFailed? then FellBack(g, cached)
    else if g.pending.Some? && !(read.row.Some? && read.row.value.isPaused) then
      PauseSet(g, true, g.pending.value.contracts, g.pending.value.reason, now, written)
    else
      Applied(g.(pending := None),
              if read.row.Some? then FromRow(read.row.value, Database) else PauseState(false, None, None, [], Database))
  }

  // pauseGuard: reads pass, writes are rejected while paused.
  predicate Rejects(g: Guard, verb: string)
  {
    verb !in {"GET", "HEAD", "OPTIONS"} && g.state.isPaused
  }

  class GuardModule {
    var globalPauseState: PauseState
    var pendingPause: Option<Pending>
    var alertedSource: Option<Source>
    var alerts: seq<Source>

    ghost function View(): Guard
      reads this
    {
      Guard(globalPauseState, pendingPause, alertedSource, alerts)
    }

    constructor ()
      ensures View() == START
    {
      globalPauseState := PauseState(false, None, None, [], Unloaded);
      pendingPause, alertedSource, alerts := None, None, [];
    }

    method ApplyState(next: PauseState)
      modifies this
      ensures View() == Applied(old(View()), next)
    {
      globalPauseState := next;
      if next.source.Database? {
        alertedSource := None;
        return;
      }
      RaiseFallbackAlert(next.source);
    }

    method RaiseFallbackAlert(source: Source)
      modifies this
      ensures View() == WithAlert(old(View()), source)
    {
      if alertedSource == Some(source) { return; }
      alertedSource := Some(source);
      alerts := alerts + [source];
    }

    method FallBackFromDatabase(cached: Option<Row>)
      modifies this
      ensures View() == FellBack(old(View()), cached)
    {
      var known := globalPauseState;
      if cached.Some? {
        if known.isPaused && !cached.value.isPaused && IsReal(known.source) {
          ApplyState(known.(source := Memory));
          return;
        }
        ApplyState(FromRow(cached.value, Cache));
        return;
      }
      if IsReal(known.source) {
        ApplyState(known.(source := Memory));
        return;
      }
      ApplyState(PauseState(true, known.pausedAt, Some(UNVERIFIED_REASON), known.contracts, FailClosed));
    }

    // Returns whether it ended without throwing.
    method SetPauseState(isPaused: bool, contracts: seq<string>, reason: Option<string>, now: int, written: bool) returns (ok: bool)
      modifies this
      ensures View() == PauseSet(old(View()), isPaused, contracts, reason, now, written) && ok == written
    {
      if written {
        pendingPause := None;
        ApplyState(PauseState(isPaused, if isPaused then Some(now) else None, NonEmpty(reason), contracts, Database));
        return true;
      }
      if isPaused {
        pendingPause := Some(Pending(NonEmpty(reason), contracts));
        ApplyState(PauseState(isPaused, Some(now), NonEmpty(reason), contracts, Memory));
      }
      return false;
    }

    method UpdatePauseStateFromDatabase(read: DbRead, cached: Option<Row>, now: int, written: bool)
      modifies this
      ensures View() == Refreshed(old(View()), read, cached, now, written)
      ensures read.ReadOk? ==>
        (globalPauseState.isPaused <==> old(pendingPause).Some? || (read.row.Some? && read.row.value.isPaused))
    {
      if read.ReadFailed? {
        FallBackFromDatabase(cached);
        return;
      }
      if pendingPause.Some? && !(read.row.Some? && read.row.value.isPaused) {
        var _ := SetPauseState(true, pendingPause.value.contracts, pendingPause.value.reason, now, written);
        return;
      }
      pendingPause := None;
      if read.row.Some? {
        ApplyState(FromRow(read.row.value, Database));
      } else {
        ApplyState(PauseState(false, None, None, [], Database));
      }
    }
  }

  // ---- Runs of operations ----

  datatype Operation =
    | Refresh(read: DbRead, cached: Option<Row>, now: int, written: bool)
    | Set(isPaused: bool, contracts: seq<string>, reason: Option<string>, now: int, written: bool)

  function Step(g: Guard, op: Operation): Guard
  {
    match op
    case Refresh(read, cached, now, written) => Refreshed(g, read, cached, now, written)
    case Set(isPaused, contracts, reason, now, written) => PauseSet(g, isPaused, contracts, reason, now, written)
  }

  function Run(g: Guard, ops: seq<Operation>): Guard
    decreases |ops|
  {
    if ops == [] then g else Run(Step(g, ops[0]), ops[1..])
  }

  // A pause that was set, or learned from the database, the cache or memory.
  ghost predicate RealPause(g: Guard)
  {
    g.state.isPaused && IsReal(g.state.source)
  }

  // The database itself says "not paused" and no pause is waiting to be written.
  ghost predicate Lifts(g: Guard, op: Operation)
  {
    match op
    case Refresh(read, _, _, _) => read.ReadOk? && !(read.row.Some? && read.row.value.isPaused) && g.pending.None?
    case Set(isPaused, _, _, _, written) => !isPaused && written
  }

  // One operation ends a real pause if and only if it lifts it.
  lemma PauseEndsIff(g: Guard, op: Operation)
    requires RealPause(g)
    ensures RealPause(Step(g, op)) <==> !Lifts(g, op)
    ensures Step(g, op).state.isPaused <==> !Lifts(g, op)
  {
  }

  ghost predicate NeverLifted(g: Guard, ops: seq<Operation>)
    decreases |ops|
  {
    ops == [] || (!Lifts(g, ops[0]) && NeverLifted(Step(g, ops[0]), ops[1..]))
  }

  // Once paused, every mutating request is rejected after any sequence of
  // operations with any failures, until the database lifts the pause.
  lemma {:induction false} PauseHolds(g: Guard, ops: seq<Operation>, verb: string)
    requires RealPause(g) && NeverLifted(g, ops) && verb !in {"GET", "HEAD", "OPTIONS"}
    ensures RealPause(Run(g, ops)) && Rejects(Run(g, ops), verb)
    decreases |ops|
  {
    hide Step, Lifts;
    if ops != [] {
      PauseEndsIff(g, ops[0]);
      PauseHolds(Step(g, ops[0]), ops[1..], verb);
    }
  }

  // Setting a pause takes effect whether or not it could be written.
  lemma SetPauseTakesEffect(g: Guard, contracts: seq<string>, reason: Option<string>, now: int, written: bool)
    ensures RealPause(PauseSet(g, true, contracts, reason, now, written))
    ensures PauseSet(g, true, contracts, reason, now, written).pending.Some? <==> !written
  {
  }

  // A pause that was only assumed can be lifted by a cached "not paused": after
  // a failed first load, a mirror that answers is believed.
  lemma AssumedPauseYieldsToCache(g: Guard, cached: Row, now: int, written: bool)
    requires g.state.source == FailClosed && !cached.isPaused
    ensures !Step(g, Refresh(ReadFailed, Some(cached), now, written)).state.isPaused
  {
  }

  // Operations are not atomic across the await of the cache: a fallback may
  // capture the state, let other operations `during` run, and then go by what it
  // captured. If they paused the guard, it stays paused if and only if the
  // mirror or the captured state says so, or neither says anything; and a
  // pending pause is not touched, so it may be pending and not enforced.
  lemma StaleFallback(before: seq<Operation>, during: seq<Operation>, cached: Option<Row>)
    requires RealPause(Run(Run(START, before), during))
    ensures
      var known := Run(START, before).state;
      var g := Run(Run(START, before), during);
      var g' := FellBackFrom(g, known, cached);
      && g'.pending == g.pending
      && (g'.state.isPaused <==>
            || (cached.Some? && cached.value.isPaused)
            || (IsReal(known.source) && known.isPaused)
            || (cached.None? && !IsReal(known.source)))
  {
  }

  // It happens: a guard that knows it is not paused starts to fall back, a pause
  // is set that cannot be written, and the fallback then undoes it in memory.
  lemma FallbackUndoesPause(contracts: seq<string>, reason: Option<string>, now: int, verb: string)
    ensures
      var before := [Refresh(ReadOk(Some(Row(false, None, None, []))), None, now, true)];
      var during := [Set(true, contracts, reason, now, false)];
      var known, g := Run(START, before).state, Run(Run(START, before), during);
      var g' := FellBackFrom(g, known, None);
      RealPause(g) && g'.pending.Some? && !g'.state.isPaused && !Rejects(g', verb)
  {
    RunOne(START, Refresh(ReadOk(Some(Row(false, None, None, []))), None, now, true));
    RunOne(Step(START, Refresh(ReadOk(Some(Row(false, None, None, []))), None, now, true)), Set(true, contracts, reason, now, false));
  }

  lemma RunOne(g: Guard, op: Operation)
    ensures Run(g, [op]) == Step(g, op)
  {
    assert [op][1..] == [];
    assert Run(Step(g, op), []) == Step(g, op);
  }

  // A pending pause is enforced again from the next read of the database on.
  lemma PendingPauseReturns(g: Guard, row: Option<Row>, cached: Option<Row>, now: int, written: bool)
    requires g.pending.Some?
    ensures RealPause(Step(g, Refresh(ReadOk(row), cached, now, written)))
  {
  }

  ghost predicate IsFallback(source: Source)
  {
    source.Cache? || source.Memory? || source.FailClosed?
  }

  ghost predicate Inv(g: Guard)
  {
    && (g.pending.Some? ==> RealPause(g))
    && (g.state.source == FailClosed ==> g.state.isPaused)
    && g.alerted == (if IsFallback(g.state.source) then Some(g.state.source) else None)
  }

  // An operation raises an alert exactly when it moves to another fallback source.
  ghost predicate AlertsOnChange(g: Guard, g': Guard)
  {
    g'.alerts == if IsFallback(g'.state.source) && g'.state.source != g.state.source then g.alerts + [g'.state.source] else g.alerts
  }

  // Taking over a state keeps the bookkeeping, whatever the state is.
  lemma AppliedAlerts(g: Guard, pending: Option<Pending>, next: PauseState)
    requires Inv(g) && !next.source.Unloaded?
    requires (pending.Some? ==> next.isPaused && IsReal(next.source)) && (next.source == FailClosed ==> next.isPaused)
    ensures
      var g' := Applied(g.(pending := pending), next);
      Inv(g') && AlertsOnChange(g, g') && g'.state == next && g'.pending == pending
  {
  }

  lemma StepKeepsInv(g: Guard, op: Operation)
    requires Inv(g)
    ensures Inv(Step(g, op)) && AlertsOnChange(g, Step(g, op))
  {
    hide Applied, AlertsOnChange;
    match op
    case Set(isPaused, contracts, reason, now, written) => SetKeepsInv(g, isPaused, contracts, reason, now, written);
    case Refresh(read, cached, now, written) =>
      if read.ReadFailed? {
        FallBackKeepsInv(g, cached);
      } else if g.pending.Some? && !(read.row.Some? && read.row.value.isPaused) {
        SetKeepsInv(g, true, g.pending.value.contracts, g.pending.value.reason, now, written);
      } else {
        AppliedAlerts(g, None, if read.row.Some? then FromRow(read.row.value, Database) else PauseState(false, None, None, [], Database));
      }
  }

  lemma SetKeepsInv(g: Guard, isPaused: bool, contracts: seq<string>, reason: Option<string>, now: int, written: bool)
    requires Inv(g)
    ensures
      var g' := PauseSet(g, isPaused, contracts, reason, now, written);
      Inv(g') && AlertsOnChange(g, g')
  {
    hide Applied;
    if written {
      AppliedAlerts(g, None, PauseState(isPaused, if isPaused then Some(now) else None, NonEmpty(reason), contracts, Database));
    } else if isPaused {
      AppliedAlerts(g, Some(Pending(NonEmpty(reason), contracts)), PauseState(true, Some(now), NonEmpty(reason), contracts, Memory));
    }
  }

  lemma FallBackKeepsInv(g: Guard, cached: Option<Row>)
    requires Inv(g)
    ensures Inv(FellBack(g, cached)) && AlertsOnChange(g, FellBack(g, cached))
  {
    hide Applied, AlertsOnChange;
    assert g.(pending := g.pending) == g;
    var known := g.state;
    if cached.Some? && !(known.isPaused && !cached.value.isPaused && IsReal(known.source)) {
      AppliedAlerts(g, g.pending, FromRow(cached.value, Cache));
    } else if IsReal(known.source) {
      AppliedAlerts(g, g.pending, known.(source := Memory));
    } else {
      AppliedAlerts(g, g.pending, PauseState(true, known.pausedAt, Some(UNVERIFIED_REASON), known.contracts, FailClosed));
    }
  }

  // From startup, over all operations: a pending pause is always enforced, a
  // failed-closed guard is always paused, and an outage alerts once per source.
  lemma {:induction false} GuardInvariant(g: Guard, ops: seq<Operation>)
    requires Inv(g)
    ensures Inv(Run(g, ops))
    decreases |ops|
  {
    hide Step, Inv;
    if ops != [] {
      StepKeepsInv(g, ops[0]);
      GuardInvariant(Step(g, ops[0]), ops[1..]);
    }
  }

  lemma FromStartup(ops: seq<Operation>)
    ensures
      var g := Run(START, ops);
      && (g.pending.Some? ==> g.state.isPaused) && (g.state.source == FailClosed ==> g.state.isPaused)
      && (forall verb :: g.pending.Some? && verb !in {"GET", "HEAD", "OPTIONS"} ==> Rejects(g, verb))
  {
    GuardInvariant(START, ops);
  }

  // ---- What each operation leaves, for every guard ----

  // After a successful read the guard is paused if and only if the row says so
  // or a pause is pending; and it reports what the row or the pending pause says.
  lemma ReadDecides(g: Guard, row: Option<Row>, cached: Option<Row>, now: int, written: bool)
    ensures
      var g' := Step(g, Refresh(ReadOk(row), cached, now, written));
      && (g'.state.isPaused <==> g.pending.Some? || (row.Some? && row.value.isPaused))
      && (row.Some? && (row.value.isPaused || g.pending.None?) ==>
            && g'.state == PauseState(row.value.isPaused, row.value.pausedAt, row.value.reason, row.value.contracts, Database)
            && g'.pending == None)
      && (row.None? && g.pending.None? ==> g'.state == PauseState(false, None, None, [], Database) && g'.pending == None)
      && (g.pending.Some? && !(row.Some? && row.value.isPaused) ==>
            && g'.state.contracts == g.pending.value.contracts && g'.state.pausedAt == Some(now)
            && g'.state.reason == (if g.pending.value.reason == Some("") then None else g.pending.value.reason)
            && g'.state.source == (if written then Database else Memory) && (g'.pending.Some? <==> !written))
  {
  }

  // After a failed read it is paused if and only if the mirror says so, or the
  // state it had from a real source says so, or there is neither.
  lemma FailedReadDecides(g: Guard, cached: Option<Row>, now: int, written: bool)
    ensures
      var g' := Step(g, Refresh(ReadFailed, cached, now, written));
      var trusted := g.state.source in {Database, Cache, Memory};
      var kept := trusted && (cached.None? || (g.state.isPaused && !cached.value.isPaused));
      && g'.pending == g.pending
      && (g'.state.isPaused <==>
            (cached.Some? && cached.value.isPaused) || (trusted && g.state.isPaused) || (cached.None? && !trusted))
      && (kept ==> g'.state == PauseState(g.state.isPaused, g.state.pausedAt, g.state.reason, g.state.contracts, Memory))
      && (!kept && cached.Some? ==>
            g'.state == PauseState(cached.value.isPaused, cached.value.pausedAt, cached.value.reason, cached.value.contracts, Cache))
      && (!kept && cached.None? ==>
            g'.state == PauseState(true, g.state.pausedAt, Some(UNVERIFIED_REASON), g.state.contracts, FailClosed))
  {
  }

  // Setting the state: written, it is what was asked for; not written, a pause is
  // enforced all the same and kept, and lifting one changes nothing.
  lemma SetDecides(g: Guard, isPaused: bool, contracts: seq<string>, reason: Option<string>, now: int, written: bool)
    ensures
      var g' := Step(g, Set(isPaused, contracts, reason, now, written));
      var told := if reason == Some("") then None else reason;
      && (written ==> g'.pending == None && g'.state == PauseState(isPaused, if isPaused then Some(now) else None, told, contracts, Database))
      && (!written && isPaused ==>
            g'.pending == Some(Pending(told, contracts)) && g'.state == PauseState(true, Some(now), told, contracts, Memory))
      && (!written && !isPaused ==> g' == g)
  {
  }

  // Requests that only read pass whatever the state; all others pass exactly
  // while the guard is not paused.
  lemma RejectedIff(g: Guard, verb: string)
    ensures verb == "GET" || verb == "HEAD" || verb == "OPTIONS" ==> !Rejects(g, verb)
    ensures verb != "GET" && verb != "HEAD" && verb != "OPTIONS" ==> (Rejects(g, verb) <==> g.state.isPaused)
  {
  }

  // A pause is learned: whatever happened since startup, a refresh that reads
  // "paused" has every mutating request rejected until the pause is lifted.
  lemma LearnedPauseHolds(before: seq<Operation>, row: Row, cached: Option<Row>, now: int, written: bool, after: seq<Operation>, verb: string)
    requires row.isPaused && verb !in {"GET", "HEAD", "OPTIONS"}
    requires NeverLifted(Step(Run(START, before), Refresh(ReadOk(Some(row)), cached, now, written)), after)
    ensures Rejects(Run(Step(Run(START, before), Refresh(ReadOk(Some(row)), cached, now, written)), after), verb)
  {
    hide Step, Lifts, Run;
    var g := Run(START, before);
    ReadDecides(g, Some(row), cached, now, written);
    PauseHolds(Step(g, Refresh(ReadOk(Some(row)), cached, now, written)), after, verb);
  }
}
