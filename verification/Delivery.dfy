// What the pipeline delivers over whole runs: one batch in flight per contract,
// and every event from the ledger at which indexing started.
module Delivery {
  import opened Prelude
  import opened Chain
  import opened Fetching
  import opened DeadLetters
  import opened Checkpoints
  import opened Worker
  import opened Pipeline

  // ---- One batch in flight per contract ----

  // Whoever holds a batch, its fetcher is waiting for exactly that batch.
  ghost predicate Awaited(s: State, b: Batch)
  {
    b.contract in s.fetchers && s.fetchers[b.contract] == Waiting(b)
  }

  ghost predicate AllAwaited(s: State)
  {
    && (forall i :: 0 <= i < |s.channel| ==> Awaited(s, s.channel[i]))
    && (forall w :: 0 <= w < |s.workers| && s.workers[w].Busy? ==> Awaited(s, s.workers[w].job.batch))
  }

  ghost predicate OnePerContract(s: State)
  {
    && (forall i, j :: 0 <= i < j < |s.channel| ==> s.channel[i].contract != s.channel[j].contract)
    && (forall v, w :: 0 <= v < w < |s.workers| && s.workers[v].Busy? && s.workers[w].Busy? ==>
          s.workers[v].job.batch.contract != s.workers[w].job.batch.contract)
    && (forall i, w :: 0 <= i < |s.channel| && 0 <= w < |s.workers| && s.workers[w].Busy? ==>
          s.channel[i].contract != s.workers[w].job.batch.contract)
  }

  ghost predicate OneInFlight(s: State)
  {
    AllAwaited(s) && OnePerContract(s)
  }

  lemma StepKeepsAwaited(cfg: Config, s: State, a: Action)
    requires OneInFlight(s) && Enabled(cfg, s, a)
    ensures AllAwaited(Apply(cfg, s, a))
  {
    hide Honest, RoundOf, InRange, Leaves, Pushed, Save, Missed;
  }

  lemma StepKeepsOnePerContract(cfg: Config, s: State, a: Action)
    requires OneInFlight(s) && Enabled(cfg, s, a)
    ensures OnePerContract(Apply(cfg, s, a))
  {
    hide Honest, RoundOf, InRange, Leaves, Pushed, Save, Missed;
  }

  lemma StepKeepsOneInFlight(cfg: Config, s: State, a: Action)
    requires OneInFlight(s) && Enabled(cfg, s, a)
    ensures OneInFlight(Apply(cfg, s, a))
  {
    hide Apply, Enabled, AllAwaited, OnePerContract;
    StepKeepsAwaited(cfg, s, a);
    StepKeepsOnePerContract(cfg, s, a);
  }

  // Backpressure: at no time does a contract have two batches under way, so
  // its ranges are processed one after the other whatever the workers do.
  lemma {:induction false} Backpressure(cfg: Config, s: State, actions: seq<Action>)
    requires OneInFlight(s) && Runs(cfg, s, actions)
    ensures OneInFlight(After(cfg, s, actions))
    decreases |actions|
  {
    hide OneInFlight, Apply, Enabled;
    if actions != [] {
      StepKeepsOneInFlight(cfg, s, actions[0]);
      Backpressure(cfg, Apply(cfg, s, actions[0]), actions[1..]);
    }
  }

  // The channel never holds more batches than its capacity.
  lemma {:induction false} ChannelBounded(cfg: Config, s: State, actions: seq<Action>)
    requires |s.channel| <= cfg.capacity && Runs(cfg, s, actions)
    ensures |After(cfg, s, actions).channel| <= cfg.capacity
    decreases |actions|
  {
    hide Honest, RoundOf, InRange, Leaves, Pushed, Missed, Save;
    if actions != [] { ChannelBounded(cfg, Apply(cfg, s, actions[0]), actions[1..]); }
  }

  // ---- Where indexing of a contract started ----

  // A boot of the contract that finds no checkpoint starts at the safe tip; one
  // that finds a checkpoint does not start anew.
  ghost function Started(cfg: Config, s: State, a: Action, c: string, start: Option<nat>): Option<nat>
  {
    if a.Boot? && a.contract == c && Load(s.store, c).None? then Some(SafeTip(cfg, a.tip)) else start
  }

  // The start ledger of the last boot of c, if any, that found no checkpoint.
  ghost function StartLedger(cfg: Config, s: State, actions: seq<Action>, c: string, start: Option<nat> := None): Option<nat>
    requires Runs(cfg, s, actions)
    decreases |actions|
  {
    if actions == [] then start
    else StartLedger(cfg, Apply(cfg, s, actions[0]), actions[1..], c, Started(cfg, s, actions[0], c, start))
  }

  function OriginOf(f: Fetcher): nat
    requires !f.Starting?
  {
    match f
    case Idle(_, origin) => origin
    case Waiting(b) => b.origin
    case Acked(b, _) => b.origin
  }

  // The history fields of c all say where c started, and what is on disk is
  // also in the cache.
  ghost predicate StartsAt(s: State, c: string, start: Option<nat>)
  {
    && (c in s.fetchers && !s.fetchers[c].Starting? ==> start == Some(OriginOf(s.fetchers[c])))
    && (c in Held(s.store) ==> start == Some(Held(s.store)[c].batch.origin))
    && (c in Durable(s.store) ==> c in Held(s.store) && start == Some(Durable(s.store)[c].batch.origin))
  }

  lemma StepKeepsStart(cfg: Config, s: State, a: Action, c: string, start: Option<nat>)
    requires OneInFlight(s) && StartsAt(s, c, start) && Enabled(cfg, s, a)
    ensures StartsAt(Apply(cfg, s, a), c, Started(cfg, s, a, c, start))
  {
    hide Honest, RoundOf, InRange, Leaves, Pushed, Missed;
  }

  lemma {:induction false} RunKeepsStart(cfg: Config, s: State, actions: seq<Action>, c: string, start: Option<nat>)
    requires OneInFlight(s) && StartsAt(s, c, start) && Runs(cfg, s, actions)
    ensures StartsAt(After(cfg, s, actions), c, StartLedger(cfg, s, actions, c, start))
    decreases |actions|
  {
    hide OneInFlight, StartsAt, Apply, Enabled, Started;
    if actions != [] {
      StepKeepsOneInFlight(cfg, s, actions[0]);
      StepKeepsStart(cfg, s, actions[0], c, start);
      RunKeepsStart(cfg, Apply(cfg, s, actions[0]), actions[1..], c, Started(cfg, s, actions[0], c, start));
    }
  }

  // A checkpoint on disk is never dropped, and a restart finds it.
  ghost predicate OnRecord(store: Store, c: string)
  {
    c in Durable(store) && c in Held(store)
  }

  // Once c has a durable checkpoint its start ledger is settled: no failure,
  // crash or restart that follows starts c anew.
  lemma {:induction false} StartIsSettled(cfg: Config, s: State, actions: seq<Action>, c: string, start: Option<nat>)
    requires OnRecord(s.store, c) && Runs(cfg, s, actions)
    ensures StartLedger(cfg, s, actions, c, start) == start && OnRecord(After(cfg, s, actions).store, c)
    decreases |actions|
  {
    hide Honest, RoundOf, InRange, Leaves, Pushed, Missed;
    if actions != [] {
      assert OnRecord(Apply(cfg, s, actions[0]).store, c);
      StartIsSettled(cfg, Apply(cfg, s, actions[0]), actions[1..], c, start);
    }
  }

  lemma {:induction false} StartSplits(cfg: Config, s: State, before: seq<Action>, after: seq<Action>, c: string, start: Option<nat>)
    requires Runs(cfg, s, before) && Runs(cfg, After(cfg, s, before), after)
    ensures Runs(cfg, s, before + after) && After(cfg, s, before + after) == After(cfg, After(cfg, s, before), after)
    ensures StartLedger(cfg, s, before + after, c, start)
         == StartLedger(cfg, After(cfg, s, before), after, c, StartLedger(cfg, s, before, c, start))
    decreases |before|
  {
    hide Apply, Enabled, Started;
    if before == [] {
      assert before + after == after;
    } else {
      assert (before + after)[1..] == before[1..] + after;
      StartSplits(cfg, Apply(cfg, s, before[0]), before[1..], after, c, Started(cfg, s, before[0], c, start));
    }
  }

  // The start ledger of a contract with a durable checkpoint is the same in
  // every continuation of the run.
  lemma StartLedgerFixed(cfg: Config, s: State, before: seq<Action>, after: seq<Action>, c: string)
    requires Init(cfg, s) && Runs(cfg, s, before) && Runs(cfg, After(cfg, s, before), after)
    requires c in Durable(After(cfg, s, before).store)
    ensures Runs(cfg, s, before + after) && StartLedger(cfg, s, before + after, c) == StartLedger(cfg, s, before, c)
    ensures StartLedger(cfg, s, before, c).Some? && c in Durable(After(cfg, s, before + after).store)
  {
    hide Apply, Enabled, StartLedger, Runs, After;
    InitStarts(cfg, s, c);
    RunKeepsStart(cfg, s, before, c, None);
    StartIsSettled(cfg, After(cfg, s, before), after, c, StartLedger(cfg, s, before, c));
    StartSplits(cfg, s, before, after, c, None);
  }

  lemma InitStarts(cfg: Config, s: State, c: string)
    requires Init(cfg, s)
    ensures StartsAt(s, c, None) && OneInFlight(s) && Inv(cfg, s)
  {
  }

  // ---- Where checkpoints come from ----

  // The batch a fetch sends.
  ghost function Sent(cfg: Config, s: State, a: Action): set<Batch>
    requires Enabled(cfg, s, a)
  {
    if a.Fetch? then {Apply(cfg, s, a).fetchers[a.contract].batch} else {}
  }

  // Every batch the fetches of a run have sent.
  ghost function SentIn(cfg: Config, s: State, actions: seq<Action>): set<Batch>
    requires Runs(cfg, s, actions)
    decreases |actions|
  {
    if actions == [] then {} else Sent(cfg, s, actions[0]) + SentIn(cfg, Apply(cfg, s, actions[0]), actions[1..])
  }

  ghost predicate MarksFrom(marks: Marks, sent: set<Batch>)
  {
    forall c :: c in marks ==> marks[c].batch in sent
  }

  ghost predicate AllFrom(s: State, sent: set<Batch>)
  {
    && MarksFrom(Held(s.store), sent) && MarksFrom(Durable(s.store), sent)
    && (forall i :: 0 <= i < |s.channel| ==> s.channel[i] in sent)
    && (forall w :: 0 <= w < |s.workers| && s.workers[w].Busy? ==> s.workers[w].job.batch in sent)
  }

  lemma StepKeepsFrom(cfg: Config, s: State, a: Action, sent: set<Batch>)
    requires AllFrom(s, sent) && Enabled(cfg, s, a)
    ensures AllFrom(Apply(cfg, s, a), sent + Sent(cfg, s, a))
  {
    hide Honest, RoundOf, InRange, Leaves, Pushed, Missed;
  }

  lemma {:induction false} RunKeepsFrom(cfg: Config, s: State, actions: seq<Action>, sent: set<Batch>)
    requires AllFrom(s, sent) && Runs(cfg, s, actions)
    ensures AllFrom(After(cfg, s, actions), sent + SentIn(cfg, s, actions))
    decreases |actions|
  {
    hide AllFrom, Apply, Enabled, Sent;
    if actions == [] {
      assert sent + {} == sent;
    } else {
      var now, later := Sent(cfg, s, actions[0]), SentIn(cfg, Apply(cfg, s, actions[0]), actions[1..]);
      StepKeepsFrom(cfg, s, actions[0], sent);
      RunKeepsFrom(cfg, Apply(cfg, s, actions[0]), actions[1..], sent + now);
      assert sent + now + later == sent + (now + later);
    }
  }

  // ---- At-least-once delivery ----

  // The checkpoint of c in the cache, or the one on disk.
  ghost predicate IsMark(store: Store, c: string, m: Mark)
  {
    (c in Held(store) && m == Held(store)[c]) || (c in Durable(store) && m == Durable(store)[c])
  }

  // Over every run with failures, crashes and restarts: each event from the
  // ledger at which the contract was started up to its checkpoint, cached or on
  // disk, was emitted, unless a round that stopped at the page cap left it
  // unfetched; and the checkpoint is the end of a batch of the contract that a
  // fetch of the run sent and that was emitted completely.
  lemma AtLeastOnce(cfg: Config, s: State, actions: seq<Action>, c: string, mark: Mark)
    requires Init(cfg, s) && Runs(cfg, s, actions) && IsMark(After(cfg, s, actions).store, c, mark)
    ensures
      var s', start := After(cfg, s, actions), StartLedger(cfg, s, actions, c);
      && c in cfg.chain && start.Some?
      && (forall e :: e in cfg.chain[c] && start.value <= e.ledger <= mark.ledger ==> e in s'.log.sink || e in s'.log.skipped)
      && mark.batch in SentIn(cfg, s, actions) && mark.batch.contract == c && mark.batch.through == mark.ledger
      && (forall e :: e in mark.batch.events ==> e in s'.log.sink)
  {
    hide Apply, Enabled, StartLedger, SentIn, Runs, After;
    InitStarts(cfg, s, c);
    RunKeepsInv(cfg, s, actions);
    assert AllFrom(s, {});
    RunKeepsFrom(cfg, s, actions, {});
    assert {} + SentIn(cfg, s, actions) == SentIn(cfg, s, actions);
    RunKeepsStart(cfg, s, actions, c, None);
    assert MarkOk(cfg, After(cfg, s, actions).log, c, mark);
  }

  // ---- Nothing is skipped while the ranges fit under the cap ----

  // The range a fetch asks for holds at most 4 * batch_size events.
  ghost predicate Fits(cfg: Config, s: State, a: Action)
    requires Enabled(cfg, s, a)
  {
    a.Fetch? ==> |InRange(cfg.chain[a.contract], s.fetchers[a.contract].next, SafeTip(cfg, a.tip) + 1)| <= 4 * cfg.batchSize
  }

  ghost predicate RangesFit(cfg: Config, s: State, actions: seq<Action>)
    requires Runs(cfg, s, actions)
    decreases |actions|
  {
    actions == [] || (Fits(cfg, s, actions[0]) && RangesFit(cfg, Apply(cfg, s, actions[0]), actions[1..]))
  }

  lemma FittingSkipsNothing(cfg: Config, s: State, a: Action)
    requires Enabled(cfg, s, a) && Fits(cfg, s, a)
    ensures Apply(cfg, s, a).log.skipped == s.log.skipped
  {
    forall e | e in Apply(cfg, s, a).log.skipped && e !in s.log.skipped ensures false {
      SkippedOnlyAtCap(cfg, s, a, e);
    }
  }

  lemma {:induction false} NothingSkipped(cfg: Config, s: State, actions: seq<Action>)
    requires Runs(cfg, s, actions) && RangesFit(cfg, s, actions)
    ensures After(cfg, s, actions).log.skipped == s.log.skipped
    decreases |actions|
  {
    hide Apply, Enabled, Fits;
    if actions != [] {
      FittingSkipsNothing(cfg, s, actions[0]);
      NothingSkipped(cfg, Apply(cfg, s, actions[0]), actions[1..]);
    }
  }

  // While no fetch asks for more than 4 * batch_size events, at-least-once holds
  // without exception, whatever fails and however often the process restarts.
  lemma AtLeastOnceUnderCap(cfg: Config, s: State, actions: seq<Action>, c: string, mark: Mark)
    requires Init(cfg, s) && Runs(cfg, s, actions) && RangesFit(cfg, s, actions)
    requires IsMark(After(cfg, s, actions).store, c, mark)
    ensures
      var s', start := After(cfg, s, actions), StartLedger(cfg, s, actions, c);
      && c in cfg.chain && start.Some?
      && forall e :: e in cfg.chain[c] && start.value <= e.ledger <= mark.ledger ==> e in s'.log.sink
  {
    AtLeastOnce(cfg, s, actions, c, mark);
    NothingSkipped(cfg, s, actions);
  }
}
