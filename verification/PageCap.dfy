// What the page cap costs: a round that stops at 4 * batch_size events still
// advances to the safe tip, and what it left unfetched is never emitted.
module PageCap {
  import opened Chain
  import opened Fetching
  import opened DeadLetters
  import opened Checkpoints
  import opened Worker
  import opened Pipeline
  import opened Delivery
  import opened Serving

  // The batch is past the event: it starts in a later ledger and does not hold it.
  ghost predicate Past(b: Batch, e: Event)
  {
    e !in b.events && (b.contract == e.contract ==> e.ledger < b.from <= b.through)
  }

  ghost predicate FetcherPast(f: Fetcher, e: Event)
  {
    match f
    case Starting => true
    case Idle(next, _) => e.ledger < next
    case Waiting(b) => e.ledger < b.from <= b.through
    case Acked(b, _) => e.ledger < b.from <= b.through
  }

  ghost predicate MarkPast(marks: Marks, e: Event)
  {
    e.contract in marks && e.ledger <= marks[e.contract].ledger
  }

  // The event has not been emitted and everything has moved past it.
  ghost predicate Lost(s: State, e: Event)
  {
    && e !in s.log.sink
    && MarkPast(Durable(s.store), e) && MarkPast(Held(s.store), e)
    && (e.contract in s.fetchers ==> FetcherPast(s.fetchers[e.contract], e))
    && (forall i :: 0 <= i < |s.channel| ==> Past(s.channel[i], e))
    && (forall w :: 0 <= w < |s.workers| && s.workers[w].Busy? ==> Past(s.workers[w].job.batch, e))
  }

  lemma FetchedPast(cfg: Config, s: State, a: Action, e: Event)
    requires ValidConfig(cfg) && Lost(s, e) && a.Fetch? && Enabled(cfg, s, a)
    ensures
      var round := RoundOf(cfg, s.fetchers[a.contract].next, a.tip, a.replies);
      Past(Batch(a.contract, s.fetchers[a.contract].origin, s.fetchers[a.contract].next, round.through, round.collected), e)
  {
    hide Paging, Honest, InRange, MarkPast;
    var next, safe := s.fetchers[a.contract].next, SafeTip(cfg, a.tip);
    var range := InRange(cfg.chain[a.contract], next, safe + 1);
    PagingDelivers(a.replies, range, [], next, safe, 4 * cfg.batchSize);
    InRangeMembers(cfg.chain[a.contract], next, safe + 1, e);
    assert [] + range == range;
  }

  lemma SavePast(store: Store, e: Event, c: string, m: Mark, reply: SaveReply)
    requires MarkPast(Durable(store), e) && MarkPast(Held(store), e) && (c == e.contract ==> e.ledger <= m.ledger)
    ensures MarkPast(Durable(Save(store, c, m, reply)), e) && MarkPast(Held(Save(store, c, m, reply)), e)
  {
  }

  lemma StepKeepsLost(cfg: Config, s: State, a: Action, e: Event)
    requires ValidConfig(cfg) && Lost(s, e) && Enabled(cfg, s, a)
    ensures Lost(Apply(cfg, s, a), e)
  {
    hide Honest, RoundOf, InRange, MarkPast, Save;
    if a.Fetch? { FetchedPast(cfg, s, a, e); }
    if a.Finish? {
      var b := s.workers[a.worker].job.batch;
      assert Past(b, e);
      SavePast(s.store, e, b.contract, Mark(b.through, b), a.save);
    }
    if a.Boot? && a.contract == e.contract { LoadPast(s.store, e); }
    if a.Crash? { RestartPast(s.store, e); }
  }

  lemma LoadPast(store: Store, e: Event)
    requires MarkPast(Held(store), e)
    ensures Load(store, e.contract).Some? && e.ledger <= Load(store, e.contract).value.ledger
  {
  }

  lemma RestartPast(store: Store, e: Event)
    requires MarkPast(Durable(store), e)
    ensures MarkPast(Durable(Restarted(store)), e) && MarkPast(Held(Restarted(store)), e)
  {
  }

  // Lost is lost: no continuation emits the event, whatever fails or restarts.
  lemma {:induction false} LostForever(cfg: Config, s: State, actions: seq<Action>, e: Event)
    requires ValidConfig(cfg) && Lost(s, e) && Runs(cfg, s, actions)
    ensures e !in After(cfg, s, actions).log.sink
    decreases |actions|
  {
    hide Apply, Enabled;
    if actions != [] {
      StepKeepsLost(cfg, s, actions[0], e);
      LostForever(cfg, Apply(cfg, s, actions[0]), actions[1..], e);
    }
  }

  // ---- Any range of more than 4 * batch_size events can lose one ----

  // No crash, and every fetch, emission and save succeeds at once.
  ghost predicate FailureFree(actions: seq<Action>)
  {
    forall i :: 0 <= i < |actions| ==> Serves(actions[i]) || actions[i].Ack? || AnsweredFetch(actions[i])
  }

  ghost predicate AnsweredFetch(a: Action)
  {
    a.Fetch? && forall i :: 0 <= i < |a.replies| ==> a.replies[i].Page?
  }

  // The RPC serves one event a page, which the page limit allows.
  function OneByOne(events: seq<Event>): seq<Reply>
  {
    seq(|events|, i requires 0 <= i < |events| => Page([events[i]], true))
  }

  lemma SinglePage(e: Event, safeTip: nat, through: nat)
    requires e.ledger <= safeTip
    ensures Final([e], safeTip) == [e] && Latest([e], safeTip, through) == Max(through, e.ledger)
  {
    assert [e][..0] == [];
  }

  lemma {:induction false} OneByOneHonest(events: seq<Event>, rest: seq<Event>, safeTip: nat)
    requires forall i :: 0 <= i < |events| ==> events[i].ledger <= safeTip
    ensures Honest(OneByOne(events), events + rest, safeTip)
  {
    if events != [] {
      SinglePage(events[0], safeTip, 0);
      OneByOneHonest(events[1..], rest, safeTip);
      assert OneByOne(events)[1..] == OneByOne(events[1..]);
      assert (events + rest)[1..] == events[1..] + rest;
    }
  }

  lemma {:induction false} OneByOneStopsAtCap(events: seq<Event>, collected: seq<Event>, through: nat, safeTip: nat, cap: nat)
    requires events != [] && |collected| + |events| == cap && through <= safeTip
    requires forall i :: 0 <= i < |events| ==> events[i].ledger <= safeTip
    ensures Paging(OneByOne(events), collected, through, safeTip, cap) == Fetched(collected + events, safeTip, true)
  {
    SinglePage(events[0], safeTip, through);
    assert collected + [events[0]] + events[1..] == collected + events;
    if |events| == 1 {
      assert collected + [events[0]] == collected + events;
    } else {
      OneByOneStopsAtCap(events[1..], collected + [events[0]], Max(through, events[0].ledger), safeTip, cap);
      assert OneByOne(events)[1..] == OneByOne(events[1..]);
    }
  }

  // ---- Whose events a batch holds ----

  ghost predicate OwnEvents(b: Batch)
  {
    forall e :: e in b.events ==> e.contract == b.contract
  }

  ghost predicate AllOwn(s: State)
  {
    && (forall i :: 0 <= i < |s.channel| ==> OwnEvents(s.channel[i]))
    && (forall w :: 0 <= w < |s.workers| && s.workers[w].Busy? ==> OwnEvents(s.workers[w].job.batch))
  }

  lemma FetchedOwn(cfg: Config, s: State, a: Action)
    requires ValidConfig(cfg) && a.Fetch? && Enabled(cfg, s, a)
    ensures forall e :: e in RoundOf(cfg, s.fetchers[a.contract].next, a.tip, a.replies).collected ==> e.contract == a.contract
  {
    hide Paging, Honest, InRange;
    var next, safe := s.fetchers[a.contract].next, SafeTip(cfg, a.tip);
    var range, round := InRange(cfg.chain[a.contract], next, safe + 1), RoundOf(cfg, next, a.tip, a.replies);
    PagingDelivers(a.replies, range, [], next, safe, 4 * cfg.batchSize);
    assert [] + range == range;
    forall e | e in round.collected ensures e.contract == a.contract {
      InRangeMembers(cfg.chain[a.contract], next, safe + 1, e);
    }
  }

  lemma {:induction false} RunKeepsOwn(cfg: Config, s: State, actions: seq<Action>)
    requires ValidConfig(cfg) && AllOwn(s) && Runs(cfg, s, actions)
    ensures AllOwn(After(cfg, s, actions))
    decreases |actions|
  {
    hide Honest, RoundOf, InRange, Leaves, Pushed, Missed, Save, ValidConfig;
    if actions != [] {
      if actions[0].Fetch? { FetchedOwn(cfg, s, actions[0]); }
      assert AllOwn(Apply(cfg, s, actions[0]));
      RunKeepsOwn(cfg, Apply(cfg, s, actions[0]), actions[1..]);
    }
  }

  // ---- The run that loses the event ----

  // A fetcher at rest, room in the channel, a free worker, and more final
  // events in the range than a round takes; the first it leaves is new.
  ghost predicate CanHitCap(cfg: Config, s: State, c: string, tip: nat, w: nat)
  {
    && c in cfg.chain && c in s.fetchers && s.fetchers[c].Idle? && s.fetchers[c].next <= SafeTip(cfg, tip)
    && |s.channel| < cfg.capacity && w < |s.workers| && s.workers[w].Free? && cfg.batchSize >= 1
    && var range := InRange(cfg.chain[c], s.fetchers[c].next, SafeTip(cfg, tip) + 1);
    && |range| > 4 * cfg.batchSize
    && range[4 * cfg.batchSize] !in range[..4 * cfg.batchSize] && range[4 * cfg.batchSize] !in s.log.sink
  }

  // The first 4 * batch_size events of the range, as a batch up to the safe tip.
  ghost function CappedBatch(cfg: Config, s: State, c: string, tip: nat, w: nat): Batch
    requires CanHitCap(cfg, s, c, tip, w)
  {
    var Idle(next, origin) := s.fetchers[c];
    Batch(c, origin, next, SafeTip(cfg, tip), InRange(cfg.chain[c], next, SafeTip(cfg, tip) + 1)[..4 * cfg.batchSize])
  }

  lemma CappedRound(cfg: Config, range: seq<Event>, next: nat, tip: nat)
    requires cfg.batchSize >= 1 && |range| > 4 * cfg.batchSize && next <= SafeTip(cfg, tip)
    requires forall i :: 0 <= i < |range| ==> range[i].ledger <= SafeTip(cfg, tip)
    ensures
      var replies := OneByOne(range[..4 * cfg.batchSize]);
      && Honest(replies, range, SafeTip(cfg, tip))
      && RoundOf(cfg, next, tip, replies) == Fetched(range[..4 * cfg.batchSize], SafeTip(cfg, tip), true)
  {
    hide Honest, Paging;
    var safe, k := SafeTip(cfg, tip), 4 * cfg.batchSize;
    assert range == range[..k] + range[k..];
    OneByOneHonest(range[..k], range[k..], safe);
    OneByOneStopsAtCap(range[..k], [], next, safe, k);
    assert [] + range[..k] == range[..k];
  }

  lemma CappedFetch(cfg: Config, s: State, c: string, tip: nat, w: nat)
    requires CanHitCap(cfg, s, c, tip, w)
    ensures
      var b := CappedBatch(cfg, s, c, tip, w);
      var a := Fetch(c, tip, OneByOne(b.events));
      && AnsweredFetch(a) && Enabled(cfg, s, a)
      && Apply(cfg, s, a) == s.(fetchers := s.fetchers[c := Waiting(b)], channel := s.channel + [b], log := Apply(cfg, s, a).log)
      && Apply(cfg, s, a).log.sink == s.log.sink
  {
    hide Honest, Paging, RoundOf, InRange, Missed;
    var next, safe := s.fetchers[c].next, SafeTip(cfg, tip);
    var range := InRange(cfg.chain[c], next, safe + 1);
    forall i | 0 <= i < |range| ensures range[i].ledger <= safe {
      InRangeMembers(cfg.chain[c], next, safe + 1, range[i]);
    }
    CappedRound(cfg, range, next, tip);
  }

  // From the fetched batch on: serve what is ahead, serve it, acknowledge it.
  lemma ServeToEnd(cfg: Config, s: State, c: string, w: nat, b: Batch) returns (actions: seq<Action>)
    requires OneInFlight(s) && c in s.fetchers && s.fetchers[c] == Waiting(b) && b.contract == c
    requires s.channel != [] && s.channel[|s.channel| - 1] == b && w < |s.workers| && s.workers[w].Free?
    ensures FailureFree(actions) && Runs(cfg, s, actions)
    ensures
      var s' := After(cfg, s, actions);
      && s'.channel == [] && s'.workers == s.workers
      && c in s'.fetchers && s'.fetchers[c] == Idle(b.through + 1, b.origin)
      && MarkAtLeast(Durable(s'.store), c, b.through) && MarkAtLeast(Held(s'.store), c, b.through)
      && forall e :: e in s'.log.sink ==> e in s.log.sink || exists i :: 0 <= i < |s.channel| && e in s.channel[i].events
  {
    hide Runs, After;
    var k := |s.channel| - 1;
    var ahead := ServeAhead(cfg, s, w, k, c);
    var s1 := After(cfg, s, ahead);
    var one := ServeOne(cfg, s1, w);
    Concat(cfg, s, ahead, one);
    var s2 := After(cfg, s, ahead + one);
    Extend(cfg, s, ahead + one, Ack(c));
    actions := ahead + one + [Ack(c)];
    forall e | e in s2.log.sink && e !in s.log.sink ensures exists i :: 0 <= i < |s.channel| && e in s.channel[i].events {
      if e in s1.log.sink {
        var i :| 0 <= i < k && e in s.channel[..k][i].events;
        assert e in s.channel[i].events;
      } else {
        assert e in s.channel[k].events;
      }
    }
  }

  ghost predicate MarkAtLeast(marks: Marks, c: string, ledger: nat)
  {
    c in marks && ledger <= marks[c].ledger
  }

  // Wherever the pipeline has got, whatever failed on the way: if it can fetch a
  // range of more than 4 * batch_size final events, it has a continuation
  // without a single failure in which the first event above the cap is lost,
  // and by LostForever nothing that follows emits it.
  lemma CapLosesEvent(cfg: Config, s0: State, past: seq<Action>, c: string, tip: nat, w: nat) returns (actions: seq<Action>)
    requires ValidConfig(cfg) && Init(cfg, s0) && Runs(cfg, s0, past) && CanHitCap(cfg, After(cfg, s0, past), c, tip, w)
    ensures
      var s := After(cfg, s0, past);
      && FailureFree(actions) && Runs(cfg, s, actions)
      && Lost(After(cfg, s, actions), InRange(cfg.chain[c], s.fetchers[c].next, SafeTip(cfg, tip) + 1)[4 * cfg.batchSize])
  {
    hide Runs, After, InRange, Honest, RoundOf, Missed, OneByOne;
    InitStarts(cfg, s0, c);
    assert AllOwn(s0);
    Backpressure(cfg, s0, past);
    RunKeepsOwn(cfg, s0, past);
    var s := After(cfg, s0, past);
    var b := CappedBatch(cfg, s, c, tip, w);
    var fetch := Fetch(c, tip, OneByOne(b.events));
    CappedFetch(cfg, s, c, tip, w);
    StepKeepsOneInFlight(cfg, s, fetch);
    var s1 := Apply(cfg, s, fetch);
    OneStep(cfg, s, fetch);
    var rest := ServeToEnd(cfg, s1, c, w, b);
    Concat(cfg, s, [fetch], rest);
    actions := [fetch] + rest;
    LeftBehind(cfg, s, s1, After(cfg, s, actions), c, tip, w);
  }

  lemma LeftBehind(cfg: Config, s: State, s1: State, s': State, c: string, tip: nat, w: nat)
    requires ValidConfig(cfg) && CanHitCap(cfg, s, c, tip, w) && AllOwn(s) && OneInFlight(s)
    requires s1.channel == s.channel + [CappedBatch(cfg, s, c, tip, w)] && s1.log.sink == s.log.sink
    requires s'.channel == [] && s'.workers == s.workers
    requires c in s'.fetchers && s'.fetchers[c].Idle? && s'.fetchers[c].next == SafeTip(cfg, tip) + 1
    requires MarkAtLeast(Durable(s'.store), c, SafeTip(cfg, tip)) && MarkAtLeast(Held(s'.store), c, SafeTip(cfg, tip))
    requires forall e :: e in s'.log.sink ==> e in s1.log.sink || exists i :: 0 <= i < |s1.channel| && e in s1.channel[i].events
    ensures Lost(s', InRange(cfg.chain[c], s.fetchers[c].next, SafeTip(cfg, tip) + 1)[4 * cfg.batchSize])
  {
    hide InRange;
    var range := InRange(cfg.chain[c], s.fetchers[c].next, SafeTip(cfg, tip) + 1);
    var e := range[4 * cfg.batchSize];
    InRangeMembers(cfg.chain[c], s.fetchers[c].next, SafeTip(cfg, tip) + 1, e);
    assert e.contract == c;
    forall i | 0 <= i < |s1.channel| ensures e !in s1.channel[i].events {
      if i < |s.channel| { assert s1.channel[i] == s.channel[i] && Awaited(s, s.channel[i]); }
    }
  }

  // ---- It happens from scratch ----

  // One contract with five events in ledger 1, one event a page.
  const BURST := Config(map["A" := [Event("A", "1", 1), Event("A", "2", 1), Event("A", "3", 1), Event("A", "4", 1), Event("A", "5", 1)]], 0, 1, 0, 1)

  lemma BurstRange()
    ensures InRange(BURST.chain["A"], 0, 2) == BURST.chain["A"] && ValidConfig(BURST)
  {
    hide InRange;
    InRangeAll(BURST.chain["A"], 2);
  }

  lemma {:induction false} InRangeAll(events: seq<Event>, hi: nat)
    requires forall i :: 0 <= i < |events| ==> events[i].ledger < hi
    ensures InRange(events, 0, hi) == events
  {
    if events != [] {
      InRangeAll(events[1..], hi);
      assert events == [events[0]] + events[1..];
    }
  }

  const BURST_START := State(FileStore(map[], map[]), Queue([], {}), Log([], {}), map["A" := Starting], [], [Free])

  lemma BurstBoots()
    ensures
      var s := BURST_START;
      && Init(BURST, s) && Enabled(BURST, s, Boot("A", 0))
      && Apply(BURST, s, Boot("A", 0)) == s.(fetchers := map["A" := Idle(0, 0)])
  {
    assert BURST_START.fetchers["A" := Idle(0, 0)] == map["A" := Idle(0, 0)];
  }

  lemma BurstHitsCap(s: State)
    requires s == BURST_START.(fetchers := map["A" := Idle(0, 0)])
    ensures CanHitCap(BURST, s, "A", 1, 0)
    ensures InRange(BURST.chain["A"], s.fetchers["A"].next, SafeTip(BURST, 1) + 1)[4 * BURST.batchSize] == Event("A", "5", 1)
  {
    hide InRange;
    BurstRange();
    var events := BURST.chain["A"];
    assert forall i :: 0 <= i < 4 ==> events[..4][i] != events[4];
  }

  // A run from an empty disk without a single failure that loses the fifth.
  lemma CapLossFromScratch() returns (actions: seq<Action>)
    ensures Init(BURST, BURST_START) && Runs(BURST, BURST_START, actions)
    ensures actions != [] && actions[0] == Boot("A", 0) && FailureFree(actions[1..])
    ensures Lost(After(BURST, BURST_START, actions), Event("A", "5", 1))
  {
    hide Runs, After, InRange, Lost, CanHitCap, Apply, Enabled, Init, ValidConfig, FailureFree;
    var boot := Boot("A", 0);
    BurstRange();
    BurstBoots();
    OneStep(BURST, BURST_START, boot);
    BurstHitsCap(After(BURST, BURST_START, [boot]));
    var rest := CapLosesEvent(BURST, BURST_START, [boot], "A", 1, 0);
    Concat(BURST, BURST_START, [boot], rest);
    actions := [boot] + rest;
    assert actions[1..] == rest;
  }
}
