// Runs without failures or crashes: the sink receives each contract's events in
// chain order, exactly once, whatever the interleaving of the workers; and the
// dead-letter file over arbitrary runs.
module Ordering {
  import opened Prelude
  import opened Chain
  import opened Fetching
  import opened DeadLetters
  import opened Checkpoints
  import opened Worker
  import opened Pipeline
  import opened Delivery

  // An action in which nothing goes wrong: no crash, the sink accepts, the save
  // is acknowledged, and no round stops at the page cap.
  ghost predicate Clean(cfg: Config, s: State, a: Action)
    requires Enabled(cfg, s, a)
  {
    match a
    case Fetch(c, tip, replies) => !RoundOf(cfg, s.fetchers[c].next, tip, replies).capped
    case Emit(_, reply) => reply == Emitted
    case Finish(_, save) => save == Saved
    case DeadLetter(_, _) => false
    case Crash => false
    case _ => true
  }

  ghost predicate CleanRun(cfg: Config, s: State, actions: seq<Action>)
    requires Runs(cfg, s, actions)
    decreases |actions|
  {
    actions == [] || (Clean(cfg, s, actions[0]) && CleanRun(cfg, Apply(cfg, s, actions[0]), actions[1..]))
  }

  // The events of one contract, in order.
  function Only(c: string, events: seq<Event>): seq<Event>
  {
    if events == [] then []
    else Only(c, events[..|events| - 1]) + (if events[|events| - 1].contract == c then [events[|events| - 1]] else [])
  }

  lemma OnlyAppend(c: string, events: seq<Event>, e: Event)
    ensures Only(c, events + [e]) == Only(c, events) + (if e.contract == c then [e] else [])
  {
    assert (events + [e])[..|events|] == events;
  }

  // The sink's events of the batch's contract are the chain's from the origin up
  // to the batch, and then the batch's first k.
  ghost predicate WrittenTo(cfg: Config, sink: seq<Event>, b: Batch, k: nat)
    requires b.contract in cfg.chain && k <= |b.events|
  {
    Only(b.contract, sink) == InRange(cfg.chain[b.contract], b.origin, b.from) + b.events[..k]
  }

  ghost predicate FullBatch(cfg: Config, b: Batch)
  {
    && b.contract in cfg.chain && b.origin <= b.from <= b.through + 1
    && b.events == InRange(cfg.chain[b.contract], b.from, b.through + 1)
  }

  ghost predicate FetcherInOrder(cfg: Config, sink: seq<Event>, c: string, f: Fetcher)
    requires c in cfg.chain
  {
    match f
    case Starting => Only(c, sink) == []
    case Idle(next, origin) => origin <= next && Only(c, sink) == InRange(cfg.chain[c], origin, next)
    case Waiting(b) => b.contract == c && FullBatch(cfg, b) && exists k :: 0 <= k <= |b.events| && WrittenTo(cfg, sink, b, k)
    case Acked(b, ok) => ok && b.contract == c && FullBatch(cfg, b) && WrittenTo(cfg, sink, b, |b.events|)
  }

  ghost predicate InOrder(cfg: Config, s: State)
  {
    && (forall c :: c in s.fetchers ==> c in cfg.chain && FetcherInOrder(cfg, s.log.sink, c, s.fetchers[c]))
    && (forall c :: c in s.fetchers && s.fetchers[c] == Starting ==> Load(s.store, c).None?)
    && (forall i :: 0 <= i < |s.channel| ==> FullBatch(cfg, s.channel[i]) && WrittenTo(cfg, s.log.sink, s.channel[i], 0))
    && (forall w :: 0 <= w < |s.workers| && s.workers[w].Busy? ==>
          var job := s.workers[w].job;
          && FullBatch(cfg, job.batch) && job.pos <= |job.batch.events| && !job.failed && !job.exhausted
          && WrittenTo(cfg, s.log.sink, job.batch, job.pos))
  }

  lemma {:induction false} InRangeNone(events: seq<Event>, ledger: nat)
    ensures InRange(events, ledger, ledger) == []
  {
    if events != [] { InRangeNone(events[1..], ledger); }
  }

  lemma BootInOrder(cfg: Config, s: State, c: string, tip: nat)
    requires InOrder(cfg, s) && Enabled(cfg, s, Boot(c, tip))
    ensures InOrder(cfg, Apply(cfg, s, Boot(c, tip)))
  {
    InRangeNone(cfg.chain[c], SafeTip(cfg, tip));
  }

  lemma FetchInOrder(cfg: Config, s: State, c: string, tip: nat, replies: seq<Reply>)
    requires InOrder(cfg, s) && Enabled(cfg, s, Fetch(c, tip, replies)) && Clean(cfg, s, Fetch(c, tip, replies))
    ensures InOrder(cfg, Apply(cfg, s, Fetch(c, tip, replies)))
  {
    hide InRange, Only;
    var next, safe := s.fetchers[c].next, SafeTip(cfg, tip);
    var range := InRange(cfg.chain[c], next, safe + 1);
    PagingDelivers(replies, range, [], next, safe, 4 * cfg.batchSize);
    assert [] + range == range;
    var b := Apply(cfg, s, Fetch(c, tip, replies)).fetchers[c].batch;
    assert FullBatch(cfg, b);
    assert WrittenTo(cfg, s.log.sink, b, 0);
  }

  lemma OthersUnaffected(cfg: Config, sink: seq<Event>, sink': seq<Event>, c: string, f: Fetcher)
    requires c in cfg.chain && FetcherInOrder(cfg, sink, c, f) && Only(c, sink') == Only(c, sink)
    ensures FetcherInOrder(cfg, sink', c, f)
  {
    if f.Waiting? {
      var k :| 0 <= k <= |f.batch.events| && WrittenTo(cfg, sink, f.batch, k);
      assert WrittenTo(cfg, sink', f.batch, k);
    }
  }

  // Emitting an event changes what is written for its contract and no other.
  lemma EmitInOrder(cfg: Config, s: State, w: nat)
    requires ValidConfig(cfg) && InOrder(cfg, s) && OneInFlight(s) && Enabled(cfg, s, Emit(w, Emitted))
    ensures InOrder(cfg, Apply(cfg, s, Emit(w, Emitted)))
  {
    hide InRange, Only, Honest, RoundOf;
    var s' := Apply(cfg, s, Emit(w, Emitted));
    var job := s.workers[w].job;
    var b, e := job.batch, job.batch.events[job.pos];
    var c := b.contract;
    assert e.contract == c by { InRangeMembers(cfg.chain[c], b.from, b.through + 1, e); }
    assert WrittenTo(cfg, s'.log.sink, b, job.pos + 1) by {
      OnlyAppend(c, s.log.sink, e);
      assert b.events[..job.pos] + [e] == b.events[..job.pos + 1];
    }
    assert s.fetchers[c] == Waiting(b);
    forall d | d in s.fetchers ensures FetcherInOrder(cfg, s'.log.sink, d, s'.fetchers[d]) {
      if d != c {
        OnlyAppend(d, s.log.sink, e);
        OthersUnaffected(cfg, s.log.sink, s'.log.sink, d, s.fetchers[d]);
      }
    }
    forall i | 0 <= i < |s.channel| ensures WrittenTo(cfg, s'.log.sink, s.channel[i], 0) {
      OnlyAppend(s.channel[i].contract, s.log.sink, e);
    }
    forall v | 0 <= v < |s'.workers| && s'.workers[v].Busy? && v != w
      ensures WrittenTo(cfg, s'.log.sink, s'.workers[v].job.batch, s'.workers[v].job.pos)
    {
      OnlyAppend(s.workers[v].job.batch.contract, s.log.sink, e);
    }
  }

  lemma FinishInOrder(cfg: Config, s: State, w: nat)
    requires InOrder(cfg, s) && OneInFlight(s) && Enabled(cfg, s, Finish(w, Saved))
    ensures InOrder(cfg, Apply(cfg, s, Finish(w, Saved)))
  {
    hide InRange, Only, Honest, RoundOf;
  }

  lemma AckInOrder(cfg: Config, s: State, c: string)
    requires ValidConfig(cfg) && InOrder(cfg, s) && Enabled(cfg, s, Ack(c))
    ensures InOrder(cfg, Apply(cfg, s, Ack(c)))
  {
    hide InRange, Only, Honest, RoundOf;
    var b := s.fetchers[c].batch;
    InRangeJoin(cfg.chain[c], b.origin, b.from, b.through + 1);
    assert b.events[..|b.events|] == b.events;
  }

  lemma StepInOrder(cfg: Config, s: State, a: Action)
    requires ValidConfig(cfg) && InOrder(cfg, s) && OneInFlight(s) && Enabled(cfg, s, a) && Clean(cfg, s, a)
    ensures InOrder(cfg, Apply(cfg, s, a)) && OneInFlight(Apply(cfg, s, a))
  {
    hide InRange, Only, Honest, RoundOf, Leaves, Pushed, Save, Missed;
    StepKeepsOneInFlight(cfg, s, a);
    match a
    case Boot(c, tip) => BootInOrder(cfg, s, c, tip);
    case Fetch(c, tip, replies) => FetchInOrder(cfg, s, c, tip, replies);
    case Take(w) =>
    case Emit(w, reply) => EmitInOrder(cfg, s, w);
    case Finish(w, save) => FinishInOrder(cfg, s, w);
    case Ack(c) => AckInOrder(cfg, s, c);
  }

  lemma {:induction false} RunInOrder(cfg: Config, s: State, actions: seq<Action>)
    requires ValidConfig(cfg) && InOrder(cfg, s) && OneInFlight(s) && Runs(cfg, s, actions) && CleanRun(cfg, s, actions)
    ensures InOrder(cfg, After(cfg, s, actions))
    decreases |actions|
  {
    hide InOrder, OneInFlight, Apply, Enabled, Clean, ValidConfig;
    if actions != [] {
      StepInOrder(cfg, s, actions[0]);
      RunInOrder(cfg, Apply(cfg, s, actions[0]), actions[1..]);
    }
  }

  // What is in the sink for c, by the state of its fetcher, when c was started at
  // ledger `start`.
  ghost predicate WrittenFrom(cfg: Config, sink: seq<Event>, c: string, f: Fetcher, start: nat)
    requires c in cfg.chain
  {
    match f
    case Starting => Only(c, sink) == []
    case Idle(next, _) => Only(c, sink) == InRange(cfg.chain[c], start, next)
    case Waiting(b) =>
      && b.events == InRange(cfg.chain[c], b.from, b.through + 1)
      && exists k :: 0 <= k <= |b.events| && Only(c, sink) == InRange(cfg.chain[c], start, b.from) + b.events[..k]
    case Acked(b, _) => Only(c, sink) == InRange(cfg.chain[c], start, b.through + 1)
  }

  // In every such run the sink's events of each contract are, at all times, the
  // chain's from the ledger at which the contract was started, in order and
  // without repetition: up to the fetcher's position between rounds, and in a
  // round up to its batch and then a prefix of the batch.
  lemma ExactlyOnceInOrder(cfg: Config, s: State, actions: seq<Action>, c: string)
    requires ValidConfig(cfg) && Init(cfg, s) && Runs(cfg, s, actions) && CleanRun(cfg, s, actions) && c in cfg.chain
    ensures
      var s', start := After(cfg, s, actions), StartLedger(cfg, s, actions, c);
      && c in s'.fetchers && (!s'.fetchers[c].Starting? ==> start.Some?)
      && WrittenFrom(cfg, s'.log.sink, c, s'.fetchers[c], if start.Some? then start.value else 0)
  {
    hide InRange, Only, Apply, Enabled, FetcherInOrder, Init, Runs, After, CleanRun, StartLedger;
    FetchersStay(cfg, s, actions);
    InitInOrder(cfg, s);
    RunInOrder(cfg, s, actions);
    InitStarts(cfg, s, c);
    RunKeepsStart(cfg, s, actions, c, None);
    var s' := After(cfg, s, actions);
    Contiguous(cfg, s'.log.sink, c, s'.fetchers[c]);
  }

  lemma Contiguous(cfg: Config, sink: seq<Event>, c: string, f: Fetcher)
    requires ValidConfig(cfg) && c in cfg.chain && FetcherInOrder(cfg, sink, c, f)
    ensures WrittenFrom(cfg, sink, c, f, if f.Starting? then 0 else OriginOf(f))
  {
    hide InRange, Only;
    if f.Acked? {
      var b := f.batch;
      InRangeJoin(cfg.chain[c], b.origin, b.from, b.through + 1);
      assert b.events[..|b.events|] == b.events;
    }
    if f.Waiting? {
      var k :| 0 <= k <= |f.batch.events| && WrittenTo(cfg, sink, f.batch, k);
    }
  }

  lemma InitInOrder(cfg: Config, s: State)
    requires Init(cfg, s)
    ensures InOrder(cfg, s) && OneInFlight(s) && s.fetchers.Keys == cfg.chain.Keys
  {
  }

  lemma {:induction false} FetchersStay(cfg: Config, s: State, actions: seq<Action>)
    requires Runs(cfg, s, actions)
    ensures s.fetchers.Keys <= After(cfg, s, actions).fetchers.Keys
    decreases |actions|
  {
    if actions != [] {
      FetchersStay(cfg, Apply(cfg, s, actions[0]), actions[1..]);
    }
  }

  // ---- The dead-letter file over arbitrary runs ----

  // Over every run in which no append is written and then reported as failed,
  // crashes included, the file holds each key once and the in-memory set is
  // exactly the keys of the file.
  lemma {:induction false} DeadLettersConsistent(cfg: Config, s: State, actions: seq<Action>)
    requires Consistent(s.dead) && Runs(cfg, s, actions)
    requires forall i :: 0 <= i < |actions| && actions[i].DeadLetter? ==> actions[i].append != AppendedUnsynced
    ensures Consistent(After(cfg, s, actions).dead)
    decreases |actions|
  {
    hide Honest, RoundOf, InRange, Consistent;
    if actions != [] {
      var a := actions[0];
      if a.DeadLetter? {
        var job := s.workers[a.worker].job;
        PushKeepsConsistent(s.dead, RecordOf(job.batch.events[job.pos]), a.append);
      } else if a.Crash? {
        ReopenStaysConsistent(s.dead);
      }
      DeadLettersConsistent(cfg, Apply(cfg, s, a), actions[1..]);
    }
  }

  // The dead-letter file only grows, and an event whose append was written is in
  // it ever after, crashes included.
  lemma {:induction false} DeadLettersGrow(cfg: Config, s: State, actions: seq<Action>)
    requires s.dead.recorded <= KeysOf(s.dead.file) && Runs(cfg, s, actions)
    ensures
      var s' := After(cfg, s, actions);
      s.dead.file <= s'.dead.file && s'.dead.recorded <= KeysOf(s'.dead.file)
    decreases |actions|
  {
    hide Honest, RoundOf, InRange, KeysOf, Pushed;
    if actions != [] {
      var a := actions[0];
      if a.DeadLetter? {
        var job := s.workers[a.worker].job;
        PushRecords(s.dead, RecordOf(job.batch.events[job.pos]), a.append);
      }
      DeadLettersGrow(cfg, Apply(cfg, s, a), actions[1..]);
    }
  }

  lemma DeadLetterKept(cfg: Config, s: State, w: nat, append: AppendReply, more: seq<Action>)
    requires s.dead.recorded <= KeysOf(s.dead.file) && append != NotAppended
    requires Enabled(cfg, s, DeadLetter(w, append)) && Runs(cfg, Apply(cfg, s, DeadLetter(w, append)), more)
    ensures
      var e := s.workers[w].job.batch.events[s.workers[w].job.pos];
      e.contract + ":" + e.id in KeysOf(After(cfg, Apply(cfg, s, DeadLetter(w, append)), more).dead.file)
  {
    hide Runs, After, Pushed;
    var e := s.workers[w].job.batch.events[s.workers[w].job.pos];
    var s1 := Apply(cfg, s, DeadLetter(w, append));
    PushRecords(s.dead, RecordOf(e), append);
    DeadLettersGrow(cfg, s1, more);
    assert forall r :: r in s1.dead.file ==> r in After(cfg, s1, more).dead.file;
  }

  lemma ReopenStaysConsistent(q: Queue)
    requires Consistent(q)
    ensures Consistent(Reopened(q.file))
  {
  }
}
