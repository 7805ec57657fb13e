// The indexer as a whole: fetchers, a bounded channel, a pool of workers, the
// sink, the dead-letter queue and the checkpoint store, with failing RPC, sink
// and disk, and crashes at any point.
module Pipeline {
  import opened Chain
  import opened Fetching
  import opened DeadLetters
  import opened Checkpoints
  import opened Worker

  // `chain` holds, per owned contract, every event the chain will ever have.
  datatype Config = Config(chain: map<string, seq<Event>>, finalityDepth: nat, batchSize: nat, maxRetries: nat, capacity: nat)

  ghost predicate ValidConfig(cfg: Config)
  {
    forall c :: c in cfg.chain ==> Sorted(cfg.chain[c]) && forall e :: e in cfg.chain[c] ==> e.contract == c
  }

  // A fetcher before its first load, between rounds, waiting for the batch it
  // sent, or with the worker's answer in hand. `origin` is history.
  datatype Fetcher =
    | Starting
    | Idle(next: nat, origin: nat)
    | Waiting(batch: Batch)
    | Acked(batch: Batch, ok: bool)

  datatype WorkerState = Free | Busy(job: Job)

  // What has been written to the sink, in order; and, as history, the events
  // that rounds stopped at the page cap left unfetched.
  datatype Log = Log(sink: seq<Event>, skipped: set<Event>)

  // The durable part of `store`, `dead.file` and `log` survive a crash.
  datatype State = State(
    store: Store, dead: Queue, log: Log,
    fetchers: map<string, Fetcher>, channel: seq<Batch>, workers: seq<WorkerState>)

  datatype Action =
    | Boot(contract: string, tip: nat)
    | Fetch(contract: string, tip: nat, replies: seq<Reply>)
    | Take(worker: nat)
    | Emit(worker: nat, reply: EmitReply)
    | DeadLetter(worker: nat, append: AppendReply)
    | Finish(worker: nat, save: SaveReply)
    | Ack(contract: string)
    | Crash

  function SafeTip(cfg: Config, tip: nat): nat
  {
    if tip >= cfg.finalityDepth then tip - cfg.finalityDepth else 0
  }

  function RoundOf(cfg: Config, next: nat, tip: nat, replies: seq<Reply>): Round
  {
    Paging(replies, [], next, SafeTip(cfg, tip), 4 * cfg.batchSize)
  }

  ghost predicate IsBusy(s: State, w: nat)
  {
    w < |s.workers| && s.workers[w].Busy?
  }

  ghost predicate Enabled(cfg: Config, s: State, a: Action)
  {
    match a
    case Boot(c, _) => c in s.fetchers && s.fetchers[c].Starting?
    case Fetch(c, tip, replies) =>
      && c in s.fetchers && s.fetchers[c].Idle? && c in cfg.chain && |s.channel| < cfg.capacity
      && var next := s.fetchers[c].next;
      && next <= SafeTip(cfg, tip)
      && Honest(replies, InRange(cfg.chain[c], next, SafeTip(cfg, tip) + 1), SafeTip(cfg, tip))
      && RoundOf(cfg, next, tip, replies).Fetched?
    case Take(w) => w < |s.workers| && s.workers[w].Free? && s.channel != []
    case Emit(w, _) => IsBusy(s, w) && CanEmit(s.workers[w].job)
    case DeadLetter(w, _) =>
      IsBusy(s, w) && s.workers[w].job.exhausted && s.workers[w].job.pos < |s.workers[w].job.batch.events|
    case Finish(w, _) =>
      IsBusy(s, w) && !s.workers[w].job.exhausted && s.workers[w].job.pos == |s.workers[w].job.batch.events|
    case Ack(c) => c in s.fetchers && s.fetchers[c].Acked?
    case Crash => true
  }

  function Missed(range: seq<Event>, collected: seq<Event>): set<Event>
  {
    set e | e in range && e !in collected
  }

  ghost function Apply(cfg: Config, s: State, a: Action): State
    requires Enabled(cfg, s, a)
  {
    match a
    case Boot(c, tip) =>
      var start := match Load(s.store, c)
        case Some(m) => Idle(m.ledger + 1, m.batch.origin)
        case None => Idle(SafeTip(cfg, tip), SafeTip(cfg, tip));
      s.(fetchers := s.fetchers[c := start])
    case Fetch(c, tip, replies) =>
      var Idle(next, origin) := s.fetchers[c];
      var round := RoundOf(cfg, next, tip, replies);
      var batch := Batch(c, origin, next, round.through, round.collected);
      s.(fetchers := s.fetchers[c := Waiting(batch)],
         channel := s.channel + [batch],
         log := s.log.(skipped := s.log.skipped +
           if round.capped then Missed(InRange(cfg.chain[c], next, SafeTip(cfg, tip) + 1), round.collected) else {}))
    case Take(w) =>
      s.(channel := s.channel[1..], workers := s.workers[w := Busy(Job(s.channel[0], 0, 0, false, false))])
    case Emit(w, reply) =>
      var job := s.workers[w].job;
      s.(log := s.log.(sink := s.log.sink + Leaves(job.batch.events[job.pos], reply)),
         workers := s.workers[w := Busy(AfterAttempt(job, reply, cfg.maxRetries))])
    case DeadLetter(w, reply) =>
      var job := s.workers[w].job;
      s.(dead := Pushed(s.dead, RecordOf(job.batch.events[job.pos]), reply),
         workers := s.workers[w := Busy(AfterDeadLetter(job))])
    case Finish(w, reply) =>
      var job := s.workers[w].job;
      var c := job.batch.contract;
      s.(store := if job.failed then s.store else Save(s.store, c, Mark(job.batch.through, job.batch), reply),
         fetchers := s.fetchers[c := Acked(job.batch, !job.failed && reply == Saved)],
         workers := s.workers[w := Free])
    case Ack(c) =>
      var Acked(batch, ok) := s.fetchers[c];
      s.(fetchers := s.fetchers[c := Idle(if ok then batch.through + 1 else batch.from, batch.origin)])
    case Crash =>
      s.(store := Restarted(s.store), dead := Reopened(s.dead.file),
         fetchers := map c | c in s.fetchers :: Starting, channel := [], workers := seq(|s.workers|, _ => Free))
  }

  // A first boot on an empty disk, with any number of workers.
  ghost predicate Init(cfg: Config, s: State)
  {
    && s.store in {FileStore(map[], map[]), PgStore(map[])}
    && s.dead == Queue([], {}) && s.log == Log([], {}) && s.channel == []
    && s.fetchers.Keys == cfg.chain.Keys && (forall c :: c in s.fetchers ==> s.fetchers[c] == Starting)
    && forall w :: 0 <= w < |s.workers| ==> s.workers[w] == Free
  }

  ghost predicate Runs(cfg: Config, s: State, actions: seq<Action>)
    decreases |actions|
  {
    actions == [] || (Enabled(cfg, s, actions[0]) && Runs(cfg, Apply(cfg, s, actions[0]), actions[1..]))
  }

  ghost function After(cfg: Config, s: State, actions: seq<Action>): State
    requires Runs(cfg, s, actions)
    decreases |actions|
  {
    if actions == [] then s else After(cfg, Apply(cfg, s, actions[0]), actions[1..])
  }

  // ---- At-least-once delivery ----

  // Every event of the contract in [lo, hi) was emitted or skipped by the cap.
  ghost predicate Covered(cfg: Config, log: Log, c: string, lo: nat, hi: nat)
  {
    c in cfg.chain && forall e :: e in cfg.chain[c] && lo <= e.ledger < hi ==> e in log.sink || e in log.skipped
  }

  // A batch joins up with what is covered, and holds all of its range but what
  // the cap skipped.
  ghost predicate BatchOk(cfg: Config, log: Log, b: Batch)
  {
    && Covered(cfg, log, b.contract, b.origin, b.from)
    && forall e :: e in cfg.chain[b.contract] && b.from <= e.ledger <= b.through ==> e in b.events || e in log.skipped
  }

  ghost predicate Emits(log: Log, b: Batch)
  {
    forall e :: e in b.events ==> e in log.sink
  }

  // A checkpoint stems from a batch that was emitted completely.
  ghost predicate MarkOk(cfg: Config, log: Log, c: string, m: Mark)
  {
    && m.ledger == m.batch.through && m.batch.contract == c
    && Covered(cfg, log, c, m.batch.origin, m.ledger + 1) && Emits(log, m.batch)
  }

  ghost predicate MarksOk(cfg: Config, log: Log, marks: Marks)
  {
    forall c :: c in marks ==> MarkOk(cfg, log, c, marks[c])
  }

  ghost predicate FetcherOk(cfg: Config, log: Log, c: string, f: Fetcher)
  {
    match f
    case Starting => true
    case Idle(next, origin) => Covered(cfg, log, c, origin, next)
    case Waiting(b) => b.contract == c && BatchOk(cfg, log, b)
    case Acked(b, ok) =>
      b.contract == c && BatchOk(cfg, log, b) && (ok ==> Covered(cfg, log, c, b.origin, b.through + 1))
  }

  ghost predicate JobOk(cfg: Config, log: Log, job: Job)
  {
    && ValidJob(job, cfg.maxRetries) && BatchOk(cfg, log, job.batch)
    && (!job.failed ==> forall i :: 0 <= i < job.pos ==> job.batch.events[i] in log.sink)
  }

  ghost predicate FetchersOk(cfg: Config, log: Log, fetchers: map<string, Fetcher>)
  {
    forall c :: c in fetchers ==> c in cfg.chain && FetcherOk(cfg, log, c, fetchers[c])
  }

  ghost predicate ChannelOk(cfg: Config, log: Log, channel: seq<Batch>)
  {
    forall i :: 0 <= i < |channel| ==> BatchOk(cfg, log, channel[i])
  }

  ghost predicate WorkersOk(cfg: Config, log: Log, workers: seq<WorkerState>)
  {
    forall w :: 0 <= w < |workers| && workers[w].Busy? ==> JobOk(cfg, log, workers[w].job)
  }

  ghost predicate Inv(cfg: Config, s: State)
  {
    && MarksOk(cfg, s.log, Held(s.store)) && MarksOk(cfg, s.log, Durable(s.store))
    && FetchersOk(cfg, s.log, s.fetchers) && ChannelOk(cfg, s.log, s.channel) && WorkersOk(cfg, s.log, s.workers)
  }

  // Nothing emitted or skipped is ever taken back.
  ghost predicate Grows(log: Log, log': Log)
  {
    (forall e :: e in log.sink ==> e in log'.sink) && log.skipped <= log'.skipped
  }

  lemma LogGrows(cfg: Config, s: State, a: Action)
    requires Enabled(cfg, s, a)
    ensures Grows(s.log, Apply(cfg, s, a).log)
  {
  }

  lemma InvGrows(cfg: Config, s: State, log: Log)
    requires Inv(cfg, s) && Grows(s.log, log)
    ensures Inv(cfg, s.(log := log))
  {
  }

  // A round keeps the chain's order of events and skips only at the cap.
  lemma FetchedBatchOk(cfg: Config, s: State, s': State, c: string, tip: nat, replies: seq<Reply>)
    requires Inv(cfg, s) && Enabled(cfg, s, Fetch(c, tip, replies)) && s' == Apply(cfg, s, Fetch(c, tip, replies))
    ensures s'.fetchers[c].Waiting? && BatchOk(cfg, s'.log, s'.fetchers[c].batch)
  {
    hide Paging, Honest, InRange, MarksOk, ChannelOk, WorkersOk;
    var next, safe := s.fetchers[c].next, SafeTip(cfg, tip);
    var range := InRange(cfg.chain[c], next, safe + 1);
    PagingDelivers(replies, range, [], next, safe, 4 * cfg.batchSize);
    assert [] + range == range;
    forall e | e in cfg.chain[c] && next <= e.ledger <= safe
      ensures e in s'.fetchers[c].batch.events || e in s'.log.skipped
    {
      InRangeMembers(cfg.chain[c], next, safe + 1, e);
    }
  }

  // The batch of a job that finished without failures extends the coverage.
  lemma FinishedCovers(cfg: Config, log: Log, job: Job)
    requires JobOk(cfg, log, job) && !job.failed && job.pos == |job.batch.events|
    ensures MarkOk(cfg, log, job.batch.contract, Mark(job.batch.through, job.batch))
  {
  }

  lemma EmittedJobOk(cfg: Config, log: Log, log': Log, job: Job, reply: EmitReply)
    requires JobOk(cfg, log', job) && CanEmit(job)
    requires log' == log.(sink := log.sink + Leaves(job.batch.events[job.pos], reply))
    ensures JobOk(cfg, log', AfterAttempt(job, reply, cfg.maxRetries))
  {
    hide BatchOk;
  }

  lemma StepKeepsStore(cfg: Config, s: State, a: Action)
    requires Enabled(cfg, s, a) && Inv(cfg, s.(log := Apply(cfg, s, a).log))
    ensures
      var s' := Apply(cfg, s, a);
      MarksOk(cfg, s'.log, Held(s'.store)) && MarksOk(cfg, s'.log, Durable(s'.store))
  {
    hide MarkOk, FetchersOk, ChannelOk, JobOk;
    if a.Finish? && !s.workers[a.worker].job.failed {
      FinishedCovers(cfg, s.log, s.workers[a.worker].job);
    }
  }

  lemma StepKeepsFetchers(cfg: Config, s: State, a: Action)
    requires Inv(cfg, s) && Enabled(cfg, s, a) && Inv(cfg, s.(log := Apply(cfg, s, a).log))
    ensures FetchersOk(cfg, Apply(cfg, s, a).log, Apply(cfg, s, a).fetchers)
  {
    hide Covered, BatchOk, ChannelOk;
    if a.Finish? && !s.workers[a.worker].job.failed {
      FinishedCovers(cfg, s.log, s.workers[a.worker].job);
    }
    if a.Finish? { BatchOfChain(cfg, s.log, s.workers[a.worker].job.batch); }
    if a.Ack? { BatchOfChain(cfg, s.log, s.fetchers[a.contract].batch); }
    if a.Boot? { NothingToCover(cfg, s.log, a.contract, SafeTip(cfg, a.tip)); }
    if a.Fetch? { FetchedBatchOk(cfg, s, Apply(cfg, s, a), a.contract, a.tip, a.replies); }
  }

  lemma BatchOfChain(cfg: Config, log: Log, b: Batch)
    requires BatchOk(cfg, log, b)
    ensures b.contract in cfg.chain && Covered(cfg, log, b.contract, b.origin, b.from)
  {
  }

  lemma NothingToCover(cfg: Config, log: Log, c: string, ledger: nat)
    requires c in cfg.chain
    ensures Covered(cfg, log, c, ledger, ledger)
  {
  }

  lemma StepKeepsQueued(cfg: Config, s: State, a: Action)
    requires Inv(cfg, s) && Enabled(cfg, s, a) && Inv(cfg, s.(log := Apply(cfg, s, a).log))
    ensures ChannelOk(cfg, Apply(cfg, s, a).log, Apply(cfg, s, a).channel)
    ensures WorkersOk(cfg, Apply(cfg, s, a).log, Apply(cfg, s, a).workers)
  {
    hide Covered, BatchOk, MarksOk;
    if a.Fetch? { FetchedBatchOk(cfg, s, Apply(cfg, s, a), a.contract, a.tip, a.replies); }
    if a.Emit? { EmittedJobOk(cfg, s.log, Apply(cfg, s, a).log, s.workers[a.worker].job, a.reply); }
  }

  lemma StepKeepsInv(cfg: Config, s: State, a: Action)
    requires Inv(cfg, s) && Enabled(cfg, s, a)
    ensures Inv(cfg, Apply(cfg, s, a))
  {
    hide MarksOk, FetchersOk, ChannelOk, WorkersOk, Apply, Grows;
    LogGrows(cfg, s, a);
    InvGrows(cfg, s, Apply(cfg, s, a).log);
    StepKeepsStore(cfg, s, a);
    StepKeepsFetchers(cfg, s, a);
    StepKeepsQueued(cfg, s, a);
  }

  lemma {:induction false} RunKeepsInv(cfg: Config, s: State, actions: seq<Action>)
    requires Inv(cfg, s) && Runs(cfg, s, actions)
    ensures Inv(cfg, After(cfg, s, actions))
    decreases |actions|
  {
    hide Inv, Apply, Enabled;
    if actions != [] {
      StepKeepsInv(cfg, s, actions[0]);
      RunKeepsInv(cfg, Apply(cfg, s, actions[0]), actions[1..]);
    }
  }

  // The exceptions are exactly that: a step adds an event to them only when it
  // is a round over a range of more than 4 * batch_size events that collected
  // that many or more and left the event out.
  lemma SkippedOnlyAtCap(cfg: Config, s: State, a: Action, e: Event)
    requires Enabled(cfg, s, a) && e in Apply(cfg, s, a).log.skipped && e !in s.log.skipped
    ensures a.Fetch?
    ensures
      var next, safe := s.fetchers[a.contract].next, SafeTip(cfg, a.tip);
      var range, round := InRange(cfg.chain[a.contract], next, safe + 1), RoundOf(cfg, next, a.tip, a.replies);
      && e in cfg.chain[a.contract] && next <= e.ledger <= safe && |range| > 4 * cfg.batchSize
      && round.capped && 4 * cfg.batchSize <= |round.collected| && round.collected < range && e !in round.collected
  {
    assert a.Fetch?;
    var next, safe := s.fetchers[a.contract].next, SafeTip(cfg, a.tip);
    var range := InRange(cfg.chain[a.contract], next, safe + 1);
    PagingDelivers(a.replies, range, [], next, safe, 4 * cfg.batchSize);
    assert [] + range == range;
    InRangeMembers(cfg.chain[a.contract], next, safe + 1, e);
  }
}
