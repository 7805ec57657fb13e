// When durable checkpoints go down. The file store takes no maximum, so it is
// the fetcher that would have to keep a contract's ranges from falling back.
module CheckpointOrder {
  import opened Prelude
  import opened Chain
  import opened Fetching
  import opened DeadLetters
  import opened Checkpoints
  import opened Worker
  import opened Pipeline
  import opened Delivery
  import opened Serving

  // A fetch of c whose safe tip is below the checkpoint the store holds for c.
  ghost predicate Behind(cfg: Config, s: State, a: Action, c: string)
  {
    a.Fetch? && a.contract == c && c in Held(s.store) && SafeTip(cfg, a.tip) < Held(s.store)[c].ledger
  }

  ghost predicate NeverBehind(cfg: Config, s: State, actions: seq<Action>, c: string)
    requires Runs(cfg, s, actions)
    decreases |actions|
  {
    actions == [] || (!Behind(cfg, s, actions[0], c) && NeverBehind(cfg, Apply(cfg, s, actions[0]), actions[1..], c))
  }

  // The disk is not ahead of the cache, nor the cache of the batch under way.
  ghost predicate InStep(s: State, c: string)
  {
    && (c in Durable(s.store) ==> c in Held(s.store) && Durable(s.store)[c].ledger <= Held(s.store)[c].ledger)
    && (c in s.fetchers && s.fetchers[c].Waiting? && c in Held(s.store) ==>
          Held(s.store)[c].ledger <= s.fetchers[c].batch.through)
  }

  ghost predicate NotLowered(from: Store, to: Store, c: string)
  {
    c in Durable(from) ==> c in Durable(to) && Durable(from)[c].ledger <= Durable(to)[c].ledger
  }

  lemma RoundEndsAtTip(cfg: Config, s: State, a: Action)
    requires a.Fetch? && Enabled(cfg, s, a)
    ensures Apply(cfg, s, a).fetchers[a.contract].batch.through == SafeTip(cfg, a.tip)
  {
    var next, safe := s.fetchers[a.contract].next, SafeTip(cfg, a.tip);
    PagingDelivers(a.replies, InRange(cfg.chain[a.contract], next, safe + 1), [], next, safe, 4 * cfg.batchSize);
  }

  lemma StepKeepsInStep(cfg: Config, s: State, a: Action, c: string)
    requires OneInFlight(s) && InStep(s, c) && Enabled(cfg, s, a) && !Behind(cfg, s, a, c)
    ensures InStep(Apply(cfg, s, a), c) && NotLowered(s.store, Apply(cfg, s, a).store, c)
  {
    hide Honest, RoundOf, InRange, Leaves, Pushed, Missed;
    if a.Fetch? { RoundEndsAtTip(cfg, s, a); }
  }

  lemma {:induction false} RunKeepsInStep(cfg: Config, s: State, actions: seq<Action>, c: string)
    requires OneInFlight(s) && InStep(s, c) && Runs(cfg, s, actions) && NeverBehind(cfg, s, actions, c)
    ensures
      var s' := After(cfg, s, actions);
      OneInFlight(s') && InStep(s', c) && NotLowered(s.store, s'.store, c)
    decreases |actions|
  {
    hide OneInFlight, InStep, Apply, Enabled, Behind;
    if actions != [] {
      StepKeepsOneInFlight(cfg, s, actions[0]);
      StepKeepsInStep(cfg, s, actions[0], c);
      RunKeepsInStep(cfg, Apply(cfg, s, actions[0]), actions[1..], c);
    }
  }

  // If no fetch of c is behind the checkpoint held for c, then no durable
  // checkpoint of c decreases between any two points of the run, whatever the
  // other contracts do, and whatever fails or restarts.
  lemma CheckpointsNeverDecrease(cfg: Config, s: State, before: seq<Action>, after: seq<Action>, c: string)
    requires Init(cfg, s) && Runs(cfg, s, before) && Runs(cfg, After(cfg, s, before), after)
    requires NeverBehind(cfg, s, before, c) && NeverBehind(cfg, After(cfg, s, before), after, c)
    ensures NotLowered(After(cfg, s, before).store, After(cfg, After(cfg, s, before), after).store, c)
  {
    hide Apply, Enabled;
    assert InStep(s, c) && OneInFlight(s);
    RunKeepsInStep(cfg, s, before, c);
    RunKeepsInStep(cfg, After(cfg, s, before), after, c);
  }

  // In Postgres none ever does, behind or not.
  lemma {:induction false} PostgresNeverDecreases(cfg: Config, s: State, actions: seq<Action>, c: string)
    requires s.store.PgStore? && Runs(cfg, s, actions)
    ensures After(cfg, s, actions).store.PgStore? && NotLowered(s.store, After(cfg, s, actions).store, c)
    decreases |actions|
  {
    hide Honest, RoundOf, InRange, Leaves, Pushed, Missed;
    if actions != [] {
      PostgresNeverDecreases(cfg, Apply(cfg, s, actions[0]), actions[1..], c);
    }
  }

  // ---- The state that decides it ----

  ghost predicate DurableAbove(store: Store, c: string, ledger: nat)
  {
    c in Durable(store) && Durable(store)[c].ledger > ledger
  }

  // The batch of c under way ends below the checkpoint of c on disk.
  ghost predicate Exposed(s: State, c: string)
  {
    c in s.fetchers && s.fetchers[c].Waiting? && DurableAbove(s.store, c, s.fetchers[c].batch.through)
  }

  ghost predicate NeverExposed(cfg: Config, s: State, actions: seq<Action>, c: string)
    requires Runs(cfg, s, actions)
    decreases |actions|
  {
    !Exposed(s, c) && (actions == [] || NeverExposed(cfg, Apply(cfg, s, actions[0]), actions[1..], c))
  }

  ghost predicate DiskInCache(store: Store, c: string)
  {
    c in Durable(store) ==> c in Held(store) && Durable(store)[c].ledger <= Held(store)[c].ledger
  }

  lemma UnexposedStep(cfg: Config, s: State, a: Action, c: string)
    requires OneInFlight(s) && DiskInCache(s.store, c) && Enabled(cfg, s, a) && !Exposed(s, c)
    ensures DiskInCache(Apply(cfg, s, a).store, c) && NotLowered(s.store, Apply(cfg, s, a).store, c)
  {
    hide Honest, RoundOf, InRange, Leaves, Pushed, Missed;
  }

  // The step that does it, exactly: from such a state of the file store, the end
  // of the job for that batch, with no event dead-lettered and its save written.
  lemma StepLowersIff(cfg: Config, s: State, a: Action, c: string)
    requires OneInFlight(s) && DiskInCache(s.store, c) && Enabled(cfg, s, a)
    ensures !NotLowered(s.store, Apply(cfg, s, a).store, c) <==>
      && Exposed(s, c) && s.store.FileStore?
      && a.Finish? && a.save != NotSaved && s.workers[a.worker].job.batch.contract == c && !s.workers[a.worker].job.failed
  {
    hide Honest, RoundOf, InRange, Leaves, Pushed, Missed;
  }

  // No run lowers the durable checkpoint of c without passing through such a
  // state: a fetch that is behind does no harm while only the cache is ahead.
  lemma {:induction false} UnexposedNeverLowered(cfg: Config, s: State, actions: seq<Action>, c: string)
    requires OneInFlight(s) && DiskInCache(s.store, c) && Runs(cfg, s, actions) && NeverExposed(cfg, s, actions, c)
    ensures DiskInCache(After(cfg, s, actions).store, c) && NotLowered(s.store, After(cfg, s, actions).store, c)
    decreases |actions|
  {
    hide OneInFlight, DiskInCache, Exposed, Apply, Enabled;
    if actions != [] {
      StepKeepsOneInFlight(cfg, s, actions[0]);
      UnexposedStep(cfg, s, actions[0], c);
      UnexposedNeverLowered(cfg, Apply(cfg, s, actions[0]), actions[1..], c);
    }
  }

  // ---- Tips that never fall keep every fetch ahead ----

  ghost predicate TipsRise(actions: seq<Action>, c: string, last: Option<nat>)
    decreases |actions|
  {
    actions == [] ||
    ((actions[0].Fetch? && actions[0].contract == c && last.Some? ==> last.value <= actions[0].tip)
     && TipsRise(actions[1..], c, Noted(actions[0], c, last)))
  }

  // The last tip at which c was fetched.
  function Noted(a: Action, c: string, last: Option<nat>): Option<nat>
  {
    if a.Fetch? && a.contract == c then Some(a.tip) else last
  }

  function LastTip(actions: seq<Action>, c: string, last: Option<nat>): Option<nat>
    decreases |actions|
  {
    if actions == [] then last else LastTip(actions[1..], c, Noted(actions[0], c, last))
  }

  ghost predicate AtMost(cfg: Config, last: Option<nat>, ledger: nat)
  {
    last.Some? && ledger <= SafeTip(cfg, last.value)
  }

  ghost predicate UpToTip(cfg: Config, s: State, c: string, last: Option<nat>)
  {
    && (c in Held(s.store) ==> AtMost(cfg, last, Held(s.store)[c].ledger))
    && (c in Durable(s.store) ==> AtMost(cfg, last, Durable(s.store)[c].ledger))
    && (c in s.fetchers && s.fetchers[c].Waiting? ==> AtMost(cfg, last, s.fetchers[c].batch.through))
  }

  lemma StepKeepsUpToTip(cfg: Config, s: State, a: Action, c: string, last: Option<nat>)
    requires OneInFlight(s) && UpToTip(cfg, s, c, last) && Enabled(cfg, s, a)
    requires a.Fetch? && a.contract == c && last.Some? ==> last.value <= a.tip
    ensures !Behind(cfg, s, a, c) && UpToTip(cfg, Apply(cfg, s, a), c, Noted(a, c, last))
  {
    hide Honest, RoundOf, InRange, Leaves, Pushed, Missed;
    if a.Fetch? { RoundEndsAtTip(cfg, s, a); }
  }

  lemma {:induction false} RunKeepsUpToTip(cfg: Config, s: State, actions: seq<Action>, c: string, last: Option<nat>)
    requires OneInFlight(s) && UpToTip(cfg, s, c, last) && Runs(cfg, s, actions) && TipsRise(actions, c, last)
    ensures NeverBehind(cfg, s, actions, c)
    ensures OneInFlight(After(cfg, s, actions)) && UpToTip(cfg, After(cfg, s, actions), c, LastTip(actions, c, last))
    decreases |actions|
  {
    hide OneInFlight, UpToTip, Apply, Enabled, Behind;
    if actions != [] {
      StepKeepsOneInFlight(cfg, s, actions[0]);
      StepKeepsUpToTip(cfg, s, actions[0], c, last);
      RunKeepsUpToTip(cfg, Apply(cfg, s, actions[0]), actions[1..], c, Noted(actions[0], c, last));
    }
  }

  // While the tips at which c is fetched do not fall, no fetch of c is behind,
  // so no durable checkpoint of c decreases.
  lemma RisingTipsSuffice(cfg: Config, s: State, before: seq<Action>, after: seq<Action>, c: string)
    requires Init(cfg, s) && Runs(cfg, s, before) && Runs(cfg, After(cfg, s, before), after)
    requires TipsRise(before, c, None) && TipsRise(after, c, LastTip(before, c, None))
    ensures NotLowered(After(cfg, s, before).store, After(cfg, After(cfg, s, before), after).store, c)
  {
    hide Apply, Enabled;
    assert UpToTip(cfg, s, c, None) && OneInFlight(s);
    RunKeepsUpToTip(cfg, s, before, c, None);
    RunKeepsUpToTip(cfg, After(cfg, s, before), after, c, LastTip(before, c, None));
    CheckpointsNeverDecrease(cfg, s, before, after, c);
  }

  // ---- A fetch that is behind lowers a checkpoint ----

  // A worker about to save a checkpoint.
  ghost predicate SaveDue(cfg: Config, s: State, v: nat)
  {
    Enabled(cfg, s, Finish(v, Saved)) && !s.workers[v].job.failed
  }

  // The batch of c is number k in the channel, below the checkpoint held for c,
  // which is on disk or will be once a batch ahead of it is saved.
  ghost predicate Doomed(s: State, c: string, k: nat)
  {
    && s.store.FileStore? && OneInFlight(s) && k < |s.channel| && s.channel[k].contract == c
    && c in Held(s.store) && s.channel[k].through < Held(s.store)[c].ledger
    && (k > 0 || DurableAbove(s.store, c, s.channel[k].through))
  }

  ghost predicate DurableAt(store: Store, c: string, ledger: nat)
  {
    c in Durable(store) && Durable(store)[c].ledger == ledger
  }

  // From an exposed state, or one that is about to be, a worker that serves the
  // channel without any failure lowers the checkpoint.
  lemma DoomedLowers(cfg: Config, s: State, w: nat, c: string, k: nat) returns (before: seq<Action>, last: Action)
    requires Doomed(s, c, k) && w < |s.workers| && s.workers[w].Free?
    ensures AllServe(before + [last]) && Runs(cfg, s, before) && DurableAbove(After(cfg, s, before).store, c, s.channel[k].through)
    ensures Runs(cfg, s, before + [last]) && DurableAt(After(cfg, s, before + [last]).store, c, s.channel[k].through)
  {
    hide Runs, After;
    var ahead := ServeAhead(cfg, s, w, k, c);
    var s1 := After(cfg, s, ahead);
    assert s1.channel[0] == s.channel[k] && (s.channel[..k] == [] <==> k == 0);
    var emits := TakeAndEmit(cfg, s1, w);
    Concat(cfg, s, ahead, emits);
    before, last := ahead + emits, Finish(w, Saved);
    Extend(cfg, s, before, last);
  }

  // Wherever the indexer can get: a fetch of c that is behind, while the disk is
  // behind it too or will be once another contract's batch has been saved, has
  // a continuation without any failure, crash or further fetch in which the
  // durable checkpoint of c falls to the safe tip of that fetch.
  lemma FetchBehindLowers(cfg: Config, s: State, c: string, tip: nat, replies: seq<Reply>, w: nat)
      returns (before: seq<Action>, last: Action)
    requires s.store.FileStore? && OneInFlight(s) && w < |s.workers| && s.workers[w].Free?
    requires Enabled(cfg, s, Fetch(c, tip, replies)) && Behind(cfg, s, Fetch(c, tip, replies), c)
    requires DurableAbove(s.store, c, SafeTip(cfg, tip)) || s.channel != [] || exists v: nat :: SaveDue(cfg, s, v)
    ensures
      var s1 := Apply(cfg, s, Fetch(c, tip, replies));
      && AllServe(before + [last]) && Runs(cfg, s1, before) && Runs(cfg, s1, before + [last])
      && DurableAbove(After(cfg, s1, before).store, c, SafeTip(cfg, tip))
      && DurableAt(After(cfg, s1, before + [last]).store, c, SafeTip(cfg, tip))
  {
    hide Honest, RoundOf, InRange, Missed, Runs, After;
    var a := Fetch(c, tip, replies);
    var s1 := Apply(cfg, s, a);
    RoundEndsAtTip(cfg, s, a);
    StepKeepsOneInFlight(cfg, s, a);
    if DurableAbove(s.store, c, SafeTip(cfg, tip)) || s.channel != [] {
      before, last := DoomedLowers(cfg, s1, w, c, |s.channel|);
    } else {
      var v: nat :| SaveDue(cfg, s, v);
      var flush := Finish(v, Saved);
      var s2 := Apply(cfg, s1, flush);
      StepKeepsOneInFlight(cfg, s1, flush);
      assert s.workers[v].job.batch.contract != c;
      OneStep(cfg, s1, flush);
      before, last := DoomedLowers(cfg, s2, w, c, |s.channel|);
      Concat(cfg, s1, [flush], before);
      Concat(cfg, s1, [flush], before + [last]);
      assert [flush] + (before + [last]) == [flush] + before + [last];
      before := [flush] + before;
    }
  }

  // ---- A tip that falls back lowers a checkpoint ----

  // Two contracts without events, no finality depth, one worker.
  const QUIET := Config(map["A" := [], "B" := []], 0, 1, 0, 1)

  // A round of a quiet contract from Idle(next, origin) up to the tip.
  function QuietBatch(c: string, origin: nat, next: nat, tip: nat): Batch
  {
    Batch(c, origin, next, tip, [])
  }

  lemma QuietFetch(s: State, c: string, tip: nat)
    requires c in {"A", "B"} && c in s.fetchers && s.fetchers[c].Idle? && s.fetchers[c].next <= tip && s.channel == []
    ensures
      var a := Fetch(c, tip, [Page([], false)]);
      var b := QuietBatch(c, s.fetchers[c].origin, s.fetchers[c].next, tip);
      && Enabled(QUIET, s, a)
      && Apply(QUIET, s, a) == s.(fetchers := s.fetchers[c := Waiting(b)], channel := [b])
  {
    assert QUIET.chain[c] == [];
  }

  // A whole round: fetch, take, finish with the given outcome of the save.
  lemma QuietRound(s: State, actions: seq<Action>, c: string, tip: nat, save: SaveReply) returns (actions': seq<Action>)
    requires Runs(QUIET, s, actions)
    requires
      var s1 := After(QUIET, s, actions);
      && c in {"A", "B"} && c in s1.fetchers && s1.fetchers[c].Idle? && s1.fetchers[c].next <= tip
      && s1.channel == [] && s1.workers == [Free]
    ensures actions <= actions' && Runs(QUIET, s, actions')
    ensures
      var s1 := After(QUIET, s, actions);
      var b := QuietBatch(c, s1.fetchers[c].origin, s1.fetchers[c].next, tip);
      After(QUIET, s, actions') == s1.(
        store := Save(s1.store, c, Mark(tip, b), save),
        fetchers := s1.fetchers[c := Acked(b, save == Saved)])
  {
    hide Runs, After, Honest, RoundOf, InRange, Missed, Save;
    var s1 := After(QUIET, s, actions);
    var b := QuietBatch(c, s1.fetchers[c].origin, s1.fetchers[c].next, tip);
    QuietFetch(s1, c, tip);
    actions' := actions + [Fetch(c, tip, [Page([], false)])];
    Extend(QUIET, s, actions, Fetch(c, tip, [Page([], false)]));
    var s2 := After(QUIET, s, actions');
    Extend(QUIET, s, actions', Take(0));
    actions' := actions' + [Take(0)];
    var s3 := After(QUIET, s, actions');
    assert s3 == s2.(channel := [], workers := [Busy(Job(b, 0, 0, false, false))]);
    Extend(QUIET, s, actions', Finish(0, save));
    actions' := actions' + [Finish(0, save)];
    assert After(QUIET, s, actions').workers == [Free];
    assert s3.fetchers[c := Acked(b, save == Saved)] == s1.fetchers[c := Acked(b, save == Saved)];
  }

  lemma QuietBoot(s: State, actions: seq<Action>, c: string, tip: nat) returns (actions': seq<Action>)
    requires Runs(QUIET, s, actions)
    requires
      var s1 := After(QUIET, s, actions);
      c in s1.fetchers && s1.fetchers[c] == Starting && Load(s1.store, c).None?
    ensures Runs(QUIET, s, actions')
    ensures
      var s1 := After(QUIET, s, actions);
      After(QUIET, s, actions') == s1.(fetchers := s1.fetchers[c := Idle(tip, tip)])
  {
    Extend(QUIET, s, actions, Boot(c, tip));
    actions' := actions + [Boot(c, tip)];
  }

  lemma QuietRetry(s: State, actions: seq<Action>, c: string, b: Batch) returns (actions': seq<Action>)
    requires Runs(QUIET, s, actions)
    requires c in After(QUIET, s, actions).fetchers && After(QUIET, s, actions).fetchers[c] == Acked(b, false)
    ensures Runs(QUIET, s, actions')
    ensures
      var s1 := After(QUIET, s, actions);
      After(QUIET, s, actions') == s1.(fetchers := s1.fetchers[c := Idle(b.from, b.origin)])
  {
    Extend(QUIET, s, actions, Ack(c));
    actions' := actions + [Ack(c)];
  }

  // A's save reaches only the cache, B's save flushes it to disk at 100, and A's
  // next round, at a tip of 60, overwrites it.
  lemma FallingTipLowersCheckpoint() returns (s: State, before: seq<Action>, after: seq<Action>)
    ensures Init(QUIET, s) && Runs(QUIET, s, before) && Runs(QUIET, s, after)
    ensures before <= after
    ensures "A" in Durable(After(QUIET, s, before).store) && Durable(After(QUIET, s, before).store)["A"].ledger == 100
    ensures "A" in Durable(After(QUIET, s, after).store) && Durable(After(QUIET, s, after).store)["A"].ledger == 60
  {
    s := State(FileStore(map[], map[]), Queue([], {}), Log([], {}), map["A" := Starting, "B" := Starting], [], [Free]);
    assert Init(QUIET, s) && Runs(QUIET, s, []) && After(QUIET, s, []) == s;
    {
      hide Runs, After, Apply, Enabled, Init;
      before := QuietBoot(s, [], "A", 50);
      before := QuietBoot(s, before, "B", 50);
      before := QuietRound(s, before, "A", 100, NotSaved);
      before := QuietRetry(s, before, "A", QuietBatch("A", 50, 50, 100));
      before := QuietRound(s, before, "B", 100, Saved);
      after := QuietRound(s, before, "A", 60, Saved);
    }
  }
}
