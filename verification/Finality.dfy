// The finality depth: nothing is fetched, emitted or checkpointed until it is
// that many ledgers below a tip the contract was fetched at.
module Finality {
  import opened Prelude
  import opened Chain
  import opened Fetching
  import opened DeadLetters
  import opened Checkpoints
  import opened Pipeline
  import opened Delivery

  // At least `depth` ledgers below the tip; only ledger 0 before there are any.
  ghost predicate FinalAt(depth: nat, tip: nat, ledger: nat)
  {
    if tip >= depth then ledger + depth <= tip else ledger == 0
  }

  // Exactly `depth` ledgers below the tip.
  ghost predicate EndsAt(depth: nat, tip: nat, ledger: nat)
  {
    if tip >= depth then ledger + depth == tip else ledger == 0
  }

  // The batch of contract c is what a fetch at this tip sends.
  ghost predicate FinalBatch(cfg: Config, tip: nat, b: Batch)
  {
    && EndsAt(cfg.finalityDepth, tip, b.through)
    && forall e :: e in b.events ==> e.contract == b.contract && b.from <= e.ledger && FinalAt(cfg.finalityDepth, tip, e.ledger)
  }

  // Every fetch ends exactly the finality depth below its tip and sends only
  // events of its contract at or below that.
  lemma FetchIsFinal(cfg: Config, s: State, a: Action)
    requires ValidConfig(cfg) && a.Fetch? && Enabled(cfg, s, a)
    ensures
      var f := Apply(cfg, s, a).fetchers[a.contract];
      f.Waiting? && f.batch.contract == a.contract && f.batch.from == s.fetchers[a.contract].next && FinalBatch(cfg, a.tip, f.batch)
  {
    hide Paging, Honest, InRange;
    var next, safe := s.fetchers[a.contract].next, SafeTip(cfg, a.tip);
    var range := InRange(cfg.chain[a.contract], next, safe + 1);
    PagingDelivers(a.replies, range, [], next, safe, 4 * cfg.batchSize);
    assert [] + range == range;
    forall e | e in RoundOf(cfg, next, a.tip, a.replies).collected
      ensures e.contract == a.contract && next <= e.ledger <= safe
    {
      InRangeMembers(cfg.chain[a.contract], next, safe + 1, e);
    }
  }

  // A boot that finds no checkpoint starts exactly that far below its tip, and
  // one that finds a checkpoint right after it.
  lemma BootStartsAt(cfg: Config, s: State, c: string, tip: nat)
    requires Enabled(cfg, s, Boot(c, tip))
    ensures
      var f := Apply(cfg, s, Boot(c, tip)).fetchers[c];
      && f.Idle?
      && (c !in Held(s.store) ==> EndsAt(cfg.finalityDepth, tip, f.next))
      && (c in Held(s.store) ==> f.next == Held(s.store)[c].ledger + 1)
  {
  }

  // ---- Over whole runs ----

  ghost predicate FetchedAt(actions: seq<Action>, c: string, tip: nat)
  {
    exists i :: 0 <= i < |actions| && actions[i].Fetch? && actions[i].contract == c && actions[i].tip == tip
  }

  lemma {:induction false} SentIsFinal(cfg: Config, s: State, actions: seq<Action>, b: Batch) returns (tip: nat)
    requires ValidConfig(cfg) && Runs(cfg, s, actions) && b in SentIn(cfg, s, actions)
    ensures FetchedAt(actions, b.contract, tip) && FinalBatch(cfg, tip, b)
    decreases |actions|
  {
    hide Apply, Enabled, ValidConfig, FinalBatch;
    if b in Sent(cfg, s, actions[0]) {
      FetchIsFinal(cfg, s, actions[0]);
      tip := actions[0].tip;
    } else {
      tip := SentIsFinal(cfg, Apply(cfg, s, actions[0]), actions[1..], b);
      var i :| 0 <= i < |actions[1..]| && actions[1..][i].Fetch? && actions[1..][i].contract == b.contract && actions[1..][i].tip == tip;
      assert actions[i + 1] == actions[1..][i];
    }
  }

  // Every event in the sink was in a batch that some fetch sent.
  ghost predicate FromBatch(e: Event, sent: set<Batch>)
  {
    exists b :: b in sent && e in b.events
  }

  ghost predicate SinkFrom(s: State, sent: set<Batch>)
  {
    forall e :: e in s.log.sink ==> FromBatch(e, sent)
  }

  lemma StepKeepsSinkFrom(cfg: Config, s: State, a: Action, sent: set<Batch>)
    requires AllFrom(s, sent) && SinkFrom(s, sent) && Enabled(cfg, s, a)
    ensures SinkFrom(Apply(cfg, s, a), sent + Sent(cfg, s, a))
  {
    hide Honest, RoundOf, InRange, Pushed, Missed, Save;
    forall e | FromBatch(e, sent) ensures FromBatch(e, sent + Sent(cfg, s, a)) {
      var b :| b in sent && e in b.events;
      assert b in sent + Sent(cfg, s, a);
    }
    if a.Emit? {
      var b := s.workers[a.worker].job.batch;
      assert b in sent + Sent(cfg, s, a);
    }
  }

  lemma {:induction false} RunKeepsSinkFrom(cfg: Config, s: State, actions: seq<Action>, sent: set<Batch>)
    requires AllFrom(s, sent) && SinkFrom(s, sent) && Runs(cfg, s, actions)
    ensures SinkFrom(After(cfg, s, actions), sent + SentIn(cfg, s, actions))
    decreases |actions|
  {
    hide AllFrom, SinkFrom, Apply, Enabled, Sent;
    if actions == [] {
      assert sent + {} == sent;
    } else {
      var now, later := Sent(cfg, s, actions[0]), SentIn(cfg, Apply(cfg, s, actions[0]), actions[1..]);
      StepKeepsFrom(cfg, s, actions[0], sent);
      StepKeepsSinkFrom(cfg, s, actions[0], sent);
      RunKeepsSinkFrom(cfg, Apply(cfg, s, actions[0]), actions[1..], sent + now);
      assert sent + now + later == sent + (now + later);
    }
  }

  // In every run, whatever fails or restarts, an event is emitted only when it is
  // at least the finality depth below a tip its contract was fetched at.
  lemma EmittedIsFinal(cfg: Config, s: State, actions: seq<Action>, e: Event) returns (tip: nat)
    requires ValidConfig(cfg) && Init(cfg, s) && Runs(cfg, s, actions) && e in After(cfg, s, actions).log.sink
    ensures FetchedAt(actions, e.contract, tip) && FinalAt(cfg.finalityDepth, tip, e.ledger)
  {
    hide Apply, Enabled, Runs, After, SentIn, ValidConfig;
    assert AllFrom(s, {}) && SinkFrom(s, {});
    RunKeepsSinkFrom(cfg, s, actions, {});
    assert {} + SentIn(cfg, s, actions) == SentIn(cfg, s, actions);
    assert FromBatch(e, SentIn(cfg, s, actions));
    var b :| b in SentIn(cfg, s, actions) && e in b.events;
    tip := SentIsFinal(cfg, s, actions, b);
  }

  // Every checkpoint, cached or on disk, is exactly the finality depth below one.
  lemma CheckpointIsFinal(cfg: Config, s: State, actions: seq<Action>, c: string, mark: Mark) returns (tip: nat)
    requires ValidConfig(cfg) && Init(cfg, s) && Runs(cfg, s, actions) && IsMark(After(cfg, s, actions).store, c, mark)
    ensures FetchedAt(actions, c, tip) && EndsAt(cfg.finalityDepth, tip, mark.ledger)
  {
    hide Apply, Enabled, Runs, After, SentIn, ValidConfig, Init, IsMark;
    AtLeastOnce(cfg, s, actions, c, mark);
    tip := SentIsFinal(cfg, s, actions, mark.batch);
  }

  // The start ledger of a contract is exactly that far below the tip of a boot.
  lemma {:induction false} StartIsFinal(cfg: Config, s: State, actions: seq<Action>, c: string, start: Option<nat>) returns (i: nat)
    requires Runs(cfg, s, actions) && StartLedger(cfg, s, actions, c, start).Some? && start.None?
    ensures i < |actions| && actions[i].Boot? && actions[i].contract == c
    ensures EndsAt(cfg.finalityDepth, actions[i].tip, StartLedger(cfg, s, actions, c, start).value)
    decreases |actions|
  {
    hide Apply, Enabled;
    var s1, start1 := Apply(cfg, s, actions[0]), Started(cfg, s, actions[0], c, start);
    if start1.None? {
      var j := StartIsFinal(cfg, s1, actions[1..], c, start1);
      i := j + 1;
    } else {
      i := LastStart(cfg, s1, actions[1..], c, start1);
      i := if i < |actions[1..]| then i + 1 else 0;
    }
  }

  // Which boot set it last: one of these, or the one before.
  lemma {:induction false} LastStart(cfg: Config, s: State, actions: seq<Action>, c: string, start: Option<nat>) returns (i: nat)
    requires Runs(cfg, s, actions) && start.Some?
    ensures i <= |actions| && StartLedger(cfg, s, actions, c, start).Some?
    ensures i == |actions| ==> StartLedger(cfg, s, actions, c, start) == start
    ensures i < |actions| ==>
      && actions[i].Boot? && actions[i].contract == c
      && EndsAt(cfg.finalityDepth, actions[i].tip, StartLedger(cfg, s, actions, c, start).value)
    decreases |actions|
  {
    hide Apply, Enabled;
    if actions == [] {
      i := 0;
    } else {
      var s1, start1 := Apply(cfg, s, actions[0]), Started(cfg, s, actions[0], c, start);
      var j := LastStart(cfg, s1, actions[1..], c, start1);
      if j < |actions[1..]| { i := j + 1; }
      else if start1 == start { i := |actions|; }
      else { i := 0; }
    }
  }
}
