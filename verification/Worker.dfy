// A worker's handling of one batch: emit every event with retries, dead-letter
// what cannot be emitted, and checkpoint only a batch without failures.
module Worker {
  import opened Chain
  import opened Checkpoints
  import opened DeadLetters

  // What the sink answers; an error may be reported after the event was written.
  datatype EmitReply = Emitted | Refused | WrittenUnacked

  // Where a worker is in its batch: at event `pos`, attempt number `attempt`
  // (from zero), or with its retries exhausted and about to be dead-lettered.
  datatype Job = Job(batch: Batch, pos: nat, attempt: nat, exhausted: bool, failed: bool)

  ghost predicate ValidJob(job: Job, maxRetries: nat)
  {
    && job.pos <= |job.batch.events| && job.attempt <= maxRetries
    && (job.exhausted ==> job.pos < |job.batch.events|)
  }

  predicate CanEmit(job: Job)
  {
    job.pos < |job.batch.events| && !job.exhausted
  }

  // decode never fails, so an attempt is one call of the sink.
  function AfterAttempt(job: Job, reply: EmitReply, maxRetries: nat): Job
    requires CanEmit(job)
  {
    if reply.Emitted? then job.(pos := job.pos + 1, attempt := 0)
    else if job.attempt < maxRetries then job.(attempt := job.attempt + 1)
    else job.(exhausted := true)
  }

  // What the attempt leaves in the sink.
  function Leaves(e: Event, reply: EmitReply): seq<Event>
  {
    if reply.Refused? then [] else [e]
  }

  function AfterDeadLetter(job: Job): Job
  {
    job.(pos := job.pos + 1, attempt := 0, exhausted := false, failed := true)
  }

  // ---- One batch from start to end, given the sink's replies ----

  // The sink's answers to the attempts 0, 1, ... at one event.
  type Answers = seq<EmitReply>

  // Some attempt from number a on is acknowledged.
  predicate Succeeds(answers: Answers, a: nat)
    decreases |answers| - a
  {
    a < |answers| && (answers[a].Emitted? || Succeeds(answers, a + 1))
  }

  // What attempts a, a + 1, ... leave in the sink.
  function AttemptLog(e: Event, answers: Answers, a: nat): seq<Event>
    decreases |answers| - a
  {
    if a >= |answers| then []
    else if answers[a].Emitted? then [e]
    else Leaves(e, answers[a]) + AttemptLog(e, answers, a + 1)
  }

  // One list of answers per event, one answer per attempt allowed.
  ghost predicate Answered(events: seq<Event>, replies: seq<Answers>, maxRetries: nat)
  {
    |replies| == |events| && forall i :: 0 <= i < |replies| ==> |replies[i]| == maxRetries + 1
  }

  // What the events from n on leave in the sink.
  function BatchLog(events: seq<Event>, replies: seq<Answers>, n: nat): seq<Event>
    requires n <= |events| == |replies|
    decreases |events| - n
  {
    if n == |events| then [] else AttemptLog(events[n], replies[n], 0) + BatchLog(events, replies, n + 1)
  }

  ghost predicate AllSucceed(replies: seq<Answers>, n: nat)
    requires n <= |replies|
  {
    forall i :: 0 <= i < n ==> Succeeds(replies[i], 0)
  }

  // The queue after dead-lettering the failures among the first n events.
  function BatchQueue(q: Queue, events: seq<Event>, replies: seq<Answers>, appends: seq<AppendReply>, n: nat): Queue
    requires n <= |events| == |replies| == |appends|
  {
    if n == 0 then q
    else
      var q' := BatchQueue(q, events, replies, appends, n - 1);
      if Succeeds(replies[n - 1], 0) then q' else Pushed(q', RecordOf(events[n - 1]), appends[n - 1])
  }

  lemma Unfold(e: Event, answers: Answers, a: nat, log: seq<Event>, rest: seq<Event>)
    requires a < |answers| && rest == if answers[a].Emitted? then [] else AttemptLog(e, answers, a + 1)
    ensures log + AttemptLog(e, answers, a) == log + Leaves(e, answers[a]) + rest
  {
  }

  // The retry loop at one event.
  method EmitWithRetries(raw: Event, answers: Answers, maxRetries: nat) returns (emitted: bool, log: seq<Event>)
    requires |answers| == maxRetries + 1
    ensures emitted == Succeeds(answers, 0)
    ensures log == AttemptLog(raw, answers, 0)
  {
    emitted, log := false, [];
    var attempt := 0;
    while attempt <= maxRetries && !emitted
      invariant 0 <= attempt <= maxRetries + 1
      invariant Succeeds(answers, 0) == (emitted || Succeeds(answers, attempt))
      invariant AttemptLog(raw, answers, 0) == log + (if emitted then [] else AttemptLog(raw, answers, attempt))
      decreases maxRetries + 1 - attempt, !emitted
    {
      var reply := answers[attempt];
      ghost var rest := if reply.Emitted? then [] else AttemptLog(raw, answers, attempt + 1);
      assert log + AttemptLog(raw, answers, attempt) == log + Leaves(raw, reply) + rest by {
        Unfold(raw, answers, attempt, log, rest);
      }
      log := log + Leaves(raw, reply);
      if reply.Emitted? { emitted := true; } else { attempt := attempt + 1; }
    }
  }

  // The body of worker_loop for one batch. Returns what reached the sink and
  // the flag sent back to the fetcher.
  method ProcessBatch(batch: Batch, maxRetries: nat, replies: seq<Answers>, appends: seq<AppendReply>, saveReply: SaveReply,
                      queue: DeadLetterQueue, store: FileCheckpointStore) returns (log: seq<Event>, done: bool)
    requires Answered(batch.events, replies, maxRetries) && |appends| == |batch.events|
    modifies queue, store
    ensures log == BatchLog(batch.events, replies, 0)
    ensures queue.View() == BatchQueue(old(queue.View()), batch.events, replies, appends, |batch.events|)
    ensures store.View() ==
      if AllSucceed(replies, |replies|)
      then Save(old(store.View()), batch.contract, Mark(batch.through, batch), saveReply)
      else old(store.View())
    ensures done <==> saveReply == Saved && AllSucceed(replies, |replies|)
  {
    log := [];
    var batchFailed := false;
    for i := 0 to |batch.events|
      invariant BatchLog(batch.events, replies, 0) == log + BatchLog(batch.events, replies, i)
      invariant batchFailed <==> !AllSucceed(replies, i)
      invariant queue.View() == BatchQueue(old(queue.View()), batch.events, replies, appends, i)
      invariant store.View() == old(store.View())
    {
      var raw := batch.events[i];
      var emitted, left := EmitWithRetries(raw, replies[i], maxRetries);
      log := log + left;
      if !emitted {
        var _ := queue.Push(raw, appends[i]);
        batchFailed := true;
      }
    }
    done := !batchFailed;
    if !batchFailed {
      done := store.SaveMark(batch.contract, Mark(batch.through, batch), saveReply);
    }
  }

  // Every event that some attempt emitted is in the log, so a batch that is
  // checkpointed was emitted completely.
  lemma {:induction false} AttemptLogged(e: Event, answers: Answers, a: nat)
    requires Succeeds(answers, a)
    ensures e in AttemptLog(e, answers, a)
    decreases |answers| - a
  {
    if !answers[a].Emitted? { AttemptLogged(e, answers, a + 1); }
  }

  lemma {:induction false} SuccessLogged(events: seq<Event>, replies: seq<Answers>, n: nat, i: nat)
    requires n <= i < |events| == |replies| && Succeeds(replies[i], 0)
    ensures events[i] in BatchLog(events, replies, n)
    decreases i - n
  {
    if i == n { AttemptLogged(events[i], replies[i], 0); } else { SuccessLogged(events, replies, n + 1, i); }
  }

  // ---- The same batch as a sequence of single steps ----

  // Running a job step by step against the same replies: what it leaves in the
  // sink, and how it ends.
  ghost predicate Runnable(job: Job, replies: seq<Answers>, maxRetries: nat)
  {
    ValidJob(job, maxRetries) && Answered(job.batch.events, replies, maxRetries)
  }

  function RunLog(job: Job, replies: seq<Answers>, maxRetries: nat): seq<Event>
    requires Runnable(job, replies, maxRetries)
    decreases |job.batch.events| - job.pos, maxRetries + 1 - job.attempt, !job.exhausted
  {
    if job.pos == |job.batch.events| then []
    else if job.exhausted then RunLog(AfterDeadLetter(job), replies, maxRetries)
    else
      var reply := replies[job.pos][job.attempt];
      Leaves(job.batch.events[job.pos], reply) + RunLog(AfterAttempt(job, reply, maxRetries), replies, maxRetries)
  }

  function RunEnd(job: Job, replies: seq<Answers>, maxRetries: nat): Job
    requires Runnable(job, replies, maxRetries)
    decreases |job.batch.events| - job.pos, maxRetries + 1 - job.attempt, !job.exhausted
  {
    if job.pos == |job.batch.events| then job
    else if job.exhausted then RunEnd(AfterDeadLetter(job), replies, maxRetries)
    else RunEnd(AfterAttempt(job, replies[job.pos][job.attempt], maxRetries), replies, maxRetries)
  }

  // The job once it is past its current event.
  function PastEvent(job: Job, answers: Answers): Job
  {
    Job(job.batch, job.pos + 1, 0, false, job.failed || !Succeeds(answers, job.attempt))
  }

  lemma AttemptUnfolds(job: Job, replies: seq<Answers>, maxRetries: nat)
    requires Runnable(job, replies, maxRetries) && CanEmit(job)
    ensures
      var reply := replies[job.pos][job.attempt];
      var after := AfterAttempt(job, reply, maxRetries);
      && Runnable(after, replies, maxRetries) && RunEnd(job, replies, maxRetries) == RunEnd(after, replies, maxRetries)
      && RunLog(job, replies, maxRetries) == Leaves(job.batch.events[job.pos], reply) + RunLog(after, replies, maxRetries)
  {
  }

  lemma DeadLetterUnfolds(job: Job, replies: seq<Answers>, maxRetries: nat)
    requires Runnable(job, replies, maxRetries) && job.exhausted
    ensures
      var after := AfterDeadLetter(job);
      && Runnable(after, replies, maxRetries) && RunEnd(job, replies, maxRetries) == RunEnd(after, replies, maxRetries)
      && RunLog(job, replies, maxRetries) == RunLog(after, replies, maxRetries)
  {
  }

  lemma {:induction false} RunEvent(job: Job, replies: seq<Answers>, maxRetries: nat)
    requires Runnable(job, replies, maxRetries) && CanEmit(job)
    ensures
      var next := PastEvent(job, replies[job.pos]);
      && RunEnd(job, replies, maxRetries) == RunEnd(next, replies, maxRetries)
      && RunLog(job, replies, maxRetries)
         == AttemptLog(job.batch.events[job.pos], replies[job.pos], job.attempt) + RunLog(next, replies, maxRetries)
    decreases maxRetries - job.attempt
  {
    hide RunLog, RunEnd, Leaves;
    var answers, a, e := replies[job.pos], job.attempt, job.batch.events[job.pos];
    AttemptUnfolds(job, replies, maxRetries);
    var after, next := AfterAttempt(job, answers[a], maxRetries), PastEvent(job, answers);
    var rest := RunLog(next, replies, maxRetries);
    if answers[a].Emitted? {
      assert after == next && Leaves(e, answers[a]) == [e] by { EmittedLeaves(e); }
    } else if a < maxRetries {
      RunEvent(after, replies, maxRetries);
      assert PastEvent(after, answers) == next;
      assert Leaves(e, answers[a]) + (AttemptLog(e, answers, a + 1) + rest)
          == Leaves(e, answers[a]) + AttemptLog(e, answers, a + 1) + rest;
    } else {
      assert !Succeeds(answers, a + 1) && AttemptLog(e, answers, a + 1) == [];
      assert AfterDeadLetter(after) == next;
      DeadLetterUnfolds(after, replies, maxRetries);
      assert Leaves(e, answers[a]) + [] == Leaves(e, answers[a]);
    }
  }

  lemma EmittedLeaves(e: Event)
    ensures Leaves(e, Emitted) == [e]
  {
  }

  // The step-by-step run of a batch writes what ProcessBatch writes, and fails
  // exactly when ProcessBatch refuses to checkpoint.
  lemma {:induction false} StepsMatchLoop(batch: Batch, replies: seq<Answers>, maxRetries: nat, n: nat, failed: bool)
    requires n <= |batch.events| && Answered(batch.events, replies, maxRetries)
    ensures
      var job := Job(batch, n, 0, false, failed);
      && RunLog(job, replies, maxRetries) == BatchLog(batch.events, replies, n)
      && RunEnd(job, replies, maxRetries)
         == Job(batch, |batch.events|, 0, false, failed || exists j :: n <= j < |replies| && !Succeeds(replies[j], 0))
    decreases |batch.events| - n
  {
    if n < |batch.events| {
      RunEvent(Job(batch, n, 0, false, failed), replies, maxRetries);
      StepsMatchLoop(batch, replies, maxRetries, n + 1, failed || !Succeeds(replies[n], 0));
    }
  }

  // Delivery is at least once, not exactly once: each write whose acknowledgement
  // was lost before the one that counts leaves another copy.
  lemma {:induction false} UnackedWritesDuplicate(e: Event, answers: Answers, a: nat, n: nat)
    requires a + n < |answers| && answers[a + n] == Emitted
    requires forall i :: a <= i < a + n ==> answers[i] == WrittenUnacked
    ensures Succeeds(answers, a) && AttemptLog(e, answers, a) == seq(n + 1, _ => e)
    decreases n
  {
    if n > 0 {
      UnackedWritesDuplicate(e, answers, a + 1, n - 1);
      assert [e] + seq(n, _ => e) == seq(n + 1, _ => e);
    }
  }
}
