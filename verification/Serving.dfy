// How a worker serves the queue when nothing fails, from any state of the
// pipeline: the building blocks of the runs other modules exhibit.
module Serving {
  import opened Chain
  import opened Checkpoints
  import opened Worker
  import opened Pipeline

  // A step of a worker in which the sink and the store do as they are told.
  ghost predicate Serves(a: Action)
  {
    a.Take? || (a.Emit? && a.reply == Emitted) || (a.Finish? && a.save == Saved)
  }

  ghost predicate AllServe(actions: seq<Action>)
  {
    forall i :: 0 <= i < |actions| ==> Serves(actions[i])
  }

  lemma {:induction false} Concat(cfg: Config, s: State, first: seq<Action>, second: seq<Action>)
    requires Runs(cfg, s, first) && Runs(cfg, After(cfg, s, first), second)
    ensures Runs(cfg, s, first + second) && After(cfg, s, first + second) == After(cfg, After(cfg, s, first), second)
    decreases |first|
  {
    hide Apply, Enabled;
    if first == [] {
      assert first + second == second;
    } else {
      assert (first + second)[1..] == first[1..] + second;
      Concat(cfg, Apply(cfg, s, first[0]), first[1..], second);
    }
  }

  lemma OneStep(cfg: Config, s: State, a: Action)
    requires Enabled(cfg, s, a)
    ensures Runs(cfg, s, [a]) && After(cfg, s, [a]) == Apply(cfg, s, a)
  {
    hide Apply, Enabled;
    assert [a][1..] == [];
    assert Runs(cfg, Apply(cfg, s, a), []) && After(cfg, Apply(cfg, s, a), []) == Apply(cfg, s, a);
  }

  // The run that goes one step further.
  lemma Extend(cfg: Config, s: State, actions: seq<Action>, a: Action)
    requires Runs(cfg, s, actions) && Enabled(cfg, After(cfg, s, actions), a)
    ensures Runs(cfg, s, actions + [a]) && After(cfg, s, actions + [a]) == Apply(cfg, After(cfg, s, actions), a)
  {
    hide Apply, Enabled, Runs, After;
    OneStep(cfg, After(cfg, s, actions), a);
    Concat(cfg, s, actions, [a]);
  }

  function DoneWith(b: Batch): WorkerState
  {
    Busy(Job(b, |b.events|, 0, false, false))
  }

  // A worker that has had no trouble so far emits the rest of its batch.
  lemma {:induction false} EmitRest(cfg: Config, s: State, w: nat, job: Job) returns (actions: seq<Action>)
    requires job == Job(job.batch, job.pos, 0, false, false) && job.pos <= |job.batch.events|
    requires w < |s.workers| && s.workers[w] == Busy(job)
    ensures AllServe(actions) && Runs(cfg, s, actions)
    ensures After(cfg, s, actions) == s.(
      log := s.log.(sink := s.log.sink + job.batch.events[job.pos..]), workers := s.workers[w := DoneWith(job.batch)])
    decreases |job.batch.events| - job.pos
  {
    if job.pos == |job.batch.events| {
      actions := [];
      assert s.log.sink + [] == s.log.sink && s.workers[w := Busy(job)] == s.workers;
    } else {
      var e, next := job.batch.events[job.pos], job.(pos := job.pos + 1);
      var s1 := Apply(cfg, s, Emit(w, Emitted));
      OneStep(cfg, s, Emit(w, Emitted));
      var rest := EmitRest(cfg, s1, w, next);
      Concat(cfg, s, [Emit(w, Emitted)], rest);
      actions := [Emit(w, Emitted)] + rest;
      assert s1.log.sink + job.batch.events[next.pos..] == s.log.sink + job.batch.events[job.pos..];
      assert s1.workers[w := DoneWith(job.batch)] == s.workers[w := DoneWith(job.batch)];
    }
  }

  // A free worker takes the batch at the head of the channel and emits it all.
  lemma TakeAndEmit(cfg: Config, s: State, w: nat) returns (actions: seq<Action>)
    requires w < |s.workers| && s.workers[w].Free? && s.channel != []
    ensures AllServe(actions) && Runs(cfg, s, actions)
    ensures
      var b := s.channel[0];
      After(cfg, s, actions) == s.(
        channel := s.channel[1..], log := s.log.(sink := s.log.sink + b.events), workers := s.workers[w := DoneWith(b)])
  {
    hide Runs, After;
    var b := s.channel[0];
    OneStep(cfg, s, Take(w));
    var s1 := Apply(cfg, s, Take(w));
    var rest := EmitRest(cfg, s1, w, Job(b, 0, 0, false, false));
    Concat(cfg, s, [Take(w)], rest);
    actions := [Take(w)] + rest;
    assert b.events[0..] == b.events && s1.workers[w := DoneWith(b)] == s.workers[w := DoneWith(b)];
  }

  // ... and saves the checkpoint.
  lemma ServeOne(cfg: Config, s: State, w: nat) returns (actions: seq<Action>)
    requires w < |s.workers| && s.workers[w].Free? && s.channel != []
    ensures AllServe(actions) && Runs(cfg, s, actions)
    ensures
      var b := s.channel[0];
      After(cfg, s, actions) == s.(
        channel := s.channel[1..], log := s.log.(sink := s.log.sink + b.events),
        store := Save(s.store, b.contract, Mark(b.through, b), Saved), fetchers := s.fetchers[b.contract := Acked(b, true)])
  {
    hide Runs, After, Save;
    var emits := TakeAndEmit(cfg, s, w);
    Extend(cfg, s, emits, Finish(w, Saved));
    actions := emits + [Finish(w, Saved)];
    assert s.workers[w := DoneWith(s.channel[0])][w := Free] == s.workers;
  }

  // Two maps that say the same about c.
  ghost predicate Agree<T(!new)>(m: map<string, T>, m': map<string, T>, c: string)
  {
    (c in m <==> c in m') && (c in m ==> m[c] == m'[c])
  }

  // What serving the batches ahead leaves as it was, for a contract that has
  // none among them; any save flushes its cached checkpoint to disk.
  ghost predicate Passed(s: State, s': State, c: string, ahead: seq<Batch>)
  {
    && s'.workers == s.workers && s'.log.skipped == s.log.skipped
    && Agree(s'.fetchers, s.fetchers, c) && Agree(Held(s'.store), Held(s.store), c)
    && s'.store.FileStore? == s.store.FileStore?
    && Agree(Durable(s'.store), if ahead == [] then Durable(s.store) else Held(s.store), c)
    && forall e :: e in s'.log.sink ==> e in s.log.sink || exists i :: 0 <= i < |ahead| && e in ahead[i].events
  }

  lemma OnePassed(s: State, s': State, c: string)
    requires s.channel != [] && s.channel[0].contract != c
    requires
      var b := s.channel[0];
      s' == s.(
        channel := s.channel[1..], log := s.log.(sink := s.log.sink + b.events),
        store := Save(s.store, b.contract, Mark(b.through, b), Saved), fetchers := s.fetchers[b.contract := Acked(b, true)])
    ensures Passed(s, s', c, s.channel[..1])
  {
    assert s.channel[..1][0] == s.channel[0];
  }

  lemma PassedJoin(s: State, s1: State, s2: State, c: string, b: Batch, ahead: seq<Batch>)
    requires Passed(s, s1, c, [b]) && Passed(s1, s2, c, ahead)
    ensures Passed(s, s2, c, [b] + ahead)
  {
    forall e | e in s2.log.sink && e !in s.log.sink
      ensures exists i :: 0 <= i < |[b] + ahead| && e in ([b] + ahead)[i].events
    {
      if e in s1.log.sink {
        assert e in ([b] + ahead)[0].events;
      } else {
        var i :| 0 <= i < |ahead| && e in ahead[i].events;
        assert e in ([b] + ahead)[i + 1].events;
      }
    }
  }

  // A free worker serves the first k batches of the channel.
  lemma {:induction false} ServeAhead(cfg: Config, s: State, w: nat, k: nat, c: string) returns (actions: seq<Action>)
    requires w < |s.workers| && s.workers[w].Free? && k <= |s.channel|
    requires forall i :: 0 <= i < k ==> s.channel[i].contract != c
    ensures AllServe(actions) && Runs(cfg, s, actions)
    ensures After(cfg, s, actions).channel == s.channel[k..] && Passed(s, After(cfg, s, actions), c, s.channel[..k])
    decreases k
  {
    hide Passed, Apply, Enabled, Save;
    if k == 0 {
      actions := [];
      NonePassed(s, c);
      assert s.channel[..0] == [];
    } else {
      var first := ServeOne(cfg, s, w);
      var s1 := After(cfg, s, first);
      OnePassed(s, s1, c);
      var rest := ServeAhead(cfg, s1, w, k - 1, c);
      Concat(cfg, s, first, rest);
      actions := first + rest;
      assert s.channel[..1] == [s.channel[0]] && [s.channel[0]] + s1.channel[..k - 1] == s.channel[..k];
      PassedJoin(s, s1, After(cfg, s, actions), c, s.channel[0], s1.channel[..k - 1]);
    }
  }

  lemma NonePassed(s: State, c: string)
    ensures Passed(s, s, c, [])
  {
  }
}
