// The circuit breaker in front of the idempotency middleware.
module Breaker {
  datatype State = State(failureCount: nat, lastFailureTime: int)

  class IdempotencyCircuitBreaker {
    var failureCount: nat
    var lastFailureTime: int
    const threshold: nat
    const resetTimeoutMs: int

    ghost function View(): State
      reads this
    {
      State(failureCount, lastFailureTime)
    }

    constructor (threshold: nat, resetTimeoutMs: int)
      ensures View() == State(0, 0) && this.threshold == threshold && this.resetTimeoutMs == resetTimeoutMs
    {
      failureCount, lastFailureTime := 0, 0;
      this.threshold, this.resetTimeoutMs := threshold, resetTimeoutMs;
    }

    method IsOpen(now: int) returns (open: bool)
      ensures open == Open(View(), threshold, resetTimeoutMs, now)
    {
      if failureCount >= threshold {
        if now - lastFailureTime < resetTimeoutMs { return true; }
        return false;
      }
      return false;
    }

    method RecordSuccess()
      modifies this
      ensures View() == After(old(View()), Success)
    {
      failureCount := 0;
    }

    method RecordFailure(now: int)
      modifies this
      ensures View() == After(old(View()), Failure(now))
    {
      failureCount := failureCount + 1;
      lastFailureTime := now;
    }
  }

  // What the middleware reports to the breaker.
  datatype Report = Success | Failure(at: int)

  predicate Open(s: State, threshold: nat, resetTimeoutMs: int, now: int)
  {
    s.failureCount >= threshold && now - s.lastFailureTime < resetTimeoutMs
  }

  function After(s: State, r: Report): State
  {
    match r
    case Success => s.(failureCount := 0)
    case Failure(at) => State(s.failureCount + 1, at)
  }

  function Replay(history: seq<Report>): State
  {
    if history == [] then State(0, 0) else After(Replay(history[..|history| - 1]), history[|history| - 1])
  }

  // The last n reports were all failures.
  ghost predicate EndsInFailures(history: seq<Report>, n: nat)
  {
    n <= |history| && forall i :: |history| - n <= i < |history| ==> history[i].Failure?
  }

  // The count reaches n exactly when the last n reports were failures.
  lemma {:induction false} FailureCountMeaning(history: seq<Report>, n: nat)
    ensures Replay(history).failureCount >= n <==> EndsInFailures(history, n)
  {
    if history != [] && n > 0 {
      var rest := history[..|history| - 1];
      FailureCountMeaning(rest, n - 1);
      assert forall i :: 0 <= i < |rest| ==> rest[i] == history[i];
      if EndsInFailures(history, n) {
        assert history[|history| - 1].Failure?;
      } else if history[|history| - 1].Failure? {
        assert !EndsInFailures(rest, n - 1);
      }
    }
  }

  // The time of the last failure in the history, and zero before the first.
  ghost predicate LastFailedAt(history: seq<Report>, t: int)
  {
    if exists i :: 0 <= i < |history| && history[i].Failure?
    then exists i :: 0 <= i < |history| && history[i] == Failure(t) && forall j :: i < j < |history| ==> history[j] == Success
    else t == 0
  }

  lemma {:induction false} FailureTimeMeaning(history: seq<Report>, t: int)
    ensures LastFailedAt(history, t) <==> t == Replay(history).lastFailureTime
  {
    if history != [] {
      var n, rest := |history| - 1, history[..|history| - 1];
      FailureTimeMeaning(rest, t);
      assert forall i :: 0 <= i < n ==> rest[i] == history[i];
      if history[n].Success? {
        assert (exists i :: 0 <= i < |rest| && rest[i].Failure?) <==> (exists i :: 0 <= i < |history| && history[i].Failure?);
        if i :| 0 <= i < |rest| && rest[i] == Failure(t) && forall j :: i < j < |rest| ==> rest[j] == Success {
          assert history[i] == Failure(t);
        }
      }
    }
  }

  // The breaker is open exactly when the last `threshold` reports were failures
  // and the last failure is less than the timeout ago.
  lemma OpenIff(history: seq<Report>, threshold: nat, resetTimeoutMs: int, now: int, t: int)
    requires LastFailedAt(history, t)
    ensures Open(Replay(history), threshold, resetTimeoutMs, now) <==> EndsInFailures(history, threshold) && now - t < resetTimeoutMs
  {
    FailureCountMeaning(history, threshold);
    FailureTimeMeaning(history, t);
  }

  // A request's first read never throws, because the cache service answers null
  // when Redis fails; so every request reports a success before it can report a
  // failure. While requests come one at a time, a total outage therefore never
  // opens a breaker with a threshold of two or more.
  lemma SequentialOutageStaysClosed(history: seq<Report>, threshold: nat, resetTimeoutMs: int, now: int)
    requires threshold >= 2
    requires |history| > 0 ==> history[0] == Success
    requires forall i :: 0 < i < |history| && history[i].Failure? ==> history[i - 1] == Success
    ensures !Open(Replay(history), threshold, resetTimeoutMs, now)
  {
    FailureCountMeaning(history, threshold);
  }
}
