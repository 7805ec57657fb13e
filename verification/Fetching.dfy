// One round of a fetcher: page through getEvents for [next, safeTip].
module Fetching {
  import opened Chain

  // What the RPC answers to one getEvents call.
  datatype Reply = Failed | Page(events: seq<Event>, hasCursor: bool)

  datatype Round = FetchFailed | Fetched(collected: seq<Event>, through: nat, capped: bool)

  function Max(a: nat, b: nat): nat
  {
    if a < b then b else a
  }

  // The events of a page at or below the safe tip.
  function Final(events: seq<Event>, safeTip: nat): seq<Event>
  {
    if events == [] then []
    else Final(events[..|events| - 1], safeTip)
         + (if events[|events| - 1].ledger <= safeTip then [events[|events| - 1]] else [])
  }

  function Latest(events: seq<Event>, safeTip: nat, through: nat): nat
  {
    if events == [] then through
    else
      var t := Latest(events[..|events| - 1], safeTip, through);
      if events[|events| - 1].ledger <= safeTip then Max(t, events[|events| - 1].ledger) else t
  }

  // The paging loop as a recursion over the replies; `cap` is 4 * batch_size.
  // An RPC that never answers again counts as a failed fetch.
  function Paging(replies: seq<Reply>, collected: seq<Event>, through: nat, safeTip: nat, cap: nat): Round
  {
    if replies == [] || replies[0].Failed? then FetchFailed
    else
      var page := replies[0];
      var collected' := collected + Final(page.events, safeTip);
      var through' := Latest(page.events, safeTip, through);
      if page.hasCursor && page.events != [] && |collected'| < cap then
        Paging(replies[1..], collected', through', safeTip, cap)
      else
        Fetched(collected', Max(through', safeTip), page.hasCursor && page.events != [])
  }

  method FetchRound(nextLedger: nat, safeTip: nat, batchSize: nat, replies: seq<Reply>) returns (r: Round)
    ensures r == Paging(replies, [], nextLedger, safeTip, 4 * batchSize)
  {
    var collected: seq<Event>, through := [], nextLedger;
    var k, more := 0, true;
    var stoppedWithCursor := false;
    while more
      invariant 0 <= k <= |replies|
      invariant more ==>
        Paging(replies, [], nextLedger, safeTip, 4 * batchSize) == Paging(replies[k..], collected, through, safeTip, 4 * batchSize)
      invariant !more ==>
        Paging(replies, [], nextLedger, safeTip, 4 * batchSize) == Fetched(collected, Max(through, safeTip), stoppedWithCursor)
      decreases |replies| - k, more
    {
      if k == |replies| || replies[k].Failed? {
        return FetchFailed;
      }
      var page := replies[k];
      ghost var collected0, through0 := collected, through;
      for i := 0 to |page.events|
        invariant collected == collected0 + Final(page.events[..i], safeTip)
        invariant through == Latest(page.events[..i], safeTip, through0)
      {
        assert page.events[..i + 1][..i] == page.events[..i];
        if page.events[i].ledger <= safeTip {
          through := Max(through, page.events[i].ledger);
          collected := collected + [page.events[i]];
        }
      }
      assert page.events[..|page.events|] == page.events;
      assert replies[k..][0] == page && replies[k..][1..] == replies[k + 1..];
      if page.hasCursor && page.events != [] && |collected| < 4 * batchSize {
        k := k + 1;
      } else {
        stoppedWithCursor := page.hasCursor && page.events != [];
        more := false;
      }
    }
    through := Max(through, safeTip);
    r := Fetched(collected, through, stoppedWithCursor);
  }

  // The RPC's side of the bargain: the final part of each page continues the
  // range still to be delivered, in ledger order, and an empty page or a
  // missing cursor means that nothing final is left.
  ghost predicate Honest(replies: seq<Reply>, rest: seq<Event>, safeTip: nat)
  {
    replies == [] || replies[0].Failed? ||
    var f := Final(replies[0].events, safeTip);
    && f <= rest
    && (!replies[0].hasCursor || replies[0].events == [] ==> f == rest)
    && Honest(replies[1..], rest[|f|..], safeTip)
  }

  lemma {:induction false} LatestBounds(events: seq<Event>, safeTip: nat, through: nat)
    requires through <= safeTip
    ensures through <= Latest(events, safeTip, through) <= safeTip
  {
    if events != [] { LatestBounds(events[..|events| - 1], safeTip, through); }
  }

  // A round that does not fail collects a prefix of the range; all of it unless
  // it stopped at the cap; and it always advances exactly to the safe tip.
  lemma {:induction false} PagingDelivers(replies: seq<Reply>, rest: seq<Event>, collected: seq<Event>, through: nat, safeTip: nat, cap: nat)
    requires Honest(replies, rest, safeTip) && through <= safeTip
    ensures
      var r := Paging(replies, collected, through, safeTip, cap);
      r.Fetched? ==>
        && collected <= r.collected <= collected + rest
        && r.through == safeTip
        && (!r.capped ==> r.collected == collected + rest)
        && (r.capped ==> |r.collected| >= cap)
  {
    if replies != [] && replies[0].Page? {
      var f := Final(replies[0].events, safeTip);
      LatestBounds(replies[0].events, safeTip, through);
      assert rest == f + rest[|f|..];
      assert collected + f + rest[|f|..] == collected + rest;
      PagingDelivers(replies[1..], rest[|f|..], collected + f, Latest(replies[0].events, safeTip, through), safeTip, cap);
    }
  }

  // ---- What a round keeps ----

  // Of a page exactly the events at or below the safe tip are kept, as often as
  // they are there.
  lemma {:induction false} FinalKeeps(events: seq<Event>, safeTip: nat, e: Event)
    ensures multiset(Final(events, safeTip))[e] == if e.ledger <= safeTip then multiset(events)[e] else 0
  {
    if events != [] {
      FinalKeeps(events[..|events| - 1], safeTip, e);
      assert events == events[..|events| - 1] + [events[|events| - 1]];
    }
  }

  // ... and in their order.
  lemma {:induction false} FinalConcat(a: seq<Event>, b: seq<Event>, safeTip: nat)
    ensures Final(a + b, safeTip) == Final(a, safeTip) + Final(b, safeTip)
  {
    if b == [] {
      assert a + b == a;
    } else {
      FinalConcat(a, b[..|b| - 1], safeTip);
      assert (a + b)[..|a + b| - 1] == a + b[..|b| - 1];
    }
  }

  // Whatever the RPC answers, honest or not, a round collects no event above
  // the safe tip.
  lemma {:induction false} CollectsOnlyFinal(replies: seq<Reply>, collected: seq<Event>, through: nat, safeTip: nat, cap: nat, e: Event)
    requires forall x :: x in collected ==> x.ledger <= safeTip
    ensures
      var r := Paging(replies, collected, through, safeTip, cap);
      r.Fetched? && e in r.collected ==> e.ledger <= safeTip
  {
    if replies != [] && replies[0].Page? {
      var f := Final(replies[0].events, safeTip);
      forall x | x in f ensures x.ledger <= safeTip {
        FinalKeeps(replies[0].events, safeTip, x);
        assert multiset(f)[x] > 0;
      }
      CollectsOnlyFinal(replies[1..], collected + f, Latest(replies[0].events, safeTip, through), safeTip, cap, e);
    }
  }
}
