// Events as the chain records them, and the batches the indexer makes of them.
module Chain {
  datatype Event = Event(contract: string, id: string, ledger: nat)

  // One fetched range [from, through]. `origin` is history: the ledger at which
  // the uninterrupted coverage this batch extends began.
  datatype Batch = Batch(contract: string, origin: nat, from: nat, through: nat, events: seq<Event>)

  ghost predicate Sorted(events: seq<Event>)
  {
    forall i, j :: 0 <= i < j < |events| ==> events[i].ledger <= events[j].ledger
  }

  // The events with lo <= ledger < hi, in order.
  function InRange(events: seq<Event>, lo: nat, hi: nat): seq<Event>
  {
    if events == [] then []
    else (if lo <= events[0].ledger < hi then [events[0]] else []) + InRange(events[1..], lo, hi)
  }

  lemma {:induction false} InRangeMembers(events: seq<Event>, lo: nat, hi: nat, e: Event)
    ensures e in InRange(events, lo, hi) <==> e in events && lo <= e.ledger < hi
  {
    if events != [] {
      InRangeMembers(events[1..], lo, hi, e);
      assert events == [events[0]] + events[1..];
    }
  }

  // Consecutive ranges of a chain in ledger order join up.
  lemma {:induction false} InRangeJoin(events: seq<Event>, lo: nat, mid: nat, hi: nat)
    requires Sorted(events) && lo <= mid <= hi
    ensures InRange(events, lo, mid) + InRange(events, mid, hi) == InRange(events, lo, hi)
  {
    if events != [] {
      InRangeJoin(events[1..], lo, mid, hi);
      if events[0].ledger >= mid { InRangeEmpty(events, lo, mid); }
    }
  }

  lemma {:induction false} InRangeEmpty(events: seq<Event>, lo: nat, hi: nat)
    requires forall i :: 0 <= i < |events| ==> events[i].ledger >= hi
    ensures InRange(events, lo, hi) == []
  {
    if events != [] { InRangeEmpty(events[1..], lo, hi); }
  }
}
