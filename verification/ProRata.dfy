// Largest-remainder allocation of a total across weights.
module ProRata {
  import opened Prelude
  import opened Rounding

  // Sums and counts run over the indices below n, so that a loop counter can
  // be their bound.
  function Sum(s: seq<int>, n: nat): int
    requires n <= |s|
  {
    if n == 0 then 0 else Sum(s, n - 1) + s[n - 1]
  }

  function Total(s: seq<int>): int
  {
    Sum(s, |s|)
  }

  // The totals and weights that can be split.
  ghost predicate Splittable(total: int, weights: seq<int>)
  {
    total >= 0 && (forall i :: 0 <= i < |weights| ==> weights[i] >= 0) && Total(weights) > 0
  }

  // `floors` are the exact quotas total * w / weightSum rounded down and
  // `rests` what that leaves over, in units of 1/weightSum.
  ghost predicate IsQuota(total: int, w: int, weightSum: int, floor: int, rest: int)
  {
    floor * weightSum + rest == total * w && 0 <= rest < weightSum
  }

  ghost predicate Quotas(total: int, weights: seq<int>, floors: seq<int>, rests: seq<int>)
  {
    && |floors| == |rests| == |weights|
    && forall i :: 0 <= i < |weights| ==> IsQuota(total, weights[i], Total(weights), floors[i], rests[i])
  }

  // Index i comes before j in the order in which leftovers are handed out:
  // larger remainder first, then lower index.
  ghost predicate Precedes(rests: seq<int>, i: int, j: int)
    requires 0 <= i < |rests| && 0 <= j < |rests|
  {
    rests[i] > rests[j] || (rests[i] == rests[j] && i < j)
  }

  // Every part is its floor or one more, and whoever got the extra unit
  // precedes whoever did not.
  ghost predicate HandedOut(floors: seq<int>, rests: seq<int>, parts: seq<int>)
  {
    && |parts| == |floors| == |rests|
    && (forall i :: 0 <= i < |parts| ==> parts[i] == floors[i] || parts[i] == floors[i] + 1)
    && (forall i, j | 0 <= i < |parts| && 0 <= j < |parts| ::
          parts[i] == floors[i] + 1 && parts[j] == floors[j] ==> Precedes(rests, i, j))
  }

  // The specification of a largest-remainder split.
  ghost predicate IsLargestRemainderSplit(total: int, weights: seq<int>, parts: seq<int>)
  {
    && Total(parts) == total
    && exists floors, rests :: Quotas(total, weights, floors, rests) && HandedOut(floors, rests, parts)
  }

  function Count(used: seq<bool>, n: nat): nat
    requires n <= |used|
  {
    if n == 0 then 0 else Count(used, n - 1) + (if used[n - 1] then 1 else 0)
  }

  lemma {:induction false} CountUpdate(used: seq<bool>, k: nat, n: nat)
    requires n <= |used| && k < |used| && !used[k]
    ensures Count(used[k := true], n) == Count(used, n) + (if k < n then 1 else 0)
  {
    if n > 0 { CountUpdate(used, k, n - 1); }
  }

  lemma {:induction false} CountBound(used: seq<bool>, n: nat)
    requires n <= |used|
    ensures Count(used, n) < n ==> exists i :: 0 <= i < n && !used[i]
    ensures Count(used, n) <= n
    ensures (forall i :: 0 <= i < n ==> !used[i]) ==> Count(used, n) == 0
  {
    if n > 0 {
      CountBound(used, n - 1);
    }
  }

  lemma {:induction false} SumUpdate(s: seq<int>, k: nat, v: int, n: nat)
    requires n <= |s| && k < |s|
    ensures Sum(s[k := v], n) == Sum(s, n) + (if k < n then v - s[k] else 0)
  {
    if n > 0 { SumUpdate(s, k, v, n - 1); }
  }

  lemma {:induction false} SumPrefix(s: seq<int>, t: seq<int>, n: nat)
    requires n <= |s| && n <= |t| && forall i :: 0 <= i < n ==> s[i] == t[i]
    ensures Sum(s, n) == Sum(t, n)
  {
    if n > 0 { SumPrefix(s, t, n - 1); }
  }

  lemma {:induction false} SumBounds(s: seq<int>, hi: int, n: nat)
    requires n <= |s| && forall i :: 0 <= i < n ==> 0 <= s[i] < hi
    ensures 0 <= Sum(s, n) && (n > 0 ==> Sum(s, n) < n * hi)
  {
    if n > 0 {
      SumBounds(s, hi, n - 1);
      assert (n - 1) * hi + hi == n * hi;
    }
  }

  // Quotas add up: total * (sum of weights) is what the floors grant plus the rests.
  lemma {:induction false} QuotasAddUp(total: int, weights: seq<int>, floors: seq<int>, rests: seq<int>, n: nat)
    requires Quotas(total, weights, floors, rests) && n <= |weights|
    ensures total * Sum(weights, n) == Sum(floors, n) * Total(weights) + Sum(rests, n)
  {
    hide IsQuota;
    if n > 0 {
      var k, w := n - 1, Total(weights);
      QuotasAddUp(total, weights, floors, rests, k);
      QuotaAt(total, weights, floors, rests, k);
      QuotaAdded(total, w, Sum(weights, k), weights[k], Sum(floors, k), floors[k], Sum(rests, k), rests[k]);
    }
  }

  lemma QuotaAt(total: int, weights: seq<int>, floors: seq<int>, rests: seq<int>, k: nat)
    requires Quotas(total, weights, floors, rests) && k < |weights|
    ensures total * weights[k] == floors[k] * Total(weights) + rests[k]
  {
    assert IsQuota(total, weights[k], Total(weights), floors[k], rests[k]);
  }

  lemma QuotaAdded(total: int, w: int, weights: int, weight: int, floors: int, floor: int, rests: int, rest: int)
    requires total * weights == floors * w + rests && total * weight == floor * w + rest
    ensures total * (weights + weight) == (floors + floor) * w + (rests + rest)
  {
    Distribute(total, weights, weight);
    Distribute(w, floors, floor);
  }

  lemma Distribute(a: int, b: int, c: int)
    ensures a * (b + c) == a * b + a * c && (b + c) * a == b * a + c * a
  {
  }

  // The source's guard against drift can never fire.
  lemma LeftoverRange(total: int, weights: seq<int>, floors: seq<int>, rests: seq<int>)
    requires Splittable(total, weights) && Quotas(total, weights, floors, rests)
    ensures 0 <= total - Total(floors) < |weights|
  {
    var n, w := |weights|, Total(weights);
    QuotasAddUp(total, weights, floors, rests, n);
    SumBounds(rests, w, n);
    var leftover := total - Total(floors);
    Distribute(w, total, -Total(floors));
    MulOrder(leftover, n, w);
    MulOrder(leftover, 0, w);
  }

  lemma FloorQuota(total: int, w: int, weightSum: int)
    requires weightSum > 0
    ensures var part := Divide(total * w, weightSum, Floor);
      IsQuota(total, w, weightSum, part, total * w - part * weightSum)
  {
    DivideMeetsMode(total * w, weightSum, Floor);
  }

  method SplitProRata(total: int, weights: seq<int>) returns (r: Result<seq<int>>)
    ensures total < 0 ==> r == Err(NegativeTotal)
    ensures total >= 0 && weights == [] ==> r == if total == 0 then Ok([]) else Err(NoWeights)
    ensures total >= 0 && (exists i :: 0 <= i < |weights| && weights[i] < 0) ==> r == Err(NegativeWeight)
    ensures total >= 0 && weights != [] && (forall i :: 0 <= i < |weights| ==> weights[i] >= 0) && Total(weights) == 0 ==>
      r == if total == 0 then Ok(seq(|weights|, _ => 0)) else Err(ZeroWeightSum)
    ensures Splittable(total, weights) ==> r.Ok? && IsLargestRemainderSplit(total, weights, r.value)
  {
    if total < 0 { return Err(NegativeTotal); }
    if |weights| == 0 {
      if total == 0 { return Ok([]); }
      return Err(NoWeights);
    }
    if exists i :: 0 <= i < |weights| && weights[i] < 0 { return Err(NegativeWeight); }

    var weightSum := 0;
    for i := 0 to |weights|
      invariant weightSum == Sum(weights, i) && weightSum >= 0
    {
      weightSum := weightSum + weights[i];
    }
    if weightSum == 0 {
      if total == 0 { return Ok(seq(|weights|, _ => 0)); }
      return Err(ZeroWeightSum);
    }

    var floors, remainders, granted := AllocateFloors(total, weights, weightSum);
    var leftover := total - granted;
    LeftoverRange(total, weights, floors, remainders);
    if leftover < 0 || leftover >= |weights| {
      assert false;  // the drift error is unreachable
    }
    var parts := HandOutLeftovers(floors, remainders, leftover);
    return Ok(parts);
  }

  method AllocateFloors(total: int, weights: seq<int>, weightSum: int)
      returns (parts: seq<int>, remainders: seq<int>, granted: int)
    requires weightSum == Total(weights) > 0
    ensures Quotas(total, weights, parts, remainders) && granted == Total(parts)
  {
    parts, remainders, granted := [], [], 0;
    for k := 0 to |weights|
      invariant |parts| == |remainders| == k && granted == Sum(parts, k)
      invariant forall i :: 0 <= i < k ==> IsQuota(total, weights[i], weightSum, parts[i], remainders[i])
    {
      var numerator := total * weights[k];
      var part := Divide(numerator, weightSum, Floor);
      FloorQuota(total, weights[k], weightSum);
      SumPrefix(parts, parts + [part], k);
      parts := parts + [part];
      remainders := remainders + [numerator - part * weightSum];
      granted := granted + part;
    }
  }

  method HandOutLeftovers(floors: seq<int>, remainders: seq<int>, leftover: nat) returns (parts: seq<int>)
    requires |floors| == |remainders| && leftover < |floors|
    requires forall i :: 0 <= i < |remainders| ==> 0 <= remainders[i]
    ensures HandedOut(floors, remainders, parts) && Total(parts) == Total(floors) + leftover
  {
    parts := floors;
    var used := seq(|floors|, _ => false);
    var remaining: int := leftover;
    CountBound(used, |used|);
    while remaining > 0
      invariant 0 <= remaining <= leftover && |parts| == |used| == |floors|
      invariant Count(used, |used|) == leftover - remaining
      invariant Total(parts) == Total(floors) + leftover - remaining
      invariant forall i :: 0 <= i < |used| ==> parts[i] == floors[i] + (if used[i] then 1 else 0)
      invariant forall i, j :: 0 <= i < |used| && 0 <= j < |used| && used[i] && !used[j] ==> Precedes(remainders, i, j)
      decreases remaining
    {
      CountBound(used, |used|);
      var bestIdx, bestRemainder := -1, -1;
      for i := 0 to |remainders|
        invariant bestIdx == -1 ==> bestRemainder == -1 && forall j :: 0 <= j < i ==> used[j]
        invariant bestIdx != -1 ==> 0 <= bestIdx < i && !used[bestIdx] && bestRemainder == remainders[bestIdx]
        invariant bestIdx != -1 ==> forall j :: 0 <= j < i && !used[j] && j != bestIdx ==> Precedes(remainders, bestIdx, j)
      {
        if !used[i] && remainders[i] > bestRemainder {
          bestIdx, bestRemainder := i, remainders[i];
        }
      }
      SumUpdate(parts, bestIdx, parts[bestIdx] + 1, |parts|);
      CountUpdate(used, bestIdx, |used|);
      parts := parts[bestIdx := parts[bestIdx] + 1];
      used := used[bestIdx := true];
      remaining := remaining - 1;
    }
  }

  // ---- What a largest-remainder split guarantees ----

  // Each part is the floor of its exact quota or that plus one.
  lemma SplitNearQuota(total: int, weights: seq<int>, parts: seq<int>, i: nat)
    requires Splittable(total, weights) && IsLargestRemainderSplit(total, weights, parts) && i < |weights|
    ensures |parts| == |weights|
    ensures 0 <= parts[i] - Divide(total * weights[i], Total(weights), Floor) <= 1
  {
    var floors, rests :| Quotas(total, weights, floors, rests) && HandedOut(floors, rests, parts);
    assert IsQuota(total, weights[i], Total(weights), floors[i], rests[i]);
    DivideIs(total * weights[i], Total(weights), Floor, floors[i]);
  }

  // Total distance from the exact quotas, scaled by the weight sum.
  function Distance(total: int, weights: seq<int>, weightSum: int, parts: seq<int>, n: nat): nat
    requires |parts| == |weights| && n <= |weights|
  {
    if n == 0 then 0
    else Distance(total, weights, weightSum, parts, n - 1) + Abs(parts[n - 1] * weightSum - total * weights[n - 1])
  }

  // At this price per unit, taking b units is the best choice of an entry with
  // remainder r: no number x of units does better once it is paid for.
  ghost predicate BestAt(b: int, r: int, weightSum: int, price: int)
  {
    (b == 1 && price >= weightSum - 2 * r) || (b == 0 && price <= weightSum - 2 * r)
  }

  lemma PricedChoice(x: int, r: int, b: int, weightSum: int, price: int)
    requires 0 <= r < weightSum && -weightSum <= price <= weightSum && BestAt(b, r, weightSum, price)
    ensures Abs(x * weightSum - r) - price * x >= Abs(b * weightSum - r) - price * b
  {
    var xw, px := x * weightSum, price * x;
    if x >= 1 {
      assert xw - px >= weightSum - price by { MulLe(1, x, weightSum - price); Distribute(x, weightSum, -price); }
      MulLe(1, x, weightSum);
    } else {
      assert xw + px <= 0 by { MulLe(x, 0, weightSum + price); Distribute(x, weightSum, price); }
      MulLe(x, 0, weightSum);
    }
    PricedUnits(xw, px, r, b, weightSum, price);
  }

  // The same comparison with the products named, so that it is linear.
  lemma PricedUnits(xw: int, px: int, r: int, b: int, weightSum: int, price: int)
    requires 0 <= r < weightSum && -weightSum <= price <= weightSum && BestAt(b, r, weightSum, price)
    requires (xw - px >= weightSum - price && xw >= weightSum) || (xw + px <= 0 && xw <= 0)
    ensures Abs(xw - r) - px >= Abs(b * weightSum - r) - price * b
  {
    if b == 1 {
      assert b * weightSum == weightSum && price * b == price;
    } else {
      assert b * weightSum == 0 && price * b == 0;
    }
  }

  lemma PricedEntry(total: int, w: int, weightSum: int, floor: int, rest: int, part: int, other: int, price: int)
    requires IsQuota(total, w, weightSum, floor, rest)
    requires -weightSum <= price <= weightSum && BestAt(part - floor, rest, weightSum, price)
    ensures Abs(other * weightSum - total * w) - price * other >= Abs(part * weightSum - total * w) - price * part
  {
    PricedChoice(other - floor, rest, part - floor, weightSum, price);
    Distribute(weightSum, other, -floor);
    Distribute(weightSum, part, -floor);
    Distribute(price, other, -floor);
    Distribute(price, part, -floor);
  }

  // One price separates the entries that got a leftover unit from the others.
  lemma ClearingPrice(floors: seq<int>, rests: seq<int>, parts: seq<int>, weightSum: int) returns (price: int)
    requires HandedOut(floors, rests, parts) && forall i :: 0 <= i < |rests| ==> 0 <= rests[i] < weightSum
    ensures weightSum > 0 ==> -weightSum <= price <= weightSum
    ensures forall i :: 0 <= i < |parts| ==> BestAt(parts[i] - floors[i], rests[i], weightSum, price)
  {
    price := -weightSum;
    for n := 0 to |parts|
      invariant price == -weightSum || exists k :: 0 <= k < n && parts[k] == floors[k] + 1 && price == weightSum - 2 * rests[k]
      invariant weightSum > 0 ==> -weightSum <= price <= weightSum
      invariant forall i :: 0 <= i < n && parts[i] == floors[i] + 1 ==> price >= weightSum - 2 * rests[i]
    {
      if parts[n] == floors[n] + 1 && weightSum - 2 * rests[n] > price { price := weightSum - 2 * rests[n]; }
    }
    if price != -weightSum {
      var k :| 0 <= k < |parts| && parts[k] == floors[k] + 1 && price == weightSum - 2 * rests[k];
      assert forall j :: 0 <= j < |parts| && parts[j] == floors[j] ==> Precedes(rests, k, j);
    }
  }

  lemma {:induction false} PricedSum(total: int, weights: seq<int>, floors: seq<int>, rests: seq<int>,
                                     parts: seq<int>, other: seq<int>, price: int, n: nat)
    requires Quotas(total, weights, floors, rests) && |parts| == |other| == |weights| && n <= |weights|
    requires -Total(weights) <= price <= Total(weights)
    requires forall i :: 0 <= i < |parts| ==> BestAt(parts[i] - floors[i], rests[i], Total(weights), price)
    ensures Distance(total, weights, Total(weights), other, n) - price * Sum(other, n)
         >= Distance(total, weights, Total(weights), parts, n) - price * Sum(parts, n)
  {
    if n > 0 {
      var i := n - 1;
      PricedSum(total, weights, floors, rests, parts, other, price, i);
      PricedEntry(total, weights[i], Total(weights), floors[i], rests[i], parts[i], other[i], price);
      Distribute(price, Sum(other, i), other[i]);
      Distribute(price, Sum(parts, i), parts[i]);
    }
  }

  // No integer split of the same total is closer to the exact quotas.
  lemma SplitOptimal(total: int, weights: seq<int>, parts: seq<int>, other: seq<int>)
    requires Splittable(total, weights) && IsLargestRemainderSplit(total, weights, parts)
    requires |other| == |weights| && Total(other) == total
    ensures |parts| == |weights|
    ensures Distance(total, weights, Total(weights), parts, |weights|) <= Distance(total, weights, Total(weights), other, |weights|)
  {
    var floors, rests :| Quotas(total, weights, floors, rests) && HandedOut(floors, rests, parts);
    assert forall i :: 0 <= i < |rests| ==> IsQuota(total, weights[i], Total(weights), floors[i], rests[i]);
    var price := ClearingPrice(floors, rests, parts, Total(weights));
    PricedSum(total, weights, floors, rests, parts, other, price, |weights|);
  }

  lemma {:induction false} SomeIndexBelow(s: seq<int>, t: seq<int>, n: nat)
    requires n <= |s| && n <= |t| && Sum(s, n) <= Sum(t, n) && exists i :: 0 <= i < n && s[i] != t[i]
    ensures exists j :: 0 <= j < n && s[j] < t[j]
  {
    if s[n - 1] < t[n - 1] {
    } else if exists i :: 0 <= i < n - 1 && s[i] != t[i] {
      SomeIndexBelow(s, t, n - 1);
    } else {
      SumPrefix(s, t, n - 1);
    }
  }

  lemma QuotaUnique(total: int, w: int, weightSum: int, floor: int, rest: int, floor': int, rest': int)
    requires IsQuota(total, w, weightSum, floor, rest) && IsQuota(total, w, weightSum, floor', rest')
    ensures floor == floor' && rest == rest'
  {
    if floor < floor' { ProductGap(floor, floor', weightSum); }
    if floor' < floor { ProductGap(floor', floor, weightSum); }
  }

  lemma QuotasUnique(total: int, weights: seq<int>, floors: seq<int>, rests: seq<int>, floors': seq<int>, rests': seq<int>)
    requires Quotas(total, weights, floors, rests) && Quotas(total, weights, floors', rests')
    ensures floors == floors' && rests == rests'
  {
    forall i | 0 <= i < |weights| ensures floors[i] == floors'[i] && rests[i] == rests'[i] {
      QuotaUnique(total, weights[i], Total(weights), floors[i], rests[i], floors'[i], rests'[i]);
    }
  }

  lemma HandedOutUnique(floors: seq<int>, rests: seq<int>, parts: seq<int>, other: seq<int>)
    requires HandedOut(floors, rests, parts) && HandedOut(floors, rests, other) && Total(parts) == Total(other)
    ensures parts == other
  {
    if parts != other {
      SomeIndexBelow(parts, other, |parts|);
      SomeIndexBelow(other, parts, |parts|);
      var i :| 0 <= i < |parts| && parts[i] < other[i];
      var j :| 0 <= j < |parts| && other[j] < parts[j];
      assert false;
    }
  }

  // The specification leaves no freedom: ties are resolved to the lowest index.
  lemma SplitUnique(total: int, weights: seq<int>, parts: seq<int>, other: seq<int>)
    requires IsLargestRemainderSplit(total, weights, parts) && IsLargestRemainderSplit(total, weights, other)
    ensures parts == other
  {
    var floors, rests :| Quotas(total, weights, floors, rests) && HandedOut(floors, rests, parts);
    var floors', rests' :| Quotas(total, weights, floors', rests') && HandedOut(floors', rests', other);
    QuotasUnique(total, weights, floors, rests, floors', rests');
    HandedOutUnique(floors, rests, parts, other);
  }

  // A leftover unit only ever goes to an entry that the floor short-changed.
  lemma BumpedIsShort(total: int, weights: seq<int>, floors: seq<int>, rests: seq<int>, parts: seq<int>, i: nat)
    requires Splittable(total, weights) && Quotas(total, weights, floors, rests) && HandedOut(floors, rests, parts)
    requires Total(parts) == total && i < |weights| && parts[i] == floors[i] + 1
    ensures rests[i] > 0
  {
    assert IsQuota(total, weights[i], Total(weights), floors[i], rests[i]);
    if rests[i] == 0 {
      QuotasAddUp(total, weights, floors, rests, |weights|);
      Overspent(floors, rests, parts, Total(weights), i, |weights|);
      Distribute(Total(weights), Total(parts), -Total(floors));
      assert false;
    }
  }

  lemma {:induction false} Overspent(floors: seq<int>, rests: seq<int>, parts: seq<int>, weightSum: int, i: nat, n: nat)
    requires HandedOut(floors, rests, parts) && n <= |parts| && i < |parts|
    requires parts[i] == floors[i] + 1 && rests[i] == 0 && weightSum > 0
    requires forall k :: 0 <= k < |rests| ==> 0 <= rests[k] < weightSum
    ensures (Sum(parts, n) - Sum(floors, n)) * weightSum >= Sum(rests, n) + (if i < n then 1 else 0)
  {
    if n > 0 {
      var k := n - 1;
      Overspent(floors, rests, parts, weightSum, i, k);
      assert parts[k] == floors[k] ==> Precedes(rests, i, k);
      Distribute(weightSum, Sum(parts, k) - Sum(floors, k), parts[k] - floors[k]);
    }
  }

  // Fairness: the order of weights is kept, equal weights differ by at most
  // one unit, and a zero weight receives nothing.
  lemma SplitFair(total: int, weights: seq<int>, parts: seq<int>, i: nat, j: nat)
    requires Splittable(total, weights) && IsLargestRemainderSplit(total, weights, parts)
    requires i < |weights| && j < |weights|
    ensures |parts| == |weights|
    ensures weights[i] == weights[j] ==> -1 <= parts[i] - parts[j] <= 1
    ensures weights[i] > weights[j] ==> parts[i] >= parts[j]
    ensures weights[i] == 0 ==> parts[i] == 0
  {
    var floors, rests :| Quotas(total, weights, floors, rests) && HandedOut(floors, rests, parts);
    var w := Total(weights);
    assert IsQuota(total, weights[i], w, floors[i], rests[i]) && IsQuota(total, weights[j], w, floors[j], rests[j]);
    if weights[i] == weights[j] {
      QuotaUnique(total, weights[i], w, floors[i], rests[i], floors[j], rests[j]);
    } else if weights[i] > weights[j] {
      LargerQuota(total, weights[i], weights[j], w, floors[i], rests[i], floors[j], rests[j]);
      if parts[i] < parts[j] {
        assert Precedes(rests, j, i);
        BumpedIsShort(total, weights, floors, rests, parts, j);
      }
    }
    if weights[i] == 0 {
      QuotaUnique(total, 0, w, floors[i], rests[i], 0, 0);
      if parts[i] == floors[i] + 1 { BumpedIsShort(total, weights, floors, rests, parts, i); }
    }
  }

  lemma LargerQuota(total: int, a: int, b: int, weightSum: int, fa: int, ra: int, fb: int, rb: int)
    requires total >= 0 && a > b >= 0 && weightSum > 0
    requires IsQuota(total, a, weightSum, fa, ra) && IsQuota(total, b, weightSum, fb, rb)
    ensures fa > fb || (fa == fb && ra > rb) || (fa == fb == ra == rb == 0)
  {
    MulLe(b, a, total);
    if fa < fb {
      ProductGap(fa, fb, weightSum);
    } else if total == 0 {
      QuotaUnique(0, a, weightSum, fa, ra, 0, 0);
      QuotaUnique(0, b, weightSum, fb, rb, 0, 0);
    } else {
      MulOrder(b, a, total);
    }
  }
}
