/** The decode-time histogram of the stagefright tool. Times are integers; the original's int64_t
    products do not overflow for times below 2^56. */
module Histogram {
  import opened Arithmetic

  const SLOTS: nat := 100

  ghost predicate Sorted(s: seq<int>) { forall i, j :: 0 <= i < j < |s| ==> s[i] <= s[j] }

  function SlotOf(x: int, min: int, max: int): nat
    requires min <= x <= max && min < max
  {
    var slot := ((x - min) * 100) / (max - min);
    if slot == 100 then 99 else slot
  }

  // The printed lower edge of a slot.
  function Edge(slot: nat, min: int, max: int): int
    requires min <= max
  {
    min + slot * (max - min) / 100
  }

  // ---- where a time goes ----

  // a <= b gives a quotient that is not larger, for a fixed divisor.
  lemma QuotientMonotone(a: int, b: int, d: nat)
    requires 0 < d && a <= b
    ensures a / d <= b / d
  {
    if a / d > b / d {
      NextMultiple(b / d, a / d, d);
    }
  }

  // A time is in a slot exactly when it lies in that hundredth of the range; the last slot also holds
  // the maximum.
  lemma SlotIff(x: int, min: int, max: int, s: nat)
    requires min <= x <= max && min < max && s < SLOTS
    ensures SlotOf(x, min, max) < SLOTS
    ensures SlotOf(x, min, max) == s
            <==> s * (max - min) <= (x - min) * 100 < (s + 1) * (max - min) || (s == 99 && x == max)
  {
    var d, y := max - min, (x - min) * 100;
    QuotientIff(y, s, d);
    QuotientIff(y, 100, d);
  }

  lemma QuotientIff(y: nat, q: nat, d: nat)
    requires 0 < d
    ensures y / d == q <==> q * d <= y < (q + 1) * d
    ensures y <= 100 * d ==> y / d <= 100
  {
    assert (q + 1) * d == q * d + d && y == y / d * d + y % d;
    if q * d <= y < q * d + d {
      QuotientUnique(y, q, y - q * d, d);
    }
    if 100 < y / d {
      NextMultiple(100, y / d, d);
    }
  }

  lemma SlotsAreMonotone(x: int, y: int, min: int, max: int)
    requires min <= x <= y <= max && min < max
    ensures SlotOf(x, min, max) <= SlotOf(y, min, max) < SLOTS
  {
    QuotientMonotone((x - min) * 100, (y - min) * 100, max - min);
    SlotIff(x, min, max, 0);
    SlotIff(y, min, max, 0);
  }

  // Each time lies between its slot's printed edge and the next.
  lemma SlotWithinEdges(x: int, min: int, max: int)
    requires min <= x <= max && min < max
    ensures var s := SlotOf(x, min, max);
            Edge(s, min, max) <= x <= Edge(s + 1, min, max)
  {
  }

  // ---- counting ----

  function Count(times: seq<int>, min: int, max: int, s: nat): nat
    requires min < max && forall i :: 0 <= i < |times| ==> min <= times[i] <= max
  {
    if times == [] then 0
    else
      Count(times[..|times| - 1], min, max, s)
      + if SlotOf(times[|times| - 1], min, max) == s then 1 else 0
  }

  function Sum(counts: seq<nat>): nat {
    if counts == [] then 0 else Sum(counts[..|counts| - 1]) + counts[|counts| - 1]
  }

  lemma {:induction false} SumOfIncremented(counts: seq<nat>, s: nat)
    requires s < |counts|
    ensures Sum(counts[s := counts[s] + 1]) == Sum(counts) + 1
  {
    var n := |counts| - 1;
    var after := counts[s := counts[s] + 1];
    if s == n {
      assert after[..n] == counts[..n];
    } else {
      assert after[..n] == counts[..n][s := counts[s] + 1];
      SumOfIncremented(counts[..n], s);
    }
  }

  lemma {:induction false} SumOfZeros(counts: seq<nat>)
    requires forall i :: 0 <= i < |counts| ==> counts[i] == 0
    ensures Sum(counts) == 0
  {
    if counts != [] {
      SumOfZeros(counts[..|counts| - 1]);
    }
  }

  lemma {:induction false} CountMore(times: seq<int>, min: int, max: int, i: nat, s: nat)
    requires i < |times| && min < max && forall k :: 0 <= k < |times| ==> min <= times[k] <= max
    ensures Count(times[..i + 1], min, max, s)
            == Count(times[..i], min, max, s) + if SlotOf(times[i], min, max) == s then 1 else 0
  {
    assert times[..i + 1][..i] == times[..i];
  }

  ghost predicate Within(times: seq<int>, min: int, max: int) {
    min < max && forall i :: 0 <= i < |times| ==> min <= times[i] <= max
  }

  ghost predicate Tallied(counts: seq<nat>, times: seq<int>, min: int, max: int)
    requires Within(times, min, max)
  {
    |counts| == SLOTS && (forall s :: 0 <= s < SLOTS ==> counts[s] == Count(times, min, max, s))
    && Sum(counts) == |times|
  }

  lemma TallyMore(counts: seq<nat>, times: seq<int>, min: int, max: int, i: nat)
    requires Within(times, min, max) && i < |times| && Tallied(counts, times[..i], min, max)
    ensures var slot := SlotOf(times[i], min, max);
            slot < SLOTS && Tallied(counts[slot := counts[slot] + 1], times[..i + 1], min, max)
  {
    SlotIff(times[i], min, max, 0);
    var slot := SlotOf(times[i], min, max);
    SumOfIncremented(counts, slot);
    forall s | 0 <= s < SLOTS
      ensures Count(times[..i + 1], min, max, s)
              == Count(times[..i], min, max, s) + if slot == s then 1 else 0
    {
      CountMore(times, min, max, i, s);
    }
  }

  lemma NothingTallied(counts: seq<nat>, min: int, max: int)
    requires min < max && |counts| == SLOTS && forall i :: 0 <= i < SLOTS ==> counts[i] == 0
    ensures Tallied(counts, [], min, max)
  {
    SumOfZeros(counts);
  }

  // The histogram of sorted times that are not all the same: each slot counts the times that lie in it,
  // and all the times are counted.
  method DecodeHistogram(times: seq<int>) returns (counts: array<nat>, edges: seq<int>)
    requires Sorted(times) && times != [] && times[0] < times[|times| - 1]
    ensures fresh(counts) && Within(times, times[0], times[|times| - 1])
    ensures Tallied(counts[..], times, times[0], times[|times| - 1])
    ensures |edges| == SLOTS
    ensures forall s :: 0 <= s < SLOTS ==> edges[s] == Edge(s, times[0], times[|times| - 1])
    ensures |edges| == 100
    ensures forall s :: 0 <= s < 100 ==> edges[s] == times[0] + s * (times[|times| - 1] - times[0]) / 100
  {
    var n := |times|;
    var minUs, maxUs := times[0], times[n - 1];
    counts := new nat[SLOTS];
    for i := 0 to SLOTS
      invariant forall k :: 0 <= k < i ==> counts[k] == 0
    {
      counts[i] := 0;
    }
    NothingTallied(counts[..], minUs, maxUs);
    assert times[..0] == [] && times[..n] == times;
    for i := 0 to n
      invariant Tallied(counts[..], times[..i], minUs, maxUs)
    {
      TallyMore(counts[..], times, minUs, maxUs, i);
      var slot := SlotOf(times[i], minUs, maxUs);
      ghost var before := counts[..];
      counts[slot] := counts[slot] + 1;
      assert counts[..] == before[slot := before[slot] + 1];
    }
    edges := [];
    for i := 0 to SLOTS
      invariant |edges| == i && forall s :: 0 <= s < i ==> edges[s] == Edge(s, minUs, maxUs)
    {
      edges := edges + [minUs + i * (maxUs - minUs) / 100];
    }
  }

  // ---- the counts, in numbers ----

  // The time lies in that hundredth of the range, or it is the maximum and the hundredth is the last.
  predicate InSlot(x: int, min: int, max: int, s: nat) {
    s * (max - min) <= (x - min) * 100 < (s + 1) * (max - min) || (s == 99 && x == max)
  }

  // A slot counts exactly the times that lie in it.
  lemma {:induction false} CountIs(times: seq<int>, min: int, max: int, s: nat)
    requires Within(times, min, max) && s < 100
    ensures Count(times, min, max, s) == |set i | 0 <= i < |times| && InSlot(times[i], min, max, s)|
  {
    hide InSlot;
    var all := set i | 0 <= i < |times| && InSlot(times[i], min, max, s);
    if times == [] {
      assert all == {};
    } else {
      var n := |times| - 1;
      CountIs(times[..n], min, max, s);
      var before := set i | 0 <= i < n && InSlot(times[..n][i], min, max, s);
      SlotIs(times[n], min, max, s);
      if InSlot(times[n], min, max, s) {
        assert all == before + {n};
      } else {
        assert all == before;
      }
    }
  }

  lemma SlotIs(x: int, min: int, max: int, s: nat)
    requires min <= x <= max && min < max && s < 100
    ensures SlotOf(x, min, max) == s <==> InSlot(x, min, max, s)
  {
    SlotIff(x, min, max, s);
  }
}
