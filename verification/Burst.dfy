/** The densest window of events: a two-pointer scan over sorted times. */
module Burst {
  import opened Wrappers

  /** Events in the half-open window of the given length that starts at an instant. */
  function Within(times: seq<int>, start: int, length: int): nat {
    if times == [] then 0
    else Within(times[..|times| - 1], start, length) + (if start <= times[|times| - 1] < start + length then 1 else 0)
  }

  /** Events before an instant. */
  function Below(times: seq<int>, instant: int): (n: nat)
    ensures n <= |times|
  {
    if times == [] then 0 else Below(times[..|times| - 1], instant) + (if times[|times| - 1] < instant then 1 else 0)
  }

  lemma {:induction false} WithinIsDifference(times: seq<int>, start: int, length: nat)
    ensures Within(times, start, length) == Below(times, start + length) - Below(times, start)
  {
    if times != [] {
      WithinIsDifference(times[..|times| - 1], start, length);
    }
  }

  predicate Ordered(times: seq<int>) {
    forall i, j | 0 <= i < j < |times| :: times[i] <= times[j]
  }

  /** In an ordered list the events before an instant come first. */
  lemma {:induction false} BelowInOrder(times: seq<int>, instant: int, k: nat)
    requires Ordered(times) && k <= |times|
    requires forall j | 0 <= j < k :: times[j] < instant
    requires forall j | k <= j < |times| :: times[j] >= instant
    ensures Below(times, instant) == k
  {
    if times != [] {
      BelowInOrder(times[..|times| - 1], instant, if k == |times| then k - 1 else k);
    }
  }

  // ---- sorting ----

  function Insert(t: int, ordered: seq<int>): (r: seq<int>)
    ensures |r| == |ordered| + 1
  {
    if ordered == [] || ordered[|ordered| - 1] <= t then ordered + [t]
    else Insert(t, ordered[..|ordered| - 1]) + [ordered[|ordered| - 1]]
  }

  /** `sorted(times)`. */
  function Sorted(times: seq<int>): (r: seq<int>)
    ensures |r| == |times|
  {
    if times == [] then [] else Insert(times[|times| - 1], Sorted(times[..|times| - 1]))
  }

  lemma {:induction false} InsertOrders(t: int, ordered: seq<int>)
    requires Ordered(ordered)
    ensures Ordered(Insert(t, ordered))
    ensures forall x | x in Insert(t, ordered) :: x == t || x in ordered
  {
    if ordered != [] && ordered[|ordered| - 1] > t {
      InsertOrders(t, ordered[..|ordered| - 1]);
      var init := Insert(t, ordered[..|ordered| - 1]);
      forall i | 0 <= i < |init| ensures init[i] <= ordered[|ordered| - 1] {
        assert init[i] in init;
      }
    }
  }

  lemma {:induction false} InsertCounts(t: int, ordered: seq<int>, instant: int)
    ensures Below(Insert(t, ordered), instant) == Below(ordered, instant) + (if t < instant then 1 else 0)
  {
    if ordered == [] || ordered[|ordered| - 1] <= t {
      assert Insert(t, ordered)[..|ordered|] == ordered;
    } else {
      InsertCounts(t, ordered[..|ordered| - 1], instant);
      var r := Insert(t, ordered);
      assert r[..|r| - 1] == Insert(t, ordered[..|ordered| - 1]);
      assert ordered == ordered[..|ordered| - 1] + [ordered[|ordered| - 1]];
    }
  }

  /** Sorting changes the order and nothing else. */
  lemma SortedSpec(times: seq<int>, instant: int)
    ensures Ordered(Sorted(times))
    ensures Below(Sorted(times), instant) == Below(times, instant)
    ensures forall x :: x in Sorted(times) <==> x in times
  {
    SortedOrders(times);
    SortedCounts(times, instant);
    SortedPermutes(times);
    assert forall x :: x in Sorted(times) <==> x in multiset(Sorted(times));
  }

  lemma {:induction false} SortedOrders(times: seq<int>)
    ensures Ordered(Sorted(times))
  {
    if times != [] {
      SortedOrders(times[..|times| - 1]);
      InsertOrders(times[|times| - 1], Sorted(times[..|times| - 1]));
    }
  }

  lemma {:induction false} SortedCounts(times: seq<int>, instant: int)
    ensures Below(Sorted(times), instant) == Below(times, instant)
  {
    if times != [] {
      SortedCounts(times[..|times| - 1], instant);
      InsertCounts(times[|times| - 1], Sorted(times[..|times| - 1]), instant);
    }
  }

  /** Nothing is lost and nothing is added. */
  lemma {:induction false} SortedPermutes(times: seq<int>)
    ensures multiset(Sorted(times)) == multiset(times)
  {
    if times != [] {
      SortedPermutes(times[..|times| - 1]);
      InsertPermutes(times[|times| - 1], Sorted(times[..|times| - 1]));
      LastOut(times);
    }
  }

  lemma LastOut(times: seq<int>)
    requires times != []
    ensures multiset(times) == multiset(times[..|times| - 1]) + multiset{times[|times| - 1]}
  {
    assert times == times[..|times| - 1] + [times[|times| - 1]];
  }

  lemma {:induction false} InsertPermutes(t: int, ordered: seq<int>)
    ensures multiset(Insert(t, ordered)) == multiset(ordered) + multiset{t}
  {
    if ordered != [] && ordered[|ordered| - 1] > t {
      var init, last := ordered[..|ordered| - 1], ordered[|ordered| - 1];
      InsertPermutes(t, init);
      assert ordered == init + [last];
    }
  }

  // ---- the scan ----

  /** The densest count so far among the windows that start at the first `n` events, and the first event reaching it. */
  ghost predicate BestOf(ordered: seq<int>, length: int, n: nat, count: nat, start: Option<int>)
    requires n <= |ordered|
  {
    && (start.None? <==> n == 0)
    && (n == 0 ==> count == 0)
    && (forall i | 0 <= i < n :: EndOf(ordered, i, length) - i <= count)
    && (start.Some? ==> exists i | 0 <= i < n ::
          ordered[i] == start.value && EndOf(ordered, i, length) - i == count
          && forall j | 0 <= j < i :: EndOf(ordered, j, length) - j < count)
  }

  /** Where the window that starts at event `i` ends. */
  function EndOf(ordered: seq<int>, i: nat, length: int): nat
    requires i < |ordered|
  {
    Below(ordered, ordered[i] + length)
  }

  lemma EndIsAfter(ordered: seq<int>, i: nat, length: int)
    requires Ordered(ordered) && i < |ordered| && length > 0
    ensures EndOf(ordered, i, length) > i
  {
    BelowSplits(ordered, ordered[i] + length);
  }

  /** The number of events before an instant is also their position in the order. */
  lemma {:induction false} BelowSplits(ordered: seq<int>, instant: int)
    requires Ordered(ordered)
    ensures var k := Below(ordered, instant);
            (forall j | 0 <= j < k :: ordered[j] < instant) && forall j | k <= j < |ordered| :: ordered[j] >= instant
  {
    if ordered != [] {
      BelowSplits(ordered[..|ordered| - 1], instant);
    }
  }

  /** `rolling_burst` on sorted times. */
  method Scan(ordered: seq<int>, length: int) returns (count: nat, start: Option<int>)
    requires Ordered(ordered) && length > 0
    ensures BestOf(ordered, length, |ordered|, count, start)
  {
    count, start := 0, None;
    var end := 0;
    for i := 0 to |ordered|
      invariant BestOf(ordered, length, i, count, start)
      invariant i <= end <= |ordered|
      invariant forall j | 0 <= j < end && i < |ordered| :: ordered[j] < ordered[i] + length
    {
      while end < |ordered| && ordered[end] < ordered[i] + length
        invariant i <= end <= |ordered|
        invariant forall j | 0 <= j < end :: ordered[j] < ordered[i] + length
      {
        end := end + 1;
      }
      BelowInOrder(ordered, ordered[i] + length, end);
      EndIsAfter(ordered, i, length);
      if end - i > count {
        count, start := end - i, Some(ordered[i]);
      }
    }
  }

  /** `rolling_burst`: the most events in any window of the length, starting at any instant whatever, and the earliest
      event at which such a window starts. */
  method RollingBurst(times: seq<int>, length: int) returns (count: nat, start: Option<int>)
    requires length > 0
    ensures IsDensest(times, length, count, start)
  {
    if times == [] {
      return 0, None;
    }
    SortedSpec(times, 0);
    count, start := Scan(Sorted(times), length);
    BestIsDensest(times, length, count, start);
  }

  ghost predicate IsDensest(times: seq<int>, length: int, count: nat, start: Option<int>) {
    && (forall instant :: Within(times, instant, length) <= count)
    && (start.None? <==> times == [])
    && (start.None? ==> count == 0)
    && (start.Some? ==> start.value in times && Within(times, start.value, length) == count
                        && forall t | t in times && t < start.value :: Within(times, t, length) < count)
  }

  lemma SameWithin(times: seq<int>, start: int, length: nat)
    ensures Within(Sorted(times), start, length) == Within(times, start, length)
  {
    WithinIsDifference(times, start, length);
    WithinIsDifference(Sorted(times), start, length);
    SortedSpec(times, start);
    SortedSpec(times, start + length);
  }

  /** A window from any instant holds no more than the window from the first event at or after it. */
  lemma ShiftToEvent(ordered: seq<int>, instant: int, length: nat)
    requires Ordered(ordered) && Below(ordered, instant) < |ordered|
    ensures var i := Below(ordered, instant);
            Within(ordered, instant, length) <= EndOf(ordered, i, length) - i
  {
    var i := Below(ordered, instant);
    WithinIsDifference(ordered, instant, length);
    BelowSplits(ordered, instant);
    BelowMonotone(ordered, instant + length, ordered[i] + length);
  }

  lemma {:induction false} BelowMonotone(times: seq<int>, a: int, b: int)
    requires a <= b
    ensures Below(times, a) <= Below(times, b)
  {
    if times != [] {
      BelowMonotone(times[..|times| - 1], a, b);
    }
  }

  /** From an event on, the scan counts the whole window, or less at a repeated time. */
  lemma EventWindow(ordered: seq<int>, i: nat, length: nat)
    requires Ordered(ordered) && i < |ordered|
    ensures EndOf(ordered, i, length) - i <= Within(ordered, ordered[i], length)
    ensures i == Below(ordered, ordered[i]) ==> EndOf(ordered, i, length) - i == Within(ordered, ordered[i], length)
  {
    WithinIsDifference(ordered, ordered[i], length);
    BelowSplits(ordered, ordered[i]);
  }

  lemma BestBounds(ordered: seq<int>, length: int, count: nat, start: Option<int>, instant: int)
    requires Ordered(ordered) && length > 0 && BestOf(ordered, length, |ordered|, count, start)
    ensures Within(ordered, instant, length) <= count
  {
    var i := Below(ordered, instant);
    if i < |ordered| {
      ShiftToEvent(ordered, instant, length);
    } else {
      WithinIsDifference(ordered, instant, length);
    }
  }

  lemma BestIsDensest(times: seq<int>, length: int, count: nat, start: Option<int>)
    requires times != [] && length > 0 && BestOf(Sorted(times), length, |times|, count, start)
    ensures IsDensest(times, length, count, start)
  {
    var ordered := Sorted(times);
    SortedSpec(times, 0);
    forall instant ensures Within(times, instant, length) <= count {
      SameWithin(times, instant, length);
      BestBounds(ordered, length, count, start, instant);
    }
    var i :| 0 <= i < |ordered| && ordered[i] == start.value && EndOf(ordered, i, length) - i == count
             && forall j | 0 <= j < i :: EndOf(ordered, j, length) - j < count;
    EventWindow(ordered, i, length);
    SameWithin(times, start.value, length);
    assert ordered[i] in ordered;
    forall t | t in times && t < start.value ensures Within(times, t, length) < count {
      EarlierIsThinner(ordered, length, count, i, t);
      SameWithin(times, t, length);
    }
  }

  lemma EarlierIsThinner(ordered: seq<int>, length: int, count: nat, i: nat, t: int)
    requires Ordered(ordered) && length > 0 && i < |ordered| && t in ordered && t < ordered[i]
    requires forall j | 0 <= j < i :: EndOf(ordered, j, length) - j < count
    ensures Within(ordered, t, length) < count
  {
    var k :| 0 <= k < |ordered| && ordered[k] == t;
    var j := Below(ordered, t);
    BelowSplits(ordered, t);
    assert ordered[j] == t && j < i;
    EventWindow(ordered, j, length);
  }

  /** The burst finding is reported exactly when some window, starting anywhere, reaches the limit. */
  lemma BurstFinding(times: seq<int>, length: int, count: nat, start: Option<int>, limit: nat)
    requires length > 0 && limit >= 1 && IsDensest(times, length, count, start)
    ensures count >= limit <==> exists instant :: Within(times, instant, length) >= limit
  {
    if start.Some? {
      assert Within(times, start.value, length) == count;
    }
  }
}
