/** The itinerary calculator of `utils/journeyUtils.js`: the stop count and the
    travel time between two stops of one route.

    A route's `approxTravelTimes` is modelled as `times: seq<int>`; entry `i` is
    the time to arrive at stop `i` from stop `i - 1`, so entry 0 is never charged
    to a journey that starts at stop 0. */
module Itinerary {

  /** The `{numStops, totalTime}` object that `calculateJourney` returns. */
  datatype Journey = Journey(numStops: int, totalTime: int)

  function Min(a: int, b: int): int { if a <= b then a else b }

  function Max(a: int, b: int): int { if a <= b then b else a }

  function Abs(x: int): nat { if x < 0 then -x else x }

  /** Sum of a sequence of travel times. */
  function Sum(xs: seq<int>): int
  {
    if |xs| == 0 then 0 else xs[0] + Sum(xs[1..])
  }

  /** The indices the loop of `calculateJourney` reads are `min + 1 .. max`, so
      a call is well defined when the two indices are equal (nothing is read) or
      when that range lies inside the table. JavaScript would read `undefined`
      (and produce `NaN`) outside it. */
  predicate ValidSpan(times: seq<int>, startIdx: int, endIdx: int)
  {
    startIdx == endIdx || (-1 <= Min(startIdx, endIdx) && Max(startIdx, endIdx) < |times|)
  }

  /** Reference definition of the itinerary: the stops travelled and the sum of
      the arrival-attributed times over the half-open range `(min, max]`. */
  function JourneyOf(times: seq<int>, startIdx: int, endIdx: int): (r: Journey)
    requires ValidSpan(times, startIdx, endIdx)
    ensures r.numStops >= 0
  {
    if startIdx == endIdx then Journey(0, 0)
    else
      var s := Min(startIdx, endIdx);
      var e := Max(startIdx, endIdx);
      Journey(e - s, Sum(times[s + 1..e + 1]))
  }

  lemma {:induction false} SumAppend(xs: seq<int>, x: int)
    ensures Sum(xs + [x]) == Sum(xs) + x
  {
    if |xs| == 0 {
      assert xs + [x] == [x];
    } else {
      assert (xs + [x])[1..] == xs[1..] + [x];
      SumAppend(xs[1..], x);
    }
  }

  lemma {:induction false} SumConcat(xs: seq<int>, ys: seq<int>)
    ensures Sum(xs + ys) == Sum(xs) + Sum(ys)
  {
    if |xs| == 0 {
      assert xs + ys == ys;
    } else {
      assert (xs + ys)[1..] == xs[1..] + ys;
      SumConcat(xs[1..], ys);
    }
  }

  lemma {:induction false} SumNonNegative(xs: seq<int>)
    requires forall i :: 0 <= i < |xs| ==> xs[i] >= 0
    ensures Sum(xs) >= 0
  {
    if |xs| > 0 {
      assert forall i :: 0 <= i < |xs[1..]| ==> xs[1..][i] == xs[i + 1];
      SumNonNegative(xs[1..]);
    }
  }

  /** `calculateJourney` as written: normalise the index order, then add up the
      entries `s + 1 .. e` one at a time. */
  method CalculateJourney(times: seq<int>, startIdx: int, endIdx: int) returns (r: Journey)
    requires ValidSpan(times, startIdx, endIdx)
    ensures r == JourneyOf(times, startIdx, endIdx)
    ensures r.numStops == Abs(startIdx - endIdx)
    ensures startIdx != endIdx ==>
              r.totalTime == Sum(times[Min(startIdx, endIdx) + 1..Max(startIdx, endIdx) + 1])
  {
    if startIdx == endIdx {
      return Journey(0, 0);
    }
    var s := Min(startIdx, endIdx);
    var e := Max(startIdx, endIdx);
    var numStops := e - s;
    var totalTime := 0;
    var i := s + 1;
    while i <= e
      invariant s + 1 <= i <= e + 1
      invariant totalTime == Sum(times[s + 1..i])
    {
      assert times[s + 1..i + 1] == times[s + 1..i] + [times[i]];
      SumAppend(times[s + 1..i], times[i]);
      totalTime := totalTime + times[i];
      i := i + 1;
    }
    r := Journey(numStops, totalTime);
  }

  /** Equal indices cost nothing, whatever their value, even outside the table. */
  lemma SameStopIsFree(times: seq<int>, i: int)
    ensures ValidSpan(times, i, i)
    ensures JourneyOf(times, i, i) == Journey(0, 0)
  {
  }

  /** The stop count is the distance between the two indices. */
  lemma NumStopsIsDistance(times: seq<int>, startIdx: int, endIdx: int)
    requires ValidSpan(times, startIdx, endIdx)
    ensures JourneyOf(times, startIdx, endIdx).numStops == Abs(startIdx - endIdx)
  {
  }

  /** The calculation is directionless: swapping the indices changes nothing. */
  lemma Symmetric(times: seq<int>, startIdx: int, endIdx: int)
    requires ValidSpan(times, startIdx, endIdx)
    ensures ValidSpan(times, endIdx, startIdx)
    ensures JourneyOf(times, startIdx, endIdx) == JourneyOf(times, endIdx, startIdx)
  {
  }

  /** Extending a journey by one stop adds exactly the arrival time of that stop:
      the entry at the larger index is charged. */
  lemma {:induction false} ExtendByOneStop(times: seq<int>, s: int, e: int)
    requires -1 <= s <= e && e + 1 < |times|
    ensures JourneyOf(times, s, e + 1).totalTime == JourneyOf(times, s, e).totalTime + times[e + 1]
  {
    assert times[s + 1..e + 2] == times[s + 1..e + 1] + [times[e + 1]];
    SumAppend(times[s + 1..e + 1], times[e + 1]);
  }

  /** Only the entries strictly after the smaller index and up to the larger one
      are read: two tables that agree there give the same itinerary. In
      particular the entry at the smaller index is never charged. */
  lemma {:induction false} ReadsOnlySpan(times: seq<int>, other: seq<int>, startIdx: int, endIdx: int)
    requires ValidSpan(times, startIdx, endIdx) && ValidSpan(other, startIdx, endIdx)
    requires forall i :: Min(startIdx, endIdx) < i <= Max(startIdx, endIdx) && 0 <= i < |times| && i < |other| ==> times[i] == other[i]
    ensures JourneyOf(times, startIdx, endIdx) == JourneyOf(other, startIdx, endIdx)
  {
    if startIdx != endIdx {
      var s := Min(startIdx, endIdx);
      var e := Max(startIdx, endIdx);
      assert times[s + 1..e + 1] == other[s + 1..e + 1];
    }
  }

  /** Additivity: a journey through an intermediate stop costs the sum of its
      two parts. */
  lemma {:induction false} Additive(times: seq<int>, s: int, m: int, e: int)
    requires -1 <= s <= m <= e < |times|
    ensures JourneyOf(times, s, e).numStops == JourneyOf(times, s, m).numStops + JourneyOf(times, m, e).numStops
    ensures JourneyOf(times, s, e).totalTime == JourneyOf(times, s, m).totalTime + JourneyOf(times, m, e).totalTime
  {
    if s < m < e {
      assert times[s + 1..e + 1] == times[s + 1..m + 1] + times[m + 1..e + 1];
      SumConcat(times[s + 1..m + 1], times[m + 1..e + 1]);
    }
  }

  /** With non-negative travel times the total time is non-negative. */
  lemma {:induction false} TotalTimeNonNegative(times: seq<int>, startIdx: int, endIdx: int)
    requires ValidSpan(times, startIdx, endIdx)
    requires forall i :: 0 <= i < |times| ==> times[i] >= 0
    ensures JourneyOf(times, startIdx, endIdx).totalTime >= 0
  {
    if startIdx != endIdx {
      var s := Min(startIdx, endIdx);
      var e := Max(startIdx, endIdx);
      var span := times[s + 1..e + 1];
      assert forall i :: 0 <= i < |span| ==> span[i] == times[s + 1 + i];
      SumNonNegative(span);
    }
  }

  /** With non-negative travel times, widening the range never lowers the total. */
  lemma {:induction false} WideningIsMonotone(times: seq<int>, s': int, s: int, e: int, e': int)
    requires -1 <= s' <= s <= e <= e' < |times|
    requires forall i :: 0 <= i < |times| ==> times[i] >= 0
    ensures JourneyOf(times, s, e).totalTime <= JourneyOf(times, s', e').totalTime
  {
    Additive(times, s', s, e');
    Additive(times, s, e, e');
    TotalTimeNonNegative(times, s', s);
    TotalTimeNonNegative(times, e, e');
  }

  /** An example: times `[0,4,6,3,5,2,7]` between stops 2 and 5, in either
      order, are three stops and 3 + 5 + 2 = 10 minutes. */
  lemma WorkedExample()
    ensures JourneyOf([0, 4, 6, 3, 5, 2, 7], 2, 5) == Journey(3, 10)
    ensures JourneyOf([0, 4, 6, 3, 5, 2, 7], 5, 2) == Journey(3, 10)
  {
    var t := [0, 4, 6, 3, 5, 2, 7];
    assert t[3..6] == [3, 5, 2];
  }
}
