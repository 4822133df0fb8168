/**
 * Which hosts were seen on which days, as sets: what new, returning, gone, active and intermittent
 * mean over a whole history, and the laws that tie them together.
 */
module HostHistory {

  /** A host address, as its number. */
  type Host = nat

  /** One set of hosts per day, in order of time. */
  type History = seq<set<Host>>

  function Previous(seen: History, i: nat): set<Host>
    requires i < |seen|
  {
    if i == 0 then {} else seen[i - 1]
  }

  function New(seen: History, i: nat): set<Host>
    requires i < |seen|
  {
    seen[i] - Previous(seen, i)
  }

  function Gone(seen: History, i: nat): set<Host>
    requires i < |seen|
  {
    Previous(seen, i) - seen[i]
  }

  predicate SeenBefore(seen: History, h: Host, i: nat)
    requires i <= |seen|
  {
    exists j :: 0 <= j < i && h in seen[j]
  }

  /** New today, and on no day before. */
  function FirstSeen(seen: History, i: nat): set<Host>
    requires i < |seen|
  {
    set h | h in New(seen, i) && !SeenBefore(seen, h, i)
  }

  /** Seen before, missing yesterday, back today. */
  function Returning(seen: History, i: nat): set<Host>
    requires i < |seen|
  {
    set h | h in New(seen, i) && SeenBefore(seen, h, i)
  }

  predicate Known(seen: History, h: Host) {
    SeenBefore(seen, h, |seen|)
  }

  /** The first day from `from` on, before `limit`, with the host; `limit` if none. */
  function FirstFrom(seen: History, h: Host, from: nat, limit: nat): (i: nat)
    requires from <= limit <= |seen|
    ensures from <= i <= limit
    ensures i < limit ==> h in seen[i]
    ensures forall j :: from <= j < i ==> h !in seen[j]
    decreases limit - from
  {
    if from == limit || h in seen[from] then from else FirstFrom(seen, h, from + 1, limit)
  }

  function First(seen: History, h: Host): (i: nat)
    requires Known(seen, h)
    ensures i < |seen| && h in seen[i]
    ensures forall j :: 0 <= j < i ==> h !in seen[j]
  {
    FirstFrom(seen, h, 0, |seen|)
  }

  function LastUpTo(seen: History, h: Host, limit: nat): (i: nat)
    requires limit <= |seen| && SeenBefore(seen, h, limit)
    ensures i < limit && h in seen[i]
    ensures forall j :: i < j < limit ==> h !in seen[j]
  {
    if h in seen[limit - 1] then limit - 1 else LastUpTo(seen, h, limit - 1)
  }

  function Last(seen: History, h: Host): (i: nat)
    requires Known(seen, h)
    ensures i < |seen| && h in seen[i]
    ensures forall j :: i < j < |seen| ==> h !in seen[j]
  {
    LastUpTo(seen, h, |seen|)
  }

  function Span(seen: History, h: Host): int
    requires Known(seen, h)
  {
    Last(seen, h) - First(seen, h) + 1
  }

  /** The number of days with the host among those from `from` to before `limit`. */
  function Days(seen: History, h: Host, from: nat, limit: nat): nat
    requires from <= limit <= |seen|
    decreases limit
  {
    if from == limit then 0 else Days(seen, h, from, limit - 1) + if h in seen[limit - 1] then 1 else 0
  }

  function DaysObserved(seen: History, h: Host): nat {
    Days(seen, h, 0, |seen|)
  }

  /** A day without the host between two days with it. */
  predicate Gap(seen: History, h: Host) {
    Known(seen, h) && exists j :: First(seen, h) < j < Last(seen, h) && h !in seen[j]
  }

  // ----- laws

  /** Each day's new hosts are its first-seen and its returning ones, and no host is both. */
  lemma NewSplits(seen: History, i: nat)
    requires i < |seen|
    ensures FirstSeen(seen, i) + Returning(seen, i) == New(seen, i)
    ensures FirstSeen(seen, i) !! Returning(seen, i)
  {}

  /** Each host that is ever seen is first-seen on exactly one day. */
  lemma FirstSeenOnce(seen: History, h: Host, i: nat)
    requires Known(seen, h) && i < |seen|
    ensures h in FirstSeen(seen, i) <==> i == First(seen, h)
  {
    var f := First(seen, h);
    if f < i {
      assert SeenBefore(seen, h, i);
    }
  }

  function TotalNew(seen: History): nat {
    if seen == [] then 0 else TotalNew(seen[..|seen| - 1]) + |New(seen, |seen| - 1)|
  }

  function TotalGone(seen: History): nat {
    if seen == [] then 0 else TotalGone(seen[..|seen| - 1]) + |Gone(seen, |seen| - 1)|
  }

  lemma DifferenceSizes(a: set<Host>, b: set<Host>)
    ensures |a - b| + |b| == |b - a| + |a|
  {
    assert a == (a - b) + a * b && b == (b - a) + a * b;
    assert |a| == |a - b| + |a * b|;
    assert |b| == |b - a| + |a * b|;
  }

  /** Over the whole history, hosts gained less hosts lost are the hosts active on the last day. */
  lemma {:induction false} NewLessGoneIsActive(seen: History)
    ensures TotalNew(seen) - TotalGone(seen) == if seen == [] then 0 else |seen[|seen| - 1]|
  {
    if seen != [] {
      var n := |seen| - 1;
      NewLessGoneIsActive(seen[..n]);
      DifferenceSizes(seen[n], Previous(seen, n));
      if n > 0 {
        assert seen[..n][n - 1] == seen[n - 1];
      }
    }
  }

  lemma {:induction false} DaysSplit(seen: History, h: Host, from: nat, mid: nat, limit: nat)
    requires from <= mid <= limit <= |seen|
    ensures Days(seen, h, from, limit) == Days(seen, h, from, mid) + Days(seen, h, mid, limit)
    decreases limit
  {
    if mid < limit {
      DaysSplit(seen, h, from, mid, limit - 1);
    }
  }

  lemma {:induction false} NoDays(seen: History, h: Host, from: nat, limit: nat)
    requires from <= limit <= |seen| && forall j :: from <= j < limit ==> h !in seen[j]
    ensures Days(seen, h, from, limit) == 0
    decreases limit
  {
    if from < limit {
      NoDays(seen, h, from, limit - 1);
    }
  }

  /** A stretch holds no more days with the host than days, and as many only if none is missing. */
  lemma {:induction false} DaysAtMost(seen: History, h: Host, from: nat, limit: nat)
    requires from <= limit <= |seen|
    ensures Days(seen, h, from, limit) <= limit - from
    ensures Days(seen, h, from, limit) < limit - from <==> exists j :: from <= j < limit && h !in seen[j]
    decreases limit
  {
    if from < limit {
      DaysAtMost(seen, h, from, limit - 1);
      if Days(seen, h, from, limit) < limit - from && h in seen[limit - 1] {
        var j :| from <= j < limit - 1 && h !in seen[j];
        assert from <= j < limit;
      }
    }
  }

  lemma DaysWithinSpan(seen: History, h: Host)
    requires Known(seen, h)
    ensures DaysObserved(seen, h) == Days(seen, h, First(seen, h), Last(seen, h) + 1)
    ensures First(seen, h) <= Last(seen, h)
  {
    var f, l := First(seen, h), Last(seen, h);
    assert h in seen[l];
    DaysSplit(seen, h, 0, f, |seen|);
    DaysSplit(seen, h, f, l + 1, |seen|);
    NoDays(seen, h, 0, f);
    NoDays(seen, h, l + 1, |seen|);
  }

  /** Observed days never exceed the span, and fall short of it exactly when there is a gap. */
  lemma ObservedWithinSpan(seen: History, h: Host)
    requires Known(seen, h)
    ensures 1 <= DaysObserved(seen, h) <= Span(seen, h)
    ensures DaysObserved(seen, h) < Span(seen, h) <==> Gap(seen, h)
  {
    var f, l := First(seen, h), Last(seen, h);
    DaysWithinSpan(seen, h);
    DaysAtMost(seen, h, f, l + 1);
    DaysSplit(seen, h, f, f + 1, l + 1);
    assert Days(seen, h, f, f) == 0;
    if j :| f <= j < l + 1 && h !in seen[j] {
      assert f < j < l;
    }
  }

  /** A host is intermittent if and only if on some day it is among the returning. */
  lemma IntermittentIffReturns(seen: History, h: Host)
    requires Known(seen, h)
    ensures Gap(seen, h) <==> exists i :: 0 <= i < |seen| && h in Returning(seen, i)
  {
    var f, l := First(seen, h), Last(seen, h);
    if Gap(seen, h) {
      var j :| f < j < l && h !in seen[j];
      var i := FirstFrom(seen, h, j, |seen|);
      assert i <= l;
      assert h !in seen[i - 1] && SeenBefore(seen, h, i);
      assert h in Returning(seen, i);
    }
    if i :| 0 <= i < |seen| && h in Returning(seen, i) {
      var j :| 0 <= j < i && h in seen[j];
      assert f <= j < i - 1 < l;
    }
  }

  /** A host seen since its first day on every day has coverage 1; no host has more, nor none. */
  lemma CoverageBounds(seen: History, h: Host)
    requires Known(seen, h)
    ensures 0 < DaysObserved(seen, h) <= |seen| - First(seen, h)
  {
    ObservedWithinSpan(seen, h);
  }
}
