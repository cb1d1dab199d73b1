/** The allocation throttle of the Agones discovery provider: one mutable deadline, whose behaviour
    over a whole run of calls is a max-plus recurrence. Times and durations are nanoseconds. */
module Throttle {
  import opened Common

  /** One call: what the clock read, and the minimum interval asked for. */
  datatype Call = Call(now: int, interval: int)

  /** When call k is let through: its own clock reading, or one interval after the previous release. */
  function Release(calls: seq<Call>, k: nat): int
    requires k < |calls|
  {
    if k == 0 then calls[0].now
    else Max(calls[k].now, Release(calls, k - 1) + calls[k - 1].interval)
  }

  /** The sum of the intervals asked for by calls j to k - 1. */
  function Gap(calls: seq<Call>, j: nat, k: nat): int
    requires j <= k <= |calls|
  {
    if j == k then 0 else Gap(calls, j, k - 1) + calls[k - 1].interval
  }

  class AgonesProvider {
    var nextAllocate: Option<int>
    ghost var history: seq<Call>

    ghost predicate Valid()
      reads this
    {
      nextAllocate ==
        if history == [] then None
        else Some(Release(history, |history| - 1) + history[|history| - 1].interval)
    }

    constructor ()
      ensures Valid() && history == []
    {
      nextAllocate, history := None, [];
    }

    method ReserveAllocateSlot(now: int, minInterval: int) returns (wait: int)
      requires Valid()
      modifies this
      ensures Valid() && history == old(history) + [Call(now, minInterval)]
      ensures 0 <= wait && now + wait == Release(history, |history| - 1)
    {
      ghost var before := history;
      history := history + [Call(now, minInterval)];
      ReleasePrefix(before, Call(now, minInterval));
      wait := 0;
      var start := now;
      if nextAllocate.Some? && now < nextAllocate.value {
        wait := nextAllocate.value - now;
        start := nextAllocate.value;
      }
      nextAllocate := Some(start + minInterval);
    }
  }

  /** A later call never changes an earlier release. */
  lemma {:induction false} ReleasePrefix(calls: seq<Call>, c: Call)
    ensures forall k :: 0 <= k < |calls| ==> Release(calls + [c], k) == Release(calls, k)
  {
    forall k | 0 <= k < |calls|
      ensures Release(calls + [c], k) == Release(calls, k)
    {
      ReleasePrefixAt(calls, c, k);
    }
  }

  lemma {:induction false} ReleasePrefixAt(calls: seq<Call>, c: Call, k: nat)
    requires k < |calls|
    ensures Release(calls + [c], k) == Release(calls, k)
  {
    if k > 0 {
      ReleasePrefixAt(calls, c, k - 1);
    }
  }

  /** Closed form: call k is released at the maximum, over j <= k, of now_j plus the intervals of calls j to k - 1,
      whatever the clock reads. */
  lemma {:induction false} ReleaseClosedForm(calls: seq<Call>, k: nat) returns (best: nat)
    requires k < |calls|
    ensures best <= k && Release(calls, k) == calls[best].now + Gap(calls, best, k)
    ensures forall j :: 0 <= j <= k ==> calls[j].now + Gap(calls, j, k) <= Release(calls, k)
  {
    if k == 0 {
      best := 0;
    } else {
      best := ReleaseClosedForm(calls, k - 1);
      if calls[k].now >= Release(calls, k - 1) + calls[k - 1].interval {
        best := k;
      }
      forall j | 0 <= j <= k
        ensures calls[j].now + Gap(calls, j, k) <= Release(calls, k)
      {
        if j < k {
          assert calls[j].now + Gap(calls, j, k - 1) <= Release(calls, k - 1);
        }
      }
    }
  }

  lemma {:induction false} GapFixed(calls: seq<Call>, d: int, j: nat, k: nat)
    requires j <= k <= |calls|
    requires forall i :: 0 <= i < |calls| ==> calls[i].interval == d
    ensures Gap(calls, j, k) == (k - j) * d
  {
    if j < k {
      GapFixed(calls, d, j, k - 1);
      assert (k - 1 - j) * d + d == (k - j) * d;
    }
  }

  /** The closed form for the configured fixed interval d: max over j <= k of now_j + (k - j) * d. */
  lemma {:induction false} FixedIntervalClosedForm(calls: seq<Call>, d: int, k: nat) returns (best: nat)
    requires k < |calls|
    requires forall i :: 0 <= i < |calls| ==> calls[i].interval == d
    ensures best <= k && Release(calls, k) == calls[best].now + (k - best) * d
    ensures forall j :: 0 <= j <= k ==> calls[j].now + (k - j) * d <= Release(calls, k)
  {
    best := ReleaseClosedForm(calls, k);
    GapFixed(calls, d, best, k);
    forall j | 0 <= j <= k
      ensures calls[j].now + (k - j) * d <= Release(calls, k)
    {
      GapFixed(calls, d, j, k);
    }
  }

  /** A schedule that lets no call through early and keeps every asked-for interval. */
  ghost predicate Spaced(calls: seq<Call>, at: seq<int>) {
    && |at| == |calls|
    && (forall i :: 0 <= i < |at| ==> calls[i].now <= at[i])
    && (forall i {:trigger at[i]} :: 1 <= i < |at| ==> at[i - 1] + calls[i - 1].interval <= at[i])
  }

  function Releases(calls: seq<Call>): (at: seq<int>)
    ensures |at| == |calls|
  {
    seq(|calls|, i requires 0 <= i < |calls| => Release(calls, i))
  }

  /** The releases let no call through early and keep every asked-for interval. */
  lemma {:induction false} ReleasesAreSpaced(calls: seq<Call>)
    ensures Spaced(calls, Releases(calls))
  {
    forall i | 1 <= i < |calls|
      ensures Releases(calls)[i - 1] + calls[i - 1].interval <= Releases(calls)[i]
    {
      assert Release(calls, i) >= Release(calls, i - 1) + calls[i - 1].interval;
    }
  }

  /** No schedule that does so releases any call earlier. */
  lemma {:induction false} ReleasesAreTheLeastSpacing(calls: seq<Call>, at: seq<int>)
    requires Spaced(calls, at)
    ensures forall k :: 0 <= k < |calls| ==> Releases(calls)[k] <= at[k]
  {
    forall k | 0 <= k < |calls|
      ensures Release(calls, k) <= at[k]
    {
      NotEarlier(calls, at, k);
    }
  }

  lemma {:induction false} NotEarlier(calls: seq<Call>, at: seq<int>, k: nat)
    requires Spaced(calls, at) && k < |calls|
    ensures Release(calls, k) <= at[k]
  {
    if k > 0 {
      NotEarlier(calls, at, k - 1);
    }
  }

  lemma {:induction false} ReleasesApart(calls: seq<Call>, d: int, i: nat, j: nat)
    requires i <= j < |calls|
    requires forall n :: 0 <= n < |calls| ==> calls[n].interval == d
    ensures Release(calls, i) + (j - i) * d <= Release(calls, j)
  {
    if i < j {
      ReleasesApart(calls, d, i, j - 1);
      assert (j - 1 - i) * d + d == (j - i) * d;
    }
  }

  function InWindow(calls: seq<Call>, start: int, length: int): set<int> {
    set k: int | 0 <= k < |calls| && start <= Release(calls, k) <= start + length
  }

  /** Any window of the given length holds at most floor(length / d) + 1 releases. */
  lemma {:induction false} WindowBound(calls: seq<Call>, d: int, start: int, length: nat)
    requires d > 0
    requires forall i :: 0 <= i < |calls| ==> calls[i].interval == d
    ensures |InWindow(calls, start, length)| <= length / d + 1
  {
    var w := InWindow(calls, start, length);
    if w != {} {
      var first := MinOf(w);
      forall k | k in w
        ensures first <= k < first + length / d + 1
      {
        ReleasesApart(calls, d, first, k);
        Div(k - first, d, length);
      }
      IntervalCard(w, first, first + length / d + 1);
    }
  }

  lemma Div(n: int, d: int, length: int)
    requires d > 0 && n * d <= length
    ensures n <= length / d
  {
    var q := length / d;
    assert length < (q + 1) * d;
    assert n >= q + 1 ==> n * d >= (q + 1) * d;
  }

  lemma {:induction false} MinOf(s: set<int>) returns (m: int)
    requires s != {}
    ensures m in s && forall x :: x in s ==> m <= x
  {
    SomeMember(s);
    var any :| any in s;
    m := any;
    if s != {any} {
      var n := MinOf(s - {any});
      m := if n < any then n else any;
      assert forall x :: x in s ==> x == any || x in s - {any};
    }
  }
}
