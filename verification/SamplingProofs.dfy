/** When p2c keeps to the candidates it sampled. */
module SamplingProofs {
  import opened Common
  import opened RoutingTypes
  import opened Selection
  import opened Engine

  /** Marks the candidates other than the first that have no usable value. */
  function Marks(loads: seq<Num>): (m: seq<bool>)
    ensures |m| == |loads|
  {
    seq(|loads|, i requires 0 <= i < |loads| => i > 0 && !Usable(loads[i]))
  }

  /** Their indexes. */
  function UnusableOthers(loads: seq<Num>): seq<int> {
    Positions(Marks(loads))
  }

  lemma {:induction false} OthersFacts(loads: seq<Num>)
    ensures Distinct(UnusableOthers(loads))
    ensures forall i :: i in UnusableOthers(loads) <==> 0 < i < |loads| && !Usable(loads[i])
  {
    PositionsIncrease(Marks(loads));
    PositionsExact(Marks(loads));
  }

  /** On this stream, whatever p2c picks is among the candidates it drew. */
  ghost predicate PicksSampled(rng: Rng, loads: seq<Num>, sample: int)
    requires loads != []
  {
    forall d0: nat, d1: nat, idx: nat :: SampledPick(rng, loads, sample, d0, d1, idx) ==> idx in FirstDraws(rng, |loads|, d0, d1)
  }

  lemma {:induction false} EnoughUsable(rng: Rng, loads: seq<Num>, sample: int, d0: nat, d1: nat, idx: nat)
    requires SampledPick(rng, loads, sample, d0, d1, idx) && |UnusableOthers(loads)| < SampleSize(sample, |loads|)
    ensures idx in FirstDraws(rng, |loads|, d0, d1)
  {
    var chosen := FirstDraws(rng, |loads|, d0, d1);
    FirstDrawsDistinct(rng, |loads|, d0, d1);
    SampledPickIsSampledIff(rng, loads, sample, d0, d1, idx);
    OthersFacts(loads);
    if idx !in chosen {
      forall k | 0 <= k < |chosen|
        ensures chosen[k] in UnusableOthers(loads)
      {
        assert chosen[k] in chosen;
      }
      Pigeonhole(chosen, UnusableOthers(loads));
    }
  }

  // ---------- a stream that draws given candidates first ----------

  function FirstThenCount(s: seq<nat>, m: nat): Rng {
    (k: nat, n: nat) => if k < |s| && n == m then s[k] else if n == 0 then 0 else k % n
  }

  lemma {:induction false} FirstThenCountIsFair(s: seq<nat>, m: nat)
    ensures Fair(FirstThenCount(s, m))
  {
    var rng := FirstThenCount(s, m);
    forall n: nat, i: int, k: nat | 0 < n && 0 <= i < n
      ensures Recurs(rng, n, i, k)
    {
      RemainderOf(k + |s|, i, n);
      var d: nat := (k + |s|) * n + i;
      assert Draw(rng, d, n) == i;
    }
  }

  lemma {:induction false} DrawsGiven(s: seq<nat>, m: nat, j: nat)
    requires Distinct(s) && j <= |s| && forall k :: 0 <= k < |s| ==> s[k] < m
    requires 0 < m
    ensures FirstDraws(FirstThenCount(s, m), m, 0, j) == s[..j]
  {
    if j > 0 {
      DrawsGiven(s, m, j - 1);
      assert Draw(FirstThenCount(s, m), j - 1, m) == s[j - 1];
      assert s[j - 1] !in s[..j - 1];
      assert s[..j] == s[..j - 1] + [s[j - 1]];
    }
  }

  lemma FirstUnusable(loads: seq<Num>, want: nat) returns (s: seq<nat>)
    requires want <= |UnusableOthers(loads)|
    ensures |s| == want && Distinct(s) && 0 !in s && NoneUsable(loads, s)
  {
    OthersFacts(loads);
    var all := UnusableOthers(loads);
    assert forall k :: 0 <= k < |all| ==> all[k] in all;
    s := all[..want];
  }

  lemma PicksFirst(rng: Rng, loads: seq<Num>, sample: int, s: seq<nat>)
    requires 0 < |s| == SampleSize(sample, |loads|) && NoneUsable(loads, s) && loads != []
    requires FirstDraws(rng, |loads|, 0, |s|) == s && |FirstDraws(rng, |loads|, 0, |s| - 1)| < |s|
    ensures SampledPick(rng, loads, sample, 0, |s|, 0)
  {
  }

  /** A fair stream whose first draws are unusable candidates, none of them the first. */
  lemma {:induction false} TooManyUnusable(loads: seq<Num>, sample: int) returns (rng: Rng)
    requires loads != [] && SampleSize(sample, |loads|) <= |UnusableOthers(loads)|
    ensures Fair(rng) && !PicksSampled(rng, loads, sample)
  {
    var want := SampleSize(sample, |loads|);
    var s := FirstUnusable(loads, want);
    rng := FirstThenCount(s, |loads|);
    FirstThenCountIsFair(s, |loads|);
    DrawsGiven(s, |loads|, want);
    DrawsGiven(s, |loads|, want - 1);
    assert s[..want] == s;
    PicksFirst(rng, loads, sample, s);
  }

  /** Whatever the draws, p2c picks one of the candidates it sampled if and only if fewer candidates than it samples, the
      first not counted, lack a usable value. Otherwise some fair stream makes it pick the first without sampling it. */
  lemma {:induction false} SampledOnEveryStreamIff(loads: seq<Num>, sample: int)
    requires loads != []
    ensures (forall rng: Rng :: Fair(rng) ==> PicksSampled(rng, loads, sample)) <==>
            |UnusableOthers(loads)| < SampleSize(sample, |loads|)
  {
    if |UnusableOthers(loads)| < SampleSize(sample, |loads|) {
      forall rng: Rng, d0: nat, d1: nat, idx: nat | SampledPick(rng, loads, sample, d0, d1, idx)
        ensures idx in FirstDraws(rng, |loads|, d0, d1)
      {
        EnoughUsable(rng, loads, sample, d0, d1, idx);
      }
    } else {
      var rng := TooManyUnusable(loads, sample);
    }
  }
}
