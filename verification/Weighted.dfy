/** Weighted selection: which draw picks which index, with Go's 64-bit arithmetic, and when the odds are exact. */
module Weighted {
  import opened Common

  const TWO63 := 0x8000_0000_0000_0000

  /** int arithmetic wraps around at 64 bits. */
  function Wrap64(x: int): (r: int)
    ensures -TWO63 <= r < TWO63
    ensures -TWO63 <= x < TWO63 ==> r == x
  {
    (x + TWO63) % TWO64 - TWO63
  }

  /** The total the code computes, wrapping at every addition. */
  function Total(ws: seq<int>): (r: int)
    ensures -TWO63 <= r < TWO63
  {
    if ws == [] then 0 else Wrap64(Total(ws[..|ws| - 1]) + ws[|ws| - 1])
  }

  /** The scan for the drawn number r from index i on, with acc the weight passed so far. */
  function PickFrom(ws: seq<int>, r: int, i: nat, acc: int): (k: nat)
    requires 0 < |ws| && i <= |ws|
    ensures k < |ws|
    decreases |ws| - i
  {
    if i == |ws| then |ws| - 1
    else
      var next := Wrap64(acc + ws[i]);
      if r < next then i else PickFrom(ws, r, i + 1, next)
  }

  function Pick(ws: seq<int>, r: int): (k: nat)
    requires 0 < |ws|
    ensures k < |ws|
  {
    PickFrom(ws, r, 0, 0)
  }

  // ---------- exact odds ----------

  function Sum(ws: seq<int>): int {
    if ws == [] then 0 else Sum(ws[..|ws| - 1]) + ws[|ws| - 1]
  }

  ghost predicate Positive(ws: seq<int>) {
    forall i :: 0 <= i < |ws| ==> 1 <= ws[i]
  }

  lemma {:induction false} TotalIsWrappedSum(ws: seq<int>)
    ensures Total(ws) == Wrap64(Sum(ws))
  {
    if ws != [] {
      TotalIsWrappedSum(ws[..|ws| - 1]);
    }
  }

  lemma {:induction false} SumStep(ws: seq<int>, i: nat)
    requires i < |ws|
    ensures Sum(ws[..i + 1]) == Sum(ws[..i]) + ws[i]
  {
    assert ws[..i + 1][..i] == ws[..i];
  }

  lemma {:induction false} SumMonotone(ws: seq<int>, i: nat, j: nat)
    requires Positive(ws) && i <= j <= |ws|
    ensures Sum(ws[..i]) <= Sum(ws[..j]) && (i < j ==> Sum(ws[..i]) < Sum(ws[..j]))
    decreases j - i
  {
    if i < j {
      SumStep(ws, j - 1);
      SumMonotone(ws, i, j - 1);
    }
  }

  lemma {:induction false} PickFromInterval(ws: seq<int>, r: int, i: nat)
    requires Positive(ws) && Sum(ws) < TWO63 && i <= |ws| && 0 < |ws|
    requires Sum(ws[..i]) <= r < Sum(ws)
    ensures var k := PickFrom(ws, r, i, Sum(ws[..i])); Sum(ws[..k]) <= r < Sum(ws[..k + 1])
    decreases |ws| - i
  {
    assert ws[..|ws|] == ws;
    if i < |ws| {
      SumStep(ws, i);
      SumMonotone(ws, 0, i + 1);
      SumMonotone(ws, i + 1, |ws|);
      assert Wrap64(Sum(ws[..i]) + ws[i]) == Sum(ws[..i + 1]);
      if r >= Sum(ws[..i + 1]) {
        PickFromInterval(ws, r, i + 1);
      }
    }
  }

  /** While the weights add up below 2^63, draw r picks exactly the index whose stretch of [0, sum) holds r;
      so the scan always stops inside the list. */
  lemma {:induction false} PickIffInStretch(ws: seq<int>, r: int, i: nat)
    requires Positive(ws) && 0 < |ws| && Sum(ws) < TWO63 && 0 <= r < Sum(ws) && i < |ws|
    ensures Pick(ws, r) == i <==> Sum(ws[..i]) <= r < Sum(ws[..i + 1])
  {
    var k := Pick(ws, r);
    assert ws[..0] == [];
    PickFromInterval(ws, r, 0);
    if i < k {
      SumMonotone(ws, i + 1, k);
    } else if k < i {
      SumMonotone(ws, k + 1, i);
    }
  }

  /** The draws in [0, total) that pick index i. */
  function Draws(ws: seq<int>, i: nat): set<int>
    requires 0 < |ws|
  {
    set r: int | 0 <= r < Total(ws) && Pick(ws, r) == i
  }

  predicate Between(lo: int, r: int, hi: int) {
    lo <= r < hi
  }

  function Range(lo: int, hi: int): set<int> {
    set r: int | lo <= r < hi && Between(lo, r, hi)
  }

  lemma {:induction false} RangeCard(lo: int, hi: int)
    requires lo <= hi
    ensures |Range(lo, hi)| == hi - lo
    decreases hi - lo
  {
    if lo < hi {
      RangeCard(lo, hi - 1);
      assert Range(lo, hi) == Range(lo, hi - 1) + {hi - 1};
    } else {
      assert Range(lo, hi) == {};
    }
  }

  /** Every index is picked by exactly as many draws as its weight. */
  ghost predicate ExactOdds(ws: seq<int>)
    requires 0 < |ws|
  {
    0 < Total(ws) && forall i :: 0 <= i < |ws| ==> |Draws(ws, i)| == ws[i]
  }

  lemma {:induction false} DrawsAreStretch(ws: seq<int>, i: nat)
    requires Positive(ws) && i < |ws| && Sum(ws) < TWO63
    ensures |Draws(ws, i)| == ws[i]
  {
    TotalIsWrappedSum(ws);
    SumStep(ws, i);
    SumMonotone(ws, 0, i);
    SumMonotone(ws, i + 1, |ws|);
    assert ws[..|ws|] == ws;
    forall r
      ensures r in Draws(ws, i) <==> r in Range(Sum(ws[..i]), Sum(ws[..i + 1]))
    {
      if 0 <= r < Sum(ws) {
        PickIffInStretch(ws, r, i);
      }
    }
    assert Draws(ws, i) == Range(Sum(ws[..i]), Sum(ws[..i + 1]));
    RangeCard(Sum(ws[..i]), Sum(ws[..i + 1]));
  }

  function DrawsBelow(ws: seq<int>, k: nat): set<int>
    requires 0 < |ws|
  {
    set r: int | 0 <= r < Total(ws) && Pick(ws, r) < k
  }

  lemma {:induction false} ExactOddsAddUp(ws: seq<int>, k: nat)
    requires 0 < |ws| && ExactOdds(ws) && k <= |ws|
    ensures |DrawsBelow(ws, k)| == Sum(ws[..k])
  {
    if k == 0 {
      assert DrawsBelow(ws, 0) == {};
    } else {
      ExactOddsAddUp(ws, k - 1);
      SumStep(ws, k - 1);
      assert DrawsBelow(ws, k) == DrawsBelow(ws, k - 1) + Draws(ws, k - 1);
      assert DrawsBelow(ws, k - 1) !! Draws(ws, k - 1);
    }
  }

  /** The odds are exact if and only if the weights add up to less than 2^63. */
  lemma {:induction false} ExactOddsIff(ws: seq<int>)
    requires Positive(ws) && 0 < |ws|
    ensures ExactOdds(ws) <==> Sum(ws) < TWO63
  {
    assert ws[..|ws|] == ws;
    if Sum(ws) < TWO63 {
      forall i | 0 <= i < |ws|
        ensures |Draws(ws, i)| == ws[i]
      {
        DrawsAreStretch(ws, i);
      }
      SumMonotone(ws, 0, |ws|);
      TotalIsWrappedSum(ws);
    }
    if ExactOdds(ws) {
      ExactOddsAddUp(ws, |ws|);
      assert DrawsBelow(ws, |ws|) == Range(0, Total(ws));
      RangeCard(0, Total(ws));
    }
  }

  const HALF := 0x4000_0000_0000_0000

  /** Two weights of 2^62: the total wraps to a negative number, and no draw is even made. */
  lemma OverflowExample()
    ensures Total([HALF, HALF]) == -TWO63 && !ExactOdds([HALF, HALF])
  {
    assert [HALF, HALF][..1] == [HALF] && [HALF][..0] == [];
    assert Total([HALF]) == HALF;
  }
}
