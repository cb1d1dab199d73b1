/** Result types shared by the whole model, standing for Go's nil pointers and (value, error) pairs. */
module Common {
  datatype Option<+T> = None | Some(value: T)

  datatype Result<+T, +E> = Ok(value: T) | Err(error: E)

  function Max(a: int, b: int): int {
    if a < b then b else a
  }

  function Min(a: int, b: int): int {
    if a < b then a else b
  }

  const TWO64 := 0x1_0000_0000_0000_0000

  /** A set of indices in [lo, hi) has at most hi - lo elements. */
  lemma {:induction false} IntervalCard(s: set<int>, lo: int, hi: int)
    requires lo <= hi
    requires forall x :: x in s ==> lo <= x < hi
    ensures |s| <= hi - lo
    decreases hi - lo
  {
    if lo == hi {
      assert s == {};
    } else {
      var t := s - {hi - 1};
      IntervalCard(t, lo, hi - 1);
      assert s <= t + {hi - 1};
      if hi - 1 in s {
        assert s == t + {hi - 1};
      } else {
        assert s == t;
      }
    }
  }

  lemma SomeMember(s: set<int>)
    ensures s == {} || exists x :: x in s
  {
    if forall x :: x !in s {
      assert s == {};
    }
  }

  ghost predicate Distinct(s: seq<int>) {
    forall i, j :: 0 <= i < j < |s| ==> s[i] != s[j]
  }

  function Elements(s: seq<int>): set<int> {
    set i | 0 <= i < |s| :: s[i]
  }

  lemma {:induction false} DistinctCard(s: seq<int>)
    requires Distinct(s)
    ensures |Elements(s)| == |s|
  {
    if s != [] {
      var t, x := s[..|s| - 1], s[|s| - 1];
      DistinctCard(t);
      assert Elements(s) == Elements(t) + {x};
      assert x !in Elements(t);
    }
  }

  lemma {:induction false} SubsetCard(a: set<int>, b: set<int>)
    requires a <= b
    ensures |a| <= |b| && (|a| == |b| ==> a == b)
  {
    var rest := b - a;
    assert b == a + rest;
    assert |b| == |a| + |rest|;
  }

  /** Distinct elements drawn from ids: never more than ids, and all of ids when as many. */
  lemma {:induction false} Pigeonhole(s: seq<int>, ids: seq<int>)
    requires Distinct(s) && Distinct(ids) && forall i :: 0 <= i < |s| ==> s[i] in ids
    ensures |s| <= |ids|
    ensures |s| == |ids| ==> forall x :: x in s <==> x in ids
  {
    DistinctCard(s);
    DistinctCard(ids);
    SubsetCard(Elements(s), Elements(ids));
    assert forall x :: x in s <==> x in Elements(s);
    assert forall x :: x in ids <==> x in Elements(ids);
  }

  /** f applied along xs, from the left. */
  function FoldLeft<R, A>(f: (R, A) -> R, r: R, xs: seq<A>): R {
    if xs == [] then r else f(FoldLeft(f, r, xs[..|xs| - 1]), xs[|xs| - 1])
  }

  lemma {:induction false} FoldLeftCons<R, A>(f: (R, A) -> R, r: R, x: A, xs: seq<A>)
    ensures FoldLeft(f, r, [x] + xs) == FoldLeft(f, f(r, x), xs)
  {
    var all := [x] + xs;
    if xs == [] {
      assert all == [x] && all[..0] == [];
    } else {
      FoldLeftCons(f, r, x, xs[..|xs| - 1]);
      assert all[..|all| - 1] == [x] + xs[..|xs| - 1];
    }
  }

  /** The first flag from k on that is set. */
  function FirstSet(flags: seq<bool>, k: nat): (r: Option<nat>)
    requires k <= |flags|
    ensures r.Some? ==> k <= r.value < |flags| && flags[r.value] && forall j :: k <= j < r.value ==> !flags[j]
    ensures r.None? ==> forall j :: k <= j < |flags| ==> !flags[j]
    decreases |flags| - k
  {
    if k == |flags| then None else if flags[k] then Some(k) else FirstSet(flags, k + 1)
  }

  /** The elements of s that are to be kept, in order. */
  function Sieve<T>(s: seq<T>, keep: seq<bool>): seq<T>
    requires |keep| == |s|
  {
    if s == [] then []
    else if keep[|s| - 1] then Sieve(s[..|s| - 1], keep[..|s| - 1]) + [s[|s| - 1]]
    else Sieve(s[..|s| - 1], keep[..|s| - 1])
  }

  /** The positions to be kept. */
  function Positions(keep: seq<bool>): seq<int> {
    if keep == [] then []
    else if keep[|keep| - 1] then Positions(keep[..|keep| - 1]) + [|keep| - 1]
    else Positions(keep[..|keep| - 1])
  }

  lemma {:induction false} PositionsExact(keep: seq<bool>)
    ensures forall k :: k in Positions(keep) <==> 0 <= k < |keep| && keep[k]
  {
    if keep != [] {
      PositionsExact(keep[..|keep| - 1]);
    }
  }

  lemma {:induction false} PositionsIncrease(keep: seq<bool>)
    ensures forall i, j :: 0 <= i < j < |Positions(keep)| ==> Positions(keep)[i] < Positions(keep)[j]
  {
    if keep != [] {
      var init := keep[..|keep| - 1];
      PositionsIncrease(init);
      PositionsExact(init);
      assert forall i :: 0 <= i < |Positions(init)| ==> Positions(init)[i] in Positions(init);
    }
  }

  lemma {:induction false} SieveAt<T>(s: seq<T>, keep: seq<bool>, i: nat)
    requires |keep| == |s| && i < |Positions(keep)|
    ensures |Sieve(s, keep)| == |Positions(keep)|
    ensures 0 <= Positions(keep)[i] < |s| && keep[Positions(keep)[i]] && Sieve(s, keep)[i] == s[Positions(keep)[i]]
  {
    PositionsExact(keep);
    assert Positions(keep)[i] in Positions(keep);
    SieveLength(s, keep);
    var n := |s| - 1;
    if i < |Positions(keep[..n])| {
      SieveAt(s[..n], keep[..n], i);
    } else {
      SieveLength(s[..n], keep[..n]);
    }
  }

  lemma {:induction false} SieveLength<T>(s: seq<T>, keep: seq<bool>)
    requires |keep| == |s|
    ensures |Sieve(s, keep)| == |Positions(keep)|
  {
    if s != [] {
      SieveLength(s[..|s| - 1], keep[..|s| - 1]);
    }
  }
}
