/** Round-robin balance: how often each index is picked over a window of counter values. */
module RoundRobin {
  import opened Common

  /** The index the k-th increment after counter value v picks among n candidates; the counter is a uint64. */
  function PickAt(v: nat, k: nat, n: nat): nat
    requires 0 < n
  {
    (v + k) % TWO64 % n
  }

  /** How often index i is picked by m consecutive increments starting at counter value v. */
  function Picks(v: nat, m: nat, n: nat, i: nat): nat
    requires 0 < n
  {
    if m == 0 then 0 else Picks(v, m - 1, n, i) + if PickAt(v, m - 1, n) == i then 1 else 0
  }

  /** Every index is picked floor(m/n) or ceil(m/n) times. */
  ghost predicate Balanced(v: nat, m: nat, n: nat)
    requires 0 < n
  {
    forall i :: 0 <= i < n ==> m / n <= Picks(v, m, n, i) <= (m + n - 1) / n
  }

  /** Numbers below y that leave remainder i. */
  function Below(y: nat, n: nat, i: nat): nat
    requires i < n
  {
    (y + n - 1 - i) / n
  }

  lemma DivMod(x: int, q: int, r: int, n: int)
    requires 0 < n && x == q * n + r && 0 <= r < n
    ensures x / n == q && x % n == r
  {
    var d := x / n - q;
    assert x == (x / n) * n + x % n;
    assert d * n == (x / n) * n - q * n;
    assert d * n == r - x % n;
    assert d >= 1 ==> d * n >= n;
    assert d <= -1 ==> d * n <= -n;
  }

  lemma {:induction false} BelowStep(y: nat, n: nat, i: nat)
    requires i < n
    ensures Below(y + 1, n, i) == Below(y, n, i) + if y % n == i then 1 else 0
  {
    var q, r := y / n, y % n;
    assert y == q * n + r;
    if r < i {
      DivMod(y + n - 1 - i, q, r + n - 1 - i, n);
      DivMod(y + 1 + n - 1 - i, q, r + 1 + n - 1 - i, n);
    } else if r == i {
      DivMod(y + n - 1 - i, q, n - 1, n);
      assert (q + 1) * n == q * n + n;
      DivMod(y + 1 + n - 1 - i, q + 1, 0, n);
    } else {
      assert (q + 1) * n == q * n + n;
      DivMod(y + n - 1 - i, q + 1, r - 1 - i, n);
      DivMod(y + 1 + n - 1 - i, q + 1, r - i, n);
    }
  }

  /** Wrapping is harmless when n divides 2^64. */
  lemma {:induction false} WrapHarmless(x: nat, n: nat)
    requires 0 < n && (x < TWO64 || TWO64 % n == 0)
    ensures x % TWO64 % n == x % n
  {
    if x >= TWO64 {
      var c, q := TWO64 / n, x / TWO64;
      var y := x % TWO64;
      assert TWO64 == c * n && x == q * TWO64 + y;
      assert q * TWO64 == (q * c) * n by {
        assert q * (c * n) == (q * c) * n;
      }
      var p, r := y / n, y % n;
      assert y == p * n + r;
      assert x == (q * c + p) * n + r by {
        assert (q * c + p) * n == (q * c) * n + p * n;
      }
      DivMod(x, q * c + p, r, n);
    }
  }

  lemma {:induction false} PicksCount(v: nat, m: nat, n: nat, i: nat)
    requires i < n && (v + m <= TWO64 || TWO64 % n == 0)
    ensures Picks(v, m, n, i) == Below(v + m, n, i) - Below(v, n, i)
  {
    if m > 0 {
      PicksCount(v, m - 1, n, i);
      BelowStep(v + m - 1, n, i);
      WrapHarmless(v + m - 1, n);
    }
  }

  lemma AddQuotient(a: nat, m: nat, n: nat)
    requires 0 < n
    ensures (a + m) / n == a / n + m / n + if a % n + m % n < n then 0 else 1
  {
    var qa, ra, qm, rm := a / n, a % n, m / n, m % n;
    assert a == qa * n + ra && m == qm * n + rm;
    if ra + rm < n {
      Distribute(qa, qm, n);
      DivMod(a + m, qa + qm, ra + rm, n);
    } else {
      Distribute(qa, qm, n);
      Distribute(qa + qm, 1, n);
      DivMod(a + m, qa + qm + 1, ra + rm - n, n);
    }
  }

  lemma Distribute(p: int, q: int, n: int)
    ensures (p + q) * n == p * n + q * n
  {
  }

  lemma CeilQuotient(m: nat, n: nat)
    requires 0 < n
    ensures (m + n - 1) / n == m / n + if m % n == 0 then 0 else 1
  {
    var q, r := m / n, m % n;
    assert m == q * n + r;
    if r == 0 {
      DivMod(m + n - 1, q, n - 1, n);
    } else {
      Distribute(q, 1, n);
      DivMod(m + n - 1, q + 1, r - 1, n);
    }
  }

  lemma {:induction false} QuotientGap(a: nat, m: nat, n: nat)
    requires 0 < n
    ensures m / n <= (a + m) / n - a / n <= (m + n - 1) / n
  {
    AddQuotient(a, m, n);
    CeilQuotient(m, n);
  }

  /** Any window of increments is balanced, as long as the counter does not wrap inside it (or n divides 2^64). */
  lemma {:induction false} WindowBalanced(v: nat, m: nat, n: nat)
    requires 0 < n && (v + m <= TWO64 || TWO64 % n == 0)
    ensures Balanced(v, m, n)
  {
    forall i | 0 <= i < n
      ensures m / n <= Picks(v, m, n, i) <= (m + n - 1) / n
    {
      PicksCount(v, m, n, i);
      QuotientGap(v + n - 1 - i, m, n);
    }
  }

  /** A window across the wrap-around that picks index 0 twice too early. */
  lemma {:induction false} WrapUnbalanced(n: nat)
    requires 0 < n <= TWO64 && TWO64 % n != 0
    ensures !Balanced(TWO64 - TWO64 % n, TWO64 % n + 1, n)
  {
    var q := TWO64 % n;
    var v, c := TWO64 - q, TWO64 / n;
    assert TWO64 == c * n + q && v == c * n;
    DivMod(v, c, 0, n);
    TwicePicked(v, q, n);
    DivMod(q + n, 1, q, n);
  }

  lemma {:induction false} TwicePicked(v: nat, q: nat, n: nat)
    requires 0 < q < n && v + q == TWO64 && v % n == 0
    ensures Picks(v, q + 1, n, 0) >= 2
  {
    FirstAndWrapped(v, q, n);
    PicksGrow(v, 1, q, n, 0);
  }

  lemma FirstAndWrapped(v: nat, q: nat, n: nat)
    requires 0 < q < n && v + q == TWO64 && v % n == 0
    ensures Picks(v, 1, n, 0) == 1
    ensures Picks(v, q + 1, n, 0) == Picks(v, q, n, 0) + 1
  {
    assert v % TWO64 == v;
    assert PickAt(v, 0, n) == 0;
    assert Picks(v, 0, n, 0) == 0;
    Zero(n);
    assert PickAt(v, q, n) == 0;
  }

  lemma Zero(n: nat)
    requires 0 < n
    ensures TWO64 % TWO64 % n == 0
  {
    DivMod(0, 0, 0, n);
  }

  lemma {:induction false} PicksGrow(v: nat, k: nat, m: nat, n: nat, i: nat)
    requires 0 < n && k <= m
    ensures Picks(v, k, n, i) <= Picks(v, m, n, i)
  {
    if k < m {
      PicksGrow(v, k, m - 1, n, i);
    }
  }

  /** Balance holds over every window, wrap-around included, exactly when the number of candidates divides 2^64. */
  lemma {:induction false} AlwaysBalancedIff(n: nat)
    requires 0 < n <= TWO64
    ensures (forall v, m :: 0 <= v < TWO64 && 0 <= m ==> Balanced(v, m, n)) <==> TWO64 % n == 0
  {
    if TWO64 % n == 0 {
      forall v, m | 0 <= v < TWO64 && 0 <= m
        ensures Balanced(v, m, n)
      {
        WindowBalanced(v, m, n);
      }
    } else {
      WrapUnbalanced(n);
    }
  }

  // ---------- interleavings ----------

  /** A schedule of atomic increments by any number of connections: the counter each step increments. */
  function CountersAfter(counters: seq<nat>, schedule: seq<nat>): (after: seq<nat>)
    requires forall k :: 0 <= k < |schedule| ==> schedule[k] < |counters|
    ensures |after| == |counters|
  {
    if schedule == [] then counters
    else
      var before, slot := CountersAfter(counters, schedule[..|schedule| - 1]), schedule[|schedule| - 1];
      before[slot := (before[slot] + 1) % TWO64]
  }

  /** The values read from one counter, in the order of its increments. */
  function Seen(counters: seq<nat>, schedule: seq<nat>, slot: nat): seq<nat>
    requires forall k :: 0 <= k < |schedule| ==> schedule[k] < |counters|
    requires slot < |counters|
  {
    if schedule == [] then []
    else
      var init := schedule[..|schedule| - 1];
      if schedule[|schedule| - 1] == slot
      then Seen(counters, init, slot) + [CountersAfter(counters, init)[slot]]
      else Seen(counters, init, slot)
  }

  /** One more increment reads and moves its own counter only. */
  lemma OneMoreStep(counters: seq<nat>, schedule: seq<nat>, s: nat)
    requires s < |counters| && forall k :: 0 <= k < |schedule| ==> schedule[k] < |counters|
    ensures var after := CountersAfter(counters, schedule);
            && CountersAfter(counters, schedule + [s]) == after[s := (after[s] + 1) % TWO64]
            && forall slot: nat :: slot < |counters| ==>
                 Seen(counters, schedule + [s], slot) == Seen(counters, schedule, slot) + if s == slot then [after[s]] else []
  {
    assert (schedule + [s])[..|schedule|] == schedule;
  }

  /** However increments interleave, one counter hands out consecutive values. */
  lemma {:induction false} SeenConsecutive(counters: seq<nat>, schedule: seq<nat>, slot: nat)
    requires forall k :: 0 <= k < |schedule| ==> schedule[k] < |counters|
    requires slot < |counters| && counters[slot] < TWO64
    ensures CountersAfter(counters, schedule)[slot] == (counters[slot] + |Seen(counters, schedule, slot)|) % TWO64
    ensures forall k :: 0 <= k < |Seen(counters, schedule, slot)| ==>
              Seen(counters, schedule, slot)[k] == (counters[slot] + k) % TWO64
  {
    if schedule != [] {
      var init := schedule[..|schedule| - 1];
      SeenConsecutive(counters, init, slot);
      assert ((counters[slot] + |Seen(counters, init, slot)|) % TWO64 + 1) % TWO64
          == (counters[slot] + |Seen(counters, init, slot)| + 1) % TWO64;
    }
  }

  function Occurrences(values: seq<nat>, n: nat, i: nat): nat
    requires 0 < n
  {
    if values == [] then 0
    else Occurrences(values[..|values| - 1], n, i) + if values[|values| - 1] % n == i then 1 else 0
  }

  lemma {:induction false} OccurrencesArePicks(values: seq<nat>, v: nat, n: nat, i: nat)
    requires 0 < n && forall k :: 0 <= k < |values| ==> values[k] == (v + k) % TWO64
    ensures Occurrences(values, n, i) == Picks(v, |values|, n, i)
  {
    if values != [] {
      OccurrencesArePicks(values[..|values| - 1], v, n, i);
    }
  }

  /** Under any interleaving, as long as its own counter does not wrap, the selections made on one route's counter spread
      evenly over its n candidates. */
  lemma {:induction false} InterleavedBalance(counters: seq<nat>, schedule: seq<nat>, slot: nat, n: nat, i: nat)
    requires forall k :: 0 <= k < |schedule| ==> schedule[k] < |counters|
    requires slot < |counters| && counters[slot] < TWO64 && i < n
    requires counters[slot] + |Seen(counters, schedule, slot)| <= TWO64 || TWO64 % n == 0
    ensures var values := Seen(counters, schedule, slot);
            |values| / n <= Occurrences(values, n, i) <= (|values| + n - 1) / n
  {
    var values := Seen(counters, schedule, slot);
    SeenConsecutive(counters, schedule, slot);
    OccurrencesArePicks(values, counters[slot], n, i);
    WindowBalanced(counters[slot], |values|, n);
  }
}
