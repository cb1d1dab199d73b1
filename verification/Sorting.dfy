/** Stable sorting by a "less" test, as Go's sort.SliceStable does it on short slices (insertion from the right),
    and the fact that any other stable sort would give the same answer. */
module Sorting {

  /** On the elements of s, less is a strict weak order. */
  ghost predicate StrictWeakOn<T(!new)>(less: (T, T) -> bool, s: seq<T>) {
    && (forall x, y :: x in s && y in s && less(x, y) ==> !less(y, x))
    && (forall x, y, z :: x in s && y in s && z in s && less(x, z) ==> less(x, y) || less(y, z))
  }

  function Insert<T>(less: (T, T) -> bool, x: T, s: seq<T>): seq<T> {
    if s == [] || !less(x, s[|s| - 1]) then s + [x]
    else Insert(less, x, s[..|s| - 1]) + [s[|s| - 1]]
  }

  function StableSort<T>(less: (T, T) -> bool, s: seq<T>): seq<T> {
    if s == [] then [] else Insert(less, s[|s| - 1], StableSort(less, s[..|s| - 1]))
  }

  /** a is sorted with x moved in front of its elements from j on, and was beyond them. */
  ghost predicate MovedTo<T>(a: seq<T>, was: seq<T>, sorted: seq<T>, x: T, j: int) {
    && 0 <= j <= |sorted| < |a| == |was| && a[j] == x
    && (forall k :: 0 <= k < j ==> a[k] == sorted[k])
    && (forall k :: j < k <= |sorted| ==> a[k] == sorted[k - 1])
    && (forall k :: |sorted| < k < |a| ==> a[k] == was[k])
  }

  lemma MovedStep<T>(a: seq<T>, was: seq<T>, sorted: seq<T>, x: T, j: int)
    requires MovedTo(a, was, sorted, x, j) && 0 < j
    ensures MovedTo(a[j := sorted[j - 1]][j - 1 := x], was, sorted, x, j - 1)
  {
  }

  /** Moves a[i] left to its place among the sorted a[..i]. */
  method InsertInPlace<T>(a: array<T>, i: nat, less: (T, T) -> bool)
    requires i < a.Length
    modifies a
    ensures a[..i + 1] == Insert(less, old(a[i]), old(a[..i])) && a[i + 1..] == old(a[i + 1..])
  {
    ghost var sorted, x := a[..i], a[i];
    ghost var was := a[..];
    var j := i;
    assert sorted[..i] == sorted && sorted[i..] == [];
    while j > 0 && less(a[j], a[j - 1])
      invariant MovedTo(a[..], was, sorted, x, j)
      invariant Insert(less, x, sorted) == Insert(less, x, sorted[..j]) + sorted[j..]
    {
      ghost var before := a[..];
      assert before[j] == x && before[j - 1] == sorted[j - 1];
      InsertStep(less, x, sorted, j);
      MovedStep(before, was, sorted, x, j);
      a[j], a[j - 1] := a[j - 1], a[j];
      assert a[..] == before[j := sorted[j - 1]][j - 1 := x];
      j := j - 1;
    }
    assert j > 0 ==> a[..][j] == x && a[..][j - 1] == sorted[j - 1];
    InsertStop(less, x, sorted, j);
    PartsMake(a[..][..i + 1], sorted, x, j);
    assert a[..][..i + 1] == a[..i + 1] && a[..][i + 1..] == was[i + 1..];
  }

  lemma PartsMake<T>(s: seq<T>, sorted: seq<T>, x: T, j: nat)
    requires j <= |sorted| && |s| == |sorted| + 1 && s[j] == x
    requires forall k :: 0 <= k < j ==> s[k] == sorted[k]
    requires forall k :: j < k < |s| ==> s[k] == sorted[k - 1]
    ensures s == sorted[..j] + [x] + sorted[j..]
  {
  }

  lemma InsertStep<T>(less: (T, T) -> bool, x: T, s: seq<T>, j: nat)
    requires 0 < j <= |s| && less(x, s[j - 1])
    ensures Insert(less, x, s[..j]) + s[j..] == Insert(less, x, s[..j - 1]) + s[j - 1..]
  {
    assert s[..j][..j - 1] == s[..j - 1];
    assert s[j - 1..] == [s[j - 1]] + s[j..];
  }

  lemma InsertStop<T>(less: (T, T) -> bool, x: T, s: seq<T>, j: nat)
    requires j <= |s| && (j == 0 || !less(x, s[j - 1]))
    ensures Insert(less, x, s[..j]) + s[j..] == s[..j] + [x] + s[j..]
  {
  }

  /** Sorts in place. */
  method InsertionSort<T>(a: array<T>, less: (T, T) -> bool)
    modifies a
    ensures a[..] == StableSort(less, old(a[..]))
  {
    ghost var was := a[..];
    for i := 0 to a.Length
      invariant a[..i] == StableSort(less, was[..i]) && a[i..] == was[i..]
    {
      assert was[..i + 1][..i] == was[..i] && a[i] == a[i..][0] == was[i];
      assert a[i + 1..] == a[i..][1..];
      InsertInPlace(a, i, less);
    }
    assert was[..a.Length] == was && a[..a.Length] == a[..];
  }

  // ---------- what a stable sort is ----------

  /** Element a of s must come before element b of s in a stable sort. */
  ghost predicate Before<T>(less: (T, T) -> bool, s: seq<T>, a: int, b: int)
    requires 0 <= a < |s| && 0 <= b < |s|
  {
    less(s[a], s[b]) || (!less(s[b], s[a]) && a < b)
  }

  /** p lists the positions of s, each once, in stable order. */
  ghost predicate StableOrder<T>(less: (T, T) -> bool, s: seq<T>, p: seq<int>) {
    && (forall i :: 0 <= i < |p| ==> 0 <= p[i] < |s|)
    && (forall k :: 0 <= k < |s| ==> k in p)
    && (forall i, j :: 0 <= i < j < |p| ==> p[i] != p[j] && Before(less, s, p[i], p[j]))
  }

  /** t is s rearranged in stable order. */
  ghost predicate IsStableSort<T>(less: (T, T) -> bool, s: seq<T>, t: seq<T>) {
    exists p :: StableOrder(less, s, p) && Picks(s, p, t)
  }

  ghost predicate Picks<T>(s: seq<T>, p: seq<int>, t: seq<T>) {
    |t| == |p| && forall i :: 0 <= i < |p| ==> 0 <= p[i] < |s| && t[i] == s[p[i]]
  }

  lemma {:induction false} BeforeAsym<T(!new)>(less: (T, T) -> bool, s: seq<T>, a: int, b: int)
    requires StrictWeakOn(less, s) && 0 <= a < |s| && 0 <= b < |s| && a != b
    ensures Before(less, s, a, b) ==> !Before(less, s, b, a)
  {
    assert s[a] in s && s[b] in s;
  }

  /** Positions can be in stable order in one way only. */
  lemma {:induction false} StableOrderUnique<T(!new)>(less: (T, T) -> bool, s: seq<T>, p: seq<int>, q: seq<int>, k: nat)
    requires StrictWeakOn(less, s) && StableOrder(less, s, p) && StableOrder(less, s, q)
    requires k <= |p| && k <= |q|
    ensures p[..k] == q[..k]
  {
    if k > 0 {
      StableOrderUnique(less, s, p, q, k - 1);
      assert forall i :: 0 <= i < k - 1 ==> p[i] == p[..k - 1][i] == q[..k - 1][i] == q[i];
      var a, b := p[k - 1], q[k - 1];
      assert a in q && b in p;
      var i :| 0 <= i < |q| && q[i] == a;
      var j :| 0 <= j < |p| && p[j] == b;
      if a != b {
        BeforeAsym(less, s, a, b);
      }
      assert p[..k] == p[..k - 1] + [a] && q[..k] == q[..k - 1] + [b];
    }
  }

  lemma {:induction false} StableOrderLength<T(!new)>(less: (T, T) -> bool, s: seq<T>, p: seq<int>, q: seq<int>)
    requires StrictWeakOn(less, s) && StableOrder(less, s, p) && StableOrder(less, s, q)
    ensures |p| <= |q|
  {
    assert |q| < |p| ==> p[|q|] in q;
    if |q| < |p| {
      StableOrderUnique(less, s, p, q, |q|);
    }
  }

  /** Whatever algorithm sorts stably, the answer is the same. */
  lemma {:induction false} StableSortUnique<T(!new)>(less: (T, T) -> bool, s: seq<T>, t: seq<T>, u: seq<T>)
    requires StrictWeakOn(less, s) && IsStableSort(less, s, t) && IsStableSort(less, s, u)
    ensures t == u
  {
    var p :| StableOrder(less, s, p) && Picks(s, p, t);
    var q :| StableOrder(less, s, q) && Picks(s, q, u);
    StableOrderLength(less, s, p, q);
    StableOrderLength(less, s, q, p);
    StableOrderUnique(less, s, p, q, |p|);
    assert p[..|p|] == p && q[..|q|] == q;
  }

  // ---------- insertion sort is one ----------

  lemma {:induction false} InsertAt<T>(less: (T, T) -> bool, x: T, s: seq<T>) returns (k: nat)
    ensures k <= |s| && Insert(less, x, s) == s[..k] + [x] + s[k..]
    ensures k > 0 ==> !less(x, s[k - 1])
    ensures forall i :: k <= i < |s| ==> less(x, s[i])
  {
    if s == [] || !less(x, s[|s| - 1]) {
      k := |s|;
    } else {
      var t := s[..|s| - 1];
      k := InsertAt(less, x, t);
      assert t[..k] == s[..k] && t[k..] + [s[|s| - 1]] == s[k..];
    }
  }

  lemma {:induction false} SortOrder<T(!new)>(less: (T, T) -> bool, s: seq<T>) returns (p: seq<int>)
    requires StrictWeakOn(less, s)
    ensures StableOrder(less, s, p) && Picks(s, p, StableSort(less, s))
  {
    if s == [] {
      p := [];
    } else {
      var n := |s| - 1;
      var s', x := s[..n], s[n];
      assert forall y :: y in s' ==> y in s;
      var p' := SortOrder(less, s');
      var t := StableSort(less, s');
      var k := InsertAt(less, x, t);
      p := p'[..k] + [n] + p'[k..];
      OrderInsert(less, s, p', t, k, p);
    }
  }

  lemma {:induction false} OrderInsert<T(!new)>(less: (T, T) -> bool, s: seq<T>, p': seq<int>, t: seq<T>, k: nat, p: seq<int>)
    requires StrictWeakOn(less, s) && s != []
    requires StableOrder(less, s[..|s| - 1], p') && Picks(s[..|s| - 1], p', t) && k <= |p'|
    requires p == p'[..k] + [|s| - 1] + p'[k..]
    requires k > 0 ==> !less(s[|s| - 1], t[k - 1])
    requires forall i :: k <= i < |t| ==> less(s[|s| - 1], t[i])
    ensures StableOrder(less, s, p) && Picks(s, p, t[..k] + [s[|s| - 1]] + t[k..])
  {
    forall y | 0 <= y < |s|
      ensures y in p
    {
      InsertedIndex(p', k, |s| - 1, y);
    }
    forall i, j | 0 <= i < j < |p|
      ensures p[i] != p[j] && Before(less, s, p[i], p[j])
    {
      InsertedPair(less, s, p', t, k, p, i, j);
    }
    InsertedPicks(s, p', t, k);
  }

  lemma InsertedPicks<T>(s: seq<T>, p': seq<int>, t: seq<T>, k: nat)
    requires s != [] && Picks(s[..|s| - 1], p', t) && k <= |p'|
    ensures Picks(s, p'[..k] + [|s| - 1] + p'[k..], t[..k] + [s[|s| - 1]] + t[k..])
  {
  }

  lemma {:induction false} InsertedPair<T(!new)>(less: (T, T) -> bool, s: seq<T>, p': seq<int>, t: seq<T>, k: nat,
                                               p: seq<int>, i: nat, j: nat)
    requires StrictWeakOn(less, s) && s != []
    requires StableOrder(less, s[..|s| - 1], p') && Picks(s[..|s| - 1], p', t) && k <= |p'|
    requires p == p'[..k] + [|s| - 1] + p'[k..] && i < j < |p|
    requires k > 0 ==> !less(s[|s| - 1], t[k - 1])
    requires forall i :: k <= i < |t| ==> less(s[|s| - 1], t[i])
    ensures 0 <= p[i] < |s| && 0 <= p[j] < |s| && p[i] != p[j] && Before(less, s, p[i], p[j])
  {
    if i != k && j != k {
      var i', j' := if i < k then i else i - 1, if j < k then j else j - 1;
      assert p[i] == p'[i'] && p[j] == p'[j'];
      assert Before(less, s[..|s| - 1], p'[i'], p'[j']);
    } else if j == k {
      BeforeInserted(less, s, p', t, k, i);
    } else {
      assert p[j] == p'[j - 1] && t[j - 1] == s[p'[j - 1]];
    }
  }

  lemma InsertedIndex(p': seq<int>, k: nat, n: int, y: int)
    requires k <= |p'| && (y == n || y in p')
    ensures y in p'[..k] + [n] + p'[k..]
  {
    assert p' == p'[..k] + p'[k..];
  }

  lemma {:induction false} BeforeInserted<T(!new)>(less: (T, T) -> bool, s: seq<T>, p': seq<int>, t: seq<T>, k: nat, i: nat)
    requires StrictWeakOn(less, s) && s != []
    requires StableOrder(less, s[..|s| - 1], p') && Picks(s[..|s| - 1], p', t) && i < k <= |p'|
    requires !less(s[|s| - 1], t[k - 1])
    ensures !less(s[|s| - 1], s[p'[i]])
  {
    var n := |s| - 1;
    assert s[n] in s && s[p'[i]] in s && s[p'[k - 1]] in s;
    if i < k - 1 {
      assert Before(less, s[..n], p'[i], p'[k - 1]);
    }
  }

  /** On a strict weak order, insertion sort is the stable sort. */
  lemma {:induction false} StableSortCorrect<T(!new)>(less: (T, T) -> bool, s: seq<T>)
    requires StrictWeakOn(less, s)
    ensures IsStableSort(less, s, StableSort(less, s))
  {
    var p := SortOrder(less, s);
  }

  /** Nothing sorted behind x comes before x. */
  lemma {:induction false} SortedPair<T(!new)>(less: (T, T) -> bool, s: seq<T>, i: nat, j: nat)
    requires StrictWeakOn(less, s) && i < j < |s|
    ensures |StableSort(less, s)| == |s| && !less(StableSort(less, s)[j], StableSort(less, s)[i])
  {
    var p := SortOrder(less, s);
    SortMultiset(less, s);
    assert Before(less, s, p[i], p[j]);
    BeforeAsym(less, s, p[i], p[j]);
    assert s[p[i]] in s && s[p[j]] in s;
  }

  /** Strictly increasing sequences with the same elements are equal. */
  lemma {:induction false} IncreasingUnique<T(!new)>(less: (T, T) -> bool, t: seq<T>, u: seq<T>, k: nat)
    requires forall i, j :: 0 <= i < j < |t| ==> less(t[i], t[j])
    requires forall i, j :: 0 <= i < j < |u| ==> less(u[i], u[j])
    requires forall x :: x in t <==> x in u
    requires forall x, y :: x in t && y in t && less(x, y) ==> !less(y, x)
    requires k <= |t| && k <= |u|
    ensures t[..k] == u[..k]
  {
    if k > 0 {
      IncreasingUnique(less, t, u, k - 1);
      assert forall i :: 0 <= i < k - 1 ==> t[i] == t[..k - 1][i] == u[..k - 1][i] == u[i];
      var a, b := t[k - 1], u[k - 1];
      assert a in u && b in t;
      var i :| 0 <= i < |u| && u[i] == a;
      var j :| 0 <= j < |t| && t[j] == b;
      assert i >= k - 1 && j >= k - 1;
      assert t[..k] == t[..k - 1] + [a] && u[..k] == u[..k - 1] + [b];
    }
  }

  lemma {:induction false} IncreasingSame<T(!new)>(less: (T, T) -> bool, t: seq<T>, u: seq<T>)
    requires forall i, j :: 0 <= i < j < |t| ==> less(t[i], t[j])
    requires forall i, j :: 0 <= i < j < |u| ==> less(u[i], u[j])
    requires forall x :: x in t <==> x in u
    requires forall x, y :: x in t && y in t && less(x, y) ==> !less(y, x)
    ensures t == u
  {
    var k := if |t| <= |u| then |t| else |u|;
    assert |t| < |u| ==> u[|t|] in t;
    assert |u| < |t| ==> t[|u|] in u;
    IncreasingUnique(less, t, u, k);
    assert t[..|t|] == t && u[..|u|] == u;
  }

  lemma {:induction false} InsertMultiset<T>(less: (T, T) -> bool, x: T, s: seq<T>)
    ensures multiset(Insert(less, x, s)) == multiset(s) + multiset{x}
  {
    if s != [] {
      InsertMultiset(less, x, s[..|s| - 1]);
      assert s == s[..|s| - 1] + [s[|s| - 1]];
    }
  }

  /** Sorting only rearranges, even when less is no order at all. */
  lemma {:induction false} SortMultiset<T>(less: (T, T) -> bool, s: seq<T>)
    ensures multiset(StableSort(less, s)) == multiset(s) && |StableSort(less, s)| == |s|
  {
    if s != [] {
      SortMultiset(less, s[..|s| - 1]);
      InsertMultiset(less, s[|s| - 1], StableSort(less, s[..|s| - 1]));
      assert s == s[..|s| - 1] + [s[|s| - 1]];
    }
    assert |multiset(StableSort(less, s))| == |multiset(s)|;
  }
}
