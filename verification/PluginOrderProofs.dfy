/** What the greedy order promises: it fails exactly on a cycle, and otherwise yields the
    lexicographically least order that meets every constraint. */
module PluginOrderProofs {
  import opened Common
  import opened PluginOrder

  // ---------- edges stay inside the stage ----------

  /** A name stands for the last plugin of the stage that bears it. */
  lemma {:induction false} LastBearer(cfgs: seq<PluginConfig>, ids: seq<int>, n: string) returns (j: nat)
    requires InRange(cfgs, ids) && n in NameToIdx(cfgs, ids)
    ensures j < |ids| && ids[j] == NameToIdx(cfgs, ids)[n] && cfgs[ids[j]].name == n
    ensures forall i :: j < i < |ids| ==> cfgs[ids[i]].name != n
  {
    j := |ids| - 1;
    if cfgs[ids[j]].name != n {
      j := LastBearer(cfgs, ids[..|ids| - 1], n);
    }
  }

  /** The names known in a stage are the names of its plugins. */
  lemma {:induction false} NamesAreIds(cfgs: seq<PluginConfig>, ids: seq<int>)
    requires InRange(cfgs, ids)
    ensures forall n :: n in NameToIdx(cfgs, ids) ==> NameToIdx(cfgs, ids)[n] in ids
    ensures forall i :: 0 <= i < |ids| ==> cfgs[ids[i]].name in NameToIdx(cfgs, ids)
  {
    if ids != [] {
      NamesAreIds(cfgs, ids[..|ids| - 1]);
    }
  }

  lemma {:induction false} DeclaredEdges(names: map<string, int>, idx: int, deps: seq<string>, e: Edge)
    ensures e in AfterEdges(names, idx, deps) <==> e.to == idx && exists d :: d in deps && d in names && names[d] == e.from
    ensures e in BeforeEdges(names, idx, deps) <==> e.from == idx && exists d :: d in deps && d in names && names[d] == e.to
  {
    if deps != [] {
      var t, d := deps[..|deps| - 1], deps[|deps| - 1];
      DeclaredEdges(names, idx, t, e);
      assert forall x :: x in deps <==> x in t || x == d;
    }
  }

  /** a must run before b: b lists a's name under "after", or a lists b's name under "before". */
  ghost predicate Declared(cfgs: seq<PluginConfig>, names: map<string, int>, a: int, b: int)
    requires 0 <= a < |cfgs| && 0 <= b < |cfgs|
  {
    || (exists d :: d in cfgs[b].after && d in names && names[d] == a)
    || (exists d :: d in cfgs[a].before && d in names && names[d] == b)
  }

  lemma {:induction false} EdgesOfExact(cfgs: seq<PluginConfig>, names: map<string, int>, ids: seq<int>, e: Edge)
    requires InRange(cfgs, ids) && 0 <= e.from < |cfgs| && 0 <= e.to < |cfgs|
    ensures e in EdgesOf(cfgs, names, ids) <==>
            || (e.to in ids && exists d :: d in cfgs[e.to].after && d in names && names[d] == e.from)
            || (e.from in ids && exists d :: d in cfgs[e.from].before && d in names && names[d] == e.to)
  {
    if ids != [] {
      var t, idx := ids[..|ids| - 1], ids[|ids| - 1];
      EdgesOfExact(cfgs, names, t, e);
      DeclaredEdges(names, idx, cfgs[idx].after, e);
      DeclaredEdges(names, idx, cfgs[idx].before, e);
      assert forall x :: x in ids <==> x in t || x == idx;
    }
  }

  /** The edges of a stage are exactly the before/after declarations between its members. */
  lemma {:induction false} EdgesExact(cfgs: seq<PluginConfig>, ids: seq<int>, a: int, b: int)
    requires InRange(cfgs, ids) && a in ids && b in ids
    ensures 0 <= a < |cfgs| && 0 <= b < |cfgs|
    ensures Edge(a, b) in Edges(cfgs, ids) <==> Declared(cfgs, NameToIdx(cfgs, ids), a, b)
  {
    EdgesOfExact(cfgs, NameToIdx(cfgs, ids), ids, Edge(a, b));
  }

  lemma {:induction false} AfterEdgesWithin(names: map<string, int>, idx: int, deps: seq<string>, ids: seq<int>)
    requires idx in ids && forall n :: n in names ==> names[n] in ids
    ensures Within(AfterEdges(names, idx, deps), ids)
  {
    if deps != [] {
      AfterEdgesWithin(names, idx, deps[..|deps| - 1], ids);
    }
  }

  lemma {:induction false} BeforeEdgesWithin(names: map<string, int>, idx: int, deps: seq<string>, ids: seq<int>)
    requires idx in ids && forall n :: n in names ==> names[n] in ids
    ensures Within(BeforeEdges(names, idx, deps), ids)
  {
    if deps != [] {
      BeforeEdgesWithin(names, idx, deps[..|deps| - 1], ids);
    }
  }

  lemma {:induction false} EdgesOfWithin(cfgs: seq<PluginConfig>, names: map<string, int>, part: seq<int>, ids: seq<int>)
    requires InRange(cfgs, part) && forall n :: n in names ==> names[n] in ids
    requires forall i :: 0 <= i < |part| ==> part[i] in ids
    ensures Within(EdgesOf(cfgs, names, part), ids)
  {
    if part != [] {
      var idx := part[|part| - 1];
      EdgesOfWithin(cfgs, names, part[..|part| - 1], ids);
      AfterEdgesWithin(names, idx, cfgs[idx].after, ids);
      BeforeEdgesWithin(names, idx, cfgs[idx].before, ids);
    }
  }

  lemma {:induction false} EdgesWithin(cfgs: seq<PluginConfig>, ids: seq<int>)
    requires InRange(cfgs, ids)
    ensures Within(Edges(cfgs, ids), ids)
  {
    NamesAreIds(cfgs, ids);
    EdgesOfWithin(cfgs, NameToIdx(cfgs, ids), ids, ids);
  }

  // ---------- soundness ----------

  /** out lists members of ids in an order that already meets every constraint among them. */
  ghost predicate Partial(es: seq<Edge>, ids: seq<int>, out: seq<int>) {
    && Distinct(out) && (forall i :: 0 <= i < |out| ==> out[i] in ids)
    && forall e, j :: e in es && 0 <= j < |out| && out[j] == e.to ==> e.from in out[..j]
  }

  lemma {:induction false} FirstReadyIsLeast(es: seq<Edge>, ids: seq<int>, out: seq<int>)
    ensures match FirstReady(es, ids, out)
            case None => forall y :: y in ids && y !in out ==> Blocked(es, out, y)
            case Some(x) =>
              && x in ids && x !in out && !Blocked(es, out, x)
              && forall y :: y in ids && y !in out && !Blocked(es, out, y) && y != x ==> Precedes(ids, x, y)
  {
    if ids != [] {
      FirstReadyIsLeast(es, ids[1..], out);
      match FirstReady(es, ids, out) {
        case None =>
          assert forall y :: y in ids ==> y == ids[0] || y in ids[1..];
        case Some(x) =>
          forall y | y in ids && y !in out && !Blocked(es, out, y) && y != x
            ensures Precedes(ids, x, y)
          {
            if x == ids[0] && ids[0] !in out && !Blocked(es, out, ids[0]) {
              var j :| 0 <= j < |ids| && ids[j] == y;
              assert ids[0] == x && ids[j] == y;
            } else {
              assert y in ids[1..];
              var i, j :| 0 <= i < j < |ids[1..]| && ids[1..][i] == x && ids[1..][j] == y;
              assert ids[i + 1] == x && ids[j + 1] == y;
            }
          }
      }
    }
  }

  lemma {:induction false} PartialStep(es: seq<Edge>, ids: seq<int>, out: seq<int>, x: int)
    requires Partial(es, ids, out) && x in ids && x !in out && !Blocked(es, out, x)
    ensures Partial(es, ids, out + [x])
  {
    var next := out + [x];
    forall e, j | e in es && 0 <= j < |next| && next[j] == e.to
      ensures e.from in next[..j]
    {
      if j < |out| {
        assert next[..j] == out[..j];
      } else {
        assert next[..j] == out;
      }
    }
  }

  lemma {:induction false} GreedyIsPartial(es: seq<Edge>, ids: seq<int>, out: seq<int>)
    requires Distinct(ids) && Partial(es, ids, out)
    ensures Greedy(es, ids, out).Some? ==>
              && Partial(es, ids, Greedy(es, ids, out).value) && out <= Greedy(es, ids, out).value
              && |Greedy(es, ids, out).value| == |ids|
    decreases |ids| - |out|
  {
    Pigeonhole(out, ids);
    if |out| < |ids| {
      FirstReadyIsLeast(es, ids, out);
      var f := FirstReady(es, ids, out);
      if f.Some? {
        PartialStep(es, ids, out, f.value);
        GreedyIsPartial(es, ids, out + [f.value]);
      }
    }
  }

  /** A successful sort is a permutation of ids that meets every constraint. */
  lemma {:induction false} GreedySound(es: seq<Edge>, ids: seq<int>)
    requires Distinct(ids)
    ensures Greedy(es, ids, []).Some? ==> LinearExtension(es, ids, Greedy(es, ids, []).value)
  {
    GreedyIsPartial(es, ids, []);
    if Greedy(es, ids, []).Some? {
      var o := Greedy(es, ids, []).value;
      Pigeonhole(o, ids);
      forall e, i, j | e in es && 0 <= i < |o| && 0 <= j < |o| && o[i] == e.from && o[j] == e.to
        ensures i < j
      {
        assert e.from in o[..j];
        var k :| 0 <= k < j && o[k] == e.from;
        assert Distinct(o) && o[k] == o[i];
      }
    }
  }

  // ---------- stuck means cyclic ----------

  ghost predicate Walk(es: seq<Edge>, p: seq<int>) {
    forall i :: 0 <= i < |p| - 1 ==> Edge(p[i], p[i + 1]) in es
  }

  /** When every unprocessed plugin waits, one can walk backwards along edges for as long as one likes. */
  lemma {:induction false} LongWalk(es: seq<Edge>, ids: seq<int>, out: seq<int>, x: int, n: nat) returns (p: seq<int>)
    requires Within(es, ids) && x in ids && x !in out
    requires forall y :: y in ids && y !in out ==> Blocked(es, out, y)
    ensures |p| == n + 1 && Walk(es, p) && p[0] !in out
    ensures forall i :: 0 <= i < |p| ==> p[i] in ids
  {
    p := [x];
    for k := 0 to n
      invariant |p| == k + 1 && Walk(es, p) && p[0] !in out
      invariant forall i :: 0 <= i < |p| ==> p[i] in ids
    {
      var e :| e in es && e.to == p[0] && e.from !in out;
      assert e == Edge(e.from, p[0]);
      p := [e.from] + p;
    }
  }

  lemma {:induction false} LongWalkHasCycle(es: seq<Edge>, ids: seq<int>, p: seq<int>)
    requires Distinct(ids) && Walk(es, p) && |p| > |ids|
    requires forall i :: 0 <= i < |p| ==> p[i] in ids
    ensures !Acyclic(es)
  {
    if Distinct(p) {
      Pigeonhole(p, ids);
    }
    var i, j :| 0 <= i < j < |p| && p[i] == p[j];
    var c := p[i..j + 1];
    forall k | 0 <= k < |c| - 1
      ensures Edge(c[k], c[k + 1]) in es
    {
      assert Edge(p[i + k], p[i + k + 1]) in es;
    }
    assert IsCycle(es, c);
  }

  lemma {:induction false} StuckIsCyclic(es: seq<Edge>, ids: seq<int>, out: seq<int>)
    requires Distinct(ids) && Within(es, ids) && Partial(es, ids, out) && |out| < |ids|
    requires FirstReady(es, ids, out).None?
    ensures !Acyclic(es)
  {
    FirstReadyIsLeast(es, ids, out);
    if forall x :: x in ids ==> x in out {
      Pigeonhole(ids, out);
    }
    var x :| x in ids && x !in out;
    var p := LongWalk(es, ids, out, x, |ids|);
    LongWalkHasCycle(es, ids, p);
  }

  lemma {:induction false} GreedyComplete(es: seq<Edge>, ids: seq<int>, out: seq<int>)
    requires Distinct(ids) && Within(es, ids) && Partial(es, ids, out)
    ensures Acyclic(es) ==> Greedy(es, ids, out).Some?
    decreases |ids| - |out|
  {
    if |out| < |ids| {
      FirstReadyIsLeast(es, ids, out);
      match FirstReady(es, ids, out) {
        case None => StuckIsCyclic(es, ids, out);
        case Some(x) =>
          PartialStep(es, ids, out, x);
          GreedyComplete(es, ids, out + [x]);
      }
    }
  }

  // ---------- an order rules cycles out ----------

  lemma {:induction false} WalkClimbs(es: seq<Edge>, ids: seq<int>, o: seq<int>, p: seq<int>, n: nat, i: nat) returns (j: nat)
    requires Within(es, ids) && LinearExtension(es, ids, o) && Walk(es, p) && 0 <= n < |p|
    requires i < |o| && o[i] == p[0]
    ensures j < |o| && o[j] == p[n] && i <= j && (n > 0 ==> i < j)
  {
    if n == 0 {
      j := i;
    } else {
      var k := WalkClimbs(es, ids, o, p, n - 1, i);
      var e := Edge(p[n - 1], p[n - 1 + 1]);
      assert e in es && p[n] in o;
      j :| 0 <= j < |o| && o[j] == p[n];
      assert k < j;
    }
  }

  lemma {:induction false} OrderedIsAcyclic(es: seq<Edge>, ids: seq<int>, o: seq<int>)
    requires Within(es, ids) && LinearExtension(es, ids, o)
    ensures Acyclic(es)
  {
    forall p
      ensures !IsCycle(es, p)
    {
      if IsCycle(es, p) {
        assert Edge(p[0], p[0 + 1]) in es;
        assert p[0] in o;
        var i :| 0 <= i < |o| && o[i] == p[0];
        var j := WalkClimbs(es, ids, o, p, |p| - 1, i);
      }
    }
  }

  /** The sort of a stage succeeds if and only if its constraints, duplicates and self-loops included, have no cycle. */
  lemma {:induction false} SortsIffAcyclic(cfgs: seq<PluginConfig>, ids: seq<int>)
    requires ValidIds(cfgs, ids)
    ensures StageOrder(cfgs, ids).Some? <==> Acyclic(Edges(cfgs, ids))
  {
    var es := Edges(cfgs, ids);
    EdgesWithin(cfgs, ids);
    GreedyComplete(es, ids, []);
    GreedySound(es, ids);
    if Greedy(es, ids, []).Some? {
      OrderedIsAcyclic(es, ids, Greedy(es, ids, []).value);
    }
  }

  // ---------- optimality ----------

  lemma {:induction false} GreedyLeast(es: seq<Edge>, ids: seq<int>, out: seq<int>, q: seq<int>)
    requires Distinct(ids) && Within(es, ids) && Partial(es, ids, out)
    requires LinearExtension(es, ids, q) && out <= q
    ensures Greedy(es, ids, out).Some?
    ensures Greedy(es, ids, out).value == q || LexLess(ids, Greedy(es, ids, out).value, q)
    decreases |ids| - |out|
  {
    if |out| < |ids| {
      var k := |out|;
      var y := q[k];
      assert y !in out && !Blocked(es, out, y) by {
        NextIsReady(es, ids, out, q);
      }
      FirstReadyIsLeast(es, ids, out);
      var x := FirstReady(es, ids, out).value;
      PartialStep(es, ids, out, x);
      if x == y {
        GreedyLeast(es, ids, out + [x], q);
      } else {
        OrderedIsAcyclic(es, ids, q);
        GreedyComplete(es, ids, out + [x]);
        GreedyIsPartial(es, ids, out + [x]);
        var o := Greedy(es, ids, out).value;
        assert o[..k + 1] == out + [x];
        assert o[..k] == out == q[..k] && Precedes(ids, o[k], q[k]);
      }
    }
  }

  lemma {:induction false} NextIsReady(es: seq<Edge>, ids: seq<int>, out: seq<int>, q: seq<int>)
    requires Within(es, ids) && LinearExtension(es, ids, q) && out <= q && |out| < |q|
    ensures q[|out|] !in out && !Blocked(es, out, q[|out|])
  {
    var k := |out|;
    assert forall i :: 0 <= i < k ==> out[i] == q[i];
    forall e | e in es && e.to == q[k]
      ensures e.from in out
    {
      var i :| 0 <= i < |q| && q[i] == e.from;
      assert i < k;
      assert out[i] == e.from;
    }
  }

  /** Among all orders that meet the constraints, the sort returns the least, comparing by configuration position. */
  lemma {:induction false} StageOrderIsLeast(cfgs: seq<PluginConfig>, ids: seq<int>, q: seq<int>)
    requires ValidIds(cfgs, ids) && LinearExtension(Edges(cfgs, ids), ids, q)
    ensures StageOrder(cfgs, ids).Some? && LinearExtension(Edges(cfgs, ids), ids, StageOrder(cfgs, ids).value)
    ensures StageOrder(cfgs, ids).value == q || LexLess(ids, StageOrder(cfgs, ids).value, q)
  {
    EdgesWithin(cfgs, ids);
    GreedyLeast(Edges(cfgs, ids), ids, [], q);
    GreedySound(Edges(cfgs, ids), ids);
  }
}
