/** The promises of the whole plugin order: when it exists, that it is unique and least, and what cannot influence it. */
module PluginStagesProofs {
  import opened Common
  import opened PluginOrder
  import opened PluginOrderProofs
  import opened PluginStages

  /** Ordering succeeds exactly when no stage has a cycle among its own constraints. */
  lemma {:induction false} OrdersIffEveryStageAcyclic(cfgs: seq<PluginConfig>, stages: seq<Stage>)
    requires |stages| == |cfgs|
    ensures (forall stage :: Sorted(cfgs, stages, stage).Some?) <==>
            (forall stage :: Indexes(stages, StageIds(stages, stage)) && Acyclic(Edges(cfgs, StageIds(stages, stage))))
  {
    forall stage
      ensures Indexes(stages, StageIds(stages, stage))
      ensures Sorted(cfgs, stages, stage).Some? <==> Acyclic(Edges(cfgs, StageIds(stages, stage)))
    {
      StageIdsFacts(stages, stage);
      SortsIffAcyclic(cfgs, StageIds(stages, stage));
    }
  }

  /** What configuration validation guarantees about stages. */
  ghost predicate AllStandard(stages: seq<Stage>) {
    forall i :: 0 <= i < |stages| ==> !stages[i].Other?
  }

  function InOrder(stages: seq<Stage>, o: seq<int>): seq<int>
    requires Indexes(stages, o)
  {
    InStage(stages, o, Deny) + InStage(stages, o, Route) + InStage(stages, o, Mutate)
  }

  lemma InStageSnoc(stages: seq<Stage>, t: seq<int>, x: int, stage: Stage)
    requires Indexes(stages, t) && 0 <= x < |stages|
    ensures InStage(stages, t + [x], stage) == if stages[x] == stage then InStage(stages, t, stage) + [x] else InStage(stages, t, stage)
  {
    assert (t + [x])[..|t|] == t;
  }

  lemma InOrderSnoc(stages: seq<Stage>, t: seq<int>, x: int)
    requires Indexes(stages, t) && 0 <= x < |stages| && !stages[x].Other?
    requires forall i :: 0 <= i < |t| ==> stages[t[i]].Rank() <= stages[x].Rank()
    ensures InOrder(stages, t + [x]) == InOrder(stages, t) + [x]
  {
    InStageSnoc(stages, t, x, Deny);
    InStageSnoc(stages, t, x, Route);
    InStageSnoc(stages, t, x, Mutate);
    if stages[x].Rank() < 1 {
      NoneOfStage(stages, t, Route);
    }
    if stages[x].Rank() < 2 {
      NoneOfStage(stages, t, Mutate);
    }
    Rotate(InStage(stages, t, Deny), InStage(stages, t, Route), InStage(stages, t, Mutate), x);
  }

  lemma Rotate(d: seq<int>, r: seq<int>, m: seq<int>, x: int)
    ensures d + r + (m + [x]) == d + r + m + [x]
    ensures m == [] ==> d + (r + [x]) + m == d + r + m + [x]
    ensures m == [] && r == [] ==> (d + [x]) + r + m == d + r + m + [x]
  {
  }

  lemma {:induction false} SplitByStage(stages: seq<Stage>, o: seq<int>)
    requires AllStandard(stages) && Indexes(stages, o) && RankSorted(stages, o)
    ensures o == InOrder(stages, o)
  {
    if o != [] {
      var t, x := o[..|o| - 1], o[|o| - 1];
      SplitByStage(stages, t);
      assert o == t + [x];
      InOrderSnoc(stages, t, x);
    }
  }

  /** With standard stages only, the order is determined by the configuration. */
  lemma {:induction false} ArrangementUnique(cfgs: seq<PluginConfig>, stages: seq<Stage>, o: seq<int>, q: seq<int>)
    requires AllStandard(stages) && Arranges(cfgs, stages, o) && Arranges(cfgs, stages, q)
    ensures o == q
  {
    SplitByStage(stages, o);
    SplitByStage(stages, q);
    forall stage
      ensures InStage(stages, o, stage) == InStage(stages, q, stage)
    {
      assert Sorted(cfgs, stages, stage) == Some(InStage(stages, o, stage));
    }
  }

  // ---------- the least of all acceptable orders ----------

  /** Runs every plugin once, stage by stage, and meets the constraints inside each stage. */
  ghost predicate Acceptable(cfgs: seq<PluginConfig>, stages: seq<Stage>, q: seq<int>) {
    && |stages| == |cfgs| && Permutes(|cfgs|, q) && Indexes(stages, q) && RankSorted(stages, q)
    && forall stage :: Indexes(stages, StageIds(stages, stage)) ==> Meets(Edges(cfgs, StageIds(stages, stage)), q)
  }

  ghost predicate Meets(es: seq<Edge>, q: seq<int>) {
    forall e, i, j :: e in es && 0 <= i < |q| && 0 <= j < |q| && q[i] == e.from && q[j] == e.to ==> i < j
  }

  /** o is q, or is smaller at the first position where they differ. */
  ghost predicate AtMost(o: seq<int>, q: seq<int>) {
    o == q || exists k :: 0 <= k < |o| && k < |q| && o[..k] == q[..k] && o[k] < q[k]
  }

  lemma {:induction false} AtMostConcat(a: seq<int>, a': seq<int>, b: seq<int>, b': seq<int>)
    requires |a| == |a'| && AtMost(a, a') && AtMost(b, b')
    ensures AtMost(a + b, a' + b')
  {
    var o, q := a + b, a' + b';
    if a != a' {
      var k :| 0 <= k < |a| && k < |a'| && a[..k] == a'[..k] && a[k] < a'[k];
      assert o[..k] == a[..k] && q[..k] == a'[..k];
      assert o[k] < q[k];
    } else if b != b' {
      var k :| 0 <= k < |b| && k < |b'| && b[..k] == b'[..k] && b[k] < b'[k];
      var n := |a| + k;
      assert o[..n] == a + b[..k] && q[..n] == a + b'[..k];
      assert o[n] == b[k] && q[n] == b'[k];
    }
  }

  lemma PrecedesLonger(t: seq<int>, x: int, a: int, b: int)
    requires Precedes(t, a, b)
    ensures Precedes(t + [x], a, b)
  {
    var i, j :| 0 <= i < j < |t| && t[i] == a && t[j] == b;
    assert (t + [x])[i] == a && (t + [x])[j] == b;
  }

  lemma PrecedesLast(t: seq<int>, x: int, a: int)
    requires a in t
    ensures Precedes(t + [x], a, x)
  {
    var i :| 0 <= i < |t| && t[i] == a;
    assert (t + [x])[i] == a && (t + [x])[|t|] == x;
  }

  /** Members of one stage keep their relative order. */
  lemma {:induction false} InStageOrdered(stages: seq<Stage>, q: seq<int>, stage: Stage)
    requires Indexes(stages, q)
    ensures forall x :: x in InStage(stages, q, stage) <==> x in q && 0 <= x < |stages| && stages[x] == stage
    ensures forall a, b :: 0 <= a < b < |InStage(stages, q, stage)| ==>
              Precedes(q, InStage(stages, q, stage)[a], InStage(stages, q, stage)[b])
  {
    if q != [] {
      var t, x := q[..|q| - 1], q[|q| - 1];
      InStageOrdered(stages, t, stage);
      assert q == t + [x];
      var s := InStage(stages, q, stage);
      var r := InStage(stages, t, stage);
      assert r <= s && |s| <= |r| + 1 && (|s| == |r| + 1 ==> s[|r|] == x);
      forall a, b | 0 <= a < b < |s|
        ensures Precedes(q, s[a], s[b])
      {
        assert s[a] == r[a];
        if b < |r| {
          assert s[b] == r[b];
          PrecedesLonger(t, x, s[a], s[b]);
        } else {
          assert r[a] in r && s[b] == x;
          PrecedesLast(t, x, s[a]);
        }
      }
    }
  }

  lemma {:induction false} OrderKept(stages: seq<Stage>, q: seq<int>, stage: Stage, a: nat, b: nat, i: nat, j: nat)
    requires Indexes(stages, q) && Distinct(q)
    requires a < |InStage(stages, q, stage)| && b < |InStage(stages, q, stage)| && i < |q| && j < |q|
    requires q[i] == InStage(stages, q, stage)[a] && q[j] == InStage(stages, q, stage)[b]
    ensures a < b ==> i < j
  {
    InStageOrdered(stages, q, stage);
  }

  lemma {:induction false} InStageDistinct(stages: seq<Stage>, q: seq<int>, stage: Stage)
    requires Indexes(stages, q) && Distinct(q)
    ensures Distinct(InStage(stages, q, stage))
  {
    InStageOrdered(stages, q, stage);
    var s := InStage(stages, q, stage);
    forall a, b | 0 <= a < b < |s|
      ensures s[a] != s[b]
    {
      assert Precedes(q, s[a], s[b]);
      var i, j :| 0 <= i < j < |q| && q[i] == s[a] && q[j] == s[b];
    }
  }

  lemma {:induction false} InStageMeets(stages: seq<Stage>, q: seq<int>, stage: Stage, es: seq<Edge>)
    requires Indexes(stages, q) && Distinct(q) && Meets(es, q)
    ensures Meets(es, InStage(stages, q, stage))
  {
    var s := InStage(stages, q, stage);
    InStageOrdered(stages, q, stage);
    forall e, a, b | e in es && 0 <= a < |s| && 0 <= b < |s| && s[a] == e.from && s[b] == e.to
      ensures a < b
    {
      assert s[a] in s && s[b] in s;
      assert s[a] in q && s[b] in q;
      var i :| 0 <= i < |q| && q[i] == s[a];
      var j :| 0 <= j < |q| && q[j] == s[b];
      assert i < j;
      OrderKept(stages, q, stage, b, a, j, i);
    }
  }

  lemma {:induction false} StageOfAcceptable(cfgs: seq<PluginConfig>, stages: seq<Stage>, q: seq<int>, stage: Stage)
    requires Acceptable(cfgs, stages, q)
    ensures Indexes(stages, StageIds(stages, stage))
    ensures LinearExtension(Edges(cfgs, StageIds(stages, stage)), StageIds(stages, stage), InStage(stages, q, stage))
  {
    var ids, s := StageIds(stages, stage), InStage(stages, q, stage);
    StageIdsFacts(stages, stage);
    InStageOrdered(stages, q, stage);
    InStageDistinct(stages, q, stage);
    SameElements(s, ids);
    InStageMeets(stages, q, stage, Edges(cfgs, ids));
  }

  lemma SameElements(s: seq<int>, ids: seq<int>)
    requires Distinct(s) && Distinct(ids) && forall x :: x in s <==> x in ids
    ensures |s| == |ids|
  {
    assert forall i :: 0 <= i < |s| ==> s[i] in s;
    assert forall i :: 0 <= i < |ids| ==> ids[i] in ids;
    Pigeonhole(s, ids);
    Pigeonhole(ids, s);
  }

  lemma {:induction false} StageAtMost(cfgs: seq<PluginConfig>, stages: seq<Stage>, q: seq<int>, stage: Stage)
    requires Acceptable(cfgs, stages, q)
    ensures Sorted(cfgs, stages, stage).Some?
    ensures |Sorted(cfgs, stages, stage).value| == |InStage(stages, q, stage)|
    ensures AtMost(Sorted(cfgs, stages, stage).value, InStage(stages, q, stage))
  {
    var ids, s := StageIds(stages, stage), InStage(stages, q, stage);
    StageOfAcceptable(cfgs, stages, q, stage);
    StageIdsFacts(stages, stage);
    IdsBelowFacts(stages, stage, |stages|);
    StageOrderIsLeast(cfgs, ids, s);
    var o := Sorted(cfgs, stages, stage).value;
    if o != s {
      var k :| 0 <= k < |o| && k < |s| && o[..k] == s[..k] && Precedes(ids, o[k], s[k]);
      assert o[k] < s[k];
    }
  }

  /** Of all orders that run the stages in sequence and meet every in-stage constraint, the arrangement is the
      lexicographically least by configuration position; and it exists whenever any such order does. */
  lemma {:induction false} ArrangementIsLeast(cfgs: seq<PluginConfig>, stages: seq<Stage>, q: seq<int>)
    requires AllStandard(stages) && Acceptable(cfgs, stages, q)
    ensures forall stage :: Sorted(cfgs, stages, stage).Some?
    ensures forall o :: Arranges(cfgs, stages, o) ==> AtMost(o, q)
  {
    forall stage
      ensures Sorted(cfgs, stages, stage).Some?
    {
      StageAtMost(cfgs, stages, q, stage);
    }
    forall o | Arranges(cfgs, stages, o)
      ensures AtMost(o, q)
    {
      SplitByStage(stages, o);
      SplitByStage(stages, q);
      StageAtMost(cfgs, stages, q, Deny);
      StageAtMost(cfgs, stages, q, Route);
      StageAtMost(cfgs, stages, q, Mutate);
      assert forall stage :: Sorted(cfgs, stages, stage) == Some(InStage(stages, o, stage));
      AtMostConcat(InStage(stages, o, Deny), InStage(stages, q, Deny), InStage(stages, o, Route), InStage(stages, q, Route));
      AtMostConcat(InStage(stages, o, Deny) + InStage(stages, o, Route), InStage(stages, q, Deny) + InStage(stages, q, Route),
                   InStage(stages, o, Mutate), InStage(stages, q, Mutate));
    }
  }

  // ---------- constraints that cross stages ----------

  function Known(deps: seq<string>, names: set<string>): seq<string> {
    if deps == [] then []
    else if deps[|deps| - 1] in names then Known(deps[..|deps| - 1], names) + [deps[|deps| - 1]]
    else Known(deps[..|deps| - 1], names)
  }

  /** Drops from every plugin the constraints that name a plugin outside the given names. */
  function Localized(cfgs: seq<PluginConfig>, names: set<string>): seq<PluginConfig> {
    seq(|cfgs|, i requires 0 <= i < |cfgs| =>
      cfgs[i].(before := Known(cfgs[i].before, names), after := Known(cfgs[i].after, names)))
  }

  lemma {:induction false} KnownEdges(names: map<string, int>, idx: int, deps: seq<string>)
    ensures AfterEdges(names, idx, Known(deps, names.Keys)) == AfterEdges(names, idx, deps)
    ensures BeforeEdges(names, idx, Known(deps, names.Keys)) == BeforeEdges(names, idx, deps)
  {
    if deps != [] {
      var t := deps[..|deps| - 1];
      KnownEdges(names, idx, t);
      if deps[|deps| - 1] in names {
        assert Known(deps, names.Keys)[..|Known(deps, names.Keys)| - 1] == Known(t, names.Keys);
      } else {
        assert AfterEdges(names, idx, t) + [] == AfterEdges(names, idx, t);
        assert BeforeEdges(names, idx, t) + [] == BeforeEdges(names, idx, t);
      }
    }
  }

  lemma {:induction false} LocalizedNames(cfgs: seq<PluginConfig>, names: set<string>, ids: seq<int>)
    requires InRange(cfgs, ids)
    ensures NameToIdx(Localized(cfgs, names), ids) == NameToIdx(cfgs, ids)
  {
    if ids != [] {
      LocalizedNames(cfgs, names, ids[..|ids| - 1]);
    }
  }

  lemma {:induction false} LocalizedEdges(cfgs: seq<PluginConfig>, names: map<string, int>, ids: seq<int>)
    requires InRange(cfgs, ids)
    ensures EdgesOf(Localized(cfgs, names.Keys), names, ids) == EdgesOf(cfgs, names, ids)
  {
    if ids != [] {
      var idx := ids[|ids| - 1];
      LocalizedEdges(cfgs, names, ids[..|ids| - 1]);
      KnownEdges(names, idx, cfgs[idx].after);
      KnownEdges(names, idx, cfgs[idx].before);
    }
  }

  /** Constraints that name plugins of another stage, or no plugin at all, have no effect on a stage's order. */
  lemma {:induction false} ForeignConstraintsIgnored(cfgs: seq<PluginConfig>, ids: seq<int>)
    requires ValidIds(cfgs, ids)
    ensures StageOrder(Localized(cfgs, NameToIdx(cfgs, ids).Keys), ids) == StageOrder(cfgs, ids)
  {
    var names := NameToIdx(cfgs, ids);
    LocalizedNames(cfgs, names.Keys, ids);
    LocalizedEdges(cfgs, names, ids);
  }
}
