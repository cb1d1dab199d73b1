/** The order of all plugins: stage by stage, each stage sorted by its own constraints. */
module PluginStages {
  import opened Common
  import opened PluginOrder
  import opened PluginOrderProofs
  import Text

  /** A stage name after lower-casing; the three standard stages have names of their own. */
  datatype Stage = Deny | Route | Mutate | Other(name: string) {
    /** The stages' running order; stages other than the three standard ones come last. */
    function Rank(): nat {
      match this
      case Deny => 0
      case Route => 1
      case Mutate => 2
      case Other(_) => 3
    }
  }

  /** The stage a plugin runs in; an omitted stage means "route". */
  function StageOf(p: PluginConfig): Stage {
    var stage := Text.ToLower(p.stage);
    if stage == "" then Route
    else if stage == "deny" then Deny
    else if stage == "route" then Route
    else if stage == "mutate" then Mutate
    else Other(stage)
  }

  /** The stage of each plugin. Everything below works on these, whatever they are. */
  function Stages(cfgs: seq<PluginConfig>): seq<Stage> {
    seq(|cfgs|, i requires 0 <= i < |cfgs| => StageOf(cfgs[i]))
  }

  ghost predicate Indexes(stages: seq<Stage>, o: seq<int>) {
    forall i :: 0 <= i < |o| ==> 0 <= o[i] < |stages|
  }

  /** Positions below n of the plugins of one stage, in configuration order. */
  function IdsBelow(stages: seq<Stage>, stage: Stage, n: nat): seq<int>
    requires n <= |stages|
  {
    if n == 0 then []
    else if stages[n - 1] == stage then IdsBelow(stages, stage, n - 1) + [n - 1]
    else IdsBelow(stages, stage, n - 1)
  }

  function StageIds(stages: seq<Stage>, stage: Stage): seq<int> {
    IdsBelow(stages, stage, |stages|)
  }

  lemma {:induction false} IdsBelowFacts(stages: seq<Stage>, stage: Stage, n: nat)
    requires n <= |stages|
    ensures forall i, j :: 0 <= i < j < |IdsBelow(stages, stage, n)| ==>
              IdsBelow(stages, stage, n)[i] < IdsBelow(stages, stage, n)[j]
    ensures forall x :: x in IdsBelow(stages, stage, n) <==> 0 <= x < n && stages[x] == stage
  {
    if n > 0 {
      IdsBelowFacts(stages, stage, n - 1);
      var s := IdsBelow(stages, stage, n - 1);
      assert forall i :: 0 <= i < |s| ==> s[i] in s;
    }
  }

  lemma {:induction false} StageIdsFacts(stages: seq<Stage>, stage: Stage)
    ensures Distinct(StageIds(stages, stage)) && Indexes(stages, StageIds(stages, stage))
    ensures forall x :: x in StageIds(stages, stage) <==> 0 <= x < |stages| && stages[x] == stage
  {
    IdsBelowFacts(stages, stage, |stages|);
    var s := StageIds(stages, stage);
    assert forall i :: 0 <= i < |s| ==> s[i] in s;
  }

  /** The sorted order of one stage. */
  ghost function Sorted(cfgs: seq<PluginConfig>, stages: seq<Stage>, stage: Stage): Option<seq<int>>
    requires |stages| == |cfgs|
  {
    StageIdsFacts(stages, stage);
    StageOrder(cfgs, StageIds(stages, stage))
  }

  /** The members of o that run in the given stage, in the order o has them. */
  function InStage(stages: seq<Stage>, o: seq<int>, stage: Stage): seq<int>
    requires Indexes(stages, o)
  {
    if o == [] then []
    else if stages[o[|o| - 1]] == stage then InStage(stages, o[..|o| - 1], stage) + [o[|o| - 1]]
    else InStage(stages, o[..|o| - 1], stage)
  }

  ghost predicate RankSorted(stages: seq<Stage>, o: seq<int>)
    requires Indexes(stages, o)
  {
    forall i, j :: 0 <= i < j < |o| ==> stages[o[i]].Rank() <= stages[o[j]].Rank()
  }

  ghost predicate Permutes(n: nat, o: seq<int>) {
    Distinct(o) && forall x :: x in o <==> 0 <= x < n
  }

  /** o is a permutation of all positions, runs the stages in order, and runs each stage in its sorted order. */
  ghost predicate Arranges(cfgs: seq<PluginConfig>, stages: seq<Stage>, o: seq<int>) {
    && |stages| == |cfgs| && Permutes(|cfgs|, o) && Indexes(stages, o) && RankSorted(stages, o)
    && forall stage :: Sorted(cfgs, stages, stage) == Some(InStage(stages, o, stage))
  }

  /** What the arrangement loop has built once the given stages are done. */
  ghost predicate Arranged(cfgs: seq<PluginConfig>, stages: seq<Stage>, o: seq<int>, done: set<Stage>) {
    && |stages| == |cfgs| && Distinct(o) && Indexes(stages, o) && RankSorted(stages, o)
    && (forall x :: x in o <==> 0 <= x < |cfgs| && stages[x] in done)
    && forall stage :: stage in done ==> Sorted(cfgs, stages, stage) == Some(InStage(stages, o, stage))
  }

  lemma {:induction false} InStageConcat(stages: seq<Stage>, a: seq<int>, b: seq<int>, stage: Stage)
    requires Indexes(stages, a) && Indexes(stages, b)
    ensures InStage(stages, a + b, stage) == InStage(stages, a, stage) + InStage(stages, b, stage)
  {
    if b == [] {
      assert a + b == a;
    } else {
      InStageConcat(stages, a, b[..|b| - 1], stage);
      assert (a + b)[..|a + b| - 1] == a + b[..|b| - 1];
    }
  }

  /** Members of one stage only. */
  lemma {:induction false} InStageUniform(stages: seq<Stage>, b: seq<int>, own: Stage, stage: Stage)
    requires Indexes(stages, b) && forall i :: 0 <= i < |b| ==> stages[b[i]] == own
    ensures InStage(stages, b, stage) == if stage == own then b else []
  {
    if b != [] {
      InStageUniform(stages, b[..|b| - 1], own, stage);
    }
  }

  lemma {:induction false} NoneOfStage(stages: seq<Stage>, o: seq<int>, stage: Stage)
    requires Indexes(stages, o) && forall i :: 0 <= i < |o| ==> stages[o[i]] != stage
    ensures InStage(stages, o, stage) == []
  {
    if o != [] {
      NoneOfStage(stages, o[..|o| - 1], stage);
    }
  }

  /** The members of a sorted stage. */
  lemma {:induction false} SortedMembers(cfgs: seq<PluginConfig>, stages: seq<Stage>, stage: Stage, b: seq<int>)
    requires |stages| == |cfgs| && Sorted(cfgs, stages, stage) == Some(b)
    ensures Distinct(b) && Indexes(stages, b) && forall i :: 0 <= i < |b| ==> stages[b[i]] == stage
    ensures forall x :: 0 <= x < |stages| && stages[x] == stage ==> x in b
  {
    var ids := StageIds(stages, stage);
    StageIdsFacts(stages, stage);
    GreedySound(Edges(cfgs, ids), ids);
    assert LinearExtension(Edges(cfgs, ids), ids, b);
    forall i | 0 <= i < |b|
      ensures 0 <= b[i] < |stages| && stages[b[i]] == stage
    {
      assert b[i] in b;
      assert b[i] in ids;
    }
  }

  lemma {:induction false} ArrangeMembers(stages: seq<Stage>, o: seq<int>, done: set<Stage>, stage: Stage, b: seq<int>)
    requires Distinct(o) && Indexes(stages, o) && RankSorted(stages, o) && stage !in done
    requires forall x :: x in o <==> 0 <= x < |stages| && stages[x] in done
    requires Distinct(b) && Indexes(stages, b) && forall i :: 0 <= i < |b| ==> stages[b[i]] == stage
    requires forall x :: 0 <= x < |stages| && stages[x] == stage ==> x in b
    requires forall s :: s in done ==> s.Rank() <= stage.Rank()
    ensures Distinct(o + b) && Indexes(stages, o + b) && RankSorted(stages, o + b)
    ensures forall x :: x in o + b <==> 0 <= x < |stages| && stages[x] in done + {stage}
  {
    forall i | 0 <= i < |o|
      ensures stages[o[i]] in done
    {
      assert o[i] in o;
    }
    forall x
      ensures x in o + b <==> 0 <= x < |stages| && stages[x] in done + {stage}
    {
      assert x in o + b <==> x in o || x in b;
    }
  }

  /** Appending one more sorted stage of at least the same rank. */
  lemma {:induction false} ArrangeStage(cfgs: seq<PluginConfig>, stages: seq<Stage>, o: seq<int>, done: set<Stage>,
                                        stage: Stage, b: seq<int>)
    requires Arranged(cfgs, stages, o, done) && stage !in done && Sorted(cfgs, stages, stage) == Some(b)
    requires forall s :: s in done ==> s.Rank() <= stage.Rank()
    ensures Arranged(cfgs, stages, o + b, done + {stage})
  {
    SortedMembers(cfgs, stages, stage, b);
    ArrangeMembers(stages, o, done, stage, b);
    forall i | 0 <= i < |o|
      ensures stages[o[i]] in done
    {
      assert o[i] in o;
    }
    forall s | s in done + {stage}
      ensures Sorted(cfgs, stages, s) == Some(InStage(stages, o + b, s))
    {
      StageAppended(stages, o, done, stage, b, s);
    }
  }

  /** Appending the members of a new stage leaves the other stages as they are. */
  lemma {:induction false} StageAppended(stages: seq<Stage>, o: seq<int>, done: set<Stage>, stage: Stage, b: seq<int>, s: Stage)
    requires Indexes(stages, o) && Indexes(stages, b) && stage !in done
    requires forall i :: 0 <= i < |o| ==> stages[o[i]] in done
    requires forall i :: 0 <= i < |b| ==> stages[b[i]] == stage
    ensures Indexes(stages, o + b) && InStage(stages, o + b, s) == if s == stage then b else InStage(stages, o, s)
  {
    InStageConcat(stages, o, b, s);
    InStageUniform(stages, b, stage, s);
    if s == stage {
      NoneOfStage(stages, o, stage);
      assert [] + b == b;
    } else {
      assert InStage(stages, o, s) + [] == InStage(stages, o, s);
    }
  }

  function Lookup(m: map<Stage, seq<int>>, stage: Stage): seq<int> {
    if stage in m then m[stage] else []
  }

  /** Groups positions by stage. */
  method GroupByStage(stages: seq<Stage>) returns (byStage: map<Stage, seq<int>>)
    ensures forall s :: Lookup(byStage, s) == StageIds(stages, s)
    ensures forall s :: s in byStage ==> byStage[s] != []
  {
    byStage := map[];
    for i := 0 to |stages|
      invariant forall s :: Lookup(byStage, s) == IdsBelow(stages, s, i)
      invariant forall s :: s in byStage ==> byStage[s] != []
    {
      byStage := byStage[stages[i] := Lookup(byStage, stages[i]) + [i]];
    }
  }

  /** Sorts one stage and appends it. */
  method AppendStage(cfgs: seq<PluginConfig>, ghost stages: seq<Stage>, ordered: seq<int>, ghost done: set<Stage>,
                     ghost stage: Stage, ids: seq<int>)
    returns (r: Option<seq<int>>)
    requires Arranged(cfgs, stages, ordered, done) && stage !in done && ids == StageIds(stages, stage)
    requires forall s :: s in done ==> s.Rank() <= stage.Rank()
    ensures r.None? ==> Sorted(cfgs, stages, stage).None?
    ensures r.Some? ==> Arranged(cfgs, stages, r.value, done + {stage})
  {
    StageIdsFacts(stages, stage);
    var b := TopoSortByConstraints(cfgs, ids);
    if b.None? {
      return None;
    }
    ArrangeStage(cfgs, stages, ordered, done, stage, b.value);
    return Some(ordered + b.value);
  }

  ghost predicate Pending(byStage: map<Stage, seq<int>>, stages: seq<Stage>, done: set<Stage>) {
    && (forall s :: s !in done ==> Lookup(byStage, s) == StageIds(stages, s))
    && (forall s :: s in byStage ==> byStage[s] != [] && s !in done)
  }

  lemma PendingWithout(byStage: map<Stage, seq<int>>, stages: seq<Stage>, done: set<Stage>, stage: Stage)
    requires Pending(byStage, stages, done)
    ensures Pending(byStage - {stage}, stages, done + {stage})
  {
  }

  lemma NothingPending(byStage: map<Stage, seq<int>>, stages: seq<Stage>, done: set<Stage>)
    requires Pending(byStage, stages, done) && byStage.Keys == {}
    ensures forall s :: s !in done ==> StageIds(stages, s) == []
  {
    forall s | s !in done
      ensures StageIds(stages, s) == []
    {
      assert s !in byStage.Keys;
      assert Lookup(byStage, s) == [];
    }
  }

  lemma EmptyStage(cfgs: seq<PluginConfig>, stages: seq<Stage>, o: seq<int>, done: set<Stage>, stage: Stage)
    requires Arranged(cfgs, stages, o, done) && stage !in done && StageIds(stages, stage) == []
    requires forall s :: s in done ==> s.Rank() <= stage.Rank()
    ensures Arranged(cfgs, stages, o, done + {stage})
  {
    ArrangeStage(cfgs, stages, o, done, stage, []);
    assert o + [] == o;
  }

  const STANDARD: seq<Stage> := [Deny, Route, Mutate]

  /** The stages done after k rounds of the loop over the standard stages. */
  function FirstStandard(k: nat): set<Stage> {
    if k == 0 then {} else if k == 1 then {Deny} else if k == 2 then {Deny, Route} else {Deny, Route, Mutate}
  }

  lemma StandardRound(k: nat)
    requires k < 3
    ensures STANDARD[k] !in FirstStandard(k) && FirstStandard(k + 1) == FirstStandard(k) + {STANDARD[k]}
    ensures forall s :: s in FirstStandard(k) ==> s.Rank() <= STANDARD[k].Rank()
  {
  }

  /** One round of the loop over the standard stages. */
  method OrderNext(cfgs: seq<PluginConfig>, ghost stages: seq<Stage>, ordered: seq<int>, byStage: map<Stage, seq<int>>, k: nat)
    returns (r: Option<seq<int>>, rest: map<Stage, seq<int>>)
    requires k < 3 && Arranged(cfgs, stages, ordered, FirstStandard(k)) && Pending(byStage, stages, FirstStandard(k))
    ensures r.None? ==> Sorted(cfgs, stages, STANDARD[k]).None?
    ensures r.Some? ==> Arranged(cfgs, stages, r.value, FirstStandard(k + 1)) && Pending(rest, stages, FirstStandard(k + 1))
  {
    var stage := STANDARD[k];
    StandardRound(k);
    var ids := Lookup(byStage, stage);
    if |ids| == 0 {
      EmptyStage(cfgs, stages, ordered, FirstStandard(k), stage);
      return Some(ordered), byStage;
    }
    r := AppendStage(cfgs, stages, ordered, FirstStandard(k), stage, ids);
    rest := byStage - {stage};
    PendingWithout(byStage, stages, FirstStandard(k), stage);
  }

  /** The three standard stages, in order; the groups of the other stages are left over. */
  method OrderStandard(cfgs: seq<PluginConfig>, stages: seq<Stage>)
    returns (r: Option<seq<int>>, rest: map<Stage, seq<int>>)
    requires |stages| == |cfgs|
    ensures r.None? ==> exists stage :: Sorted(cfgs, stages, stage).None?
    ensures r.Some? ==> Arranged(cfgs, stages, r.value, FirstStandard(3))
    ensures r.Some? ==> Pending(rest, stages, FirstStandard(3))
  {
    rest := GroupByStage(stages);
    var ordered: seq<int> := [];
    for k := 0 to |STANDARD|
      invariant Arranged(cfgs, stages, ordered, FirstStandard(k))
      invariant Pending(rest, stages, FirstStandard(k))
    {
      r, rest := OrderNext(cfgs, stages, ordered, rest, k);
      if r.None? {
        return;
      }
      ordered := r.value;
    }
    r := Some(ordered);
  }

  /** The standard stages run first; any other stages follow in an unspecified order. */
  method OrderIndexes(cfgs: seq<PluginConfig>, stages: seq<Stage>) returns (r: Option<seq<int>>)
    requires |stages| == |cfgs|
    ensures r.Some? <==> forall stage :: Sorted(cfgs, stages, stage).Some?
    ensures r.Some? ==> Arranges(cfgs, stages, r.value)
  {
    var first, byStage := OrderStandard(cfgs, stages);
    if first.None? {
      return None;
    }
    var ordered := first.value;
    ghost var done := FirstStandard(3);
    while byStage.Keys != {}
      invariant forall s :: s !in done ==> s.Other?
      invariant Arranged(cfgs, stages, ordered, done)
      invariant Pending(byStage, stages, done)
      decreases byStage.Keys
    {
      SomeKey(byStage);
      var stage :| stage in byStage.Keys;
      assert stage !in done && stage.Rank() == 3;
      var b := AppendStage(cfgs, stages, ordered, done, stage, Lookup(byStage, stage));
      if b.None? {
        return None;
      }
      ordered := b.value;
      PendingWithout(byStage, stages, done, stage);
      done := done + {stage};
      byStage := byStage - {stage};
    }
    NothingPending(byStage, stages, done);
    FinishArrangement(cfgs, stages, ordered, done);
    return Some(ordered);
  }

  /** By the text of their stages: no plugin runs before a "deny" plugin but "deny" plugins; before a "route" plugin, or one
      without a stage, only those and "deny" plugins; before a "mutate" plugin no plugin with any other text. */
  ghost predicate StageTextsInOrder(ps: seq<PluginConfig>) {
    forall i, j :: 0 <= i < j < |ps| ==>
      var before, behind := Text.ToLower(ps[i].stage), Text.ToLower(ps[j].stage);
      && (behind == "deny" ==> before == "deny")
      && (behind == "route" || behind == "" ==> before == "deny" || before == "route" || before == "")
      && (behind == "mutate" ==> before == "deny" || before == "route" || before == "" || before == "mutate")
  }

  lemma RankOfText(p: PluginConfig)
    ensures var text, rank := Text.ToLower(p.stage), StageOf(p).Rank();
            && (rank == 0 <==> text == "deny") && (rank == 1 <==> text == "route" || text == "") && (rank == 2 <==> text == "mutate")
  {
  }

  lemma RankedTexts(cfgs: seq<PluginConfig>, o: seq<int>, ps: seq<PluginConfig>)
    requires Indexes(Stages(cfgs), o) && RankSorted(Stages(cfgs), o)
    requires |ps| == |o| && forall i :: 0 <= i < |o| ==> ps[i] == cfgs[o[i]]
    ensures StageTextsInOrder(ps)
  {
    forall i | 0 <= i < |ps|
      ensures Stages(cfgs)[o[i]] == StageOf(ps[i])
    {
    }
    forall i, j | 0 <= i < j < |ps|
      ensures StageOf(ps[i]).Rank() <= StageOf(ps[j]).Rank()
    {
      assert Stages(cfgs)[o[i]].Rank() <= Stages(cfgs)[o[j]].Rank();
    }
    TextsFollowRanks(ps);
  }

  lemma TextsFollowRanks(ps: seq<PluginConfig>)
    requires forall i, j :: 0 <= i < j < |ps| ==> StageOf(ps[i]).Rank() <= StageOf(ps[j]).Rank()
    ensures StageTextsInOrder(ps)
  {
    forall i, j | 0 <= i < j < |ps|
      ensures var before, behind := Text.ToLower(ps[i].stage), Text.ToLower(ps[j].stage);
              && (behind == "deny" ==> before == "deny")
              && (behind == "route" || behind == "" ==> before == "deny" || before == "route" || before == "")
              && (behind == "mutate" ==> before == "deny" || before == "route" || before == "" || before == "mutate")
    {
      RankOfText(ps[i]);
      RankOfText(ps[j]);
    }
  }

  /** The whole operation, with o the chosen order of positions. */
  method OrderPluginConfigs(cfgs: seq<PluginConfig>) returns (r: Option<seq<PluginConfig>>, ghost o: seq<int>)
    ensures r.Some? <==> forall stage :: Sorted(cfgs, Stages(cfgs), stage).Some?
    ensures r.Some? ==>
              && Arranges(cfgs, Stages(cfgs), o) && |r.value| == |o|
              && forall i :: 0 <= i < |o| ==> r.value[i] == cfgs[o[i]]
    ensures r.Some? ==> StageTextsInOrder(r.value)
  {
    o := [];
    var ordered := OrderIndexes(cfgs, Stages(cfgs));
    if ordered.None? {
      return None, [];
    }
    o := ordered.value;
    var out: seq<PluginConfig> := [];
    for k := 0 to |ordered.value|
      invariant |out| == k && forall i :: 0 <= i < k ==> out[i] == cfgs[o[i]]
    {
      out := out + [cfgs[ordered.value[k]]];
    }
    RankedTexts(cfgs, o, out);
    return Some(out), o;
  }

  lemma SomeKey(m: map<Stage, seq<int>>)
    ensures m.Keys == {} || exists s :: s in m.Keys
  {
    if forall s :: s !in m.Keys {
      assert m.Keys == {};
    }
  }

  lemma {:induction false} FinishArrangement(cfgs: seq<PluginConfig>, stages: seq<Stage>, o: seq<int>, done: set<Stage>)
    requires Arranged(cfgs, stages, o, done)
    requires forall s :: s !in done ==> StageIds(stages, s) == []
    ensures Arranges(cfgs, stages, o)
  {
    forall x | 0 <= x < |cfgs|
      ensures x in o
    {
      StageIdsFacts(stages, stages[x]);
    }
    forall s | s !in done
      ensures Sorted(cfgs, stages, s) == Some(InStage(stages, o, s))
    {
      assert forall i :: 0 <= i < |o| ==> o[i] in o;
      NoneOfStage(stages, o, s);
    }
  }
}
