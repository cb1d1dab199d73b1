/** Ordering of plugins inside one stage: a greedy topological sort over before/after constraints. */
module PluginOrder {
  import opened Common

  /** The part of a plugin's configuration that ordering looks at. */
  datatype PluginConfig = PluginConfig(name: string, stage: string, before: seq<string>, after: seq<string>)

  /** "from runs before to"; the constraint list may repeat edges and hold self-loops. */
  datatype Edge = Edge(from: int, to: int)

  ghost predicate InRange(cfgs: seq<PluginConfig>, ids: seq<int>) {
    forall i :: 0 <= i < |ids| ==> 0 <= ids[i] < |cfgs|
  }

  /** ids are distinct positions in the configuration. */
  ghost predicate ValidIds(cfgs: seq<PluginConfig>, ids: seq<int>) {
    Distinct(ids) && InRange(cfgs, ids)
  }

  // ---------- the constraint multigraph ----------

  /** Which plugin a name means inside ids; the last one wins when a name repeats. */
  function NameToIdx(cfgs: seq<PluginConfig>, ids: seq<int>): map<string, int>
    requires InRange(cfgs, ids)
  {
    if ids == [] then map[]
    else NameToIdx(cfgs, ids[..|ids| - 1])[cfgs[ids[|ids| - 1]].name := ids[|ids| - 1]]
  }

  function AfterEdges(names: map<string, int>, idx: int, deps: seq<string>): seq<Edge> {
    if deps == [] then []
    else
      var dep := deps[|deps| - 1];
      AfterEdges(names, idx, deps[..|deps| - 1]) + if dep in names then [Edge(names[dep], idx)] else []
  }

  function BeforeEdges(names: map<string, int>, idx: int, deps: seq<string>): seq<Edge> {
    if deps == [] then []
    else
      var dep := deps[|deps| - 1];
      BeforeEdges(names, idx, deps[..|deps| - 1]) + if dep in names then [Edge(idx, names[dep])] else []
  }

  function EdgesOf(cfgs: seq<PluginConfig>, names: map<string, int>, ids: seq<int>): seq<Edge>
    requires InRange(cfgs, ids)
  {
    if ids == [] then []
    else
      var idx := ids[|ids| - 1];
      EdgesOf(cfgs, names, ids[..|ids| - 1])
      + AfterEdges(names, idx, cfgs[idx].after) + BeforeEdges(names, idx, cfgs[idx].before)
  }

  /** All before/after constraints between members of ids, in the order they are met. */
  function Edges(cfgs: seq<PluginConfig>, ids: seq<int>): seq<Edge>
    requires InRange(cfgs, ids)
  {
    EdgesOf(cfgs, NameToIdx(cfgs, ids), ids)
  }

  ghost predicate Within(es: seq<Edge>, ids: seq<int>) {
    forall e :: e in es ==> e.from in ids && e.to in ids
  }

  /** A closed walk along edges: p[0] -> p[1] -> ... -> p[0]. */
  ghost predicate IsCycle(es: seq<Edge>, p: seq<int>) {
    && |p| >= 2 && p[0] == p[|p| - 1]
    && forall i :: 0 <= i < |p| - 1 ==> Edge(p[i], p[i + 1]) in es
  }

  ghost predicate Acyclic(es: seq<Edge>) {
    forall p :: !IsCycle(es, p)
  }

  /** o lists exactly ids, each once, and puts the source of every edge before its target. */
  ghost predicate LinearExtension(es: seq<Edge>, ids: seq<int>, o: seq<int>) {
    && |o| == |ids| && Distinct(o) && (forall x :: x in o <==> x in ids)
    && forall e, i, j :: e in es && 0 <= i < |o| && 0 <= j < |o| && o[i] == e.from && o[j] == e.to ==> i < j
  }

  /** a stands before b in ids. */
  ghost predicate Precedes(ids: seq<int>, a: int, b: int) {
    exists i, j :: 0 <= i < j < |ids| && ids[i] == a && ids[j] == b
  }

  /** o is smaller than q at the first place they differ, comparing by position in ids. */
  ghost predicate LexLess(ids: seq<int>, o: seq<int>, q: seq<int>) {
    exists k :: 0 <= k < |o| && k < |q| && o[..k] == q[..k] && Precedes(ids, o[k], q[k])
  }

  // ---------- the greedy order as a function ----------

  ghost predicate Blocked(es: seq<Edge>, out: seq<int>, x: int) {
    exists e :: e in es && e.to == x && e.from !in out
  }

  /** The first member of ids that is neither out yet nor waiting for another. */
  ghost function FirstReady(es: seq<Edge>, ids: seq<int>, out: seq<int>): Option<int> {
    if ids == [] then None
    else if ids[0] !in out && !Blocked(es, out, ids[0]) then Some(ids[0])
    else FirstReady(es, ids[1..], out)
  }

  /** Extends out greedily until every member of ids is out; None when that gets stuck. */
  ghost function Greedy(es: seq<Edge>, ids: seq<int>, out: seq<int>): Option<seq<int>>
    decreases |ids| - |out|
  {
    if |out| >= |ids| then Some(out)
    else
      match FirstReady(es, ids, out)
      case None => None
      case Some(x) => Greedy(es, ids, out + [x])
  }

  ghost function StageOrder(cfgs: seq<PluginConfig>, ids: seq<int>): Option<seq<int>>
    requires ValidIds(cfgs, ids)
  {
    Greedy(Edges(cfgs, ids), ids, [])
  }

  // ---------- the sort, with its in-degree and adjacency maps ----------

  ghost function InDegree(es: seq<Edge>, out: seq<int>, x: int): nat {
    if es == [] then 0
    else
      var e := es[|es| - 1];
      InDegree(es[..|es| - 1], out, x) + if e.to == x && e.from !in out then 1 else 0
  }

  ghost function Targets(es: seq<Edge>, j: int): seq<int> {
    if es == [] then []
    else
      var e := es[|es| - 1];
      Targets(es[..|es| - 1], j) + if e.from == j then [e.to] else []
  }

  function Count(m: map<int, int>, x: int): int {
    if x in m then m[x] else 0
  }

  function Adjacent(m: map<int, seq<int>>, x: int): seq<int> {
    if x in m then m[x] else []
  }

  ghost predicate Recorded(indeg: map<int, int>, edges: map<int, seq<int>>, es: seq<Edge>) {
    && (forall x :: Count(indeg, x) == InDegree(es, [], x))
    && (forall j :: Adjacent(edges, j) == Targets(es, j))
  }

  method AddEdge(indeg: map<int, int>, edges: map<int, seq<int>>, ghost es: seq<Edge>, e: Edge)
    returns (indeg': map<int, int>, edges': map<int, seq<int>>)
    requires Recorded(indeg, edges, es)
    ensures Recorded(indeg', edges', es + [e])
  {
    edges' := edges[e.from := Adjacent(edges, e.from) + [e.to]];
    indeg' := indeg[e.to := Count(indeg, e.to) + 1];
    assert (es + [e])[..|es|] == es;
  }

  method IndexNames(cfgs: seq<PluginConfig>, ids: seq<int>) returns (names: map<string, int>)
    requires InRange(cfgs, ids)
    ensures names == NameToIdx(cfgs, ids)
  {
    names := map[];
    for i := 0 to |ids|
      invariant names == NameToIdx(cfgs, ids[..i])
    {
      assert ids[..i + 1][..i] == ids[..i];
      names := names[cfgs[ids[i]].name := ids[i]];
    }
    assert ids[..|ids|] == ids;
  }

  method AddAfter(names: map<string, int>, idx: int, deps: seq<string>, ghost es: seq<Edge>,
                  indeg0: map<int, int>, edges0: map<int, seq<int>>)
    returns (indeg: map<int, int>, edges: map<int, seq<int>>)
    requires Recorded(indeg0, edges0, es)
    ensures Recorded(indeg, edges, es + AfterEdges(names, idx, deps))
  {
    indeg, edges := indeg0, edges0;
    ghost var now := es;
    for k := 0 to |deps|
      invariant now == es + AfterEdges(names, idx, deps[..k])
      invariant Recorded(indeg, edges, now)
    {
      assert deps[..k + 1][..k] == deps[..k];
      if deps[k] in names {
        indeg, edges := AddEdge(indeg, edges, now, Edge(names[deps[k]], idx));
        now := now + [Edge(names[deps[k]], idx)];
      }
    }
    assert deps[..|deps|] == deps;
  }

  method AddBefore(names: map<string, int>, idx: int, deps: seq<string>, ghost es: seq<Edge>,
                   indeg0: map<int, int>, edges0: map<int, seq<int>>)
    returns (indeg: map<int, int>, edges: map<int, seq<int>>)
    requires Recorded(indeg0, edges0, es)
    ensures Recorded(indeg, edges, es + BeforeEdges(names, idx, deps))
  {
    indeg, edges := indeg0, edges0;
    ghost var now := es;
    for k := 0 to |deps|
      invariant now == es + BeforeEdges(names, idx, deps[..k])
      invariant Recorded(indeg, edges, now)
    {
      assert deps[..k + 1][..k] == deps[..k];
      if deps[k] in names {
        indeg, edges := AddEdge(indeg, edges, now, Edge(idx, names[deps[k]]));
        now := now + [Edge(idx, names[deps[k]])];
      }
    }
    assert deps[..|deps|] == deps;
  }

  /** Records the constraints one plugin declares. */
  method AddPlugin(names: map<string, int>, idx: int, p: PluginConfig, ghost es: seq<Edge>,
                   indeg0: map<int, int>, edges0: map<int, seq<int>>)
    returns (indeg: map<int, int>, edges: map<int, seq<int>>)
    requires Recorded(indeg0, edges0, es)
    ensures Recorded(indeg, edges, es + AfterEdges(names, idx, p.after) + BeforeEdges(names, idx, p.before))
  {
    indeg, edges := AddAfter(names, idx, p.after, es, indeg0, edges0);
    indeg, edges := AddBefore(names, idx, p.before, es + AfterEdges(names, idx, p.after), indeg, edges);
  }

  method BuildConstraints(cfgs: seq<PluginConfig>, ids: seq<int>)
    returns (indeg: map<int, int>, edges: map<int, seq<int>>)
    requires InRange(cfgs, ids)
    ensures Recorded(indeg, edges, Edges(cfgs, ids))
  {
    var names := IndexNames(cfgs, ids);
    indeg, edges := map[], map[];
    for i := 0 to |ids|
      invariant Recorded(indeg, edges, EdgesOf(cfgs, names, ids[..i]))
    {
      assert ids[..i + 1][..i] == ids[..i];
      indeg, edges := AddPlugin(names, ids[i], cfgs[ids[i]], EdgesOf(cfgs, names, ids[..i]), indeg, edges);
    }
    assert ids[..|ids|] == ids;
  }

  /** The scan for the first unprocessed plugin with in-degree zero; -1 when there is none. */
  method FindReady(ids: seq<int>, indeg: map<int, int>, processed: set<int>, ghost es: seq<Edge>, ghost out: seq<int>)
    returns (found: int)
    requires forall i :: 0 <= i < |ids| ==> 0 <= ids[i]
    requires forall x :: x in processed <==> x in out
    requires forall x :: Count(indeg, x) == InDegree(es, out, x)
    ensures found == -1 ==> FirstReady(es, ids, out) == None
    ensures found != -1 ==> FirstReady(es, ids, out) == Some(found) && found !in out
  {
    for k := 0 to |ids|
      invariant FirstReady(es, ids, out) == FirstReady(es, ids[k..], out)
    {
      BlockedIffPositive(es, out, ids[k]);
      if ids[k] !in processed && Count(indeg, ids[k]) == 0 {
        return ids[k];
      }
    }
    return -1;
  }

  /** The edges leaving a processed plugin stop counting. */
  method Discharge(indeg0: map<int, int>, edges: map<int, seq<int>>, found: int, ghost es: seq<Edge>, ghost out: seq<int>)
    returns (indeg: map<int, int>)
    requires found !in out && Adjacent(edges, found) == Targets(es, found)
    requires forall x :: Count(indeg0, x) == InDegree(es, out, x)
    ensures forall x :: Count(indeg, x) == InDegree(es, out + [found], x)
  {
    indeg := indeg0;
    var tos := Adjacent(edges, found);
    for t := 0 to |tos|
      invariant forall x :: Count(indeg, x) == Count(indeg0, x) - multiset(tos[..t])[x]
    {
      assert tos[..t + 1] == tos[..t] + [tos[t]];
      indeg := indeg[tos[t] := Count(indeg, tos[t]) - 1];
    }
    assert tos[..|tos|] == tos;
    forall x
      ensures Count(indeg, x) == InDegree(es, out + [found], x)
    {
      InDegreeAfter(es, out, found, x);
    }
  }

  method TopoSortByConstraints(cfgs: seq<PluginConfig>, ids: seq<int>) returns (r: Option<seq<int>>)
    requires ValidIds(cfgs, ids)
    ensures r == StageOrder(cfgs, ids)
  {
    var indeg, edges := BuildConstraints(cfgs, ids);
    ghost var es := Edges(cfgs, ids);
    var processed: set<int>, out: seq<int> := {}, [];
    while |out| < |ids|
      invariant forall x :: x in processed <==> x in out
      invariant forall x :: Count(indeg, x) == InDegree(es, out, x)
      invariant Greedy(es, ids, out) == StageOrder(cfgs, ids)
    {
      var found := FindReady(ids, indeg, processed, es, out);
      if found == -1 {
        return None;
      }
      processed := processed + {found};
      indeg := Discharge(indeg, edges, found, es, out);
      out := out + [found];
    }
    return Some(out);
  }

  lemma {:induction false} BlockedIffPositive(es: seq<Edge>, out: seq<int>, x: int)
    ensures Blocked(es, out, x) <==> InDegree(es, out, x) > 0
  {
    if es != [] {
      var es', e := es[..|es| - 1], es[|es| - 1];
      BlockedIffPositive(es', out, x);
      assert forall d :: d in es <==> d in es' || d == e;
    }
  }

  lemma {:induction false} InDegreeAfter(es: seq<Edge>, out: seq<int>, found: int, x: int)
    requires found !in out
    ensures InDegree(es, out + [found], x) == InDegree(es, out, x) - multiset(Targets(es, found))[x]
  {
    if es != [] {
      InDegreeAfter(es[..|es| - 1], out, found, x);
    }
  }
}
