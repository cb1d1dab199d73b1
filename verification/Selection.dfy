/** The selection settings of a pool, its fallback attempts, and what each strategy may pick. */
module Selection {
  import opened Common
  import opened Text
  import opened Sorting
  import opened RoutingTypes
  import opened BackendOrder
  import opened Filters
  import Weighted

  datatype Strategy = RoundRobin | Random | WeightedChoice | LeastLoaded | PowerOfChoices | Unknown(name: string) {
    predicate NeedsKey() {
      LeastLoaded? || PowerOfChoices?
    }
  }

  function StrategyOf(raw: string): Strategy {
    var s := Normalize(raw);
    if s == "round_robin" then RoundRobin
    else if s == "random" then Random
    else if s == "weighted" then WeightedChoice
    else if s == "least_loaded" then LeastLoaded
    else if s == "p2c" then PowerOfChoices
    else Unknown(s)
  }

  /** The strategies by their texts. */
  lemma StrategyTexts()
    ensures StrategyOf("round_robin") == RoundRobin && StrategyOf("random") == Random && StrategyOf("weighted") == WeightedChoice
    ensures StrategyOf("least_loaded") == LeastLoaded && StrategyOf("p2c") == PowerOfChoices
  {
    PlainTexts();
    NormalizePlain("weighted");
    NormalizePlain("least_loaded");
    NormalizePlain("p2c");
  }

  lemma PlainTexts()
    ensures Normalize("round_robin") == "round_robin" && Normalize("random") == "random"
  {
    NormalizePlain("round_robin");
    NormalizePlain("random");
  }

  /** Case, dashes and outer spaces do not matter. */
  lemma StrategyNormalized(raw: string)
    ensures StrategyOf(raw) == StrategyOf(Normalize(raw))
  {
    NormalizeIdempotent(raw);
  }

  datatype Config = Config(strategy: Strategy, key: string, sample: int, sort: seq<SortKey>, limit: int, filters: seq<Filter>)

  function ConfigOf(p: Pool): Config {
    Config(StrategyOf(p.strategy), TrimSpace(p.key), p.sample, p.sort, p.limit, p.filters)
  }

  function MergeFallback(cfg: Config, fb: Fallback): Config {
    Config(
      if fb.strategy.Some? then StrategyOf(fb.strategy.value) else cfg.strategy,
      if fb.key.Some? then TrimSpace(fb.key.value) else cfg.key,
      if fb.sample.Some? then fb.sample.value else cfg.sample,
      if fb.sort.Some? then fb.sort.value else cfg.sort,
      if fb.limit.Some? then fb.limit.value else cfg.limit,
      if fb.filters.Some? then fb.filters.value else cfg.filters)
  }

  /** Attempt 0 is the pool itself; attempt k + 1 merges fallback k onto the pool, not onto attempt k. */
  function Attempt(p: Pool, k: nat): Config
    requires k <= |p.fallback|
  {
    if k == 0 then ConfigOf(p) else MergeFallback(ConfigOf(p), p.fallback[k - 1])
  }

  /** All attempts, in the order they are tried. */
  function Attempts(p: Pool): (a: seq<Config>)
    ensures |a| == |p.fallback| + 1
  {
    seq(|p.fallback| + 1, k requires 0 <= k <= |p.fallback| => Attempt(p, k))
  }

  function Or<T>(x: Option<T>, otherwise: T): T {
    if x.Some? then x.value else otherwise
  }

  /** The pool that has a fallback's settings for its own, wherever the fallback gives one. */
  function Overridden(p: Pool, fb: Fallback): Pool {
    p.(strategy := Or(fb.strategy, p.strategy), key := Or(fb.key, p.key), sample := Or(fb.sample, p.sample),
       sort := Or(fb.sort, p.sort), limit := Or(fb.limit, p.limit), filters := Or(fb.filters, p.filters))
  }

  /** A fallback selects as the pool would if its settings were the pool's own; what other fallbacks say does not matter.
      The pool's own attempt goes by the pool's own settings. */
  lemma FallbackIsPool(p: Pool, k: nat)
    requires k <= |p.fallback|
    ensures k == 0 ==> Attempts(p)[k] == Config(StrategyOf(p.strategy), TrimSpace(p.key), p.sample, p.sort, p.limit, p.filters)
    ensures k > 0 ==> Attempts(p)[k] == Attempts(Overridden(p, p.fallback[k - 1]))[0]
  {
  }

  /** Whether an attempt's filters keep at least one backend. */
  predicate Keeps(w: World, req: Request, cfg: Config, bs: seq<Backend>) {
    Filtered(w, req, bs, cfg.filters) != []
  }

  function KeepFlags(w: World, req: Request, attempts: seq<Config>, bs: seq<Backend>): (f: seq<bool>)
    ensures |f| == |attempts| && forall k :: 0 <= k < |f| ==> f[k] == Keeps(w, req, attempts[k], bs)
  {
    seq(|attempts|, k requires 0 <= k < |attempts| => Keeps(w, req, attempts[k], bs))
  }

  /** The first attempt from k on whose filters keep something. */
  function FirstKeeping(w: World, req: Request, attempts: seq<Config>, bs: seq<Backend>, k: nat): (r: Option<nat>)
    requires k <= |attempts|
    ensures r.Some? ==> k <= r.value < |attempts|
  {
    FirstSet(KeepFlags(w, req, attempts, bs), k)
  }

  function Limited(s: seq<Backend>, limit: int): seq<Backend> {
    if 0 < limit < |s| then s[..limit] else s
  }

  /** Filter, sort, limit. */
  function Pipeline(w: World, req: Request, cfg: Config, bs: seq<Backend>): seq<Backend> {
    Limited(StableSort(Less(w, cfg.sort), Filtered(w, req, bs, cfg.filters)), cfg.limit)
  }

  lemma {:induction false} PipelineNonEmpty(w: World, req: Request, cfg: Config, bs: seq<Backend>)
    ensures Keeps(w, req, cfg, bs) <==> Pipeline(w, req, cfg, bs) != []
  {
    SortMultiset(Less(w, cfg.sort), Filtered(w, req, bs, cfg.filters));
  }

  /** With no NaN among the sort values of the backends kept, the candidates are the first `limit` elements, or all where
      there is no limit or it is not reached, of the stable sort, by whatever algorithm, of exactly the backends that pass
      every filter. */
  lemma {:induction false} PipelineRefines(w: World, req: Request, cfg: Config, bs: seq<Backend>, sorted: seq<Backend>)
    requires forall b :: b in Filtered(w, req, bs, cfg.filters) ==> NaNFree(w, cfg.sort, b)
    requires IsStableSort(Less(w, cfg.sort), Filtered(w, req, bs, cfg.filters), sorted)
    ensures Pipeline(w, req, cfg, bs) == if 0 < cfg.limit < |sorted| then sorted[..cfg.limit] else sorted
  {
    var kept := Filtered(w, req, bs, cfg.filters);
    LessIsStrictWeak(w, cfg.sort, kept);
    StableSortCorrect(Less(w, cfg.sort), kept);
    StableSortUnique(Less(w, cfg.sort), kept, StableSort(Less(w, cfg.sort), kept), sorted);
  }

  /** Candidates come from the pool and pass the attempt's filters, NaN or not. */
  lemma {:induction false} PipelineMembers(w: World, req: Request, cfg: Config, bs: seq<Backend>)
    ensures forall b :: b in Pipeline(w, req, cfg, bs) ==> b in bs && Passes(w, req, b, cfg.filters)
  {
    var kept := Filtered(w, req, bs, cfg.filters);
    var sorted := StableSort(Less(w, cfg.sort), kept);
    SortMultiset(Less(w, cfg.sort), kept);
    var p := FilteredExact(w, req, bs, cfg.filters);
    forall b | b in Pipeline(w, req, cfg, bs)
      ensures b in bs && Passes(w, req, b, cfg.filters)
    {
      assert b in multiset(sorted) && b in multiset(kept);
      var i :| 0 <= i < |kept| && kept[i] == b;
      assert p[i] in p && bs[p[i]] in bs;
    }
  }

  // ---------- the strategies ----------

  /** rng(k, n): the value of the k-th draw of a random stream when it is asked for a number below n. */
  type Rng = (nat, nat) -> nat

  /** Intn always answers below n; a stream that claims otherwise reads as 0. */
  function Draw(rng: Rng, k: nat, n: nat): (r: int)
    requires 0 < n
    ensures 0 <= r < n
  {
    if rng(k, n) < n then rng(k, n) else 0
  }

  function WeightOf(b: Backend): int {
    if b.weight <= 0 then 1 else b.weight
  }

  function Weights(bs: seq<Backend>): seq<int> {
    seq(|bs|, i requires 0 <= i < |bs| => WeightOf(bs[i]))
  }

  /** The value least_loaded and p2c compare; a backend without one counts as infinitely loaded. */
  function Load(w: World, key: string, b: Backend): Num {
    var v := SortValue(w, b, key, true);
    if v.ok then v.num else PosInf
  }

  function Loads(w: World, key: string, bs: seq<Backend>): seq<Num> {
    seq(|bs|, i requires 0 <= i < |bs| => Load(w, key, bs[i]))
  }

  predicate Usable(n: Num) {
    NumLess(n, PosInf)
  }

  /** The first least usable value, or index 0 when none is usable. */
  ghost predicate LeastPicked(loads: seq<Num>, idx: nat) {
    && idx < |loads|
    && (forall j :: 0 <= j < |loads| && Usable(loads[j]) ==> Usable(loads[idx]) && !NumLess(loads[j], loads[idx]))
    && (forall j :: 0 <= j < idx && Usable(loads[j]) ==> NumLess(loads[idx], loads[j]))
    && (Usable(loads[idx]) || idx == 0)
  }

  /** The distinct indexes seen by draws d0 to d1 - 1, in the order of their first draw. */
  ghost function FirstDraws(rng: Rng, n: nat, d0: nat, d1: nat): seq<int>
    requires 0 < n
  {
    if d1 <= d0 then []
    else
      var t, i := FirstDraws(rng, n, d0, d1 - 1), Draw(rng, d1 - 1, n);
      if i in t then t else t + [i]
  }

  /** How many distinct indexes p2c wants out of n. */
  function SampleSize(sample: int, n: nat): int {
    Min(if sample <= 0 then 2 else sample, n)
  }

  /** Element `at` of chosen holds the least usable load among the chosen, and is the earliest that does. */
  ghost predicate LeastAt(loads: seq<Num>, chosen: seq<int>, at: int) {
    && (forall k :: 0 <= k < |chosen| ==> 0 <= chosen[k] < |loads|)
    && 0 <= at < |chosen| && Usable(loads[chosen[at]])
    && (forall k :: 0 <= k < |chosen| ==> !NumLess(loads[chosen[k]], loads[chosen[at]]))
    && (forall k :: 0 <= k < at && Usable(loads[chosen[k]]) ==> NumLess(loads[chosen[at]], loads[chosen[k]]))
  }

  ghost predicate NoneUsable(loads: seq<Num>, chosen: seq<int>) {
    forall k :: 0 <= k < |chosen| ==> 0 <= chosen[k] < |loads| && !Usable(loads[chosen[k]])
  }

  /** Draws d0 to d1 - 1 are just enough to see the wanted number of distinct indexes, and idx is the earliest drawn with
      the least usable load among them, or 0 when none of them is usable. */
  ghost predicate SampledPick(rng: Rng, loads: seq<Num>, sample: int, d0: nat, d1: nat, idx: nat) {
    && 0 < |loads| && d0 < d1
    && |FirstDraws(rng, |loads|, d0, d1)| == SampleSize(sample, |loads|)
    && |FirstDraws(rng, |loads|, d0, d1 - 1)| < SampleSize(sample, |loads|)
    && ChosenLeast(loads, FirstDraws(rng, |loads|, d0, d1), idx)
  }

  ghost predicate ChosenLeast(loads: seq<Num>, chosen: seq<int>, idx: int) {
    || (idx == 0 && NoneUsable(loads, chosen))
    || exists at :: LeastAt(loads, chosen, at) && chosen[at] == idx
  }

  /** What selectIndex may return for non-empty candidates cs, how far it moves the counter from c0 to c1,
      and how many draws it takes, from d0 to d1. */
  ghost predicate Picked(w: World, rng: Rng, cfg: Config, cs: seq<Backend>, c0: nat, d0: nat,
                         r: Result<nat, RouteError>, c1: nat, d1: nat)
  {
    && 0 < |cs| && (r.Ok? ==> r.value < |cs|)
    && match cfg.strategy
       case RoundRobin => r == Ok(c0 % |cs|) && c1 == (c0 + 1) % TWO64 && d1 == d0
       case Random => r == Ok(Draw(rng, d0, |cs|)) && c1 == c0 && d1 == d0 + 1
       case WeightedChoice =>
         var total := Weighted.Total(Weights(cs));
         if total <= 0 then r == Err(InvalidWeightedPool) && c1 == c0 && d1 == d0
         else r == Ok(Weighted.Pick(Weights(cs), Draw(rng, d0, total))) && c1 == c0 && d1 == d0 + 1
       case LeastLoaded =>
         && c1 == c0 && d1 == d0
         && if TrimSpace(cfg.key) == "" then r == Err(EmptyKey)
            else r.Ok? && LeastPicked(Loads(w, TrimSpace(cfg.key), cs), r.value)
       case PowerOfChoices =>
         && c1 == c0
         && if TrimSpace(cfg.key) == "" then r == Err(EmptyKey) && d1 == d0
            else r.Ok? && SampledPick(rng, Loads(w, TrimSpace(cfg.key), cs), cfg.sample, d0, d1, r.value)
       case Unknown(_) => r == Err(UnknownStrategy) && c1 == c0 && d1 == d0
  }

  /** As Picked, returning the candidates along with the index. */
  ghost predicate PickedFrom(w: World, rng: Rng, cfg: Config, cs: seq<Backend>, c0: nat, d0: nat,
                             r: Result<(seq<Backend>, nat), RouteError>, c1: nat, d1: nat)
  {
    if r.Ok? then r.value.0 == cs && Picked(w, rng, cfg, cs, c0, d0, Ok(r.value.1), c1, d1)
    else Picked(w, rng, cfg, cs, c0, d0, Err(r.error), c1, d1)
  }

  /** What selecting from non-empty backends bs may do: the first attempt that keeps something decides, alone. */
  ghost predicate Selected(w: World, rng: Rng, req: Request, attempts: seq<Config>, bs: seq<Backend>, c0: nat, d0: nat,
                           r: Result<(seq<Backend>, nat), RouteError>, c1: nat, d1: nat)
  {
    match FirstKeeping(w, req, attempts, bs, 0)
    case None => r == Err(NoBackends) && c1 == c0 && d1 == d0
    case Some(k) =>
      PickedFrom(w, rng, attempts[k], Pipeline(w, req, attempts[k], bs), c0, d0, r, c1, d1)
  }

  lemma SkipAttempt(w: World, req: Request, attempts: seq<Config>, bs: seq<Backend>, k: nat)
    requires k < |attempts| && !Keeps(w, req, attempts[k], bs)
    ensures FirstKeeping(w, req, attempts, bs, k) == FirstKeeping(w, req, attempts, bs, k + 1)
  {
  }

  /** The first attempt that keeps something decides. */
  lemma AttemptDecides(w: World, rng: Rng, req: Request, attempts: seq<Config>, bs: seq<Backend>, k: nat, c0: nat, d0: nat,
                       r: Result<(seq<Backend>, nat), RouteError>, c1: nat, d1: nat)
    requires k < |attempts| && Keeps(w, req, attempts[k], bs)
    requires FirstKeeping(w, req, attempts, bs, 0) == FirstKeeping(w, req, attempts, bs, k)
    requires PickedFrom(w, rng, attempts[k], Pipeline(w, req, attempts[k], bs), c0, d0, r, c1, d1)
    ensures Selected(w, rng, req, attempts, bs, c0, d0, r, c1, d1)
  {
  }

  // ---------- consequences ----------

  lemma {:induction false} FirstKeepingIsFirst(w: World, req: Request, attempts: seq<Config>, bs: seq<Backend>, k: nat)
    requires k <= |attempts|
    ensures match FirstKeeping(w, req, attempts, bs, k)
            case None => forall j :: k <= j < |attempts| ==> !Keeps(w, req, attempts[j], bs)
            case Some(f) =>
              Keeps(w, req, attempts[f], bs) && forall j :: k <= j < f ==> !Keeps(w, req, attempts[j], bs)
  {
    var flags := KeepFlags(w, req, attempts, bs);
    assert FirstKeeping(w, req, attempts, bs, k) == FirstSet(flags, k);
  }

  /** The total of the candidates' weights, counting 1 for a weight that is not positive. */
  function TotalWeight(cs: seq<Backend>): nat {
    if cs == [] then 0
    else TotalWeight(cs[..|cs| - 1]) + if cs[|cs| - 1].weight > 0 then cs[|cs| - 1].weight else 1
  }

  lemma {:induction false} WeightsAddUp(cs: seq<Backend>, k: nat)
    requires k <= |cs|
    ensures Weighted.Sum(Weights(cs)[..k]) == TotalWeight(cs[..k])
  {
    if k > 0 {
      WeightsAddUp(cs, k - 1);
      Weighted.SumStep(Weights(cs), k - 1);
      assert cs[..k][..k - 1] == cs[..k - 1];
    } else {
      assert Weights(cs)[..0] == [];
    }
  }

  /** Of the draws below the total weight, exactly as many pick candidate i as its weight says. */
  lemma {:induction false} WeightedOdds(cs: seq<Backend>, i: nat)
    requires i < |cs| && TotalWeight(cs) < Weighted.TWO63
    ensures Weighted.Total(Weights(cs)) == TotalWeight(cs)
    ensures |Weighted.Draws(Weights(cs), i)| == if cs[i].weight > 0 then cs[i].weight else 1
  {
    WeightsAddUp(cs, |cs|);
    assert Weights(cs)[..|cs|] == Weights(cs) && cs[..|cs|] == cs;
    Weighted.TotalIsWrappedSum(Weights(cs));
    Weighted.DrawsAreStretch(Weights(cs), i);
  }

  /** The weighted strategy picks the candidate into whose stretch of the total weight its draw falls. */
  lemma {:induction false} WeightedPickMeans(cs: seq<Backend>, drawn: nat, i: nat)
    requires TotalWeight(cs) < Weighted.TWO63 && drawn < TotalWeight(cs) && i < |cs|
    ensures Weighted.Pick(Weights(cs), drawn) == i <==> TotalWeight(cs[..i]) <= drawn < TotalWeight(cs[..i + 1])
  {
    WeightsAddUp(cs, i);
    WeightsAddUp(cs, i + 1);
    WeightsAddUp(cs, |cs|);
    assert Weights(cs)[..|cs|] == Weights(cs) && cs[..|cs|] == cs;
    Weighted.PickIffInStretch(Weights(cs), drawn, i);
  }

  lemma PickedRoundRobin(w: World, rng: Rng, cfg: Config, cs: seq<Backend>, c0: nat, d0: nat, r: Result<nat, RouteError>, c1: nat, d1: nat)
    requires Picked(w, rng, cfg, cs, c0, d0, r, c1, d1) && cfg.strategy == RoundRobin
    ensures r.Ok? && 0 <= r.value < |cs| && r.value == c0 % |cs| && c1 == (c0 + 1) % TWO64 && d1 == d0
  {
  }

  lemma PickedRandom(w: World, rng: Rng, cfg: Config, cs: seq<Backend>, c0: nat, d0: nat, r: Result<nat, RouteError>, c1: nat, d1: nat)
    requires Picked(w, rng, cfg, cs, c0, d0, r, c1, d1) && cfg.strategy == Random
    ensures r == Ok(Draw(rng, d0, |cs|)) && c1 == c0 && d1 == d0 + 1
  {
  }

  lemma {:induction false} TotalIsPositive(cs: seq<Backend>)
    ensures |cs| <= TotalWeight(cs)
  {
    if cs != [] {
      TotalIsPositive(cs[..|cs| - 1]);
    }
  }

  lemma PickedWeighted(w: World, rng: Rng, cfg: Config, cs: seq<Backend>, c0: nat, d0: nat, r: Result<nat, RouteError>, c1: nat, d1: nat)
    requires Picked(w, rng, cfg, cs, c0, d0, r, c1, d1) && cfg.strategy == WeightedChoice && TotalWeight(cs) < Weighted.TWO63
    ensures 0 < TotalWeight(cs) && r.Ok? && 0 <= r.value < |cs| && c1 == c0 && d1 == d0 + 1
    ensures TotalWeight(cs[..r.value]) <= Draw(rng, d0, TotalWeight(cs)) < TotalWeight(cs[..r.value + 1])
  {
    TotalIsPositive(cs);
    WeightedOdds(cs, 0);
    WeightedPickMeans(cs, Draw(rng, d0, TotalWeight(cs)), r.value);
  }

  lemma PickedLeast(w: World, rng: Rng, cfg: Config, cs: seq<Backend>, c0: nat, d0: nat, r: Result<nat, RouteError>, c1: nat, d1: nat)
    requires Picked(w, rng, cfg, cs, c0, d0, r, c1, d1) && cfg.strategy == LeastLoaded && TrimSpace(cfg.key) != ""
    ensures r.Ok? && 0 <= r.value < |cs| && c1 == c0 && d1 == d0
    ensures forall j :: 0 <= j < |cs| && NumLess(Load(w, TrimSpace(cfg.key), cs[j]), PosInf) ==>
              && !NumLess(Load(w, TrimSpace(cfg.key), cs[j]), Load(w, TrimSpace(cfg.key), cs[r.value]))
              && (j < r.value ==> NumLess(Load(w, TrimSpace(cfg.key), cs[r.value]), Load(w, TrimSpace(cfg.key), cs[j])))
    ensures (forall j :: 0 <= j < |cs| ==> !NumLess(Load(w, TrimSpace(cfg.key), cs[j]), PosInf)) ==> r.value == 0
  {
    var loads := Loads(w, TrimSpace(cfg.key), cs);
    assert forall j :: 0 <= j < |cs| ==> loads[j] == Load(w, TrimSpace(cfg.key), cs[j]);
  }

  /** A load is the number under the key, a backend without one being infinitely loaded. */
  lemma LoadMeans(w: World, key: string, b: Backend)
    ensures Load(w, "port", b) == Fin(b.port as real) && Load(w, "weight", b) == Fin(b.weight as real)
    ensures !SortValue(w, b, key, true).ok ==> Load(w, key, b) == PosInf
    ensures SortValue(w, b, key, true).ok ==> Load(w, key, b) == SortValue(w, b, key, true).num
  {
    BuiltInKeys(w, b);
  }

  lemma PickedSampled(w: World, rng: Rng, cfg: Config, cs: seq<Backend>, c0: nat, d0: nat, r: Result<nat, RouteError>, c1: nat, d1: nat)
    requires Picked(w, rng, cfg, cs, c0, d0, r, c1, d1) && cfg.strategy == PowerOfChoices && TrimSpace(cfg.key) != ""
    ensures r.Ok? && 0 <= r.value < |cs| && c1 == c0 && d0 < d1
    ensures |FirstDraws(rng, |cs|, d0, d1)| == if cfg.sample <= 0 then Min(2, |cs|) else Min(cfg.sample, |cs|)
    ensures forall i :: i in FirstDraws(rng, |cs|, d0, d1) ==>
              && 0 <= i < |cs|
              && (NumLess(Load(w, TrimSpace(cfg.key), cs[i]), PosInf) ==>
                   !NumLess(Load(w, TrimSpace(cfg.key), cs[i]), Load(w, TrimSpace(cfg.key), cs[r.value])))
  {
    var loads := Loads(w, TrimSpace(cfg.key), cs);
    assert forall j :: 0 <= j < |cs| ==> loads[j] == Load(w, TrimSpace(cfg.key), cs[j]);
    FirstDrawsDistinct(rng, |cs|, d0, d1);
    var chosen := FirstDraws(rng, |loads|, d0, d1);
    forall i | i in chosen && NumLess(loads[i], PosInf)
      ensures !NumLess(loads[i], loads[r.value])
    {
      var k :| 0 <= k < |chosen| && chosen[k] == i;
    }
  }

  /** A selection moves its counter by at most one, and only when it succeeds by round robin. */
  lemma OnlyRoundRobinAdvances(w: World, rng: Rng, req: Request, attempts: seq<Config>, bs: seq<Backend>, c0: nat, d0: nat,
                               r: Result<(seq<Backend>, nat), RouteError>, c1: nat, d1: nat)
    requires Selected(w, rng, req, attempts, bs, c0, d0, r, c1, d1) && c0 < TWO64
    ensures c1 == c0 || c1 == (c0 + 1) % TWO64
    ensures c1 != c0 <==>
            && r.Ok? && FirstKeeping(w, req, attempts, bs, 0).Some?
            && attempts[FirstKeeping(w, req, attempts, bs, 0).value].strategy == RoundRobin
  {
  }

  lemma {:induction false} FirstDrawsDistinct(rng: Rng, n: nat, d0: nat, d1: nat)
    requires 0 < n
    ensures forall k :: 0 <= k < |FirstDraws(rng, n, d0, d1)| ==> 0 <= FirstDraws(rng, n, d0, d1)[k] < n
    ensures forall j, k :: 0 <= j < k < |FirstDraws(rng, n, d0, d1)| ==> FirstDraws(rng, n, d0, d1)[j] != FirstDraws(rng, n, d0, d1)[k]
  {
    if d0 < d1 {
      FirstDrawsDistinct(rng, n, d0, d1 - 1);
    }
  }

  /** Distinct numbers below n: at most n of them, and all of them when there are n. */
  lemma {:induction false} DistinctBelow(s: seq<int>, n: nat)
    requires forall k :: 0 <= k < |s| ==> 0 <= s[k] < n
    requires forall j, k :: 0 <= j < k < |s| ==> s[j] != s[k]
    ensures |s| <= n && (|s| == n ==> forall i :: 0 <= i < n ==> i in s)
    decreases n
  {
    if n == 0 {
    } else if n - 1 in s {
      var k :| 0 <= k < |s| && s[k] == n - 1;
      var t := s[..k] + s[k + 1..];
      DistinctBelow(t, n - 1);
      forall i | |s| == n && 0 <= i < n
        ensures i in s
      {
        assert i < n - 1 ==> i in t;
      }
    } else {
      assert forall k :: 0 <= k < |s| ==> s[k] in s;
      DistinctBelow(s, n - 1);
    }
  }

  /** The documentation's "smallest among the sampled" is met exactly when some sampled candidate has a usable value, or
      candidate 0 happens to be in the sample; otherwise candidate 0 is picked without having been sampled. */
  lemma {:induction false} SampledPickIsSampledIff(rng: Rng, loads: seq<Num>, sample: int, d0: nat, d1: nat, idx: nat)
    requires SampledPick(rng, loads, sample, d0, d1, idx)
    ensures var chosen := FirstDraws(rng, |loads|, d0, d1);
            idx in chosen <==> 0 in chosen || exists k :: 0 <= k < |chosen| && Usable(loads[chosen[k]])
  {
    var chosen := FirstDraws(rng, |loads|, d0, d1);
    FirstDrawsDistinct(rng, |loads|, d0, d1);
    if !(idx == 0 && NoneUsable(loads, chosen)) {
      var at :| LeastAt(loads, chosen, at) && chosen[at] == idx;
      assert Usable(loads[chosen[at]]);
    }
  }

  /** When p2c must see every candidate it picks the same least value as least_loaded. */
  lemma {:induction false} FullSampleIsLeastLoaded(rng: Rng, loads: seq<Num>, sample: int, d0: nat, d1: nat, idx: nat, least: nat)
    requires SampledPick(rng, loads, sample, d0, d1, idx) && LeastPicked(loads, least)
    requires SampleSize(sample, |loads|) == |loads|
    ensures idx < |loads| && loads[idx] == loads[least]
  {
    var chosen := FirstDraws(rng, |loads|, d0, d1);
    FirstDrawsDistinct(rng, |loads|, d0, d1);
    DistinctBelow(chosen, |loads|);
    assert least in chosen;
    var k :| 0 <= k < |chosen| && chosen[k] == least;
    if Usable(loads[least]) {
      var at :| LeastAt(loads, chosen, at) && chosen[at] == idx;
      assert !NumLess(loads[chosen[k]], loads[idx]) && !NumLess(loads[idx], loads[least]);
    }
  }
}
