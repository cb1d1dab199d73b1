/** Validation of pools, and which selection errors a validated pool can still run into. */
module PoolValidation {
  import opened Common
  import opened Bytes
  import opened Text
  import opened RoutingTypes
  import opened Selection
  import opened BackendOrder
  import opened Filters
  import Candidates
  import Engine
  import Weighted

  predicate ValidBackend(b: Backend) {
    b.host != "" && 0 < b.port <= 65535 && 0 <= b.weight
  }

  predicate ValidSortKey(k: SortKey) {
    && TrimSpace(k.key) != ""
    && (var order := Normalize(k.order); order == "" || order == "asc" || order == "desc")
    && (var kind := Normalize(k.kind); kind == "" || kind == "string" || kind == "number")
  }

  predicate ValidFilter(f: Filter) {
    var kind := Normalize(f.kind);
    if kind == "compare" then
      var op := Normalize(f.op);
      && TrimSpace(f.left) != "" && TrimSpace(f.right) != ""
      && (op == "lt" || op == "lte" || op == "gt" || op == "gte" || op == "eq" || op == "neq")
    else if kind == "whitelist" then
      var subject := Normalize(f.subject);
      && TrimSpace(f.enabledKey) != "" && TrimSpace(f.listKey) != ""
      && (subject == "" || subject == "uuid" || subject == "username")
    else if kind == "game_start_not_past" then TrimSpace(f.key) != ""
    else false
  }

  predicate ValidFallback(fb: Fallback) {
    && (fb.strategy.Some? ==>
          && !StrategyOf(fb.strategy.value).Unknown?
          && (StrategyOf(fb.strategy.value).NeedsKey() ==> fb.key.Some? && TrimSpace(fb.key.value) != ""))
    && (fb.sample.Some? ==> 0 <= fb.sample.value)
    && (fb.limit.Some? ==> 0 <= fb.limit.value)
    && (fb.sort.Some? ==> forall i :: 0 <= i < |fb.sort.value| ==> ValidSortKey(fb.sort.value[i]))
    && (fb.filters.Some? ==> forall i :: 0 <= i < |fb.filters.value| ==> ValidFilter(fb.filters.value[i]))
  }

  predicate ValidDiscovery(d: Discovery) {
    && TrimSpace(d.provider) != ""
    && (var mode := Normalize(d.mode); mode == "" || mode == "union" || mode == "prefer")
  }

  /** validatePool; configured is the content of the pool's static backends. */
  predicate ValidPool(p: Pool, configured: seq<Backend>) {
    var strategy := StrategyOf(p.strategy);
    && (configured != [] || p.discovery.Some?)
    && !strategy.Unknown?
    && (strategy.NeedsKey() ==> TrimSpace(p.key) != "")
    && (strategy.PowerOfChoices? ==> 0 <= p.sample)
    && 0 <= p.limit
    && (forall i :: 0 <= i < |p.sort| ==> ValidSortKey(p.sort[i]))
    && (forall i :: 0 <= i < |p.filters| ==> ValidFilter(p.filters[i]))
    && (forall i :: 0 <= i < |p.fallback| ==> ValidFallback(p.fallback[i]))
    && (p.discovery.Some? ==> ValidDiscovery(p.discovery.value))
    && (forall i :: 0 <= i < |configured| ==> ValidBackend(configured[i]) && (strategy.WeightedChoice? ==> configured[i].weight > 0))
  }

  /** What validation refuses as a filter would match no backend, except that a whitelist lets everybody pass where it is off. */
  lemma RefusedFilterIsDead(w: World, req: Request, b: Backend, f: Filter)
    requires !ValidFilter(f) && (Normalize(f.kind) == "whitelist" ==> WhitelistOn(b, f))
    ensures !FilterMatches(w, req, b, f)
  {
    if Normalize(f.kind) == "whitelist" {
      WhitelistUnfolds(w, req, b, f);
    } else if Normalize(f.kind) == "game_start_not_past" {
      StartUnfolds(w, req, b, f);
    }
  }

  /** What it accepts as a whitelist or a game start lets some backend pass, one without metadata for instance. */
  lemma AcceptedFilterLives(w: World, req: Request, f: Filter, host: GoString)
    requires ValidFilter(f) && Normalize(f.kind) != "compare"
    ensures FilterMatches(w, req, Backend(host, 1, 0, map[]), f)
  {
    var b := Backend(host, 1, 0, map[]);
    if Normalize(f.kind) == "whitelist" {
      assert MetaGet(b.meta, TrimSpace(f.enabledKey)) == "";
      WhitelistUnfolds(w, req, b, f);
    } else {
      StartUnfolds(w, req, b, f);
    }
  }

  /** A validated pool has backends of its own unless it asks discovery, and then in a mode that discovery knows. */
  lemma ValidPoolResolves(p: Pool, configured: seq<Backend>, weighted: bool, disc: seq<Backend>)
    requires ValidPool(p, configured)
    ensures p.discovery.None? ==> configured != []
    ensures p.discovery.Some? ==>
              Candidates.FromDiscovery(p.discovery.value.mode, weighted, disc, configured) != Err(InvalidDiscoveryMode)
  {
  }

  /** In a validated weighted pool the configured weights are the odds. */
  lemma {:induction false} ValidWeightsAreOdds(p: Pool, configured: seq<Backend>, i: nat)
    requires ValidPool(p, configured) && StrategyOf(p.strategy) == WeightedChoice && i < |configured|
    requires TotalWeight(configured) < Weighted.TWO63
    ensures |Weighted.Draws(Weights(configured), i)| == configured[i].weight
  {
    WeightedOdds(configured, i);
  }

  /** The fallback that validation lets through: it blanks the key of a strategy it does not replace. */
  predicate BlanksKey(p: Pool, fb: Fallback) {
    fb.strategy.None? && fb.key.Some? && TrimSpace(fb.key.value) == "" && StrategyOf(p.strategy).NeedsKey()
  }

  /** An attempt that selectIndex will refuse. */
  predicate Refused(cfg: Config) {
    cfg.strategy.NeedsKey() && TrimSpace(cfg.key) == ""
  }

  /** How the deciding attempt, if any, accounts for a failure. */
  ghost predicate FailsFor(w: World, req: Request, attempts: seq<Config>, bs: seq<Backend>, r: Result<(seq<Backend>, nat), RouteError>) {
    match FirstKeeping(w, req, attempts, bs, 0)
    case None => r == Err(NoBackends) && forall k :: 0 <= k < |attempts| ==> !Keeps(w, req, attempts[k], bs)
    case Some(k) =>
      && Keeps(w, req, attempts[k], bs) && (forall j :: 0 <= j < k ==> !Keeps(w, req, attempts[j], bs))
      && (r == Err(EmptyKey) <==> Refused(attempts[k]))
      && (r == Err(UnknownStrategy) <==> attempts[k].strategy.Unknown?)
      && (r == Err(InvalidWeightedPool) <==>
            attempts[k].strategy.WeightedChoice? && Weighted.Total(Weights(Pipeline(w, req, attempts[k], bs))) <= 0)
      && (r.Ok? || r == Err(EmptyKey) || r == Err(UnknownStrategy) || r == Err(InvalidWeightedPool))
  }

  /** Exactly when selection fails, and how. */
  lemma {:induction false} SelectionErrors(w: World, rng: Rng, req: Request, attempts: seq<Config>, bs: seq<Backend>,
                                           c0: nat, d0: nat, r: Result<(seq<Backend>, nat), RouteError>, c1: nat, d1: nat)
    requires Selected(w, rng, req, attempts, bs, c0, d0, r, c1, d1)
    ensures FailsFor(w, req, attempts, bs, r)
  {
    FirstKeepingIsFirst(w, req, attempts, bs, 0);
  }

  /** In a validated pool, the attempts that will be refused are exactly the fallbacks that blank the key. */
  lemma {:induction false} RefusedIffBlanksKey(p: Pool, configured: seq<Backend>, k: nat)
    requires ValidPool(p, configured) && k <= |p.fallback|
    ensures !Attempt(p, k).strategy.Unknown?
    ensures Refused(Attempt(p, k)) <==> k > 0 && BlanksKey(p, p.fallback[k - 1])
  {
    TrimmedEnds(p.key);
    if k > 0 {
      var fb := p.fallback[k - 1];
      assert ValidFallback(fb);
      if fb.key.Some? {
        TrimmedEnds(fb.key.value);
      }
    }
  }

  lemma {:induction false} ValidPoolFailsFor(w: World, req: Request, p: Pool, configured: seq<Backend>, bs: seq<Backend>,
                                             r: Result<(seq<Backend>, nat), RouteError>)
    requires ValidPool(p, configured) && FailsFor(w, req, Attempts(p), bs, r)
    ensures match FirstKeeping(w, req, Attempts(p), bs, 0)
            case None => r == Err(NoBackends)
            case Some(k) =>
              && r != Err(NoBackends) && r != Err(UnknownStrategy)
              && (r == Err(EmptyKey) <==> k > 0 && BlanksKey(p, p.fallback[k - 1]))
              && (r.Err? ==> r == Err(EmptyKey) || r == Err(InvalidWeightedPool))
  {
    var first := FirstKeeping(w, req, Attempts(p), bs, 0);
    if first.Some? {
      AttemptRefused(p, configured, Attempts(p), first.value);
    }
  }

  /** A validated pool selecting from non-empty backends fails with "no backends" exactly when every attempt filters all of
      them out; the only other failures are a key-blanking fallback being reached, and a 64-bit weight overflow. */
  lemma {:induction false} ValidPoolErrors(w: World, rng: Rng, req: Request, p: Pool, configured: seq<Backend>, bs: seq<Backend>,
                                           c0: nat, d0: nat, r: Result<(seq<Backend>, nat), RouteError>, c1: nat, d1: nat)
    requires ValidPool(p, configured)
    requires Selected(w, rng, req, Attempts(p), bs, c0, d0, r, c1, d1)
    ensures match FirstKeeping(w, req, Attempts(p), bs, 0)
            case None => r == Err(NoBackends)
            case Some(k) =>
              && r != Err(NoBackends) && r != Err(UnknownStrategy)
              && (r == Err(EmptyKey) <==> k > 0 && BlanksKey(p, p.fallback[k - 1]))
              && (r.Err? ==> r == Err(EmptyKey) || r == Err(InvalidWeightedPool))
  {
    SelectionErrors(w, rng, req, Attempts(p), bs, c0, d0, r, c1, d1);
    ValidPoolFailsFor(w, req, p, configured, bs, r);
  }

  lemma AttemptRefused(p: Pool, configured: seq<Backend>, a: seq<Config>, k: nat)
    requires ValidPool(p, configured) && a == Attempts(p) && k < |a|
    ensures !a[k].strategy.Unknown? && (Refused(a[k]) <==> k > 0 && BlanksKey(p, p.fallback[k - 1]))
  {
    RefusedIffBlanksKey(p, configured, k);
  }

  lemma {:induction false} WeightsPositive(bs: seq<Backend>)
    requires bs != [] && Weighted.Sum(Weights(bs)) < Weighted.TWO63
    ensures 0 < Weighted.Total(Weights(bs))
  {
    var ws := Weights(bs);
    Weighted.TotalIsWrappedSum(ws);
    Weighted.SumMonotone(ws, 0, |ws|);
    assert ws[..|ws|] == ws && ws[..0] == [];
  }

  /** With no key-blanking fallback, and weights that add up below 2^63 wherever the strategy is weighted, "no backends" is
      the only failure. */
  lemma {:induction false} OnlyNoBackends(w: World, rng: Rng, req: Request, p: Pool, configured: seq<Backend>, bs: seq<Backend>,
                                          c0: nat, d0: nat, r: Result<(seq<Backend>, nat), RouteError>, c1: nat, d1: nat)
    requires ValidPool(p, configured)
    requires Selected(w, rng, req, Attempts(p), bs, c0, d0, r, c1, d1)
    requires forall k :: 0 <= k < |p.fallback| ==> !BlanksKey(p, p.fallback[k])
    requires forall k :: 0 <= k <= |p.fallback| && Attempts(p)[k].strategy.WeightedChoice? ==>
               Weighted.Sum(Weights(Pipeline(w, req, Attempts(p)[k], bs))) < Weighted.TWO63
    ensures r.Ok? || r == Err(NoBackends)
    ensures r.Ok? <==> exists k :: 0 <= k <= |p.fallback| && Keeps(w, req, Attempts(p)[k], bs)
  {
    ValidPoolErrors(w, rng, req, p, configured, bs, c0, d0, r, c1, d1);
    SelectionErrors(w, rng, req, Attempts(p), bs, c0, d0, r, c1, d1);
    match FirstKeeping(w, req, Attempts(p), bs, 0) {
      case None =>
      case Some(k) =>
        PipelineNonEmpty(w, req, Attempts(p)[k], bs);
        if Attempts(p)[k].strategy.WeightedChoice? {
          WeightsPositive(Pipeline(w, req, Attempts(p)[k], bs));
        }
    }
  }

  const NEVER := Filter("compare", "", "port", "lt", "port", "", "", "")
  const BLANK_KEY := Fallback(None, Some(""), None, None, None, Some([]))

  lemma NeverMatches(w: World, req: Request, b: Backend)
    ensures ValidFilter(NEVER) && !FilterMatches(w, req, b, NEVER)
  {
    NormalizePlain("compare");
    NormalizePlain("lt");
    NormalizePlain("port");
  }

  function ExamplePool(slice: array<Backend>): Pool {
    Pool("p2c", "weight", 0, [], 0, [NEVER], [BLANK_KEY], slice, None)
  }

  lemma ExampleStrategy()
    ensures StrategyOf("p2c") == PowerOfChoices && TrimSpace("weight") == "weight" && TrimSpace("") == ""
  {
    NormalizePlain("p2c");
    NormalizePlain("weight");
  }

  lemma NeverKeeps(w: World, req: Request, b: Backend)
    ensures Filtered(w, req, [b], [NEVER]) == [] && Filtered(w, req, [b], []) == [b]
  {
    NeverMatches(w, req, b);
    NoFiltersKeepAll(w, req, [b]);
    assert [NEVER][0] == NEVER;
    assert !Verdicts(w, req, [b], [NEVER])[0];
  }

  lemma ExampleFirstKeeping(w: World, req: Request, a: seq<Config>, b: Backend)
    requires |a| == 2 && a[0].filters == [NEVER] && a[1].filters == []
    ensures FirstKeeping(w, req, a, [b], 0) == Some(1)
  {
    NeverKeeps(w, req, b);
    assert !Keeps(w, req, a[0], [b]) && Keeps(w, req, a[1], [b]);
    assert FirstKeeping(w, req, a, [b], 1) == Some(1);
  }

  lemma ExampleValid(slice: array<Backend>, b: Backend)
    requires ValidBackend(b)
    ensures ValidPool(ExamplePool(slice), [b])
  {
    ExampleStrategy();
    ExampleFilter();
    PoolIsValid(ExamplePool(slice), b);
  }

  lemma ExampleFilter()
    ensures ValidFilter(NEVER)
  {
    NormalizePlain("compare");
    NormalizePlain("lt");
    NormalizePlain("port");
    assert Normalize(NEVER.kind) == "compare" && Normalize(NEVER.op) == "lt" && TrimSpace(NEVER.left) == "port";
  }

  lemma PoolIsValid(p: Pool, b: Backend)
    requires StrategyOf(p.strategy) == PowerOfChoices && TrimSpace(p.key) != "" && p.sample == 0 && p.limit == 0
    requires p.sort == [] && p.discovery == None && p.filters == [NEVER] && ValidFilter(NEVER) && p.fallback == [BLANK_KEY]
    requires ValidBackend(b)
    ensures ValidPool(p, [b])
  {
    assert ValidFallback(BLANK_KEY);
    assert p.filters[0] == NEVER && p.fallback[0] == BLANK_KEY && [b][0] == b;
  }

  /** A validated pool whose selection fails although a fallback keeps a backend: the fallback blanks the p2c key. */
  lemma {:induction false} KeyBlankedExample(w: World, rng: Rng, req: Request, slice: array<Backend>, b: Backend,
                                             c0: nat, d0: nat, r: Result<(seq<Backend>, nat), RouteError>, c1: nat, d1: nat)
    requires ValidBackend(b)
    requires Selected(w, rng, req, Attempts(ExamplePool(slice)), [b], c0, d0, r, c1, d1)
    ensures ValidPool(ExamplePool(slice), [b]) && Keeps(w, req, Attempts(ExamplePool(slice))[1], [b])
    ensures r == Err(EmptyKey)
  {
    var p := ExamplePool(slice);
    ExampleValid(slice, b);
    var a := Attempts(p);
    assert a[0].filters == [NEVER] && a[1].filters == [];
    ExampleFirstKeeping(w, req, a, b);
    ValidPoolErrors(w, rng, req, p, [b], [b], c0, d0, r, c1, d1);
    FirstKeepingIsFirst(w, req, Attempts(p), [b], 0);
    ExampleStrategy();
  }

  // ---------- a fallback's strategy, unreported ----------

  const SWITCH_STRATEGY := Fallback(Some("random"), None, None, None, None, Some([]))

  function SwitchingPool(slice: array<Backend>): Pool {
    Pool("round_robin", "", 0, [], 0, [NEVER], [SWITCH_STRATEGY], slice, None)
  }

  lemma SwitchingStrategies()
    ensures StrategyOf("round_robin") == RoundRobin && StrategyOf("random") == Random
  {
    NormalizePlain("round_robin");
    NormalizePlain("random");
  }

  lemma SwitchingValid(slice: array<Backend>, b: Backend)
    requires ValidBackend(b)
    ensures ValidPool(SwitchingPool(slice), [b])
  {
    SwitchingStrategies();
    ExampleFilter();
    var p := SwitchingPool(slice);
    assert ValidFallback(SWITCH_STRATEGY);
    assert p.filters[0] == NEVER && p.fallback[0] == SWITCH_STRATEGY && [b][0] == b;
  }

  /** A validated pool whose decision reports round robin although its fallback picked at random. */
  lemma {:induction false} StrategyExample(w: World, rng: Rng, req: Request, slice: array<Backend>, b: Backend, routeIndex: int,
                                           c0: nat, d0: nat, r: Result<Engine.Decision, RouteError>, c1: nat, d1: nat)
    requires ValidBackend(b)
    requires Engine.Decided(w, rng, req, SwitchingPool(slice), Ok([b]), routeIndex, c0, d0, r, c1, d1)
    ensures ValidPool(SwitchingPool(slice), [b])
    ensures r.Ok? && r.value.strategy == RoundRobin && r.value.backend == b && c1 == c0 && d1 == d0 + 1
  {
    var a := Attempts(SwitchingPool(slice));
    SwitchingValid(slice, b);
    SwitchingStrategies();
    assert a[0].filters == [NEVER] && a[1] == Config(Random, TrimSpace(""), 0, [], 0, []);
    ExampleFirstKeeping(w, req, a, b);
    PlainPipeline(w, req, a[1], [b]);
    if r.Ok? {
      RandomOnly(w, rng, a[1], b, c0, d0, Ok((r.value.candidates, r.value.selectedIndex as nat)), c1, d1);
    } else {
      RandomOnly(w, rng, a[1], b, c0, d0, Err(r.error), c1, d1);
    }
  }

  lemma RandomOnly(w: World, rng: Rng, cfg: Config, b: Backend, c0: nat, d0: nat,
                   r: Result<(seq<Backend>, nat), RouteError>, c1: nat, d1: nat)
    requires cfg.strategy == Random && PickedFrom(w, rng, cfg, [b], c0, d0, r, c1, d1)
    ensures r == Ok(([b], 0)) && c1 == c0 && d1 == d0 + 1
  {
  }

  lemma PlainPipeline(w: World, req: Request, cfg: Config, bs: seq<Backend>)
    requires cfg.filters == [] && cfg.sort == [] && cfg.limit == 0
    ensures Pipeline(w, req, cfg, bs) == bs && (bs != [] ==> Keeps(w, req, cfg, bs))
  {
    NoFiltersKeepAll(w, req, bs);
    NoKeysKeepOrder(w, bs);
  }

  // ---------- a weight overflow ----------

  function HeavyPool(slice: array<Backend>): Pool {
    Pool("weighted", "", 0, [], 0, [], [], slice, None)
  }

  function Heavy(host: GoString): Backend {
    Backend(host, 1, Weighted.HALF, map[])
  }

  lemma HeavyValid(slice: array<Backend>)
    ensures StrategyOf("weighted") == WeightedChoice && ValidPool(HeavyPool(slice), [Heavy("a"), Heavy("b")])
  {
    NormalizePlain("weighted");
  }

  /** A validated weighted pool that never selects: its two weights overflow 64 bits. */
  lemma {:induction false} WeightOverflowExample(w: World, rng: Rng, req: Request, slice: array<Backend>,
                                                 c0: nat, d0: nat, r: Result<(seq<Backend>, nat), RouteError>, c1: nat, d1: nat)
    requires Selected(w, rng, req, Attempts(HeavyPool(slice)), [Heavy("a"), Heavy("b")], c0, d0, r, c1, d1)
    ensures ValidPool(HeavyPool(slice), [Heavy("a"), Heavy("b")]) && r == Err(InvalidWeightedPool)
  {
    var bs, a := [Heavy("a"), Heavy("b")], Attempts(HeavyPool(slice));
    HeavyValid(slice);
    assert a[0].strategy == WeightedChoice;
    PlainPipeline(w, req, a[0], bs);
    assert Weights(bs) == [Weighted.HALF, Weighted.HALF];
    Weighted.OverflowExample();
  }
}
