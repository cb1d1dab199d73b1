/** The routing engine: atomic round-robin counters, one shared random stream, and configuration it only reads. */
module Engine {
  import opened Common
  import opened Text
  import opened RoutingTypes
  import opened BackendOrder
  import opened Filters
  import opened Candidates
  import opened Selection
  import opened Weighted
  import RoundRobin

  /** Every index below n keeps coming up, however many draws have been taken. */
  ghost predicate Recurs(rng: Rng, n: nat, i: int, k: nat)
    requires 0 < n
  {
    exists m: nat :: k <= m && Draw(rng, m, n) == i
  }

  ghost predicate Fair(rng: Rng) {
    forall n: nat, i: int, k: nat :: 0 < n && 0 <= i < n ==> Recurs(rng, n, i, k)
  }

  /** Fair streams exist: counting upwards is one. */
  lemma {:induction false} CountingIsFair()
    ensures Fair((k: nat, n: nat) => if n == 0 then 0 else k % n)
  {
    var rng: Rng := (k: nat, n: nat) => if n == 0 then 0 else k % n;
    forall n: nat, i: int, k: nat | 0 < n && 0 <= i < n
      ensures Recurs(rng, n, i, k)
    {
      var m: nat := k * n + i;
      RemainderOf(k, i, n);
      assert Draw(rng, m, n) == i;
    }
  }

  lemma RemainderOf(k: nat, i: nat, n: nat)
    requires i < n
    ensures (k * n + i) % n == i && k <= k * n + i
  {
    Product(k, n - 1);
    RoundRobin.Distribute(n - 1, 1, k);
    var x := k * n + i;
    RoundRobin.DivMod(x, k, i, n);
  }

  lemma Product(a: nat, b: nat)
    ensures a * b >= 0
  {
  }

  datatype Decision = Decision(matched: bool, routeIndex: int, strategy: Strategy, candidates: seq<Backend>,
                               selectedIndex: int, backend: Backend)

  const NO_ROUTE := Decision(false, -1, Unknown(""), [], -1, NO_BACKEND)

  // ---------- host matching ----------

  function TrimSuffixDot(s: string): string {
    if s != "" && s[|s| - 1] == '.' then s[..|s| - 1] else s
  }

  function CanonicalHost(s: string): string {
    ToLower(TrimSuffixDot(TrimSpace(s)))
  }

  predicate HostnameMatches(w: World, rawPattern: string, hostname: string) {
    var pattern := CanonicalHost(rawPattern);
    pattern != "" && hostname != "" && (pattern == hostname || w.globMatches(pattern, hostname))
  }

  /** A host name as it may be written: no outer spaces, and no dot at its end. */
  predicate PlainHost(h: string) {
    h != "" && !IsSpace(h[0]) && !IsSpace(h[|h| - 1]) && h[|h| - 1] != '.'
  }

  /** Outer spaces, one final dot and case make no difference. */
  lemma {:induction false} CanonicalHostOf(before: string, h: string, dot: string, behind: string)
    requires Blank(before) && Blank(behind) && PlainHost(h) && (dot == "" || dot == ".")
    ensures CanonicalHost(before + h + dot + behind) == ToLower(h) != ""
  {
    var s := h + dot;
    assert before + h + dot + behind == before + s + behind;
    TrimSpaceOf(before, s, behind);
    if dot == "." {
      assert s[..|s| - 1] == h;
    } else {
      assert s == h;
    }
  }

  /** A pattern matches a server name exactly when both are the same name up to case, or the pattern's glob takes it. */
  lemma {:induction false} HostsMatchIff(w: World, pattern: string, name: string)
    requires PlainHost(pattern) && PlainHost(name)
    ensures forall before, dot, behind ::
              Blank(before) && Blank(behind) && (dot == "" || dot == ".") ==>
                (HostnameMatches(w, before + pattern + dot + behind, CanonicalHost(name)) <==>
                 ToLower(pattern) == ToLower(name) || w.globMatches(ToLower(pattern), ToLower(name)))
  {
    assert "" + name + "" + "" == name;
    CanonicalHostOf("", name, "", "");
    forall before, dot, behind | Blank(before) && Blank(behind) && (dot == "" || dot == ".")
      ensures CanonicalHost(before + pattern + dot + behind) == ToLower(pattern) != ""
    {
      CanonicalHostOf(before, pattern, dot, behind);
    }
  }

  /** An empty pattern or server name matches nothing. */
  lemma NoHostNoMatch(w: World, pattern: string, host: string)
    requires Blank(pattern) || host == ""
    ensures !HostnameMatches(w, pattern, host)
  {
    if Blank(pattern) {
      TrimLeftOf(pattern, "");
      assert pattern + "" == pattern;
    }
  }

  predicate RouteMatches(w: World, r: Route, hostname: string) {
    exists i :: 0 <= i < |r.hostnames| && HostnameMatches(w, r.hostnames[i], hostname)
  }

  /** A route matches by any of its patterns. */
  lemma AnyPatternMatches(w: World, r: Route, hostname: string)
    ensures RouteMatches(w, r, hostname) <==> exists p :: p in r.hostnames && HostnameMatches(w, p, hostname)
  {
    if RouteMatches(w, r, hostname) {
      var i :| 0 <= i < |r.hostnames| && HostnameMatches(w, r.hostnames[i], hostname);
      assert r.hostnames[i] in r.hostnames;
    }
    if p :| p in r.hostnames && HostnameMatches(w, p, hostname) {
      var i :| 0 <= i < |r.hostnames| && r.hostnames[i] == p;
      assert HostnameMatches(w, r.hostnames[i], hostname);
    }
  }

  /** Routes are tried in order; the first that matches wins. */
  function FirstMatch(w: World, routes: seq<Route>, hostname: string, k: nat): (r: Option<nat>)
    requires k <= |routes|
    ensures r.Some? ==> k <= r.value < |routes| && RouteMatches(w, routes[r.value], hostname)
    ensures r.Some? ==> forall j :: k <= j < r.value ==> !RouteMatches(w, routes[j], hostname)
    ensures r.None? ==> forall j :: k <= j < |routes| ==> !RouteMatches(w, routes[j], hostname)
    decreases |routes| - k
  {
    if k == |routes| then None
    else if RouteMatches(w, routes[k], hostname) then Some(k)
    else FirstMatch(w, routes, hostname, k + 1)
  }

  /** What deciding on one pool may do: resolve its candidates, then select among them. */
  ghost predicate PoolDecided(w: World, rng: Rng, req: Request, attempts: seq<Config>,
                              resolved: Result<seq<Backend>, RouteError>, c0: nat, d0: nat,
                              r: Result<(seq<Backend>, nat), RouteError>, c1: nat, d1: nat)
  {
    match resolved
    case Err(e) => r == Err(e) && c1 == c0 && d1 == d0
    case Ok(bs) => Selected(w, rng, req, attempts, bs, c0, d0, r, c1, d1)
  }

  function ToDecision(matched: bool, routeIndex: int, strategy: Strategy, sel: (seq<Backend>, nat)): (d: Decision)
    requires sel.1 < |sel.0|
  {
    Decision(matched, routeIndex, strategy, sel.0, sel.1, sel.0[sel.1])
  }

  /** r is the decision, or the error, that some outcome of deciding on the pool gives. */
  ghost predicate Decided(w: World, rng: Rng, req: Request, pool: Pool, resolved: Result<seq<Backend>, RouteError>,
                          routeIndex: int, c0: nat, d0: nat, r: Result<Decision, RouteError>, c1: nat, d1: nat)
  {
    match r
    case Err(e) => PoolDecided(w, rng, req, Attempts(pool), resolved, c0, d0, Err(e), c1, d1)
    case Ok(d) =>
      && 0 <= d.selectedIndex < |d.candidates|
      && d == ToDecision(routeIndex != -1, routeIndex, StrategyOf(pool.strategy), (d.candidates, d.selectedIndex))
      && PoolDecided(w, rng, req, Attempts(pool), resolved, c0, d0, Ok((d.candidates, d.selectedIndex)), c1, d1)
  }

  lemma SelectionDecides(w: World, rng: Rng, req: Request, pool: Pool, resolved: Result<seq<Backend>, RouteError>, routeIndex: int,
                         c0: nat, d0: nat, sel: Result<(seq<Backend>, nat), RouteError>, c1: nat, d1: nat)
    requires PoolDecided(w, rng, req, Attempts(pool), resolved, c0, d0, sel, c1, d1)
    ensures sel.Err? ==> Decided(w, rng, req, pool, resolved, routeIndex, c0, d0, Err(sel.error), c1, d1)
    ensures sel.Ok? ==>
              && sel.value.1 < |sel.value.0|
              && Decided(w, rng, req, pool, resolved, routeIndex, c0, d0,
                         Ok(ToDecision(routeIndex != -1, routeIndex, StrategyOf(pool.strategy), sel.value)), c1, d1)
  {
  }

  class StaticEngine {
    const routes: seq<Route>
    const fallbackPool: Option<Pool>
    const rng: Rng
    var rr: seq<nat>
    var rrDefault: nat
    var draws: nat

    ghost predicate Valid()
      reads this
    {
      && |rr| == |routes| && (forall i :: 0 <= i < |rr| ==> rr[i] < TWO64)
      && rrDefault < TWO64 && Fair(rng)
    }

    constructor (routes: seq<Route>, fallbackPool: Option<Pool>, rng: Rng)
      requires Fair(rng)
      ensures Valid() && this.routes == routes && this.fallbackPool == fallbackPool && this.rng == rng
      ensures rrDefault == 0 && forall i :: 0 <= i < |rr| ==> rr[i] == 0
    {
      this.routes, this.fallbackPool, this.rng := routes, fallbackPool, rng;
      rr, rrDefault, draws := seq(|routes|, _ => 0), 0, 0;
    }

    /** The counter of a route, or of the default pool for slot -1. */
    function Counter(slot: int): nat
      requires -1 <= slot < |rr|
      reads this
    {
      if slot == -1 then rrDefault else rr[slot]
    }

    /** All counters, the default pool's last. */
    ghost function Counters(): seq<nat>
      reads this
    {
      rr + [rrDefault]
    }

    /** Nothing but the draw position and the counter of one slot has changed. */
    twostate predicate OnlySlot(slot: int)
      reads this
    {
      && |rr| == |old(rr)|
      && (slot != -1 ==> rrDefault == old(rrDefault))
      && forall i :: 0 <= i < |rr| && i != slot ==> rr[i] == old(rr[i])
    }

    method Intn(n: nat) returns (v: nat)
      requires 0 < n
      modifies this`draws
      ensures v == Draw(rng, old(draws), n) && draws == old(draws) + 1
    {
      v := Draw(rng, draws, n);
      draws := draws + 1;
    }

    /** rr.Add(1) - 1 on a uint64 counter. */
    method NextCount(slot: int) returns (v: nat)
      requires -1 <= slot < |rr|
      modifies this`rr, this`rrDefault
      ensures OnlySlot(slot)
      ensures v == old(Counter(slot)) && Counter(slot) == (v + 1) % TWO64
      ensures v == old(Counters())[SlotIndex(slot, |rr|)]
      ensures Counters() == old(Counters())[SlotIndex(slot, |rr|) := (v + 1) % TWO64]
    {
      v := Counter(slot);
      if slot == -1 {
        rrDefault := (v + 1) % TWO64;
      } else {
        rr := rr[slot := (v + 1) % TWO64];
      }
    }

    /** Any number of selections, made one after the other on whichever counters the schedule names, see on each counter
        the values that its atomic increments hand out. */
    method NextCounts(schedule: seq<int>) returns (values: seq<nat>)
      requires forall k :: 0 <= k < |schedule| ==> -1 <= schedule[k] < |rr|
      modifies this`rr, this`rrDefault
      ensures |rr| == |old(rr)|
      ensures Handed(old(Counters()), Slots(schedule, |old(rr)|), Counters(), values)
    {
      values := [];
      ghost var slots, before := Slots(schedule, |rr|), Counters();
      for k := 0 to |schedule|
        invariant |rr| == |old(rr)| && Handed(before, slots[..k], Counters(), values)
      {
        ghost var now := Counters();
        var v := NextCount(schedule[k]);
        HandOne(before, slots[..k], now, values, slots[k]);
        assert slots[..k + 1] == slots[..k] + [slots[k]];
        values := values + [v];
      }
      assert slots[..|schedule|] == slots;
    }

    /** The pass that adds up the weights. */
    static method AddWeights(cs: seq<Backend>) returns (total: int)
      ensures total == Total(Weights(cs))
    {
      ghost var ws := Weights(cs);
      total := 0;
      for i := 0 to |cs|
        invariant total == Total(ws[..i])
      {
        assert ws[..i + 1][..i] == ws[..i];
        total := Wrap64(total + WeightOf(cs[i]));
      }
      assert ws[..|cs|] == ws;
    }

    /** The pass that looks for the drawn number. */
    static method ScanWeights(cs: seq<Backend>, drawn: int) returns (idx: nat)
      requires 0 < |cs|
      ensures idx == Pick(Weights(cs), drawn)
    {
      var acc := 0;
      for i := 0 to |cs|
        invariant PickFrom(Weights(cs), drawn, i, acc) == Pick(Weights(cs), drawn)
      {
        acc := Wrap64(acc + WeightOf(cs[i]));
        if drawn < acc {
          return i;
        }
      }
      return |cs| - 1;
    }

    /** A positive total draws once. */
    method SelectWeighted(cs: seq<Backend>) returns (r: Result<nat, RouteError>)
      requires 0 < |cs|
      modifies this`draws
      ensures if Total(Weights(cs)) <= 0 then r == Err(InvalidWeightedPool) && draws == old(draws)
              else r == Ok(Pick(Weights(cs), Draw(rng, old(draws), Total(Weights(cs))))) && draws == old(draws) + 1
    {
      var total := AddWeights(cs);
      if total <= 0 {
        return Err(InvalidWeightedPool);
      }
      var drawn := Intn(total);
      var idx := ScanWeights(cs, drawn);
      return Ok(idx);
    }

    /** The scan for the least loaded candidate; -1 stands for none found yet. */
    method SelectLeastLoaded(w: World, key: string, cs: seq<Backend>) returns (idx: nat)
      requires 0 < |cs|
      ensures LeastPicked(Loads(w, key, cs), idx)
    {
      ghost var loads := Loads(w, key, cs);
      var bestIdx: int, best := -1, PosInf;
      for i := 0 to |cs|
        invariant -1 <= bestIdx < i
        invariant bestIdx == -1 ==> best == PosInf && forall j :: 0 <= j < i ==> !Usable(loads[j])
        invariant bestIdx != -1 ==>
            && best == loads[bestIdx] && Usable(best)
            && (forall j :: 0 <= j < i ==> !NumLess(loads[j], best))
            && forall j :: 0 <= j < bestIdx && Usable(loads[j]) ==> NumLess(best, loads[j])
      {
        var v := SortValue(w, cs[i], key, true);
        assert loads[i] == Load(w, key, cs[i]);
        if v.ok && NumLess(v.num, best) {
          ghost var was := best;
          best, bestIdx := v.num, i;
          assert forall j :: 0 <= j < i && Usable(loads[j]) ==> !NumLess(loads[j], was) && NumLess(best, was);
        }
      }
      return if bestIdx >= 0 then bestIdx else 0;
    }

    /** One round of rejection sampling: an index drawn before is skipped, a new one competes for the least load. */
    method SampleOnce(loads: seq<Num>, chosen0: seq<int>, bestIdx0: int, best0: Num, ghost d0: nat, ghost at0: int)
      returns (chosen: seq<int>, bestIdx: int, best: Num, ghost at: int)
      requires 0 < |loads| && d0 <= draws && chosen0 == FirstDraws(rng, |loads|, d0, draws)
      requires BestOf(loads, chosen0, bestIdx0, best0, at0)
      modifies this`draws
      ensures draws == old(draws) + 1 && chosen == FirstDraws(rng, |loads|, d0, draws)
      ensures BestOf(loads, chosen, bestIdx, best, at)
      ensures Draw(rng, old(draws), |loads|) in chosen && (chosen == chosen0 || |chosen| == |chosen0| + 1)
    {
      chosen, bestIdx, best, at := chosen0, bestIdx0, best0, at0;
      NextDraw(rng, |loads|, d0, draws);
      var i := Intn(|loads|);
      if i in chosen0 {
        return;
      }
      BestExtends(loads, chosen0, bestIdx0, best0, at0, i);
      if NumLess(loads[i], best) {
        best, bestIdx, at := loads[i], i, |chosen0|;
      }
      chosen := chosen0 + [i];
    }

    /** Rejection sampling: draws until enough distinct candidates have been seen. chosen lists the keys of the set of
        candidates seen, in the order they were drawn; prev is the last draw taken. */
    method Sample(loads: seq<Num>, want: int)
      returns (chosen: seq<int>, bestIdx: int, best: Num, ghost prev: nat, ghost at: int)
      requires 0 < want <= |loads| && Fair(rng)
      modifies this`draws
      ensures old(draws) <= prev && draws == prev + 1 && chosen == FirstDraws(rng, |loads|, old(draws), draws)
      ensures |FirstDraws(rng, |loads|, old(draws), prev)| < want == |chosen|
      ensures BestOf(loads, chosen, bestIdx, best, at)
    {
      chosen, bestIdx, best, at := [], -1, PosInf, -1;
      ghost var d0, last := draws, chosen;
      prev := d0;
      ghost var next := NextNew(|loads|, draws, []);
      while |chosen| < want
        invariant d0 <= prev <= draws && chosen == FirstDraws(rng, |loads|, d0, draws) && |chosen| <= want
        invariant last == FirstDraws(rng, |loads|, d0, prev) && |last| < want && (|chosen| < want || draws == prev + 1)
        invariant BestOf(loads, chosen, bestIdx, best, at)
        invariant |chosen| < want ==> draws <= next && Draw(rng, next, |loads|) !in chosen
        decreases want - |chosen|, next - draws
      {
        prev, last := draws, chosen;
        chosen, bestIdx, best, at := SampleOnce(loads, chosen, bestIdx, best, d0, at);
        if |last| < |chosen| < want {
          next := NextNew(|loads|, draws, chosen);
        }
      }
    }

    method SelectSampled(w: World, key: string, cs: seq<Backend>, sample: int) returns (idx: nat)
      requires 0 < |cs| && Fair(rng)
      modifies this`draws
      ensures SampledPick(rng, Loads(w, key, cs), sample, old(draws), draws, idx) && idx < |cs|
    {
      var chosen, bestIdx, best; ghost var prev, at;
      chosen, bestIdx, best, prev, at := Sample(Loads(w, key, cs), SampleSize(sample, |cs|));
      return if bestIdx == -1 then 0 else bestIdx;
    }

    /** A coming draw that shows an index not chosen yet. */
    lemma NextNew(n: nat, from: nat, chosen: seq<int>) returns (next: nat)
      requires Fair(rng) && |chosen| < n
      ensures from <= next && Draw(rng, next, n) !in chosen
    {
      var i := Absent(chosen, n);
      assert Recurs(rng, n, i, from);
      next :| from <= next && Draw(rng, next, n) == i;
    }

    /** Candidates is not empty; the counter slot is the matched route's, or -1 for the default pool. */
    method SelectIndex(w: World, cfg: Config, cs: seq<Backend>, slot: int) returns (r: Result<nat, RouteError>)
      requires Valid() && -1 <= slot < |rr|
      modifies this
      ensures Valid() && OnlySlot(slot)
      ensures |cs| == 0 ==> r == Err(NoBackends) && Counter(slot) == old(Counter(slot)) && draws == old(draws)
      ensures |cs| > 0 ==> Picked(w, rng, cfg, cs, old(Counter(slot)), old(draws), r, Counter(slot), draws)
    {
      if |cs| == 0 {
        return Err(NoBackends);
      }
      match cfg.strategy {
        case RoundRobin =>
          var v := NextCount(slot);
          return Ok(v % |cs|);
        case Random =>
          var v := Intn(|cs|);
          return Ok(v);
        case WeightedChoice =>
          r := SelectWeighted(cs);
        case LeastLoaded =>
          var key := TrimSpace(cfg.key);
          if key == "" {
            return Err(EmptyKey);
          }
          var i := SelectLeastLoaded(w, key, cs);
          return Ok(i);
        case PowerOfChoices =>
          var key := TrimSpace(cfg.key);
          if key == "" {
            return Err(EmptyKey);
          }
          var i := SelectSampled(w, key, cs, cfg.sample);
          return Ok(i);
        case Unknown(_) =>
          return Err(UnknownStrategy);
      }
    }

    /** Works on a copy of the backends it is given. */
    method SelectWithConfig(w: World, req: Request, cfg: Config, backends: array<Backend>, slot: int)
      returns (r: Result<(seq<Backend>, nat), RouteError>)
      requires Valid() && -1 <= slot < |rr|
      modifies this
      ensures Valid() && OnlySlot(slot)
      ensures !Keeps(w, req, cfg, old(backends[..])) ==>
                r == Err(NoBackends) && Counter(slot) == old(Counter(slot)) && draws == old(draws)
      ensures Keeps(w, req, cfg, old(backends[..])) ==>
                PickedFrom(w, rng, cfg, Pipeline(w, req, cfg, old(backends[..])), old(Counter(slot)), old(draws), r, Counter(slot), draws)
      ensures r == Err(NoBackends) <==> !Keeps(w, req, cfg, old(backends[..]))
    {
      ghost var bs := backends[..];
      var filtered := ApplyFilters(w, req, backends, cfg.filters);
      if filtered.Length == 0 {
        return Err(NoBackends);
      }
      ApplySort(w, filtered, cfg.sort);
      var cs := Limited(filtered[..], cfg.limit);
      PipelineNonEmpty(w, req, cfg, bs);
      var idx := SelectIndex(w, cfg, cs, slot);
      if idx.Err? {
        return Err(idx.error);
      }
      return Ok((cs, idx.value));
    }

    /** Each fallback merged onto the pool's own settings, until one keeps a backend; those settings alone keep none. */
    method TryFallbacks(w: World, req: Request, pool: Pool, base: Config, backends: array<Backend>, slot: int)
      returns (r: Result<(seq<Backend>, nat), RouteError>)
      requires Valid() && -1 <= slot < |rr| && base == ConfigOf(pool) && !Keeps(w, req, base, backends[..])
      modifies this
      ensures Valid() && OnlySlot(slot)
      ensures Selected(w, rng, req, Attempts(pool), old(backends[..]), old(Counter(slot)), old(draws), r, Counter(slot), draws)
    {
      ghost var bs, attempts := backends[..], Attempts(pool);
      SkipAttempt(w, req, attempts, bs, 0);
      for k := 0 to |pool.fallback|
        invariant Valid() && OnlySlot(slot) && Counter(slot) == old(Counter(slot)) && draws == old(draws)
        invariant FirstKeeping(w, req, attempts, bs, 0) == FirstKeeping(w, req, attempts, bs, k + 1)
      {
        var cfg := MergeFallback(base, pool.fallback[k]);
        assert attempts[k + 1] == cfg;
        r := SelectWithConfig(w, req, cfg, backends, slot);
        if r != Err(NoBackends) {
          AttemptDecides(w, rng, req, attempts, bs, k + 1, old(Counter(slot)), old(draws), r, Counter(slot), draws);
          return;
        }
        SkipAttempt(w, req, attempts, bs, k + 1);
      }
      return Err(NoBackends);
    }

    /** The pool's own settings first, then its fallbacks. */
    method SelectCandidates(w: World, req: Request, pool: Pool, backends: array<Backend>, slot: int)
      returns (r: Result<(seq<Backend>, nat), RouteError>)
      requires Valid() && -1 <= slot < |rr|
      modifies this
      ensures Valid() && OnlySlot(slot)
      ensures backends.Length == 0 ==> r == Err(NoBackends) && Counter(slot) == old(Counter(slot)) && draws == old(draws)
      ensures backends.Length > 0 ==>
                Selected(w, rng, req, Attempts(pool), old(backends[..]), old(Counter(slot)), old(draws), r, Counter(slot), draws)
    {
      if backends.Length == 0 {
        return Err(NoBackends);
      }
      ghost var attempts := Attempts(pool);
      var base := ConfigOf(pool);
      assert attempts[0] == base;
      r := SelectWithConfig(w, req, base, backends, slot);
      if r != Err(NoBackends) {
        AttemptDecides(w, rng, req, attempts, backends[..], 0, old(Counter(slot)), old(draws), r, Counter(slot), draws);
        return;
      }
      r := TryFallbacks(w, req, pool, base, backends, slot);
    }

    method DecidePool(w: World, req: Request, pool: Pool, answer: DiscoveryAnswer, slot: int)
      returns (r: Result<Decision, RouteError>)
      requires Valid() && -1 <= slot < |rr|
      modifies this
      ensures Valid() && OnlySlot(slot)
      ensures Decided(w, rng, req, pool, old(Resolved(pool, answer)), slot, old(Counter(slot)), old(draws), r, Counter(slot), draws)
      ensures Counts(old(Counters()), Counters(), r)
      ensures r.Ok? ==>
                && r.value.matched == (slot != -1) && r.value.routeIndex == slot
                && 0 <= r.value.selectedIndex < |r.value.candidates| && r.value.backend == r.value.candidates[r.value.selectedIndex]
    {
      ghost var before := Counters();
      var bs := ResolveCandidates(pool, answer);
      if bs.Err? {
        return Err(bs.error);
      }
      var sel := SelectCandidates(w, req, pool, bs.value, slot);
      SelectionDecides(w, rng, req, pool, old(Resolved(pool, answer)), slot, old(Counter(slot)), old(draws), sel, Counter(slot), draws);
      r := if sel.Err? then Err(sel.error) else Ok(ToDecision(slot != -1, slot, StrategyOf(pool.strategy), sel.value));
      DecidedCounts(w, rng, req, pool, old(Resolved(pool, answer)), slot, old(Counter(slot)), old(draws), r, Counter(slot), draws);
      SlotMoved(before, Counters(), slot, r);
    }

    /** The first matching route decides on its own pool and counter; without one, the default pool does.
        Only counters and the draw position are modified: neither the configured backends nor the discovered ones. */
    method Decide(w: World, req: Request, answer: DiscoveryAnswer) returns (r: Result<Decision, RouteError>)
      requires Valid()
      modifies this
      ensures Valid()
      ensures match FirstMatch(w, routes, CanonicalHost(req.sni), 0)
              case Some(i) =>
                && OnlySlot(i)
                && Decided(w, rng, req, routes[i].pool, old(Resolved(routes[i].pool, answer)), i,
                           old(Counter(i)), old(draws), r, Counter(i), draws)
              case None =>
                && OnlySlot(-1)
                && if fallbackPool.Some?
                   then Decided(w, rng, req, fallbackPool.value, old(Resolved(fallbackPool.value, answer)), -1,
                                old(Counter(-1)), old(draws), r, Counter(-1), draws)
                   else r == Ok(NO_ROUTE) && Counter(-1) == old(Counter(-1)) && draws == old(draws)
      ensures Counts(old(Counters()), Counters(), r)
      ensures var matched := FirstMatch(w, routes, CanonicalHost(req.sni), 0);
              r.Ok? && (matched.Some? || fallbackPool.Some?) ==>
                && r.value.matched == matched.Some? && r.value.routeIndex == (if matched.Some? then matched.value else -1)
                && 0 <= r.value.selectedIndex < |r.value.candidates| && r.value.backend == r.value.candidates[r.value.selectedIndex]
      ensures FirstMatch(w, routes, CanonicalHost(req.sni), 0).None? && fallbackPool.None? ==>
                r.Ok? && !r.value.matched && r.value.routeIndex == -1 && r.value.backend.host == "" && r.value.candidates == []
    {
      var sni := CanonicalHost(req.sni);
      for i := 0 to |routes|
        invariant FirstMatch(w, routes, sni, 0) == FirstMatch(w, routes, sni, i)
        invariant rr == old(rr) && rrDefault == old(rrDefault) && draws == old(draws)
      {
        var patterns := routes[i].hostnames;
        for j := 0 to |patterns|
          invariant forall k :: 0 <= k < j ==> !HostnameMatches(w, patterns[k], sni)
          invariant rr == old(rr) && rrDefault == old(rrDefault) && draws == old(draws)
        {
          if HostnameMatches(w, patterns[j], sni) {
            assert RouteMatches(w, routes[i], sni);
            r := DecidePool(w, req, routes[i].pool, answer, i);
            return;
          }
        }
      }
      if fallbackPool.Some? {
        r := DecidePool(w, req, fallbackPool.value, answer, -1);
        return;
      }
      return Ok(NO_ROUTE);
    }

    /** Any sequence of decisions, with the counters before each and after the last. */
    method DecideRun(calls: seq<Call>) returns (results: seq<Result<Decision, RouteError>>, ghost trace: seq<seq<nat>>)
      requires Valid()
      modifies this
      ensures Valid() && |results| == |calls| && |trace| == |calls| + 1
      ensures trace[0] == old(Counters()) && trace[|calls|] == Counters()
      ensures IsRun(trace, results)
    {
      results, trace := [], [Counters()];
      for k := 0 to |calls|
        invariant Valid() && |results| == k && IsRun(trace, results)
        invariant trace[0] == old(Counters()) && trace[k] == Counters()
      {
        var r := Decide(calls[k].w, calls[k].req, calls[k].answer);
        RunExtends(trace, results, Counters(), r);
        results, trace := results + [r], trace + [Counters()];
      }
    }
  }

  /** What one call of Decide is given. */
  datatype Call = Call(w: World, req: Request, answer: DiscoveryAnswer)

  /** The position of a slot's counter among all counters. */
  ghost function SlotIndex(slot: int, routes: nat): nat
    requires -1 <= slot < routes
  {
    if slot == -1 then routes else slot
  }

  /** The positions of a schedule's counters. */
  ghost function Slots(schedule: seq<int>, routes: nat): (s: seq<nat>)
    requires forall k :: 0 <= k < |schedule| ==> -1 <= schedule[k] < routes
    ensures |s| == |schedule| && forall k :: 0 <= k < |s| ==> s[k] <= routes
  {
    seq(|schedule|, k requires 0 <= k < |schedule| => SlotIndex(schedule[k], routes))
  }

  /** The values returned by the steps on one counter. */
  ghost function Taken(values: seq<nat>, slots: seq<nat>, slot: nat): seq<nat>
    requires |values| == |slots|
  {
    if values == [] then []
    else
      var n := |values| - 1;
      Taken(values[..n], slots[..n], slot) + if slots[n] == slot then [values[n]] else []
  }

  /** The steps on each counter have returned what its increments hand out, and the counters stand accordingly. */
  ghost predicate Handed(before: seq<nat>, slots: seq<nat>, counters: seq<nat>, values: seq<nat>) {
    && |values| == |slots| && (forall k :: 0 <= k < |slots| ==> slots[k] < |before|)
    && counters == RoundRobin.CountersAfter(before, slots)
    && forall slot: nat :: slot < |before| ==> Taken(values, slots, slot) == RoundRobin.Seen(before, slots, slot)
  }

  lemma HandOne(before: seq<nat>, slots: seq<nat>, counters: seq<nat>, values: seq<nat>, s: nat)
    requires Handed(before, slots, counters, values) && s < |before|
    ensures Handed(before, slots + [s], counters[s := (counters[s] + 1) % TWO64], values + [counters[s]])
  {
    RoundRobin.OneMoreStep(before, slots, s);
    forall slot: nat | slot < |before|
      ensures Taken(values + [counters[s]], slots + [s], slot) == RoundRobin.Seen(before, slots + [s], slot)
    {
      TakenSnoc(values, slots, counters[s], s, slot);
    }
  }

  lemma TakenSnoc(values: seq<nat>, slots: seq<nat>, v: nat, s: nat, slot: nat)
    requires |values| == |slots|
    ensures Taken(values + [v], slots + [s], slot) == Taken(values, slots, slot) + if s == slot then [v] else []
  {
    assert (values + [v])[..|values|] == values && (slots + [s])[..|slots|] == slots;
  }

  /** What any run of selections takes from one counter spreads evenly over n candidates, unless that counter wraps. */
  lemma {:induction false} RunIsBalanced(before: seq<nat>, slots: seq<nat>, counters: seq<nat>, values: seq<nat>,
                                         slot: nat, n: nat, i: nat)
    requires Handed(before, slots, counters, values) && slot < |before| && before[slot] < TWO64 && i < n
    requires before[slot] + |Taken(values, slots, slot)| <= TWO64 || TWO64 % n == 0
    ensures var taken := Taken(values, slots, slot);
            |taken| / n <= RoundRobin.Occurrences(taken, n, i) <= (|taken| + n - 1) / n
  {
    RoundRobin.InterleavedBalance(before, slots, slot, n, i);
  }

  // ---------- whole runs of decisions ----------

  /** A decision leaves all counters alone, or takes the next value of its own route's counter and selects the candidate at
      that value modulo the number of candidates. */
  ghost predicate Counts(before: seq<nat>, after: seq<nat>, r: Result<Decision, RouteError>) {
    || before == after
    || (&& r.Ok? && -1 <= r.value.routeIndex < |before| - 1 && 0 < |r.value.candidates|
        && var s := SlotIndex(r.value.routeIndex, |before| - 1);
           && after == before[s := (before[s] + 1) % TWO64]
           && r.value.selectedIndex == before[s] % |r.value.candidates|)
  }

  /** The counter of a decision's own route either stays or hands out its value. */
  ghost predicate TookNext(slot: int, c0: nat, c1: nat, r: Result<Decision, RouteError>) {
    c1 != c0 ==>
      && r.Ok? && r.value.routeIndex == slot && 0 < |r.value.candidates|
      && c1 == (c0 + 1) % TWO64 && r.value.selectedIndex == c0 % |r.value.candidates|
  }

  lemma DecidedCounts(w: World, rng: Rng, req: Request, pool: Pool, resolved: Result<seq<Backend>, RouteError>, slot: int,
                      c0: nat, d0: nat, r: Result<Decision, RouteError>, c1: nat, d1: nat)
    requires Decided(w, rng, req, pool, resolved, slot, c0, d0, r, c1, d1) && c0 < TWO64
    ensures TookNext(slot, c0, c1, r)
  {
    if c1 != c0 {
      DecisionAdvances(w, rng, req, pool, resolved, slot, c0, d0, r, c1, d1);
      var k := FirstKeeping(w, req, Attempts(pool), resolved.value, 0).value;
      var cfg := Attempts(pool)[k];
      PickedRoundRobin(w, rng, cfg, Pipeline(w, req, cfg, resolved.value), c0, d0, Ok(r.value.selectedIndex as nat), c1, d1);
    }
  }

  /** A change to one counter only. */
  lemma SlotMoved(before: seq<nat>, after: seq<nat>, slot: int, r: Result<Decision, RouteError>)
    requires |after| == |before| > 0 && -1 <= slot < |before| - 1
    requires forall i :: 0 <= i < |before| && i != SlotIndex(slot, |before| - 1) ==> after[i] == before[i]
    requires TookNext(slot, before[SlotIndex(slot, |before| - 1)], after[SlotIndex(slot, |before| - 1)], r)
    ensures Counts(before, after, r)
  {
    var s := SlotIndex(slot, |before| - 1);
    assert after == before[s := after[s]];
  }

  ghost predicate IsRun(trace: seq<seq<nat>>, results: seq<Result<Decision, RouteError>>) {
    && |trace| == |results| + 1
    && (forall k :: 0 <= k < |trace| ==> |trace[k]| == |trace[0]|)
    && forall k :: 0 <= k < |results| ==> Counts(trace[k], trace[k + 1], results[k])
  }

  lemma RunExtends(trace: seq<seq<nat>>, results: seq<Result<Decision, RouteError>>, after: seq<nat>, r: Result<Decision, RouteError>)
    requires IsRun(trace, results) && Counts(trace[|results|], after, r)
    ensures IsRun(trace + [after], results + [r])
  {
    var t, rs := trace + [after], results + [r];
    forall k | 0 <= k < |rs|
      ensures Counts(t[k], t[k + 1], rs[k])
    {
      if k < |results| {
        assert t[k] == trace[k] && t[k + 1] == trace[k + 1] && rs[k] == results[k];
      }
    }
  }

  /** The decisions that took a value of one counter, in order: those that succeeded by round robin (DecisionAdvances). */
  ghost function TookFrom(trace: seq<seq<nat>>, results: seq<Result<Decision, RouteError>>, slot: nat): seq<Decision>
    requires IsRun(trace, results) && slot < |trace[0]|
  {
    if results == [] then []
    else
      var n := |results| - 1;
      TookFrom(trace[..n + 1], results[..n], slot)
      + if trace[n][slot] != trace[n + 1][slot] then [results[n].value] else []
  }

  lemma ShorterRun(trace: seq<seq<nat>>, results: seq<Result<Decision, RouteError>>)
    requires IsRun(trace, results) && results != []
    ensures var n := |results| - 1;
            && IsRun(trace[..n + 1], results[..n]) && trace[..n + 1][0] == trace[0] && trace[..n + 1][n] == trace[n]
            && Counts(trace[n], trace[n + 1], results[n])
  {
    var n := |results| - 1;
    forall k | 0 <= k < n
      ensures Counts(trace[..n + 1][k], trace[..n + 1][k + 1], results[..n][k])
    {
      assert Counts(trace[k], trace[k + 1], results[k]);
    }
  }

  ghost predicate InOrder(took: seq<Decision>, first: nat) {
    forall j :: 0 <= j < |took| ==>
      0 < |took[j].candidates| && took[j].selectedIndex == (first + j) % TWO64 % |took[j].candidates|
  }

  lemma {:induction false} TookInOrder(trace: seq<seq<nat>>, results: seq<Result<Decision, RouteError>>, slot: nat)
    requires IsRun(trace, results) && slot < |trace[0]| && trace[0][slot] < TWO64
    ensures var took := TookFrom(trace, results, slot);
            trace[|results|][slot] == (trace[0][slot] + |took|) % TWO64 && InOrder(took, trace[0][slot])
  {
    if results != [] {
      var n := |results| - 1;
      ShorterRun(trace, results);
      TookInOrder(trace[..n + 1], results[..n], slot);
      TookOneMore(TookFrom(trace[..n + 1], results[..n], slot), trace[0][slot], trace[n], trace[n + 1], results[n], slot);
    }
  }

  lemma TookOneMore(took: seq<Decision>, first: nat, before: seq<nat>, after: seq<nat>, r: Result<Decision, RouteError>, slot: nat)
    requires Counts(before, after, r) && slot < |before| == |after| && first < TWO64
    requires before[slot] == (first + |took|) % TWO64 && InOrder(took, first)
    ensures before[slot] != after[slot] ==>
              r.Ok? && InOrder(took + [r.value], first) && after[slot] == (first + |took| + 1) % TWO64
  {
    NextModulo(first, |took|);
  }

  lemma NextModulo(c: nat, m: nat)
    ensures ((c + m) % TWO64 + 1) % TWO64 == (c + m + 1) % TWO64
  {
  }

  function Indexes(ds: seq<Decision>): seq<int> {
    seq(|ds|, j requires 0 <= j < |ds| => ds[j].selectedIndex)
  }

  lemma {:induction false} CountsAsPicks(picked: seq<int>, v: nat, n: nat, i: nat)
    requires 0 < n && forall j :: 0 <= j < |picked| ==> picked[j] == (v + j) % TWO64 % n
    ensures multiset(picked)[i] == RoundRobin.Picks(v, |picked|, n, i)
  {
    if picked != [] {
      var m := |picked| - 1;
      CountsAsPicks(picked[..m], v, n, i);
      assert picked == picked[..m] + [picked[m]];
    }
  }

  /** Over any run of decisions on any routes, the candidates selected by round robin on one route, as long as it offers n
      of them and its counter does not wrap, are each selected floor(m/n) or ceil(m/n) times out of m. */
  lemma {:induction false} DecisionsAreBalanced(trace: seq<seq<nat>>, results: seq<Result<Decision, RouteError>>, slot: nat, n: nat, i: nat)
    requires IsRun(trace, results) && slot < |trace[0]| && trace[0][slot] < TWO64 && i < n
    requires forall j :: 0 <= j < |TookFrom(trace, results, slot)| ==> |TookFrom(trace, results, slot)[j].candidates| == n
    requires trace[0][slot] + |TookFrom(trace, results, slot)| <= TWO64 || TWO64 % n == 0
    ensures var picked := Indexes(TookFrom(trace, results, slot));
            |picked| / n <= multiset(picked)[i] <= (|picked| + n - 1) / n
  {
    var picked := Indexes(TookFrom(trace, results, slot));
    TookInOrder(trace, results, slot);
    CountsAsPicks(picked, trace[0][slot], n, i);
    RoundRobin.WindowBalanced(trace[0][slot], |picked|, n);
  }

  // ---------- consequences for decisions ----------

  lemma AttemptStrategy(pool: Pool, k: nat)
    requires k <= |pool.fallback|
    ensures Attempts(pool)[k].strategy ==
            if k == 0 || pool.fallback[k - 1].strategy.None? then StrategyOf(pool.strategy)
            else StrategyOf(pool.fallback[k - 1].strategy.value)
  {
  }

  lemma ReportsPool(w: World, rng: Rng, req: Request, pool: Pool, resolved: Result<seq<Backend>, RouteError>,
                    routeIndex: int, c0: nat, d0: nat, d: Decision, c1: nat, d1: nat)
    requires Decided(w, rng, req, pool, resolved, routeIndex, c0, d0, Ok(d), c1, d1)
    ensures d.strategy == StrategyOf(pool.strategy)
    ensures resolved.Ok? && FirstKeeping(w, req, Attempts(pool), resolved.value, 0).Some?
  {
  }

  /** A decision reports the strategy that made it exactly when the pool's own settings did, or a fallback that names no
      strategy or the pool's. */
  lemma {:induction false} StrategyReportedIff(w: World, rng: Rng, req: Request, pool: Pool, resolved: Result<seq<Backend>, RouteError>,
                                               routeIndex: int, c0: nat, d0: nat, d: Decision, c1: nat, d1: nat)
    requires Decided(w, rng, req, pool, resolved, routeIndex, c0, d0, Ok(d), c1, d1)
    ensures resolved.Ok? && FirstKeeping(w, req, Attempts(pool), resolved.value, 0).Some?
    ensures var k := FirstKeeping(w, req, Attempts(pool), resolved.value, 0).value;
            d.strategy == Attempts(pool)[k].strategy <==>
            k == 0 || pool.fallback[k - 1].strategy.None? || StrategyOf(pool.fallback[k - 1].strategy.value) == StrategyOf(pool.strategy)
  {
    ReportsPool(w, rng, req, pool, resolved, routeIndex, c0, d0, d, c1, d1);
    AttemptStrategy(pool, FirstKeeping(w, req, Attempts(pool), resolved.value, 0).value);
  }

  /** Deciding moves the route's counter by at most one, and exactly when it succeeds by round robin, base or fallback. */
  lemma {:induction false} DecisionAdvances(w: World, rng: Rng, req: Request, pool: Pool, resolved: Result<seq<Backend>, RouteError>,
                                            routeIndex: int, c0: nat, d0: nat, r: Result<Decision, RouteError>, c1: nat, d1: nat)
    requires Decided(w, rng, req, pool, resolved, routeIndex, c0, d0, r, c1, d1) && c0 < TWO64
    ensures c1 == c0 || c1 == (c0 + 1) % TWO64
    ensures c1 != c0 <==>
            && r.Ok? && resolved.Ok? && FirstKeeping(w, req, Attempts(pool), resolved.value, 0).Some?
            && Attempts(pool)[FirstKeeping(w, req, Attempts(pool), resolved.value, 0).value].strategy == RoundRobin
  {
    if resolved.Ok? {
      var sel := if r.Ok? then Ok((r.value.candidates, r.value.selectedIndex as nat)) else Err(r.error);
      OnlyRoundRobinAdvances(w, rng, req, Attempts(pool), resolved.value, c0, d0, sel, c1, d1);
    }
  }

  /** A decision names one of the pool's own candidates, one that passes the filters of the deciding attempt. */
  lemma {:induction false} DecisionIsCandidate(w: World, rng: Rng, req: Request, pool: Pool, resolved: Result<seq<Backend>, RouteError>,
                                               routeIndex: int, c0: nat, d0: nat, d: Decision, c1: nat, d1: nat)
    requires Decided(w, rng, req, pool, resolved, routeIndex, c0, d0, Ok(d), c1, d1)
    ensures resolved.Ok? && FirstKeeping(w, req, Attempts(pool), resolved.value, 0).Some?
    ensures var k := FirstKeeping(w, req, Attempts(pool), resolved.value, 0).value;
            && d.backend in resolved.value && Passes(w, req, d.backend, Attempts(pool)[k].filters)
            && 0 <= d.selectedIndex < |d.candidates| && d.backend == d.candidates[d.selectedIndex]
  {
    var k := FirstKeeping(w, req, Attempts(pool), resolved.value, 0).value;
    PipelineMembers(w, req, Attempts(pool)[k], resolved.value);
  }

  // ---------- rejection sampling, step by step ----------

  /** Fewer than n numbers leave out a number below n. */
  lemma {:induction false} Absent(s: seq<int>, n: nat) returns (i: int)
    requires |s| < n
    ensures 0 <= i < n && i !in s
  {
    if n - 1 !in s {
      i := n - 1;
    } else {
      var k :| 0 <= k < |s| && s[k] == n - 1;
      i := Absent(s[..k] + s[k + 1..], n - 1);
      assert forall j :: 0 <= j < |s| && j != k ==> s[j] in s[..k] + s[k + 1..];
    }
  }

  /** One more draw adds its index unless it has been seen. */
  lemma NextDraw(rng: Rng, n: nat, d0: nat, d: nat)
    requires 0 < n && d0 <= d
    ensures var t, i := FirstDraws(rng, n, d0, d), Draw(rng, d, n);
            FirstDraws(rng, n, d0, d + 1) == if i in t then t else t + [i]
  {
  }

  /** The running minimum of the sampling loop; -1 stands for none usable yet. */
  ghost predicate BestOf(loads: seq<Num>, chosen: seq<int>, bestIdx: int, best: Num, at: int) {
    if bestIdx == -1 then best == PosInf && NoneUsable(loads, chosen)
    else LeastAt(loads, chosen, at) && chosen[at] == bestIdx && best == loads[bestIdx]
  }

  lemma BestExtends(loads: seq<Num>, chosen: seq<int>, bestIdx: int, best: Num, at: int, i: int)
    requires BestOf(loads, chosen, bestIdx, best, at) && 0 <= i < |loads|
    ensures if NumLess(loads[i], best) then BestOf(loads, chosen + [i], i, loads[i], |chosen|)
            else BestOf(loads, chosen + [i], bestIdx, best, at)
  {
    var longer := chosen + [i];
    assert forall k :: 0 <= k < |chosen| ==> longer[k] == chosen[k];
  }
}
