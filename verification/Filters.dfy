/** Backend filters and the copying filter pass. */
module Filters {
  import opened Common
  import opened Text
  import opened RoutingTypes
  import opened BackendOrder

  function SplitComma(s: string): seq<string> {
    if s == "" then [""]
    else
      var t := SplitComma(s[..|s| - 1]);
      if s[|s| - 1] == ',' then t + [""] else t[..|t| - 1] + [(if |t| > 0 then t[|t| - 1] else "") + [s[|s| - 1]]]
  }

  predicate ListContains(w: World, raw: string, want: string) {
    var list := TrimSpace(raw);
    if list == "" then false
    else if list[0] == '[' then
      match w.parseList(list)
      case None => false
      case Some(xs) => want in xs
    else exists p | p in SplitComma(list) :: TrimSpace(p) == want
  }

  predicate CompareMatches(w: World, b: Backend, f: Filter) {
    var l, r := SortValue(w, b, f.left, true), SortValue(w, b, f.right, true);
    if !l.ok || !r.ok then false
    else
      var op := Normalize(f.op);
      if op == "lt" then NumLess(l.num, r.num)
      else if op == "lte" then NumLess(l.num, r.num) || NumEq(l.num, r.num)
      else if op == "gt" then NumLess(r.num, l.num)
      else if op == "gte" then NumLess(r.num, l.num) || NumEq(l.num, r.num)
      else if op == "eq" then NumEq(l.num, r.num)
      else if op == "neq" then !NumEq(l.num, r.num)
      else false
  }

  predicate WhitelistMatches(w: World, req: Request, b: Backend, f: Filter) {
    var enabledKey, listKey := TrimSpace(f.enabledKey), TrimSpace(f.listKey);
    if enabledKey == "" then false
    else
      var v := ToLower(TrimSpace(MetaGet(b.meta, enabledKey)));
      if v != "true" && v != "1" && v != "yes" then true
      else if listKey == "" then false
      else
        var raw := TrimSpace(MetaGet(b.meta, listKey));
        var named := Normalize(f.subject);
        var subject := if named == "" then "uuid" else named;
        if raw == "" then false
        else if subject != "uuid" && subject != "username" then false
        else
          var want := TrimSpace(if subject == "uuid" then req.uuid else req.username);
          want != "" && ListContains(w, raw, want)
  }

  predicate StartNotPast(w: World, b: Backend, f: Filter) {
    var key := TrimSpace(f.key);
    if key == "" then false
    else
      var raw := TrimSpace(MetaGet(b.meta, key));
      if raw == "" then true
      else
        match w.parseInt(raw)
        case None => false
        case Some(n) => n == -1 || (if 0 < n < 10_000_000_000 then n * 1000 else n) > w.nowMillis
  }

  predicate FilterMatches(w: World, req: Request, b: Backend, f: Filter) {
    var kind := Normalize(f.kind);
    if kind == "compare" then CompareMatches(w, b, f)
    else if kind == "whitelist" then WhitelistMatches(w, req, b, f)
    else if kind == "game_start_not_past" then StartNotPast(w, b, f)
    else false
  }

  predicate Passes(w: World, req: Request, b: Backend, filters: seq<Filter>) {
    forall i :: 0 <= i < |filters| ==> FilterMatches(w, req, b, filters[i])
  }

  function Verdicts(w: World, req: Request, bs: seq<Backend>, filters: seq<Filter>): (v: seq<bool>)
    ensures |v| == |bs| && forall i :: 0 <= i < |bs| ==> v[i] == Passes(w, req, bs[i], filters)
  {
    seq(|bs|, i requires 0 <= i < |bs| => Passes(w, req, bs[i], filters))
  }

  function Filtered(w: World, req: Request, bs: seq<Backend>, filters: seq<Filter>): seq<Backend> {
    Sieve(bs, Verdicts(w, req, bs, filters))
  }

  lemma {:induction false} KeepAll<T>(s: seq<T>, keep: seq<bool>)
    requires |keep| == |s| && forall i :: 0 <= i < |keep| ==> keep[i]
    ensures Sieve(s, keep) == s
  {
    if s != [] {
      KeepAll(s[..|s| - 1], keep[..|s| - 1]);
    }
  }

  lemma NoFiltersKeepAll(w: World, req: Request, bs: seq<Backend>)
    ensures Filtered(w, req, bs, []) == bs
  {
    KeepAll(bs, Verdicts(w, req, bs, []));
  }

  /** Checks filters in order and stops at the first that rejects. */
  method PassesAll(w: World, req: Request, b: Backend, filters: seq<Filter>) returns (ok: bool)
    ensures ok == Passes(w, req, b, filters)
  {
    ok := true;
    for i := 0 to |filters|
      invariant ok && forall j :: 0 <= j < i ==> FilterMatches(w, req, b, filters[j])
    {
      if !FilterMatches(w, req, b, filters[i]) {
        return false;
      }
    }
  }

  /** The result is always a new slice, so that sorting it cannot touch the caller's backends. */
  method ApplyFilters(w: World, req: Request, backends: array<Backend>, filters: seq<Filter>) returns (kept: array<Backend>)
    ensures fresh(kept) && kept[..] == Filtered(w, req, backends[..], filters)
  {
    if |filters| == 0 {
      NoFiltersKeepAll(w, req, backends[..]);
      kept := new Backend[backends.Length](i requires 0 <= i < backends.Length reads backends => backends[i]);
      return;
    }
    ghost var verdicts := Verdicts(w, req, backends[..], filters);
    var out: seq<Backend> := [];
    for i := 0 to backends.Length
      invariant out == Sieve(backends[..i], verdicts[..i])
    {
      var ok := PassesAll(w, req, backends[i], filters);
      assert backends[..i + 1][..i] == backends[..i] && verdicts[..i + 1][..i] == verdicts[..i];
      if ok {
        out := out + [backends[i]];
      }
    }
    assert backends[..backends.Length] == backends[..] && verdicts[..backends.Length] == verdicts;
    kept := new Backend[|out|](i requires 0 <= i < |out| => out[i]);
  }

  // ---------- what the filters mean ----------

  /** "compare" on two numbers is the comparison its operator names; with NaN only "neq" holds, and any other operator
      matches nothing. */
  lemma CompareMeans(w: World, req: Request, b: Backend, f: Filter)
    requires Normalize(f.kind) == "compare" && SortValue(w, b, f.left, true).ok && SortValue(w, b, f.right, true).ok
    ensures var op, x, y := Normalize(f.op), SortValue(w, b, f.left, true).num, SortValue(w, b, f.right, true).num;
            var matches := FilterMatches(w, req, b, f);
            && (x == NaN || y == NaN ==> (matches <==> op == "neq"))
            && (x.Fin? && y.Fin? ==>
                  && (op == "lt" ==> (matches <==> x.value < y.value)) && (op == "lte" ==> (matches <==> x.value <= y.value))
                  && (op == "gt" ==> (matches <==> x.value > y.value)) && (op == "gte" ==> (matches <==> x.value >= y.value))
                  && (op == "eq" ==> (matches <==> x.value == y.value)) && (op == "neq" ==> (matches <==> x.value != y.value)))
            && (op != "lt" && op != "lte" && op != "gt" && op != "gte" && op != "eq" && op != "neq" ==> !matches)
  {
  }

  /** A value that is missing matches no comparison. */
  lemma CompareMissing(w: World, req: Request, b: Backend, f: Filter)
    requires Normalize(f.kind) == "compare" && (!SortValue(w, b, f.left, true).ok || !SortValue(w, b, f.right, true).ok)
    ensures !FilterMatches(w, req, b, f)
  {
  }

  /** A backend's whitelist is on when its switch reads "true", "1" or "yes". */
  predicate WhitelistOn(b: Backend, f: Filter) {
    var v := ToLower(TrimSpace(MetaGet(b.meta, TrimSpace(f.enabledKey))));
    v == "true" || v == "1" || v == "yes"
  }

  /** Where the whitelist is off everybody passes. Where it is on, a client passes exactly when the list holds the client's
      uuid, or username where the filter says so. */
  lemma WhitelistMeans(w: World, req: Request, b: Backend, f: Filter)
    requires Normalize(f.kind) == "whitelist" && TrimSpace(f.enabledKey) != "" && TrimSpace(f.listKey) != ""
    ensures !WhitelistOn(b, f) ==> FilterMatches(w, req, b, f)
    ensures var list, subject := TrimSpace(MetaGet(b.meta, TrimSpace(f.listKey))), Normalize(f.subject);
            WhitelistOn(b, f) ==>
              && (subject == "uuid" || subject == "" ==>
                    (FilterMatches(w, req, b, f) <==> TrimSpace(req.uuid) != "" && list != "" && ListContains(w, list, TrimSpace(req.uuid))))
              && (subject == "username" ==>
                    (FilterMatches(w, req, b, f) <==>
                     TrimSpace(req.username) != "" && list != "" && ListContains(w, list, TrimSpace(req.username))))
              && (subject != "uuid" && subject != "" && subject != "username" ==> !FilterMatches(w, req, b, f))
  {
    WhitelistUnfolds(w, req, b, f);
  }

  lemma WhitelistUnfolds(w: World, req: Request, b: Backend, f: Filter)
    requires Normalize(f.kind) == "whitelist"
    ensures FilterMatches(w, req, b, f) == WhitelistMatches(w, req, b, f)
  {
  }

  /** A game start passes unless it lies in the past: in seconds when below 10^10, else in milliseconds; -1 and a start that
      is not given pass, text that is no number does not. */
  lemma StartMeans(w: World, req: Request, b: Backend, f: Filter)
    requires Normalize(f.kind) == "game_start_not_past" && TrimSpace(f.key) != ""
    ensures var raw, matches := TrimSpace(MetaGet(b.meta, TrimSpace(f.key))), FilterMatches(w, req, b, f);
            && (raw == "" ==> matches)
            && (raw != "" && w.parseInt(raw) == None ==> !matches)
            && (raw != "" && w.parseInt(raw).Some? ==>
                  var n := w.parseInt(raw).value;
                  matches <==> n == -1 || (if 0 < n < 10_000_000_000 then 1000 * n > w.nowMillis else n > w.nowMillis))
  {
    StartUnfolds(w, req, b, f);
  }

  lemma StartUnfolds(w: World, req: Request, b: Backend, f: Filter)
    requires Normalize(f.kind) == "game_start_not_past"
    ensures FilterMatches(w, req, b, f) == StartNotPast(w, b, f)
  {
  }

  /** The parts, with a comma between any two. */
  function JoinComma(parts: seq<string>): string {
    if parts == [] then ""
    else if |parts| == 1 then parts[0]
    else JoinComma(parts[..|parts| - 1]) + "," + parts[|parts| - 1]
  }

  lemma {:induction false} SplitJoins(s: string)
    ensures SplitComma(s) != [] && JoinComma(SplitComma(s)) == s
  {
    if s != "" {
      var n := |s| - 1;
      var t := SplitComma(s[..n]);
      SplitJoins(s[..n]);
      assert s == s[..n] + [s[n]];
      var m := |t| - 1;
      if s[n] == ',' {
        assert (t + [""])[..|t|] == t;
        assert JoinComma(t + [""]) == JoinComma(t) + "," + "";
      } else {
        JoinLast(t[..m], t[m], [s[n]]);
        assert t == t[..m] + [t[m]];
      }
    }
  }

  lemma {:induction false} SplitNoComma(s: string)
    ensures forall i :: 0 <= i < |SplitComma(s)| ==> ',' !in SplitComma(s)[i]
  {
    if s != "" {
      SplitNoComma(s[..|s| - 1]);
    }
  }

  /** Splitting takes a text apart at its commas, all of them. */
  lemma {:induction false} SplitExact(s: string)
    ensures JoinComma(SplitComma(s)) == s
    ensures forall i :: 0 <= i < |SplitComma(s)| ==> ',' !in SplitComma(s)[i]
  {
    SplitJoins(s);
    SplitNoComma(s);
  }

  lemma JoinLast(init: seq<string>, last: string, more: string)
    ensures JoinComma(init + [last + more]) == JoinComma(init + [last]) + more
  {
    assert (init + [last + more])[..|init|] == init && (init + [last])[..|init|] == init;
    if init != [] {
      assert JoinComma(init) + "," + (last + more) == JoinComma(init) + "," + last + more;
    }
  }

  /** A list that is not JSON holds what stands between its commas, outer spaces aside. */
  lemma ListMeans(w: World, raw: string, want: string)
    requires TrimSpace(raw) != "" && TrimSpace(raw)[0] != '['
    ensures ListContains(w, raw, want) <==>
            exists i :: 0 <= i < |SplitComma(TrimSpace(raw))| && TrimSpace(SplitComma(TrimSpace(raw))[i]) == want
  {
    var parts := SplitComma(TrimSpace(raw));
    if ListContains(w, raw, want) {
      var p :| p in parts && TrimSpace(p) == want;
      var i :| 0 <= i < |parts| && parts[i] == p;
      assert TrimSpace(parts[i]) == want;
    }
  }

  /** Exactly the backends that every filter matches, each kept once and in the original order; p lists their positions. */
  lemma {:induction false} FilteredExact(w: World, req: Request, bs: seq<Backend>, filters: seq<Filter>) returns (p: seq<int>)
    ensures |p| == |Filtered(w, req, bs, filters)|
    ensures forall i :: 0 <= i < |p| ==> 0 <= p[i] < |bs| && Filtered(w, req, bs, filters)[i] == bs[p[i]]
    ensures forall i, j :: 0 <= i < j < |p| ==> p[i] < p[j]
    ensures forall k :: k in p <==> 0 <= k < |bs| && forall i :: 0 <= i < |filters| ==> FilterMatches(w, req, bs[k], filters[i])
  {
    var keep := Verdicts(w, req, bs, filters);
    p := Positions(keep);
    PositionsExact(keep);
    PositionsIncrease(keep);
    SieveLength(bs, keep);
    forall i | 0 <= i < |p|
      ensures 0 <= p[i] < |bs| && Sieve(bs, keep)[i] == bs[p[i]]
    {
      SieveAt(bs, keep, i);
    }
    forall k | 0 <= k < |bs|
      ensures keep[k] <==> forall i :: 0 <= i < |filters| ==> FilterMatches(w, req, bs[k], filters[i])
    {
      assert keep[k] == Passes(w, req, bs[k], filters);
    }
  }
}
