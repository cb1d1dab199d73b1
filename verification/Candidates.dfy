/** Where a pool's candidates come from: static backends, discovery, merging, and removing repeated addresses. */
module Candidates {
  import opened Common
  import opened Text
  import opened RoutingTypes

  // ---------- addresses ----------

  /** The key under which dedupeBackends remembers a backend. */
  function AddressKey(b: Backend): string {
    b.host + ":" + Itoa(b.port)
  }

  /** host ":" port determines host and port, even when the host itself contains colons. */
  lemma {:induction false} AddressKeyInjective(a: Backend, b: Backend)
    ensures AddressKey(a) == AddressKey(b) <==> a.host == b.host && a.port == b.port
  {
    if AddressKey(a) == AddressKey(b) {
      ItoaCharacters(a.port);
      ItoaCharacters(b.port);
      LastColon(a.host, Itoa(a.port), b.host, Itoa(b.port));
      ItoaInjective(a.port, b.port);
    }
  }

  /** Text with a colon-free tail splits at its last colon. */
  lemma {:induction false} LastColon(h: string, p: string, h': string, p': string)
    requires h + ":" + p == h' + ":" + p'
    requires forall i :: 0 <= i < |p| ==> p[i] != ':'
    requires forall i :: 0 <= i < |p'| ==> p'[i] != ':'
    ensures h == h' && p == p'
  {
    var s := h + ":" + p;
    assert s[|h|] == ':' && s[|h'|] == ':';
    assert forall k :: |h| < k < |s| ==> s[k] == p[k - |h| - 1];
    assert forall k :: |h'| < k < |s| ==> s[k] == p'[k - |h'| - 1];
    assert |h| == |h'|;
    assert s[..|h|] == h && s[..|h|] == h' && s[|h| + 1..] == p && s[|h| + 1..] == p';
  }

  predicate Listed(bs: seq<Backend>, b: Backend) {
    exists i :: 0 <= i < |bs| && SameAddress(bs[i], b)
  }

  /** Keeps the first backend of every (host, port). */
  function Dedupe(bs: seq<Backend>): seq<Backend> {
    if bs == [] then []
    else
      var init, last := bs[..|bs| - 1], bs[|bs| - 1];
      if Listed(init, last) then Dedupe(init) else Dedupe(init) + [last]
  }

  /** Builds a new slice, remembering addresses by their textual key. */
  method DedupeBackends(bs: seq<Backend>) returns (out: seq<Backend>)
    ensures out == Dedupe(bs)
  {
    var seen: set<string> := {};
    out := [];
    for i := 0 to |bs|
      invariant out == Dedupe(bs[..i])
      invariant forall b: Backend :: AddressKey(b) in seen <==> Listed(bs[..i], b)
    {
      var k := AddressKey(bs[i]);
      assert bs[..i + 1] == bs[..i] + [bs[i]] && bs[..i + 1][..i] == bs[..i];
      RememberAddress(bs[..i], bs[i], seen);
      if k !in seen {
        seen := seen + {k};
        out := out + [bs[i]];
      } else {
        assert seen + {k} == seen;
      }
    }
    assert bs[..|bs|] == bs;
  }

  lemma RememberAddress(init: seq<Backend>, last: Backend, seen: set<string>)
    requires forall b: Backend :: AddressKey(b) in seen <==> Listed(init, b)
    ensures forall b: Backend :: AddressKey(b) in seen + {AddressKey(last)} <==> Listed(init + [last], b)
  {
    forall b: Backend
      ensures AddressKey(b) in seen + {AddressKey(last)} <==> Listed(init + [last], b)
    {
      AddressKeyInjective(last, b);
      ListedSnoc(init, last, b);
    }
  }

  lemma ListedSnoc(init: seq<Backend>, last: Backend, b: Backend)
    ensures Listed(init + [last], b) <==> Listed(init, b) || SameAddress(last, b)
  {
    var s := init + [last];
    if Listed(init, b) {
      var i :| 0 <= i < |init| && SameAddress(init[i], b);
      assert SameAddress(s[i], b);
    }
    assert s[|init|] == last;
  }

  /** Position k holds the first backend of its address. */
  ghost predicate IsFirst(bs: seq<Backend>, k: int)
    requires 0 <= k < |bs|
  {
    forall i :: 0 <= i < k ==> !SameAddress(bs[i], bs[k])
  }

  lemma FirstIffUnlisted(bs: seq<Backend>, n: nat)
    requires n < |bs|
    ensures IsFirst(bs, n) <==> !Listed(bs[..n], bs[n])
  {
    if !IsFirst(bs, n) {
      var i :| 0 <= i < n && SameAddress(bs[i], bs[n]);
      assert SameAddress(bs[..n][i], bs[n]);
    }
  }

  lemma FirstInPrefix(bs: seq<Backend>, n: nat)
    requires n <= |bs|
    ensures forall k :: 0 <= k < n ==> (IsFirst(bs[..n], k) <==> IsFirst(bs, k))
  {
    forall k | 0 <= k < n
      ensures IsFirst(bs[..n], k) <==> IsFirst(bs, k)
    {
      assert bs[..n][k] == bs[k] && forall i :: 0 <= i < k ==> bs[..n][i] == bs[i];
    }
  }

  /** Exactly the first backend of every address survives, in the original order. */
  lemma {:induction false} DedupeExact(bs: seq<Backend>) returns (p: seq<int>)
    ensures |p| == |Dedupe(bs)|
    ensures forall i :: 0 <= i < |p| ==> 0 <= p[i] < |bs| && Dedupe(bs)[i] == bs[p[i]]
    ensures forall i, j :: 0 <= i < j < |p| ==> p[i] < p[j]
    ensures forall k :: 0 <= k < |bs| ==> (k in p <==> IsFirst(bs, k))
  {
    if bs == [] {
      p := [];
    } else {
      var n := |bs| - 1;
      var q := DedupeExact(bs[..n]);
      FirstInPrefix(bs, n);
      FirstIffUnlisted(bs, n);
      assert n !in q;
      p := if Listed(bs[..n], bs[n]) then q else q + [n];
    }
  }

  lemma {:induction false} DedupeDistinct(bs: seq<Backend>)
    ensures forall i, j :: 0 <= i < j < |Dedupe(bs)| ==> !SameAddress(Dedupe(bs)[i], Dedupe(bs)[j])
  {
    var p := DedupeExact(bs);
    forall i, j | 0 <= i < j < |Dedupe(bs)|
      ensures !SameAddress(Dedupe(bs)[i], Dedupe(bs)[j])
    {
      assert p[j] in p;
      assert IsFirst(bs, p[j]) && p[i] < p[j];
    }
  }

  lemma {:induction false} DistinctUnchanged(bs: seq<Backend>)
    requires forall i, j :: 0 <= i < j < |bs| ==> !SameAddress(bs[i], bs[j])
    ensures Dedupe(bs) == bs
  {
    if bs != [] {
      DistinctUnchanged(bs[..|bs| - 1]);
    }
  }

  lemma {:induction false} DedupeIdempotent(bs: seq<Backend>)
    ensures Dedupe(Dedupe(bs)) == Dedupe(bs)
  {
    DedupeDistinct(bs);
    DistinctUnchanged(Dedupe(bs));
  }

  // ---------- resolving a pool ----------

  /** What asking the discovery provider yields: no resolver installed, an error, or its slice of backends. */
  datatype DiscoveryAnswer = NotSet | Failed | Found(backends: array<Backend>)

  function DefaultWeight(b: Backend): Backend {
    if b.weight <= 0 then b.(weight := 1) else b
  }

  function DefaultWeights(bs: seq<Backend>): seq<Backend> {
    seq(|bs|, i requires 0 <= i < |bs| => DefaultWeight(bs[i]))
  }

  function Merged(mode: string, disc: seq<Backend>, configured: seq<Backend>): Option<seq<Backend>> {
    var m := Normalize(mode);
    if m == "prefer" then Some(if |disc| > 0 then disc else configured)
    else if m == "" || m == "union" then Some(disc + configured)
    else None
  }

  /** What is left of merged backends: one for every address, its weight defaulted. */
  function Kept(weighted: bool, bs: seq<Backend>): seq<Backend> {
    if weighted then DefaultWeights(Dedupe(bs)) else Dedupe(bs)
  }

  /** The candidates of a pool with a discovery section, from what discovery found. */
  function FromDiscovery(mode: string, weighted: bool, disc: seq<Backend>, configured: seq<Backend>)
    : Result<seq<Backend>, RouteError>
  {
    match Merged(mode, disc, configured)
    case None => Err(InvalidDiscoveryMode)
    case Some(m) =>
      var kept := Kept(weighted, m);
      if kept == [] then Err(NoBackends) else Ok(kept)
  }

  // ---------- what each mode promises ----------

  /** b is d, its weight defaulted to 1 where the strategy is weighted. */
  predicate Stands(b: Backend, d: Backend, weighted: bool) {
    && b.host == d.host && b.port == d.port && b.meta == d.meta
    && b.weight == if weighted && d.weight <= 0 then 1 else d.weight
  }

  /** b stands for a member of source. */
  ghost predicate FromSource(b: Backend, source: seq<Backend>, weighted: bool) {
    exists j :: 0 <= j < |source| && Stands(b, source[j], weighted)
  }

  /** kept holds members of source only, and one for every address of source. */
  ghost predicate Represents(kept: seq<Backend>, source: seq<Backend>, weighted: bool) {
    && (forall i :: 0 <= i < |kept| ==> FromSource(kept[i], source, weighted))
    && (forall j :: 0 <= j < |source| ==> Listed(kept, source[j]))
  }

  /** The first backend of its address. */
  lemma {:induction false} FirstOfAddress(bs: seq<Backend>, k: nat) returns (i: nat)
    requires k < |bs|
    ensures i <= k && SameAddress(bs[i], bs[k]) && IsFirst(bs, i)
  {
    if IsFirst(bs, k) {
      i := k;
    } else {
      var j :| 0 <= j < k && SameAddress(bs[j], bs[k]);
      i := FirstOfAddress(bs, j);
    }
  }

  /** What is kept of bs: the first backend of every address; p lists their positions. */
  lemma {:induction false} KeptExact(weighted: bool, bs: seq<Backend>) returns (p: seq<int>)
    ensures |p| == |Kept(weighted, bs)|
    ensures forall i :: 0 <= i < |p| ==> 0 <= p[i] < |bs| && Stands(Kept(weighted, bs)[i], bs[p[i]], weighted)
    ensures forall i, j :: 0 <= i < j < |p| ==> p[i] < p[j]
    ensures forall k :: 0 <= k < |bs| ==> (k in p <==> IsFirst(bs, k))
  {
    p := DedupeExact(bs);
  }

  lemma {:induction false} KeptRepresents(weighted: bool, bs: seq<Backend>)
    ensures Represents(Kept(weighted, bs), bs, weighted) && (Kept(weighted, bs) == [] <==> bs == [])
  {
    var kept := Kept(weighted, bs);
    var p := KeptExact(weighted, bs);
    forall j | 0 <= j < |bs|
      ensures Listed(kept, bs[j])
    {
      var f := FirstOfAddress(bs, j);
      assert f in p;
      var i :| 0 <= i < |p| && p[i] == f;
      assert SameAddress(kept[i], bs[j]);
    }
    if bs != [] {
      assert Listed(kept, bs[0]);
    }
  }

  /** Mode "prefer": exactly the discovered addresses when there are any, whatever is configured; else the configured ones. */
  lemma {:induction false} PreferMeans(mode: string, weighted: bool, disc: seq<Backend>, configured: seq<Backend>)
    requires Normalize(mode) == "prefer"
    ensures var source, r := if disc != [] then disc else configured, FromDiscovery(mode, weighted, disc, configured);
            if source == [] then r == Err(NoBackends) else r.Ok? && Represents(r.value, source, weighted)
    ensures disc != [] ==> forall other :: FromDiscovery(mode, weighted, disc, other) == FromDiscovery(mode, weighted, disc, configured)
  {
    KeptRepresents(weighted, disc);
    KeptRepresents(weighted, configured);
  }

  /** An unknown mode is an error, whatever there is to merge. */
  lemma OtherModesFail(mode: string, weighted: bool, disc: seq<Backend>, configured: seq<Backend>)
    requires Normalize(mode) != "" && Normalize(mode) != "union" && Normalize(mode) != "prefer"
    ensures FromDiscovery(mode, weighted, disc, configured) == Err(InvalidDiscoveryMode)
  {
  }

  /** A backend stands for a discovered one at every address that discovery found and for a configured one elsewhere, and
      the discovered ones come first. */
  ghost predicate DiscoveryLeads(kept: seq<Backend>, disc: seq<Backend>, configured: seq<Backend>, weighted: bool) {
    && (forall i :: 0 <= i < |kept| ==> FromSource(kept[i], if Listed(disc, kept[i]) then disc else configured, weighted))
    && (forall i, j :: 0 <= i < j < |kept| && Listed(disc, kept[j]) ==> Listed(disc, kept[i]))
  }

  /** Where the first backend of an address in disc + configured stands. */
  lemma FromEither(disc: seq<Backend>, configured: seq<Backend>, b: Backend, k: nat, weighted: bool)
    requires k < |disc + configured| && IsFirst(disc + configured, k) && Stands(b, (disc + configured)[k], weighted)
    ensures Listed(disc, b) <==> k < |disc|
    ensures var source := if k < |disc| then disc else configured;
            FromSource(b, source, weighted)
  {
    var all := disc + configured;
    if k < |disc| {
      assert SameAddress(disc[k], b) && Stands(b, disc[k], weighted);
    } else {
      assert Stands(b, configured[k - |disc|], weighted);
      forall j | 0 <= j < |disc|
        ensures !SameAddress(disc[j], b)
      {
        assert !SameAddress(all[j], all[k]);
      }
    }
  }

  lemma {:induction false} UnionLeads(disc: seq<Backend>, configured: seq<Backend>, weighted: bool)
    ensures DiscoveryLeads(Kept(weighted, disc + configured), disc, configured, weighted)
  {
    var all := disc + configured;
    var p := KeptExact(weighted, all);
    var kept := Kept(weighted, all);
    forall i | 0 <= i < |kept|
      ensures Listed(disc, kept[i]) <==> p[i] < |disc|
      ensures FromSource(kept[i], if Listed(disc, kept[i]) then disc else configured, weighted)
    {
      assert p[i] in p;
      FromEither(disc, configured, kept[i], p[i], weighted);
    }
  }

  /** Mode "union", the default: every discovered and every configured address, each once; a configured backend survives
      exactly where discovery found nothing, and stands behind all discovered ones. */
  lemma {:induction false} UnionMeans(mode: string, weighted: bool, disc: seq<Backend>, configured: seq<Backend>)
    requires Normalize(mode) == "" || Normalize(mode) == "union"
    ensures var r := FromDiscovery(mode, weighted, disc, configured);
            if disc == [] && configured == [] then r == Err(NoBackends)
            else r.Ok? && Represents(r.value, disc + configured, weighted) && DiscoveryLeads(r.value, disc, configured, weighted)
  {
    assert Merged(mode, disc, configured) == Some(disc + configured);
    KeptRepresents(weighted, disc + configured);
    UnionLeads(disc, configured, weighted);
  }

  function Resolved(pool: Pool, answer: DiscoveryAnswer): Result<seq<Backend>, RouteError>
    reads pool.backends, if answer.Found? then {answer.backends} else {}
  {
    match pool.discovery
    case None => if pool.backends.Length == 0 then Err(NoBackends) else Ok(pool.backends[..])
    case Some(d) =>
      match answer
      case NotSet => Err(DiscoveryNotSet)
      case Failed => Err(DiscoveryFailed)
      case Found(disc) =>
        FromDiscovery(d.mode, Normalize(pool.strategy) == "weighted", disc[..], pool.backends[..])
  }

  /** Without discovery this hands out the configured slice itself; otherwise a new one. */
  method ResolveCandidates(pool: Pool, answer: DiscoveryAnswer) returns (r: Result<array<Backend>, RouteError>)
    ensures r.Err? ==> Resolved(pool, answer) == Err(r.error)
    ensures r.Ok? ==> Resolved(pool, answer) == Ok(r.value[..]) && (r.value == pool.backends || fresh(r.value))
    ensures pool.discovery.None? ==> r == if pool.backends.Length == 0 then Err(NoBackends) else Ok(pool.backends)
    ensures pool.discovery.Some? ==>
              match answer
              case NotSet => r == Err(DiscoveryNotSet)
              case Failed => r == Err(DiscoveryFailed)
              case Found(disc) =>
                var found := FromDiscovery(pool.discovery.value.mode, Normalize(pool.strategy) == "weighted", disc[..], pool.backends[..]);
                if r.Ok? then fresh(r.value) && found == Ok(r.value[..]) else found == Err(r.error)
  {
    if pool.discovery.None? {
      if pool.backends.Length == 0 {
        return Err(NoBackends);
      }
      return Ok(pool.backends);
    }
    if answer.NotSet? {
      return Err(DiscoveryNotSet);
    }
    if answer.Failed? {
      return Err(DiscoveryFailed);
    }
    var merged := Merged(pool.discovery.value.mode, answer.backends[..], pool.backends[..]);
    if merged.None? {
      return Err(InvalidDiscoveryMode);
    }
    var kept := DedupeBackends(merged.value);
    var out := new Backend[|kept|](i requires 0 <= i < |kept| => kept[i]);
    assert out[..] == kept;
    if Normalize(pool.strategy) == "weighted" {
      for i := 0 to out.Length
        invariant forall k :: 0 <= k < i ==> out[k] == DefaultWeights(kept)[k]
        invariant forall k :: i <= k < out.Length ==> out[k] == kept[k]
      {
        if out[i].weight <= 0 {
          out[i] := out[i].(weight := 1);
        }
      }
      assert out[..] == DefaultWeights(kept);
    }
    if out.Length == 0 {
      return Err(NoBackends);
    }
    return Ok(out);
  }
}
