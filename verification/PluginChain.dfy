/** The chain of plugins consulted on a Connect packet. */
module PluginChain {
  import opened Common
  import opened Bytes
  import opened RoutingTypes
  import Selection

  /** What a plugin is told about the client; the fields of the Connect packet and the TLS handshake. */
  datatype Event = Event(sni: string, fingerprint: string, protocolHash: GoString, clientType: int, uuid: GoString,
                         username: GoString, language: GoString, identityTokenPresent: bool)

  /** What a plugin sees and later plugins inherit. None content is Go's nil slice. */
  datatype Proposal = Proposal(strategy: Selection.Strategy, candidates: seq<Backend>, selectedIndex: int, backend: Backend, content: Option<Bytes>)

  datatype Response = Response(deny: bool, denyReason: GoString, candidates: Option<seq<Backend>>, selectedIndex: Option<int>,
                               backend: Option<Backend>, content: Option<Bytes>)

  /** A plugin is an oracle; None is a failed or timed-out call. */
  type Plugin = (Event, Proposal) -> Option<Response>

  datatype ApplyResult = ApplyResult(denied: bool, denyReason: GoString, route: Proposal)

  /** The first candidate with b's address. */
  function IndexOf(candidates: seq<Backend>, b: Backend): Option<nat> {
    if candidates == [] then None
    else if SameAddress(candidates[0], b) then Some(0)
    else match IndexOf(candidates[1..], b)
      case None => None
      case Some(i) => Some(i + 1)
  }

  function WithCandidates(r: Proposal, cs: Option<seq<Backend>>): Proposal {
    if cs.Some? && |cs.value| > 0 then r.(candidates := cs.value) else r
  }

  function WithIndex(r: Proposal, idx: Option<int>): Proposal {
    if idx.Some? && 0 <= idx.value < |r.candidates|
    then r.(selectedIndex := idx.value, backend := r.candidates[idx.value]) else r
  }

  function WithBackend(r: Proposal, b: Option<Backend>): Proposal {
    if b.None? then r
    else
      match IndexOf(r.candidates, b.value)
      case None => r.(backend := b.value)
      case Some(i) => r.(backend := b.value, selectedIndex := i)
  }

  function WithDefault(r: Proposal): Proposal {
    if r.backend.host == "" && |r.candidates| > 0 then r.(selectedIndex := 0, backend := r.candidates[0]) else r
  }

  function WithContent(r: Proposal, c: Option<Bytes>): Proposal {
    if c.Some? then r.(content := c) else r
  }

  /** The effect of one accepted, non-denying response. */
  function Step(r: Proposal, pr: Response): Proposal {
    WithContent(WithDefault(WithBackend(WithIndex(WithCandidates(r, pr.candidates), pr.selectedIndex), pr.backend)), pr.content)
  }

  /** The chain as a fold: failed calls are skipped and the first deny ends it. */
  function Chain(ps: seq<Plugin>, ev: Event, r: Proposal): ApplyResult {
    if ps == [] then ApplyResult(false, "", r)
    else
      match ps[0](ev, r)
      case None => Chain(ps[1..], ev, r)
      case Some(pr) => if pr.deny then ApplyResult(true, pr.denyReason, r) else Chain(ps[1..], ev, Step(r, pr))
  }

  /** The search for the candidate matching an overriding backend. */
  method FindCandidate(candidates: seq<Backend>, b: Backend, selected: int) returns (idx: int)
    ensures idx == match IndexOf(candidates, b) { case None => selected case Some(i) => i }
  {
    for i := 0 to |candidates|
      invariant IndexOf(candidates, b) ==
                match IndexOf(candidates[i..], b) { case None => None case Some(k) => Some(i + k) }
    {
      if SameAddress(candidates[i], b) {
        return i;
      }
    }
    return selected;
  }

  /** Each plugin is asked in turn; consulted counts the calls made. */
  method ApplyOnConnect(ps: seq<Plugin>, ev: Event, start: Proposal) returns (res: ApplyResult, consulted: nat)
    ensures res == Chain(ps, ev, start)
    ensures consulted == Consulted(ps, ev, start)
  {
    res, consulted := ApplyResult(false, "", start), 0;
    for i := 0 to |ps|
      invariant !res.denied && res.denyReason == "" && consulted == i
      invariant Chain(ps, ev, start) == Chain(ps[i..], ev, res.route)
      invariant Consulted(ps, ev, start) == i + Consulted(ps[i..], ev, res.route)
    {
      var answer := ps[i](ev, res.route);
      consulted := consulted + 1;
      if answer.None? {
        continue;
      }
      var pr := answer.value;
      if pr.deny {
        return res.(denied := true, denyReason := pr.denyReason), consulted;
      }
      var r := res.route;
      if pr.candidates.Some? && |pr.candidates.value| > 0 {
        r := r.(candidates := pr.candidates.value);
      }
      if pr.selectedIndex.Some? && 0 <= pr.selectedIndex.value < |r.candidates| {
        r := r.(selectedIndex := pr.selectedIndex.value, backend := r.candidates[pr.selectedIndex.value]);
      }
      if pr.backend.Some? {
        var idx := FindCandidate(r.candidates, pr.backend.value, r.selectedIndex);
        r := r.(backend := pr.backend.value, selectedIndex := idx);
      }
      if r.backend.host == "" && |r.candidates| > 0 {
        r := r.(selectedIndex := 0, backend := r.candidates[0]);
      }
      if pr.content.Some? {
        r := r.(content := pr.content);
      }
      res := res.(route := r);
    }
  }

  // ---------- whole chains ----------

  function Consulted(ps: seq<Plugin>, ev: Event, r: Proposal): nat {
    if ps == [] then 0
    else
      match ps[0](ev, r)
      case None => 1 + Consulted(ps[1..], ev, r)
      case Some(pr) => if pr.deny then 1 else 1 + Consulted(ps[1..], ev, Step(r, pr))
  }

  /** The successful, non-denying answers the chain uses, in order. */
  function Answers(ps: seq<Plugin>, ev: Event, r: Proposal): seq<Response> {
    if ps == [] then []
    else
      match ps[0](ev, r)
      case None => Answers(ps[1..], ev, r)
      case Some(pr) => if pr.deny then [] else [pr] + Answers(ps[1..], ev, Step(r, pr))
  }

  lemma {:induction false} PluginsAfterDenyIgnored(ps: seq<Plugin>, more: seq<Plugin>, ev: Event, r: Proposal)
    requires Chain(ps, ev, r).denied
    ensures Chain(ps + more, ev, r) == Chain(ps, ev, r) && Consulted(ps + more, ev, r) == Consulted(ps, ev, r) <= |ps|
  {
    assert (ps + more)[1..] == ps[1..] + more;
    match ps[0](ev, r) {
      case None => PluginsAfterDenyIgnored(ps[1..], more, ev, r);
      case Some(pr) =>
        if !pr.deny {
          PluginsAfterDenyIgnored(ps[1..], more, ev, Step(r, pr));
        }
    }
  }

  /** A plugin that fails when it is asked, or is not asked at all, might as well not be configured. */
  lemma {:induction false} FailingPluginInvisible(before: seq<Plugin>, p: Plugin, after: seq<Plugin>, ev: Event, r: Proposal)
    requires Chain(before, ev, r).denied || p(ev, Chain(before, ev, r).route).None?
    ensures Chain(before + [p] + after, ev, r) == Chain(before + after, ev, r)
  {
    var all, rest := before + [p] + after, before + after;
    if before == [] {
      assert all[0] == p && all[1..] == after && rest == after;
    } else {
      assert all[1..] == before[1..] + [p] + after && rest[1..] == before[1..] + after;
      match before[0](ev, r) {
        case None => FailingPluginInvisible(before[1..], p, after, ev, r);
        case Some(pr) =>
          if !pr.deny {
            FailingPluginInvisible(before[1..], p, after, ev, Step(r, pr));
          }
      }
    }
  }

  /** Without a single usable answer the chain hands back what it was given. */
  lemma {:induction false} NoAnswersNoChange(ps: seq<Plugin>, ev: Event, r: Proposal)
    requires Answers(ps, ev, r) == []
    ensures Chain(ps, ev, r).route == r
  {
    if ps != [] {
      match ps[0](ev, r) {
        case None => NoAnswersNoChange(ps[1..], ev, r);
        case Some(pr) =>
      }
    }
  }

  /** The last content any answer set, else the initial one. */
  function LastContent(answers: seq<Response>, start: Option<Bytes>): Option<Bytes> {
    if answers == [] then start
    else if answers[|answers| - 1].content.Some? then answers[|answers| - 1].content
    else LastContent(answers[..|answers| - 1], start)
  }

  lemma {:induction false} LastContentCons(pr: Response, answers: seq<Response>, start: Option<Bytes>)
    ensures LastContent([pr] + answers, start) == LastContent(answers, if pr.content.Some? then pr.content else start)
  {
    var all := [pr] + answers;
    if answers == [] {
      assert all == [pr] && all[..0] == [];
    } else {
      LastContentCons(pr, answers[..|answers| - 1], start);
      assert all[..|all| - 1] == [pr] + answers[..|answers| - 1];
    }
  }

  /** The final referral content is the last one set before any deny; candidates never become empty. */
  lemma {:induction false} ChainContentAndCandidates(ps: seq<Plugin>, ev: Event, r: Proposal)
    ensures Chain(ps, ev, r).route.content == LastContent(Answers(ps, ev, r), r.content)
    ensures r.candidates != [] ==> Chain(ps, ev, r).route.candidates != []
  {
    if ps != [] {
      match ps[0](ev, r) {
        case None => ChainContentAndCandidates(ps[1..], ev, r);
        case Some(pr) =>
          if !pr.deny {
            ChainContentAndCandidates(ps[1..], ev, Step(r, pr));
            LastContentCons(pr, Answers(ps[1..], ev, Step(r, pr)), r.content);
          }
      }
    }
  }

  /** A denied chain was denied by its first plugin that answers with a denial, in that plugin's words; until then the chain
      went on as if the later plugins were not there. */
  lemma {:induction false} FirstDeny(ps: seq<Plugin>, ev: Event, r: Proposal) returns (k: nat)
    requires Chain(ps, ev, r).denied
    ensures k < |ps| && !Chain(ps[..k], ev, r).denied
    ensures var before := Chain(ps[..k], ev, r).route;
            && ps[k](ev, before).Some? && ps[k](ev, before).value.deny
            && Chain(ps, ev, r) == ApplyResult(true, ps[k](ev, before).value.denyReason, before)
  {
    k := 0;
    match ps[0](ev, r) {
      case None =>
        k := FirstDeny(ps[1..], ev, r);
        k := k + 1;
        assert ps[..k][1..] == ps[1..][..k - 1];
      case Some(pr) =>
        if !pr.deny {
          k := FirstDeny(ps[1..], ev, Step(r, pr));
          k := k + 1;
          assert ps[..k][1..] == ps[1..][..k - 1];
        }
    }
  }

  /** Where no plugin denies, no call along the chain answered with a denial, and there is no reason. */
  lemma {:induction false} NoDeny(ps: seq<Plugin>, ev: Event, r: Proposal, k: nat)
    requires !Chain(ps, ev, r).denied && k < |ps|
    ensures Chain(ps, ev, r).denyReason == "" && !Chain(ps[..k], ev, r).denied
    ensures var answer := ps[k](ev, Chain(ps[..k], ev, r).route); answer.Some? ==> !answer.value.deny
  {
    var answer := ps[0](ev, r);
    if k == 0 {
      if |ps| > 1 {
        NoDeny(ps[1..], ev, if answer.None? then r else Step(r, answer.value), 0);
      }
    } else {
      assert ps[..k][1..] == ps[1..][..k - 1];
      NoDeny(ps[1..], ev, if answer.None? then r else Step(r, answer.value), k - 1);
    }
  }

  /** The candidates after an answer: its own, unless it gives none. */
  function CandidatesAfter(r: Proposal, pr: Response): seq<Backend> {
    if pr.candidates.Some? && pr.candidates.value != [] then pr.candidates.value else r.candidates
  }

  /** An answer that gives a backend makes it the backend, with the index of the first candidate at its address, if any. */
  lemma StepTakesBackend(r: Proposal, pr: Response)
    requires pr.backend.Some? && pr.backend.value.host != ""
    ensures var cs, s := CandidatesAfter(r, pr), Step(r, pr);
            && s.backend == pr.backend.value
            && (forall i :: 0 <= i < |cs| && SameAddress(cs[i], s.backend) ==> 0 <= s.selectedIndex <= i)
            && ((exists i :: 0 <= i < |cs| && SameAddress(cs[i], s.backend)) ==>
                  0 <= s.selectedIndex < |cs| && SameAddress(cs[s.selectedIndex], s.backend))
  {
    IndexOfIsFirst(CandidatesAfter(r, pr), pr.backend.value);
  }

  /** An answer that gives no backend makes the candidate it selects the backend, or leaves backend and index alone; a
      backend without a host gives way to the first candidate. Content it gives replaces what there was. */
  lemma StepEffect(r: Proposal, pr: Response)
    ensures var cs, s := CandidatesAfter(r, pr), Step(r, pr);
            var fits := pr.selectedIndex.Some? && 0 <= pr.selectedIndex.value < |cs|;
            && s.candidates == cs && s.strategy == r.strategy
            && s.content == (if pr.content.Some? then pr.content else r.content)
            && (pr.backend.None? && fits && cs[pr.selectedIndex.value].host != "" ==>
                  s.backend == cs[pr.selectedIndex.value] && s.selectedIndex == pr.selectedIndex.value)
            && (pr.backend.None? && !fits && r.backend.host != "" ==> s.backend == r.backend && s.selectedIndex == r.selectedIndex)
            && (s.backend.host == "" ==> cs == [] || (s.backend == cs[0] && s.selectedIndex == 0))
  {
  }

  // ---------- the backend a chain leaves ----------

  const STEP: (Proposal, Response) -> Proposal := (r, pr) => Step(r, pr)

  /** The effect of the answers, in order. */
  function Fold(answers: seq<Response>, r: Proposal): Proposal {
    FoldLeft(STEP, r, answers)
  }

  lemma FoldLast(answers: seq<Response>, r: Proposal)
    requires answers != []
    ensures Fold(answers, r) == Step(Fold(answers[..|answers| - 1], r), answers[|answers| - 1])
  {
  }

  lemma {:induction false} ChainIsFold(ps: seq<Plugin>, ev: Event, r: Proposal)
    ensures Chain(ps, ev, r).route == Fold(Answers(ps, ev, r), r)
  {
    if ps != [] {
      match ps[0](ev, r) {
        case None => ChainIsFold(ps[1..], ev, r);
        case Some(pr) =>
          if !pr.deny {
            ChainIsFold(ps[1..], ev, Step(r, pr));
            FoldLeftCons(STEP, r, pr, Answers(ps[1..], ev, Step(r, pr)));
          }
      }
    }
  }

  /** The last candidates any answer supplied, else the initial ones. */
  function LastCandidates(answers: seq<Response>, start: seq<Backend>): seq<Backend> {
    if answers == [] then start
    else
      var last := answers[|answers| - 1].candidates;
      if last.Some? && |last.value| > 0 then last.value else LastCandidates(answers[..|answers| - 1], start)
  }

  /** The backend an answer names, itself or by its index among the candidates. */
  function Named(pr: Response, candidates: seq<Backend>): Option<Backend> {
    if pr.backend.Some? then pr.backend
    else if pr.selectedIndex.Some? && 0 <= pr.selectedIndex.value < |candidates| then Some(candidates[pr.selectedIndex.value])
    else None
  }

  /** Neither the backend named last, by an answer or at the start, nor the first candidate at any answer since has a host. */
  predicate Nameless(answers: seq<Response>, candidates: seq<Backend>, backend: Backend) {
    if answers == [] then backend.host == ""
    else
      var init, now := answers[..|answers| - 1], LastCandidates(answers, candidates);
      && (now == [] || now[0].host == "")
      && match Named(answers[|answers| - 1], now)
         case Some(b) => b.host == ""
         case None => Nameless(init, candidates, backend)
  }

  lemma {:induction false} FoldNamelessIff(answers: seq<Response>, r: Proposal)
    ensures Fold(answers, r).candidates == LastCandidates(answers, r.candidates)
    ensures Fold(answers, r).backend.host == "" <==> Nameless(answers, r.candidates, r.backend)
  {
    if answers != [] {
      var init, last := answers[..|answers| - 1], answers[|answers| - 1];
      FoldNamelessIff(init, r);
      FoldLast(answers, r);
      var before := Fold(init, r);
      var a := WithCandidates(before, last.candidates);
      assert a.candidates == LastCandidates(answers, r.candidates);
      var b := WithBackend(WithIndex(a, last.selectedIndex), last.backend);
      assert b.candidates == a.candidates;
      assert b.backend == match Named(last, a.candidates) { case Some(x) => x case None => before.backend };
    }
  }

  /** A chain leaves no backend exactly when nothing its answers, or its start, put forward last has a host. */
  lemma {:induction false} ChainNamelessIff(ps: seq<Plugin>, ev: Event, r: Proposal)
    ensures Chain(ps, ev, r).route.backend.host == "" <==> Nameless(Answers(ps, ev, r), r.candidates, r.backend)
  {
    ChainIsFold(ps, ev, r);
    FoldNamelessIff(Answers(ps, ev, r), r);
  }

  /** An answer that supplies no candidates and names no backend. */
  predicate Silent(pr: Response) {
    (pr.candidates.Some? ==> pr.candidates.value == []) && pr.selectedIndex.None? && pr.backend.None?
  }

  /** Silent answers leave the backend as it is, unless it has no host and there is a first candidate to take its place. */
  lemma {:induction false} SilentAnswersKeepBackend(ps: seq<Plugin>, ev: Event, r: Proposal)
    requires forall i :: 0 <= i < |Answers(ps, ev, r)| ==> Silent(Answers(ps, ev, r)[i])
    ensures Chain(ps, ev, r).route.backend ==
            if Answers(ps, ev, r) != [] && r.backend.host == "" && r.candidates != [] then r.candidates[0] else r.backend
  {
    ChainIsFold(ps, ev, r);
    SilentFold(Answers(ps, ev, r), r);
  }

  lemma {:induction false} SilentFold(answers: seq<Response>, r: Proposal)
    requires forall i :: 0 <= i < |answers| ==> Silent(answers[i])
    ensures Fold(answers, r).candidates == r.candidates
    ensures Fold(answers, r).backend == if answers != [] && r.backend.host == "" && r.candidates != [] then r.candidates[0] else r.backend
  {
    if answers != [] {
      SilentFold(answers[..|answers| - 1], r);
      FoldLast(answers, r);
      assert Silent(answers[|answers| - 1]);
    }
  }

  ghost predicate HostsNamed(bs: seq<Backend>) {
    forall i :: 0 <= i < |bs| ==> bs[i].host != ""
  }

  /** Every candidate list a plugin supplies names its hosts. */
  ghost predicate NamesHosts(pr: Response) {
    pr.candidates.Some? ==> HostsNamed(pr.candidates.value)
  }

  /** A response with named candidates leaves a named backend behind. */
  lemma StepNamesBackend(r: Proposal, pr: Response)
    requires r.candidates != [] && HostsNamed(r.candidates) && NamesHosts(pr)
    ensures Step(r, pr).candidates != [] && HostsNamed(Step(r, pr).candidates) && Step(r, pr).backend.host != ""
  {
    var a := WithCandidates(r, pr.candidates);
    var b := WithBackend(WithIndex(a, pr.selectedIndex), pr.backend);
    assert b.candidates == a.candidates && HostsNamed(a.candidates);
  }

  /** If no plugin denies and at least one call succeeds, the client gets a backend with a host. */
  lemma {:induction false} SuccessNamesBackend(ps: seq<Plugin>, ev: Event, r: Proposal)
    requires r.candidates != [] && HostsNamed(r.candidates)
    requires forall i :: 0 <= i < |Answers(ps, ev, r)| ==> NamesHosts(Answers(ps, ev, r)[i])
    requires r.backend.host != "" || Answers(ps, ev, r) != []
    ensures !Chain(ps, ev, r).denied ==> Chain(ps, ev, r).route.backend.host != ""
  {
    if ps != [] {
      match ps[0](ev, r) {
        case None =>
          assert Answers(ps, ev, r) == Answers(ps[1..], ev, r);
          SuccessNamesBackend(ps[1..], ev, r);
        case Some(pr) =>
          if !pr.deny {
            var rest := Answers(ps[1..], ev, Step(r, pr));
            assert Answers(ps, ev, r) == [pr] + rest;
            assert NamesHosts(Answers(ps, ev, r)[0]);
            assert forall i :: 0 <= i < |rest| ==> rest[i] == Answers(ps, ev, r)[i + 1];
            StepNamesBackend(r, pr);
            SuccessNamesBackend(ps[1..], ev, Step(r, pr));
          }
      }
    }
  }

  /** The first candidate with the address, if any. */
  lemma {:induction false} IndexOfIsFirst(candidates: seq<Backend>, b: Backend)
    ensures match IndexOf(candidates, b)
            case None => forall i :: 0 <= i < |candidates| ==> !SameAddress(candidates[i], b)
            case Some(k) =>
              && k < |candidates| && SameAddress(candidates[k], b)
              && forall i :: 0 <= i < k ==> !SameAddress(candidates[i], b)
  {
    if candidates != [] {
      IndexOfIsFirst(candidates[1..], b);
      assert forall i :: 1 <= i < |candidates| ==> candidates[i] == candidates[1..][i - 1];
    }
  }

  /** One response keeps the selected index inside the candidates exactly when one of these holds: the index still fits
      the new candidates, the response gives a fitting index, its backend is found among the candidates, or the backend
      is left without a host. Replacing candidates by a shorter list alone does not move the index. */
  lemma {:induction false} StepIndexInRangeIff(r: Proposal, pr: Response)
    requires 0 <= r.selectedIndex < |r.candidates|
    ensures var a := WithCandidates(r, pr.candidates);
            var b := WithBackend(WithIndex(a, pr.selectedIndex), pr.backend);
            0 <= Step(r, pr).selectedIndex < |Step(r, pr).candidates| <==>
              || r.selectedIndex < |a.candidates|
              || (pr.selectedIndex.Some? && 0 <= pr.selectedIndex.value < |a.candidates|)
              || (pr.backend.Some? && IndexOf(a.candidates, pr.backend.value).Some?)
              || b.backend.host == ""
  {
    var a := WithCandidates(r, pr.candidates);
    if pr.backend.Some? {
      IndexOfIsFirst(a.candidates, pr.backend.value);
    }
  }

  /** A plugin that answers with one candidate where the second of two was selected leaves the index behind. */
  lemma StaleIndexExample(a: Backend, b: Backend, strategy: Selection.Strategy)
    requires b.host != ""
    ensures var r := Proposal(strategy, [a, b], 1, b, None);
            var pr := Response(false, "", Some([a]), None, None, None);
            && Step(r, pr).candidates == [a] && Step(r, pr).selectedIndex == 1 && Step(r, pr).backend == b
  {
  }
}
