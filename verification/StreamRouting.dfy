/** What a stream's answers have to do with routing, over whole runs: the state always reflects the Connect frames handled
    so far, and the packets sent are explained by the router's answers to them. */
module StreamRouting {
  import opened Common
  import opened Bytes
  import opened RoutingTypes
  import opened Framing
  import opened Connect
  import opened Streams
  import opened StreamProofs
  import Engine
  import PluginChain
  import PoolValidation

  /** The Connect frames among the frames handled. */
  function Connects(frames: seq<Frame>): seq<Frame> {
    if frames == [] then []
    else if frames[|frames| - 1].id == 0 then Connects(frames[..|frames| - 1]) + [frames[|frames| - 1]]
    else Connects(frames[..|frames| - 1])
  }

  /** What the router is asked for a Connect frame; a packet that cannot be decoded leaves only the server name. */
  function Asked(env: Env, f: Frame): Request {
    match DecodeConnect(f.payload)
    case Some(i) => Request(env.base.sni, i.uuid, i.username, i.language)
    case None => Request(env.base.sni, "", "", "")
  }

  /** The router's answer to the last of some Connect frames. */
  function Answer(env: Env, cs: seq<Frame>): Result<Engine.Decision, RouteError>
    requires cs != [] && env.router.Some?
  {
    env.router.value(|cs| - 1, Asked(env, cs[|cs| - 1]))
  }

  /** The last successful decision; first is the one the stream was opened with. */
  function LastDecision(env: Env, cs: seq<Frame>, first: Engine.Decision): Engine.Decision {
    if cs == [] || env.router.None? then first
    else if Answer(env, cs).Ok? then Answer(env, cs).value
    else LastDecision(env, cs[..|cs| - 1], first)
  }

  /** The error of the last routing, if it failed. */
  function LastError(env: Env, cs: seq<Frame>, first: Option<RouteError>): Option<RouteError> {
    if cs == [] || env.router.None? then first
    else if Answer(env, cs).Ok? then None
    else Some(Answer(env, cs).error)
  }

  /** What the plugins of the n-th Connect make of it: they see the client as the packet describes it, a decision, and the
      content so far. */
  function Consulted(env: Env, n: nat, i: ConnectInfo, d: Engine.Decision, content: Option<Bytes>): PluginChain.ApplyResult
    requires env.plugins.Some?
  {
    PluginChain.Chain(
      env.plugins.value(n),
      PluginChain.Event(env.base.sni, env.base.fingerprint, i.protocolHash, i.clientType, i.uuid, i.username, i.language,
                        i.identityTokenPresent),
      PluginChain.Proposal(d.strategy, d.candidates, d.selectedIndex, d.backend, content))
  }

  /** What the plugins make of the last Connect, given the last successful decision; None when no plugin is asked. */
  function Outcome(env: Env, cs: seq<Frame>, first: Engine.Decision): Option<PluginChain.ApplyResult>
    requires cs != []
    decreases |cs|, 0
  {
    var n := |cs| - 1;
    match DecodeConnect(cs[n].payload)
    case None => None
    case Some(i) =>
      if env.plugins.None? then None
      else Some(Consulted(env, n, i, LastDecision(env, cs, first), LastContent(env, cs[..n], first)))
  }

  /** The content the plugins have left. */
  function LastContent(env: Env, cs: seq<Frame>, first: Engine.Decision): Option<Bytes>
    decreases |cs|, 1
  {
    if cs == [] then None
    else
      var o := Outcome(env, cs, first);
      if o.Some? && !o.value.denied then o.value.route.content else LastContent(env, cs[..|cs| - 1], first)
  }

  /** The backend the last Connect left: the plugins' when they were asked and none denied, else the last decision's, and
      none when routing failed. */
  function LastBackend(env: Env, cs: seq<Frame>, first: Engine.Decision): Backend {
    if cs == [] then first.backend
    else
      var o := Outcome(env, cs, first);
      if o.Some? && !o.value.denied then o.value.route.backend
      else if env.router.None? then LastBackend(env, cs[..|cs| - 1], first)
      else if Answer(env, cs).Ok? then Answer(env, cs).value.backend
      else NO_BACKEND
  }

  /** The state is what the Connect frames handled so far make it. */
  ghost predicate Routed(env: Env, st: Conn, cs: seq<Frame>, first: Engine.Decision, firstErr: Option<RouteError>) {
    && st.connects == |cs|
    && st.decision == LastDecision(env, cs, first)
    && st.routeErr == LastError(env, cs, firstErr)
    && st.backend == LastBackend(env, cs, first)
    && st.content == LastContent(env, cs, first)
  }

  /** A referral names the backend, and carries the content, in force after the k-th Connect. */
  ghost predicate NamesRouted(env: Env, p: Packet, cs: seq<Frame>, first: Engine.Decision, k: nat) {
    && 0 < k <= |cs|
    && NamesBackend(p, LastBackend(env, cs[..k], first))
    && CarriesContent(env, p, LastContent(env, cs[..k], first))
  }

  /** A disconnect that no plugin asked for gives the reason of the last routing, in the language of the last Connect. */
  ghost predicate GivesReason(env: Env, p: Packet, cs: seq<Frame>, firstErr: Option<RouteError>) {
    && p.Disconnect? && cs != []
    && var info := DecodeConnect(cs[|cs| - 1].payload);
       p.reason == env.reason(env.base.sni, if info.Some? then info.value.language else "", LastError(env, cs, firstErr))
  }

  /** A disconnect that a plugin asked for gives the plugin's reason. */
  ghost predicate GivesDenial(env: Env, p: Packet, cs: seq<Frame>, first: Engine.Decision) {
    && p.Disconnect? && cs != []
    && var o := Outcome(env, cs, first); o.Some? && o.value.denied && p.reason == o.value.denyReason
  }

  /** The answers of router and plugins to cs account for the packet. */
  ghost predicate Explains(env: Env, p: Packet, cs: seq<Frame>, first: Engine.Decision, firstErr: Option<RouteError>) {
    match p
    case Referral(_, _, _) => exists k: nat :: NamesRouted(env, p, cs, first, k)
    case Disconnect(_, byPlugin) => if byPlugin then GivesDenial(env, p, cs, first) else GivesReason(env, p, cs, firstErr)
  }

  ghost predicate Explained(env: Env, sent: seq<Packet>, cs: seq<Frame>, first: Engine.Decision, firstErr: Option<RouteError>) {
    forall i :: 0 <= i < |sent| ==> Explains(env, sent[i], cs, first, firstErr)
  }

  // ---------- the state ----------

  lemma RerouteRouted(env: Env, st: Conn, cs: seq<Frame>, f: Frame, first: Engine.Decision, firstErr: Option<RouteError>, req: Request)
    requires Routed(env, st, cs, first, firstErr) && req == Asked(env, f)
    ensures var r := Reroute(env, st, req);
            && r.decision == LastDecision(env, cs + [f], first) && r.routeErr == LastError(env, cs + [f], firstErr)
            && r.content == LastContent(env, cs, first)
            && r.backend == if env.router.None? then LastBackend(env, cs, first)
                            else if Answer(env, cs + [f]).Ok? then Answer(env, cs + [f]).value.backend else NO_BACKEND
  {
    assert (cs + [f])[..|cs|] == cs;
    assert env.router.Some? ==> Answer(env, cs + [f]) == env.router.value(st.connects, req);
    if env.router.None? {
      Unrouted(env, cs, first, firstErr);
    }
  }

  lemma Unrouted(env: Env, cs: seq<Frame>, first: Engine.Decision, firstErr: Option<RouteError>)
    requires env.router.None?
    ensures LastDecision(env, cs, first) == first && LastError(env, cs, firstErr) == firstErr
  {
  }

  lemma RequestAsked(env: Env, f: Frame)
    ensures RequestOf(env, DecodeConnect(f.payload)) == Asked(env, f)
  {
  }

  lemma ConsultedIsAsked(env: Env, s: Conn, n: nat, i: ConnectInfo)
    requires env.plugins.Some?
    ensures Consulted(env, n, i, s.decision, s.content) == AskPlugins(env, s, n, i)
  {
  }

  /** The outcome of the plugins, from the state they are asked in. */
  lemma AsksPlugins(env: Env, s: Conn, cs: seq<Frame>, f: Frame, first: Engine.Decision)
    requires env.plugins.Some? && DecodeConnect(f.payload).Some?
    requires s.decision == LastDecision(env, cs + [f], first) && s.content == LastContent(env, cs, first)
    ensures Outcome(env, cs + [f], first) == Some(AskPlugins(env, s, |cs|, DecodeConnect(f.payload).value))
  {
    assert (cs + [f])[..|cs|] == cs && (cs + [f])[|cs|] == f;
    ConsultedIsAsked(env, s, |cs|, DecodeConnect(f.payload).value);
  }

  /** What settling makes of a rerouted state s: the plugins' outcome decides. */
  lemma SettleOutcome(env: Env, st: Conn, s: Conn, info: Option<ConnectInfo>, o: Option<PluginChain.ApplyResult>)
    requires s == Reroute(env, st, RequestOf(env, info)).(connects := st.connects + 1)
    requires o == if info.None? || env.plugins.None? then None else Some(AskPlugins(env, s, st.connects, info.value))
    ensures Settle(env, st, info).1 == if o.Some? && o.value.denied then Some(o.value.denyReason) else None
    ensures Settle(env, st, info).0 ==
            if o.Some? && !o.value.denied then s.(backend := o.value.route.backend, content := o.value.route.content) else s
  {
  }

  lemma SettleRouted(env: Env, st: Conn, cs: seq<Frame>, f: Frame, first: Engine.Decision, firstErr: Option<RouteError>)
    requires Routed(env, st, cs, first, firstErr)
    ensures Routed(env, Settle(env, st, DecodeConnect(f.payload)).0, cs + [f], first, firstErr)
    ensures var o := Outcome(env, cs + [f], first);
            Settle(env, st, DecodeConnect(f.payload)).1 == if o.Some? && o.value.denied then Some(o.value.denyReason) else None
  {
    var info := DecodeConnect(f.payload);
    var s := Reroute(env, st, RequestOf(env, info)).(connects := st.connects + 1);
    RequestAsked(env, f);
    RerouteRouted(env, st, cs, f, first, firstErr, Asked(env, f));
    if env.plugins.Some? && info.Some? {
      AsksPlugins(env, s, cs, f, first);
    }
    OutcomeOf(env, cs, f, first);
    SettleOutcome(env, st, s, info, Outcome(env, cs + [f], first));
  }

  /** Content and backend after one more Connect. */
  lemma OutcomeOf(env: Env, cs: seq<Frame>, f: Frame, first: Engine.Decision)
    ensures var o := Outcome(env, cs + [f], first);
            && (env.plugins.None? || DecodeConnect(f.payload).None? ==> o == None)
            && LastContent(env, cs + [f], first) == (if o.Some? && !o.value.denied then o.value.route.content else LastContent(env, cs, first))
            && LastBackend(env, cs + [f], first) ==
               if o.Some? && !o.value.denied then o.value.route.backend
               else if env.router.None? then LastBackend(env, cs, first)
               else if Answer(env, cs + [f]).Ok? then Answer(env, cs + [f]).value.backend else NO_BACKEND
  {
    assert (cs + [f])[..|cs|] == cs && (cs + [f])[|cs|] == f;
  }

  /** Answering leaves routing as it is. */
  lemma AnswerKeepsRouted(env: Env, s: Conn, cs: seq<Frame>, first: Engine.Decision, firstErr: Option<RouteError>,
                          reason: GoString, byPlugin: bool)
    requires Routed(env, s, cs, first, firstErr)
    ensures Routed(env, SendReferral(env, s), cs, first, firstErr)
    ensures Routed(env, SendDisconnect(env, s, reason, byPlugin), cs, first, firstErr)
  {
  }

  lemma HandleRouted(env: Env, st: Conn, cs: seq<Frame>, f: Frame, first: Engine.Decision, firstErr: Option<RouteError>)
    requires Routed(env, st, cs, first, firstErr)
    ensures Routed(env, HandleConnect(env, st, DecodeConnect(f.payload)), cs + [f], first, firstErr)
  {
    var info := DecodeConnect(f.payload);
    var (s, denied) := Settle(env, st, info);
    SettleRouted(env, st, cs, f, first, firstErr);
    if denied.Some? {
      AnswerKeepsRouted(env, s, cs + [f], first, firstErr, denied.value, true);
    } else {
      AnswerKeepsRouted(env, s, cs + [f], first, firstErr, "", false);
      var t := SendReferral(env, s);
      AnswerKeepsRouted(env, t, cs + [f], first, firstErr, env.reason(env.base.sni, LanguageOf(info), t.routeErr), false);
    }
  }

  // ---------- the packets ----------

  /** Later Connects do not change what an earlier referral named. */
  lemma StillNamed(env: Env, p: Packet, cs: seq<Frame>, f: Frame, first: Engine.Decision, k: nat)
    requires NamesRouted(env, p, cs, first, k)
    ensures NamesRouted(env, p, cs + [f], first, k)
  {
    assert (cs + [f])[..k] == cs[..k];
  }

  lemma ReferralStaysExplained(env: Env, p: Packet, cs: seq<Frame>, f: Frame, first: Engine.Decision, firstErr: Option<RouteError>)
    requires p.Referral? && Explains(env, p, cs, first, firstErr)
    ensures Explains(env, p, cs + [f], first, firstErr)
  {
    var k: nat :| NamesRouted(env, p, cs, first, k);
    StillNamed(env, p, cs, f, first, k);
  }

  lemma OpenExplained(env: Env, sent: seq<Packet>, cs: seq<Frame>, f: Frame, first: Engine.Decision, firstErr: Option<RouteError>)
    requires forall i :: 0 <= i < |sent| ==> sent[i].Referral?
    requires Explained(env, sent, cs, first, firstErr)
    ensures Explained(env, sent, cs + [f], first, firstErr)
  {
    forall i | 0 <= i < |sent|
      ensures Explains(env, sent[i], cs + [f], first, firstErr)
    {
      ReferralStaysExplained(env, sent[i], cs, f, first, firstErr);
    }
  }

  lemma ReferralExplained(env: Env, s: Conn, cs: seq<Frame>, first: Engine.Decision, firstErr: Option<RouteError>)
    requires Routed(env, s, cs, first, firstErr) && cs != [] && Explained(env, s.sent, cs, first, firstErr)
    ensures Explained(env, SendReferral(env, s).sent, cs, first, firstErr)
  {
    var t := SendReferral(env, s);
    if t.sent != s.sent {
      assert cs[..|cs|] == cs;
      LoggedReferral(env, s.backend, s.content);
      var p := Packet.Referral(s.backend.host, WirePort(s.backend.port), Fitting(env, s.content));
      assert NamesRouted(env, p, cs, first, |cs|);
      assert t.sent == s.sent + [p];
    }
  }

  lemma DisconnectExplained(env: Env, s: Conn, cs: seq<Frame>, first: Engine.Decision, firstErr: Option<RouteError>,
                            reason: GoString, byPlugin: bool)
    requires Explained(env, s.sent, cs, first, firstErr)
    requires Explains(env, Disconnect(reason, byPlugin), cs, first, firstErr)
    ensures Explained(env, SendDisconnect(env, s, reason, byPlugin).sent, cs, first, firstErr)
  {
  }

  lemma OpenSentReferrals(st: Conn)
    requires Proper(st) && st.status == Open
    ensures forall i :: 0 <= i < |st.sent| ==> st.sent[i].Referral?
  {
  }

  lemma RespondExplained(env: Env, s: Conn, cs: seq<Frame>, first: Engine.Decision, firstErr: Option<RouteError>,
                         language: GoString, decoded: bool)
    requires Routed(env, s, cs, first, firstErr) && cs != [] && Explained(env, s.sent, cs, first, firstErr)
    requires language == LanguageOf(DecodeConnect(cs[|cs| - 1].payload))
    ensures Explained(env, Respond(env, s, language, decoded).sent, cs, first, firstErr)
  {
    ReferralExplained(env, s, cs, first, firstErr);
    var t := SendReferral(env, s);
    var reason := env.reason(env.base.sni, language, t.routeErr);
    assert t.routeErr == s.routeErr;
    DisconnectExplained(env, t, cs, first, firstErr, reason, false);
  }

  lemma HandleExplained(env: Env, st: Conn, cs: seq<Frame>, f: Frame, first: Engine.Decision, firstErr: Option<RouteError>)
    requires Proper(st) && st.status == Open
    requires Routed(env, st, cs, first, firstErr) && Explained(env, st.sent, cs, first, firstErr)
    ensures Explained(env, HandleConnect(env, st, DecodeConnect(f.payload)).sent, cs + [f], first, firstErr)
  {
    var info := DecodeConnect(f.payload);
    var (s, denied) := Settle(env, st, info);
    SettleKeeps(env, st, info);
    SettleRouted(env, st, cs, f, first, firstErr);
    OpenSentReferrals(st);
    OpenExplained(env, st.sent, cs, f, first, firstErr);
    if denied.Some? {
      DisconnectExplained(env, s, cs + [f], first, firstErr, denied.value, true);
    } else {
      RespondExplained(env, s, cs + [f], first, firstErr, LanguageOf(info), info.Some?);
    }
  }

  lemma ConnectsSnoc(frames: seq<Frame>, f: Frame)
    ensures Connects(frames + [f]) == if f.id == 0 then Connects(frames) + [f] else Connects(frames)
  {
    assert (frames + [f])[..|frames|] == frames;
  }

  /** Every frame keeps the account. */
  lemma FrameExplained(env: Env, st: Conn, f: Frame, first: Engine.Decision, firstErr: Option<RouteError>)
    requires Proper(st) && st.status == Open
    requires Routed(env, st, Connects(st.handled), first, firstErr)
    requires Explained(env, st.sent, Connects(st.handled), first, firstErr)
    ensures var s := HandleFrame(env, st, f);
            && Proper(s) && Routed(env, s, Connects(s.handled), first, firstErr)
            && Explained(env, s.sent, Connects(s.handled), first, firstErr)
  {
    var cs, s := Connects(st.handled), st.(handled := st.handled + [f]);
    ConnectsSnoc(st.handled, f);
    HandledGrows(env, st, f);
    assert Proper(s) && Routed(env, s, cs, first, firstErr);
    if f.id == 0 {
      HandleProper(env, s, DecodeConnect(f.payload));
      HandleRouted(env, s, cs, f, first, firstErr);
      HandleExplained(env, s, cs, f, first, firstErr);
    }
  }

  /** Every run, from any state that reflects the Connects handled before it. */
  lemma {:induction false} RunExplained(env: Env, st: Conn, b: Bytes, first: Engine.Decision, firstErr: Option<RouteError>)
    requires Proper(st)
    requires Routed(env, st, Connects(st.handled), first, firstErr)
    requires Explained(env, st.sent, Connects(st.handled), first, firstErr)
    ensures var s := Run(env, st, b).0;
            && Routed(env, s, Connects(s.handled), first, firstErr)
            && Explained(env, s.sent, Connects(s.handled), first, firstErr)
    decreases |b|
  {
    if st.status == Open && SplitFrame(b).Got? {
      var f := SplitFrame(b).frame;
      FrameExplained(env, st, f, first, firstErr);
      RunExplained(env, HandleFrame(env, st, f), SplitFrame(b).rest, first, firstErr);
    }
  }

  /** On any stream, however chunked: a referral names the backend, and carries the content, that router and plugins left at
      some Connect; a disconnect gives the denying plugin's reason, or else the reason of the last routing. */
  lemma {:induction false} StreamExplained(env: Env, first: Engine.Decision, firstErr: Option<RouteError>, chunks: seq<Bytes>)
    ensures var s := Chunked(env, Fresh(first, firstErr), [], chunks).0;
            && Routed(env, s, Connects(s.handled), first, firstErr)
            && Explained(env, s.sent, Connects(s.handled), first, firstErr)
  {
    ChunkedIsRun(env, Fresh(first, firstErr), [], chunks);
    RunExplained(env, Fresh(first, firstErr), [] + Flat(chunks), first, firstErr);
  }

  /** A referral to a backend that validation accepts announces exactly its host and port. */
  lemma ValidBackendAnnounced(p: Packet, b: Backend)
    requires PoolValidation.ValidBackend(b) && NamesBackend(p, b)
    ensures p.host == b.host != "" && p.port == b.port > 0
  {
  }
}
