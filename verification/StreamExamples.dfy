/** A stream on which a referral to a backend goes out after routing has failed. */
module StreamExamples {
  import opened Common
  import opened Bytes
  import opened RoutingTypes
  import opened Framing
  import opened Codec
  import opened Connect
  import opened Streams
  import opened StreamProofs
  import Engine
  import Envelope
  import PluginChain
  import Selection

  const BACKEND := Backend("a", 1, 0, map[])

  const DECISION := Engine.Decision(true, 0, Selection.RoundRobin, [BACKEND], 0, BACKEND)

  const SILENT := PluginChain.Response(false, "", None, None, None, None)

  /** The router decides on the first Connect and fails on later ones; the one plugin answers, but says nothing; the first
      Write call fails and later ones take what they are given. */
  function StaleEnv(mac: Envelope.Hmac, base: PluginChain.Event): Env {
    Env(Some((k: nat, req: Request) => if k == 0 then Ok(DECISION) else Err(NoBackends)),
        Some((k: nat) => [(ev: PluginChain.Event, r: PluginChain.Proposal) => Some(SILENT)]),
        base, (sni: string, language: GoString, e: Option<RouteError>) => "", mac, None, 0, true,
        (k: nat) => if k == 0 then Fail(0) else Accept(1000))
  }

  lemma SilentChain(mac: Envelope.Hmac, base: PluginChain.Event, k: nat, ev: PluginChain.Event, r: PluginChain.Proposal)
    requires r.backend.host != ""
    ensures PluginChain.Chain(StaleEnv(mac, base).plugins.value(k), ev, r) == PluginChain.ApplyResult(false, "", r)
  {
    var ps := StaleEnv(mac, base).plugins.value(k);
    assert ps[0](ev, r) == Some(SILENT) && ps[1..] == [];
  }

  /** What the machine keeps between the two Connects. */
  ghost predicate Unanswered(st: Conn, calls: nat) {
    && st.status == Open && !st.referralSent && st.content == None && st.connects == calls
    && st.out.calls == calls && st.sent == []
  }

  lemma StaleSettle(mac: Envelope.Hmac, base: PluginChain.Event, st: Conn, i: ConnectInfo)
    requires Unanswered(st, st.connects) && (st.connects > 0 ==> st.decision == DECISION)
    ensures var env := StaleEnv(mac, base);
            var (s, denied) := Settle(env, st, Some(i));
            && denied == None && s.backend == BACKEND && s.decision == DECISION && s.content == None
            && s.routeErr == (if st.connects == 0 then None else Some(NoBackends))
            && s.connects == st.connects + 1
  {
    var env := StaleEnv(mac, base);
    SettleKeeps(env, st, Some(i));
    SilentChain(mac, base, st.connects, EventOf(env, i),
                PluginChain.Proposal(DECISION.strategy, DECISION.candidates, DECISION.selectedIndex, DECISION.backend, None));
  }

  /** The frame of the referral to the backend. */
  lemma ReferralFrame(env: Env) returns (buf: Bytes)
    requires env.secret == None
    ensures var data := ReferralData(env, None);
            && ReferralPayload("a", 1, Some(data)).Ok? && buf == FrameBytes(Frame(REFERRAL_ID, ReferralPayload("a", 1, Some(data)).value))
    ensures buf != []
  {
    Envelope.EncodedIff(env.mac, Fitting(env, None), KeyID(env), Secret(env));
    buf := FrameBytes(Frame(REFERRAL_ID, ReferralPayload("a", 1, Some(ReferralData(env, None))).value));
  }

  ghost predicate ReadyToRefer(s: Conn) {
    s.status == Open && !s.referralSent && s.content == None && s.sent == [] && s.backend == BACKEND
  }

  /** The referral fails on the first Write call. */
  lemma FirstSend(mac: Envelope.Hmac, base: PluginChain.Event, s: Conn)
    requires ReadyToRefer(s) && s.out.calls == 0
    ensures SendReferral(StaleEnv(mac, base), s) == s.(out := Out(s.out.wire, 1))
  {
    var env := StaleEnv(mac, base);
    var buf := ReferralFrame(env);
    assert s.out.wire + buf[..0] == s.out.wire;
    assert Send(env.plan, s.out, buf) == (Out(s.out.wire, 1), false);
  }

  /** It succeeds later. */
  lemma LaterSend(mac: Envelope.Hmac, base: PluginChain.Event, s: Conn)
    requires ReadyToRefer(s) && s.out.calls > 0
    ensures SendReferral(StaleEnv(mac, base), s).sent == [Packet.Referral("a", 1, [])]
    ensures SendReferral(StaleEnv(mac, base), s).backend == BACKEND && SendReferral(StaleEnv(mac, base), s).routeErr == s.routeErr
  {
    var env := StaleEnv(mac, base);
    var buf := ReferralFrame(env);
    var k := SendAppends(env.plan, s.out, buf);
  }

  lemma StaleConnect(mac: Envelope.Hmac, base: PluginChain.Event, st: Conn, i: ConnectInfo)
    requires Unanswered(st, st.connects) && (st.connects > 0 ==> st.decision == DECISION)
    ensures var t := HandleConnect(StaleEnv(mac, base), st, Some(i));
            if st.connects == 0 then Unanswered(t, 1) && t.decision == DECISION
            else t.routeErr == Some(NoBackends) && t.sent == [Packet.Referral("a", 1, [])]
  {
    var env := StaleEnv(mac, base);
    SettleKeeps(env, st, Some(i));
    StaleSettle(mac, base, st, i);
    var s := Settle(env, st, Some(i)).0;
    if st.connects == 0 {
      FirstSend(mac, base, s);
    } else {
      LaterSend(mac, base, s);
    }
  }

  /** A Connect payload: 102 zero bytes. */
  const PAYLOAD: Bytes := seq(102, _ => 0)

  lemma PayloadDecodes()
    ensures DecodeConnect(PAYLOAD).Some? && |PAYLOAD| <= MAX_BUFFERED_PAYLOAD
  {
    assert GuessesV1(PAYLOAD);
  }

  lemma OneFrame(env: Env, st: Conn, f: Frame, rest: Bytes)
    requires st.status == Open && |f.payload| <= MAX_BUFFERED_PAYLOAD && -0x8000_0000 <= f.id < 0x8000_0000
    ensures var s := HandleFrame(env, st, f);
            Run(env, st, FrameBytes(f) + rest).0 == if s.status == Open then Run(env, s, rest).0 else s
  {
    FrameRoundTrip(f, rest);
  }

  lemma StaleFrame(mac: Envelope.Hmac, base: PluginChain.Event, st: Conn)
    requires Unanswered(st, st.connects) && (st.connects > 0 ==> st.decision == DECISION)
    ensures var t := HandleFrame(StaleEnv(mac, base), st, Frame(0, PAYLOAD));
            if st.connects == 0 then Unanswered(t, 1) && t.decision == DECISION
            else t.routeErr == Some(NoBackends) && t.sent == [Packet.Referral("a", 1, [])]
  {
    PayloadDecodes();
    StaleConnect(mac, base, st.(handled := st.handled + [Frame(0, PAYLOAD)]), DecodeConnect(PAYLOAD).value);
  }

  /** Two Connects on one stream: the first referral cannot be written, the second routing fails, and the stream answers
      the failure with a referral to the backend of the first decision. */
  lemma {:induction false} StaleReferralExample(mac: Envelope.Hmac, base: PluginChain.Event)
    ensures var f := FrameBytes(Frame(0, PAYLOAD));
            var s := Run(StaleEnv(mac, base), Fresh(Engine.NO_ROUTE, None), f + f).0;
            s.routeErr == Some(NoBackends) && s.sent == [Packet.Referral("a", 1, [])]
  {
    var env, st, f := StaleEnv(mac, base), Fresh(Engine.NO_ROUTE, None), Frame(0, PAYLOAD);
    OneFrame(env, st, f, FrameBytes(f));
    StaleFrame(mac, base, st);
    var t := HandleFrame(env, st, f);
    assert FrameBytes(f) + [] == FrameBytes(f);
    OneFrame(env, t, f, []);
    StaleFrame(mac, base, t);
    var u := HandleFrame(env, t, f);
    assert Run(env, u, []).0 == u;
  }
}
