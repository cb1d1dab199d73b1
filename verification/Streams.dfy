/** One client stream: frames reassembled from reads, and the decide / plugin / respond machine they drive. */
module Streams {
  import opened Common
  import opened Bytes
  import opened RoutingTypes
  import opened Framing
  import opened Codec
  import opened Connect
  import Engine
  import Envelope
  import PluginChain

  /** What the server and the outside world answer on this stream. The n-th Connect frame asks the router, and then the
      plugins, for their n-th answer, so answers may vary over time. */
  datatype Env = Env(
    router: Option<(nat, Request) -> Result<Engine.Decision, RouteError>>,
    plugins: Option<nat -> seq<PluginChain.Plugin>>,
    base: PluginChain.Event,
    reason: (string, GoString, Option<RouteError>) -> GoString,
    mac: Envelope.Hmac, secret: Option<Bytes>, keyID: byte,
    writable: bool, plan: Plan)

  datatype Packet = Referral(host: GoString, port: int, content: Bytes) | Disconnect(reason: GoString, byPlugin: bool)

  datatype Status = Open | BadFrame | NotWritable | BuildFailed | WriteFailed | Disconnected

  /** The state of a stream; sent logs the packets written in full, handled the frames acted on. */
  datatype Conn = Conn(
    status: Status, referralSent: bool, content: Option<Bytes>, decision: Engine.Decision, routeErr: Option<RouteError>,
    backend: Backend, out: Out, connects: nat, sent: seq<Packet>, handled: seq<Frame>)

  /** A stream that has received nothing. */
  function Fresh(decision: Engine.Decision, routeErr: Option<RouteError>): Conn {
    Conn(Open, false, None, decision, routeErr, decision.backend, Out([], 0), 0, [], [])
  }

  // ---------- one Connect frame ----------

  function Reroute(env: Env, st: Conn, req: Request): Conn {
    if env.router.None? then st
    else
      match env.router.value(st.connects, req)
      case Ok(d) => st.(decision := d, routeErr := None, backend := d.backend)
      case Err(e) => st.(routeErr := Some(e), backend := NO_BACKEND)
  }

  function RequestOf(env: Env, info: Option<ConnectInfo>): Request {
    match info
    case Some(i) => Request(env.base.sni, i.uuid, i.username, i.language)
    case None => Request(env.base.sni, "", "", "")
  }

  function EventOf(env: Env, i: ConnectInfo): PluginChain.Event {
    env.base.(protocolHash := i.protocolHash, clientType := i.clientType, uuid := i.uuid, username := i.username,
              language := i.language, identityTokenPresent := i.identityTokenPresent)
  }

  /** Plugins start from the last successful decision, even when routing has just failed. */
  function AskPlugins(env: Env, st: Conn, k: nat, i: ConnectInfo): PluginChain.ApplyResult
    requires env.plugins.Some?
  {
    var d := st.decision;
    PluginChain.Chain(env.plugins.value(k), EventOf(env, i),
                      PluginChain.Proposal(d.strategy, d.candidates, d.selectedIndex, d.backend, st.content))
  }

  /** The envelope around the content, or around no content when it does not fit. */
  function Fitting(env: Env, content: Option<Bytes>): (c: Bytes) {
    var c := if content.Some? then content.value else [];
    if Envelope.Encoded(env.mac, c, KeyID(env), Secret(env)).Ok? then c else []
  }

  function KeyID(env: Env): byte {
    if env.secret.Some? then env.keyID else 0
  }

  function Secret(env: Env): Bytes {
    if env.secret.Some? then env.secret.value else []
  }

  function ReferralData(env: Env, content: Option<Bytes>): (data: Bytes)
    ensures Envelope.Encoded(env.mac, Fitting(env, content), KeyID(env), Secret(env)) == Ok(data)
  {
    Envelope.Encoded(env.mac, Fitting(env, content), KeyID(env), Secret(env)).value
  }

  /** uint16(port). */
  function WirePort(port: int): (p: int)
    ensures 0 <= p < 0x1_0000
  {
    port % 0x1_0000
  }

  const REFERRAL_ID := 18
  const DISCONNECT_ID := 1

  /** A failure to build or write a referral leaves the stream open, to be tried again on the next Connect. */
  function SendReferral(env: Env, st: Conn): Conn {
    if st.referralSent || st.backend.host == "" || !env.writable then st
    else
      var port := WirePort(st.backend.port);
      match ReferralPayload(st.backend.host, port, Some(ReferralData(env, st.content)))
      case Err(_) => st
      case Ok(p) =>
        var (out, ok) := Send(env.plan, st.out, FrameBytes(Frame(REFERRAL_ID, p)));
        if !ok then st.(out := out)
        else st.(out := out, referralSent := true,
                 sent := st.sent + [Packet.Referral(st.backend.host, port, Fitting(env, st.content))])
  }

  /** Ends the stream, whether or not the Disconnect packet gets out. */
  function SendDisconnect(env: Env, st: Conn, reason: GoString, byPlugin: bool): Conn {
    if !env.writable then st.(status := NotWritable)
    else
      match DisconnectPayload(reason)
      case Err(_) => st.(status := BuildFailed)
      case Ok(p) =>
        var (out, ok) := Send(env.plan, st.out, FrameBytes(Frame(DISCONNECT_ID, p)));
        if !ok then st.(out := out, status := WriteFailed)
        else st.(out := out, status := Disconnected, sent := st.sent + [Disconnect(reason, byPlugin)])
  }

  /** Referral if there is a backend; otherwise Disconnect, unless a decoded Connect has an empty reason. */
  function Respond(env: Env, st: Conn, language: GoString, decoded: bool): Conn {
    var s := SendReferral(env, st);
    if s.referralSent || s.backend.host != "" then s
    else
      var reason := env.reason(env.base.sni, language, s.routeErr);
      if decoded && reason == "" then s else SendDisconnect(env, s, reason, false)
  }

  /** Routing and, for a decoded Connect, the plugins: the state the answer is chosen in, and the reason of a denial. */
  function Settle(env: Env, st: Conn, info: Option<ConnectInfo>): (Conn, Option<GoString>) {
    var s := Reroute(env, st, RequestOf(env, info)).(connects := st.connects + 1);
    if info.None? || env.plugins.None? then (s, None)
    else
      var res := AskPlugins(env, s, st.connects, info.value);
      if res.denied then (s, Some(res.denyReason))
      else (s.(backend := res.route.backend, content := res.route.content), None)
  }

  function LanguageOf(info: Option<ConnectInfo>): GoString {
    if info.Some? then info.value.language else ""
  }

  /** Acting on a Connect frame, decoded or not. */
  function HandleConnect(env: Env, st: Conn, info: Option<ConnectInfo>): Conn {
    var (s, denied) := Settle(env, st, info);
    if denied.Some? then SendDisconnect(env, s, denied.value, true) else Respond(env, s, LanguageOf(info), info.Some?)
  }

  /** Only packet 0 is acted on. */
  function HandleFrame(env: Env, st: Conn, f: Frame): Conn {
    var s := st.(handled := st.handled + [f]);
    if f.id != 0 then s else HandleConnect(env, s, DecodeConnect(f.payload))
  }

  // ---------- a whole byte sequence ----------

  /** Handles frame after frame; the bytes that remain are those behind the last frame handled and kept open. */
  function Run(env: Env, st: Conn, b: Bytes): (Conn, Bytes)
    decreases |b|
  {
    if st.status != Open then (st, b)
    else
      match SplitFrame(b)
      case Short => (st, b)
      case Invalid => (st.(status := BadFrame), b)
      case Got(f, rest) =>
        var s := HandleFrame(env, st, f);
        if s.status != Open then (s, b) else Run(env, s, rest)
  }

  // ---------- reads ----------

  /** What one Read call delivers: up to a buffer of bytes, and perhaps the end of the stream or an error. */
  datatype Read = Read(data: Bytes, ended: bool)

  /** The chunks delivered up to the first read that ends the stream. */
  function Chunks(input: seq<Read>): seq<Bytes> {
    if input == [] then [] else if input[0].ended then [input[0].data] else [input[0].data] + Chunks(input[1..])
  }

  /** Running on the pending bytes after every chunk. */
  function Chunked(env: Env, st: Conn, pending: Bytes, chunks: seq<Bytes>): (Conn, Bytes)
    decreases |chunks|
  {
    if chunks == [] || st.status != Open then (st, pending)
    else
      var (s, rest) := Run(env, st, pending + chunks[0]);
      Chunked(env, s, rest, chunks[1..])
  }

  /** The frame loop over the pending bytes. */
  method Drain(env: Env, start: Conn, bytes: Bytes) returns (st: Conn, pending: Bytes)
    requires start.status == Open
    ensures (st, pending) == Run(env, start, bytes)
  {
    st, pending := start, bytes;
    while |pending| >= 8
      invariant st.status == Open && Run(env, start, bytes) == Run(env, st, pending)
      decreases |pending|
    {
      var payloadLen := AsInt32(GetU32(pending, 0));
      var packetID := AsInt32(GetU32(pending, 4));
      if payloadLen < 0 || payloadLen > MAX_HYTALE_PAYLOAD || payloadLen > MAX_BUFFERED_PAYLOAD {
        st := st.(status := BadFrame);
        return;
      }
      var frameLen := 8 + payloadLen;
      if |pending| < frameLen {
        return;
      }
      var f := Frame(packetID, pending[8..frameLen]);
      st := HandleFrame(env, st, f);
      if st.status != Open {
        return;
      }
      pending := pending[frameLen..];
    }
  }

  /** The stream's life: read, append to the pending bytes, drain, until the reader ends or the machine stops. */
  method DumpFrames(env: Env, input: seq<Read>, decision: Engine.Decision, routeErr: Option<RouteError>)
    returns (st: Conn, pending: Bytes)
    ensures (st, pending) == Chunked(env, Fresh(decision, routeErr), [], Chunks(input))
  {
    st, pending := Fresh(decision, routeErr), [];
    for i := 0 to |input|
      invariant st.status == Open
      invariant Chunked(env, Fresh(decision, routeErr), [], Chunks(input)) == Chunked(env, st, pending, Chunks(input[i..]))
    {
      assert input[i..][1..] == input[i + 1..];
      st, pending := Drain(env, st, pending + input[i].data);
      if st.status != Open || input[i].ended {
        return;
      }
    }
  }
}
