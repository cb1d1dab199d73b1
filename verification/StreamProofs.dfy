/** What every run of a stream keeps, however its bytes are chunked, and what the client can read back. */
module StreamProofs {
  import opened Common
  import opened Bytes
  import opened RoutingTypes
  import opened Framing
  import opened Codec
  import opened Connect
  import opened Streams
  import Engine
  import Envelope
  import PluginChain
  import VarInt

  /** Routing and plugins touch neither what was sent nor whether the stream is open. */
  lemma SettleKeeps(env: Env, st: Conn, info: Option<ConnectInfo>)
    ensures var s := Settle(env, st, info).0;
            && s.status == st.status && s.referralSent == st.referralSent && s.out == st.out
            && s.sent == st.sent && s.handled == st.handled
  {
  }

  // ---------- chunking independence ----------

  function Flat(chunks: seq<Bytes>): Bytes {
    if chunks == [] then [] else chunks[0] + Flat(chunks[1..])
  }

  /** Running on a + b is running on a and then, if the stream is still open, on what remained and b. */
  lemma {:induction false} RunAppend(env: Env, st: Conn, a: Bytes, b: Bytes)
    ensures var (s, rest) := Run(env, st, a);
            Run(env, st, a + b) == if s.status != Open then (s, rest + b) else Run(env, s, rest + b)
    decreases |a|
  {
    SplitStable(a, b);
    if st.status == Open && SplitFrame(a).Got? {
      var s := HandleFrame(env, st, SplitFrame(a).frame);
      if s.status == Open {
        RunAppend(env, s, SplitFrame(a).rest, b);
      }
    }
  }

  /** Chunk by chunk or all at once, the stream ends up in the same state. */
  lemma {:induction false} ChunkedIsRun(env: Env, st: Conn, pending: Bytes, chunks: seq<Bytes>)
    requires SplitFrame(pending).Short?
    ensures var (s, rest) := Chunked(env, st, pending, chunks);
            if s.status == Open then Run(env, st, pending + Flat(chunks)) == (s, rest)
            else Run(env, st, pending + Flat(chunks)).0 == s
    decreases |chunks|
  {
    if chunks == [] {
      assert pending + [] == pending;
    } else if st.status == Open {
      var first, more := pending + chunks[0], Flat(chunks[1..]);
      var (s, rest) := Run(env, st, first);
      RunAppend(env, st, first, more);
      Assoc(pending, chunks[0], more);
      if s.status == Open {
        RunDrains(env, st, first);
        ChunkedIsRun(env, s, rest, chunks[1..]);
      } else {
        ChunkedStopped(env, s, rest, chunks[1..]);
      }
    } else {
      ChunkedStopped(env, st, pending, chunks);
    }
  }

  lemma ChunkedStopped(env: Env, st: Conn, pending: Bytes, chunks: seq<Bytes>)
    requires st.status != Open
    ensures Chunked(env, st, pending, chunks) == (st, pending) && forall b :: Run(env, st, b) == (st, b)
  {
  }

  /** Two ways of splitting the same bytes into reads handle the same frames and write the same bytes. */
  lemma {:induction false} ChunkingIndependent(env: Env, st: Conn, one: seq<Bytes>, two: seq<Bytes>)
    requires Flat(one) == Flat(two)
    ensures Chunked(env, st, [], one).0 == Chunked(env, st, [], two).0
    ensures Chunked(env, st, [], one).0.status == Open ==> Chunked(env, st, [], one).1 == Chunked(env, st, [], two).1
  {
    ChunkedIsRun(env, st, [], one);
    ChunkedIsRun(env, st, [], two);
  }

  /** After a drain that leaves the stream open, no whole frame is pending, and less than 8 bytes plus 16 MiB are. */
  lemma {:induction false} RunDrains(env: Env, st: Conn, b: Bytes)
    ensures Run(env, st, b).0.status == Open ==>
              SplitFrame(Run(env, st, b).1).Short? && |Run(env, st, b).1| < 8 + 16 * 1024 * 1024
    decreases |b|
  {
    if st.status == Open && SplitFrame(b).Got? {
      RunDrains(env, HandleFrame(env, st, SplitFrame(b).frame), SplitFrame(b).rest);
    }
  }

  // ---------- conservation ----------

  function Raw(frames: seq<Frame>): Bytes {
    if frames == [] then [] else Raw(frames[..|frames| - 1]) + FrameBytes(frames[|frames| - 1])
  }

  lemma HandledGrows(env: Env, st: Conn, f: Frame)
    ensures HandleFrame(env, st, f).handled == st.handled + [f]
  {
    if f.id == 0 {
      AnswerKeepsHandled(env, st.(handled := st.handled + [f]), DecodeConnect(f.payload));
    }
  }

  lemma AnswerKeepsHandled(env: Env, st: Conn, info: Option<ConnectInfo>)
    ensures HandleConnect(env, st, info).handled == st.handled
  {
    SettleKeeps(env, st, info);
    var (s, denied) := Settle(env, st, info);
    if denied.None? {
      assert SendReferral(env, s).handled == s.handled;
    }
  }

  /** The frames taken off the buffer; a frame that ended the stream is handled but stays in front of the pending bytes. */
  function Consumed(st: Conn): seq<Frame> {
    if st.status == Open || st.status == BadFrame || st.handled == [] then st.handled else st.handled[..|st.handled| - 1]
  }

  lemma RawSnoc(frames: seq<Frame>, f: Frame, rest: Bytes)
    ensures Raw(frames + [f]) + rest == Raw(frames) + (FrameBytes(f) + rest)
  {
    assert (frames + [f])[..|frames|] == frames;
  }

  /** Nothing is lost or invented: consumed frames followed by pending bytes are all the bytes received. */
  lemma {:induction false} RunConserves(env: Env, st: Conn, b: Bytes)
    requires st.status == Open
    ensures Raw(st.handled) + b == Raw(Consumed(Run(env, st, b).0)) + Run(env, st, b).1
    decreases |b|
  {
    if SplitFrame(b).Got? {
      var f, rest := SplitFrame(b).frame, SplitFrame(b).rest;
      var s := HandleFrame(env, st, f);
      HandledGrows(env, st, f);
      SplitConserves(b);
      RawSnoc(st.handled, f, rest);
      if s.status == Open {
        RunConserves(env, s, rest);
      } else {
        StopKeepsFrame(env, st, f);
      }
    }
  }

  lemma StopKeepsFrame(env: Env, st: Conn, f: Frame)
    requires st.status == Open
    ensures HandleFrame(env, st, f).status != BadFrame
    ensures HandleFrame(env, st, f).status != Open ==> Consumed(HandleFrame(env, st, f)) == st.handled
  {
    HandledGrows(env, st, f);
    if f.id == 0 {
      StopsForAReason(env, st.(handled := st.handled + [f]), DecodeConnect(f.payload));
    }
  }

  lemma StopsForAReason(env: Env, st: Conn, info: Option<ConnectInfo>)
    requires st.status == Open
    ensures HandleConnect(env, st, info).status != BadFrame
  {
    SettleKeeps(env, st, info);
  }

  // ---------- the packets sent ----------

  /** At most one referral, then at most one disconnect, which ends the stream; a disconnect follows a referral only
      when a plugin denied. */
  ghost predicate Proper(st: Conn) {
    && (st.referralSent <==> st.sent != [] && st.sent[0].Referral?)
    && match st.status
       case Open => st.sent == [] || (|st.sent| == 1 && st.sent[0].Referral?)
       case Disconnected =>
         || (|st.sent| == 1 && st.sent[0].Disconnect?)
         || (|st.sent| == 2 && st.sent[0].Referral? && st.sent[1].Disconnect? && st.sent[1].byPlugin)
       case _ => st.sent == [] || (|st.sent| == 1 && st.sent[0].Referral?)
  }

  lemma RespondProper(env: Env, st: Conn, language: GoString, decoded: bool)
    requires Proper(st) && st.status == Open
    ensures Proper(Respond(env, st, language, decoded))
  {
    var s := SendReferral(env, st);
    assert Proper(s) && s.status == Open;
  }

  lemma HandleProper(env: Env, st: Conn, info: Option<ConnectInfo>)
    requires Proper(st) && st.status == Open
    ensures Proper(HandleConnect(env, st, info))
  {
    SettleKeeps(env, st, info);
    var (s, denied) := Settle(env, st, info);
    if denied.None? {
      RespondProper(env, s, LanguageOf(info), info.Some?);
    }
  }

  lemma {:induction false} RunProper(env: Env, st: Conn, b: Bytes)
    requires Proper(st)
    ensures Proper(Run(env, st, b).0)
    decreases |b|
  {
    if st.status == Open && SplitFrame(b).Got? {
      var f := SplitFrame(b).frame;
      var s := st.(handled := st.handled + [f]);
      assert Proper(s);
      if f.id == 0 {
        HandleProper(env, s, DecodeConnect(f.payload));
      }
      RunProper(env, HandleFrame(env, st, f), SplitFrame(b).rest);
    }
  }

  /** The packets of any stream, from its first byte on. */
  lemma {:induction false} SentShape(env: Env, decision: Engine.Decision, routeErr: Option<RouteError>, chunks: seq<Bytes>)
    ensures Proper(Chunked(env, Fresh(decision, routeErr), [], chunks).0)
  {
    ChunkedIsRun(env, Fresh(decision, routeErr), [], chunks);
    RunProper(env, Fresh(decision, routeErr), [] + Flat(chunks));
  }

  // ---------- the bytes on the wire ----------

  /** The frame a logged packet stands for. */
  function PacketFrame(env: Env, p: Packet): Option<Frame> {
    match p
    case Referral(host, port, content) =>
      if !(0 <= port < 0x1_0000) then None
      else
        (match Envelope.Encoded(env.mac, content, KeyID(env), Secret(env))
         case Err(_) => None
         case Ok(data) =>
           match ReferralPayload(host, port, Some(data))
           case Err(_) => None
           case Ok(payload) => Some(Frame(REFERRAL_ID, payload)))
    case Disconnect(reason, _) =>
      match DisconnectPayload(reason)
      case Err(_) => None
      case Ok(payload) => Some(Frame(DISCONNECT_ID, payload))
  }

  function PacketBytes(env: Env, p: Packet): Bytes {
    match PacketFrame(env, p)
    case Some(f) => FrameBytes(f)
    case None => []
  }

  function Joined(parts: seq<Bytes>): Bytes {
    if parts == [] then [] else Joined(parts[..|parts| - 1]) + parts[|parts| - 1]
  }

  function Encodings(env: Env, sent: seq<Packet>): (parts: seq<Bytes>)
    ensures |parts| == |sent| && forall i :: 0 <= i < |sent| ==> parts[i] == PacketBytes(env, sent[i])
  {
    seq(|sent|, i requires 0 <= i < |sent| => PacketBytes(env, sent[i]))
  }

  function Wire(env: Env, sent: seq<Packet>): Bytes {
    Joined(Encodings(env, sent))
  }

  lemma {:induction false} JoinedCons(parts: seq<Bytes>)
    requires parts != []
    ensures Joined(parts) == parts[0] + Joined(parts[1..])
  {
    if |parts| == 1 {
      assert Joined(parts) == [] + parts[0];
    } else {
      JoinedCons(parts[..|parts| - 1]);
      assert parts[..|parts| - 1][1..] == parts[1..][..|parts[1..]| - 1];
      assert Joined(parts) == parts[0] + Joined(parts[1..][..|parts[1..]| - 1]) + parts[|parts| - 1];
    }
  }

  lemma WireSnoc(env: Env, sent: seq<Packet>, p: Packet)
    ensures Wire(env, sent + [p]) == Wire(env, sent) + PacketBytes(env, p)
  {
    var s, t := Encodings(env, sent), Encodings(env, sent + [p]);
    assert t == s + [PacketBytes(env, p)];
    assert t[..|t| - 1] == s;
  }

  lemma WireCons(env: Env, sent: seq<Packet>)
    requires sent != []
    ensures Wire(env, sent) == PacketBytes(env, sent[0]) + Wire(env, sent[1..])
  {
    assert Encodings(env, sent)[1..] == Encodings(env, sent[1..]);
    JoinedCons(Encodings(env, sent));
  }

  ghost predicate Reliable(plan: Plan) {
    forall i :: plan(i).Accept?
  }

  /** Every logged packet can be encoded, and the wire holds exactly the logged packets. */
  ghost predicate Faithful(env: Env, st: Conn) {
    && (forall i :: 0 <= i < |st.sent| ==> PacketFrame(env, st.sent[i]).Some?)
    && (Reliable(env.plan) ==> st.out.wire == Wire(env, st.sent))
  }

  lemma SendFaithful(env: Env, st: Conn, p: Packet, f: Frame)
    requires Faithful(env, st) && PacketFrame(env, p) == Some(f)
    ensures var (out, ok) := Send(env.plan, st.out, FrameBytes(f));
            && (ok ==> Faithful(env, st.(out := out, sent := st.sent + [p])))
            && (Reliable(env.plan) ==> ok) && (!ok ==> Faithful(env, st.(out := out)))
  {
    var k := SendAppends(env.plan, st.out, FrameBytes(f));
    WireSnoc(env, st.sent, p);
    assert FrameBytes(f)[..|FrameBytes(f)|] == FrameBytes(f);
  }

  lemma SendReferralFaithful(env: Env, st: Conn)
    requires Faithful(env, st)
    ensures Faithful(env, SendReferral(env, st))
  {
    if !st.referralSent && st.backend.host != "" && env.writable {
      var port, data := WirePort(st.backend.port), ReferralData(env, st.content);
      match ReferralPayload(st.backend.host, port, Some(data)) {
        case Err(_) =>
        case Ok(p) =>
          SendFaithful(env, st, Packet.Referral(st.backend.host, port, Fitting(env, st.content)), Frame(REFERRAL_ID, p));
      }
    }
  }

  lemma SendDisconnectFaithful(env: Env, st: Conn, reason: GoString, byPlugin: bool)
    requires Faithful(env, st)
    ensures Faithful(env, SendDisconnect(env, st, reason, byPlugin))
  {
    if env.writable && DisconnectPayload(reason).Ok? {
      SendFaithful(env, st, Disconnect(reason, byPlugin), Frame(DISCONNECT_ID, DisconnectPayload(reason).value));
    }
  }

  lemma RespondFaithful(env: Env, st: Conn, language: GoString, decoded: bool)
    requires Faithful(env, st)
    ensures Faithful(env, Respond(env, st, language, decoded))
  {
    SendReferralFaithful(env, st);
    var s := SendReferral(env, st);
    SendDisconnectFaithful(env, s, env.reason(env.base.sni, language, s.routeErr), false);
  }

  lemma HandleFaithful(env: Env, st: Conn, info: Option<ConnectInfo>)
    requires Faithful(env, st)
    ensures Faithful(env, HandleConnect(env, st, info))
  {
    SettleKeeps(env, st, info);
    var (s, denied) := Settle(env, st, info);
    FaithfulSame(env, st, s);
    if denied.Some? {
      SendDisconnectFaithful(env, s, denied.value, true);
    } else {
      RespondFaithful(env, s, LanguageOf(info), info.Some?);
    }
  }

  lemma FaithfulSame(env: Env, s: Conn, t: Conn)
    requires Faithful(env, s) && t.sent == s.sent && t.out == s.out
    ensures Faithful(env, t)
  {
  }

  /** While writes succeed, the bytes written are exactly the logged packets, framed, in order. */
  lemma {:induction false} RunFaithful(env: Env, st: Conn, b: Bytes)
    requires Faithful(env, st)
    ensures Faithful(env, Run(env, st, b).0)
    decreases |b|
  {
    if st.status == Open && SplitFrame(b).Got? {
      var f := SplitFrame(b).frame;
      var s := st.(handled := st.handled + [f]);
      assert Faithful(env, s);
      if f.id == 0 {
        HandleFaithful(env, s, DecodeConnect(f.payload));
      }
      RunFaithful(env, HandleFrame(env, st, f), SplitFrame(b).rest);
    }
  }

  // ---------- end to end ----------

  lemma PayloadFits(env: Env, p: Packet)
    requires PacketFrame(env, p).Some?
    ensures |PacketFrame(env, p).value.payload| <= MAX_BUFFERED_PAYLOAD
  {
    match p {
      case Referral(host, port, content) =>
        Envelope.EncodedIff(env.mac, content, KeyID(env), Secret(env));
        var data := Envelope.Encoded(env.mac, content, KeyID(env), Secret(env)).value;
        AddressSize(host, port);
        VarInt.ReadEncoded(VarInt.Encode(|data|), 0, |data|);
      case Disconnect(reason, _) =>
        VarInt.ReadEncoded(VarInt.Encode(|reason|), 0, |reason|);
    }
  }

  /** The secret referrals are signed with; none signs nothing. */
  ghost predicate Signs(env: Env) {
    env.secret.Some? && env.secret.value != []
  }

  /** What a client makes of a frame it receives: a referral is packet 18, whose data parses to an envelope with the content
      and the configured key id, signed so that a holder of the secret can verify it; a disconnect is packet 1. */
  ghost predicate ReadsAs(env: Env, f: Frame, p: Packet) {
    match p
    case Referral(host, port, content) =>
      && f.id == 18 && ReadReferral(f.payload).Some?
      && var r := ReadReferral(f.payload).value;
         && r.host == host && r.port == port && r.data.Some? && Envelope.Parse(r.data.value).Ok?
         && (var e := Envelope.Parse(r.data.value).value;
             && e.content == content && e.keyID == (if env.secret.Some? then env.keyID else 0) && e.signed == Signs(env))
         && (Signs(env) ==> Envelope.VerifyHMACSHA256(env.mac, r.data.value, env.secret.value).Ok?)
    case Disconnect(reason, _) => f.id == 1 && ReadDisconnect(f.payload) == Some(reason)
  }

  lemma DataReadsBack(env: Env, content: Bytes, data: Bytes)
    requires Envelope.Encoded(env.mac, content, KeyID(env), Secret(env)) == Ok(data)
    ensures Envelope.Parse(data).Ok?
    ensures var e := Envelope.Parse(data).value;
            e.content == content && e.keyID == (if env.secret.Some? then env.keyID else 0) && e.signed == Signs(env)
    ensures Signs(env) ==> Envelope.VerifyHMACSHA256(env.mac, data, env.secret.value).Ok?
  {
    Envelope.ParseEncoded(env.mac, content, KeyID(env), Secret(env), []);
    assert data + [] == data;
  }

  lemma {:induction false} PacketReadsBack(env: Env, p: Packet, rest: Bytes)
    requires PacketFrame(env, p).Some?
    ensures SplitFrame(FrameBytes(PacketFrame(env, p).value) + rest) == Got(PacketFrame(env, p).value, rest)
    ensures ReadsAs(env, PacketFrame(env, p).value, p)
  {
    PayloadFits(env, p);
    FrameRoundTrip(PacketFrame(env, p).value, rest);
    match p {
      case Referral(host, port, content) =>
        var data := Envelope.Encoded(env.mac, content, KeyID(env), Secret(env)).value;
        ReferralRoundTrip(host, port, Some(data));
        DataReadsBack(env, content, data);
      case Disconnect(reason, _) => DisconnectRoundTrip(reason);
    }
  }

  /** The client's view of the wire: frame after frame, each reading as the packet it should be. */
  ghost predicate WireReadsAs(env: Env, wire: Bytes, sent: seq<Packet>)
    decreases |sent|
  {
    if sent == [] then wire == []
    else
      match SplitFrame(wire)
      case Got(f, rest) => ReadsAs(env, f, sent[0]) && WireReadsAs(env, rest, sent[1..])
      case _ => false
  }

  lemma {:induction false} WireReadsBack(env: Env, sent: seq<Packet>)
    requires forall i :: 0 <= i < |sent| ==> PacketFrame(env, sent[i]).Some?
    ensures WireReadsAs(env, Wire(env, sent), sent)
    decreases |sent|
  {
    if sent != [] {
      WireCons(env, sent);
      PacketReadsBack(env, sent[0], Wire(env, sent[1..]));
      WireReadsBack(env, sent[1..]);
    }
  }

  /** End to end: on a stream whose writes succeed, a client that unframes the bytes, follows null bits and offsets, and
      parses the envelope, gets exactly the packets of the log: host, port and content, or the reason. */
  lemma {:induction false} EndToEnd(env: Env, decision: Engine.Decision, routeErr: Option<RouteError>, chunks: seq<Bytes>)
    requires Reliable(env.plan)
    ensures var st := Chunked(env, Fresh(decision, routeErr), [], chunks).0; WireReadsAs(env, st.out.wire, st.sent)
  {
    var st0 := Fresh(decision, routeErr);
    ChunkedIsRun(env, st0, [], chunks);
    RunFaithful(env, st0, [] + Flat(chunks));
    WireReadsBack(env, Chunked(env, st0, [], chunks).0.sent);
  }

  // ---------- the first Connect is answered ----------

  /** A referral names a backend: its host, and its port modulo 2^16, which is the port itself in the range of ports. */
  ghost predicate NamesBackend(p: Packet, b: Backend) {
    && p.Referral? && p.host == b.host
    && 0 <= p.port < 0x1_0000 && (b.port - p.port) % 0x1_0000 == 0
    && (0 <= b.port < 0x1_0000 ==> p.port == b.port)
  }

  /** A referral carries content, or none where content, nine bytes of header and the signature exceed 4096 bytes. */
  ghost predicate CarriesContent(env: Env, p: Packet, content: Option<Bytes>) {
    var c := if content.Some? then content.value else [];
    p.Referral? && p.content == if 9 + |c| + (if Signs(env) then 32 else 0) <= 4096 then c else []
  }

  lemma LoggedReferral(env: Env, b: Backend, content: Option<Bytes>)
    ensures NamesBackend(Packet.Referral(b.host, WirePort(b.port), Fitting(env, content)), b)
    ensures CarriesContent(env, Packet.Referral(b.host, WirePort(b.port), Fitting(env, content)), content)
  {
    PortRange(b.port);
    var c := if content.Some? then content.value else [];
    Envelope.EncodedIff(env.mac, c, KeyID(env), Secret(env));
  }

  lemma PortRange(port: int)
    ensures (port - WirePort(port)) % 0x1_0000 == 0 && (0 <= port < 0x1_0000 ==> WirePort(port) == port)
  {
  }

  /** On a writable stream whose writes succeed, a Connect before anything was sent is answered exactly when: a denial's
      reason fits; or the backend's host is at most 256 bytes; or there is no backend and the reason fits and, for a
      decoded Connect, is not empty. The answer names that backend and carries the content, or gives that reason. */
  lemma {:induction false} FirstConnectAnswered(env: Env, st: Conn, info: Option<ConnectInfo>)
    requires env.writable && Reliable(env.plan) && Proper(st) && st.status == Open && st.sent == []
    ensures var (s, denied) := Settle(env, st, info);
            var reason := if denied.Some? then denied.value else env.reason(env.base.sni, LanguageOf(info), s.routeErr);
            var sent := HandleConnect(env, st, info).sent;
            && (denied.None? && s.backend.host != "" ==>
                  if |s.backend.host| <= 256
                  then |sent| == 1 && NamesBackend(sent[0], s.backend) && CarriesContent(env, sent[0], s.content)
                  else sent == [])
            && (denied.Some? || s.backend.host == "" ==>
                  sent == if |reason| <= 4096000 && (denied.Some? || info.None? || reason != "")
                          then [Disconnect(reason, denied.Some?)] else [])
  {
    SettleKeeps(env, st, info);
    var (s, denied) := Settle(env, st, info);
    if denied.Some? {
      AnsweredDisconnect(env, s, denied.value, true);
    } else if s.backend.host != "" {
      AnsweredReferral(env, s);
      LoggedReferral(env, s.backend, s.content);
    } else {
      AnsweredDisconnect(env, s, env.reason(env.base.sni, LanguageOf(info), s.routeErr), false);
    }
  }

  // ---------- streams that cannot be written ----------

  lemma UnwritableAnswer(env: Env, st: Conn, info: Option<ConnectInfo>)
    requires !env.writable
    ensures HandleConnect(env, st, info).out == st.out && HandleConnect(env, st, info).sent == st.sent
  {
    SettleKeeps(env, st, info);
  }

  /** On a stream that cannot be written nothing is sent. */
  lemma {:induction false} UnwritableIsSilent(env: Env, st: Conn, b: Bytes)
    requires !env.writable
    ensures Run(env, st, b).0.out == st.out && Run(env, st, b).0.sent == st.sent
    decreases |b|
  {
    if st.status == Open && SplitFrame(b).Got? {
      var f := SplitFrame(b).frame;
      if f.id == 0 {
        UnwritableAnswer(env, st.(handled := st.handled + [f]), DecodeConnect(f.payload));
      }
      UnwritableIsSilent(env, HandleFrame(env, st, f), SplitFrame(b).rest);
    }
  }

  lemma AnsweredDisconnect(env: Env, s: Conn, reason: GoString, byPlugin: bool)
    requires env.writable && Reliable(env.plan)
    ensures SendDisconnect(env, s, reason, byPlugin).sent ==
              if |reason| <= MAX_REASON then s.sent + [Disconnect(reason, byPlugin)] else s.sent
  {
    if DisconnectPayload(reason).Ok? {
      var k := SendAppends(env.plan, s.out, FrameBytes(Frame(DISCONNECT_ID, DisconnectPayload(reason).value)));
    }
  }

  lemma AnsweredReferral(env: Env, s: Conn)
    requires env.writable && Reliable(env.plan) && !s.referralSent && s.backend.host != ""
    ensures SendReferral(env, s).sent ==
              if |s.backend.host| <= 256
              then s.sent + [Packet.Referral(s.backend.host, WirePort(s.backend.port), Fitting(env, s.content))] else s.sent
    ensures SendReferral(env, s).backend == s.backend
  {
    var port, data := WirePort(s.backend.port), ReferralData(env, s.content);
    Envelope.EncodedIff(env.mac, Fitting(env, s.content), KeyID(env), Secret(env));
    var r := ReferralPayload(s.backend.host, port, Some(data));
    if r.Ok? {
      var k := SendAppends(env.plan, s.out, FrameBytes(Frame(REFERRAL_ID, r.value)));
    }
  }

  /** What the plugins are offered when routing has failed: the last successful decision. */
  function Offered(st: Conn): PluginChain.Proposal {
    PluginChain.Proposal(st.decision.strategy, st.decision.candidates, st.decision.selectedIndex, st.decision.backend, st.content)
  }

  function AnswersAfterFailure(env: Env, st: Conn, i: ConnectInfo): seq<PluginChain.Response>
    requires env.plugins.Some?
  {
    PluginChain.Answers(env.plugins.value(st.connects), EventOf(env, i), Offered(st))
  }

  /** When routing fails, the backend is cleared if no plugin is asked. If plugins are asked and none denies, it is cleared
      exactly when neither the last decision nor any answer leaves a host; with answers that say nothing about backends it
      is the last decision's, or that decision's first candidate. */
  lemma {:induction false} FailedRoutingBackend(env: Env, st: Conn, info: Option<ConnectInfo>)
    requires env.router.Some? && env.router.value(st.connects, RequestOf(env, info)).Err?
    ensures info.None? || env.plugins.None? ==> Settle(env, st, info).0.backend == NO_BACKEND
    ensures info.Some? && env.plugins.Some? && Settle(env, st, info).1.None? ==>
              var answers, d, b := AnswersAfterFailure(env, st, info.value), st.decision, Settle(env, st, info).0.backend;
              && (b.host == "" <==> PluginChain.Nameless(answers, d.candidates, d.backend))
              && ((forall i :: 0 <= i < |answers| ==> PluginChain.Silent(answers[i])) ==>
                    b == if answers != [] && d.backend.host == "" && d.candidates != [] then d.candidates[0] else d.backend)
  {
    if info.Some? && env.plugins.Some? {
      var ps, ev := env.plugins.value(st.connects), EventOf(env, info.value);
      PluginChain.ChainNamelessIff(ps, ev, Offered(st));
      var answers := AnswersAfterFailure(env, st, info.value);
      if forall i :: 0 <= i < |answers| ==> PluginChain.Silent(answers[i]) {
        PluginChain.SilentAnswersKeepBackend(ps, ev, Offered(st));
      }
      SettledByPlugins(env, st, info.value);
    }
  }

  lemma SettledByPlugins(env: Env, st: Conn, i: ConnectInfo)
    requires env.router.Some? && env.router.value(st.connects, RequestOf(env, Some(i))).Err? && env.plugins.Some?
    ensures var res := PluginChain.Chain(env.plugins.value(st.connects), EventOf(env, i), Offered(st));
            && (Settle(env, st, Some(i)).1.None? <==> !res.denied)
            && (!res.denied ==> Settle(env, st, Some(i)).0.backend == res.route.backend)
  {
  }
}
