/** Packet framing: payload length and packet id, four bytes each, then the payload. */
module Framing {
  import opened Common
  import opened Bytes

  const MAX_HYTALE_PAYLOAD := 1677721600
  const MAX_BUFFERED_PAYLOAD := 16 * 1024 * 1024

  datatype Frame = Frame(id: int, payload: Bytes)

  function FrameBytes(f: Frame): Bytes {
    PutU32(AsUint32(|f.payload|)) + PutU32(AsUint32(f.id)) + f.payload
  }

  /** What the start of the received bytes is: not a whole frame yet, a bad header, or a frame and the bytes behind it. */
  datatype Split = Short | Invalid | Got(frame: Frame, rest: Bytes)

  function SplitFrame(b: Bytes): Split {
    if |b| < 8 then Short
    else
      var payloadLen := AsInt32(GetU32(b, 0));
      if payloadLen < 0 || payloadLen > MAX_HYTALE_PAYLOAD || payloadLen > MAX_BUFFERED_PAYLOAD then Invalid
      else if |b| < 8 + payloadLen then Short
      else Got(Frame(AsInt32(GetU32(b, 4)), b[8..8 + payloadLen]), b[8 + payloadLen..])
  }

  /** More bytes behind a header or a frame do not change how it splits. */
  lemma {:induction false} SplitStable(a: Bytes, b: Bytes)
    ensures SplitFrame(a).Invalid? ==> SplitFrame(a + b).Invalid?
    ensures SplitFrame(a).Got? ==> SplitFrame(a + b) == Got(SplitFrame(a).frame, SplitFrame(a).rest + b)
  {
    if |a| >= 8 {
      var c := a + b;
      assert GetU32(c, 0) == GetU32(a, 0) && GetU32(c, 4) == GetU32(a, 4);
      var n := AsInt32(GetU32(a, 0));
      if SplitFrame(a).Got? {
        assert c[8..8 + n] == a[8..8 + n] && c[8 + n..] == a[8 + n..] + b;
      }
    }
  }

  /** A split takes off exactly the frame's own bytes. */
  lemma {:induction false} SplitConserves(b: Bytes)
    requires SplitFrame(b).Got?
    ensures b == FrameBytes(SplitFrame(b).frame) + SplitFrame(b).rest
  {
    var f := SplitFrame(b).frame;
    U32Inverse(b, 0);
    U32Inverse(b, 4);
    assert b[0..8] == PutU32(GetU32(b, 0)) + PutU32(GetU32(b, 4)) by {
      assert b[0..8] == b[0..4] + b[4..8];
    }
    assert b == b[0..8] + f.payload + SplitFrame(b).rest;
  }

  /** A frame the router writes is the frame its reader splits off. */
  lemma {:induction false} FrameRoundTrip(f: Frame, rest: Bytes)
    requires |f.payload| <= 16 * 1024 * 1024 && -0x8000_0000 <= f.id < 0x8000_0000
    ensures SplitFrame(FrameBytes(f) + rest) == Got(f, rest)
  {
    var b, n := FrameBytes(f) + rest, |f.payload|;
    assert b[0..4] == PutU32(AsUint32(n)) && b[4..8] == PutU32(AsUint32(f.id));
    U32RoundTrip(b, 0, AsUint32(n));
    U32RoundTrip(b, 4, AsUint32(f.id));
    assert b[8..8 + n] == f.payload && b[8 + n..] == rest;
  }

  // ---------- writing ----------

  /** How a stream answers one Write call: it takes n bytes, at least one and at most all, or takes some and fails. */
  datatype WriteStep = Accept(n: nat) | Fail(n: nat)

  /** The bytes on the wire so far, and the number of Write calls made. */
  datatype Out = Out(wire: Bytes, calls: nat)

  type Plan = nat -> WriteStep

  function Taken(s: WriteStep, buf: Bytes): (n: nat)
    requires buf != []
    ensures n <= |buf| && (s.Accept? ==> 0 < n)
  {
    match s
    case Accept(n) => if n == 0 then 1 else Min(n, |buf|)
    case Fail(n) => Min(n, |buf|)
  }

  /** Writing buf to the end, or to the first failure. */
  function Send(plan: Plan, out: Out, buf: Bytes): (r: (Out, bool))
    decreases |buf|
  {
    if buf == [] then (out, true)
    else
      var n := Taken(plan(out.calls), buf);
      var next := Out(out.wire + buf[..n], out.calls + 1);
      if plan(out.calls).Fail? then (next, false) else Send(plan, next, buf[n..])
  }

  method WriteFramedPacket(plan: Plan, start: Out, id: int, payload: Bytes) returns (out: Out, ok: bool)
    ensures (out, ok) == Send(plan, start, FrameBytes(Frame(id, payload)))
  {
    out := start;
    var buf := PutU32(AsUint32(|payload|)) + PutU32(AsUint32(id)) + payload;
    while |buf| > 0
      invariant Send(plan, out, buf) == Send(plan, start, FrameBytes(Frame(id, payload)))
      decreases |buf|
    {
      var step := plan(out.calls);
      var n := Taken(step, buf);
      out := Out(out.wire + buf[..n], out.calls + 1);
      if step.Fail? {
        return out, false;
      }
      buf := buf[n..];
    }
    return out, true;
  }

  /** A successful write puts the whole buffer on the wire, once and in order; a failed one a prefix of it. */
  lemma {:induction false} SendAppends(plan: Plan, out: Out, buf: Bytes) returns (k: nat)
    ensures k <= |buf| && Send(plan, out, buf).0.wire == out.wire + buf[..k]
    ensures Send(plan, out, buf).1 ==> k == |buf|
    ensures (forall i :: out.calls <= i ==> plan(i).Accept?) ==> Send(plan, out, buf).1
    decreases |buf|
  {
    k := 0;
    if buf == [] {
      assert out.wire + buf[..0] == out.wire;
    } else {
      var n := Taken(plan(out.calls), buf);
      if plan(out.calls).Fail? {
        k := n;
      } else {
        var next := Out(out.wire + buf[..n], out.calls + 1);
        var j := SendAppends(plan, next, buf[n..]);
        k := n + j;
        assert out.wire + buf[..n] + buf[n..][..j] == out.wire + buf[..k];
      }
    }
  }
}
