/** The wire formats the router writes, and readers that follow their null bits and offsets. */
module Codec {
  import opened Common
  import opened Bytes
  import VarInt

  datatype CodecError = EmptyHost | HostTooLong | DataTooLong | StringTooLong | NegativeVarInt | PayloadTooSmall

  // ---------- strings and addresses ----------

  function VarString(s: GoString): (b: Bytes)
    ensures |b| >= |s|
  {
    VarInt.Encode(|s|) + ToBytes(s)
  }

  function ReadVarString(b: Bytes, pos: int, maxLen: int): Option<(GoString, nat)> {
    match VarInt.Read(b, pos)
    case None => None
    case Some((l, size)) =>
      if l > maxLen || pos + size + l > |b| then None
      else Some((FromBytes(b[pos + size..pos + size + l]), size + l))
  }

  function HostAddress(host: GoString, port: int): Bytes
    requires 0 <= port < 0x1_0000
  {
    PutU16(port) + VarString(host)
  }

  function ReadHostAddress(b: Bytes, pos: int): Option<((GoString, int), nat)> {
    if pos < 0 || pos + 2 > |b| then None
    else
      match ReadVarString(b, pos + 2, 256)
      case None => None
      case Some((host, size)) => Some(((host, GetU16(b, pos)), 2 + size))
  }

  /** s stands at pos in b. */
  ghost predicate Holds(b: Bytes, pos: int, s: Bytes) {
    0 <= pos && pos + |s| <= |b| && b[pos..pos + |s|] == s
  }

  lemma HoldsParts(b: Bytes, pos: int, s: Bytes, t: Bytes)
    requires Holds(b, pos, s + t)
    ensures Holds(b, pos, s) && Holds(b, pos + |s|, t)
  {
    assert b[pos..pos + |s|] == (s + t)[..|s|] == s by {
      assert b[pos..pos + |s + t|][..|s|] == b[pos..pos + |s|];
    }
    assert b[pos + |s|..pos + |s| + |t|] == (s + t)[|s|..] == t by {
      assert b[pos..pos + |s + t|][|s|..] == b[pos + |s|..pos + |s| + |t|];
    }
  }

  lemma {:induction false} VarStringRoundTrip(b: Bytes, pos: int, s: GoString, maxLen: int)
    requires Holds(b, pos, VarString(s)) && |s| <= maxLen && |s| < VarInt.TWO32
    ensures ReadVarString(b, pos, maxLen) == Some((s, |VarString(s)|))
  {
    HoldsParts(b, pos, VarInt.Encode(|s|), ToBytes(s));
    VarInt.ReadEncoded(b, pos, |s|);
    TextRoundTrip(s, []);
  }

  lemma {:induction false} HostAddressRoundTrip(b: Bytes, pos: int, host: GoString, port: int)
    requires 0 <= port < 0x1_0000 && Holds(b, pos, HostAddress(host, port)) && |host| <= 256
    ensures ReadHostAddress(b, pos) == Some(((host, port), |HostAddress(host, port)|))
  {
    HoldsParts(b, pos, PutU16(port), VarString(host));
    U16RoundTrip(b, pos, port);
    VarStringRoundTrip(b, pos + 2, host, 256);
  }

  lemma Assoc(a: Bytes, b: Bytes, c: Bytes)
    ensures a + b + c == a + (b + c)
  {
  }

  /** d is was, except that the four bytes at pos now read as v. */
  ghost predicate Patched(d: Bytes, was: Bytes, pos: nat, v: int) {
    && pos + 4 <= |d| == |was| && GetU32(d, pos) == AsUint32(v)
    && forall i :: 0 <= i < |d| && !(pos <= i < pos + 4) ==> d[i] == was[i]
  }

  /** Patching a slot between two parts replaces the slot by v's encoding. */
  lemma PatchMiddle(d: Bytes, a: Bytes, slot: Bytes, c: Bytes, v: int)
    requires |slot| == 4 && Patched(d, a + slot + c, |a|, v)
    ensures d == a + PutU32(AsUint32(v)) + c
  {
    var was := a + slot + c;
    U32Inverse(d, |a|);
    assert d[..|a|] == was[..|a|] == a && d[|a| + 4..] == was[|a| + 4..] == c;
    assert d == d[..|a|] + d[|a|..|a| + 4] + d[|a| + 4..];
  }

  // ---------- the growing buffer ----------

  class Buffer {
    var data: Bytes

    constructor ()
      ensures data == []
    {
      data := [];
    }

    method WriteByte(b: byte)
      modifies this
      ensures data == old(data) + [b]
    {
      data := data + [b];
    }

    method Write(bs: Bytes)
      modifies this
      ensures data == old(data) + bs
    {
      data := data + bs;
    }

    /** Overwrites four bytes already written: they read back as v, and nothing else changes. */
    method SetInt32LE(pos: nat, v: int)
      requires pos + 4 <= |data|
      modifies this
      ensures |data| == |old(data)| && GetU32(data, pos) == AsUint32(v)
      ensures forall i :: 0 <= i < |data| && !(pos <= i < pos + 4) ==> data[i] == old(data[i])
    {
      data := data[..pos] + PutU32(AsUint32(v)) + data[pos + 4..];
      assert data[pos..pos + 4] == PutU32(AsUint32(v));
      U32RoundTrip(data, pos, AsUint32(v));
    }

    method WriteVarInt(v: int) returns (ok: bool)
      modifies this
      ensures ok == (v >= 0)
      ensures data == if v >= 0 then old(data) + VarInt.Encode(v) else old(data)
    {
      if v < 0 {
        return false;
      }
      var value: nat := v;
      while value % VarInt.TWO32 / 128 != 0
        invariant data + VarInt.Encode(value) == old(data) + VarInt.Encode(v)
        decreases value
      {
        var low := value % 128 + 128;
        assert data + VarInt.Encode(value) == data + [low] + VarInt.Encode(value / 128);
        WriteByte(low);
        value := value / 128;
      }
      WriteByte(value % 256);
      return true;
    }

    method WriteVarString(s: GoString, maxLen: int) returns (ok: bool)
      modifies this
      ensures ok == (|s| <= maxLen)
      ensures data == if |s| <= maxLen then old(data) + VarString(s) else old(data)
    {
      if |s| > maxLen {
        return false;
      }
      var fits := WriteVarInt(|s|);
      Write(ToBytes(s));
      assert data == old(data) + VarString(s);
      return true;
    }

    method WriteHostAddress(host: GoString, port: int) returns (ok: bool)
      requires 0 <= port < 0x1_0000
      modifies this
      ensures ok == (|host| <= 256)
      ensures data == old(data) + if |host| <= 256 then HostAddress(host, port) else PutU16(port)
    {
      var p := PutU16(port);
      Write(p);
      ok := WriteVarString(host, 256);
      Assoc(old(data), p, VarString(host));
    }
  }

  // ---------- Disconnect ----------

  const MAX_REASON := 4096000

  function DisconnectPayload(reason: GoString): Result<Bytes, CodecError> {
    if reason == "" then Ok([0, 0])
    else if |reason| > MAX_REASON then Err(StringTooLong)
    else Ok([1, 0] + VarString(reason))
  }

  method EncodeDisconnectPayload(reason: GoString) returns (r: Result<Bytes, CodecError>)
    ensures r == DisconnectPayload(reason)
  {
    var payload := new Buffer();
    if reason == "" {
      payload.WriteByte(0);
      payload.WriteByte(0);
      assert payload.data == [0, 0];
      return Ok(payload.data);
    }
    payload.WriteByte(1);
    payload.WriteByte(0);
    var ok := payload.WriteVarString(reason, MAX_REASON);
    if !ok {
      return Err(StringTooLong);
    }
    assert payload.data == [1, 0] + VarString(reason);
    return Ok(payload.data);
  }

  /** The receiver's reading: bit 0 says whether a reason follows the two fixed bytes. */
  function ReadDisconnect(p: Bytes): Option<GoString> {
    if |p| < 2 then None
    else if !HasBit(p[0], 1) then Some("")
    else match ReadVarString(p, 2, MAX_REASON)
      case None => None
      case Some((s, _)) => Some(s)
  }

  lemma {:induction false} DisconnectRoundTrip(reason: GoString)
    requires DisconnectPayload(reason).Ok?
    ensures ReadDisconnect(DisconnectPayload(reason).value) == Some(reason)
  {
    if reason != "" {
      ReasonFound(VarString(reason), reason);
    }
  }

  lemma ReasonFound(text: Bytes, reason: GoString)
    requires text == VarString(reason) && |reason| <= MAX_REASON
    ensures var head: Bytes := [1, 0]; ReadDisconnect(head + text) == Some(reason)
  {
    var head: Bytes := [1, 0];
    var p := head + text;
    assert HasBit(1, 1) && p[0] == 1;
    assert Holds(p, 0, head + text);
    HoldsParts(p, 0, head, text);
    VarStringRoundTrip(p, 2, reason, MAX_REASON);
  }

  // ---------- ClientReferral ----------

  /** The offset of the data, counted from the end of the nine fixed bytes; -1 when there is none. */
  function DataOffset(host: GoString, port: int, data: Option<Bytes>): int
    requires 0 <= port < 0x1_0000
  {
    if data.Some? then |HostAddress(host, port)| else -1
  }

  function ReferralBody(host: GoString, port: int, data: Option<Bytes>): Bytes
    requires 0 <= port < 0x1_0000
  {
    [if data.Some? then 3 else 1] + PutU32(0) + PutU32(AsUint32(DataOffset(host, port, data)))
    + HostAddress(host, port) + if data.Some? then VarInt.Encode(|data.value|) + data.value else []
  }

  function ReferralPayload(host: GoString, port: int, data: Option<Bytes>): Result<Bytes, CodecError>
    requires 0 <= port < 0x1_0000
  {
    if host == "" then Err(EmptyHost)
    else if |host| > 256 then Err(HostTooLong)
    else if data.Some? && |data.value| > 4096 then Err(DataTooLong)
    else Ok(ReferralBody(host, port, data))
  }

  /** Writes nine fixed bytes with empty offset slots, then fills each slot when its part is appended. */
  method EncodeClientReferralPayload(host: GoString, port: int, data: Option<Bytes>) returns (r: Result<Bytes, CodecError>)
    requires 0 <= port < 0x1_0000
    ensures r == ReferralPayload(host, port, data)
  {
    if host == "" {
      return Err(EmptyHost);
    }
    if |host| > 256 {
      return Err(HostTooLong);
    }
    if data.Some? && |data.value| > 4096 {
      return Err(DataTooLong);
    }
    var payload := new Buffer();
    ghost var bits: Bytes, empty: Bytes := [if data.Some? then 3 else 1], [0, 0, 0, 0];
    payload.WriteByte(if data.Some? then 3 else 1);
    var hostSlot := |payload.data|;
    payload.Write([0, 0, 0, 0]);
    var dataSlot := |payload.data|;
    payload.Write([0, 0, 0, 0]);
    var start := |payload.data|;
    ghost var was := payload.data;
    assert was == bits + empty + empty;
    payload.SetInt32LE(hostSlot, |payload.data| - start);
    PatchMiddle(payload.data, bits, empty, empty, 0);
    ghost var head := bits + PutU32(0);
    WriteParts(payload, head, host, port, data, dataSlot, start);
    BodyParts(host, port, data);
    if |payload.data| < 9 {
      return Err(PayloadTooSmall);
    }
    return Ok(payload.data);
  }

  /** The variable block: the address, then the data with its offset. */
  method WriteParts(payload: Buffer, ghost head: Bytes, host: GoString, port: int, data: Option<Bytes>, dataSlot: nat, start: nat)
    requires 0 <= port < 0x1_0000 && |host| <= 256
    requires |head| == dataSlot && start == dataSlot + 4 && payload.data == head + [0, 0, 0, 0]
    modifies payload
    ensures data.None? ==> payload.data == head + PutU32(AsUint32(-1)) + HostAddress(host, port)
    ensures data.Some? ==>
              payload.data == head + PutU32(AsUint32(|HostAddress(host, port)|)) + HostAddress(host, port)
                              + VarInt.Encode(|data.value|) + data.value
  {
    ghost var address, empty: Bytes := HostAddress(host, port), [0, 0, 0, 0];
    var ok := payload.WriteHostAddress(host, port);
    var offset := |payload.data| - start;
    ghost var was := payload.data;
    assert was == head + empty + address && offset == |address|;
    if data.Some? {
      payload.SetInt32LE(dataSlot, offset);
      PatchMiddle(payload.data, head, empty, address, offset);
      ok := payload.WriteVarInt(|data.value|);
      payload.Write(data.value);
    } else {
      payload.SetInt32LE(dataSlot, -1);
      PatchMiddle(payload.data, head, empty, address, -1);
    }
  }

  lemma BodyParts(host: GoString, port: int, data: Option<Bytes>)
    requires 0 <= port < 0x1_0000
    ensures var bits: Bytes := [if data.Some? then 3 else 1];
            var head := bits + PutU32(0);
            ReferralBody(host, port, data) ==
              if data.None? then head + PutU32(AsUint32(-1)) + HostAddress(host, port)
              else head + PutU32(AsUint32(|HostAddress(host, port)|)) + HostAddress(host, port)
                   + VarInt.Encode(|data.value|) + data.value
  {
    var bits: Bytes := [if data.Some? then 3 else 1];
    var front := bits + PutU32(0) + PutU32(AsUint32(DataOffset(host, port, data))) + HostAddress(host, port);
    if data.Some? {
      Assoc(front, VarInt.Encode(|data.value|), data.value);
    } else {
      assert front + [] == front;
    }
  }

  datatype Referral = Referral(host: GoString, port: int, data: Option<Bytes>)

  function ReadOffset(p: Bytes, slot: nat): int
    requires slot + 4 <= |p|
  {
    9 + AsInt32(GetU32(p, slot))
  }

  /** The data part, read from its offset: a varint length, then that many bytes. */
  function ReadData(p: Bytes, pos: int): Option<Bytes> {
    match VarInt.Read(p, pos)
    case None => None
    case Some((l, size)) => if pos + size + l > |p| then None else Some(p[pos + size..pos + size + l])
  }

  /** The receiver's reading of a referral: null bits, offsets, then the parts they point at. */
  function ReadReferral(p: Bytes): Option<Referral> {
    if |p| < 9 || !HasBit(p[0], 1) then None
    else
      match ReadHostAddress(p, ReadOffset(p, 1))
      case None => None
      case Some(((host, port), _)) =>
        if !HasBit(p[0], 2) then Some(Referral(host, port, None))
        else
          match ReadData(p, ReadOffset(p, 5))
          case None => None
          case Some(data) => Some(Referral(host, port, Some(data)))
  }

  lemma {:induction false} DataRoundTrip(p: Bytes, pos: int, data: Bytes)
    requires Holds(p, pos, VarInt.Encode(|data|) + data) && |data| < VarInt.TWO32
    ensures ReadData(p, pos) == Some(data)
  {
    HoldsParts(p, pos, VarInt.Encode(|data|), data);
    VarInt.ReadEncoded(p, pos, |data|);
  }

  lemma ReferralLayout(host: GoString, port: int, data: Option<Bytes>)
    requires 0 <= port < 0x1_0000
    ensures var p := ReferralBody(host, port, data);
            && Holds(p, 1, PutU32(AsUint32(0))) && Holds(p, 5, PutU32(AsUint32(DataOffset(host, port, data))))
            && Holds(p, 9, HostAddress(host, port))
            && (data.Some? ==> Holds(p, 9 + |HostAddress(host, port)|, VarInt.Encode(|data.value|) + data.value))
  {
    var bits: Bytes := [if data.Some? then 3 else 1];
    var offset, address := PutU32(AsUint32(DataOffset(host, port, data))), HostAddress(host, port);
    FiveParts(bits, PutU32(0), offset, address, if data.Some? then VarInt.Encode(|data.value|) + data.value else []);
  }

  lemma FiveParts(a: Bytes, b: Bytes, c: Bytes, d: Bytes, e: Bytes)
    ensures var p := a + b + c + d + e;
            && Holds(p, |a|, b) && Holds(p, |a| + |b|, c) && Holds(p, |a| + |b| + |c|, d) && Holds(p, |a| + |b| + |c| + |d|, e)
  {
    var p := a + b + c + d + e;
    assert p == a + (b + (c + (d + e))) && Holds(p, 0, p);
    HoldsParts(p, 0, a, b + (c + (d + e)));
    HoldsParts(p, |a|, b, c + (d + e));
    HoldsParts(p, |a| + |b|, c, d + e);
    HoldsParts(p, |a| + |b| + |c|, d, e);
  }

  /** The data, when there is some, is found at its offset. */
  lemma ReferralDataRoundTrip(host: GoString, port: int, data: Bytes)
    requires 0 <= port < 0x1_0000 && |host| <= 256 && |data| <= 4096
    ensures var p := ReferralBody(host, port, Some(data)); |p| >= 9 && ReadData(p, ReadOffset(p, 5)) == Some(data)
  {
    var p, size := ReferralBody(host, port, Some(data)), |HostAddress(host, port)|;
    ReferralLayout(host, port, Some(data));
    AddressSize(host, port);
    OffsetRoundTrip(p, 5, size);
    DataAtOffset(p, 9 + size, data);
  }

  lemma DataAtOffset(p: Bytes, pos: int, data: Bytes)
    requires |p| >= 9 && ReadOffset(p, 5) == pos
    requires |data| <= 4096 && Holds(p, pos, VarInt.Encode(|data|) + data)
    ensures ReadData(p, ReadOffset(p, 5)) == Some(data)
  {
    DataRoundTrip(p, pos, data);
  }

  lemma ReferralHostRoundTrip(host: GoString, port: int, data: Option<Bytes>)
    requires 0 <= port < 0x1_0000 && |host| <= 256
    ensures var p := ReferralBody(host, port, data);
            && |p| >= 9 && p[0] == (if data.Some? then 3 else 1)
            && ReadHostAddress(p, ReadOffset(p, 1)) == Some(((host, port), |HostAddress(host, port)|))
  {
    var p := ReferralBody(host, port, data);
    ReferralLayout(host, port, data);
    OffsetRoundTrip(p, 1, 0);
    HostAddressRoundTrip(p, 9, host, port);
  }

  /** A referral can be encoded exactly for a host of 1 to 256 bytes and at most 4096 bytes of data. */
  lemma ReferralEncodesIff(host: GoString, port: int, data: Option<Bytes>)
    requires 0 <= port < 0x1_0000
    ensures ReferralPayload(host, port, data).Ok? <==> 1 <= |host| <= 256 && (data.Some? ==> |data.value| <= 4096)
  {
  }

  /** What the router encodes is what the client reads: host, port and data, exactly. */
  lemma {:induction false} ReferralRoundTrip(host: GoString, port: int, data: Option<Bytes>)
    requires 0 <= port < 0x1_0000 && ReferralPayload(host, port, data).Ok?
    ensures ReadReferral(ReferralPayload(host, port, data).value) == Some(Referral(host, port, data))
  {
    ReferralHostRoundTrip(host, port, data);
    if data.Some? {
      ReferralDataRoundTrip(host, port, data.value);
    }
    ReferralParts(ReferralBody(host, port, data), host, port, data, |HostAddress(host, port)|);
  }

  lemma ReferralParts(p: Bytes, host: GoString, port: int, data: Option<Bytes>, size: nat)
    requires |p| >= 9 && p[0] == (if data.Some? then 3 else 1)
    requires ReadHostAddress(p, ReadOffset(p, 1)) == Some(((host, port), size))
    requires data.Some? ==> ReadData(p, ReadOffset(p, 5)) == Some(data.value)
    ensures ReadReferral(p) == Some(Referral(host, port, data))
  {
    assert HasBit(3, 1) && HasBit(3, 2) && HasBit(1, 1) && !HasBit(1, 2);
  }

  lemma OffsetRoundTrip(p: Bytes, slot: nat, v: int)
    requires 0 <= v < 0x8000_0000 && Holds(p, slot, PutU32(AsUint32(v)))
    ensures slot + 4 <= |p| && ReadOffset(p, slot) == 9 + v
  {
    U32RoundTrip(p, slot, AsUint32(v));
  }

  lemma AddressSize(host: GoString, port: int)
    requires 0 <= port < 0x1_0000 && |host| <= 256
    ensures |HostAddress(host, port)| <= 263
  {
    assert VarInt.Capacity(5) == VarInt.TWO35 by {
      assert VarInt.Capacity(1) == 128 && VarInt.Capacity(2) == 0x4000 && VarInt.Capacity(3) == 0x20_0000;
      assert VarInt.Capacity(4) == 0x1000_0000;
    }
    VarInt.RoundTrip32(|host|, 5, []);
  }
}
