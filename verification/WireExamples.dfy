/** The wire formats byte by byte, on small packets. */
module WireExamples {
  import opened Common
  import opened Bytes
  import opened Codec
  import opened Connect
  import opened Framing
  import Envelope
  import VarInt

  lemma LittleEndian()
    ensures PutU16(0x1234) == [0x34, 0x12] && PutU32(0x1234_5678) == [0x78, 0x56, 0x34, 0x12]
    ensures GetU16([0x34, 0x12], 0) == 0x1234 && GetU32([0x78, 0x56, 0x34, 0x12], 0) == 0x1234_5678
    ensures PutU32(AsUint32(-1)) == [255, 255, 255, 255] && AsInt32(0xFFFF_FFFF) == -1
  {
  }

  /** 300 is 2 * 128 + 44. */
  lemma VarIntExample()
    ensures VarInt.Encode(300) == [128 + 44, 2] && VarInt.Encode(5) == [5]
  {
    assert VarInt.Encode(2) == [2];
  }

  lemma ShortText(s: GoString)
    requires |s| < 128
    ensures VarString(s) == [|s|] + ToBytes(s)
  {
  }

  /** Payload length, packet id, payload. */
  lemma FrameExample()
    ensures FrameBytes(Frame(18, [0xAB])) == [1, 0, 0, 0, 18, 0, 0, 0, 0xAB]
  {
    assert PutU32(AsUint32(1)) == [1, 0, 0, 0] && PutU32(AsUint32(18)) == [18, 0, 0, 0];
  }

  lemma DisconnectExample()
    ensures DisconnectPayload("no") == Ok([1, 0, 2, 110, 111]) && DisconnectPayload("") == Ok([0, 0])
  {
    var head: Bytes, all: Bytes := [1, 0], [1, 0, 2, 110, 111];
    ShortText("no");
    assert ToBytes("no") == [110, 111];
    assert head + VarString("no") == all;
  }

  /** Null bits, two offsets, port, host, data. */
  lemma ReferralExample()
    ensures ReferralPayload("a", 0x1234, Some([9])) == Ok([3, 0, 0, 0, 0, 4, 0, 0, 0, 0x34, 0x12, 1, 97, 1, 9])
    ensures ReferralPayload("a", 0x1234, None) == Ok([1, 0, 0, 0, 0, 255, 255, 255, 255, 0x34, 0x12, 1, 97])
  {
    ShortText("a");
    assert ToBytes("a") == [97];
    assert HostAddress("a", 0x1234) == [0x34, 0x12, 1, 97];
    assert PutU32(AsUint32(4)) == [4, 0, 0, 0] && PutU32(0) == [0, 0, 0, 0];
    assert PutU32(AsUint32(-1)) == [255, 255, 255, 255];
    assert VarInt.Encode(1) == [1];
    var with: Bytes, without: Bytes :=
      [3, 0, 0, 0, 0, 4, 0, 0, 0, 0x34, 0x12, 1, 97, 1, 9], [1, 0, 0, 0, 0, 255, 255, 255, 255, 0x34, 0x12, 1, 97];
    assert ReferralBody("a", 0x1234, Some([9])) == with;
    assert ReferralBody("a", 0x1234, None) == without;
  }

  /** "HYRP", version 1, flags, key id, content length, content, and the code over all of these. */
  lemma EnvelopeExample(mac: Envelope.Hmac, secret: Bytes)
    ensures Envelope.Encoded(mac, [0xAA], 7, []) == Ok(ToBytes("HYRP") + [1, 0, 7, 1, 0, 0xAA])
    ensures secret != [] ==>
              var plain: Bytes := ToBytes("HYRP") + [1, 1, 7, 1, 0, 0xAA];
              Envelope.Encoded(mac, [0xAA], 7, secret) == Ok(plain + mac(secret, plain))
  {
    assert ToBytes("HYRP") == Envelope.MAGIC;
    var content: Bytes := [0xAA];
    var tail0: Bytes, tail1: Bytes := [1, 0, 7, 1, 0, 0xAA], [1, 1, 7, 1, 0, 0xAA];
    assert Envelope.Header(0, 7, 1) + content == Envelope.MAGIC + tail0;
    assert Envelope.Header(1, 7, 1) + content == Envelope.MAGIC + tail1;
  }

  /** Two lower-case hex digits a byte (Connect.HexAt), in groups of 4, 2, 2, 2 and 6 bytes (Connect.HexGroupsSlices) with
      dashes between them. */
  lemma UUIDExample(b: Bytes)
    requires |b| == 16
    ensures HexByte(0xAF) == "af" && HexByte(0x09) == "09"
    ensures HexGroups(b)[8] == HexGroups(b)[13] == HexGroups(b)[18] == HexGroups(b)[23] == '-'
  {
    HexGroupsSlices(b);
  }
}
