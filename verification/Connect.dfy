/** Decoding the client's Connect packet, in its two layouts. No payload makes a decoder read out of range. */
module Connect {
  import opened Common
  import opened Bytes
  import opened Codec
  import VarInt

  datatype ConnectInfo = ConnectInfo(
    protocolHash: GoString, protocolCrc: int, protocolBuildNumber: int, clientVersion: GoString, clientType: byte,
    uuid: GoString, language: GoString, identityTokenPresent: bool, username: GoString,
    referralDataLen: nat, referralSource: Option<(GoString, int)>)

  // ---------- fixed fields ----------

  /** Text up to the first NUL. */
  function UpToNul(b: Bytes): Bytes {
    if b == [] || b[0] == 0 then [] else [b[0]] + UpToNul(b[1..])
  }

  function FixedASCII(b: Bytes, start: int, length: int): GoString {
    if start < 0 || length < 0 || start + length > |b| then "" else FromBytes(UpToNul(b[start..start + length]))
  }

  lemma {:induction false} UpToNulIs(b: Bytes, end: nat)
    requires end <= |b| && (end < |b| ==> b[end] == 0)
    requires forall i :: 0 <= i < end ==> b[i] != 0
    ensures UpToNul(b) == b[..end]
  {
    if end > 0 {
      UpToNulIs(b[1..], end - 1);
      assert b[..end] == [b[0]] + b[1..][..end - 1];
    }
  }

  method ReadFixedASCII(b: Bytes, start: int, length: int) returns (s: GoString)
    ensures s == FixedASCII(b, start, length)
  {
    if start < 0 || length < 0 || start + length > |b| {
      return "";
    }
    var slice := b[start..start + length];
    var end := 0;
    while end < |slice| && slice[end] != 0
      invariant 0 <= end <= |slice|
      invariant forall i :: 0 <= i < end ==> slice[i] != 0
    {
      end := end + 1;
    }
    UpToNulIs(slice, end);
    return FromBytes(slice[..end]);
  }

  predicate IsHexOrNul(c: byte) {
    c == 0 || 0x30 <= c <= 0x39 || 0x61 <= c <= 0x66 || 0x41 <= c <= 0x46
  }

  predicate LooksLikeHex(b: Bytes, start: int, length: int) {
    0 <= start && 0 < length && start + length <= |b| && forall i :: start <= i < start + length ==> IsHexOrNul(b[i])
  }

  // ---------- UUIDs ----------

  /** A big-endian number. */
  function BigEndian(b: Bytes): nat {
    if b == [] then 0 else 256 * BigEndian(b[..|b| - 1]) + b[|b| - 1]
  }

  function PutBigEndian(v: nat, size: nat): (b: Bytes)
    ensures |b| == size
  {
    if size == 0 then [] else PutBigEndian(v / 256, size - 1) + [v % 256]
  }

  lemma {:induction false} BigEndianInverse(b: Bytes)
    ensures PutBigEndian(BigEndian(b), |b|) == b
  {
    if b != [] {
      BigEndianInverse(b[..|b| - 1]);
      assert b == b[..|b| - 1] + [b[|b| - 1]];
    }
  }

  function HexDigit(d: int): (c: char)
    requires 0 <= d < 16
    ensures c as int < 256
  {
    if d < 10 then (48 + d) as char else (87 + d) as char
  }

  /** Two lower-case hex digits a byte. */
  function HexByte(x: byte): (s: GoString)
    ensures |s| == 2
  {
    [HexDigit(x / 16), HexDigit(x % 16)]
  }

  function Hex(b: Bytes): (s: GoString)
    ensures |s| == 2 * |b|
  {
    if b == [] then "" else Hex(b[..|b| - 1]) + HexByte(b[|b| - 1])
  }

  function HexGroups(b: Bytes): (s: GoString)
    requires |b| == 16
  {
    Hex(b[0..4]) + "-" + Hex(b[4..6]) + "-" + Hex(b[6..8]) + "-" + Hex(b[8..10]) + "-" + Hex(b[10..16])
  }

  function FormatUUID(msb: nat, lsb: nat): GoString {
    HexGroups(PutBigEndian(msb, 8) + PutBigEndian(lsb, 8))
  }

  lemma {:induction false} HexAt(b: Bytes, i: nat)
    requires i < |b|
    ensures Hex(b)[2 * i..2 * i + 2] == HexByte(b[i])
  {
    var n := |b| - 1;
    var front, last := Hex(b[..n]), HexByte(b[n]);
    assert Hex(b) == front + last;
    if i < n {
      HexAt(b[..n], i);
      assert (front + last)[2 * i..2 * i + 2] == front[2 * i..2 * i + 2];
    }
  }

  lemma {:induction false} HexInjective(a: Bytes, b: Bytes)
    requires Hex(a) == Hex(b)
    ensures a == b
  {
    assert |a| == |b|;
    forall i | 0 <= i < |a|
      ensures a[i] == b[i]
    {
      HexAt(a, i);
      HexAt(b, i);
      DigitsOfByte(a[i], b[i]);
    }
  }

  lemma DigitsOfByte(x: byte, y: byte)
    requires HexByte(x) == HexByte(y)
    ensures x == y
  {
    assert HexByte(x)[0] == HexByte(y)[0] && HexByte(x)[1] == HexByte(y)[1];
    assert HexDigit(x / 16) as int == HexDigit(y / 16) as int && HexDigit(x % 16) as int == HexDigit(y % 16) as int;
  }

  /** The text form of a UUID determines its sixteen bytes. */
  lemma {:induction false} UUIDTextInjective(a: Bytes, b: Bytes)
    requires |a| == 16 && |b| == 16
    requires FormatUUID(BigEndian(a[..8]), BigEndian(a[8..])) == FormatUUID(BigEndian(b[..8]), BigEndian(b[8..]))
    ensures a == b
  {
    UUIDOfBytes(a);
    UUIDOfBytes(b);
    HexGroupsSlices(a);
    HexGroupsSlices(b);
    HexInjective(a[0..4], b[0..4]);
    HexInjective(a[4..6], b[4..6]);
    HexInjective(a[6..8], b[6..8]);
    HexInjective(a[8..10], b[8..10]);
    HexInjective(a[10..16], b[10..16]);
    FromGroups(a);
    FromGroups(b);
  }

  lemma HexGroupsSlices(b: Bytes)
    requires |b| == 16
    ensures |HexGroups(b)| == 36
    ensures HexGroups(b)[0..8] == Hex(b[0..4])
    ensures HexGroups(b)[9..13] == Hex(b[4..6])
    ensures HexGroups(b)[14..18] == Hex(b[6..8])
    ensures HexGroups(b)[19..23] == Hex(b[8..10])
    ensures HexGroups(b)[24..36] == Hex(b[10..16])
  {
    Slices(Hex(b[0..4]), Hex(b[4..6]), Hex(b[6..8]), Hex(b[8..10]), Hex(b[10..16]));
  }

  lemma Slices(p: string, q: string, r: string, s: string, t: string)
    requires |p| == 8 && |q| == |r| == |s| == 4 && |t| == 12
    ensures var all := p + "-" + q + "-" + r + "-" + s + "-" + t;
            |all| == 36 && all[0..8] == p && all[9..13] == q && all[14..18] == r && all[19..23] == s && all[24..36] == t
  {
  }

  lemma FromGroups(b: Bytes)
    requires |b| == 16
    ensures b == b[0..4] + b[4..6] + b[6..8] + b[8..10] + b[10..16]
  {
  }

  lemma UUIDOfBytes(b: Bytes)
    requires |b| == 16
    ensures FormatUUID(BigEndian(b[..8]), BigEndian(b[8..])) == HexGroups(b)
  {
    BigEndianInverse(b[..8]);
    BigEndianInverse(b[8..]);
    assert b[..8] + b[8..] == b;
  }

  // ---------- the two layouts ----------

  function Offset(p: Bytes, slot: nat): int
    requires slot + 4 <= |p|
  {
    AsInt32(GetU32(p, slot))
  }

  function UUIDAt(p: Bytes, pos: nat): GoString
    requires pos + 16 <= |p|
  {
    FormatUUID(BigEndian(p[pos..pos + 8]), BigEndian(p[pos + 8..pos + 16]))
  }

  /** A string at an offset into the variable block that starts at base, when present and readable. */
  function StringAt(p: Bytes, present: bool, base: int, offset: int, maxLen: int): Option<GoString> {
    if !present || offset < 0 then None
    else match ReadVarString(p, base + offset, maxLen)
      case None => None
      case Some((s, _)) => Some(s)
  }

  function OrEmpty(s: Option<GoString>): GoString {
    if s.Some? then s.value else ""
  }

  /** The length of the referral data, 0 unless it is present, at most 4096 and complete. */
  function DataLenAt(p: Bytes, present: bool, base: int, offset: int): nat {
    if !present || offset < 0 then 0
    else match VarInt.Read(p, base + offset)
      case None => 0
      case Some((l, size)) => if l <= 4096 && base + offset + size + l <= |p| then l else 0
  }

  function SourceAt(p: Bytes, present: bool, base: int, offset: int): Option<(GoString, int)> {
    if !present || offset < 0 then None
    else match ReadHostAddress(p, base + offset)
      case None => None
      case Some((address, _)) => Some(address)
  }

  function DecodeV1(p: Bytes): Option<ConnectInfo> {
    if |p| < 102 then None
    else
      var bits := p[0];
      Some(ConnectInfo(
        FixedASCII(p, 1, 64), 0, 0, "", p[65], UUIDAt(p, 66),
        OrEmpty(StringAt(p, HasBit(bits, 1), 102, Offset(p, 82), 128)),
        StringAt(p, HasBit(bits, 2), 102, Offset(p, 86), 8192).Some?,
        OrEmpty(StringAt(p, true, 102, Offset(p, 90), 16)),
        DataLenAt(p, HasBit(bits, 4), 102, Offset(p, 94)),
        SourceAt(p, HasBit(bits, 8), 102, Offset(p, 98))))
  }

  function DecodeV2(p: Bytes): Option<ConnectInfo> {
    if |p| < 66 then None
    else
      var bits, version := p[0], FixedASCII(p, 9, 20);
      var username := StringAt(p, true, 66, Offset(p, 46), 16);
      var language := StringAt(p, true, 66, Offset(p, 54), 16);
      if username.None? || language.None? then None
      else
        Some(ConnectInfo(
          version, AsInt32(GetU32(p, 1)), AsInt32(GetU32(p, 5)), version, p[29], UUIDAt(p, 30),
          language.value,
          StringAt(p, HasBit(bits, 1), 66, Offset(p, 50), 8192).Some?,
          username.value,
          DataLenAt(p, HasBit(bits, 2), 66, Offset(p, 58)),
          SourceAt(p, HasBit(bits, 4), 66, Offset(p, 62))))
  }

  predicate GuessesV1(p: Bytes) {
    |p| >= 102 && LooksLikeHex(p, 1, 64)
  }

  function DecodeConnect(p: Bytes): Option<ConnectInfo> {
    if GuessesV1(p) then DecodeV1(p)
    else if DecodeV2(p).Some? then DecodeV2(p)
    else DecodeV1(p)
  }
}
