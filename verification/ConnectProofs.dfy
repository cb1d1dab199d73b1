/** What a Connect packet of either layout looks like, the proof that decoding inverts both, and when one layout is taken
    for the other. */
module ConnectProofs {
  import opened Common
  import opened Bytes
  import opened Codec
  import opened Connect
  import VarInt

  // ---------- offset tables and variable blocks ----------

  type Parts = seq<Option<Bytes>>

  function PartBytes(part: Option<Bytes>): Bytes {
    if part.Some? then part.value else []
  }

  /** The present parts, one after the other. */
  function Block(parts: Parts): Bytes {
    if parts == [] then [] else Block(parts[..|parts| - 1]) + PartBytes(parts[|parts| - 1])
  }

  /** Where part k starts in the block. */
  function PartStart(parts: Parts, k: nat): int
    requires k <= |parts|
  {
    |Block(parts[..k])|
  }

  /** The offset written for part k; -1 for an absent part. */
  function PartOffset(parts: Parts, k: nat): int
    requires k < |parts|
  {
    if parts[k].Some? then PartStart(parts, k) else -1
  }

  /** The first n entries of the offset table. */
  function Table(parts: Parts, n: nat): (t: Bytes)
    requires n <= |parts|
    ensures |t| == 4 * n
  {
    if n == 0 then [] else Table(parts, n - 1) + PutU32(AsUint32(PartOffset(parts, n - 1)))
  }

  lemma {:induction false} BlockHolds(p: Bytes, base: int, parts: Parts, k: nat)
    requires k < |parts| && parts[k].Some? && Holds(p, base, Block(parts))
    ensures Holds(p, base + PartStart(parts, k), parts[k].value)
  {
    var n := |parts| - 1;
    HoldsParts(p, base, Block(parts[..n]), PartBytes(parts[n]));
    if k < n {
      BlockHolds(p, base, parts[..n], k);
      assert parts[..n][..k] == parts[..k];
    }
  }

  lemma {:induction false} TableHolds(p: Bytes, base: int, parts: Parts, n: nat, k: nat)
    requires k < n <= |parts| && Holds(p, base, Table(parts, n))
    ensures Holds(p, base + 4 * k, PutU32(AsUint32(PartOffset(parts, k))))
  {
    HoldsParts(p, base, Table(parts, n - 1), PutU32(AsUint32(PartOffset(parts, n - 1))));
    if k < n - 1 {
      TableHolds(p, base, parts, n - 1, k);
    }
  }

  const MAX_PART := 10000

  ghost predicate Small(parts: Parts) {
    |parts| <= 5 && forall k :: 0 <= k < |parts| ==> |PartBytes(parts[k])| <= MAX_PART
  }

  lemma {:induction false} StartBounded(parts: Parts, k: nat)
    requires Small(parts) && k <= |parts|
    ensures 0 <= PartStart(parts, k) <= k * MAX_PART
  {
    if k > 0 {
      StartBounded(parts, k - 1);
      assert parts[..k][..k - 1] == parts[..k - 1];
    }
  }

  lemma Int32Found(p: Bytes, pos: nat, v: int)
    requires -0x8000_0000 <= v < 0x8000_0000 && Holds(p, pos, PutU32(AsUint32(v)))
    ensures pos + 4 <= |p| && AsInt32(GetU32(p, pos)) == v
  {
    U32RoundTrip(p, pos, AsUint32(v));
  }

  /** Following entry k of the table leads to part k. */
  lemma {:induction false} PartFound(p: Bytes, table: nat, base: nat, parts: Parts, k: nat) returns (offset: int)
    requires Small(parts) && k < |parts| && Holds(p, table, Table(parts, |parts|)) && Holds(p, base, Block(parts))
    ensures table + 4 * k + 4 <= |p| && Offset(p, table + 4 * k) == offset
    ensures if parts[k].Some? then 0 <= offset && Holds(p, base + offset, parts[k].value) else offset < 0
  {
    offset := PartOffset(parts, k);
    TableHolds(p, table, parts, |parts|, k);
    StartBounded(parts, k);
    Int32Found(p, table + 4 * k, offset);
    if parts[k].Some? {
      BlockHolds(p, base, parts, k);
    }
  }

  // ---------- single parts ----------

  function StringPart(s: Option<GoString>): Option<Bytes> {
    if s.Some? then Some(VarString(s.value)) else None
  }

  function DataPart(d: Option<Bytes>): Option<Bytes> {
    if d.Some? then Some(VarInt.Encode(|d.value|) + d.value) else None
  }

  function SourcePart(a: Option<(GoString, int)>): Option<Bytes>
    requires a.Some? ==> 0 <= a.value.1 < 0x1_0000
  {
    if a.Some? then Some(HostAddress(a.value.0, a.value.1)) else None
  }

  lemma VarIntSmall(v: nat)
    requires v < VarInt.TWO32
    ensures |VarInt.Encode(v)| <= 5
  {
    VarInt.ReadEncoded(VarInt.Encode(v), 0, v);
  }

  /** Entry k of the table at `table` leads to the part, wherever in the block at `base` it stands; an absent part has its
      null bit clear or a negative offset. */
  ghost predicate FieldAt(p: Bytes, table: nat, base: nat, k: nat, part: Option<Bytes>, bit: bool) {
    && table + 4 * k + 4 <= |p|
    && var offset := Offset(p, table + 4 * k);
       if part.Some? then bit && 0 <= offset && Holds(p, base + offset, part.value) else !bit || offset < 0
  }

  lemma StringField(p: Bytes, table: nat, base: nat, k: nat, s: Option<GoString>, bit: bool, maxLen: int)
    requires FieldAt(p, table, base, k, StringPart(s), bit) && (s.Some? ==> |s.value| <= maxLen < VarInt.TWO32)
    ensures StringAt(p, bit, base, Offset(p, table + 4 * k), maxLen) == s
  {
    if s.Some? {
      VarStringRoundTrip(p, base + Offset(p, table + 4 * k), s.value, maxLen);
    }
  }

  lemma DataField(p: Bytes, table: nat, base: nat, k: nat, d: Option<Bytes>, bit: bool)
    requires FieldAt(p, table, base, k, DataPart(d), bit) && (d.Some? ==> |d.value| <= 4096)
    ensures DataLenAt(p, bit, base, Offset(p, table + 4 * k)) == DataLen(d)
  {
    if d.Some? {
      var pos := base + Offset(p, table + 4 * k);
      HoldsParts(p, pos, VarInt.Encode(|d.value|), d.value);
      VarInt.ReadEncoded(p, pos, |d.value|);
    }
  }

  lemma SourceField(p: Bytes, table: nat, base: nat, k: nat, a: Option<(GoString, int)>, bit: bool)
    requires a.Some? ==> 0 <= a.value.1 < 0x1_0000 && |a.value.0| <= 256
    requires FieldAt(p, table, base, k, SourcePart(a), bit)
    ensures SourceAt(p, bit, base, Offset(p, table + 4 * k)) == a
  {
    if a.Some? {
      HostAddressRoundTrip(p, base + Offset(p, table + 4 * k), a.value.0, a.value.1);
    }
  }

  /** Packing the parts one after the other is one way to place them. */
  lemma PackedField(p: Bytes, table: nat, base: nat, parts: Parts, k: nat, bit: bool)
    requires Small(parts) && k < |parts| && Holds(p, table, Table(parts, |parts|)) && Holds(p, base, Block(parts))
    requires parts[k].Some? ==> bit
    ensures FieldAt(p, table, base, k, parts[k], bit)
  {
    var offset := PartFound(p, table, base, parts, k);
    OffsetLeads(p, table, base, k, parts[k], bit, offset);
  }

  lemma OffsetLeads(p: Bytes, table: nat, base: nat, k: nat, part: Option<Bytes>, bit: bool, offset: int)
    requires table + 4 * k + 4 <= |p| && Offset(p, table + 4 * k) == offset
    requires if part.Some? then bit && 0 <= offset && Holds(p, base + offset, part.value) else offset < 0
    ensures FieldAt(p, table, base, k, part, bit)
  {
  }

  ghost predicate FiveAt(p: Bytes, table: nat, base: nat, parts: Parts, b0: bool, b1: bool, b2: bool, b3: bool, b4: bool) {
    && |parts| == 5
    && FieldAt(p, table, base, 0, parts[0], b0) && FieldAt(p, table, base, 1, parts[1], b1) && FieldAt(p, table, base, 2, parts[2], b2)
    && FieldAt(p, table, base, 3, parts[3], b3) && FieldAt(p, table, base, 4, parts[4], b4)
  }

  lemma FivePacked(p: Bytes, table: nat, base: nat, parts: Parts, b0: bool, b1: bool, b2: bool, b3: bool, b4: bool)
    requires Small(parts) && |parts| == 5 && Holds(p, table, Table(parts, 5)) && Holds(p, base, Block(parts))
    requires (parts[0].Some? ==> b0) && (parts[1].Some? ==> b1) && (parts[2].Some? ==> b2)
    requires (parts[3].Some? ==> b3) && (parts[4].Some? ==> b4)
    ensures FiveAt(p, table, base, parts, b0, b1, b2, b3, b4)
  {
    PackedField(p, table, base, parts, 0, b0);
    PackedField(p, table, base, parts, 1, b1);
    PackedField(p, table, base, parts, 2, b2);
    PackedField(p, table, base, parts, 3, b3);
    PackedField(p, table, base, parts, 4, b4);
  }

  function DataLen(d: Option<Bytes>): nat {
    if d.Some? then |d.value| else 0
  }

  // ---------- fixed fields ----------

  function Zeros(n: nat): (b: Bytes)
    ensures |b| == n
  {
    seq(n, _ => 0)
  }

  function Padded(s: GoString, size: nat): (b: Bytes)
    requires |s| <= size
    ensures |b| == size
  {
    ToBytes(s) + Zeros(size - |s|)
  }

  ghost predicate NulFree(s: GoString) {
    forall i :: 0 <= i < |s| ==> s[i] as int != 0
  }

  lemma {:induction false} UpToNulPadded(b: Bytes, n: nat)
    requires forall i :: 0 <= i < |b| ==> b[i] != 0
    ensures UpToNul(b + Zeros(n)) == b
  {
    if b != [] {
      UpToNulPadded(b[1..], n);
      assert (b + Zeros(n))[1..] == b[1..] + Zeros(n);
    }
  }

  lemma PaddedFound(p: Bytes, pos: nat, s: GoString, size: nat)
    requires |s| <= size && NulFree(s) && Holds(p, pos, Padded(s, size))
    ensures FixedASCII(p, pos, size) == s
  {
    UpToNulPadded(ToBytes(s), size - |s|);
    TextRoundTrip(s, []);
  }

  lemma UUIDFound(p: Bytes, pos: nat, uuid: Bytes)
    requires |uuid| == 16 && Holds(p, pos, uuid)
    ensures pos + 16 <= |p| && UUIDAt(p, pos) == HexGroups(uuid)
  {
    UUIDOfBytes(uuid);
    assert p[pos..pos + 8] == p[pos..pos + 16][..8] && p[pos + 8..pos + 16] == p[pos..pos + 16][8..];
  }

  function Flag(present: bool, weight: int): int {
    if present then weight else 0
  }

  lemma FlagsRead(a: bool, b: bool, c: bool, d: bool)
    ensures var bits := Flag(a, 1) + Flag(b, 2) + Flag(c, 4) + Flag(d, 8);
            && 0 <= bits < 16 && HasBit(bits, 1) == a && HasBit(bits, 2) == b && HasBit(bits, 4) == c && HasBit(bits, 8) == d
  {
  }

  // ---------- layout 1 ----------

  datatype SentV1 = SentV1(hash: GoString, clientType: byte, uuid: Bytes, language: Option<GoString>, identity: Option<GoString>,
                           username: Option<GoString>, data: Option<Bytes>, source: Option<(GoString, int)>)
  {
    ghost predicate Valid() {
      && |hash| <= 64 && NulFree(hash) && |uuid| == 16
      && (language.Some? ==> |language.value| <= 128) && (identity.Some? ==> |identity.value| <= 8192)
      && (username.Some? ==> |username.value| <= 16) && (data.Some? ==> |data.value| <= 4096)
      && (source.Some? ==> |source.value.0| <= 256 && 0 <= source.value.1 < 0x1_0000)
    }

    ghost function Parts(): Parts
      requires Valid()
    {
      [StringPart(language), StringPart(identity), StringPart(username), DataPart(data), SourcePart(source)]
    }

    ghost function Bits(): byte {
      Flag(language.Some?, 1) + Flag(identity.Some?, 2) + Flag(data.Some?, 4) + Flag(source.Some?, 8)
    }

    ghost function Encode(): Bytes
      requires Valid()
    {
      [Bits()] + (Padded(hash, 64) + ([clientType] + (uuid + (Table(Parts(), 5) + Block(Parts())))))
    }

    ghost function Info(): ConnectInfo
      requires Valid()
    {
      ConnectInfo(hash, 0, 0, "", clientType, HexGroups(uuid), OrEmpty(language), identity.Some?, OrEmpty(username),
                  DataLen(data), source)
    }
  }

  /** Where the fields of layout 1 stand. */
  lemma LayoutV1(c: SentV1, trailing: Bytes)
    requires c.Valid()
    ensures var p := c.Encode() + trailing;
            && |p| >= 102 && p[0] == c.Bits() && Holds(p, 1, Padded(c.hash, 64)) && p[65] == c.clientType && Holds(p, 66, c.uuid)
            && Holds(p, 82, Table(c.Parts(), 5)) && Holds(p, 102, Block(c.Parts()))
  {
    var p := c.Encode() + trailing;
    assert Holds(p, 0, c.Encode());
    SixParts(p, c.Bits(), Padded(c.hash, 64), c.clientType, c.uuid, Table(c.Parts(), 5), Block(c.Parts()));
  }

  lemma SixParts(p: Bytes, bits: byte, hash: Bytes, kind: byte, uuid: Bytes, table: Bytes, block: Bytes)
    requires |hash| == 64 && |uuid| == 16 && |table| == 20
    requires var a: Bytes, k: Bytes := [bits], [kind]; Holds(p, 0, a + (hash + (k + (uuid + (table + block)))))
    ensures |p| >= 102 && p[0] == bits && Holds(p, 1, hash) && p[65] == kind && Holds(p, 66, uuid) && Holds(p, 82, table)
    ensures Holds(p, 102, block)
  {
    var a: Bytes, k: Bytes := [bits], [kind];
    HoldsParts(p, 0, a, hash + (k + (uuid + (table + block))));
    HoldsParts(p, 1, hash, k + (uuid + (table + block)));
    HoldsParts(p, 65, k, uuid + (table + block));
    HoldsParts(p, 66, uuid, table + block);
    HoldsParts(p, 82, table, block);
    assert p[0] == p[0..1][0] && p[65] == p[65..66][0];
  }

  lemma PartSizes(s: Option<GoString>, d: Option<Bytes>, a: Option<(GoString, int)>)
    requires s.Some? ==> |s.value| <= 8192
    requires d.Some? ==> |d.value| <= 4096
    requires a.Some? ==> |a.value.0| <= 256 && 0 <= a.value.1 < 0x1_0000
    ensures |PartBytes(StringPart(s))| <= MAX_PART && |PartBytes(DataPart(d))| <= MAX_PART && |PartBytes(SourcePart(a))| <= MAX_PART
  {
    if s.Some? {
      VarIntSmall(|s.value|);
    }
    if d.Some? {
      VarIntSmall(|d.value|);
    }
    if a.Some? {
      VarIntSmall(|a.value.0|);
    }
  }

  lemma SmallV1(c: SentV1)
    requires c.Valid()
    ensures Small(c.Parts())
  {
    PartSizes(c.language, c.data, c.source);
    PartSizes(c.identity, c.data, c.source);
    PartSizes(c.username, c.data, c.source);
  }

  lemma PartsV1(c: SentV1)
    requires c.Valid()
    ensures var q := c.Parts();
            && |q| == 5 && q[0] == StringPart(c.language) && q[1] == StringPart(c.identity) && q[2] == StringPart(c.username)
            && q[3] == DataPart(c.data) && q[4] == SourcePart(c.source)
  {
  }

  /** p is a layout-1 packet that carries c, its variable parts placed anywhere. */
  ghost predicate CarriesV1(p: Bytes, c: SentV1) {
    && c.Valid() && |p| >= 102 && Holds(p, 1, Padded(c.hash, 64)) && p[65] == c.clientType && Holds(p, 66, c.uuid)
    && FiveAt(p, 82, 102, c.Parts(), HasBit(p[0], 1), HasBit(p[0], 2), true, HasBit(p[0], 4), HasBit(p[0], 8))
  }

  lemma StringsV1(p: Bytes, c: SentV1)
    requires CarriesV1(p, c)
    ensures StringAt(p, HasBit(p[0], 1), 102, Offset(p, 82), 128) == c.language
    ensures StringAt(p, HasBit(p[0], 2), 102, Offset(p, 86), 8192) == c.identity
    ensures StringAt(p, true, 102, Offset(p, 90), 16) == c.username
  {
    PartsV1(c);
    StringField(p, 82, 102, 0, c.language, HasBit(p[0], 1), 128);
    StringField(p, 82, 102, 1, c.identity, HasBit(p[0], 2), 8192);
    StringField(p, 82, 102, 2, c.username, true, 16);
  }

  lemma ReferralV1(p: Bytes, c: SentV1)
    requires CarriesV1(p, c)
    ensures DataLenAt(p, HasBit(p[0], 4), 102, Offset(p, 94)) == DataLen(c.data)
    ensures SourceAt(p, HasBit(p[0], 8), 102, Offset(p, 98)) == c.source
  {
    PartsV1(c);
    DataField(p, 82, 102, 3, c.data, HasBit(p[0], 4));
    SourceField(p, 82, 102, 4, c.source, HasBit(p[0], 8));
  }

  /** Decoding a layout-1 packet gives back what it carries. */
  lemma {:induction false} DecodeV1Inverts(p: Bytes, c: SentV1)
    requires CarriesV1(p, c)
    ensures DecodeV1(p) == Some(c.Info())
  {
    PaddedFound(p, 1, c.hash, 64);
    UUIDFound(p, 66, c.uuid);
    StringsV1(p, c);
    ReferralV1(p, c);
  }

  lemma PackedFieldsV1(p: Bytes, c: SentV1)
    requires c.Valid() && |p| > 0 && p[0] == c.Bits() && Holds(p, 82, Table(c.Parts(), 5)) && Holds(p, 102, Block(c.Parts()))
    ensures FiveAt(p, 82, 102, c.Parts(), HasBit(p[0], 1), HasBit(p[0], 2), true, HasBit(p[0], 4), HasBit(p[0], 8))
  {
    SmallV1(c);
    PartsV1(c);
    FlagsRead(c.language.Some?, c.identity.Some?, c.data.Some?, c.source.Some?);
    FivePacked(p, 82, 102, c.Parts(), c.language.Some?, c.identity.Some?, true, c.data.Some?, c.source.Some?);
  }

  /** The packet with its parts packed in table order carries them. */
  lemma {:induction false} PackedCarriesV1(c: SentV1, trailing: Bytes)
    requires c.Valid()
    ensures CarriesV1(c.Encode() + trailing, c)
  {
    LayoutV1(c, trailing);
    PackedFieldsV1(c.Encode() + trailing, c);
  }

  ghost predicate HexText(s: GoString) {
    forall i :: 0 <= i < |s| ==> IsHexOrNul(s[i] as int)
  }

  /** A layout-1 packet whose protocol hash is hexadecimal is always recognised and decoded as such. */
  lemma {:induction false} HexHashTakesV1(p: Bytes, c: SentV1)
    requires CarriesV1(p, c) && HexText(c.hash)
    ensures GuessesV1(p) && DecodeConnect(p) == Some(c.Info())
  {
    DecodeV1Inverts(p, c);
    forall i | 1 <= i < 65
      ensures IsHexOrNul(p[i])
    {
      assert p[i] == p[1..65][i - 1] == Padded(c.hash, 64)[i - 1];
    }
  }

  /** What the two decoders make of one packet differs once either text field is not empty: layout 1 has no version of its
      own, and layout 2 reports its version as the hash. */
  lemma LayoutsDisagree(p: Bytes)
    requires DecodeV1(p).Some? && DecodeV2(p).Some?
    requires DecodeV1(p).value.protocolHash != "" || DecodeV2(p).value.clientVersion != ""
    ensures DecodeV1(p) != DecodeV2(p)
  {
  }

  /** A layout-1 packet is decoded as what it carries exactly when it is recognised, or layout 2 cannot make sense of it,
      or makes the same sense of it; the last is out of the question unless the hash is empty. */
  lemma {:induction false} V1DecodedIff(p: Bytes, c: SentV1)
    requires CarriesV1(p, c)
    ensures DecodeConnect(p) == Some(c.Info()) <==> GuessesV1(p) || DecodeV2(p).None? || DecodeV2(p) == DecodeV1(p)
    ensures c.hash != "" ==> DecodeV2(p) != DecodeV1(p)
  {
    DecodeV1Inverts(p, c);
    if c.hash != "" && DecodeV2(p).Some? {
      LayoutsDisagree(p);
    }
  }

  // ---------- layout 2 ----------

  datatype SentV2 = SentV2(crc: int, build: int, version: GoString, clientType: byte, uuid: Bytes, username: GoString,
                           identity: Option<GoString>, language: GoString, data: Option<Bytes>, source: Option<(GoString, int)>)
  {
    ghost predicate Valid() {
      && -0x8000_0000 <= crc < 0x8000_0000 && -0x8000_0000 <= build < 0x8000_0000
      && |version| <= 20 && NulFree(version) && |uuid| == 16 && |username| <= 16 && |language| <= 16
      && (identity.Some? ==> |identity.value| <= 8192) && (data.Some? ==> |data.value| <= 4096)
      && (source.Some? ==> |source.value.0| <= 256 && 0 <= source.value.1 < 0x1_0000)
    }

    ghost function Parts(): Parts
      requires Valid()
    {
      [StringPart(Some(username)), StringPart(identity), StringPart(Some(language)), DataPart(data), SourcePart(source)]
    }

    ghost function Bits(): byte {
      Flag(identity.Some?, 1) + Flag(data.Some?, 2) + Flag(source.Some?, 4) + Flag(false, 8)
    }

    ghost function Encode(): Bytes
      requires Valid()
    {
      [Bits()] + (PutU32(AsUint32(crc)) + (PutU32(AsUint32(build)) + (Padded(version, 20)
      + ([clientType] + (uuid + (Table(Parts(), 5) + Block(Parts())))))))
    }

    ghost function Info(): ConnectInfo
      requires Valid()
    {
      ConnectInfo(version, crc, build, version, clientType, HexGroups(uuid), language, identity.Some?, username,
                  DataLen(data), source)
    }
  }

  lemma LayoutV2(c: SentV2, trailing: Bytes)
    requires c.Valid()
    ensures var p := c.Encode() + trailing;
            && |p| >= 66 && p[0] == c.Bits() && Holds(p, 1, PutU32(AsUint32(c.crc))) && Holds(p, 5, PutU32(AsUint32(c.build)))
            && Holds(p, 9, Padded(c.version, 20)) && p[29] == c.clientType && Holds(p, 30, c.uuid)
            && Holds(p, 46, Table(c.Parts(), 5)) && Holds(p, 66, Block(c.Parts()))
  {
    var p := c.Encode() + trailing;
    assert Holds(p, 0, c.Encode());
    EightParts(p, c.Bits(), PutU32(AsUint32(c.crc)), PutU32(AsUint32(c.build)), Padded(c.version, 20), c.clientType, c.uuid,
               Table(c.Parts(), 5), Block(c.Parts()));
  }

  lemma EightParts(p: Bytes, bits: byte, crc: Bytes, build: Bytes, version: Bytes, kind: byte, uuid: Bytes, table: Bytes, block: Bytes)
    requires |crc| == 4 && |build| == 4 && |version| == 20 && |uuid| == 16 && |table| == 20
    requires var a: Bytes, k: Bytes := [bits], [kind];
             Holds(p, 0, a + (crc + (build + (version + (k + (uuid + (table + block)))))))
    ensures |p| >= 66 && p[0] == bits && Holds(p, 1, crc) && Holds(p, 5, build) && Holds(p, 9, version) && p[29] == kind
    ensures Holds(p, 30, uuid) && Holds(p, 46, table) && Holds(p, 66, block)
  {
    var a: Bytes, k: Bytes := [bits], [kind];
    HoldsParts(p, 0, a, crc + (build + (version + (k + (uuid + (table + block))))));
    HoldsParts(p, 1, crc, build + (version + (k + (uuid + (table + block)))));
    HoldsParts(p, 5, build, version + (k + (uuid + (table + block))));
    HoldsParts(p, 9, version, k + (uuid + (table + block)));
    HoldsParts(p, 29, k, uuid + (table + block));
    HoldsParts(p, 30, uuid, table + block);
    HoldsParts(p, 46, table, block);
    assert p[0] == p[0..1][0] && p[29] == p[29..30][0];
  }

  lemma SmallV2(c: SentV2)
    requires c.Valid()
    ensures Small(c.Parts())
  {
    PartSizes(Some(c.username), c.data, c.source);
    PartSizes(c.identity, c.data, c.source);
    PartSizes(Some(c.language), c.data, c.source);
  }

  lemma PartsV2(c: SentV2)
    requires c.Valid()
    ensures var q := c.Parts();
            && |q| == 5 && q[0] == StringPart(Some(c.username)) && q[1] == StringPart(c.identity)
            && q[2] == StringPart(Some(c.language)) && q[3] == DataPart(c.data) && q[4] == SourcePart(c.source)
  {
  }

  /** p is a layout-2 packet that carries c, its variable parts placed anywhere. */
  ghost predicate CarriesV2(p: Bytes, c: SentV2) {
    && c.Valid() && |p| >= 66 && Holds(p, 1, PutU32(AsUint32(c.crc))) && Holds(p, 5, PutU32(AsUint32(c.build)))
    && Holds(p, 9, Padded(c.version, 20)) && p[29] == c.clientType && Holds(p, 30, c.uuid)
    && FiveAt(p, 46, 66, c.Parts(), true, HasBit(p[0], 1), true, HasBit(p[0], 2), HasBit(p[0], 4))
  }

  lemma StringsV2(p: Bytes, c: SentV2)
    requires CarriesV2(p, c)
    ensures StringAt(p, true, 66, Offset(p, 46), 16) == Some(c.username)
    ensures StringAt(p, HasBit(p[0], 1), 66, Offset(p, 50), 8192) == c.identity
    ensures StringAt(p, true, 66, Offset(p, 54), 16) == Some(c.language)
  {
    PartsV2(c);
    StringField(p, 46, 66, 0, Some(c.username), true, 16);
    StringField(p, 46, 66, 1, c.identity, HasBit(p[0], 1), 8192);
    StringField(p, 46, 66, 2, Some(c.language), true, 16);
  }

  lemma ReferralV2(p: Bytes, c: SentV2)
    requires CarriesV2(p, c)
    ensures DataLenAt(p, HasBit(p[0], 2), 66, Offset(p, 58)) == DataLen(c.data)
    ensures SourceAt(p, HasBit(p[0], 4), 66, Offset(p, 62)) == c.source
  {
    PartsV2(c);
    DataField(p, 46, 66, 3, c.data, HasBit(p[0], 2));
    SourceField(p, 46, 66, 4, c.source, HasBit(p[0], 4));
  }

  /** Decoding a layout-2 packet gives back what it carries. */
  lemma {:induction false} DecodeV2Inverts(p: Bytes, c: SentV2)
    requires CarriesV2(p, c)
    ensures DecodeV2(p) == Some(c.Info())
  {
    Int32Found(p, 1, c.crc);
    Int32Found(p, 5, c.build);
    PaddedFound(p, 9, c.version, 20);
    UUIDFound(p, 30, c.uuid);
    StringsV2(p, c);
    ReferralV2(p, c);
  }

  lemma PackedFieldsV2(p: Bytes, c: SentV2)
    requires c.Valid() && |p| > 0 && p[0] == c.Bits() && Holds(p, 46, Table(c.Parts(), 5)) && Holds(p, 66, Block(c.Parts()))
    ensures FiveAt(p, 46, 66, c.Parts(), true, HasBit(p[0], 1), true, HasBit(p[0], 2), HasBit(p[0], 4))
  {
    SmallV2(c);
    PartsV2(c);
    FlagsRead(c.identity.Some?, c.data.Some?, c.source.Some?, false);
    FivePacked(p, 46, 66, c.Parts(), true, c.identity.Some?, true, c.data.Some?, c.source.Some?);
  }

  lemma {:induction false} PackedCarriesV2(c: SentV2, trailing: Bytes)
    requires c.Valid()
    ensures CarriesV2(c.Encode() + trailing, c)
  {
    LayoutV2(c, trailing);
    PackedFieldsV2(c.Encode() + trailing, c);
  }

  /** A layout-2 packet is decoded as what it carries exactly when it is not taken for layout 1, or layout 1 makes the same
      sense of it; the latter is out of the question unless the version is empty. */
  lemma {:induction false} V2DecodedIff(p: Bytes, c: SentV2)
    requires CarriesV2(p, c)
    ensures DecodeConnect(p) == Some(c.Info()) <==> !GuessesV1(p) || DecodeV1(p) == DecodeV2(p)
    ensures GuessesV1(p) && c.version != "" ==> DecodeV1(p) != DecodeV2(p)
  {
    DecodeV2Inverts(p, c);
    if GuessesV1(p) && c.version != "" {
      LayoutsDisagree(p);
    }
  }

  /** Whatever layout 2 can decode is decoded as layout 2 if any byte of the hash field of layout 1, which holds the version
      of layout 2, is neither hexadecimal nor NUL. */
  lemma NonHexTakesV2(p: Bytes, i: nat)
    requires DecodeV2(p).Some? && 1 <= i < 65 && !IsHexOrNul(p[i])
    ensures DecodeConnect(p) == DecodeV2(p)
  {
    assert !LooksLikeHex(p, 1, 64);
  }

  lemma SecondStart(parts: Parts, s: GoString)
    requires |parts| > 1 && parts[0] == Some(VarString(s)) && |s| <= 16
    ensures PartStart(parts, 1) == 1 + |s|
  {
    assert VarInt.Encode(|s|) == [|s|];
    assert parts[..1][..0] == [] && Block(parts[..1]) == Block([]) + VarString(s);
  }

  lemma LowByte(v: int)
    requires v == -1 || 1 <= v <= 17
    ensures !IsHexOrNul(PutU32(AsUint32(v))[0])
  {
  }

  /** The low byte of the offset that a packing sender writes for the identity token. */
  lemma IdentityOffsetByte(p: Bytes, parts: Parts, s: GoString)
    requires |parts| == 5 && parts[0] == Some(VarString(s)) && |s| <= 16 && Holds(p, 46, Table(parts, 5))
    ensures 50 < |p| && !IsHexOrNul(p[50])
  {
    TableHolds(p, 46, parts, 5, 1);
    SecondStart(parts, s);
    LowByte(PartOffset(parts, 1));
    assert p[50] == p[50..54][0];
  }

  /** A sender that packs its parts in table order is never mistaken. */
  lemma {:induction false} PackedV2Decodes(c: SentV2, trailing: Bytes)
    requires c.Valid()
    ensures DecodeConnect(c.Encode() + trailing) == Some(c.Info())
  {
    var p := c.Encode() + trailing;
    LayoutV2(c, trailing);
    PackedCarriesV2(c, trailing);
    DecodeV2Inverts(p, c);
    PartsV2(c);
    IdentityOffsetByte(p, c.Parts(), c.username);
    NonHexTakesV2(p, 50);
  }

  // ---------- bounds ----------

  lemma {:induction false} UpToNulLength(b: Bytes)
    ensures |UpToNul(b)| <= |b|
  {
    if b != [] && b[0] != 0 {
      UpToNulLength(b[1..]);
    }
  }

  lemma TextLength(p: Bytes, start: int, length: int)
    requires length >= 0
    ensures |FixedASCII(p, start, length)| <= length
  {
    if start >= 0 && start + length <= |p| {
      UpToNulLength(p[start..start + length]);
    }
  }

  lemma StringLength(p: Bytes, bit: bool, base: int, offset: int, maxLen: int)
    requires maxLen >= 0
    ensures |OrEmpty(StringAt(p, bit, base, offset, maxLen))| <= maxLen
  {
  }

  lemma BoundsV1(p: Bytes)
    requires DecodeV1(p).Some?
    ensures var i := DecodeV1(p).value; |i.protocolHash| <= 64 && |i.language| <= 128 && |i.username| <= 16
  {
    TextLength(p, 1, 64);
    StringLength(p, HasBit(p[0], 1), 102, Offset(p, 82), 128);
    StringLength(p, true, 102, Offset(p, 90), 16);
  }

  lemma BoundsV2(p: Bytes)
    requires DecodeV2(p).Some?
    ensures var i := DecodeV2(p).value; |i.protocolHash| <= 20 && |i.language| <= 16 && |i.username| <= 16
  {
    TextLength(p, 9, 20);
    StringLength(p, true, 66, Offset(p, 46), 16);
    StringLength(p, true, 66, Offset(p, 54), 16);
  }

  lemma ReferralBounds(p: Bytes, bit: bool, base: int, offset: int)
    ensures DataLenAt(p, bit, base, offset) <= 4096
    ensures SourceAt(p, bit, base, offset).Some? ==>
              |SourceAt(p, bit, base, offset).value.0| <= 256 && 0 <= SourceAt(p, bit, base, offset).value.1 < 0x1_0000
  {
  }

  /** Whatever a client sends, the decoded fields keep within their limits. */
  lemma {:induction false} DecodedBounds(p: Bytes)
    requires DecodeConnect(p).Some?
    ensures var i := DecodeConnect(p).value;
            && |i.protocolHash| <= 64 && |i.language| <= 128 && |i.username| <= 16 && i.referralDataLen <= 4096
            && (i.referralSource.Some? ==> |i.referralSource.value.0| <= 256 && 0 <= i.referralSource.value.1 < 0x1_0000)
  {
    if !GuessesV1(p) && DecodeV2(p).Some? {
      BoundsV2(p);
      ReferralBounds(p, HasBit(p[0], 2), 66, Offset(p, 58));
      ReferralBounds(p, HasBit(p[0], 4), 66, Offset(p, 62));
    } else {
      BoundsV1(p);
      ReferralBounds(p, HasBit(p[0], 4), 102, Offset(p, 94));
      ReferralBounds(p, HasBit(p[0], 8), 102, Offset(p, 98));
    }
  }

  // ---------- packets taken for the other layout ----------

  /** Version "a", an empty username and language, and an identity token of 47 NULs that stands in front of them. */
  const MISTAKEN_V2: SentV2 := SentV2(0, 0, "a", 0, Zeros(16), "", Some(FromBytes(Zeros(47))), "", None, None)

  const MISTAKEN_V2_PACKET: Bytes := Zeros(116)[0 := 1][9 := 0x61][46 := 48][54 := 49][66 := 47]

  lemma EmptyString()
    ensures VarString("") == [0]
  {
  }

  lemma MistakenV2Fields(p: Bytes)
    requires p == MISTAKEN_V2_PACKET
    ensures FiveAt(p, 46, 66, MISTAKEN_V2.Parts(), true, HasBit(p[0], 1), true, HasBit(p[0], 2), HasBit(p[0], 4))
  {
    var none: Bytes, token: Bytes := [0], [47];
    EmptyString();
    assert p[114..115] == none && p[115..116] == none;
    TextRoundTrip("", Zeros(47));
    assert VarInt.Encode(47) == token;
    assert p[66..114] == token + Zeros(47);
    OffsetLeads(p, 46, 66, 0, StringPart(Some("")), true, 48);
    OffsetLeads(p, 46, 66, 1, StringPart(MISTAKEN_V2.identity), true, 0);
    OffsetLeads(p, 46, 66, 2, StringPart(Some("")), true, 49);
    PartsV2(MISTAKEN_V2);
  }

  lemma MistakenV2Fixed(p: Bytes)
    requires p == MISTAKEN_V2_PACKET
    ensures Holds(p, 1, PutU32(0)) && Holds(p, 5, PutU32(0)) && Holds(p, 9, Padded("a", 20)) && Holds(p, 30, Zeros(16))
  {
    assert p[1..5] == PutU32(0) && p[5..9] == PutU32(0) && p[30..46] == Zeros(16);
    assert ToBytes("a") == [0x61];
    assert p[9..29] == Padded("a", 20);
  }

  lemma MistakenV2Guessed(p: Bytes)
    requires p == MISTAKEN_V2_PACKET
    ensures GuessesV1(p)
  {
  }

  /** This layout-2 packet is taken for layout 1. */
  lemma {:induction false} MistakenV2Example()
    ensures CarriesV2(MISTAKEN_V2_PACKET, MISTAKEN_V2)
    ensures GuessesV1(MISTAKEN_V2_PACKET) && DecodeConnect(MISTAKEN_V2_PACKET) != Some(MISTAKEN_V2.Info())
  {
    MistakenV2Fields(MISTAKEN_V2_PACKET);
    MistakenV2Fixed(MISTAKEN_V2_PACKET);
    MistakenV2Guessed(MISTAKEN_V2_PACKET);
    V2DecodedIff(MISTAKEN_V2_PACKET, MISTAKEN_V2);
  }

  lemma ZeroText(p: Bytes, start: nat, length: nat)
    requires p == Zeros(102) && start + length <= 102 && length > 0
    ensures FixedASCII(p, start, length) == ""
  {
    assert p[start..start + length][0] == 0;
  }

  lemma ZeroV1(p: Bytes)
    requires p == Zeros(102)
    ensures DecodeV1(p) == Some(ConnectInfo("", 0, 0, "", 0, UUIDAt(p, 30), "", false, "", 0, None))
  {
    ZeroText(p, 1, 64);
    assert p[66..74] == p[30..38] && p[74..82] == p[38..46];
    assert Offset(p, 90) == 0;
  }

  lemma ZeroString(p: Bytes)
    requires p == Zeros(102)
    ensures StringAt(p, true, 66, 0, 16) == Some("")
  {
    assert p[66..][0] == 0;
  }

  lemma ZeroV2(p: Bytes)
    requires p == Zeros(102)
    ensures DecodeV2(p) == Some(ConnectInfo("", 0, 0, "", 0, UUIDAt(p, 30), "", false, "", 0, None))
  {
    ZeroText(p, 9, 20);
    assert Offset(p, 46) == 0 && Offset(p, 54) == 0;
    ZeroString(p);
  }

  lemma ZeroGuessed(p: Bytes)
    requires p == Zeros(102)
    ensures GuessesV1(p)
  {
  }

  /** On 102 zero bytes the two layouts agree, so being taken for layout 1 does no harm there. */
  lemma {:induction false} AgreeingExample(p: Bytes)
    requires p == Zeros(102)
    ensures GuessesV1(p) && DecodeV2(p).Some? && DecodeV1(p) == DecodeV2(p)
  {
    ZeroV1(p);
    ZeroV2(p);
    ZeroGuessed(p);
  }

  /** A layout-1 packet with the hash "g" and an empty username. */
  const MISTAKEN_V1: SentV1 := SentV1("g", 0, Zeros(16), None, None, Some(""), None, None)

  const MISTAKEN_V1_PACKET: Bytes := Zeros(103)[1 := 0x67]

  lemma MistakenV1Fields(p: Bytes)
    requires p == MISTAKEN_V1_PACKET
    ensures FiveAt(p, 82, 102, MISTAKEN_V1.Parts(), HasBit(p[0], 1), HasBit(p[0], 2), true, HasBit(p[0], 4), HasBit(p[0], 8))
  {
    var none: Bytes := [0];
    EmptyString();
    assert p[102..103] == none;
    OffsetLeads(p, 82, 102, 2, StringPart(Some("")), true, 0);
    PartsV1(MISTAKEN_V1);
  }

  lemma MistakenV1Fixed(p: Bytes)
    requires p == MISTAKEN_V1_PACKET
    ensures Holds(p, 1, Padded("g", 64)) && Holds(p, 66, Zeros(16)) && !GuessesV1(p)
  {
    assert ToBytes("g") == [0x67];
    assert p[1..65] == Padded("g", 64) && p[66..82] == Zeros(16);
    assert !IsHexOrNul(p[1]);
  }

  lemma MistakenV1Decodes(p: Bytes)
    requires p == MISTAKEN_V1_PACKET
    ensures DecodeV2(p).Some?
  {
    assert Offset(p, 46) == 0 && Offset(p, 54) == 0;
    assert p[66..][0] == 0;
    assert ReadVarString(p, 66, 16).Some?;
  }

  /** This layout-1 packet is taken for layout 2. */
  lemma {:induction false} MistakenV1Example()
    ensures CarriesV1(MISTAKEN_V1_PACKET, MISTAKEN_V1)
    ensures !GuessesV1(MISTAKEN_V1_PACKET) && DecodeConnect(MISTAKEN_V1_PACKET) != Some(MISTAKEN_V1.Info())
  {
    MistakenV1Fields(MISTAKEN_V1_PACKET);
    MistakenV1Fixed(MISTAKEN_V1_PACKET);
    MistakenV1Decodes(MISTAKEN_V1_PACKET);
    V1DecodedIff(MISTAKEN_V1_PACKET, MISTAKEN_V1);
  }
}
