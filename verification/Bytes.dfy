/** Bytes, Go strings as bytes, and fixed-width integers. */
module Bytes {
  type byte = b: int | 0 <= b < 256

  type Bytes = seq<byte>

  predicate IsByteText(s: string) {
    forall i :: 0 <= i < |s| ==> s[i] as int < 256
  }

  /** A Go string: each character stands for one byte. */
  type GoString = s: string | IsByteText(s)

  function ToBytes(s: GoString): (b: Bytes)
    ensures |b| == |s|
  {
    seq(|s|, i requires 0 <= i < |s| => s[i] as int)
  }

  function FromBytes(b: Bytes): (s: GoString)
    ensures |s| == |b|
  {
    seq(|b|, i requires 0 <= i < |b| => b[i] as char)
  }

  lemma TextRoundTrip(s: GoString, b: Bytes)
    ensures FromBytes(ToBytes(s)) == s && ToBytes(FromBytes(b)) == b
  {
  }

  // ---------- little-endian integers ----------

  function PutU16(v: int): (b: Bytes)
    requires 0 <= v < 0x1_0000
    ensures |b| == 2
  {
    [v % 256, v / 256]
  }

  function GetU16(b: Bytes, pos: nat): (v: nat)
    requires pos + 2 <= |b|
    ensures v < 0x1_0000
  {
    (b[pos] as int) + 256 * (b[pos + 1] as int)
  }

  function PutU32(v: int): (b: Bytes)
    requires 0 <= v < 0x1_0000_0000
    ensures |b| == 4
  {
    [v % 256, v / 256 % 256, v / 256 / 256 % 256, v / 256 / 256 / 256]
  }

  function GetU32(b: Bytes, pos: nat): (v: nat)
    requires pos + 4 <= |b|
    ensures v < 0x1_0000_0000
  {
    (b[pos] as int) + 256 * (b[pos + 1] as int) + 0x1_0000 * (b[pos + 2] as int) + 0x100_0000 * (b[pos + 3] as int)
  }

  /** int32(v): the same 32 bits read as a signed number. */
  function AsInt32(v: int): (r: int)
    requires 0 <= v < 0x1_0000_0000
  {
    if v < 0x8000_0000 then v else v - 0x1_0000_0000
  }

  /** uint32(v). */
  function AsUint32(v: int): (r: int)
    ensures 0 <= r < 0x1_0000_0000
  {
    v % 0x1_0000_0000
  }

  lemma U16RoundTrip(b: Bytes, pos: nat, v: int)
    requires 0 <= v < 0x1_0000 && pos + 2 <= |b| && b[pos..pos + 2] == PutU16(v)
    ensures GetU16(b, pos) == v
  {
    var s := b[pos..pos + 2];
    assert s[0] == b[pos] && s[1] == b[pos + 1];
  }

  lemma U32RoundTrip(b: Bytes, pos: nat, v: int)
    requires 0 <= v < 0x1_0000_0000 && pos + 4 <= |b| && b[pos..pos + 4] == PutU32(v)
    ensures GetU32(b, pos) == v
  {
    var s := b[pos..pos + 4];
    assert s[0] == b[pos] && s[1] == b[pos + 1] && s[2] == b[pos + 2] && s[3] == b[pos + 3];
  }

  /** Any four bytes are the encoding of the number they read as. */
  lemma U32Inverse(b: Bytes, pos: nat)
    requires pos + 4 <= |b|
    ensures b[pos..pos + 4] == PutU32(GetU32(b, pos)) && AsUint32(AsInt32(GetU32(b, pos))) == GetU32(b, pos)
  {
    var v := GetU32(b, pos);
    var r := (b[pos + 1] as int) + 256 * (b[pos + 2] as int) + 0x1_0000 * (b[pos + 3] as int);
    var q := (b[pos + 2] as int) + 256 * (b[pos + 3] as int);
    assert v == b[pos] as int + 256 * r && v / 256 == r && v % 256 == b[pos];
    assert r == b[pos + 1] as int + 256 * q && r / 256 == q && r % 256 == b[pos + 1];
    assert q / 256 == b[pos + 3] && q % 256 == b[pos + 2];
    assert b[pos..pos + 4] == [b[pos], b[pos + 1], b[pos + 2], b[pos + 3]];
  }

  // ---------- flag bits ----------

  /** Whether b & weight is non-zero, for weight 1, 2, 4 or 8. */
  predicate HasBit(b: byte, weight: int)
    requires weight > 0
  {
    b / weight % 2 == 1
  }
}
