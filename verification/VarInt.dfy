/** Variable-length integers: seven bits a byte, least significant first, the top bit set on all but the last. */
module VarInt {
  import opened Common
  import opened Bytes

  const TWO32 := 0x1_0000_0000
  const TWO35 := 0x8_0000_0000

  /** The bytes writeVarInt writes. Its loop test looks at bits 7 to 31 only. */
  function Encode(v: nat): (b: Bytes)
    ensures |b| > 0
  {
    if v % TWO32 / 128 != 0 then [v % 128 + 128] + Encode(v / 128) else [v % 256]
  }

  /** A varint of at most `limit` bytes at the start of b: its value and size. */
  function Decode(b: Bytes, limit: nat): Option<(nat, nat)> {
    if limit == 0 || b == [] then None
    else if b[0] < 128 then Some((b[0], 1))
    else
      match Decode(b[1..], limit - 1)
      case None => None
      case Some((v, size)) => Some((b[0] - 128 + 128 * v, size + 1))
  }

  /** readVarInt: at most five bytes at pos. */
  function Read(b: Bytes, pos: int): Option<(nat, nat)> {
    if pos < 0 || pos >= |b| then None else Decode(b[pos..], 5)
  }

  /** A decoded rest, after i bytes whose bits add up to value, the next of which weighs weight. */
  function Shifted(value: nat, weight: nat, i: nat, rest: Option<(nat, nat)>): Option<(nat, nat)> {
    match rest
    case None => None
    case Some((v, size)) => Some((value + weight * v, i + size))
  }

  lemma ShiftStep(value: nat, weight: nat, i: nat, b: Bytes, pos: nat, limit: nat)
    requires pos < |b| && 0 < limit
    ensures Shifted(value, weight, i, Decode(b[pos..], limit)) ==
              if b[pos] < 128 then Some((value + weight * b[pos], i + 1))
              else Shifted(value + weight * (b[pos] % 128), weight * 128, i + 1, Decode(b[pos + 1..], limit - 1))
  {
    var rest := Decode(b[pos + 1..], limit - 1);
    assert b[pos..][1..] == b[pos + 1..] && b[pos..][0] == b[pos];
    if b[pos] >= 128 && rest.Some? {
      Accumulate(value, weight, b[pos] - 128, rest.value.0);
    }
  }

  lemma Accumulate(value: nat, weight: nat, low: nat, v: nat)
    ensures value + weight * (low + 128 * v) == value + weight * low + weight * 128 * v
  {
    assert weight * (low + 128 * v) == weight * low + weight * (128 * v);
    assert weight * (128 * v) == weight * 128 * v;
  }

  /** The reading loop accumulates from the low end. */
  method ReadVarInt(b: Bytes, pos: int) returns (r: Option<(nat, nat)>)
    ensures r == Read(b, pos)
  {
    if pos < 0 || pos >= |b| {
      return None;
    }
    var value: nat, weight: nat := 0, 1;
    for i := 0 to 5
      invariant pos + i <= |b|
      invariant Read(b, pos) == Shifted(value, weight, i, Decode(b[pos + i..], 5 - i))
    {
      if pos + i >= |b| {
        return None;
      }
      var low := b[pos + i];
      ShiftStep(value, weight, i, b, pos + i, 5 - i);
      if low < 128 {
        return Some((value + weight * low, i + 1));
      }
      value := value + weight * (low % 128);
      weight := weight * 128;
    }
    return None;
  }

  /** 128 to the power limit: what fits in `limit` bytes. */
  function Capacity(limit: nat): (c: nat)
    ensures c >= 1
  {
    if limit == 0 then 1 else 128 * Capacity(limit - 1)
  }

  lemma {:induction false} DecodeBounded(b: Bytes, limit: nat)
    ensures Decode(b, limit).Some? ==>
              Decode(b, limit).value.0 < Capacity(limit) && 1 <= Decode(b, limit).value.1 <= limit && Decode(b, limit).value.1 <= |b|
  {
    if limit > 0 && b != [] && b[0] >= 128 {
      DecodeBounded(b[1..], limit - 1);
    }
  }

  lemma EncodeLarge(v: nat)
    requires 128 <= v < TWO32
    ensures Encode(v) == [v % 128 + 128] + Encode(v / 128)
  {
    assert v % TWO32 == v;
  }

  lemma DecodeMore(low: nat, t: Bytes, limit: nat)
    requires low < 128 && 0 < limit
    ensures var head: Bytes := [low + 128];
            Decode(head + t, limit) == match Decode(t, limit - 1) { case None => None case Some((v, size)) => Some((low + 128 * v, size + 1)) }
  {
    var head: Bytes := [low + 128];
    assert (head + t)[1..] == t && (head + t)[0] == low + 128;
  }

  /** Every 32-bit value reads back, with its exact size, whatever bytes follow. */
  lemma {:induction false} RoundTrip32(v: nat, limit: nat, rest: Bytes)
    requires v < TWO32 && v < Capacity(limit) && 0 < limit
    ensures Decode(Encode(v) + rest, limit) == Some((v, |Encode(v)|)) && |Encode(v)| <= limit
    decreases limit
  {
    if v < 128 {
      assert Encode(v) == [v] && (Encode(v) + rest)[0] == v;
    } else {
      var q, low := v / 128, v % 128;
      EncodeLarge(v);
      Halves(v, limit);
      RoundTrip32(q, limit - 1, rest);
      var head: Bytes := [low + 128];
      assert Encode(v) + rest == head + (Encode(q) + rest);
      DecodeMore(low, Encode(q) + rest, limit);
    }
  }

  lemma Halves(v: nat, limit: nat)
    requires 128 <= v < TWO32 && v < Capacity(limit)
    ensures 1 < limit && v / 128 < TWO32 && v / 128 < Capacity(limit - 1) && v == v % 128 + 128 * (v / 128)
  {
    assert Capacity(0) == 1 && limit > 0;
    assert Capacity(limit) == 128 * Capacity(limit - 1);
  }

  /** The varint of any 32-bit value takes at most five bytes and reads back from any position. */
  lemma {:induction false} ReadEncoded(b: Bytes, pos: nat, v: nat)
    requires v < TWO32 && pos + |Encode(v)| <= |b| && b[pos..pos + |Encode(v)|] == Encode(v)
    ensures Read(b, pos) == Some((v, |Encode(v)|)) && |Encode(v)| <= 5
  {
    assert Capacity(5) == TWO35 by {
      assert Capacity(1) == 128 && Capacity(2) == 0x4000 && Capacity(3) == 0x20_0000 && Capacity(4) == 0x1000_0000;
    }
    RoundTrip32(v, 5, b[pos + |Encode(v)|..]);
    assert b[pos..] == Encode(v) + b[pos + |Encode(v)|..];
  }

  /** Which values writeVarInt and readVarInt carry faithfully: all of 32 bits, and beyond that, up to 35 bits, exactly
      those whose low 32 bits do not look like a final byte. */
  lemma {:induction false} RoundTripsIff(v: nat, rest: Bytes)
    ensures Decode(Encode(v) + rest, 5) == Some((v, |Encode(v)|)) <==> v < TWO32 || (v < TWO35 && v % TWO32 >= 128)
  {
    assert Capacity(5) == TWO35 by {
      assert Capacity(1) == 128 && Capacity(2) == 0x4000 && Capacity(3) == 0x20_0000 && Capacity(4) == 0x1000_0000;
    }
    var s := Encode(v) + rest;
    if v < TWO32 {
      RoundTrip32(v, 5, rest);
    } else if v >= TWO35 {
      DecodeBounded(s, 5);
    } else if v % TWO32 >= 128 {
      assert Capacity(4) == 0x1000_0000;
      RoundTrip32(v / 128, 4, rest);
      assert s[1..] == Encode(v / 128) + rest;
    } else {
      assert s[0] == v % 256;
    }
  }
}
