/** The versioned referral envelope, optionally signed. HMAC-SHA256 is any function from key and message to 32 bytes. */
module Envelope {
  import opened Common
  import opened Bytes

  const MAX_SIZE := 4096
  const HEADER_SIZE := 9
  const HMAC_SIZE := 32
  const MAGIC: Bytes := [0x48, 0x59, 0x52, 0x50]

  type Digest = s: Bytes | |s| == HMAC_SIZE witness seq(HMAC_SIZE, _ => 0)

  /** Key and message to authentication code. */
  type Hmac = (Bytes, Bytes) -> Digest

  datatype EnvelopeError =
    | ContentTooLarge | EnvelopeTooLarge | BufferTooSmall | InvalidMagic | UnsupportedVersion
    | InvalidLength | NotSigned | InvalidHmac | UnknownKeyId

  datatype Envelope = Envelope(flags: byte, keyID: byte, content: Bytes, hmac: Bytes, signed: bool, raw: Bytes, rawNoSig: Bytes)

  // ---------- encoding ----------

  function Header(flags: byte, keyID: byte, length: nat): Bytes
    requires length < 0x1_0000
  {
    MAGIC + [1, flags, keyID] + PutU16(length)
  }

  function SigSize(secret: Bytes): nat {
    if |secret| > 0 then HMAC_SIZE else 0
  }

  function FlagsFor(secret: Bytes): byte {
    if |secret| > 0 then 1 else 0
  }

  function Unsigned(content: Bytes, keyID: byte, secret: Bytes): Bytes
    requires |content| < 0x1_0000
  {
    Header(FlagsFor(secret), keyID, |content|) + content
  }

  /** EncodeV1 on values; nil content counts as empty. */
  function Encoded(mac: Hmac, content: Bytes, keyID: byte, secret: Bytes): Result<Bytes, EnvelopeError> {
    if |content| > MAX_SIZE then Err(ContentTooLarge)
    else if HEADER_SIZE + |content| + SigSize(secret) > MAX_SIZE then Err(EnvelopeTooLarge)
    else
      var plain := Unsigned(content, keyID, secret);
      Ok(if |secret| > 0 then plain + mac(secret, plain) else plain)
  }

  /** Go's copy into a slice. */
  method CopyInto(out: array<byte>, pos: nat, src: Bytes)
    requires pos + |src| <= out.Length
    modifies out
    ensures out[..pos] == old(out[..pos]) && out[pos..pos + |src|] == src && out[pos + |src|..] == old(out[pos + |src|..])
  {
    for i := 0 to |src|
      invariant forall k :: 0 <= k < out.Length && !(pos <= k < pos + i) ==> out[k] == old(out[k])
      invariant forall k :: 0 <= k < i ==> out[pos + k] == src[k]
    {
      out[pos + i] := src[i];
    }
  }

  /** Fills a buffer of the final size in place, then signs what has been written so far. */
  method EncodeV1(mac: Hmac, content: Bytes, keyID: byte, secret: Bytes) returns (r: Result<Bytes, EnvelopeError>)
    ensures r == Encoded(mac, content, keyID, secret)
  {
    if |content| > MAX_SIZE {
      return Err(ContentTooLarge);
    }
    var flags := FlagsFor(secret);
    var total := HEADER_SIZE + |content| + SigSize(secret);
    if total > MAX_SIZE {
      return Err(EnvelopeTooLarge);
    }
    var out := new byte[total](_ => 0);
    CopyInto(out, 0, MAGIC);
    assert out[..4] == MAGIC;
    CopyInto(out, 4, [1, flags, keyID]);
    TakeSplit(out[..], 4, 7);
    CopyInto(out, 7, PutU16(|content|));
    TakeSplit(out[..], 7, 9);
    assert out[..9] == Header(flags, keyID, |content|);
    CopyInto(out, 9, content);
    TakeSplit(out[..], 9, 9 + |content|);
    ghost var plain := Unsigned(content, keyID, secret);
    assert out[..9 + |content|] == plain;
    if |secret| > 0 {
      var sum := mac(secret, out[..9 + |content|]);
      CopyInto(out, 9 + |content|, sum);
      TakeSplit(out[..], 9 + |content|, total);
      assert out[..] == plain + sum;
    } else {
      assert out[..] == out[..9 + |content|];
    }
    return Ok(out[..]);
  }

  // ---------- parsing and verification ----------

  function Need(b: Bytes): nat
    requires |b| >= HEADER_SIZE
  {
    HEADER_SIZE + GetU16(b, 7) + if HasBit(b[5], 1) then HMAC_SIZE else 0
  }

  function Parse(b: Bytes): (r: Result<Envelope, EnvelopeError>)
  {
    if |b| < HEADER_SIZE then Err(BufferTooSmall)
    else if b[0..4] != MAGIC then Err(InvalidMagic)
    else if b[4] != 1 then Err(UnsupportedVersion)
    else if Need(b) > |b| then Err(InvalidLength)
    else if Need(b) > MAX_SIZE then Err(EnvelopeTooLarge)
    else
      var signed, l, raw := HasBit(b[5], 1), GetU16(b, 7), b[..Need(b)];
      Ok(Envelope(b[5], b[6], b[9..9 + l], if signed then b[9 + l..9 + l + HMAC_SIZE] else [], signed, raw,
                  if signed then raw[..|raw| - HMAC_SIZE] else raw))
  }

  function VerifyHMACSHA256(mac: Hmac, b: Bytes, secret: Bytes): Result<Envelope, EnvelopeError> {
    match Parse(b)
    case Err(e) => Err(e)
    case Ok(env) =>
      if !env.signed then Err(NotSigned)
      else if mac(secret, env.rawNoSig) != env.hmac then Err(InvalidHmac)
      else Ok(env)
  }

  function VerifyWithSecretProvider(mac: Hmac, b: Bytes, secretFor: byte -> Option<Bytes>): Result<Envelope, EnvelopeError> {
    match Parse(b)
    case Err(e) => Err(e)
    case Ok(env) =>
      if !env.signed then Err(NotSigned)
      else
        match secretFor(env.keyID)
        case None => Err(UnknownKeyId)
        case Some(secret) => VerifyHMACSHA256(mac, b, secret)
  }

  // ---------- properties ----------

  lemma TakeSplit(b: Bytes, i: nat, j: nat)
    requires i <= j <= |b|
    ensures b[..j] == b[..i] + b[i..j]
  {
  }

  lemma HeaderFields(flags: byte, keyID: byte, length: nat, rest: Bytes)
    requires length < 0x1_0000
    ensures var b := Header(flags, keyID, length) + rest;
            && |Header(flags, keyID, length)| == HEADER_SIZE && b[0..4] == MAGIC && b[4] == 1
            && b[5] == flags && b[6] == keyID && GetU16(b, 7) == length
  {
    var b := Header(flags, keyID, length) + rest;
    assert b[7..9] == PutU16(length);
    U16RoundTrip(b, 7, length);
  }

  /** How a header, a content, a code and trailing bytes lie one after the other. */
  lemma Slices(h: Bytes, content: Bytes, sig: Bytes, trailing: Bytes)
    ensures var all, n, m := h + (content + sig + trailing), |h| + |content|, |h| + |content| + |sig|;
            && all[|h|..n] == content && all[n..m] == sig && all[..m] == h + content + sig
            && (h + content + sig)[..n] == h + content && all == h + content + sig + trailing
  {
  }

  /** Parse takes apart any well-formed header, content and code, whatever its flags. */
  lemma ParseParts(flags: byte, keyID: byte, content: Bytes, sig: Bytes, trailing: Bytes)
    requires |content| < 0x1_0000 && |sig| == (if HasBit(flags, 1) then HMAC_SIZE else 0)
    requires HEADER_SIZE + |content| + |sig| <= MAX_SIZE
    ensures var plain := Header(flags, keyID, |content|) + content;
            Parse(plain + sig + trailing)
            == Ok(Envelope(flags, keyID, content, sig, HasBit(flags, 1), plain + sig, plain))
  {
    var h := Header(flags, keyID, |content|);
    var b := h + content + sig + trailing;
    Slices(h, content, sig, trailing);
    assert b == h + (content + sig + trailing);
    HeaderFields(flags, keyID, |content|, content + sig + trailing);
    assert Need(b) == HEADER_SIZE + |content| + |sig|;
    assert sig == [] ==> h + content + sig == h + content;
  }

  /** Whatever is encoded parses back to its content and key id, with any bytes behind it. */
  lemma {:induction false} ParseEncoded(mac: Hmac, content: Bytes, keyID: byte, secret: Bytes, trailing: Bytes)
    requires Encoded(mac, content, keyID, secret).Ok?
    ensures var b := Encoded(mac, content, keyID, secret).value;
            && |b| <= MAX_SIZE
            && Parse(b + trailing).Ok?
            && var env := Parse(b + trailing).value;
               && env.content == content && env.keyID == keyID && env.flags == FlagsFor(secret)
               && env.signed == (secret != []) && env.raw == b
               && env.rawNoSig == Unsigned(content, keyID, secret)
               && (secret != [] ==> env.hmac == mac(secret, env.rawNoSig))
  {
    var plain := Unsigned(content, keyID, secret);
    var sig: Bytes := if |secret| > 0 then mac(secret, plain) else [];
    assert HasBit(1, 1) && !HasBit(0, 1);
    assert Encoded(mac, content, keyID, secret).value == plain + sig;
    ParseParts(FlagsFor(secret), keyID, content, sig, trailing);
  }

  /** Encoding fails exactly when header, content and signature exceed the limit; what it returns never does. */
  lemma EncodedIff(mac: Hmac, content: Bytes, keyID: byte, secret: Bytes)
    ensures Encoded(mac, content, keyID, secret).Ok? <==> |content| <= MAX_SIZE - HEADER_SIZE - SigSize(secret)
    ensures Encoded(mac, content, keyID, secret).Ok? ==>
              |Encoded(mac, content, keyID, secret).value| == HEADER_SIZE + |content| + SigSize(secret) <= MAX_SIZE < 0x1_0000
  {
  }

  /** Bytes behind a complete envelope are ignored. */
  lemma {:induction false} TrailingIgnored(b: Bytes, trailing: Bytes)
    requires Parse(b).Ok?
    ensures Parse(b + trailing) == Parse(b)
  {
    var c := b + trailing;
    assert c[0..4] == b[0..4] && GetU16(c, 7) == GetU16(b, 7);
    assert c[..Need(b)] == b[..Need(b)];
    var l := GetU16(b, 7);
    assert c[9..9 + l] == b[9..9 + l];
    if HasBit(b[5], 1) {
      assert c[9 + l..9 + l + HMAC_SIZE] == b[9 + l..9 + l + HMAC_SIZE];
    }
  }

  /** A parsed envelope is its unsigned part followed by its code, and starts with the header its fields describe. */
  lemma {:induction false} ParsedLayout(b: Bytes)
    requires Parse(b).Ok?
    ensures var env := Parse(b).value;
            && env.raw == env.rawNoSig + env.hmac && |env.raw| <= MAX_SIZE
            && (env.signed <==> HasBit(env.flags, 1)) && |env.hmac| == (if env.signed then HMAC_SIZE else 0)
            && |env.content| < 0x1_0000
            && env.rawNoSig == Header(env.flags, env.keyID, |env.content|) + env.content
  {
    var env := Parse(b).value;
    var l := GetU16(b, 7);
    assert env.rawNoSig == b[..9 + l];
    assert b[..9] == Header(env.flags, env.keyID, l) by {
      assert b[..9] == b[0..4] + [b[4], b[5], b[6]] + [b[7], b[8]];
      assert PutU16(l) == [b[7], b[8]];
    }
    TakeSplit(b, 9, 9 + l);
  }

  /** Verification accepts exactly the signed envelopes whose code is the code of their unsigned part. */
  lemma {:induction false} VerifyIff(mac: Hmac, b: Bytes, secret: Bytes)
    ensures VerifyHMACSHA256(mac, b, secret).Ok? <==>
            Parse(b).Ok? && HasBit(Parse(b).value.flags, 1) && Parse(b).value.raw == Parse(b).value.rawNoSig + mac(secret, Parse(b).value.rawNoSig)
  {
    if Parse(b).Ok? {
      ParsedLayout(b);
      var env := Parse(b).value;
      if env.raw == env.rawNoSig + mac(secret, env.rawNoSig) {
        assert env.raw[|env.rawNoSig|..] == mac(secret, env.rawNoSig);
        assert (env.rawNoSig + env.hmac)[|env.rawNoSig|..] == env.hmac;
      }
    }
  }

  /** A holder of the secret recovers content and key id; so does one who looks the secret up by key id. */
  lemma {:induction false} VerifyEncoded(mac: Hmac, content: Bytes, keyID: byte, secret: Bytes, trailing: Bytes, secretFor: byte -> Option<Bytes>)
    requires secret != [] && Encoded(mac, content, keyID, secret).Ok? && secretFor(keyID) == Some(secret)
    ensures var b := Encoded(mac, content, keyID, secret).value;
            && VerifyHMACSHA256(mac, b + trailing, secret).Ok?
            && VerifyHMACSHA256(mac, b + trailing, secret).value.content == content
            && VerifyHMACSHA256(mac, b + trailing, secret).value.keyID == keyID
            && VerifyWithSecretProvider(mac, b + trailing, secretFor) == VerifyHMACSHA256(mac, b + trailing, secret)
  {
    ParseEncoded(mac, content, keyID, secret, trailing);
  }

  /** A receiver that looks secrets up accepts exactly what the holder of the secret for the envelope's key id accepts. */
  lemma ProviderIff(mac: Hmac, b: Bytes, secretFor: byte -> Option<Bytes>)
    ensures var r := VerifyWithSecretProvider(mac, b, secretFor);
            && (r.Ok? <==> Parse(b).Ok? && secretFor(Parse(b).value.keyID).Some?
                           && VerifyHMACSHA256(mac, b, secretFor(Parse(b).value.keyID).value).Ok?)
            && (r.Ok? ==> r == VerifyHMACSHA256(mac, b, secretFor(Parse(b).value.keyID).value))
  {
  }

  /** Encoding a verified envelope again gives back the very same bytes, exactly when no flag but "signed" was set. */
  lemma {:induction false} ReEncodeIff(mac: Hmac, b: Bytes, secret: Bytes)
    requires secret != [] && VerifyHMACSHA256(mac, b, secret).Ok?
    ensures var env := VerifyHMACSHA256(mac, b, secret).value;
            Encoded(mac, env.content, env.keyID, secret) == Ok(env.raw) <==> env.flags == 1
  {
    ParsedLayout(b);
    var env := Parse(b).value;
    var plain := Unsigned(env.content, env.keyID, secret);
    assert Encoded(mac, env.content, env.keyID, secret) == Ok(plain + mac(secret, plain));
    FlagByte(1, env.keyID, env.content, mac(secret, plain));
    FlagByte(env.flags, env.keyID, env.content, env.hmac);
  }

  /** A signed envelope with flags 3: it verifies, and encoding its content again does not give it back. */
  lemma {:induction false} ExtraFlagExample(mac: Hmac, keyID: byte, secret: Bytes)
    requires secret != []
    ensures var plain := Header(3, keyID, 0);
            var b := plain + mac(secret, plain);
            && VerifyHMACSHA256(mac, b, secret).Ok? && VerifyHMACSHA256(mac, b, secret).value.raw == b
            && Encoded(mac, [], keyID, secret).Ok? && Encoded(mac, [], keyID, secret) != Ok(b)
  {
    var plain := Header(3, keyID, 0);
    var sig := mac(secret, plain);
    assert HasBit(3, 1);
    ParseParts(3, keyID, [], sig, []);
    assert plain + [] == plain && plain + sig + [] == plain + sig;
    ReEncodeIff(mac, plain + sig, secret);
  }

  lemma FlagByte(flags: byte, keyID: byte, content: Bytes, sig: Bytes)
    requires |content| < 0x1_0000
    ensures (Header(flags, keyID, |content|) + content + sig)[5] == flags
  {
    assert Header(flags, keyID, |content|)[5] == flags;
  }
}
