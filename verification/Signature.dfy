/** Raw P-256 signatures: the low-S form, its check, and the one text accepted for
    a signature and its twin. A signature is 64 bytes, `r` and then `s`, both
    big-endian. Whether a signature verifies is not part of this model. */
module Signature {
  import opened Basics
  import opened Base64Url

  /** The order of the P-256 group, and the largest `s` of a low-S signature. */
  const ORDER := 0xffffffff00000000ffffffffffffffffbce6faada7179e84f3b9cac2fc632551
  const HALF_ORDER := ORDER / 2
  const TWO_TO_256 := 0x1_0000000000000000_0000000000000000_0000000000000000_0000000000000000

  // --- numbers as bytes ---

  function Number(bytes: seq<byte>): nat {
    if bytes == [] then 0 else Number(bytes[..|bytes| - 1]) * 256 + bytes[|bytes| - 1] as int
  }

  /** The `n` lowest bytes of a number, a negative one in two's complement. */
  function LowBytes(value: int, n: nat): (bytes: seq<byte>)
    ensures |bytes| == n
    decreases n
  {
    if n == 0 then [] else LowBytes(value / 256, n - 1) + [(value % 256) as byte]
  }

  lemma {:induction false} LowBytesNext(value: int, n: nat)
    requires n > 0
    ensures LowBytes(value, n) == LowBytes(value / 256, n - 1) + [(value % 256) as byte]
  {
  }

  function Pow256(n: nat): nat { if n == 0 then 1 else 256 * Pow256(n - 1) }

  lemma {:induction false} NumberBelow(bytes: seq<byte>)
    ensures Number(bytes) < Pow256(|bytes|)
  {
    if bytes != [] { NumberBelow(bytes[..|bytes| - 1]); }
  }

  lemma {:induction false} NumberOfLowBytes(value: int, n: nat)
    requires 0 <= value < Pow256(n)
    ensures Number(LowBytes(value, n)) == value
  {
    if n > 0 {
      NumberOfLowBytes(value / 256, n - 1);
      var bytes := LowBytes(value, n);
      assert bytes[..n - 1] == LowBytes(value / 256, n - 1);
    }
  }

  lemma {:induction false} LowBytesOfNumber(bytes: seq<byte>)
    ensures LowBytes(Number(bytes), |bytes|) == bytes
  {
    if bytes != [] {
      var n := |bytes| - 1;
      LowBytesOfNumber(bytes[..n]);
      assert Number(bytes) / 256 == Number(bytes[..n]) && Number(bytes) % 256 == bytes[n] as int;
    }
  }

  lemma {:induction false} LowBytesWrap(value: int, n: nat)
    ensures LowBytes(value + Pow256(n), n) == LowBytes(value, n)
    decreases n
  {
    if n > 0 {
      var q := Pow256(n - 1);
      assert (value + 256 * q) / 256 == value / 256 + q && (value + 256 * q) % 256 == value % 256;
      LowBytesWrap(value / 256, n - 1);
    }
  }

  lemma {:induction false} Pow256Of32()
    ensures Pow256(32) == TWO_TO_256
  {
    assert Pow256(8) == 0x1_0000000000000000;
    assert Pow256(16) == 0x1_0000000000000000_0000000000000000;
    assert Pow256(24) == 0x1_0000000000000000_0000000000000000_0000000000000000;
  }

  method BytesToNumber(bytes: array<byte>, start: nat, end: nat) returns (value: nat)
    requires start <= end <= bytes.Length
    ensures value == Number(bytes[start..end])
  {
    value := 0;
    for i := start to end
      invariant value == Number(bytes[start..i])
    {
      assert bytes[start..i + 1][..i - start] == bytes[start..i];
      value := value * 256 + bytes[i] as int;
    }
  }

  lemma {:induction false} Regrouped(front: seq<byte>, b: byte, back: seq<byte>, n: nat)
    requires n <= |back|
    ensures (front + [b]) + back[..n] == front + ([b] + back)[..n + 1] && ([b] + back)[n + 1..] == back[n..]
  {
  }

  lemma {:induction false} OneMoreByte(given: seq<byte>, i: nat, b: byte, tail: seq<byte>)
    requires i < |given|
    ensures (given[..i + 1] + tail)[i := b] == given[..i] + ([b] + tail)
  {
  }

  method WriteNumberTo32(value: int, target: array<byte>, offset: nat)
    requires offset + 32 <= target.Length
    modifies target
    ensures target[..] == old(target[..offset]) + LowBytes(value, 32) + old(target[offset + 32..])
  {
    var rest := value;
    var i := offset + 32;
    ghost var given, tail := target[..], target[offset + 32..];
    while i > offset
      invariant offset <= i <= offset + 32 && |tail| == target.Length - i
      invariant target[..] == given[..i] + tail
      invariant LowBytes(value, 32) == LowBytes(rest, i - offset) + tail[..offset + 32 - i]
      invariant tail[offset + 32 - i..] == given[offset + 32..]
    {
      i := i - 1;
      ghost var was, low := target[..], (rest % 256) as byte;
      LowBytesNext(rest, i + 1 - offset);
      hide LowBytes;
      target[i] := (rest % 256) as byte;
      assert target[..] == was[i := low];
      OneMoreByte(given, i, low, tail);
      Regrouped(LowBytes(rest / 256, i - offset), low, tail, offset + 31 - i);
      tail := [low] + tail;
      rest := rest / 256;
    }
    hide LowBytes;
    assert target[..] == given[..offset] + tail[..32] + tail[32..];
  }

  // --- the low-S form ---

  function R(raw: seq<byte>): nat
    requires |raw| == 64
  {
    Number(raw[..32])
  }

  function S(raw: seq<byte>): nat
    requires |raw| == 64
  {
    Number(raw[32..])
  }

  function LowForm(raw: seq<byte>): (low: seq<byte>)
    requires |raw| == 64
    ensures |low| == 64
  {
    if S(raw) <= HALF_ORDER then raw else raw[..32] + LowBytes(ORDER - S(raw), 32)
  }

  datatype SignatureError = NotSixtyFour | DerEncoded | BadR | ZeroS | HighS | NotBase64Url(cause: DecodeError)

  method NormalizeLowS(raw: array<byte>) returns (r: Result<array<byte>, SignatureError>)
    ensures raw[..] == old(raw[..])
    ensures raw.Length != 64 ==> r == Err(NotSixtyFour)
    ensures raw.Length == 64 ==> r.Ok? && r.value[..] == LowForm(raw[..])
    ensures raw.Length == 64 ==> if S(raw[..]) <= HALF_ORDER then r.value == raw else fresh(r.value)
  {
    if raw.Length != 64 {
      return Err(NotSixtyFour);
    }
    var s := BytesToNumber(raw, 32, 64);
    assert raw[32..64] == raw[..][32..];
    if s <= HALF_ORDER {
      return Ok(raw);
    }
    hide Number, LowBytes;
    ghost var given := raw[..];
    var normalized := new byte[64](i requires 0 <= i < 64 reads raw => raw[i]);
    var low := ORDER - s;
    assert LowForm(given) == given[..32] + LowBytes(low, 32);
    hide LowForm, S, ORDER, HALF_ORDER;
    assert normalized[..32] == given[..32] && normalized[64..] == [];
    WriteNumberTo32(low, normalized, 32);
    assert given[..32] + LowBytes(low, 32) + [] == LowForm(given);
    return Ok(normalized);
  }

  predicate InRange(v: nat) { 1 <= v < ORDER }

  predicate IsCanonicalSignature(raw: seq<byte>)
    requires |raw| == 64
  {
    InRange(R(raw)) && 1 <= S(raw) <= HALF_ORDER
  }

  function CanonicalFault(raw: seq<byte>): Option<SignatureError>
    requires |raw| == 64
  {
    if R(raw) == 0 || R(raw) >= ORDER then Some(BadR)
    else if S(raw) == 0 then Some(ZeroS)
    else if S(raw) > HALF_ORDER then Some(HighS)
    else None
  }

  function DecodeRaw(text: string): Result<seq<byte>, SignatureError> {
    match Decode(text)
    case Err(e) => Err(NotBase64Url(e))
    case Ok(bytes) =>
      if |bytes| != 64 then if bytes != [] && bytes[0] == 0x30 then Err(DerEncoded) else Err(NotSixtyFour)
      else match CanonicalFault(bytes) case Some(e) => Err(e) case None => Ok(bytes)
  }

  method DecodeRawSignature(text: string) returns (r: Result<array<byte>, SignatureError>)
    ensures match r case Ok(bytes) => DecodeRaw(text) == Ok(bytes[..]) case Err(e) => DecodeRaw(text) == Err(e)
  {
    var decoded := FromBase64Url(text);
    if decoded.Err? {
      return Err(NotBase64Url(decoded.error));
    }
    var bytes := decoded.value;
    if bytes.Length != 64 {
      if bytes.Length > 0 && bytes[0] == 0x30 {
        return Err(DerEncoded);
      }
      return Err(NotSixtyFour);
    }
    var rNumber := BytesToNumber(bytes, 0, 32);
    var sNumber := BytesToNumber(bytes, 32, 64);
    assert bytes[0..32] == bytes[..][..32] && bytes[32..64] == bytes[..][32..];
    if rNumber == 0 || rNumber >= ORDER {
      return Err(BadR);
    }
    if sNumber == 0 {
      return Err(ZeroS);
    }
    if sNumber > HALF_ORDER {
      return Err(HighS);
    }
    return Ok(bytes);
  }

  // --- one text per signature ---

  /** The raw form of a signature. */
  function Raw(r: nat, s: nat): seq<byte> { LowBytes(r, 32) + LowBytes(s, 32) }

  lemma {:induction false} RawParts(r: nat, s: nat)
    requires r < TWO_TO_256 && s < TWO_TO_256
    ensures |Raw(r, s)| == 64 && R(Raw(r, s)) == r && S(Raw(r, s)) == s
  {
    Pow256Of32();
    NumberOfLowBytes(r, 32);
    NumberOfLowBytes(s, 32);
    assert Raw(r, s)[..32] == LowBytes(r, 32) && Raw(r, s)[32..] == LowBytes(s, 32);
  }

  lemma {:induction false} PartsMakeRaw(raw: seq<byte>)
    requires |raw| == 64
    ensures raw == Raw(R(raw), S(raw)) && R(raw) < TWO_TO_256 && S(raw) < TWO_TO_256
  {
    Pow256Of32();
    NumberBelow(raw[..32]);
    NumberBelow(raw[32..]);
    LowBytesOfNumber(raw[..32]);
    LowBytesOfNumber(raw[32..]);
    assert raw == raw[..32] + raw[32..];
  }

  /** What normalizing makes of `s`: the smaller of it and its twin; one above the
      order wraps around instead. */
  function Lowered(s: nat): int {
    if s <= HALF_ORDER then s else if s <= ORDER then ORDER - s else TWO_TO_256 + ORDER - s
  }

  lemma {:induction false} LowFormOf(r: nat, s: nat)
    requires r < TWO_TO_256 && s < TWO_TO_256
    ensures 0 <= Lowered(s) < TWO_TO_256 && LowForm(Raw(r, s)) == Raw(r, Lowered(s))
  {
    hide LowBytes, Number, Pow256, Bytes, Encode;
    RawParts(r, s);
    assert Raw(r, s)[..32] == LowBytes(r, 32);
    if s > ORDER {
      Pow256Of32();
      LowBytesWrap(ORDER - s, 32);
    }
  }

  lemma {:induction false} LoweredTwice(s: nat)
    requires s < TWO_TO_256
    ensures 0 <= Lowered(s) && (Lowered(Lowered(s)) == Lowered(s) <==> s <= ORDER)
  {
  }

  /** Normalizing twice is normalizing once exactly for an `s` no larger than the order. */
  lemma {:induction false} IdempotentExactly(raw: seq<byte>)
    requires |raw| == 64
    ensures LowForm(LowForm(raw)) == LowForm(raw) <==> S(raw) <= ORDER
  {
    PartsMakeRaw(raw);
    var r, s := R(raw), S(raw);
    LowFormOf(r, s);
    LowFormOf(r, Lowered(s));
    LoweredTwice(s);
    hide Raw, LowForm, R, S, Lowered;
    RawParts(r, Lowered(s));
    RawParts(r, Lowered(Lowered(s)));
  }

  /** A text is accepted exactly if it is the text of a canonical signature. */
  lemma {:induction false} SignatureAcceptedExactly(text: string, raw: seq<byte>)
    ensures DecodeRaw(text) == Ok(raw) <==> |raw| == 64 && IsCanonicalSignature(raw) && text == Encode(raw)
  {
    AcceptedExactly(text, raw);
  }

  lemma {:induction false} CanonicalTextIsAccepted(raw: seq<byte>)
    requires |raw| == 64
    ensures DecodeRaw(Encode(raw)).Ok? <==> IsCanonicalSignature(raw)
  {
    DecodeReadsEncoded(raw);
  }

  /** A signature made is accepted once normalized. */
  lemma {:induction false} NormalizedIsAccepted(raw: seq<byte>)
    requires |raw| == 64 && InRange(R(raw)) && InRange(S(raw))
    ensures DecodeRaw(Encode(LowForm(raw))) == Ok(LowForm(raw))
    ensures R(LowForm(raw)) == R(raw) && S(LowForm(raw)) in {S(raw), ORDER - S(raw)}
  {
    hide LowBytes, Number, LowForm, Encode, Raw;
    PartsMakeRaw(raw);
    var r, s := R(raw), S(raw);
    LowFormOf(r, s);
    RawParts(r, if s <= HALF_ORDER then s else ORDER - s);
    SignatureAcceptedExactly(Encode(LowForm(raw)), LowForm(raw));
  }

  /** Of a signature and its twin exactly one text is accepted: that of their common low-S form. */
  lemma {:induction false} OneTextPerSignature(r: nat, s: nat, text: string)
    requires InRange(r) && InRange(s)
    ensures (DecodeRaw(text) == Ok(Raw(r, s)) || DecodeRaw(text) == Ok(Raw(r, ORDER - s))) <==> text == Encode(LowForm(Raw(r, s)))
    ensures LowForm(Raw(r, s)) == LowForm(Raw(r, ORDER - s))
    ensures DecodeRaw(Encode(Raw(r, s))).Ok? != DecodeRaw(Encode(Raw(r, ORDER - s))).Ok?
  {
    hide LowBytes, Number, LowForm, Encode, Raw, R, S, DecodeRaw, Decode;
    RawParts(r, s);
    RawParts(r, ORDER - s);
    LowFormOf(r, s);
    LowFormOf(r, ORDER - s);
    assert ORDER % 2 == 1 && ORDER - s != s;
    SignatureAcceptedExactly(text, Raw(r, s));
    SignatureAcceptedExactly(text, Raw(r, ORDER - s));
    CanonicalTextIsAccepted(Raw(r, s));
    CanonicalTextIsAccepted(Raw(r, ORDER - s));
  }
}
