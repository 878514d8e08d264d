/** The unpadded base64url text of a byte string (section 5 of RFC 4648), and the
    strict reading of one back: every byte string has one text, and every text
    read is that of the bytes it gives. Shifts and masks of bytes are written as
    divisions and remainders. */
module Base64Url {
  import opened Basics

  newtype byte = x: int | 0 <= x < 256

  datatype DecodeError = BadLength | BadCharacter | BadTrailingBits

  // --- the alphabet ---

  function CharOf(v: int): char
    requires 0 <= v < 64
  {
    if v < 26 then 'A' + v as char
    else if v < 52 then 'a' + (v - 26) as char
    else if v < 62 then '0' + (v - 52) as char
    else if v == 62 then '-' else '_'
  }

  function ValueOf(c: char): (r: Option<int>)
    ensures r.Some? ==> 0 <= r.value < 64 && CharOf(r.value) == c
  {
    if 'A' <= c <= 'Z' then Some(c as int - 'A' as int)
    else if 'a' <= c <= 'z' then Some(c as int - 'a' as int + 26)
    else if '0' <= c <= '9' then Some(c as int - '0' as int + 52)
    else if c == '-' then Some(62) else if c == '_' then Some(63) else None
  }

  /** The alphabet of table 2 in section 5 of RFC 4648. */
  lemma {:induction false} AlphabetExactly(v: int)
    requires 0 <= v < 64
    ensures v < 26 ==> CharOf(v) == "ABCDEFGHIJKLMNOPQRSTUVWXYZ"[v]
    ensures 26 <= v < 52 ==> CharOf(v) == "abcdefghijklmnopqrstuvwxyz"[v - 26]
    ensures 52 <= v ==> CharOf(v) == "0123456789-_"[v - 52]
  {
  }

  predicate IsAlphabetic(text: string) { forall c :: c in text ==> ValueOf(c).Some? }

  // --- groups of up to three bytes and four characters ---

  type Sextets = v: seq<int> | forall i :: 0 <= i < |v| ==> 0 <= v[i] < 64

  function Split(g: seq<byte>): (v: Sextets)
    requires 1 <= |g| <= 3
    ensures |v| == |g| + 1
  {
    var b0, b1, b2 := At(g, 0), At(g, 1), At(g, 2);
    [b0 / 4, b0 % 4 * 16 + b1 / 16]
    + (if |g| > 1 then [b1 % 16 * 4 + b2 / 64] else [])
    + (if |g| > 2 then [b2 % 64] else [])
  }

  /** A byte of a group, 0 where it has none. */
  function At(g: seq<byte>, i: nat): (b: int)
    ensures 0 <= b < 256
  {
    if i < |g| then g[i] as int else 0
  }

  function Join(v: Sextets): (g: seq<byte>)
    requires 2 <= |v| <= 4
    ensures |g| == |v| - 1
  {
    [(v[0] * 4 + v[1] / 16) as byte]
    + (if |v| > 2 then [(v[1] % 16 * 16 + v[2] / 4) as byte] else [])
    + (if |v| > 3 then [(v[2] % 4 * 64 + v[3]) as byte] else [])
  }

  /** Whether the bits a short group leaves over are 0. */
  predicate NothingOver(v: Sextets) {
    (|v| == 2 ==> v[1] % 16 == 0) && (|v| == 3 ==> v[2] % 4 == 0)
  }

  lemma {:induction false} SplitReturns(g: seq<byte>)
    requires 1 <= |g| <= 3
    ensures NothingOver(Split(g)) && Join(Split(g)) == g
  {
  }

  lemma {:induction false} FirstByte(a: int, b: int, x: int)
    requires 0 <= a < 64 && 0 <= b < 64 && x == a * 4 + b / 16
    ensures 0 <= x < 256 && x / 4 == a && x % 4 * 16 + b % 16 == b
  {
  }

  lemma {:induction false} SecondByte(b: int, c: int, y: int)
    requires 0 <= b < 64 && 0 <= c < 64 && y == b % 16 * 16 + c / 4
    ensures 0 <= y < 256 && y / 16 == b % 16 && y % 16 * 4 + c % 4 == c
  {
  }

  lemma {:induction false} ThirdByte(c: int, d: int, z: int)
    requires 0 <= c < 64 && 0 <= d < 64 && z == c % 4 * 64 + d
    ensures 0 <= z < 256 && z / 64 == c % 4 && z % 64 == d
  {
  }

  lemma {:induction false} SplitBytes(x: byte, y: byte, z: byte)
    ensures var (i, j, k) := (x as int, y as int, z as int);
      && Split([x]) == [i / 4, i % 4 * 16]
      && Split([x, y]) == [i / 4, i % 4 * 16 + j / 16, j % 16 * 4]
      && Split([x, y, z]) == [i / 4, i % 4 * 16 + j / 16, j % 16 * 4 + k / 64, k % 64]
  {
  }

  lemma {:induction false} JoinReturns(v: Sextets)
    requires 2 <= |v| <= 4 && NothingOver(v)
    ensures Split(Join(v)) == v
  {
    var x := v[0] * 4 + v[1] / 16;
    FirstByte(v[0], v[1], x);
    if |v| == 2 {
      assert Join(v) == [x as byte];
      hide Join, Split;
      SplitBytes(x as byte, 0, 0);
    } else {
      var y := v[1] % 16 * 16 + v[2] / 4;
      SecondByte(v[1], v[2], y);
      if |v| == 3 {
        assert Join(v) == [x as byte, y as byte];
        hide Join, Split;
        SplitBytes(x as byte, y as byte, 0);
      } else {
        var z := v[2] % 4 * 64 + v[3];
        ThirdByte(v[2], v[3], z);
        assert Join(v) == [x as byte, y as byte, z as byte];
        hide Join, Split;
        SplitBytes(x as byte, y as byte, z as byte);
      }
    }
  }

  function Written(v: Sextets): (t: string)
    ensures |t| == |v|
  {
    seq(|v|, i requires 0 <= i < |v| => CharOf(v[i]))
  }

  function Values(t: string): (v: Sextets)
    requires IsAlphabetic(t)
    ensures |v| == |t|
  {
    seq(|t|, i requires 0 <= i < |t| => ValueOf(t[i]).GetOr(0))
  }

  lemma {:induction false} WrittenReturns(v: Sextets)
    ensures IsAlphabetic(Written(v)) && Values(Written(v)) == v
  {
  }

  lemma {:induction false} ValuesReturn(t: string)
    requires IsAlphabetic(t)
    ensures Written(Values(t)) == t
  {
  }

  function EncodeGroup(g: seq<byte>): (t: string)
    requires 1 <= |g| <= 3
    ensures |t| == |g| + 1
  {
    Written(Split(g))
  }

  predicate IsCanonical(t: string)
    requires IsAlphabetic(t)
  {
    NothingOver(Values(t))
  }

  function DecodeGroup(t: string): (g: seq<byte>)
    requires 2 <= |t| <= 4 && IsAlphabetic(t)
    ensures |g| == |t| - 1
  {
    Join(Values(t))
  }

  lemma {:induction false} GroupReturns(g: seq<byte>)
    requires 1 <= |g| <= 3
    ensures IsAlphabetic(EncodeGroup(g)) && IsCanonical(EncodeGroup(g)) && DecodeGroup(EncodeGroup(g)) == g
  {
    SplitReturns(g);
    WrittenReturns(Split(g));
  }

  lemma {:induction false} TextReturns(t: string)
    requires 2 <= |t| <= 4 && IsAlphabetic(t) && IsCanonical(t)
    ensures EncodeGroup(DecodeGroup(t)) == t
  {
    JoinReturns(Values(t));
    ValuesReturn(t);
  }

  // --- whole strings ---

  function Encode(bytes: seq<byte>): string {
    if bytes == [] then ""
    else if |bytes| <= 3 then EncodeGroup(bytes)
    else EncodeGroup(bytes[..3]) + Encode(bytes[3..])
  }

  /** The short group a text ends in. */
  function Tail(text: string): string { text[|text| - |text| % 4..] }

  lemma {:induction false} TailOf(text: string)
    ensures |text| < 4 ==> Tail(text) == text
    ensures |text| == 4 ==> Tail(text) == ""
    ensures |text| >= 4 ==> Tail(text) == Tail(text[4..])
  {
  }

  lemma {:induction false} FullIsCanonical(t: string)
    requires (|t| == 4 || t == "") && IsAlphabetic(t)
    ensures IsCanonical(t)
  {
  }

  function Decode(text: string): Result<seq<byte>, DecodeError> {
    if |text| % 4 == 1 then Err(BadLength)
    else if !IsAlphabetic(text) then Err(BadCharacter)
    else if !IsCanonical(Tail(text)) then Err(BadTrailingBits)
    else Ok(Bytes(text))
  }

  /** The bytes of a text of alphabet characters. */
  function Bytes(text: string): (bytes: seq<byte>)
    requires |text| % 4 != 1 && IsAlphabetic(text)
    ensures |bytes| == |text| * 3 / 4
  {
    if text == "" then []
    else if |text| <= 4 then DecodeGroup(text)
    else DecodeGroup(text[..4]) + Bytes(text[4..])
  }

  // --- the loops ---

  lemma {:induction false} EncodeAppended(bytes: seq<byte>, g: seq<byte>)
    requires |bytes| % 3 == 0 && 1 <= |g| <= 3
    ensures Encode(bytes + g) == Encode(bytes) + EncodeGroup(g)
  {
    hide EncodeGroup;
    if bytes == [] {
      assert bytes + g == g;
    } else {
      assert (bytes + g)[..3] == bytes[..3] && (bytes + g)[3..] == bytes[3..] + g;
      EncodeAppended(bytes[3..], g);
      if |bytes| == 3 {
        assert bytes[..3] == bytes;
      }
    }
  }

  lemma {:induction false} EncodeNext(bytes: seq<byte>, i: nat, end: nat)
    requires i % 3 == 0 && i < end <= i + 3 && end <= |bytes|
    ensures Encode(bytes[..end]) == Encode(bytes[..i]) + EncodeGroup(bytes[i..end])
  {
    hide Encode, EncodeGroup;
    assert bytes[..end] == bytes[..i] + bytes[i..end];
    EncodeAppended(bytes[..i], bytes[i..end]);
  }

  method WriteGroup(bytes: array<byte>, i: nat, end: nat) returns (text: string)
    requires i < end <= i + 3 && end <= bytes.Length && (end == i + 3 || end == bytes.Length)
    ensures text == EncodeGroup(bytes[i..end])
  {
    var b0 := bytes[i] as int;
    var b1 := if i + 1 < bytes.Length then bytes[i + 1] as int else 0;
    var b2 := if i + 2 < bytes.Length then bytes[i + 2] as int else 0;
    text := [CharOf(b0 / 4), CharOf(b0 % 4 * 16 + b1 / 16)];
    if i + 1 < bytes.Length {
      text := text + [CharOf(b1 % 16 * 4 + b2 / 64)];
    }
    if i + 2 < bytes.Length {
      text := text + [CharOf(b2 % 64)];
    }
    ghost var g := bytes[i..end];
    assert At(g, 0) == b0 && At(g, 1) == b1 && At(g, 2) == b2;
    hide CharOf;
    assert text == Written(Split(g));
  }

  lemma {:induction false} ThreeOn(i: int)
    ensures i % 3 == 0 ==> (i + 3) % 3 == 0
  {
  }

  method ToBase64Url(bytes: array<byte>) returns (out: string)
    ensures out == Encode(bytes[..])
  {
    out := "";
    var i := 0;
    while i < bytes.Length
      invariant 0 <= i && (i < bytes.Length ==> i % 3 == 0)
      invariant out == Encode(bytes[..if i < bytes.Length then i else bytes.Length])
    {
      var end := if i + 3 < bytes.Length then i + 3 else bytes.Length;
      hide EncodeGroup, Encode;
      EncodeNext(bytes[..], i, end);
      var text := WriteGroup(bytes, i, end);
      out := out + text;
      ThreeOn(i);
      i := i + 3;
    }
    assert bytes[..bytes.Length] == bytes[..];
  }

  lemma {:induction false} BytesAppended(text: string, group: string)
    requires |text| % 4 == 0 && 2 <= |group| <= 4 && IsAlphabetic(text) && IsAlphabetic(group)
    ensures IsAlphabetic(text + group) && Bytes(text + group) == Bytes(text) + DecodeGroup(group)
  {
    hide DecodeGroup, ValueOf;
    if text == "" {
      assert text + group == group;
    } else {
      assert (text + group)[..4] == text[..4] && (text + group)[4..] == text[4..] + group;
      BytesAppended(text[4..], group);
      if |text| == 4 {
        assert text[..4] == text;
      }
    }
  }

  /** One group read into `out` from `outIndex` on. */
  method ReadGroup(group: string, out: array<byte>, outIndex: nat) returns (fault: Option<DecodeError>)
    requires 2 <= |group| <= 4 && outIndex + |group| - 1 <= out.Length
    modifies out
    ensures out[..outIndex] == old(out[..outIndex])
    ensures match fault
      case None => IsAlphabetic(group) && IsCanonical(group) && out[outIndex..outIndex + |group| - 1] == DecodeGroup(group)
      case Some(e) => if IsAlphabetic(group) then !IsCanonical(group) && e == BadTrailingBits else e == BadCharacter
  {
    if exists c :: c in group && ValueOf(c).None? {
      return Some(BadCharacter);
    }
    var values := Values(group);
    out[outIndex] := (values[0] * 4 + values[1] / 16) as byte;
    if |values| == 2 && values[1] % 16 != 0 {
      return Some(BadTrailingBits);
    }
    if |values| >= 3 {
      out[outIndex + 1] := (values[1] % 16 * 16 + values[2] / 4) as byte;
      if |values| == 3 && values[2] % 4 != 0 {
        return Some(BadTrailingBits);
      }
    }
    if |values| == 4 {
      out[outIndex + 2] := (values[2] % 4 * 64 + values[3]) as byte;
    }
    return None;
  }

  /** A text whose characters up to `done` are read. */
  ghost predicate ReadUpTo(text: string, done: nat, bytes: seq<byte>)
    requires done <= |text|
  {
    done % 4 != 1 && IsAlphabetic(text[..done]) && bytes == Bytes(text[..done]) && (done % 4 != 0 ==> IsCanonical(Tail(text[..done])))
  }

  lemma {:induction false} ReadNext(text: string, i: nat, end: nat, bytes: seq<byte>)
    requires i % 4 == 0 && i + 2 <= end <= i + 4 && end <= |text|
    requires ReadUpTo(text, i, bytes) && IsAlphabetic(text[i..end]) && IsCanonical(text[i..end])
    ensures ReadUpTo(text, end, bytes + DecodeGroup(text[i..end]))
  {
    hide DecodeGroup, IsCanonical, ValueOf;
    assert text[..end] == text[..i] + text[i..end];
    BytesAppended(text[..i], text[i..end]);
    assert end % 4 != 0 ==> Tail(text[..end]) == text[i..end];
  }

  lemma {:induction false} ReadWhole(text: string, bytes: seq<byte>)
    requires ReadUpTo(text, |text|, bytes)
    ensures Decode(text) == Ok(bytes)
  {
    hide IsCanonical, ValueOf;
    assert text[..|text|] == text;
    if |text| % 4 == 0 {
      assert Tail(text) == "";
      FullIsCanonical("");
    }
  }

  lemma {:induction false} GroupFails(text: string, i: nat, end: nat, e: DecodeError)
    requires |text| % 4 != 1 && i % 4 == 0 && i + 2 <= end && end == (if i + 4 < |text| then i + 4 else |text|)
    requires IsAlphabetic(text[..i])
    requires if IsAlphabetic(text[i..end]) then !IsCanonical(text[i..end]) && e == BadTrailingBits else e == BadCharacter
    ensures Decode(text) == Err(e)
  {
    hide ValueOf;
    if IsAlphabetic(text[i..end]) {
      if end - i == 4 { FullIsCanonical(text[i..end]); }
      assert end == |text| && text == text[..i] + text[i..end] && Tail(text) == text[i..end];
    } else {
      var c :| c in text[i..end] && ValueOf(c).None?;
      assert c in text;
    }
  }

  lemma {:induction false} FourOn(i: int)
    ensures i % 4 == 0 ==> (i + 4) % 4 == 0 && (i + 4) / 4 * 3 == i / 4 * 3 + 3
  {
  }

  method FromBase64Url(text: string) returns (r: Result<array<byte>, DecodeError>)
    ensures match r case Ok(out) => fresh(out) && Decode(text) == Ok(out[..]) case Err(e) => Decode(text) == Err(e)
  {
    hide ReadUpTo, IsCanonical, IsAlphabetic, ValueOf, DecodeGroup;
    if |text| % 4 == 1 {
      return Err(BadLength);
    }
    var out := new byte[|text| * 3 / 4];
    var outIndex, i := 0, 0;
    NothingRead(text);
    while i < |text|
      invariant 0 <= i && (i < |text| ==> i % 4 == 0 && outIndex == i / 4 * 3)
      invariant i >= |text| ==> outIndex == out.Length
      invariant outIndex <= out.Length && ReadUpTo(text, if i < |text| then i else |text|, out[..outIndex])
    {
      var end := if i + 4 < |text| then i + 4 else |text|;
      ghost var before := out[..outIndex];
      var fault := ReadGroup(text[i..end], out, outIndex);
      if fault.Some? {
        AlphabeticSoFar(text, i, before);
        GroupFails(text, i, end, fault.value);
        return Err(fault.value);
      }
      ReadNext(text, i, end, before);
      assert out[..outIndex + |text[i..end]| - 1] == before + DecodeGroup(text[i..end]);
      outIndex := outIndex + (end - i) - 1;
      FourOn(i);
      i := i + 4;
    }
    ReadWhole(text, out[..outIndex]);
    assert out[..out.Length] == out[..];
    return Ok(out);
  }

  lemma {:induction false} NothingRead(text: string)
    ensures ReadUpTo(text, 0, [])
  {
  }

  lemma {:induction false} AlphabeticSoFar(text: string, i: nat, bytes: seq<byte>)
    requires i <= |text| && ReadUpTo(text, i, bytes)
    ensures IsAlphabetic(text[..i])
  {
  }

  // --- both ways ---

  lemma {:induction false} EncodedIsRead(bytes: seq<byte>)
    ensures var text := Encode(bytes);
      |text| % 4 != 1 && IsAlphabetic(text) && IsCanonical(Tail(text)) && Bytes(text) == bytes
  {
    hide EncodeGroup, DecodeGroup, IsCanonical, ValueOf, Tail;
    var text := Encode(bytes);
    TailOf(text);
    if bytes == [] {
      FullIsCanonical("");
    } else if |bytes| <= 3 {
      GroupReturns(bytes);
      if |bytes| == 3 { FullIsCanonical(""); }
    } else {
      var group, rest := EncodeGroup(bytes[..3]), Encode(bytes[3..]);
      GroupReturns(bytes[..3]);
      EncodedIsRead(bytes[3..]);
      assert text == group + rest && text[..4] == group && text[4..] == rest;
      assert rest != "";
    }
  }

  lemma {:induction false} DecodeReadsEncoded(bytes: seq<byte>)
    ensures Decode(Encode(bytes)) == Ok(bytes)
  {
    EncodedIsRead(bytes);
  }

  lemma {:induction false} ReadIsEncoded(text: string)
    requires Decode(text).Ok?
    ensures Encode(Decode(text).value) == text
  {
    hide EncodeGroup, DecodeGroup, IsCanonical, ValueOf, Tail;
    TailOf(text);
    if text == "" {
    } else if |text| <= 4 {
      if |text| == 4 { FullIsCanonical(text); }
      TextReturns(text);
    } else {
      var group, rest := text[..4], text[4..];
      assert text == group + rest;
      FullIsCanonical(group);
      TextReturns(group);
      ReadIsEncoded(rest);
      var bytes := Bytes(text);
      assert bytes[..3] == DecodeGroup(group) && bytes[3..] == Bytes(rest);
      assert |bytes| > 3;
    }
  }

  /** A text is read exactly if it is the one text of some bytes, and then as those. */
  lemma {:induction false} AcceptedExactly(text: string, bytes: seq<byte>)
    ensures Decode(text) == Ok(bytes) <==> Encode(bytes) == text
  {
    if Decode(text) == Ok(bytes) { ReadIsEncoded(text); }
    DecodeReadsEncoded(bytes);
  }
}
