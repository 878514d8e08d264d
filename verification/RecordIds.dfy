/** The ids of sites and offers are record ids, whatever the ids they are made of. */
module RecordIds {
  import opened Basics
  import Codec
  import opened CodecHalves
  import OfferKeys
  import StatusPath

  // --- a character as a URI writes it ---

  type Octet = n: int | 0 <= n < 256

  /** The bytes of a character below U+10000 in UTF-8 (section 3 of RFC 3629). */
  function Utf8(n: nat): seq<Octet>
    requires n < 0x1_0000
  {
    if n < 0x80 then [n]
    else if n < 0x800 then [0xc0 + n / 64, 0x80 + n % 64]
    else [0xe0 + n / 4096, 0x80 + n / 64 % 64, 0x80 + n % 64]
  }

  function UpperHex(n: nat): char
    requires n < 16
  {
    "0123456789ABCDEF"[n]
  }

  /** Each byte as a percent sign and two hexadecimal digits (section 2.1 of RFC 3986). */
  function Percent(bytes: seq<Octet>): string {
    if bytes == [] then "" else "%" + [UpperHex(bytes[0] / 16), UpperHex(bytes[0] % 16)] + Percent(bytes[1..])
  }

  predicate BreaksLine(c: char) { c as int == 0xa || c as int == 0xd || c as int == 0x2028 || c as int == 0x2029 }

  lemma {:induction false} PercentNext(b: Octet, rest: seq<Octet>)
    ensures Percent([b] + rest) == "%" + [UpperHex(b / 16), UpperHex(b % 16)] + Percent(rest)
  {
    assert ([b] + rest)[1..] == rest;
  }

  lemma {:induction false} ShortIsPercent()
    ensures Percent([0xa]) == "%0A" && Percent([0xd]) == "%0D"
  {
    PercentNext(0xa, []);
    PercentNext(0xd, []);
  }

  lemma {:induction false} LongIsPercent(last: Octet)
    ensures Percent([0xe2, 0x80, last]) == "%E2%80%" + [UpperHex(last / 16), UpperHex(last % 16)]
  {
    PercentNext(last, []);
    PercentNext(0x80, [last]);
    PercentNext(0xe2, [0x80, last]);
    assert UpperHex(0x80 / 16) == '8' && UpperHex(0x80 % 16) == '0' && UpperHex(0xe2 / 16) == 'E' && UpperHex(0xe2 % 16) == '2';
    assert Percent([]) == "";
    hide Percent, UpperHex;
    assert [0x80 as Octet] + [last] == [0x80, last] && [0xe2 as Octet] + [0x80, last] == [0xe2, 0x80, last] && [last] + [] == [last];
  }

  lemma {:induction false} EscapedIsPercent(c: char)
    requires BreaksLine(c)
    ensures StatusPath.Escaped(c) == Percent(Utf8(c as int))
  {
    ShortIsPercent();
    LongIsPercent(0xa8);
    LongIsPercent(0xa9);
    assert UpperHex(0xa8 / 16) == 'A' && UpperHex(0xa8 % 16) == '8' && UpperHex(0xa9 / 16) == 'A' && UpperHex(0xa9 % 16) == '9';
    hide Percent, UpperHex;
    if c as int == 0x2028 {
      assert Utf8(c as int) == [0xe2, 0x80, 0xa8];
    } else if c as int == 0x2029 {
      assert Utf8(c as int) == [0xe2, 0x80, 0xa9];
    }
  }

  /** A local id is the source's own, each line break in it percent-encoded. */
  lemma {:induction false} LocalIdWrites(id: string, c: char)
    ensures StatusPath.RecordLocalId("") == ""
    ensures StatusPath.RecordLocalId(id + [c]) == StatusPath.RecordLocalId(id) + if BreaksLine(c) then Percent(Utf8(c as int)) else [c]
  {
    if BreaksLine(c) { EscapedIsPercent(c); }
    if id == "" {
      assert id + [c] == [c];
    } else {
      assert (id + [c])[1..] == id[1..] + [c];
      LocalIdWrites(id[1..], c);
    }
    hide Utf8, Percent;
  }

  lemma {:induction false} LocalIdHoldsNoBreak(id: string)
    ensures forall c :: c in StatusPath.RecordLocalId(id) ==> !BreaksLine(c)
    ensures StatusPath.RecordLocalId(id) == "" <==> id == ""
  {
    if id != "" { LocalIdHoldsNoBreak(id[1..]); }
  }

  /** A site's id is that of a feature of its feed, whatever id the station has. */
  lemma {:induction false} SiteIdIsRecordId(feed: string, stationId: string)
    requires NamesSpace(feed) && stationId != ""
    ensures Codec.ParseRecordId(StatusPath.SiteId(feed, stationId))
         == Some(Codec.ParsedId("feature", feed, StatusPath.RecordLocalId(stationId)))
  {
    LocalIdHoldsNoBreak(stationId);
    var local := StatusPath.RecordLocalId(stationId);
    assert NamesLocally(local);
    hide StatusPath.RecordLocalId, NamesLocally;
    assert StatusPath.SiteId(feed, stationId) == IdText("feature", feed, local);
    ParsedExactly(IdText("feature", feed, local), "feature", feed, local);
  }

  /** An offer's id is that of an offer of its feed, under its station's local id and its key. */
  lemma {:induction false} OfferIdIsRecordId(feed: string, stationId: string, key: string)
    requires NamesSpace(feed) && stationId != ""
    ensures var station := StatusPath.RecordLocalId(stationId);
      Codec.ParseRecordId(OfferKeys.TariffOfferId(feed, station, key))
      == Some(Codec.ParsedId("offer", feed, station + ":" + OfferKeys.Reduced(key)))
  {
    LocalIdHoldsNoBreak(stationId);
    var station := StatusPath.RecordLocalId(stationId);
    var local := station + ":" + OfferKeys.Reduced(key);
    assert NamesLocally(local);
    hide StatusPath.RecordLocalId, NamesLocally;
    assert OfferKeys.TariffOfferId(feed, station, key) == IdText("offer", feed, local);
    ParsedExactly(IdText("offer", feed, local), "offer", feed, local);
  }

  // --- keys ---

  /** A reduced key keeps letters, digits, dots, underscores and hyphens, and has `_` for anything else. */
  lemma {:induction false} ReducedKeeps(id: string, i: nat)
    requires i < |id|
    ensures OfferKeys.Reduced(id)[i] == if IsWord(id[i]) || id[i] == '.' || id[i] == '-' then id[i] else '_'
  {
  }

  /** A letter of the alphabet, a digit or an underscore. */
  predicate IsWord(c: char) {
    var n := c as int;
    0x30 <= n <= 0x39 || 0x41 <= n <= 0x5a || n == 0x5f || 0x61 <= n <= 0x7a
  }
}
