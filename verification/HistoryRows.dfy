/** What a history row holds of a reading, and what any row is read back as. */
module HistoryRows {
  import opened Basics
  import opened Codec
  import opened CodecHalves
  import opened History

  // --- the payload's position ---

  /** The payload a provenance names stands there first among its poll's. */
  predicate StandsAt(p: Rec, hashes: seq<string>, i: nat) {
    && i < |hashes| && RawRef in p && p[RawRef].Obj?
    && Holds(p[RawRef].fields, Hash, hashes[i]) && hashes[i] !in hashes[..i]
  }

  lemma {:induction false} IndexExactly(hashes: seq<string>, hash: string, i: nat)
    ensures IndexOf(hashes, hash) == Some(i) <==> i < |hashes| && hashes[i] == hash && hash !in hashes[..i]
  {
    if hashes != [] && hashes[0] != hash && i > 0 {
      IndexExactly(hashes[1..], hash, i - 1);
      if i < |hashes| { assert hashes[..i] == [hashes[0]] + hashes[1..][..i - 1]; }
    } else if hashes != [] && hashes[0] == hash && i > 0 && i < |hashes| {
      assert hashes[..i][0] == hash;
    }
  }

  /** A payload's position is where it stands first, and none exactly if it stands nowhere. */
  lemma {:induction false} PositionExactly(p: Rec, poll: Poll, i: nat)
    ensures RawPartOf(p, poll) == Some(i) <==> StandsAt(p, poll.payloadHashes.GetOr([]), i)
  {
    if RawRef in p && TextOf(FieldsOf(p, RawRef), Hash).Some? {
      IndexExactly(poll.payloadHashes.GetOr([]), TextOf(FieldsOf(p, RawRef), Hash).value, i);
    }
    hide IndexOf;
  }

  /** A payload reference is kept whole if its position does not say it all. */
  lemma {:induction false} WholeExactly(p: Rec, poll: Poll)
    ensures KeptWhole(p, poll) <==>
      && RawRef in p
      && ((p[RawRef].Obj? && (Part in p[RawRef].fields || Pointer in p[RawRef].fields))
          || forall i: nat :: !StandsAt(p, poll.payloadHashes.GetOr([]), i))
  {
    forall i: nat ensures RawPartOf(p, poll) == Some(i) <==> StandsAt(p, poll.payloadHashes.GetOr([]), i) { PositionExactly(p, poll, i); }
    hide RawPartOf, StandsAt;
    if RawPartOf(p, poll).Some? {
      assert StandsAt(p, poll.payloadHashes.GetOr([]), RawPartOf(p, poll).value);
    }
  }

  // --- the columns ---

  /** The field as it is, null where it is not there. */
  function Given(r: Rec, key: Name): Json { if key in r then r[key] else Null }

  function Objects(r: Rec, key: Name): Rec { if key in r && r[key].Obj? then r[key].fields else map[] }

  /** Each column of a row is the reading's field of that name; the poll and the payload's
      position are there only together with one another and a poll that is known. */
  lemma {:induction false} ColumnsHold(record: Rec, spec: ResultSpec, poll: Poll)
    ensures var (row, time) := (HistoryRowOf(record, spec, poll), Objects(record, PhenomenonTime));
      && row.phenomenonStart == (if Given(time, Instant) != Null then time[Instant] else Given(time, Start))
      && row.phenomenonEnd == Given(time, End)
      && row.issuedAt == (var at := Given(Objects(record, Forecast), IssuedAt); if at == Null then Str("-infinity") else at)
      && row.resultTime == Given(record, ResultTime) && row.validUntil == Given(record, ValidUntil)
      && row.fetchedAt == Given(Objects(record, Freshness), FetchedAt) && row.recordedAt == Given(record, RecordedAt)
      && row.temporality == Given(record, Temporality) && row.aggregation == Given(record, Aggregation)
      && row.quality == Given(record, Quality) && row.baseline == Given(record, Baseline)
      && row.capturedProvenance == None
  {
    hide EncodeResult, ExtraOf, RawPartOf;
  }

  lemma {:induction false} PositionHeld(record: Rec, spec: ResultSpec, poll: Poll, i: nat)
    ensures var (row, stands) := (HistoryRowOf(record, spec, poll), StandsAt(Objects(record, Provenance), poll.payloadHashes.GetOr([]), i));
      && (row.rawPart == Some(i) <==> stands && poll.fetchId.Some?)
      && (stands ==> row.fetchId == poll.fetchId)
      && (row.fetchId.Some? ==> row.rawPart.Some? && row.fetchId == poll.fetchId)
  {
    PositionExactly(ProvenanceOf(record), poll, i);
    hide EncodeResult, ExtraOf, RawPartOf, StandsAt;
  }

  predicate IsCredit(key: Name) { key == Attribution || key == MergedSources }

  lemma {:induction false} FieldPlus(a: Rec, b: Rec, key: Name)
    ensures Field(a + b, key) == if key in b then Field(b, key) else Field(a, key)
  {
  }

  lemma {:induction false} FieldOnly(r: Rec, names: set<Name>, key: Name)
    ensures Field(Only(r, names), key) == if key in names then Field(r, key) else None
  {
  }

  /** The provenance a row keeps of its own: credit, what varies, and a payload reference kept whole. */
  lemma {:induction false} RowCreditHolds(p: Rec, poll: Poll, key: Name)
    ensures Field(RowProvenance(p, poll), key) ==
      if key == Upstream then Some(if Given(p, Upstream) == Null then Arr([]) else p[Upstream])
      else if key == RawRef then (if KeptWhole(p, poll) then Field(p, key) else None)
      else if IsCredit(key) || Varies(p, key) then Field(p, key) else None
  {
    VariesExactly(p);
    CreditNames(p, key);
    var varying := (VaryingOf(p) - {RawRef}) + if KeptWhole(p, poll) then {RawRef} else {};
    var upstream := if ValueOf(p, Upstream).Null? then Arr([]) else p[Upstream];
    FieldOnly(p, CREDIT, key);
    FieldOnly(p, varying, key);
    FieldPut(Only(p, CREDIT), Upstream, upstream, key);
    FieldPlus(Only(p, CREDIT)[Upstream := upstream], Only(p, varying), key);
    assert key in Only(p, varying) <==> Field(Only(p, varying), key).Some?;
    assert RowProvenance(p, poll) == Only(p, CREDIT)[Upstream := upstream] + Only(p, varying);
    hide KeptWhole, VaryingOf, Only, IsCredit, Varies, RowProvenance;
  }

  lemma {:induction false} CreditNames(p: Rec, key: Name)
    ensures key in CREDIT <==> IsCredit(key) || key == Upstream
    ensures !Varies(p, Upstream) && !IsCredit(RawRef)
    ensures Varies(p, key) ==> !IsCredit(key)
  {
  }

  predicate IsCarried(key: Name) { key == ExternalIds || key == Relations || key == Extras }

  lemma {:induction false} CarriedNames(key: Name)
    ensures key in CARRIED <==> IsCarried(key)
    ensures !IsCarried(Provenance) && !IsCarried(Forecast) && !IsCarried(Freshness)
  {
  }

  lemma {:induction false} ExtraIs(record: Rec, poll: Poll)
    ensures var more := Objects(record, Freshness) - {FetchedAt};
      ExtraOf(record, poll) ==
        Only(record, CARRIED)[Provenance := Obj(RowProvenance(Objects(record, Provenance), poll))]
        + (if Forecast in record && record[Forecast].Obj? then map[Forecast := record[Forecast]] else map[])
        + (if more == map[] then map[] else map[Freshness := Obj(more)])
  {
    hide RowProvenance, Only;
    assert Objects(record, Freshness) == FieldsOf(record, Freshness) && Objects(record, Provenance) == ProvenanceOf(record);
  }

  lemma {:induction false} MaybePlus(a: Rec, key: Name, v: Option<Json>, k: Name)
    ensures Field(a + if v.Some? then map[key := v.value] else map[], k) == if k == key && v.Some? then v else Field(a, k)
  {
  }

  /** And of the reading besides its columns: ids elsewhere, relations, extras, a forecast, and what
      its freshness says besides the fetch. */
  lemma {:induction false} ExtraHolds(record: Rec, poll: Poll, key: Name)
    ensures var more := Objects(record, Freshness) - {FetchedAt};
      Field(ExtraOf(record, poll), key) ==
        if key == Provenance then Some(Obj(RowProvenance(Objects(record, Provenance), poll)))
        else if key == Freshness then (if more == map[] then None else Some(Obj(more)))
        else if key == Forecast then (if key in record && record[key].Obj? then Some(record[key]) else None)
        else if IsCarried(key) then Field(record, key) else None
  {
    hide *;
    CarriedNames(key);
    ExtraIs(record, poll);
    var own := Obj(RowProvenance(Objects(record, Provenance), poll));
    var more := Objects(record, Freshness) - {FetchedAt};
    var carried := Only(record, CARRIED)[Provenance := own];
    var forecast := if Forecast in record && record[Forecast].Obj? then Some(record[Forecast]) else None;
    var late := if more == map[] then None else Some(Obj(more));
    FieldOnly(record, CARRIED, key);
    FieldPut(Only(record, CARRIED), Provenance, own, key);
    MaybePlus(carried, Forecast, forecast, key);
    MaybePlus(carried + (if forecast.Some? then map[Forecast := forecast.value] else map[]), Freshness, late, key);
  }

  // --- any row, read back ---

  /** Whatever the row, provenance read back holds no receipt id and no empty upstream; its attribution
      is the receipt's, else the row's own, else that of an unknown publisher. */
  lemma {:induction false} CreditRead(shared: Rec, own: Rec, receipt: Option<Rec>, rawPart: Option<nat>, hashes: seq<string>)
    ensures var (p, stated) := (RebuiltProvenance(shared, own, receipt, rawPart, hashes), receipt.GetOr(own));
      && CreditReceiptId !in p && (Upstream in p ==> p[Upstream] != Arr([]))
      && Attribution in p
      && p[Attribution] == (if Given(stated, Attribution) != Null then stated[Attribution]
                            else Obj(map[Provider := Str("Unknown publisher"), License := Str("NOASSERTION")]))
  {
  }

  /** A record sealed: its id is derived from all but the three names, its canonical id from the two
      parts of that, and its hash from everything but itself. */
  lemma {:induction false} SealedSays(seal: Sealing, namespace: string, body: Rec, cls: string, space: string, localId: string)
    requires ContentHash !in body
    requires IsClass(cls) && NamesSpace(space) && NamesLocally(localId)
    requires seal.idOf(namespace, body) == IdText(cls, space, localId)
    ensures var r := SealedIf(seal, namespace, body);
      && r.Ok?
      && r.value - {Id, CanonicalId, ContentHash} == body - {Id, CanonicalId}
      && Holds(r.value, Id, IdText(cls, space, localId))
      && Holds(r.value, CanonicalId, seal.canonical(namespace, localId))
      && Holds(r.value, ContentHash, seal.hashOf(r.value - {ContentHash}))
  {
    ParsedExactly(IdText(cls, space, localId), cls, space, localId);
    hide ParseRecordId, IdText, IsClass, NamesSpace, NamesLocally;
    var r := SealedIf(seal, namespace, body).value;
    var named := body[Id := Str(seal.idOf(namespace, body))][CanonicalId := Str(seal.canonical(namespace, localId))];
    assert r == named[ContentHash := Str(seal.hashOf(named))];
    assert r - {ContentHash} == named;
  }

  /** No record is read back under an id that is none. */
  lemma {:induction false} UnsealedExactly(seal: Sealing, namespace: string, body: Rec)
    ensures SealedIf(seal, namespace, body).Err? <==>
      forall cls, space, localId :: IsClass(cls) && NamesSpace(space) && NamesLocally(localId) ==> seal.idOf(namespace, body) != IdText(cls, space, localId)
  {
    var id := seal.idOf(namespace, body);
    if ParseRecordId(id).Some? {
      ParsedIsWritten(id);
    } else {
      forall cls, space, localId | IsClass(cls) && NamesSpace(space) && NamesLocally(localId) ensures id != IdText(cls, space, localId) {
        ParsedExactly(id, cls, space, localId);
      }
    }
    hide ParseRecordId, IdText, IsClass, NamesSpace, NamesLocally, Sealed;
  }
}
