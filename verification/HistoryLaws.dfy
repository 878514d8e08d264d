/** A history row gives back the observation it was written from, except in one
    case it gives it back without its payload reference; and whom it credits does
    not depend on the series it is read with. */
module HistoryLaws {
  import opened Basics
  import opened Codec
  import opened History

  lemma {:induction false} IndexFinds(hashes: seq<string>, hash: string)
    ensures IndexOf(hashes, hash).Some? ==> IndexOf(hashes, hash).value < |hashes| && hashes[IndexOf(hashes, hash).value] == hash
  {
    if hashes != [] { IndexFinds(hashes[1..], hash); }
  }

  // --- provenance ---

  /** A provenance as records carry it: someone credited, upstream publishers only
      if there are any, and a payload reference of its own three fields. */
  ghost predicate Credited(p: Rec) {
    && !ValueOf(p, Attribution).Null?
    && CreditReceiptId !in p
    && (Upstream in p ==> IsFilled(p[Upstream]))
    && (RawRef in p ==> p[RawRef].Obj? && TextOf(p[RawRef].fields, Hash).Some?
                          && p[RawRef].fields.Keys <= {Hash, Part, Pointer})
  }

  /** The payload is one of the poll's, named by its hash alone, and the poll has no id to keep its position under. */
  predicate LosesPayload(p: Rec, poll: Poll) {
    RawRef in p && !KeptWhole(p, poll) && poll.fetchId.None?
  }

  function RowRawPart(p: Rec, poll: Poll): Option<nat> {
    if RawPartOf(p, poll).Some? && poll.fetchId.Some? then RawPartOf(p, poll) else None
  }

  lemma {:induction false} PayloadReturns(p: Rec, poll: Poll)
    requires Credited(p) && RawRef in p && !KeptWhole(p, poll)
    ensures RawPartOf(p, poll).Some? && RawPartOf(p, poll).value < |poll.payloadHashes.GetOr([])|
    ensures p[RawRef] == Obj(map[Hash := Str(poll.payloadHashes.GetOr([])[RawPartOf(p, poll).value])])
  {
    var ref := p[RawRef].fields;
    IndexFinds(poll.payloadHashes.GetOr([]), TextOf(ref, Hash).value);
    assert ref == map[Hash := ref[Hash]];
  }

  /** A row that states its own credit overrides nothing of it. */
  lemma {:induction false} OwnCreditStands(shared: Rec, own: Rec)
    requires !ValueOf(own, Attribution).Null?
    ensures (shared - CREDIT) + own + CapturedCredit(own, None) == (shared - CREDIT) + own
  {
  }

  lemma {:induction false} SharesBeforeTrimming(p: Rec, poll: Poll)
    requires Credited(p)
    ensures ((p - VaryingOf(p)) - CREDIT) + RowProvenance(p, poll)
         == (if KeptWhole(p, poll) then p else p - {RawRef})[Upstream := if Upstream in p then p[Upstream] else Arr([])]
  {
  }

  lemma {:induction false} SharesAddUp(p: Rec, poll: Poll)
    requires Credited(p)
    ensures Trimmed(((p - VaryingOf(p)) - CREDIT) + RowProvenance(p, poll)) == if KeptWhole(p, poll) then p else p - {RawRef}
  {
    SharesBeforeTrimming(p, poll);
    hide KeptWhole, RowProvenance, VaryingOf;
    var expected := if KeptWhole(p, poll) then p else p - {RawRef};
    if Upstream in p {
      assert expected[Upstream := p[Upstream]] == expected;
      assert expected - {CreditReceiptId} == expected;
    } else {
      assert expected[Upstream := Arr([])] - {CreditReceiptId, Upstream} == expected;
    }
  }

  lemma {:induction false} RebuiltFrom(shared: Rec, own: Rec, trimmed: Rec, rawPart: Option<nat>, hashes: seq<string>)
    requires !ValueOf(own, Attribution).Null?
    requires Trimmed((shared - CREDIT) + own) == trimmed
    ensures RebuiltProvenance(shared, own, None, rawPart, hashes)
         == if rawPart.None? || RawRef in trimmed then trimmed
            else trimmed[RawRef := Obj(if rawPart.value < |hashes| then map[Hash := Str(hashes[rawPart.value])] else map[])]
  {
    OwnCreditStands(shared, own);
    hide CapturedCredit, Trimmed;
  }

  lemma {:induction false} RowStatesCredit(p: Rec, poll: Poll)
    requires Credited(p)
    ensures !ValueOf(RowProvenance(p, poll), Attribution).Null?
  {
  }

  /** What the rebuilt provenance is before the payload reference is put back. */
  lemma {:induction false} CreditReturns(p: Rec, poll: Poll, rawPart: Option<nat>, hashes: seq<string>)
    requires Credited(p)
    ensures RebuiltProvenance(p - VaryingOf(p), RowProvenance(p, poll), None, rawPart, hashes)
         == if KeptWhole(p, poll) then p
            else if rawPart.None? then p - {RawRef}
            else p[RawRef := Obj(if rawPart.value < |hashes| then map[Hash := Str(hashes[rawPart.value])] else map[])]
  {
    hide *;
    RowStatesCredit(p, poll);
    KeptWholeIsThere(p, poll);
    SharesAddUp(p, poll);
    RebuiltFrom(p - VaryingOf(p), RowProvenance(p, poll), if KeptWhole(p, poll) then p else p - {RawRef}, rawPart, hashes);
    if rawPart.Some? {
      var ref := Obj(if rawPart.value < |hashes| then map[Hash := Str(hashes[rawPart.value])] else map[]);
      assert (p - {RawRef})[RawRef := ref] == p[RawRef := ref];
    }
  }

  lemma {:induction false} KeptWholeIsThere(p: Rec, poll: Poll)
    ensures KeptWhole(p, poll) ==> RawRef in p
  {
  }

  lemma {:induction false} ProvenanceReturnsExactly(p: Rec, poll: Poll)
    requires Credited(p)
    ensures RebuiltProvenance(p - VaryingOf(p), RowProvenance(p, poll), None, RowRawPart(p, poll), poll.payloadHashes.GetOr([])) == p
       <==> !LosesPayload(p, poll)
  {
    CreditReturns(p, poll, RowRawPart(p, poll), poll.payloadHashes.GetOr([]));
    if RawRef in p && !KeptWhole(p, poll) {
      PayloadReturns(p, poll);
      assert p[RawRef := p[RawRef]] == p;
    } else if RawRef !in p {
      assert RawPartOf(p, poll).None? && p - {RawRef} == p;
    }
    hide RebuiltProvenance;
  }

  /** The credit rebuilt, whatever becomes of the payload reference. */
  lemma {:induction false} RebuiltKeepsCredit(shared: Rec, own: Rec, receipt: Option<Rec>, rawPart: Option<nat>, hashes: seq<string>)
    ensures Only(RebuiltProvenance(shared, own, receipt, rawPart, hashes), CREDIT)
         == Only(Trimmed((shared - CREDIT) + own + CapturedCredit(own, receipt)), CREDIT)
  {
    hide CapturedCredit, Trimmed;
  }

  lemma {:induction false} OwnCreditWins(shared1: Rec, shared2: Rec, own: Rec, credit: Rec)
    ensures Only((shared1 - CREDIT) + own + credit, CREDIT) == Only((shared2 - CREDIT) + own + credit, CREDIT)
  {
  }

  lemma {:induction false} RowOwnsProvenance(shared1: Rec, shared2: Rec, row: Row, hashes1: seq<string>, hashes2: seq<string>)
    ensures var own := FieldsOf(row.extra, Provenance);
      var p1 := RebuiltProvenance(shared1, own, row.capturedProvenance, row.rawPart, hashes1);
      var p2 := RebuiltProvenance(shared2, own, row.capturedProvenance, row.rawPart, hashes2);
      Only(p1, CREDIT) == Only(p2, CREDIT)
  {
    var own, receipt := FieldsOf(row.extra, Provenance), row.capturedProvenance;
    var w1 := (shared1 - CREDIT) + own + CapturedCredit(own, receipt);
    var w2 := (shared2 - CREDIT) + own + CapturedCredit(own, receipt);
    hide *;
    OwnCreditWins(shared1, shared2, own, CapturedCredit(own, receipt));
    TrimmedCredit(w1, w2);
    RebuiltKeepsCredit(shared1, own, receipt, row.rawPart, hashes1);
    RebuiltKeepsCredit(shared2, own, receipt, row.rawPart, hashes2);
  }

  lemma {:induction false} RebuiltCredit(seal: Sealing, spec: Option<ResultSpec>, series: Rec, row: Row, hashes: seq<string>)
    ensures var rebuilt := RebuiltProvenance(
        FieldsOf(series, Provenance), FieldsOf(row.extra, Provenance), row.capturedProvenance, row.rawPart, hashes);
      var r := RecordFromHistory(seal, spec, series, row, hashes);
      r.Ok? ==> ProvenanceOf(r.value) == rebuilt
  {
    hide DecodeResult, RebuiltProvenance, RowFields, ParseRecordId;
  }

  /** Licensing comes from the row: whatever series, registry and payload hashes a row is
      rebuilt with, the records have the same attribution, upstream publishers and merged sources. */
  lemma {:induction false} RowOwnsItsCredit(seal1: Sealing, spec1: Option<ResultSpec>, series1: Rec, hashes1: seq<string>,
                                            seal2: Sealing, spec2: Option<ResultSpec>, series2: Rec, hashes2: seq<string>, row: Row)
    ensures var (r1, r2) := (RecordFromHistory(seal1, spec1, series1, row, hashes1), RecordFromHistory(seal2, spec2, series2, row, hashes2));
      r1.Ok? && r2.Ok? ==> Only(ProvenanceOf(r1.value), CREDIT) == Only(ProvenanceOf(r2.value), CREDIT)
  {
    hide RecordFromHistory, RebuiltProvenance, Only;
    RebuiltCredit(seal1, spec1, series1, row, hashes1);
    RebuiltCredit(seal2, spec2, series2, row, hashes2);
    RowOwnsProvenance(FieldsOf(series1, Provenance), FieldsOf(series2, Provenance), row, hashes1, hashes2);
  }

  lemma {:induction false} TrimmedCredit(w1: Rec, w2: Rec)
    requires Only(w1, CREDIT) == Only(w2, CREDIT)
    ensures Only(Trimmed(w1), CREDIT) == Only(Trimmed(w2), CREDIT)
  {
    forall k | k in CREDIT ensures (k in w1) == (k in w2) && (k in w1 ==> w1[k] == w2[k]) {
      assert (k in Only(w1, CREDIT)) == (k in w1) && (k in Only(w2, CREDIT)) == (k in w2);
    }
  }

  // --- the whole record ---

  const ROW_KEYS := {Temporality, PhenomenonTime, Aggregation, Freshness, Revision, RecordedAt, Quality, Baseline,
                     ResultTime, ValidUntil, ExternalIds, Relations, Extras, Forecast}
  const SEALS := {Id, CanonicalId, ContentHash}

  predicate IsInstant(seal: Sealing, j: Json) { !j.Null? && seal.iso(j) == j }

  /** A point in time, or a start paired with an end. */
  predicate IsTime(seal: Sealing, j: Json) {
    && j.Obj?
    && (j.fields.Keys == {Instant} || j.fields.Keys == {Start, End})
    && forall k :: k in j.fields ==> IsInstant(seal, j.fields[k])
  }

  /** The fields an observation always has, and what its optional ones may hold. */
  predicate WellFormed(record: Rec, seal: Sealing) {
    && {Temporality, PhenomenonTime, Aggregation, Freshness, Revision, RecordedAt, ResultField, Provenance} <= record.Keys
    && record.Keys <= TEMPLATE_KEYS + ROW_KEYS + SEALS + {ResultField, Provenance}
    && record[Revision] == Num(1.0) && !record[Temporality].Null? && !record[Aggregation].Null?
    && IsTime(seal, record[PhenomenonTime]) && IsInstant(seal, record[RecordedAt])
    && record[Freshness].Obj? && FetchedAt in record[Freshness].fields && IsInstant(seal, record[Freshness].fields[FetchedAt])
    && (ResultTime in record ==> IsInstant(seal, record[ResultTime]))
    && (ValidUntil in record ==> IsInstant(seal, record[ValidUntil]))
    && (Quality in record ==> !record[Quality].Null?) && (Baseline in record ==> !record[Baseline].Null?)
    && (Forecast in record ==> record[Forecast].Obj?)
    && record[ResultField].Obj? && TextOf(record[ResultField].fields, Type).Some?
    && record[Provenance].Obj?
  }

  function NamespaceOf(record: Rec): string {
    match ParseRecordId(TextOf(record, Id).GetOr("")) case Some(id) => id.namespace case None => ""
  }

  /** An observation as it was sealed: its id, a record id, its canonical id and hash derived from the rest. */
  ghost predicate IsSealed(record: Rec, seal: Sealing) {
    && TextOf(record, Id).Some? && ParseRecordId(TextOf(record, Id).value).Some?
    && record == Sealed(seal, NamespaceOf(record), record - SEALS)
  }

  lemma {:induction false} OnlyUnion(r: Rec, a: set<Name>, b: set<Name>)
    ensures Only(r, a) + Only(r, b) == Only(r, a + b)
  {
  }

  lemma {:induction false} OptionalIs(r: Rec, key: Name)
    requires key in r ==> !r[key].Null?
    ensures Optional(key, ValueOf(r, key)) == Only(r, {key})
  {
  }

  lemma {:induction false} OptionalTimeIs(seal: Sealing, r: Rec, key: Name)
    requires key in r ==> IsInstant(seal, r[key])
    ensures OptionalTime(seal, key, ValueOf(r, key)) == Only(r, {key})
  {
  }

  lemma {:induction false} ExtraCarriesFields(record: Rec, poll: Poll)
    requires Forecast in record ==> record[Forecast].Obj?
    ensures Only(ExtraOf(record, poll), CARRIED + {Forecast}) == Only(record, CARRIED + {Forecast})
  {
    hide RowProvenance, ProvenanceOf, FieldsOf;
  }

  lemma {:induction false} ExtraCarriesProvenance(record: Rec, poll: Poll)
    ensures FieldsOf(ExtraOf(record, poll), Provenance) == RowProvenance(ProvenanceOf(record), poll)
  {
    hide RowProvenance, ProvenanceOf;
    assert Provenance !in CARRIED;
  }

  lemma {:induction false} ExtraCarriesFreshness(record: Rec, poll: Poll)
    ensures FieldsOf(ExtraOf(record, poll), Freshness) == FieldsOf(record, Freshness) - {FetchedAt}
  {
    hide RowProvenance, ProvenanceOf;
    assert Freshness !in CARRIED;
  }

  lemma {:induction false} ExtraCarries(record: Rec, poll: Poll)
    requires Forecast in record ==> record[Forecast].Obj?
    ensures Only(ExtraOf(record, poll), CARRIED + {Forecast}) == Only(record, CARRIED + {Forecast})
    ensures FieldsOf(ExtraOf(record, poll), Provenance) == RowProvenance(ProvenanceOf(record), poll)
    ensures FieldsOf(ExtraOf(record, poll), Freshness) == FieldsOf(record, Freshness) - {FetchedAt}
  {
    hide *;
    ExtraCarriesFields(record, poll);
    ExtraCarriesProvenance(record, poll);
    ExtraCarriesFreshness(record, poll);
  }

  lemma {:induction false} FreshnessReturns(fields: Rec)
    requires FetchedAt in fields
    ensures map[FetchedAt := fields[FetchedAt]] + (fields - {FetchedAt}) == fields
  {
  }

  lemma {:induction false} TimeReturns(record: Rec, spec: ResultSpec, seal: Sealing, poll: Poll)
    requires WellFormed(record, seal)
    ensures TimeOf(seal, HistoryRowOf(record, spec, poll)) == record[PhenomenonTime]
  {
    hide StatesItsFields, EncodeResult, ExtraOf, RawPartOf;
    var time := record[PhenomenonTime].fields;
    if Instant in time {
      assert time == map[Instant := time[Instant]];
    } else {
      assert time == map[Start := time[Start], End := time[End]];
    }
  }

  const ALWAYS := {Temporality, PhenomenonTime, Aggregation, Freshness, Revision, RecordedAt}

  lemma {:induction false} AlwaysIs(record: Rec, seal: Sealing, row: Row)
    requires ALWAYS <= record.Keys
    requires row.temporality == record[Temporality] && row.aggregation == record[Aggregation]
    requires TimeOf(seal, row) == record[PhenomenonTime] && record[Revision] == Num(1.0)
    requires seal.iso(row.recordedAt) == record[RecordedAt]
    requires Obj(map[FetchedAt := seal.iso(row.fetchedAt)] + FieldsOf(row.extra, Freshness)) == record[Freshness]
    ensures Always(seal, row) == Only(record, ALWAYS)
  {
  }

  lemma {:induction false} AlwaysReturns(record: Rec, spec: ResultSpec, seal: Sealing, poll: Poll)
    requires WellFormed(record, seal)
    ensures Always(seal, HistoryRowOf(record, spec, poll)) == Only(record, ALWAYS)
  {
    TimeReturns(record, spec, seal, poll);
    ExtraCarries(record, poll);
    FreshnessReturns(record[Freshness].fields);
    hide StatesItsFields, EncodeResult, ExtraOf, RawPartOf, TimeOf, IsTime, Always, Only, RowProvenance;
    AlwaysIs(record, seal, HistoryRowOf(record, spec, poll));
  }

  lemma {:induction false} PartsOfRow(record: Rec)
    ensures Only(record, CARRIED + {Forecast}) + (Only(record, {Quality}) + Only(record, {Baseline})
              + Only(record, {ResultTime}) + Only(record, {ValidUntil})) + Only(record, ALWAYS) == Only(record, ROW_KEYS)
  {
  }

  lemma {:induction false} RowFieldsReturn(record: Rec, spec: ResultSpec, seal: Sealing, poll: Poll)
    requires WellFormed(record, seal)
    ensures RowFields(seal, HistoryRowOf(record, spec, poll)) == Only(record, ROW_KEYS)
  {
    ExtraCarries(record, poll);
    OptionalIs(record, Quality);
    OptionalIs(record, Baseline);
    OptionalTimeIs(seal, record, ResultTime);
    OptionalTimeIs(seal, record, ValidUntil);
    AlwaysReturns(record, spec, seal, poll);
    PartsOfRow(record);
    hide StatesItsFields, EncodeResult, ExtraOf, RawPartOf, TimeOf, IsTime, Only, Optional, OptionalTime, WellFormed, Always, RowProvenance;
  }

  lemma {:induction false} RebuiltLacksRecordId(shared: Rec, own: Rec, rawPart: Option<nat>, hashes: seq<string>)
    requires RecordId !in shared && RecordId !in own
    ensures RecordId !in RebuiltProvenance(shared, own, None, rawPart, hashes)
  {
  }

  /** A fused record's own id stands neither in its template nor in its row. */
  lemma {:induction false} FusedSharesLackRecordId(record: Rec, canonical: CanonicalIds, poll: Poll)
    requires IsCompactFusion(record, canonical)
    ensures RecordId in ProvenanceOf(record)
    ensures RecordId !in FieldsOf(TemplateOf(record, canonical), Provenance) && RecordId !in RowProvenance(ProvenanceOf(record), poll)
  {
    assert VaryingOf(ProvenanceOf(record)) == VARYING;
    hide RegularId, Pairs, Stripped, ParseRecordId;
  }

  /** A fused record is read back without its record id, whatever it is read with. */
  lemma {:induction false} FusedLosesItsRecordId(record: Rec, spec: ResultSpec, seal: Sealing, poll: Poll, hashes: seq<string>)
    requires IsCompactFusion(record, seal.canonical) && (Forecast in record ==> record[Forecast].Obj?)
    ensures var r := RecordFromHistory(seal, Some(spec), TemplateOf(record, seal.canonical), HistoryRowOf(record, spec, poll), hashes);
      RecordId in ProvenanceOf(record) && (r.Ok? ==> RecordId !in ProvenanceOf(r.value))
  {
    var series, row := TemplateOf(record, seal.canonical), HistoryRowOf(record, spec, poll);
    hide RecordFromHistory, TemplateOf, RowProvenance, ExtraOf, IsCompactFusion, RebuiltProvenance, EncodeResult, RawPartOf;
    FusedSharesLackRecordId(record, seal.canonical, poll);
    ExtraCarries(record, poll);
    RebuiltLacksRecordId(FieldsOf(series, Provenance), FieldsOf(row.extra, Provenance), row.rawPart, hashes);
    RebuiltCredit(seal, Some(spec), series, row, hashes);
  }

  /** A row read with the template of its own record, and its poll's payload hashes,
      gives the record back exactly if that is no fused one, its result states its fields
      and its payload's position could be kept. */
  lemma {:induction false} RecordReturnsExactly(record: Rec, spec: ResultSpec, seal: Sealing, poll: Poll)
    requires WellFormed(record, seal) && IsSealed(record, seal) && Credited(ProvenanceOf(record))
    ensures RecordFromHistory(seal, Some(spec), TemplateOf(record, seal.canonical), HistoryRowOf(record, spec, poll), poll.payloadHashes.GetOr([]))
              == Ok(record)
       <==> !IsCompactFusion(record, seal.canonical) && StatesItsFields(record[ResultField].fields, spec)
            && !LosesPayload(ProvenanceOf(record), poll)
  {
    if IsCompactFusion(record, seal.canonical) {
      FusedLosesItsRecordId(record, spec, seal, poll, poll.payloadHashes.GetOr([]));
    } else {
      RegularReturnsExactly(record, spec, seal, poll);
    }
    hide *;
  }

  lemma {:induction false} RegularReturnsExactly(record: Rec, spec: ResultSpec, seal: Sealing, poll: Poll)
    requires WellFormed(record, seal) && IsSealed(record, seal) && Credited(ProvenanceOf(record))
    requires !IsCompactFusion(record, seal.canonical)
    ensures RecordFromHistory(seal, Some(spec), TemplateOf(record, seal.canonical), HistoryRowOf(record, spec, poll), poll.payloadHashes.GetOr([]))
              == Ok(record)
       <==> StatesItsFields(record[ResultField].fields, spec) && !LosesPayload(ProvenanceOf(record), poll)
  {
    var p, result := ProvenanceOf(record), record[ResultField].fields;
    var decoded := DecodeResult(EncodeResult(result, spec), spec);
    ResultReturnsExactly(result, spec);
    ProvenanceReturnsExactly(p, poll);
    hide EncodeResult, DecodeResult, StatesItsFields, LosesPayload, RebuiltProvenance, RowRawPart, RowProvenance, VaryingOf, TemplateOf,
      HistoryRowOf, RecordFromHistory, IsCompactFusion, Credited, IsTime, IsInstant, SealedIf, IsSealed;
    var rebuilt := RebuiltProvenance(p - VaryingOf(p), RowProvenance(p, poll), None, RowRawPart(p, poll), poll.payloadHashes.GetOr([]));
    RebuiltIs(record, spec, seal, poll, rebuilt, decoded);
    if decoded.Ok? {
      SealedDiffers(record, seal, decoded.value, rebuilt);
    }
  }

  /** The record rebuilt from one's own row, before it is sealed. */
  function Rebuilt(record: Rec, result: Rec, provenance: Rec): Rec {
    (record - SEALS)[ResultField := Obj(result)][Provenance := Obj(provenance)]
  }

  lemma {:induction false} SealedDiffers(record: Rec, seal: Sealing, result: Rec, rebuilt: Rec)
    requires IsSealed(record, seal) && Provenance in record && record[Provenance].Obj? && ResultField in record && record[ResultField].Obj?
    ensures SealedIf(seal, NamespaceOf(record), Rebuilt(record, result, rebuilt)) == Ok(record)
       <==> result == record[ResultField].fields && rebuilt == ProvenanceOf(record)
  {
    hide ParseRecordId, NamespaceOf;
    var body := Rebuilt(record, result, rebuilt);
    if result == record[ResultField].fields && rebuilt == ProvenanceOf(record) {
      assert body == record - SEALS;
    } else {
      var sealed_ := Sealed(seal, NamespaceOf(record), body);
      assert sealed_[Provenance] == Obj(rebuilt) && sealed_[ResultField] == Obj(result);
    }
  }

  lemma {:induction false} TemplateParts(record: Rec, canonical: CanonicalIds)
    requires !IsCompactFusion(record, canonical) && TextOf(record, Id).Some?
    ensures var template := TemplateOf(record, canonical);
      && FieldsOf(template, Provenance) == ProvenanceOf(record) - VaryingOf(ProvenanceOf(record))
      && (ParseRecordId(TextOf(record, Id).value).Some? ==> TextOf(template, Namespace) == Some(NamespaceOf(record)))
      && template - {Namespace, Provenance} == Only(record, TEMPLATE_KEYS)
  {
  }

  lemma {:induction false} PartsMakeRecord(record: Rec, seal: Sealing, template: Rec, result: Rec, rebuilt: Rec)
    requires WellFormed(record, seal)
    requires template - {Namespace, Provenance} == Only(record, TEMPLATE_KEYS)
    ensures (template - {Namespace}) + Only(record, ROW_KEYS) + map[ResultField := Obj(result), Provenance := Obj(rebuilt)]
         == Rebuilt(record, result, rebuilt)
  {
    var last := map[ResultField := Obj(result), Provenance := Obj(rebuilt)];
    OverwritesProvenance(template, Only(record, ROW_KEYS), last);
    OnlyUnion(record, TEMPLATE_KEYS, ROW_KEYS);
    KeysMakeRecord(record, last);
  }

  lemma {:induction false} OverwritesProvenance(template: Rec, middle: Rec, last: Rec)
    requires Provenance in last
    ensures (template - {Namespace}) + middle + last == (template - {Namespace, Provenance}) + middle + last
  {
  }

  lemma {:induction false} KeysMakeRecord(record: Rec, last: Rec)
    requires record.Keys <= TEMPLATE_KEYS + ROW_KEYS + SEALS + {ResultField, Provenance} && ResultField in record
    requires last.Keys == {ResultField, Provenance}
    ensures Only(record, TEMPLATE_KEYS + ROW_KEYS) + last == (record - SEALS)[ResultField := last[ResultField]][Provenance := last[Provenance]]
  {
    KeysApart();
    KnownKeysMakeRecord(record, last, TEMPLATE_KEYS + ROW_KEYS, SEALS);
  }

  lemma {:induction false} KeysApart()
    ensures TEMPLATE_KEYS + ROW_KEYS !! SEALS + {ResultField, Provenance} && SEALS !! {ResultField, Provenance}
  {
  }

  lemma {:induction false} KnownKeysMakeRecord(record: Rec, last: Rec, known: set<Name>, seals: set<Name>)
    requires record.Keys <= known + seals + {ResultField, Provenance} && ResultField in record
    requires known !! seals + {ResultField, Provenance} && seals !! {ResultField, Provenance}
    requires last.Keys == {ResultField, Provenance}
    ensures Only(record, known) + last == (record - seals)[ResultField := last[ResultField]][Provenance := last[Provenance]]
  {
    var made := Only(record, known) + last;
    var whole := (record - seals)[ResultField := last[ResultField]][Provenance := last[Provenance]];
    assert made.Keys == whole.Keys;
    assert forall k :: k in made.Keys ==> made[k] == whole[k];
  }

  lemma {:induction false} RebuiltIs(record: Rec, spec: ResultSpec, seal: Sealing, poll: Poll, rebuilt: Rec, decoded: Result<Rec, HistoryError>)
    requires WellFormed(record, seal) && !IsCompactFusion(record, seal.canonical)
    requires TextOf(record, Id).Some? && ParseRecordId(TextOf(record, Id).value).Some?
    requires var p := ProvenanceOf(record);
      rebuilt == RebuiltProvenance(p - VaryingOf(p), RowProvenance(p, poll), None, RowRawPart(p, poll), poll.payloadHashes.GetOr([]))
    requires decoded == DecodeResult(EncodeResult(record[ResultField].fields, spec), spec)
    ensures var r := RecordFromHistory(seal, Some(spec), TemplateOf(record, seal.canonical), HistoryRowOf(record, spec, poll), poll.payloadHashes.GetOr([]));
      match decoded
      case Err(e) => r == Err(e)
      case Ok(result) => r == SealedIf(seal, NamespaceOf(record), Rebuilt(record, result, rebuilt))
  {
    RowFieldsReturn(record, spec, seal, poll);
    ExtraCarries(record, poll);
    TemplateParts(record, seal.canonical);
    if decoded.Ok? {
      PartsMakeRecord(record, seal, TemplateOf(record, seal.canonical), decoded.value, rebuilt);
    }
    hide TemplateOf, ExtraOf, SealedIf, RowFields, RebuiltProvenance, EncodeResult, DecodeResult, RawPartOf, IsTime, IsInstant, Rebuilt,
      RowProvenance, VaryingOf, IsCompactFusion, ParseRecordId, NamespaceOf, Only;
  }
}
