/** An observation split into a template its series shares and a reading of its
    own, and put together again. A record is a finite map of JSON values; a key
    whose value is undefined counts as absent. The hash behind canonical ids is
    left abstract. */
module Codec {
  import opened Basics

  /** The name of a field: one the codec names, or any other. */
  datatype Name =
    | Id | CanonicalId | ContentHash | Class | Kind | Property | Domain | Subject | Qualifiers | Location
    | Revision | Temporality | Aggregation | PhenomenonTime | ResultTime | ValidUntil | RecordedAt | ResultField
    | Quality | Baseline | Forecast | ExternalIds | Relations | Extras | Provenance | Freshness
    | Origin | SourceId | RecordId | Reporter | RawRef | SourceUpdatedAt | RecordVersion
    | Attribution | Upstream | MergedSources | DerivedFrom | CreditReceiptId
    | Method | Records | Hash | Part | Pointer | FetchedAt | IssuedAt | Instant | Start | End
    | Type | Value | Unit | Vocabulary | Amount | Provider | License
    | Namespace | FusionLineage | Other(text: string)

  datatype Json = Null | Bool(b: bool) | Num(n: real) | Str(s: string) | Arr(items: seq<Json>) | Obj(fields: map<Name, Json>)

  type Rec = map<Name, Json>
  type CanonicalIds = (string, string) -> string

  function FieldsOf(record: Rec, key: Name): Rec {
    if key in record && record[key].Obj? then record[key].fields else map[]
  }

  function TextOf(record: Rec, key: Name): Option<string> {
    if key in record && record[key].Str? then Some(record[key].s) else None
  }

  function ProvenanceOf(record: Rec): Rec { FieldsOf(record, Provenance) }

  // --- record ids ---

  datatype ParsedId = ParsedId(cls: string, namespace: string, localId: string)

  /** `s` split at its first colon. */
  function Cut(s: string): (r: Option<(string, string)>)
    ensures r.Some? ==> s == r.value.0 + ":" + r.value.1
  {
    if s == "" then None
    else if s[0] == ':' then Some(("", s[1..]))
    else match Cut(s[1..])
      case None => None
      case Some((a, b)) => assert s == [s[0]] + s[1..]; Some(([s[0]] + a, b))
  }

  const CLASSES := ["feature", "situation", "observation", "offer"]

  predicate IsLowerOrDigit(c: char) { 'a' <= c <= 'z' || '0' <= c <= '9' }

  predicate IsNamespace(s: string) {
    && s != "" && IsLowerOrDigit(s[0]) && IsLowerOrDigit(s[|s| - 1])
    && forall i :: 0 <= i < |s| ==> IsLowerOrDigit(s[i]) || s[i] == '.' || s[i] == '-'
  }

  predicate IsLineBreak(c: char) { c == '\n' || c == '\r' || c as int == 0x2028 || c as int == 0x2029 }

  function ParseRecordId(id: string): Option<ParsedId> {
    match Cut(id)
    case None => None
    case Some((oc, rest)) =>
      match Cut(rest)
      case None => None
      case Some((cls, tail)) =>
        match Cut(tail)
        case None => None
        case Some((namespace, localId)) =>
          if oc == "oc" && cls in CLASSES && IsNamespace(namespace) && localId != "" && !(exists c :: c in localId && IsLineBreak(c))
          then Some(ParsedId(cls, namespace, localId)) else None
  }

  function FormatRecordId(cls: string, namespace: string, localId: string): string {
    "oc" + ":" + cls + ":" + namespace + ":" + localId
  }

  lemma {:induction false} ParsedIsFormatted(id: string)
    requires ParseRecordId(id).Some?
    ensures var p := ParseRecordId(id).value; id == FormatRecordId(p.cls, p.namespace, p.localId)
  {
  }

  /** A hash in lower-case hexadecimal: what a regular observation's local id is. */
  predicate IsLocalHash(s: string) {
    |s| == 64 && forall i :: 0 <= i < |s| ==> '0' <= s[i] <= '9' || 'a' <= s[i] <= 'f'
  }

  // --- what varies ---

  const VARYING := {RawRef, SourceUpdatedAt, RecordVersion}

  function VaryingOf(provenance: Rec): set<Name> {
    if TextOf(provenance, Origin) == Some("crowd") then VARYING + {Reporter, RecordId} else VARYING
  }

  const TEMPLATE_KEYS := {Class, Kind, Property, Domain, Subject, Qualifiers, Location, Revision, Temporality, Aggregation}

  predicate IsFusedSourceId(s: string) { s == "@fused" || s == "@fused-public" }

  /** A regular observation id: its parts, when the canonical id is the one derived from them. */
  function RegularId(record: Rec, canonical: CanonicalIds): Option<ParsedId> {
    var text := TextOf(record, Id);
    if text.None? then None
    else match ParseRecordId(text.value)
      case None => None
      case Some(id) =>
        if id.cls == "observation" && IsLocalHash(id.localId) && TextOf(record, CanonicalId) == Some(canonical(id.namespace, id.localId))
        then Some(id) else None
  }

  function ReferenceTo(id: string): Json { Obj(map[Class := Str("observation"), Id := Str(id)]) }

  /** One source of a fusion and its lineage reference name the same record. */
  predicate Pairs(source: Json, ref: Json) {
    source.Obj? && TextOf(source.fields, RecordId).Some? && ref == ReferenceTo(TextOf(source.fields, RecordId).value)
  }

  function RecordIds(merged: seq<Json>): seq<string> {
    seq(|merged|, i requires 0 <= i < |merged| => if merged[i].Obj? then TextOf(merged[i].fields, RecordId).GetOr("") else "")
  }

  /** A fused record whose lineage ids can be told from one list, under its own regular id. */
  predicate IsCompactFusion(record: Rec, canonical: CanonicalIds) {
    var p := ProvenanceOf(record);
    var derivation := FieldsOf(p, DerivedFrom);
    && TextOf(p, Origin) == Some("derived")
    && TextOf(p, SourceId).Some? && IsFusedSourceId(TextOf(p, SourceId).value)
    && RegularId(record, canonical).Some? && TextOf(p, RecordId) == Some(RegularId(record, canonical).value.localId)
    && MergedSources in p && p[MergedSources].Arr? && p[MergedSources].items != []
    && TextOf(derivation, Method) == Some("fusion")
    && Records in derivation && derivation[Records].Arr?
    && |derivation[Records].items| == |p[MergedSources].items|
    && forall i :: 0 <= i < |p[MergedSources].items| ==> Pairs(p[MergedSources].items[i], derivation[Records].items[i])
  }

  function FusionRecordIds(record: Rec, canonical: CanonicalIds): Option<seq<string>> {
    if IsCompactFusion(record, canonical) then Some(RecordIds(ProvenanceOf(record)[MergedSources].items)) else None
  }

  method FindFusionRecordIds(record: Rec, canonical: CanonicalIds) returns (lineage: Option<seq<string>>)
    ensures lineage == FusionRecordIds(record, canonical)
  {
    var p := ProvenanceOf(record);
    if TextOf(p, Origin) != Some("derived") || TextOf(p, SourceId).None? || !IsFusedSourceId(TextOf(p, SourceId).value) {
      return None;
    }
    var id := RegularId(record, canonical);
    if id.None? || TextOf(p, RecordId) != Some(id.value.localId) {
      return None;
    }
    var derivation := FieldsOf(p, DerivedFrom);
    if !(MergedSources in p && p[MergedSources].Arr? && p[MergedSources].items != [])
       || TextOf(derivation, Method) != Some("fusion")
       || !(Records in derivation && derivation[Records].Arr?)
       || |derivation[Records].items| != |p[MergedSources].items| {
      return None;
    }
    var merged, refs := p[MergedSources].items, derivation[Records].items;
    var ids: seq<string> := [];
    for i := 0 to |merged|
      invariant |ids| == i && forall k :: 0 <= k < i ==> Pairs(merged[k], refs[k]) && ids[k] == RecordIds(merged)[k]
    {
      if !Pairs(merged[i], refs[i]) {
        return None;
      }
      ids := ids + [TextOf(merged[i].fields, RecordId).value];
    }
    assert ids == RecordIds(merged);
    return Some(ids);
  }

  // --- splitting ---

  function Without(source: Json, key: Name): Json {
    if source.Obj? then Obj(source.fields - {key}) else source
  }

  function Stripped(merged: seq<Json>): seq<Json> {
    seq(|merged|, i requires 0 <= i < |merged| => Without(merged[i], RecordId))
  }

  function TemplateProvenance(record: Rec, canonical: CanonicalIds): Rec {
    var p := ProvenanceOf(record);
    var shared := p - VaryingOf(p);
    if !IsCompactFusion(record, canonical) then shared
    else (shared - {RecordId})
         [MergedSources := Arr(Stripped(p[MergedSources].items))]
         [DerivedFrom := Obj(FieldsOf(p, DerivedFrom) - {Records})]
  }

  function Lineage(ids: seq<string>): seq<Json> {
    seq(|ids|, i requires 0 <= i < |ids| => Str(ids[i]))
  }

  function TemplateOf(record: Rec, canonical: CanonicalIds): Rec {
    var id := TextOf(record, Id);
    var parsed := if id.None? then None else ParseRecordId(id.value);
    var kept := (map k | k in TEMPLATE_KEYS * record.Keys :: record[k])[Provenance := Obj(TemplateProvenance(record, canonical))];
    if parsed.None? then kept else kept[Namespace := Str(parsed.value.namespace)]
  }

  function ReadingOf(record: Rec, canonical: CanonicalIds): Rec {
    var p := ProvenanceOf(record);
    var varying := map k | k in VaryingOf(p) * p.Keys :: p[k];
    var own := record - TEMPLATE_KEYS - {Provenance};
    var credited := if varying == map[] then own else own[Provenance := Obj(varying)];
    var id := RegularId(record, canonical);
    var compact := if id.None? then credited else (credited - {CanonicalId})[Id := Str(id.value.localId)];
    var lineage := FusionRecordIds(record, canonical);
    if lineage.None? then compact
    else compact[FusionLineage := Arr(Lineage(lineage.value))]
  }

  // --- putting together ---

  datatype CodecError = InvalidLineage | NoNamespace

  predicate LineageFits(lineage: Json, credit: Rec, localId: Option<string>) {
    && lineage.Arr? && lineage.items != [] && (forall id :: id in lineage.items ==> id.Str?)
    && MergedSources in credit && credit[MergedSources].Arr? && |credit[MergedSources].items| == |lineage.items|
    && (forall source :: source in credit[MergedSources].items ==> source.Obj?)
    && TextOf(credit, Origin) == Some("derived")
    && TextOf(credit, SourceId).Some? && IsFusedSourceId(TextOf(credit, SourceId).value)
    && TextOf(FieldsOf(credit, DerivedFrom), Method) == Some("fusion")
    && localId.Some? && IsLocalHash(localId.value)
  }

  function Restored(merged: seq<Json>, lineage: seq<Json>): seq<Json>
    requires |merged| == |lineage|
  {
    seq(|merged|, i requires 0 <= i < |merged| => if merged[i].Obj? then Obj(merged[i].fields[RecordId := lineage[i]]) else merged[i])
  }

  function References(lineage: seq<Json>): seq<Json> {
    seq(|lineage|, i requires 0 <= i < |lineage| => Obj(map[Class := Str("observation"), Id := lineage[i]]))
  }

  predicate IsCompactId(id: Option<string>) { id.Some? && IsLocalHash(id.value) }

  /** A reading's own fields with a compact id written out again. */
  function Named(own: Rec, namespace: string, canonical: CanonicalIds): Rec {
    var localId := TextOf(own, Id);
    if IsCompactId(localId)
    then own[Id := Str(FormatRecordId("observation", namespace, localId.value))][CanonicalId := Str(canonical(namespace, localId.value))]
    else own
  }

  function RecordOf(template: Rec, reading: Rec, canonical: CanonicalIds): Result<Rec, CodecError> {
    var shared := template - {Namespace, Provenance};
    var own := reading - {Provenance, FusionLineage};
    var localId := TextOf(own, Id);
    var named := Named(own, TextOf(template, Namespace).GetOr(""), canonical);
    var credit := FieldsOf(template, Provenance) + FieldsOf(reading, Provenance);
    if IsCompactId(localId) && TextOf(template, Namespace).None? then Err(NoNamespace)
    else if FusionLineage !in reading then Ok((shared + named)[Provenance := Obj(credit)])
    else
      var lineage := reading[FusionLineage];
      if !LineageFits(lineage, credit, localId) then Err(InvalidLineage)
      else
        var whole := credit
          [RecordId := Str(localId.value)]
          [MergedSources := Arr(Restored(credit[MergedSources].items, lineage.items))]
          [DerivedFrom := Obj(FieldsOf(credit, DerivedFrom)[Records := Arr(References(lineage.items))])];
        Ok((shared + named)[Provenance := Obj(whole)])
  }

  // --- the round trip ---

  /** A record the codec can keep: it has an id that is not itself a bare hash, and
      does not use the key the codec keeps the lineage under. */
  ghost predicate Storable(record: Rec) {
    && TextOf(record, Id).Some? && !IsLocalHash(TextOf(record, Id).value)
    && FusionLineage !in record
  }

  /** The provenance a plain record's template and reading share out adds up again. */
  lemma {:induction false} CreditAddsUp(record: Rec, canonical: CanonicalIds)
    requires !IsCompactFusion(record, canonical)
    ensures var p := ProvenanceOf(record);
      TemplateProvenance(record, canonical) + (map k | k in VaryingOf(p) * p.Keys :: p[k]) == p
  {
  }

  function Credit(record: Rec, canonical: CanonicalIds): Rec {
    TemplateProvenance(record, canonical) + map k | k in VaryingOf(ProvenanceOf(record)) * ProvenanceOf(record).Keys :: ProvenanceOf(record)[k]
  }

  /** A fused record's shared and varying provenance, with what the lineage brings back left out. */
  lemma {:induction false} FusionCredit(record: Rec, canonical: CanonicalIds)
    requires IsCompactFusion(record, canonical)
    ensures var p, credit := ProvenanceOf(record), Credit(record, canonical);
      && credit == (p - {RecordId})
           [MergedSources := Arr(Stripped(p[MergedSources].items))]
           [DerivedFrom := Obj(FieldsOf(p, DerivedFrom) - {Records})]
      && MergedSources in p && DerivedFrom in p && p[DerivedFrom] == Obj(FieldsOf(p, DerivedFrom))
  {
  }

  lemma {:induction false} LineageReturns(merged: seq<Json>, refs: seq<Json>)
    requires |merged| == |refs| && forall i :: 0 <= i < |merged| ==> Pairs(merged[i], refs[i])
    ensures Restored(Stripped(merged), Lineage(RecordIds(merged))) == merged
    ensures References(Lineage(RecordIds(merged))) == refs
  {
    var lineage := Lineage(RecordIds(merged));
    forall i | 0 <= i < |merged|
      ensures Restored(Stripped(merged), lineage)[i] == merged[i] && References(lineage)[i] == refs[i]
    {
      assert Pairs(merged[i], refs[i]);
      assert (merged[i].fields - {RecordId})[RecordId := lineage[i]] == merged[i].fields;
    }
  }

  lemma {:induction false} FusionAddsUp(record: Rec, canonical: CanonicalIds)
    requires IsCompactFusion(record, canonical)
    ensures var p, credit := ProvenanceOf(record), Credit(record, canonical);
      var lineage := Lineage(FusionRecordIds(record, canonical).value);
      && LineageFits(Arr(lineage), credit, Some(RegularId(record, canonical).value.localId))
      && credit[RecordId := Str(RegularId(record, canonical).value.localId)]
               [MergedSources := Arr(Restored(credit[MergedSources].items, lineage))]
               [DerivedFrom := Obj(FieldsOf(credit, DerivedFrom)[Records := Arr(References(lineage))])] == p
  {
    var p := ProvenanceOf(record);
    var merged, derivation := p[MergedSources].items, FieldsOf(p, DerivedFrom);
    FusionCredit(record, canonical);
    LineageReturns(merged, derivation[Records].items);
    StrippedAreObjects(merged, derivation[Records].items);
    hide Credit, Restored, References, Pairs, Stripped, IsFusedSourceId, RecordIds;
    assert (derivation - {Records})[Records := derivation[Records]] == derivation;
  }

  lemma {:induction false} StrippedAreObjects(merged: seq<Json>, refs: seq<Json>)
    requires |merged| == |refs| && forall i :: 0 <= i < |merged| ==> Pairs(merged[i], refs[i])
    ensures |Stripped(merged)| == |Lineage(RecordIds(merged))| == |merged|
    ensures forall source :: source in Stripped(merged) ==> source.Obj?
  {
  }

  /** A latest row gives back the record it was written from, whatever the record:
      a feed's, a crowd's or a fused one with its three copies of the lineage. */
  lemma {:induction false} RoundTrip(record: Rec, canonical: CanonicalIds)
    requires Storable(record) && Provenance in record && record[Provenance].Obj?
    ensures RecordOf(TemplateOf(record, canonical), ReadingOf(record, canonical), canonical) == Ok(record)
  {
    hide ParseRecordId, IsLocalHash, FormatRecordId, TemplateProvenance, IsFusedSourceId, Restored, References, RecordIds;
    var template, reading := TemplateOf(record, canonical), ReadingOf(record, canonical);
    var p := ProvenanceOf(record);
    assert FieldsOf(reading, Provenance) == map k | k in VaryingOf(p) * p.Keys :: p[k];
    if IsCompactFusion(record, canonical) {
      FusionAddsUp(record, canonical);
    } else {
      CreditAddsUp(record, canonical);
    }
    NamesAddUp(record, canonical);
    CompactHasNamespace(record, canonical);
  }

  /** A record's own fields come back from its reading, given its template's namespace. */
  lemma {:induction false} NameReturns(record: Rec, namespace: string, canonical: CanonicalIds)
    requires Storable(record)
    requires RegularId(record, canonical).Some? ==> namespace == RegularId(record, canonical).value.namespace
    ensures var own := ReadingOf(record, canonical) - {Provenance, FusionLineage};
      && (RegularId(record, canonical).Some? ==> TextOf(own, Id) == Some(RegularId(record, canonical).value.localId))
      && Named(own, namespace, canonical) == record - TEMPLATE_KEYS - {Provenance}
  {
    var text := TextOf(record, Id).value;
    var id := RegularId(record, canonical);
    if id.Some? { ParsedIsFormatted(text); }
    hide ParseRecordId, IsLocalHash, FormatRecordId, IsCompactFusion, VaryingOf;
    var own := ReadingOf(record, canonical) - {Provenance, FusionLineage};
    var plain := record - TEMPLATE_KEYS - {Provenance};
    if id.Some? {
      assert own == (plain - {CanonicalId})[Id := Str(id.value.localId)];
    } else {
      assert own == plain;
    }
  }

  /** Only a regular id is kept compact, and its template names its namespace. */
  lemma {:induction false} CompactHasNamespace(record: Rec, canonical: CanonicalIds)
    requires Storable(record)
    ensures var own := ReadingOf(record, canonical) - {Provenance, FusionLineage};
      IsCompactId(TextOf(own, Id)) ==> TextOf(TemplateOf(record, canonical), Namespace).Some?
  {
    hide ParseRecordId, IsLocalHash, IsCompactFusion, TemplateProvenance, FusionRecordIds;
  }

  /** What a template holds of a record besides its namespace and provenance. */
  lemma {:induction false} SharedFields(record: Rec, canonical: CanonicalIds)
    requires TextOf(record, Id).Some?
    ensures var template := TemplateOf(record, canonical);
      && template - {Namespace, Provenance} == (map k | k in TEMPLATE_KEYS * record.Keys :: record[k])
      && (RegularId(record, canonical).Some? ==> TextOf(template, Namespace) == Some(RegularId(record, canonical).value.namespace))
  {
    hide ParseRecordId, IsLocalHash, TemplateProvenance;
  }

  lemma {:induction false} FieldsAddUp(record: Rec, shared: Rec)
    requires Provenance in record && shared == map k | k in TEMPLATE_KEYS * record.Keys :: record[k]
    ensures (shared + (record - TEMPLATE_KEYS - {Provenance}))[Provenance := record[Provenance]] == record
  {
  }

  /** Everything but the provenance adds up again. */
  lemma {:induction false} NamesAddUp(record: Rec, canonical: CanonicalIds)
    requires Storable(record) && Provenance in record
    ensures var template, reading := TemplateOf(record, canonical), ReadingOf(record, canonical);
      var own := reading - {Provenance, FusionLineage};
      && (RegularId(record, canonical).Some? ==> TextOf(own, Id) == Some(RegularId(record, canonical).value.localId))
      && ((template - {Namespace, Provenance}) + Named(own, TextOf(template, Namespace).GetOr(""), canonical))
           [Provenance := record[Provenance]] == record
  {
    var namespace := TextOf(TemplateOf(record, canonical), Namespace).GetOr("");
    SharedFields(record, canonical);
    hide ParseRecordId, ReadingOf, Named, TemplateOf, IsLocalHash, Storable, IsCompactId, FormatRecordId;
    NameReturns(record, namespace, canonical);
    FieldsAddUp(record, TemplateOf(record, canonical) - {Namespace, Provenance});
  }

  /** So a reading decodes with any template equal to its own record's, and two
      records that share both are one. */
  lemma {:induction false} AnyEqualTemplateDecodes(first: Rec, second: Rec, canonical: CanonicalIds)
    requires Storable(first) && Provenance in first && first[Provenance].Obj?
    requires Storable(second) && Provenance in second && second[Provenance].Obj?
    requires TemplateOf(first, canonical) == TemplateOf(second, canonical)
    ensures RecordOf(TemplateOf(first, canonical), ReadingOf(second, canonical), canonical) == Ok(second)
    ensures ReadingOf(first, canonical) == ReadingOf(second, canonical) ==> first == second
  {
    RoundTrip(first, canonical);
    RoundTrip(second, canonical);
  }

  /** And no other record does: a bare hash is taken for a compact id, whose template
      then lacks a namespace, and the key of the lineage for a lineage. */
  lemma {:induction false} RoundTripExactly(record: Rec, canonical: CanonicalIds)
    requires TextOf(record, Id).Some? && Provenance in record && record[Provenance].Obj?
    ensures RecordOf(TemplateOf(record, canonical), ReadingOf(record, canonical), canonical) == Ok(record) <==> Storable(record)
  {
    hide RecordOf, ReadingOf;
    if Storable(record) {
      RoundTrip(record, canonical);
    } else if IsLocalHash(TextOf(record, Id).value) {
      BareHashDoesNotReturn(record, canonical);
    } else {
      assert FusionLineage !in TemplateOf(record, canonical);
      if RecordOf(TemplateOf(record, canonical), ReadingOf(record, canonical), canonical).Ok? {
        LineageKeyGoes(TemplateOf(record, canonical), ReadingOf(record, canonical), canonical);
      }
    }
  }

  lemma {:induction false} LineageKeyGoes(template: Rec, reading: Rec, canonical: CanonicalIds)
    requires FusionLineage !in template && RecordOf(template, reading, canonical).Ok?
    ensures FusionLineage !in RecordOf(template, reading, canonical).value
  {
  }

  /** No record comes back under a bare hash: it names no namespace to write it out with. */
  lemma {:induction false} BareHashDoesNotReturn(record: Rec, canonical: CanonicalIds)
    requires TextOf(record, Id).Some? && IsLocalHash(TextOf(record, Id).value)
    ensures RecordOf(TemplateOf(record, canonical), ReadingOf(record, canonical), canonical) == Err(NoNamespace)
  {
    HashIsNoRecordId(TextOf(record, Id).value);
    BareTemplate(record, canonical);
    BareReading(record, canonical);
    hide TemplateOf, ReadingOf, IsLocalHash, Named, LineageFits, Restored, References;
  }

  lemma {:induction false} BareTemplate(record: Rec, canonical: CanonicalIds)
    requires TextOf(record, Id).Some? && ParseRecordId(TextOf(record, Id).value).None?
    ensures TextOf(TemplateOf(record, canonical), Namespace).None?
  {
    hide ParseRecordId, TemplateProvenance;
  }

  lemma {:induction false} BareReading(record: Rec, canonical: CanonicalIds)
    requires TextOf(record, Id).Some? && ParseRecordId(TextOf(record, Id).value).None?
    ensures TextOf(ReadingOf(record, canonical) - {Provenance, FusionLineage}, Id) == TextOf(record, Id)
  {
    hide ParseRecordId, IsCompactFusion, VaryingOf, IsLocalHash;
  }

  lemma {:induction false} HashIsNoRecordId(s: string)
    requires IsLocalHash(s)
    ensures ParseRecordId(s).None?
  {
  }
}
