/** What each half of a split observation holds, field by field, and so which
    readings share a series template. */
module CodecHalves {
  import opened Basics
  import opened Codec

  // --- ids, by their parts ---

  predicate IsClass(s: string) { s == "feature" || s == "situation" || s == "observation" || s == "offer" }

  predicate InNamespace(c: char) { 'a' <= c <= 'z' || '0' <= c <= '9' || c == '.' || c == '-' }

  /** Lower-case letters, digits, dots and hyphens, neither of the last two first or last. */
  predicate NamesSpace(s: string) {
    && s != "" && (forall c :: c in s ==> InNamespace(c))
    && s[0] != '.' && s[0] != '-' && s[|s| - 1] != '.' && s[|s| - 1] != '-'
  }

  predicate NamesLocally(s: string) {
    s != "" && forall c :: c in s ==> c != '\n' && c != '\r' && c as int != 0x2028 && c as int != 0x2029
  }

  lemma {:induction false} CutAt(a: string, b: string)
    requires ':' !in a
    ensures Cut(a + ":" + b) == Some((a, b))
  {
    if a == "" {
      assert a + ":" + b == ":" + b;
    } else {
      assert (a + ":" + b)[1..] == a[1..] + ":" + b;
      CutAt(a[1..], b);
      assert [a[0]] + a[1..] == a;
    }
  }

  lemma {:induction false} CutHasNone(s: string)
    ensures Cut(s).Some? ==> ':' !in Cut(s).value.0
  {
    if s != "" && s[0] != ':' { CutHasNone(s[1..]); }
  }

  lemma {:induction false} NamespaceExactly(s: string)
    ensures IsNamespace(s) <==> NamesSpace(s)
    ensures NamesSpace(s) ==> ':' !in s
  {
    if IsNamespace(s) {
      forall c | c in s ensures InNamespace(c) {
        var i :| 0 <= i < |s| && s[i] == c;
      }
    }
    if NamesSpace(s) {
      forall i | 0 <= i < |s| ensures IsLowerOrDigit(s[i]) || s[i] == '.' || s[i] == '-' {
        assert s[i] in s;
      }
    }
  }

  lemma {:induction false} LocallyExactly(s: string)
    ensures NamesLocally(s) <==> s != "" && !exists c :: c in s && IsLineBreak(c)
  {
  }

  function IdText(cls: string, namespace: string, localId: string): string { "oc:" + cls + ":" + namespace + ":" + localId }

  lemma {:induction false} WrittenIsParsed(cls: string, namespace: string, localId: string)
    requires IsClass(cls) && NamesSpace(namespace) && NamesLocally(localId)
    ensures ParseRecordId(IdText(cls, namespace, localId)) == Some(ParsedId(cls, namespace, localId))
  {
    assert ':' !in cls;
    NamespaceExactly(namespace);
    LocallyExactly(localId);
    hide Cut, IsNamespace, NamesSpace, NamesLocally, IsLineBreak;
    var rest := cls + ":" + namespace + ":" + localId;
    assert IdText(cls, namespace, localId) == "oc" + ":" + rest;
    CutAt("oc", rest);
    assert rest == cls + ":" + (namespace + ":" + localId);
    CutAt(cls, namespace + ":" + localId);
    CutAt(namespace, localId);
  }

  lemma {:induction false} ParsedIsWritten(id: string)
    requires ParseRecordId(id).Some?
    ensures var p := ParseRecordId(id).value;
      id == IdText(p.cls, p.namespace, p.localId) && IsClass(p.cls) && NamesSpace(p.namespace) && NamesLocally(p.localId)
  {
    ParsedIsFormatted(id);
    var p := ParseRecordId(id).value;
    NamespaceExactly(p.namespace);
    LocallyExactly(p.localId);
    assert FormatRecordId(p.cls, p.namespace, p.localId) == IdText(p.cls, p.namespace, p.localId);
    assert p.cls in CLASSES;
    hide ParseRecordId, IsNamespace, NamesSpace, NamesLocally, IsLineBreak, IdText, FormatRecordId;
  }

  /** The parts of an id are those it is written from, and no others. */
  lemma {:induction false} ParsedExactly(id: string, cls: string, namespace: string, localId: string)
    ensures ParseRecordId(id) == Some(ParsedId(cls, namespace, localId))
       <==> id == IdText(cls, namespace, localId) && IsClass(cls) && NamesSpace(namespace) && NamesLocally(localId)
  {
    hide *;
    if ParseRecordId(id) == Some(ParsedId(cls, namespace, localId)) {
      ParsedIsWritten(id);
    }
    if id == IdText(cls, namespace, localId) && IsClass(cls) && NamesSpace(namespace) && NamesLocally(localId) {
      WrittenIsParsed(cls, namespace, localId);
    }
  }

  predicate IsHex(c: char) { '0' <= c <= '9' || 'a' <= c <= 'f' }

  predicate IsHash(s: string) { |s| == 64 && forall c :: c in s ==> IsHex(c) }

  lemma {:induction false} HashExactly(s: string)
    ensures IsLocalHash(s) <==> IsHash(s)
    ensures IsHash(s) ==> NamesLocally(s)
  {
    if IsLocalHash(s) {
      forall c | c in s ensures IsHex(c) {
        var i :| 0 <= i < |s| && s[i] == c;
      }
    }
    if IsHash(s) {
      forall i | 0 <= i < |s| ensures '0' <= s[i] <= '9' || 'a' <= s[i] <= 'f' { assert s[i] in s; }
    }
  }

  predicate Holds(r: Rec, key: Name, s: string) { key in r && r[key] == Str(s) }

  /** A regular observation: its id is made of the namespace and the hash, and its canonical id is that of the two. */
  predicate IsRegular(record: Rec, canonical: CanonicalIds, namespace: string, hash: string) {
    && Holds(record, Id, IdText("observation", namespace, hash)) && NamesSpace(namespace) && IsHash(hash)
    && Holds(record, CanonicalId, canonical(namespace, hash))
  }

  lemma {:induction false} RegularExactly(record: Rec, canonical: CanonicalIds)
    ensures forall namespace, hash ::
      IsRegular(record, canonical, namespace, hash) <==> RegularId(record, canonical) == Some(ParsedId("observation", namespace, hash))
    ensures RegularId(record, canonical).Some? ==>
      var id := RegularId(record, canonical).value; IsRegular(record, canonical, id.namespace, id.localId)
  {
    if RegularId(record, canonical).Some? {
      var id := RegularId(record, canonical).value;
      ParsedExactly(TextOf(record, Id).value, id.cls, id.namespace, id.localId);
      HashExactly(id.localId);
    }
    forall namespace, hash | IsRegular(record, canonical, namespace, hash)
      ensures RegularId(record, canonical) == Some(ParsedId("observation", namespace, hash))
    {
      HashExactly(hash);
      ParsedExactly(TextOf(record, Id).value, "observation", namespace, hash);
    }
    hide ParseRecordId, IsLocalHash, IsHash, NamesSpace, IdText;
  }

  // --- fused records, by their three copies of the lineage ---

  /** A source and a reference that name the record with this id, and nothing more. */
  predicate NamesRecord(source: Json, ref: Json, id: string) {
    source.Obj? && Holds(source.fields, RecordId, id) && ref == Obj(map[Class := Str("observation"), Id := Str(id)])
  }

  ghost predicate NamesEach(sources: seq<Json>, refs: seq<Json>, ids: seq<string>) {
    && |sources| == |refs| == |ids| > 0
    && forall i :: 0 <= i < |ids| ==> NamesRecord(sources[i], refs[i], ids[i])
  }

  /** The lineage of a fused record, told three times over. */
  ghost predicate IsFusedFrom(record: Rec, canonical: CanonicalIds, ids: seq<string>) {
    var p := ProvenanceOf(record);
    && Holds(p, Origin, "derived") && (Holds(p, SourceId, "@fused") || Holds(p, SourceId, "@fused-public"))
    && (exists namespace, hash :: IsRegular(record, canonical, namespace, hash) && Holds(p, RecordId, hash))
    && MergedSources in p && p[MergedSources].Arr?
    && DerivedFrom in p && p[DerivedFrom].Obj? && Holds(p[DerivedFrom].fields, Method, "fusion")
    && Records in p[DerivedFrom].fields && p[DerivedFrom].fields[Records].Arr?
    && NamesEach(p[MergedSources].items, p[DerivedFrom].fields[Records].items, ids)
  }

  lemma {:induction false} PairsName(sources: seq<Json>, refs: seq<Json>)
    requires |sources| == |refs| > 0
    ensures (forall i :: 0 <= i < |sources| ==> Pairs(sources[i], refs[i])) ==> NamesEach(sources, refs, RecordIds(sources))
    ensures forall ids: seq<string> :: NamesEach(sources, refs, ids) ==>
      ids == RecordIds(sources) && forall i :: 0 <= i < |sources| ==> Pairs(sources[i], refs[i])
  {
    if forall i :: 0 <= i < |sources| ==> Pairs(sources[i], refs[i]) {
      forall i | 0 <= i < |sources| ensures NamesRecord(sources[i], refs[i], RecordIds(sources)[i]) {
        assert Pairs(sources[i], refs[i]);
      }
    }
    forall ids: seq<string> | NamesEach(sources, refs, ids)
      ensures ids == RecordIds(sources) && forall i :: 0 <= i < |sources| ==> Pairs(sources[i], refs[i])
    {
      forall i | 0 <= i < |sources| ensures Pairs(sources[i], refs[i]) && ids[i] == RecordIds(sources)[i] {
        assert NamesRecord(sources[i], refs[i], ids[i]);
      }
    }
  }

  /** The lineage found is the one told, if one is. */
  lemma {:induction false} FusedExactly(record: Rec, canonical: CanonicalIds, ids: seq<string>)
    ensures IsFusedFrom(record, canonical, ids) <==> FusionRecordIds(record, canonical) == Some(ids)
  {
    RegularExactly(record, canonical);
    var p := ProvenanceOf(record);
    var derivation := FieldsOf(p, DerivedFrom);
    if MergedSources in p && p[MergedSources].Arr? && Records in derivation && derivation[Records].Arr?
       && |p[MergedSources].items| == |derivation[Records].items| > 0 {
      PairsName(p[MergedSources].items, derivation[Records].items);
    }
    hide RegularId, IsRegular, Pairs, RecordIds, NamesRecord, ProvenanceOf;
  }

  // --- the halves ---

  /** A field every reading of a series has in common. */
  predicate IsShared(key: Name) {
    key in {Class, Kind, Property, Domain, Subject, Qualifiers, Location, Revision, Temporality, Aggregation}
  }

  /** A part of the provenance that is each reading's own. */
  predicate Varies(p: Rec, key: Name) {
    key in {RawRef, SourceUpdatedAt, RecordVersion} || (key in {Reporter, RecordId} && Holds(p, Origin, "crowd"))
  }

  function NamespaceOf(record: Rec): Option<string> {
    var parsed := if TextOf(record, Id).Some? then ParseRecordId(TextOf(record, Id).value) else None;
    if parsed.Some? then Some(parsed.value.namespace) else None
  }

  lemma {:induction false} VariesExactly(p: Rec)
    ensures forall key :: key in VaryingOf(p) <==> Varies(p, key)
  {
  }

  function Field(r: Rec, key: Name): Option<Json> { if key in r then Some(r[key]) else None }

  lemma {:induction false} FieldPut(r: Rec, key: Name, v: Json, k: Name)
    ensures Field(r[key := v], k) == if k == key then Some(v) else Field(r, k)
  {
  }

  lemma {:induction false} FieldMinus(r: Rec, names: set<Name>, k: Name)
    ensures Field(r - names, k) == if k in names then None else Field(r, k)
  {
  }

  /** The fields a template shares, as the record has them. */
  function SharedOf(record: Rec): Rec { map k | k in TEMPLATE_KEYS * record.Keys :: record[k] }

  lemma {:induction false} SharedAt(record: Rec, key: Name)
    ensures Field(SharedOf(record), key) == if IsShared(key) then Field(record, key) else None
  {
  }

  lemma {:induction false} TemplateIs(record: Rec, canonical: CanonicalIds)
    ensures var kept := SharedOf(record)[Provenance := Obj(TemplateProvenance(record, canonical))];
      TemplateOf(record, canonical) == if NamespaceOf(record).Some? then kept[Namespace := Str(NamespaceOf(record).value)] else kept
  {
    hide ParseRecordId, TemplateProvenance;
  }

  /** A template holds the shared fields as they are, the namespace of the id, and of the
      provenance what its readings share. */
  lemma {:induction false} TemplateHolds(record: Rec, canonical: CanonicalIds, key: Name)
    ensures Field(TemplateOf(record, canonical), key) ==
      if key == Provenance then Some(Obj(TemplateProvenance(record, canonical)))
      else if key == Namespace then (if NamespaceOf(record).Some? then Some(Str(NamespaceOf(record).value)) else None)
      else if IsShared(key) then Field(record, key) else None
  {
    hide *;
    var credit := Obj(TemplateProvenance(record, canonical));
    SharedNames();
    TemplateIs(record, canonical);
    SharedAt(record, key);
    FieldPut(SharedOf(record), Provenance, credit, key);
    if NamespaceOf(record).Some? {
      FieldPut(SharedOf(record)[Provenance := credit], Namespace, Str(NamespaceOf(record).value), key);
    }
  }

  lemma {:induction false} SharedNames()
    ensures !IsShared(Namespace) && !IsShared(Provenance)
  {
  }

  /** Of the provenance a template holds what does not vary; of a fused record's no record id,
      neither its own nor its sources', and no list of records. */
  lemma {:induction false} CreditHolds(record: Rec, canonical: CanonicalIds, key: Name)
    ensures var (p, fused) := (ProvenanceOf(record), FusionRecordIds(record, canonical).Some?);
      && (fused ==> MergedSources in p && p[MergedSources].Arr?)
      && Field(TemplateProvenance(record, canonical), key) ==
           if fused && key == MergedSources then Some(Arr(Stripped(p[MergedSources].items)))
           else if fused && key == DerivedFrom then Some(Obj(FieldsOf(p, DerivedFrom) - {Records}))
           else if Varies(p, key) || (fused && key == RecordId) then None
           else Field(p, key)
  {
    var p := ProvenanceOf(record);
    VariesExactly(p);
    FieldMinus(p, VaryingOf(p), key);
    assert IsCompactFusion(record, canonical) ==> MergedSources in p && p[MergedSources].Arr?;
    hide RegularId, VaryingOf, RecordIds, IsCompactFusion, Stripped, ProvenanceOf, Varies;
    var shared := p - VaryingOf(p);
    FieldMinus(shared, {RecordId}, key);
    if IsCompactFusion(record, canonical) {
      var sources := Arr(Stripped(p[MergedSources].items));
      FieldPut(shared - {RecordId}, MergedSources, sources, key);
      FieldPut((shared - {RecordId})[MergedSources := sources], DerivedFrom, Obj(FieldsOf(p, DerivedFrom) - {Records}), key);
    }
    hide Field, FieldsOf;
  }

  lemma {:induction false} SourcesAreStripped(record: Rec, canonical: CanonicalIds, i: nat)
    requires FusionRecordIds(record, canonical).Some?
    ensures MergedSources in ProvenanceOf(record) && ProvenanceOf(record)[MergedSources].Arr?
    ensures var sources := ProvenanceOf(record)[MergedSources].items;
      |Stripped(sources)| == |sources|
      && (i < |sources| ==> sources[i].Obj? && Stripped(sources)[i] == Obj(sources[i].fields - {RecordId}))
  {
    var p := ProvenanceOf(record);
    if i < |p[MergedSources].items| { assert Pairs(p[MergedSources].items[i], FieldsOf(p, DerivedFrom)[Records].items[i]); }
    hide RegularId, RecordIds;
  }

  /** What varies of a record's provenance. */
  function OwnCredit(record: Rec): Rec {
    var p := ProvenanceOf(record);
    map k | k in VaryingOf(p) * p.Keys :: p[k]
  }

  lemma {:induction false} OwnCreditHolds(record: Rec)
    ensures var (credit, p) := (OwnCredit(record), ProvenanceOf(record));
      && (forall k :: k in credit <==> k in p && Varies(p, k))
      && (forall k :: k in credit ==> credit[k] == p[k])
      && (credit == map[] <==> forall k :: k in p ==> !Varies(p, k))
  {
    var p := ProvenanceOf(record);
    VariesExactly(p);
    hide VaryingOf, Varies, ProvenanceOf;
    var credit := OwnCredit(record);
    forall k ensures k in credit <==> k in p && Varies(p, k) {
    }
    if forall k :: k in p ==> !Varies(p, k) {
      assert forall k :: k !in credit;
    }
  }

  function Laid(own: Rec, credit: Rec, id: Option<ParsedId>, fused: Option<seq<string>>): Rec {
    var credited := if credit == map[] then own else own[Provenance := Obj(credit)];
    var named := if id.Some? then (credited - {CanonicalId})[Id := Str(id.value.localId)] else credited;
    if fused.Some? then named[FusionLineage := Arr(Lineage(fused.value))] else named
  }

  /** The record without the fields a template shares and the provenance. */
  function OwnOf(record: Rec): Rec {
    record - {Class, Kind, Property, Domain, Subject, Qualifiers, Location, Revision, Temporality, Aggregation, Provenance}
  }

  lemma {:induction false} OwnAt(record: Rec, key: Name)
    ensures Field(OwnOf(record), key) == if IsShared(key) || key == Provenance then None else Field(record, key)
  {
  }

  lemma {:induction false} LaidAt(own: Rec, credit: Rec, id: Option<ParsedId>, fused: Option<seq<string>>, key: Name)
    requires Field(own, Provenance) == None
    ensures Field(Laid(own, credit, id, fused), key) ==
      if fused.Some? && key == FusionLineage then Some(Arr(Lineage(fused.value)))
      else if id.Some? && key == Id then Some(Str(id.value.localId))
      else if id.Some? && key == CanonicalId then None
      else if key == Provenance then (if credit == map[] then None else Some(Obj(credit)))
      else Field(own, key)
  {
    hide Lineage;
    var credited := if credit == map[] then own else own[Provenance := Obj(credit)];
    var named := if id.Some? then (credited - {CanonicalId})[Id := Str(id.value.localId)] else credited;
    FieldPut(own, Provenance, Obj(credit), key);
    FieldMinus(credited, {CanonicalId}, key);
    if id.Some? { FieldPut(credited - {CanonicalId}, Id, Str(id.value.localId), key); }
    if fused.Some? { FieldPut(named, FusionLineage, Arr(Lineage(fused.value)), key); }
    hide Field;
  }

  /** A reading is the record without the shared fields, its provenance only what varies, a regular
      id its hash alone without the canonical one, and a fused record's lineage beside them. */
  lemma {:induction false} ReadingIs(record: Rec, canonical: CanonicalIds)
    ensures var (id, fused, credit) := (RegularId(record, canonical), FusionRecordIds(record, canonical), OwnCredit(record));
      ReadingOf(record, canonical) == Laid(OwnOf(record), credit, id, fused)
  {
    hide RegularId, FusionRecordIds, VaryingOf, ProvenanceOf;
    assert record - TEMPLATE_KEYS - {Provenance} == OwnOf(record);
  }

  /** A reading holds every field that is not shared, as it is, but for a regular id, kept by its hash
      alone, the provenance, kept where it varies, and a fused record's lineage. */
  lemma {:induction false} ReadingHolds(record: Rec, canonical: CanonicalIds, key: Name)
    ensures var (id, fused, credit) := (RegularId(record, canonical), FusionRecordIds(record, canonical), OwnCredit(record));
      Field(ReadingOf(record, canonical), key) ==
        if fused.Some? && key == FusionLineage then Some(Arr(Lineage(fused.value)))
        else if id.Some? && key == Id then Some(Str(id.value.localId))
        else if id.Some? && key == CanonicalId then None
        else if key == Provenance then (if credit == map[] then None else Some(Obj(credit)))
        else if IsShared(key) then None
        else Field(record, key)
  {
    hide RegularId, FusionRecordIds, OwnCredit, ReadingOf, Lineage, Laid, OwnOf, IsShared, Field;
    ReadingIs(record, canonical);
    OwnAt(record, Provenance);
    OwnAt(record, key);
    LaidAt(OwnOf(record), OwnCredit(record), RegularId(record, canonical), FusionRecordIds(record, canonical), key);
  }

  // --- readings of one series ---

  function Steady(record: Rec): Rec {
    var p := ProvenanceOf(record);
    map key | key in p && !Varies(p, key) :: p[key]
  }

  lemma {:induction false} SameFieldsEqual(a: Rec, b: Rec)
    ensures a == b <==> forall key :: Field(a, key) == Field(b, key)
  {
    if forall key :: Field(a, key) == Field(b, key) {
      forall key ensures key in a <==> key in b { assert Field(a, key) == Field(b, key); }
      forall key | key in a ensures a[key] == b[key] { assert Field(a, key) == Field(b, key); }
    }
  }

  lemma {:induction false} PlainCredit(record: Rec, canonical: CanonicalIds)
    requires FusionRecordIds(record, canonical).None?
    ensures TemplateProvenance(record, canonical) == Steady(record)
  {
    VariesExactly(ProvenanceOf(record));
    hide RegularId, VaryingOf, Varies, ProvenanceOf, IsCompactFusion;
  }

  lemma {:induction false} TemplateAlike(a: Rec, b: Rec, canonical: CanonicalIds, key: Name)
    requires FusionRecordIds(a, canonical).None? && FusionRecordIds(b, canonical).None?
    ensures Field(TemplateOf(a, canonical), key) == Field(TemplateOf(b, canonical), key) <==>
      && (IsShared(key) ==> Field(a, key) == Field(b, key))
      && (key == Namespace ==> NamespaceOf(a) == NamespaceOf(b))
      && (key == Provenance ==> Steady(a) == Steady(b))
  {
    hide TemplateOf, TemplateProvenance, FusionRecordIds, Steady, NamespaceOf, ProvenanceOf, Field, IsShared;
    SharedNames();
    TemplateHolds(a, canonical, key);
    TemplateHolds(b, canonical, key);
    PlainCredit(a, canonical);
    PlainCredit(b, canonical);
  }

  /** Two readings that are not fused share a series template exactly if they agree on the
      shared fields, on the namespace and on what does not vary of the provenance. */
  lemma {:induction false} SameTemplateExactly(a: Rec, b: Rec, canonical: CanonicalIds)
    requires FusionRecordIds(a, canonical).None? && FusionRecordIds(b, canonical).None?
    ensures TemplateOf(a, canonical) == TemplateOf(b, canonical) <==>
      (forall key :: IsShared(key) ==> Field(a, key) == Field(b, key)) && NamespaceOf(a) == NamespaceOf(b) && Steady(a) == Steady(b)
  {
    hide *;
    var (t, t') := (TemplateOf(a, canonical), TemplateOf(b, canonical));
    SameFieldsEqual(t, t');
    forall key ensures
      Field(t, key) == Field(t', key) <==>
      && (IsShared(key) ==> Field(a, key) == Field(b, key))
      && (key == Namespace ==> NamespaceOf(a) == NamespaceOf(b))
      && (key == Provenance ==> Steady(a) == Steady(b))
    {
      TemplateAlike(a, b, canonical, key);
    }
    assert Field(t, Namespace) == Field(t', Namespace) && Field(t, Provenance) == Field(t', Provenance)
      ==> NamespaceOf(a) == NamespaceOf(b) && Steady(a) == Steady(b);
  }
}
