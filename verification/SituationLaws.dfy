/** Two situations have one key exactly if they mean the same. */
module SituationLaws {
  import opened Basics
  import opened CanonicalJson
  import opened JsonText
  import opened Situation

  // --- meanings: objects as maps, lists without order as bags ---

  datatype PlaceMeaning = PlaceMeaning(fields: Rec, roads: Option<multiset<Value>>)

  datatype EffectMeaning = EffectMeaning(fields: Rec, place: PlaceMeaning, direction: Option<Value>, validity: Value)

  datatype PhaseMeaning = PhaseMeaning(fields: Rec, effects: multiset<EffectMeaning>)

  datatype DetailsMeaning = DetailsMeaning(fields: Rec, phases: Option<multiset<PhaseMeaning>>)

  datatype ReportMeaning = ReportMeaning(
    fields: Rec,
    place: PlaceMeaning,
    effects: multiset<EffectMeaning>,
    details: Option<DetailsMeaning>,
    freshness: Option<Rec>)

  function MeaningOfPlace(p: Place): PlaceMeaning {
    PlaceMeaning(p.fields, if p.roads.Some? then Some(multiset(p.roads.value)) else None)
  }

  function MeaningOfEffect(e: Effect): EffectMeaning {
    EffectMeaning(e.fields, MeaningOfPlace(e.place), e.direction, e.validity)
  }

  function MapOver<A, B>(f: A -> B, s: seq<A>): seq<B> { seq(|s|, i requires 0 <= i < |s| => f(s[i])) }

  function MeaningOfPhase(p: Phase): PhaseMeaning { PhaseMeaning(p.fields, multiset(MapOver(MeaningOfEffect, p.effects))) }

  function MeaningOfDetails(d: Details): DetailsMeaning {
    DetailsMeaning(d.fields, if d.phases.Some? then Some(multiset(MapOver(MeaningOfPhase, d.phases.value))) else None)
  }

  function MeaningOf(r: Report): ReportMeaning {
    ReportMeaning(
      r.fields,
      MeaningOfPlace(r.place),
      multiset(MapOver(MeaningOfEffect, r.effects)),
      if r.details.Some? then Some(MeaningOfDetails(r.details.value)) else None,
      r.freshness)
  }

  // --- bags under two readings that tell the same things apart ---

  lemma {:induction false} WithoutOne<A(!new), B(!new)>(f: A -> B, s: seq<A>, i: nat)
    requires i < |s|
    ensures multiset(MapOver(f, s)) == multiset(MapOver(f, s[..i] + s[i + 1..])) + multiset{f(s[i])}
  {
    var all := MapOver(f, s);
    assert all == all[..i] + [all[i]] + all[i + 1..];
    assert MapOver(f, s[..i] + s[i + 1..]) == all[..i] + all[i + 1..];
  }

  /** What `f` and `f'` give one value for is one for `g`; if `exactly`, nothing else is. */
  ghost predicate TellAlike<A(!new), B(!new), C(!new)>(f: A -> B, f': A -> B, g: A -> C, xs: seq<A>, ys: seq<A>, exactly: bool) {
    forall x, y :: x in xs && y in ys ==> (f(x) == f'(y) ==> g(x) == g(y)) && (exactly && g(x) == g(y) ==> f(x) == f'(y))
  }

  lemma {:induction false} MeetsOne<A(!new), B(!new)>(f: A -> B, f': A -> B, xs: seq<A>, ys: seq<A>) returns (i: nat)
    requires xs != [] && multiset(MapOver(f, xs)) == multiset(MapOver(f', ys))
    ensures i < |ys| && f'(ys[i]) == f(xs[|xs| - 1])
  {
    var last := f(xs[|xs| - 1]);
    assert MapOver(f, xs)[|xs| - 1] == last;
    assert last in multiset(MapOver(f', ys));
    i :| 0 <= i < |ys| && MapOver(f', ys)[i] == last;
  }

  lemma {:induction false} BagsImply<A(!new), B(!new), C(!new)>(f: A -> B, f': A -> B, g: A -> C, g': A -> C, xs: seq<A>, ys: seq<A>)
    requires forall x, y :: x in xs && y in ys && f(x) == f'(y) ==> g(x) == g'(y)
    requires multiset(MapOver(f, xs)) == multiset(MapOver(f', ys))
    ensures multiset(MapOver(g, xs)) == multiset(MapOver(g', ys))
    decreases |xs|
  {
    if xs == [] {
      assert |multiset(MapOver(f, xs))| == |multiset(MapOver(f', ys))|;
    } else {
      var n := |xs| - 1;
      var i := MeetsOne(f, f', xs, ys);
      var rest := ys[..i] + ys[i + 1..];
      assert xs[..n] + xs[n + 1..] == xs[..n];
      WithoutOne(f, xs, n);
      WithoutOne(f', ys, i);
      WithoutOne(g, xs, n);
      WithoutOne(g', ys, i);
      assert forall y :: y in rest ==> y in ys;
      hide MapOver;
      assert multiset(MapOver(f, xs[..n])) == multiset(MapOver(f, xs)) - multiset{f(xs[n])};
      assert multiset(MapOver(f', rest)) == multiset(MapOver(f', ys)) - multiset{f'(ys[i])};
      BagsImply(f, f', g, g', xs[..n], rest);
    }
  }

  lemma {:induction false} BagsAgree<A(!new), B(!new), C(!new)>(f: A -> B, f': A -> B, g: A -> C, xs: seq<A>, ys: seq<A>, exactly: bool)
    requires TellAlike(f, f', g, xs, ys, exactly)
    ensures multiset(MapOver(f, xs)) == multiset(MapOver(f', ys)) ==> multiset(MapOver(g, xs)) == multiset(MapOver(g, ys))
    ensures exactly && multiset(MapOver(g, xs)) == multiset(MapOver(g, ys)) ==> multiset(MapOver(f, xs)) == multiset(MapOver(f', ys))
  {
    hide MapOver;
    if multiset(MapOver(f, xs)) == multiset(MapOver(f', ys)) {
      BagsImply(f, f', g, g, xs, ys);
    }
    if exactly && multiset(MapOver(g, xs)) == multiset(MapOver(g, ys)) {
      BagsImply(g, g, f, f', xs, ys);
    }
  }

  // --- fields put into objects that lacked them ---

  lemma {:induction false} PutExactly(r: Rec, r': Rec, key: string, v: Value, v': Value)
    requires key !in r && key !in r'
    ensures r[key := v] == r'[key := v'] <==> r == r' && v == v'
  {
    assert r[key := v] - {key} == r && r'[key := v'] - {key} == r';
    assert r[key := v][key] == v && r'[key := v'][key] == v';
  }

  function PutIf(r: Rec, key: string, v: Option<Value>): Rec { if v.Some? then r[key := v.value] else r }

  lemma {:induction false} PutIfExactly(r: Rec, r': Rec, key: string, v: Option<Value>, v': Option<Value>)
    requires key !in r && key !in r'
    ensures PutIf(r, key, v) == PutIf(r', key, v') <==> r == r' && v == v'
  {
    if v.Some? && v'.Some? {
      PutExactly(r, r', key, v.value, v'.value);
    } else {
      assert key in PutIf(r, key, v) <==> v.Some?;
      assert key in PutIf(r', key, v') <==> v'.Some?;
    }
  }

  // --- each part's value tells its meaning, and exactly that ---

  /** The language tells apart what it sorts and writes, and objects are listed one way or another. */
  ghost predicate Tells(lang: Language, l: Value -> Json, l': Value -> Json) { lang.Valid() && IsListing(l) && IsListing(l') }

  lemma {:induction false} ListsTell(lang: Language, l: Value -> Json, l': Value -> Json, vs: seq<Value>, ws: seq<Value>)
    ensures Unordered(lang, l, vs) == Unordered(lang, l', ws) ==> multiset(vs) == multiset(ws)
    ensures Tells(lang, l, l') && multiset(vs) == multiset(ws) ==> Unordered(lang, l, vs) == Unordered(lang, l', ws)
  {
    UnorderedKeeps(lang, l, l', vs, ws);
    if Tells(lang, l, l') {
      UnorderedExactly(lang, l, l', vs, ws);
    }
  }

  lemma {:induction false} PlaceExactly(lang: Language, l: Value -> Json, l': Value -> Json, p: Place, p': Place)
    requires PlaceFits(p) && PlaceFits(p')
    ensures PlaceValue(lang, l, p) == PlaceValue(lang, l', p') ==> MeaningOfPlace(p) == MeaningOfPlace(p')
    ensures Tells(lang, l, l') && MeaningOfPlace(p) == MeaningOfPlace(p') ==> PlaceValue(lang, l, p) == PlaceValue(lang, l', p')
  {
    if p.roads.Some? && p'.roads.Some? {
      ListsTell(lang, l, l', p.roads.value, p'.roads.value);
      hide Unordered, Tells;
      PutExactly(p.fields, p'.fields, "roads", List(Unordered(lang, l, p.roads.value)), List(Unordered(lang, l', p'.roads.value)));
    } else {
      RoadsShow(lang, l, p);
      RoadsShow(lang, l', p');
      hide Unordered, Tells;
    }
  }

  lemma {:induction false} RoadsShow(lang: Language, l: Value -> Json, p: Place)
    requires PlaceFits(p)
    ensures var r := PlaceValue(lang, l, p).fields; p.roads.Some? <==> "roads" in r && r["roads"].List?
  {
  }

  lemma {:induction false} EffectExactly(lang: Language, l: Value -> Json, l': Value -> Json, e: Effect, e': Effect)
    requires EffectFits(e) && EffectFits(e')
    ensures EffectValue(lang, l, e) == EffectValue(lang, l', e') ==> MeaningOfEffect(e) == MeaningOfEffect(e')
    ensures Tells(lang, l, l') && MeaningOfEffect(e) == MeaningOfEffect(e') ==> EffectValue(lang, l, e) == EffectValue(lang, l', e')
  {
    PlaceExactly(lang, l, l', e.place, e'.place);
    hide PlaceValue, MeaningOfPlace, PlaceFits, Tells;
    var (v, v') := (PlaceValue(lang, l, e.place), PlaceValue(lang, l', e'.place));
    assert forall k :: k in e.fields || k in e'.fields ==> k !in EFFECT_OWN;
    var (one, one') := (e.fields["location" := v], e'.fields["location" := v']);
    var (two, two') := (one["validity" := e.validity], one'["validity" := e'.validity]);
    PutExactly(e.fields, e'.fields, "location", v, v');
    PutExactly(one, one', "validity", e.validity, e'.validity);
    PutIfExactly(two, two', "direction", e.direction, e'.direction);
  }

  lemma {:induction false} EffectsExactly(lang: Language, l: Value -> Json, l': Value -> Json, es: seq<Effect>, es': seq<Effect>)
    requires (forall e :: e in es ==> EffectFits(e)) && forall e :: e in es' ==> EffectFits(e)
    ensures Unordered(lang, l, EffectValues(lang, l, es)) == Unordered(lang, l', EffectValues(lang, l', es'))
      ==> multiset(MapOver(MeaningOfEffect, es)) == multiset(MapOver(MeaningOfEffect, es'))
    ensures Tells(lang, l, l') && multiset(MapOver(MeaningOfEffect, es)) == multiset(MapOver(MeaningOfEffect, es'))
      ==> Unordered(lang, l, EffectValues(lang, l, es)) == Unordered(lang, l', EffectValues(lang, l', es'))
  {
    var (f, f') := ((e: Effect) => EffectValue(lang, l, e), (e: Effect) => EffectValue(lang, l', e));
    assert EffectValues(lang, l, es) == MapOver(f, es) && EffectValues(lang, l', es') == MapOver(f', es');
    ListsTell(lang, l, l', EffectValues(lang, l, es), EffectValues(lang, l', es'));
    forall e, e' | e in es && e' in es'
      ensures f(e) == f'(e') ==> MeaningOfEffect(e) == MeaningOfEffect(e')
      ensures Tells(lang, l, l') && MeaningOfEffect(e) == MeaningOfEffect(e') ==> f(e) == f'(e')
    {
      EffectExactly(lang, l, l', e, e');
    }
    hide MapOver, EffectValue, EffectValues, MeaningOfEffect, Unordered, EffectFits, Tells;
    BagsAgree(f, f', MeaningOfEffect, es, es', Tells(lang, l, l'));
  }

  lemma {:induction false} PhaseExactly(lang: Language, l: Value -> Json, l': Value -> Json, p: Phase, p': Phase)
    requires PhaseFits(p) && PhaseFits(p')
    ensures PhaseValue(lang, l, p) == PhaseValue(lang, l', p') ==> MeaningOfPhase(p) == MeaningOfPhase(p')
    ensures Tells(lang, l, l') && MeaningOfPhase(p) == MeaningOfPhase(p') ==> PhaseValue(lang, l, p) == PhaseValue(lang, l', p')
  {
    EffectsExactly(lang, l, l', p.effects, p'.effects);
    hide MapOver, EffectValues, MeaningOfEffect, Unordered, EffectFits, Tells;
    var (v, v') := (List(Unordered(lang, l, EffectValues(lang, l, p.effects))), List(Unordered(lang, l', EffectValues(lang, l', p'.effects))));
    assert "effects" in PHASE_OWN;
    PutExactly(p.fields, p'.fields, "effects", v, v');
  }

  lemma {:induction false} PhasesExactly(lang: Language, l: Value -> Json, l': Value -> Json, ps: seq<Phase>, ps': seq<Phase>)
    requires (forall p :: p in ps ==> PhaseFits(p)) && forall p :: p in ps' ==> PhaseFits(p)
    ensures Unordered(lang, l, PhaseValues(lang, l, ps)) == Unordered(lang, l', PhaseValues(lang, l', ps'))
      ==> multiset(MapOver(MeaningOfPhase, ps)) == multiset(MapOver(MeaningOfPhase, ps'))
    ensures Tells(lang, l, l') && multiset(MapOver(MeaningOfPhase, ps)) == multiset(MapOver(MeaningOfPhase, ps'))
      ==> Unordered(lang, l, PhaseValues(lang, l, ps)) == Unordered(lang, l', PhaseValues(lang, l', ps'))
  {
    var (f, f') := ((p: Phase) => PhaseValue(lang, l, p), (p: Phase) => PhaseValue(lang, l', p));
    assert PhaseValues(lang, l, ps) == MapOver(f, ps) && PhaseValues(lang, l', ps') == MapOver(f', ps');
    ListsTell(lang, l, l', PhaseValues(lang, l, ps), PhaseValues(lang, l', ps'));
    forall p, p' | p in ps && p' in ps'
      ensures f(p) == f'(p') ==> MeaningOfPhase(p) == MeaningOfPhase(p')
      ensures Tells(lang, l, l') && MeaningOfPhase(p) == MeaningOfPhase(p') ==> f(p) == f'(p')
    {
      PhaseExactly(lang, l, l', p, p');
    }
    hide MapOver, PhaseValue, PhaseValues, MeaningOfPhase, Unordered, PhaseFits, Tells;
    BagsAgree(f, f', MeaningOfPhase, ps, ps', Tells(lang, l, l'));
  }

  lemma {:induction false} DetailsExactly(lang: Language, l: Value -> Json, l': Value -> Json, d: Details, d': Details)
    requires DetailsFit(d) && DetailsFit(d')
    ensures DetailsValue(lang, l, d) == DetailsValue(lang, l', d') ==> MeaningOfDetails(d) == MeaningOfDetails(d')
    ensures Tells(lang, l, l') && MeaningOfDetails(d) == MeaningOfDetails(d') ==> DetailsValue(lang, l, d) == DetailsValue(lang, l', d')
  {
    if d.phases.Some? && d'.phases.Some? {
      PhasesExactly(lang, l, l', d.phases.value, d'.phases.value);
      hide MapOver, PhaseValues, MeaningOfPhase, Unordered, PhaseFits, Tells;
      PutExactly(d.fields, d'.fields, "phases", List(Unordered(lang, l, PhaseValues(lang, l, d.phases.value))),
                 List(Unordered(lang, l', PhaseValues(lang, l', d'.phases.value))));
    } else {
      hide MapOver, PhaseValues, MeaningOfPhase, Unordered, PhaseFits, Tells;
      assert d.phases.Some? <==> "phases" in DetailsValue(lang, l, d).fields;
      assert d'.phases.Some? <==> "phases" in DetailsValue(lang, l', d').fields;
    }
  }

  function DetailsField(lang: Language, l: Value -> Json, d: Option<Details>): Option<Value> {
    if d.Some? then Some(DetailsValue(lang, l, d.value)) else None
  }

  function FreshnessField(f: Option<Rec>): Option<Value> { if f.Some? then Some(Record(f.value)) else None }

  lemma {:induction false} ReportExactly(lang: Language, l: Value -> Json, l': Value -> Json, r: Report, r': Report)
    requires ReportFits(r) && ReportFits(r')
    ensures ReportValue(lang, l, r) == ReportValue(lang, l', r') ==> MeaningOf(r) == MeaningOf(r')
    ensures Tells(lang, l, l') && MeaningOf(r) == MeaningOf(r') ==> ReportValue(lang, l, r) == ReportValue(lang, l', r')
  {
    PlaceExactly(lang, l, l', r.place, r'.place);
    EffectsExactly(lang, l, l', r.effects, r'.effects);
    if r.details.Some? && r'.details.Some? {
      DetailsExactly(lang, l, l', r.details.value, r'.details.value);
    }
    LaidOut(lang, l, r);
    LaidOut(lang, l', r');
    hide PlaceValue, MeaningOfPlace, EffectValues, MapOver, DetailsValue, MeaningOfDetails, Unordered, PlaceFits, EffectFits, DetailsFit,
      Tells, Laid, ReportValue;
    ReportFieldsExactly(r.fields, r'.fields, PlaceValue(lang, l, r.place), PlaceValue(lang, l', r'.place),
                        List(Unordered(lang, l, EffectValues(lang, l, r.effects))), List(Unordered(lang, l', EffectValues(lang, l', r'.effects))),
                        DetailsField(lang, l, r.details), DetailsField(lang, l', r'.details),
                        FreshnessField(r.freshness), FreshnessField(r'.freshness));
  }

  function Laid(fields: Rec, place: Value, effects: Value, details: Option<Value>, freshness: Option<Value>): Rec {
    PutIf(PutIf(fields["location" := place]["effects" := effects], "details", details), "freshness", freshness)
  }

  lemma {:induction false} LaidOut(lang: Language, l: Value -> Json, r: Report)
    ensures ReportValue(lang, l, r) == Record(Laid(r.fields, PlaceValue(lang, l, r.place), List(Unordered(lang, l, EffectValues(lang, l, r.effects))),
                                                   DetailsField(lang, l, r.details), FreshnessField(r.freshness)))
  {
  }

  lemma {:induction false} ReportFieldsExactly(r: Rec, r': Rec, place: Value, place': Value, effects: Value, effects': Value,
                                               details: Option<Value>, details': Option<Value>,
                                               freshness: Option<Value>, freshness': Option<Value>)
    requires forall k :: k in RECORD_OWN ==> k !in r && k !in r'
    ensures Laid(r, place, effects, details, freshness) == Laid(r', place', effects', details', freshness')
       <==> r == r' && place == place' && effects == effects' && details == details' && freshness == freshness'
  {
    assert "location" in RECORD_OWN && "effects" in RECORD_OWN && "details" in RECORD_OWN && "freshness" in RECORD_OWN;
    hide RECORD_OWN;
    var (a, a') := (r["location" := place], r'["location" := place']);
    var (b, b') := (a["effects" := effects], a'["effects" := effects']);
    PutExactly(r, r', "location", place, place');
    PutExactly(a, a', "effects", effects, effects');
    PutIfExactly(b, b', "details", details, details');
    PutIfExactly(PutIf(b, "details", details), PutIf(b', "details", details'), "freshness", freshness, freshness');
  }

  /** Whatever the comparison, two reports have one key only if they mean the same. */
  lemma {:induction false} OneKeyOneMeaning(lang: Language, l: Value -> Json, l': Value -> Json, r: Rec, r': Rec)
    requires WritesNumbers(lang.number) && IsListing(l) && IsListing(l') && IsTyped(r) && IsTyped(r')
    requires CompatibilityKey(lang, l, r).Some? && CompatibilityKey(lang, l, r) == CompatibilityKey(lang, l', r')
    ensures ReportOf(lang, r).Some? && ReportOf(lang, r').Some?
    ensures MeaningOf(ReportOf(lang, r).value) == MeaningOf(ReportOf(lang, r').value)
  {
    hide ReportOf, ReportValue, MeaningOf, KeyOf, IsListing, WritesNumbers, IsTyped;
    var (one, other) := (ReportOf(lang, r).value, ReportOf(lang, r').value);
    OneKeyOneValue(lang, l, l', ReportValue(lang, l, one), ReportValue(lang, l', other));
    ReportExactly(lang, l, l', one, other);
  }

  /** A report has a key if its meaning is known, and two have the same one exactly if
      they mean the same, whatever order their objects list their keys in. */
  lemma {:induction false} KeyMeansExactly(lang: Language, l: Value -> Json, l': Value -> Json, r: Rec, r': Rec)
    requires lang.Valid() && IsListing(l) && IsListing(l') && IsTyped(r) && IsTyped(r')
    ensures CompatibilityKey(lang, l, r).Some? <==> ReportOf(lang, r).Some?
    ensures ReportOf(lang, r).Some? && ReportOf(lang, r').Some? ==>
      (CompatibilityKey(lang, l, r) == CompatibilityKey(lang, l', r')
       <==> MeaningOf(ReportOf(lang, r).value) == MeaningOf(ReportOf(lang, r').value))
  {
    hide ReportOf, ReportValue, MeaningOf, KeyOf, IsListing, IsTyped;
    if ReportOf(lang, r).Some? && ReportOf(lang, r').Some? {
      var (one, other) := (ReportOf(lang, r).value, ReportOf(lang, r').value);
      ReportExactly(lang, l, l', one, other);
      KeyExactly(lang, l, l', ReportValue(lang, l, one), ReportValue(lang, l', other));
    }
  }

  // --- what leaves the key as it is ---

  const CREDIT := {"id", "canonicalId", "contentHash", "revision", "recordedAt", "provenance", "headline", "description",
                   "externalIds", "extras", "groupId"}

  /** Identity, credit and text do not show: two records that differ in nothing else,
      both credited to one source, have one key. */
  lemma {:induction false} CreditIsIgnored(lang: Language, l: Value -> Json, r: Rec, r': Rec)
    requires IsTyped(r) && IsTyped(r') && r - CREDIT == r' - CREDIT
    requires IsReported(r) && IsReported(r')
    ensures CompatibilityKey(lang, l, r) == CompatibilityKey(lang, l, r')
  {
    KeptFields();
    hide PlaceOf, EffectsOf, PhasesUpTo, PlaceFits, EffectFits, PhaseFits, IsTyped, ReportValue, KeyOf, CREDIT, RECORD_OWN, KnownValidity,
      ReportFits;
    SameElsewhere(r, r', "location");
    SameElsewhere(r, r', "effects");
    SameElsewhere(r, r', "details");
    SameElsewhere(r, r', "freshness");
    SameElsewhere(r, r', "validity");
    OwnFieldsGone(r, r');
  }

  lemma {:induction false} KeptFields()
    ensures forall key :: key in {"location", "effects", "details", "freshness", "validity"} ==> key !in CREDIT
  {
  }

  lemma {:induction false} SameElsewhere(r: Rec, r': Rec, key: string)
    requires r - CREDIT == r' - CREDIT && key !in CREDIT
    ensures At(r, key) == At(r', key)
  {
    hide CREDIT;
    assert key in r <==> key in r - CREDIT;
    assert key in r' <==> key in r' - CREDIT;
    assert key in r ==> r[key] == (r - CREDIT)[key];
  }

  lemma {:induction false} OwnFieldsGone(r: Rec, r': Rec)
    requires r - CREDIT == r' - CREDIT
    ensures r - RECORD_OWN == r' - RECORD_OWN
  {
    assert CREDIT <= RECORD_OWN;
    hide CREDIT, RECORD_OWN;
    assert r - RECORD_OWN == (r - CREDIT) - RECORD_OWN;
    assert r' - RECORD_OWN == (r' - CREDIT) - RECORD_OWN;
  }
}
