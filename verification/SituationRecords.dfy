/** What one key means of the records themselves: which of their fields two reports with
    one key share, and when a report has a key at all, with every field named. */
module SituationRecords {
  import opened Basics
  import opened CanonicalJson
  import opened JsonText
  import opened Situation
  import opened SituationLaws

  // --- what a record says, field by field ---

  /** A road with its reference as it is compared: without spaces, in upper case. */
  function RoadSaid(lang: Language, road: Value): Value {
    if road.Record? && "ref" in road.fields && road.fields["ref"].Atom? && road.fields["ref"].atom.Text?
    then Record(road.fields["ref" := Atom(Text(lang.upper(Unspaced(road.fields["ref"].atom.s))))])
    else road
  }

  /** A geometry as it is compared: of a point of the report's own, only what comes after its
      first two coordinates. */
  function GeometrySaid(geometry: Value, nearby: bool): Value {
    if nearby && geometry.Record? && "type" in geometry.fields && geometry.fields["type"] == Atom(Text("Point"))
       && "coordinates" in geometry.fields && geometry.fields["coordinates"].List?
    then
      var given := geometry.fields["coordinates"].items;
      Record(geometry.fields["coordinates" := List(if |given| < 2 then [] else given[2..])])
    else geometry
  }

  datatype LocationSaid = LocationSaid(rest: Rec, geometry: Option<Value>, roads: Option<multiset<Value>>, noRoads: Option<Value>)

  function RoadsSaid(lang: Language, roads: seq<Value>): seq<Value> {
    seq(|roads|, i requires 0 <= i < |roads| => RoadSaid(lang, roads[i]))
  }

  function SayLocation(lang: Language, location: Rec, nearby: bool): LocationSaid {
    LocationSaid(
      location - {"geometry", "roads"},
      if "geometry" in location then Some(GeometrySaid(location["geometry"], nearby)) else None,
      if "roads" in location && location["roads"].List? then Some(multiset(RoadsSaid(lang, location["roads"].items))) else None,
      if "roads" in location && !location["roads"].List? then Some(location["roads"]) else None)
  }

  datatype EffectSaid = EffectSaid(rest: Rec, location: LocationSaid, direction: Option<Value>, validity: Option<Value>)

  /** The field's value where it is given, else the other. */
  function GivenOr(r: Rec, key: string, other: Option<Value>): Option<Value> {
    if key in r && r[key] != Atom(Null) then Some(r[key]) else other
  }

  function OwnLocation(effect: Rec): Rec {
    if "location" in effect && effect["location"].Record? then effect["location"].fields else map[]
  }

  function SayEffect(lang: Language, effect: Value, location: Rec, validity: Option<Value>): EffectSaid {
    if !effect.Record? then EffectSaid(map[], SayLocation(lang, map[], true), None, None)
    else
      var (e, own) := (effect.fields, OwnLocation(effect.fields));
      var here := location + own;
      EffectSaid(
        e - {"id", "sourceRecordRef", "source", "location", "direction", "validity"},
        SayLocation(lang, here, "geometry" !in own),
        GivenOr(e, "direction", if "direction" in here then Some(here["direction"]) else None),
        GivenOr(e, "validity", validity))
  }

  function SayEffects(lang: Language, effects: Option<Value>, location: Rec, validity: Option<Value>): multiset<EffectSaid> {
    if effects.Some? && effects.value.List?
    then multiset(MapOver((e: Value) => SayEffect(lang, e, location, validity), effects.value.items))
    else multiset{}
  }

  datatype PhaseSaid = PhaseSaid(rest: Rec, effects: multiset<EffectSaid>)

  function Field(r: Rec, key: string): Option<Value> { if key in r then Some(r[key]) else None }

  function SayPhase(lang: Language, phase: Value, location: Rec): PhaseSaid {
    if !phase.Record? then PhaseSaid(map[], multiset{})
    else
      var p := phase.fields;
      PhaseSaid(p - {"id", "name", "effects"}, SayEffects(lang, Field(p, "effects"), location, Field(p, "validity")))
  }

  datatype DetailsSaid = DetailsSaid(rest: Rec, phases: Option<multiset<PhaseSaid>>)

  function SayDetails(lang: Language, details: Rec, location: Rec): DetailsSaid {
    DetailsSaid(
      details - {"phases"},
      if "phases" in details && details["phases"].List?
      then Some(multiset(MapOver((p: Value) => SayPhase(lang, p, location), details["phases"].items)))
      else None)
  }

  datatype RecordSaid = RecordSaid(
    rest: Rec, location: LocationSaid, effects: multiset<EffectSaid>, details: Option<DetailsSaid>, freshness: Option<Rec>)

  function ObjectIn(r: Rec, key: string): Option<Rec> { if key in r && r[key].Record? then Some(r[key].fields) else None }

  /** Everything a report says but who reports it, when and in what words. */
  function SayRecord(lang: Language, r: Rec): RecordSaid {
    var location := ObjectIn(r, "location").GetOr(map[]);
    RecordSaid(
      r - {"id", "canonicalId", "contentHash", "revision", "recordedAt", "provenance", "headline", "description",
           "externalIds", "extras", "groupId", "freshness", "location", "effects", "details"},
      SayLocation(lang, location, true),
      SayEffects(lang, Field(r, "effects"), location, Field(r, "validity")),
      if ObjectIn(r, "details").Some? then Some(SayDetails(lang, ObjectIn(r, "details").value, location)) else None,
      if ObjectIn(r, "freshness").Some? then Some(ObjectIn(r, "freshness").value - {"fetchedAt", "sourceCheckedAt"}) else None)
  }

  // --- it is what the meaning holds ---

  lemma {:induction false} RoadAgrees(lang: Language, road: Rec)
    ensures Record(RoadMeaning(lang, road)) == RoadSaid(lang, Record(road))
  {
    hide Unspaced;
  }

  lemma {:induction false} RoadsAgree(lang: Language, roads: seq<Value>)
    requires forall road :: road in roads ==> road.Record?
    ensures seq(|roads|, i requires 0 <= i < |roads| => Record(RoadMeaning(lang, roads[i].fields))) == RoadsSaid(lang, roads)
  {
    hide Unspaced;
    var read := seq(|roads|, i requires 0 <= i < |roads| => Record(RoadMeaning(lang, roads[i].fields)));
    forall i | 0 <= i < |roads| ensures read[i] == RoadSaid(lang, roads[i]) {
      assert roads[i] in roads;
      RoadAgrees(lang, roads[i].fields);
    }
    hide RoadMeaning, RoadSaid;
  }

  lemma {:induction false} GeometryAgrees(geometry: Rec, nearby: bool)
    requires Says(geometry, "type", "Point") ==> "coordinates" in geometry && geometry["coordinates"].List?
    ensures Record(GeometryMeaning(geometry, nearby)) == GeometrySaid(Record(geometry), nearby)
  {
  }

  /** The parts of a known location's meaning. */
  lemma {:induction false} PlaceParts(lang: Language, location: Rec, nearby: bool)
    requires IsShaped(location) && PlaceOf(lang, location, nearby).Some?
    ensures var (p, said) := (PlaceOf(lang, location, nearby).value, SayLocation(lang, location, nearby));
      && said.geometry.Some? && "geometry" in p.fields && p.fields["geometry"] == said.geometry.value
      && p.fields - {"geometry", "roads"} == said.rest
      && (if p.roads.Some? then said.roads == Some(multiset(p.roads.value)) else said.roads.None?)
      && (p.roads.Some? <==> said.roads.Some?)
      && said.noRoads == (if "roads" in p.fields then Some(p.fields["roads"]) else None)
  {
    var geometry := AsObject(At(location, "geometry")).value;
    GeometryAgrees(geometry, nearby);
    if "roads" in location && location["roads"].List? {
      RoadsAgree(lang, location["roads"].items);
    }
    hide KnownDirection, GeometryMeaning, GeometrySaid, RoadMeaning, RoadsSaid;
  }

  lemma {:induction false} PlaceFromParts(p: Place, p': Place)
    requires PlaceFits(p) && PlaceFits(p') && "geometry" in p.fields && "geometry" in p'.fields
    ensures p.fields == p'.fields
       <==> p.fields["geometry"] == p'.fields["geometry"] && p.fields - {"geometry", "roads"} == p'.fields - {"geometry", "roads"}
            && Field(p.fields, "roads") == Field(p'.fields, "roads")
  {
    if p.fields["geometry"] == p'.fields["geometry"] && p.fields - {"geometry", "roads"} == p'.fields - {"geometry", "roads"}
       && Field(p.fields, "roads") == Field(p'.fields, "roads") {
      forall k ensures Field(p.fields, k) == Field(p'.fields, k) {
        if k != "geometry" && k != "roads" {
          assert Field(p.fields - {"geometry", "roads"}, k) == Field(p.fields, k);
          assert Field(p'.fields - {"geometry", "roads"}, k) == Field(p'.fields, k);
        }
      }
      SameFields(p.fields, p'.fields);
    }
  }

  lemma {:induction false} SameFields(a: Rec, b: Rec)
    requires forall k :: Field(a, k) == Field(b, k)
    ensures a == b
  {
    forall k ensures k in a <==> k in b { assert Field(a, k) == Field(b, k); }
    forall k | k in a ensures a[k] == b[k] { assert Field(a, k) == Field(b, k); }
  }

  /** Two known locations mean the same exactly if they say the same. */
  lemma {:induction false} PlaceSaysSame(lang: Language, a: Rec, b: Rec, nearby: bool, nearby': bool)
    requires IsShaped(a) && IsShaped(b) && PlaceOf(lang, a, nearby).Some? && PlaceOf(lang, b, nearby').Some?
    ensures MeaningOfPlace(PlaceOf(lang, a, nearby).value) == MeaningOfPlace(PlaceOf(lang, b, nearby').value)
       <==> SayLocation(lang, a, nearby) == SayLocation(lang, b, nearby')
  {
    PlaceParts(lang, a, nearby);
    PlaceParts(lang, b, nearby');
    hide PlaceOf, SayLocation, IsShaped;
    PlaceFromParts(PlaceOf(lang, a, nearby).value, PlaceOf(lang, b, nearby').value);
  }

  lemma {:induction false} EffectParts(lang: Language, e: Rec, location: Rec, validity: Option<Value>)
    requires IsShaped(Effective(e, location)) && EffectOf(lang, e, location, validity).Some?
    ensures var (known, own, said) := (EffectOf(lang, e, location, validity).value, OwnLocation(e), SayEffect(lang, Record(e), location, validity));
      && known.fields == said.rest && said.validity == Some(known.validity) && said.direction == known.direction
      && Effective(e, location) == location + own
      && PlaceOf(lang, Effective(e, location), "geometry" !in own) == Some(known.place)
      && said.location == SayLocation(lang, Effective(e, location), "geometry" !in own)
  {
    hide PlaceOf, SayLocation, KnownDirection, IsShaped;
    if !(("location" in e) && e["location"].Record?) {
      assert location + map[] == location;
    }
  }

  /** Two known effects mean the same exactly if they say the same. */
  lemma {:induction false} EffectSaysSame(lang: Language, e: Rec, e': Rec, a: Rec, b: Rec, v: Option<Value>, v': Option<Value>)
    requires IsShaped(Effective(e, a)) && IsShaped(Effective(e', b))
    requires EffectOf(lang, e, a, v).Some? && EffectOf(lang, e', b, v').Some?
    ensures MeaningOfEffect(EffectOf(lang, e, a, v).value) == MeaningOfEffect(EffectOf(lang, e', b, v').value)
       <==> SayEffect(lang, Record(e), a, v) == SayEffect(lang, Record(e'), b, v')
  {
    EffectParts(lang, e, a, v);
    EffectParts(lang, e', b, v');
    hide EffectOf, SayLocation, SayEffect, IsShaped, PlaceOf, MeaningOfPlace, Effective, OwnLocation;
    PlaceSaysSame(lang, Effective(e, a), Effective(e', b), "geometry" !in OwnLocation(e), "geometry" !in OwnLocation(e'));
  }

  /** The effects read of a list, one by one. */
  lemma {:induction false} EffectsReadAt(lang: Language, items: seq<Value>, n: nat, location: Rec, validity: Option<Value>)
    requires n <= |items| && AreShaped(Some(List(items)), location) && EffectsUpTo(lang, items, n, location, validity).Some?
    ensures var es := EffectsUpTo(lang, items, n, location, validity).value;
      && |es| == n
      && forall i :: 0 <= i < n ==> ReadsEffect(lang, items[i], location, validity, es[i])
  {
    hide EffectOf, IsShaped, Effective, EffectFits;
    if n > 0 {
      assert items[n - 1] in items;
      EffectsReadAt(lang, items, n - 1, location, validity);
    }
  }

  ghost predicate ReadsEffect(lang: Language, item: Value, location: Rec, validity: Option<Value>, e: Effect) {
    item.Record? && IsShaped(Effective(item.fields, location)) && EffectOf(lang, item.fields, location, validity) == Some(e)
  }

  lemma {:induction false} ReadEffectsSaySame(lang: Language, x: Value, y: Value, a: Rec, b: Rec, v: Option<Value>, v': Option<Value>, e: Effect, e': Effect)
    requires ReadsEffect(lang, x, a, v, e) && ReadsEffect(lang, y, b, v', e')
    ensures MeaningOfEffect(e) == MeaningOfEffect(e') <==> SayEffect(lang, x, a, v) == SayEffect(lang, y, b, v')
  {
    hide EffectOf, IsShaped, Effective, SayEffect, MeaningOfEffect;
    EffectSaysSame(lang, x.fields, y.fields, a, b, v, v');
  }

  // --- bags of what is read, by position ---

  function Removed<A>(s: seq<A>, k: nat): seq<A>
    requires k < |s|
  {
    s[..k] + s[k + 1..]
  }

  lemma {:induction false} RemovedBag<A(!new)>(s: seq<A>, k: nat)
    requires k < |s|
    ensures multiset(s) == multiset(Removed(s, k)) + multiset{s[k]} && |Removed(s, k)| == |s| - 1
    ensures forall j :: 0 <= j < |s| - 1 ==> Removed(s, k)[j] == s[if j < k then j else j + 1]
  {
    assert s == s[..k] + [s[k]] + s[k + 1..];
  }

  lemma {:induction false} Found<A(!new)>(x: A, s: seq<A>) returns (k: nat)
    requires x in multiset(s)
    ensures k < |s| && s[k] == x
  {
    assert x in s;
    k :| 0 <= k < |s| && s[k] == x;
  }

  lemma {:induction false} BagsFollow<A(!new), B(!new)>(xs: seq<A>, xs': seq<A>, ys: seq<B>, ys': seq<B>)
    requires |xs| == |ys| && |xs'| == |ys'| && multiset(xs) == multiset(xs')
    requires forall i, j :: 0 <= i < |xs| && 0 <= j < |xs'| && xs[i] == xs'[j] ==> ys[i] == ys'[j]
    ensures multiset(ys) == multiset(ys')
    decreases |xs|
  {
    assert |multiset(xs)| == |multiset(xs')|;
    if xs != [] {
      var n := |xs| - 1;
      assert xs[n] in multiset(xs);
      var k := Found(xs[n], xs');
      RemovedBag(xs, n);
      RemovedBag(ys, n);
      RemovedBag(xs', k);
      RemovedBag(ys', k);
      hide Removed;
      assert multiset(Removed(xs, n)) == multiset(xs) - multiset{xs[n]};
      assert multiset(Removed(xs', k)) == multiset(xs') - multiset{xs'[k]};
      BagsFollow(Removed(xs, n), Removed(xs', k), Removed(ys, n), Removed(ys', k));
    }
  }

  /** Lists of which any two entries agree alike under two readings, whose bags then do. */
  lemma {:induction false} BagsByPosition<A(!new), B(!new)>(xs: seq<A>, xs': seq<A>, ys: seq<B>, ys': seq<B>)
    requires |xs| == |ys| && |xs'| == |ys'|
    requires forall i, j :: 0 <= i < |xs| && 0 <= j < |xs'| ==> (xs[i] == xs'[j] <==> ys[i] == ys'[j])
    ensures multiset(xs) == multiset(xs') <==> multiset(ys) == multiset(ys')
  {
    if multiset(xs) == multiset(xs') {
      BagsFollow(xs, xs', ys, ys');
    }
    if multiset(ys) == multiset(ys') {
      BagsFollow(ys, ys', xs, xs');
    }
  }

  // --- lists of effects and of phases ---

  lemma {:induction false} EffectListsSaySame(lang: Language, xs: seq<Value>, ys: seq<Value>, a: Rec, b: Rec, v: Option<Value>, v': Option<Value>,
                                              es: seq<Effect>, es': seq<Effect>)
    requires |es| == |xs| && forall i :: 0 <= i < |xs| ==> ReadsEffect(lang, xs[i], a, v, es[i])
    requires |es'| == |ys| && forall j :: 0 <= j < |ys| ==> ReadsEffect(lang, ys[j], b, v', es'[j])
    ensures multiset(MapOver(MeaningOfEffect, es)) == multiset(MapOver(MeaningOfEffect, es'))
       <==> multiset(MapOver((e: Value) => SayEffect(lang, e, a, v), xs)) == multiset(MapOver((e: Value) => SayEffect(lang, e, b, v'), ys))
  {
    var (f, f') := ((e: Value) => SayEffect(lang, e, a, v), (e: Value) => SayEffect(lang, e, b, v'));
    forall i, j | 0 <= i < |xs| && 0 <= j < |ys|
      ensures MeaningOfEffect(es[i]) == MeaningOfEffect(es'[j]) <==> SayEffect(lang, xs[i], a, v) == SayEffect(lang, ys[j], b, v')
    {
      ReadEffectsSaySame(lang, xs[i], ys[j], a, b, v, v', es[i], es'[j]);
    }
    hide MeaningOfEffect, SayEffect, ReadsEffect;
    BagsByPosition(MapOver(MeaningOfEffect, es), MapOver(MeaningOfEffect, es'), MapOver(f, xs), MapOver(f', ys));
  }

  lemma {:induction false} EffectsSaySame(lang: Language, x: Option<Value>, y: Option<Value>, a: Rec, b: Rec, v: Option<Value>, v': Option<Value>)
    requires AreShaped(x, a) && AreShaped(y, b) && EffectsOf(lang, x, a, v).Some? && EffectsOf(lang, y, b, v').Some?
    ensures multiset(MapOver(MeaningOfEffect, EffectsOf(lang, x, a, v).value)) == multiset(MapOver(MeaningOfEffect, EffectsOf(lang, y, b, v').value))
       <==> SayEffects(lang, x, a, v) == SayEffects(lang, y, b, v')
  {
    var (xs, ys) := (x.value.items, y.value.items);
    EffectsReadAt(lang, xs, |xs|, a, v);
    EffectsReadAt(lang, ys, |ys|, b, v');
    hide EffectsUpTo, AreShaped, ReadsEffect, MapOver;
    EffectListsSaySame(lang, xs, ys, a, b, v, v', EffectsOf(lang, x, a, v).value, EffectsOf(lang, y, b, v').value);
  }

  lemma {:induction false} PhaseSaysSame(lang: Language, x: Value, y: Value, a: Rec, b: Rec)
    requires x.Record? ==> AreShaped(At(x.fields, "effects"), a)
    requires y.Record? ==> AreShaped(At(y.fields, "effects"), b)
    requires PhaseOf(lang, x, a).Some? && PhaseOf(lang, y, b).Some?
    ensures MeaningOfPhase(PhaseOf(lang, x, a).value) == MeaningOfPhase(PhaseOf(lang, y, b).value)
       <==> SayPhase(lang, x, a) == SayPhase(lang, y, b)
  {
    assert Field(x.fields, "effects") == At(x.fields, "effects") && Field(y.fields, "effects") == At(y.fields, "effects");
    assert Field(x.fields, "validity") == At(x.fields, "validity") && Field(y.fields, "validity") == At(y.fields, "validity");
    hide EffectsOf, SayEffects, MapOver, MeaningOfEffect, AreShaped, KnownValidity, Field, At;
    EffectsSaySame(lang, At(x.fields, "effects"), At(y.fields, "effects"), a, b, At(x.fields, "validity"), At(y.fields, "validity"));
  }

  ghost predicate ReadsPhase(lang: Language, item: Value, location: Rec, p: Phase) {
    && (item.Record? ==> AreShaped(At(item.fields, "effects"), location))
    && PhaseOf(lang, item, location) == Some(p)
  }

  lemma {:induction false} PhasesReadAt(lang: Language, items: seq<Value>, n: nat, location: Rec)
    requires n <= |items| && ArePhasesShaped(items, location) && PhasesUpTo(lang, items, n, location).Some?
    ensures var ps := PhasesUpTo(lang, items, n, location).value;
      |ps| == n && forall i :: 0 <= i < n ==> ReadsPhase(lang, items[i], location, ps[i])
  {
    hide PhaseOf, AreShaped, PhaseFits, At;
    if n > 0 {
      assert items[n - 1] in items;
      PhasesReadAt(lang, items, n - 1, location);
    }
  }

  lemma {:induction false} PhasesSaySame(lang: Language, xs: seq<Value>, ys: seq<Value>, a: Rec, b: Rec, ps: seq<Phase>, ps': seq<Phase>)
    requires |ps| == |xs| && forall i :: 0 <= i < |xs| ==> ReadsPhase(lang, xs[i], a, ps[i])
    requires |ps'| == |ys| && forall j :: 0 <= j < |ys| ==> ReadsPhase(lang, ys[j], b, ps'[j])
    ensures multiset(MapOver(MeaningOfPhase, ps)) == multiset(MapOver(MeaningOfPhase, ps'))
       <==> multiset(MapOver((p: Value) => SayPhase(lang, p, a), xs)) == multiset(MapOver((p: Value) => SayPhase(lang, p, b), ys))
  {
    var (f, f') := ((p: Value) => SayPhase(lang, p, a), (p: Value) => SayPhase(lang, p, b));
    forall i, j | 0 <= i < |xs| && 0 <= j < |ys|
      ensures MeaningOfPhase(ps[i]) == MeaningOfPhase(ps'[j]) <==> SayPhase(lang, xs[i], a) == SayPhase(lang, ys[j], b)
    {
      assert ReadsPhase(lang, xs[i], a, ps[i]) && ReadsPhase(lang, ys[j], b, ps'[j]);
      PhaseSaysSame(lang, xs[i], ys[j], a, b);
    }
    hide MeaningOfPhase, SayPhase, ReadsPhase;
    BagsByPosition(MapOver(MeaningOfPhase, ps), MapOver(MeaningOfPhase, ps'), MapOver(f, xs), MapOver(f', ys));
  }

  // --- whole records ---

  /** What is read of a known report, part by part. */
  lemma {:induction false} ReportParts(lang: Language, r: Rec)
    requires IsTyped(r) && ReportOf(lang, r).Some?
    ensures AsObject(At(r, "location")).Some?
    ensures var (report, location) := (ReportOf(lang, r).value, AsObject(At(r, "location")).value);
      && IsShaped(location) && AreShaped(At(r, "effects"), location)
      && PlaceOf(lang, location, true) == Some(report.place)
      && EffectsOf(lang, At(r, "effects"), location, At(r, "validity")) == Some(report.effects)
      && report.fields == r - RECORD_OWN
      && report.freshness == FreshnessOf(r)
      && (match PhasesIn(r) case Some(List(items)) => ArePhasesShaped(items, location) case _ => true)
      && ReportPhases(lang, r, location).Some? && report.details == DetailsOf(r, ReportPhases(lang, r, location).value)
  {
    assert IsReported(r) && AsObject(At(r, "location")).Some?;
    hide PlaceOf, EffectsOf, ReportPhases, AreShaped, IsShaped, IsReported, FreshnessOf, DetailsOf, CountMembers, RECORD_OWN, ReportFits, At,
      ArePhasesShaped;
  }

  lemma {:induction false} DetailsParts(lang: Language, r: Rec, location: Rec)
    requires match PhasesIn(r) case Some(List(items)) => ArePhasesShaped(items, location) case _ => true
    requires ReportPhases(lang, r, location).Some?
    ensures var (details, d) := (ObjectIn(r, "details"), DetailsOf(r, ReportPhases(lang, r, location).value));
      && (d.Some? <==> details.Some?)
      && (d.Some? ==>
            && d.value.fields == SayDetails(lang, details.value, location).rest
            && (d.value.phases.Some? <==> "phases" in details.value && details.value["phases"].List?)
            && (d.value.phases.Some? ==>
                  var items := details.value["phases"].items;
                  |d.value.phases.value| == |items|
                  && forall i :: 0 <= i < |items| ==> ReadsPhase(lang, items[i], location, d.value.phases.value[i])))
  {
    if ObjectIn(r, "details").Some? {
      var details := ObjectIn(r, "details").value;
      if "phases" in details && details["phases"].List? {
        var items := details["phases"].items;
        assert PhasesIn(r) == Some(List(items));
        PhasesReadAt(lang, items, |items|, location);
      }
    }
    hide PhasesUpTo, ReadsPhase, SayPhase, ArePhasesShaped, MapOver, PhaseFits;
  }

  lemma {:induction false} DetailsSaySame(lang: Language, r: Rec, r': Rec, a: Rec, b: Rec)
    requires match PhasesIn(r) case Some(List(items)) => ArePhasesShaped(items, a) case _ => true
    requires match PhasesIn(r') case Some(List(items)) => ArePhasesShaped(items, b) case _ => true
    requires ReportPhases(lang, r, a).Some? && ReportPhases(lang, r', b).Some?
    requires ObjectIn(r, "details").Some? && ObjectIn(r', "details").Some?
    requires DetailsOf(r, ReportPhases(lang, r, a).value).Some? && DetailsOf(r', ReportPhases(lang, r', b).value).Some?
    ensures MeaningOfDetails(DetailsOf(r, ReportPhases(lang, r, a).value).value) == MeaningOfDetails(DetailsOf(r', ReportPhases(lang, r', b).value).value)
       <==> SayDetails(lang, ObjectIn(r, "details").value, a) == SayDetails(lang, ObjectIn(r', "details").value, b)
  {
    DetailsParts(lang, r, a);
    DetailsParts(lang, r', b);
    var (d, d') := (DetailsOf(r, ReportPhases(lang, r, a).value).value, DetailsOf(r', ReportPhases(lang, r', b).value).value);
    var (given, given') := (ObjectIn(r, "details").value, ObjectIn(r', "details").value);
    hide ReportPhases, DetailsOf, ObjectIn, PhasesIn, ReadsPhase, SayPhase, MapOver, MeaningOfPhase, ArePhasesShaped;
    if d.phases.Some? && d'.phases.Some? {
      PhasesSaySame(lang, given["phases"].items, given'["phases"].items, a, b, d.phases.value, d'.phases.value);
    }
  }

  lemma {:induction false} RestOf(r: Rec)
    ensures r - RECORD_OWN == r - {"id", "canonicalId", "contentHash", "revision", "recordedAt", "provenance", "headline", "description",
                                   "externalIds", "extras", "groupId", "freshness", "location", "effects", "details"}
  {
  }

  lemma {:induction false} FreshnessSaid(r: Rec)
    ensures FreshnessOf(r) == if ObjectIn(r, "freshness").Some? then Some(ObjectIn(r, "freshness").value - {"fetchedAt", "sourceCheckedAt"}) else None
  {
  }

  lemma {:induction false} SaidParts(lang: Language, r: Rec)
    requires IsTyped(r) && ReportOf(lang, r).Some?
    ensures AsObject(At(r, "location")).Some?
    ensures var (said, report, location) := (SayRecord(lang, r), ReportOf(lang, r).value, AsObject(At(r, "location")).value);
      && said.rest == report.fields && said.freshness == report.freshness
      && said.location == SayLocation(lang, location, true)
      && said.effects == SayEffects(lang, At(r, "effects"), location, At(r, "validity"))
      && (said.details.Some? <==> report.details.Some?) && (said.details.Some? <==> ObjectIn(r, "details").Some?)
      && (said.details.Some? ==> said.details.value == SayDetails(lang, ObjectIn(r, "details").value, location))
  {
    ReportParts(lang, r);
    RestOf(r);
    FreshnessSaid(r);
    var location := AsObject(At(r, "location")).value;
    DetailsParts(lang, r, location);
    assert ObjectIn(r, "location") == Some(location);
    assert Field(r, "effects") == At(r, "effects") && Field(r, "validity") == At(r, "validity");
    hide ReportOf, ReportPhases, DetailsOf, SayLocation, SayEffects, SayDetails, FreshnessOf, RECORD_OWN, IsTyped, PlaceOf, EffectsOf, ReadsPhase,
      AreShaped, IsShaped, PhasesIn, ArePhasesShaped, At, Field;
  }

  /** Two known reports mean the same exactly if their records say the same. */
  lemma {:induction false} RecordsSaySame(lang: Language, r: Rec, r': Rec)
    requires IsTyped(r) && IsTyped(r') && ReportOf(lang, r).Some? && ReportOf(lang, r').Some?
    ensures MeaningOf(ReportOf(lang, r).value) == MeaningOf(ReportOf(lang, r').value) <==> SayRecord(lang, r) == SayRecord(lang, r')
  {
    ReportParts(lang, r);
    ReportParts(lang, r');
    SaidParts(lang, r);
    SaidParts(lang, r');
    var (a, b) := (AsObject(At(r, "location")).value, AsObject(At(r', "location")).value);
    hide ReportOf, SayRecord, IsTyped, PlaceOf, EffectsOf, SayLocation, SayEffects, SayDetails, ReportPhases, DetailsOf, ObjectIn, AreShaped, IsShaped,
      PhasesIn, ArePhasesShaped, RECORD_OWN, FreshnessOf, MeaningOfPlace, MeaningOfEffect, MeaningOfDetails, MapOver, At, AsObject;
    PlaceSaysSame(lang, a, b, true, true);
    EffectsSaySame(lang, At(r, "effects"), At(r', "effects"), a, b, At(r, "validity"), At(r', "validity"));
    if ObjectIn(r, "details").Some? && ObjectIn(r', "details").Some? {
      DetailsSaySame(lang, r, r', a, b);
    }
  }

  // --- one key, on records ---

  /** Every field but the named ones is the same in both. */
  ghost predicate AgreeBut(a: Rec, b: Rec, names: set<string>) {
    forall k :: k !in names ==> (k in a <==> k in b) && (k in a ==> a[k] == b[k])
  }

  /** One key, two records with one key, whatever the comparison: everything they say but who
      says it, when and in what words is the same; with a comparison that ties no two strings,
      exactly then. */
  lemma {:induction false} OneKeyOneRecord(lang: Language, l: Value -> Json, l': Value -> Json, r: Rec, r': Rec)
    requires WritesNumbers(lang.number) && IsListing(l) && IsListing(l') && IsTyped(r) && IsTyped(r')
    requires CompatibilityKey(lang, l, r).Some? && CompatibilityKey(lang, l', r').Some?
    ensures CompatibilityKey(lang, l, r) == CompatibilityKey(lang, l', r') ==> SayRecord(lang, r) == SayRecord(lang, r')
    ensures lang.Valid() && SayRecord(lang, r) == SayRecord(lang, r') ==> CompatibilityKey(lang, l, r) == CompatibilityKey(lang, l', r')
  {
    hide SayRecord, ReportValue, KeyOf, IsListing, IsTyped, WritesNumbers, MeaningOf, ReportOf;
    RecordsSaySame(lang, r, r');
    if CompatibilityKey(lang, l, r) == CompatibilityKey(lang, l', r') {
      OneKeyOneMeaning(lang, l, l', r, r');
    }
    if lang.Valid() {
      KeyMeansExactly(lang, l, l', r, r');
    }
  }

  lemma {:induction false} AgreeElsewhere(a: Rec, b: Rec, names: set<string>)
    requires a - names == b - names
    ensures AgreeBut(a, b, names)
  {
    forall k | k !in names ensures (k in a <==> k in b) && (k in a ==> a[k] == b[k]) {
      assert k in a <==> k in a - names;
      assert k in b <==> k in b - names;
      assert k in a ==> a[k] == (a - names)[k];
    }
  }

  /** Records that say the same agree on every field that is not among those named here: in
      the record itself, its location, its details and its freshness. */
  lemma {:induction false} SameSaidAgrees(lang: Language, r: Rec, r': Rec)
    requires SayRecord(lang, r) == SayRecord(lang, r')
    ensures AgreeBut(r, r', {"id", "canonicalId", "contentHash", "revision", "recordedAt", "provenance", "headline", "description",
                             "externalIds", "extras", "groupId", "freshness", "location", "effects", "details"})
    ensures AgreeBut(ObjectIn(r, "location").GetOr(map[]), ObjectIn(r', "location").GetOr(map[]), {"geometry", "roads"})
    ensures ObjectIn(r, "details").Some? <==> ObjectIn(r', "details").Some?
    ensures AgreeBut(ObjectIn(r, "details").GetOr(map[]), ObjectIn(r', "details").GetOr(map[]), {"phases"})
    ensures ObjectIn(r, "freshness").Some? <==> ObjectIn(r', "freshness").Some?
    ensures AgreeBut(ObjectIn(r, "freshness").GetOr(map[]), ObjectIn(r', "freshness").GetOr(map[]), {"fetchedAt", "sourceCheckedAt"})
  {
    AgreeElsewhere(r, r', {"id", "canonicalId", "contentHash", "revision", "recordedAt", "provenance", "headline", "description",
                           "externalIds", "extras", "groupId", "freshness", "location", "effects", "details"});
    var (a, b) := (ObjectIn(r, "location").GetOr(map[]), ObjectIn(r', "location").GetOr(map[]));
    assert SayLocation(lang, a, true) == SayLocation(lang, b, true);
    AgreeElsewhere(a, b, {"geometry", "roads"});
    AgreeElsewhere(ObjectIn(r, "details").GetOr(map[]), ObjectIn(r', "details").GetOr(map[]), {"phases"});
    AgreeElsewhere(ObjectIn(r, "freshness").GetOr(map[]), ObjectIn(r', "freshness").GetOr(map[]), {"fetchedAt", "sourceCheckedAt"});
    hide AgreeBut, SayEffects;
  }

  /** The phases of a report's details, where there are any. */
  function PhasesGiven(r: Rec): Option<Value> { Field(ObjectIn(r, "details").GetOr(map[]), "phases") }

  function Without(v: Value, names: set<string>): Rec { if v.Record? then v.fields - names else map[] }

  function ItemsOf(v: Option<Value>): seq<Value> { if v.Some? && v.value.List? then v.value.items else [] }

  /** What each effect holds outside the fields read with its surroundings, and those of the report it came in. */
  function EffectsKept(effects: Option<Value>): multiset<Rec> {
    multiset(MapOver((e: Value) => Without(e, {"id", "sourceRecordRef", "source", "location", "direction", "validity"}), ItemsOf(effects)))
  }

  datatype PhaseKept = PhaseKept(rest: Rec, effects: multiset<Rec>)

  function KeptOf(phase: Value): PhaseKept {
    PhaseKept(Without(phase, {"id", "name", "effects"}), EffectsKept(if phase.Record? then Field(phase.fields, "effects") else None))
  }

  function PhasesKept(phases: Option<Value>): multiset<PhaseKept> { multiset(MapOver(KeptOf, ItemsOf(phases))) }

  lemma {:induction false} EffectsKeptFollow(lang: Language, x: Option<Value>, y: Option<Value>, a: Rec, b: Rec, v: Option<Value>, v': Option<Value>)
    requires SayEffects(lang, x, a, v) == SayEffects(lang, y, b, v')
    ensures EffectsKept(x) == EffectsKept(y)
  {
    var (xs, ys) := (ItemsOf(x), ItemsOf(y));
    var (f, f') := ((e: Value) => SayEffect(lang, e, a, v), (e: Value) => SayEffect(lang, e, b, v'));
    var g := (e: Value) => Without(e, {"id", "sourceRecordRef", "source", "location", "direction", "validity"});
    forall e: Value, e': Value | f(e) == f'(e') ensures g(e) == g(e') {
      assert g(e) == f(e).rest && g(e') == f'(e').rest;
    }
    hide SayEffect, Without;
    BagsFollow(MapOver(f, xs), MapOver(f', ys), MapOver(g, xs), MapOver(g, ys));
  }

  lemma {:induction false} PhaseKeptFollows(lang: Language, p: Value, p': Value, a: Rec, b: Rec)
    requires SayPhase(lang, p, a) == SayPhase(lang, p', b)
    ensures KeptOf(p) == KeptOf(p')
  {
    var (x, y) := (if p.Record? then Field(p.fields, "effects") else None, if p'.Record? then Field(p'.fields, "effects") else None);
    var (v, v') := (if p.Record? then Field(p.fields, "validity") else None, if p'.Record? then Field(p'.fields, "validity") else None);
    hide EffectsKept, SayEffect, Field, MapOver;
    EffectsKeptFollow(lang, x, y, a, b, v, v');
  }

  lemma {:induction false} PhasesKeptFollow(lang: Language, xs: seq<Value>, ys: seq<Value>, a: Rec, b: Rec)
    requires multiset(MapOver((p: Value) => SayPhase(lang, p, a), xs)) == multiset(MapOver((p: Value) => SayPhase(lang, p, b), ys))
    ensures multiset(MapOver(KeptOf, xs)) == multiset(MapOver(KeptOf, ys))
  {
    var (f, f') := ((p: Value) => SayPhase(lang, p, a), (p: Value) => SayPhase(lang, p, b));
    forall p: Value, p': Value | f(p) == f'(p') ensures KeptOf(p) == KeptOf(p') {
      PhaseKeptFollows(lang, p, p', a, b);
    }
    hide SayPhase, KeptOf;
    BagsFollow(MapOver(f, xs), MapOver(f', ys), MapOver(KeptOf, xs), MapOver(KeptOf, ys));
  }

  /** Records that say the same hold the same in their effects, and in their phases and the
      effects of those, outside the fields named here. */
  lemma {:induction false} SameSaidKeeps(lang: Language, r: Rec, r': Rec)
    requires SayRecord(lang, r) == SayRecord(lang, r')
    ensures EffectsKept(Field(r, "effects")) == EffectsKept(Field(r', "effects"))
    ensures PhasesKept(PhasesGiven(r)) == PhasesKept(PhasesGiven(r'))
  {
    var (a, b) := (ObjectIn(r, "location").GetOr(map[]), ObjectIn(r', "location").GetOr(map[]));
    EffectsKeptFollow(lang, Field(r, "effects"), Field(r', "effects"), a, b, Field(r, "validity"), Field(r', "validity"));
    PhasesSaid(lang, r);
    PhasesSaid(lang, r');
    hide SayRecord, SayEffects, SayLocation, SayDetails, EffectsKept, PhasesGiven, KeptOf, SayPhase, ObjectIn, MapOver;
    PhasesKeptFollow(lang, ItemsOf(PhasesGiven(r)), ItemsOf(PhasesGiven(r')), a, b);
  }

  lemma {:induction false} PhasesSaid(lang: Language, r: Rec)
    ensures var (said, a) := (SayRecord(lang, r).details, ObjectIn(r, "location").GetOr(map[]));
      multiset(MapOver((p: Value) => SayPhase(lang, p, a), ItemsOf(PhasesGiven(r))))
      == if said.Some? then said.value.phases.GetOr(multiset{}) else multiset{}
  {
    hide SayPhase, SayLocation, SayEffects;
  }

  // --- when a report has a key ---

  predicate IsText(r: Rec, key: string, s: string) { key in r && r[key] == Atom(Text(s)) }

  function TextIn(r: Rec, key: string): Option<string> {
    if key in r && r[key].Atom? && r[key].atom.Text? then Some(r[key].atom.s) else None
  }

  /** An object with a status that is not `unknown`. */
  predicate StatusKnown(v: Option<Value>) {
    v.Some? && v.value.Record? && TextIn(v.value.fields, "status").Some? && !IsText(v.value.fields, "status", "unknown")
  }

  /** A list with entries, or a text with characters. */
  predicate IsFilled(r: Rec, key: string) {
    key in r && ((r[key].List? && r[key].items != []) || (TextIn(r, key).Some? && !IsText(r, key, "")))
  }

  predicate HoldsMore(s: string) { exists c :: c in s && !IsSpace(c) }

  /** A reference by which a location names a road: of one of its roads, or of its linear reference. */
  ghost predicate NamesRoad(lang: Language, location: Rec, name: string) {
    || (exists road :: "roads" in location && location["roads"].List? && road in location["roads"].items
          && road.Record? && TextIn(road.fields, "ref").Some? && HoldsMore(TextIn(road.fields, "ref").value)
          && name == lang.upper(Unspaced(TextIn(road.fields, "ref").value)))
    || (ObjectIn(location, "linear").Some? && TextIn(ObjectIn(location, "linear").value, "ref").Some?
          && name == lang.upper(Unspaced(TextIn(ObjectIn(location, "linear").value, "ref").value)))
  }

  ghost predicate NamesOneRoad(lang: Language, location: Rec) {
    exists name :: NamesRoad(lang, location, name) && forall other :: NamesRoad(lang, location, other) ==> other == name
  }

  predicate IsWhole(r: Rec, key: string) {
    key in r && r[key].Atom? && r[key].atom.Number?
    && var n := r[key].atom.n; n == n.Floor as real && -9007199254740991 <= n.Floor <= 9007199254740991
  }

  /** A location given by a code of a table. */
  predicate HasCode(location: Rec) {
    && ObjectIn(location, "tmc").Some?
    && var tmc := ObjectIn(location, "tmc").value;
       TextIn(tmc, "country").Some? && TextIn(tmc, "version").Some? && IsWhole(tmc, "table") && IsWhole(tmc, "code")
       && tmc["code"].atom.n > 0.0
  }

  predicate HasOpenLr(location: Rec) { TextIn(location, "openlr").Some? && HoldsMore(TextIn(location, "openlr").value) }

  /** A direction along a road, if one is given, is both ways or along something both reports have. */
  ghost predicate DirectionTold(lang: Language, d: Option<Value>, location: Rec) {
    d.Some? ==>
      && d.value.Record?
      && var f := d.value.fields;
         IsText(f, "value", "both")
         || ((IsText(f, "value", "positive") || IsText(f, "value", "negative"))
             && ((IsText(f, "basis", "road_reference") && NamesOneRoad(lang, location))
                 || (IsText(f, "basis", "alert_c") && HasCode(location))
                 || (IsText(f, "basis", "openlr") && HasOpenLr(location))))
  }

  ghost predicate LocationTold(lang: Language, location: Rec) {
    && ObjectIn(location, "geometry").Some? && IsText(location, "fuzziness", "exact")
    && DirectionTold(lang, Field(location, "direction"), location)
  }

  /** An effect is told in full: normalized, of a kind supported, for known vehicles, without issues. */
  ghost predicate EffectTold(lang: Language, effect: Value, location: Rec, validity: Option<Value>) {
    && effect.Record?
    && var e := effect.fields;
       var here := location + OwnLocation(e);
       && IsText(e, "normalization", "complete") && !IsText(e, "kind", "unsupported") && !IsText(e, "compliance", "unknown")
       && ObjectIn(e, "applicability").Some? && !IsText(ObjectIn(e, "applicability").value, "kind", "unknown")
       && !IsFilled(e, "issues")
       && LocationTold(lang, here)
       && DirectionTold(lang, GivenOr(e, "direction", Field(here, "direction")), here)
       && StatusKnown(GivenOr(e, "validity", validity))
  }

  ghost predicate EffectsTold(lang: Language, effects: Option<Value>, location: Rec, validity: Option<Value>) {
    effects.Some? && effects.value.List? && forall e :: e in effects.value.items ==> EffectTold(lang, e, location, validity)
  }

  ghost predicate PhaseTold(lang: Language, phase: Value, location: Rec) {
    phase.Record? && StatusKnown(Field(phase.fields, "validity"))
    && EffectsTold(lang, Field(phase.fields, "effects"), location, Field(phase.fields, "validity"))
  }

  predicate IsList(v: Option<Value>) { v.Some? && v.value.List? }

  predicate HasEntries(v: Option<Value>) { IsList(v) && v.value.items != [] }

  predicate HasMembers(p: Value) { p.Record? && HasEntries(Field(p.fields, "effects")) }

  /** Enough is told to compare the report with another: who reports it, where, when and with what
      effects, at least one of them, on its own or in a phase. */
  ghost predicate RecordTold(lang: Language, r: Rec) {
    && ObjectIn(r, "location").Some?
    && ObjectIn(r, "provenance").Some? && TextIn(ObjectIn(r, "provenance").value, "sourceId").Some?
    && !IsFilled(ObjectIn(r, "provenance").value, "mergedSources")
    && !IsText(r, "certainty", "unknown") && StatusKnown(Field(r, "validity"))
    && var (location, phases) := (ObjectIn(r, "location").value, PhasesGiven(r));
       && LocationTold(lang, location)
       && EffectsTold(lang, Field(r, "effects"), location, Field(r, "validity"))
       && (phases.Some? ==> phases.value.List? && forall p :: p in phases.value.items ==> PhaseTold(lang, p, location))
       && (HasEntries(Field(r, "effects"))
           || (phases.Some? && exists p :: p in phases.value.items && HasMembers(p)))
  }

  lemma {:induction false} HoldsMoreExactly(s: string)
    ensures HoldsMore(s) <==> !IsBlank(s)
  {
  }

  lemma {:induction false} RefsAreNames(lang: Language, location: Rec)
    requires IsShaped(location)
    ensures forall name :: name in RoadRefs(lang, location) <==> NamesRoad(lang, location, name)
  {
    forall name ensures name in RoadRefs(lang, location) <==> NamesRoad(lang, location, name) {
      if "roads" in location && location["roads"].List? {
        forall road | road in location["roads"].items && TextAt(road.fields, "ref").Some?
          ensures HoldsMore(TextAt(road.fields, "ref").value) <==> !IsBlank(TextAt(road.fields, "ref").value)
        {
          HoldsMoreExactly(TextAt(road.fields, "ref").value);
        }
      }
      hide Unspaced, HoldsMore, IsBlank;
    }
  }

  lemma {:induction false} OneName(names: set<string>)
    ensures |names| == 1 <==> exists name :: name in names && forall other :: other in names ==> other == name
  {
    if |names| == 1 {
      var name :| name in names;
      assert |names - {name}| == 0;
      assert names == {name};
    }
    if name :| name in names && forall other :: other in names ==> other == name {
      assert names == {name};
    }
  }

  lemma {:induction false} OneRoadExactly(lang: Language, location: Rec)
    requires IsShaped(location)
    ensures |RoadRefs(lang, location)| == 1 <==> NamesOneRoad(lang, location)
  {
    RefsAreNames(lang, location);
    OneName(RoadRefs(lang, location));
    hide RoadRefs, NamesRoad, IsShaped;
  }

  lemma {:induction false} CodeExactly(location: Rec)
    ensures HasCode(location) <==>
      var tmc := AsObject(At(location, "tmc"));
      tmc.Some? && TextAt(tmc.value, "country").Some? && IsSafeInteger(At(tmc.value, "table"))
      && TextAt(tmc.value, "version").Some? && IsSafeInteger(At(tmc.value, "code")) && At(tmc.value, "code").value.atom.n > 0.0
    ensures HasOpenLr(location) <==> TextAt(location, "openlr").Some? && !IsBlank(TextAt(location, "openlr").value)
  {
    if TextIn(location, "openlr").Some? { HoldsMoreExactly(TextIn(location, "openlr").value); }
    hide HoldsMore, IsBlank;
  }

  lemma {:induction false} SaysText(r: Rec, key: string, s: string)
    ensures Says(r, key, s) <==> IsText(r, key, s)
  {
  }

  lemma {:induction false} BasesApart(r: Rec)
    ensures IsText(r, "basis", "road_reference") ==> !IsText(r, "basis", "alert_c") && !IsText(r, "basis", "openlr")
    ensures IsText(r, "basis", "alert_c") ==> !IsText(r, "basis", "openlr")
  {
  }

  lemma {:induction false} DirectionRead(lang: Language, f: Rec, location: Rec)
    requires IsShaped(location)
    ensures KnownDirection(lang, Some(Record(f)), location) <==>
      IsText(f, "value", "both")
      || ((IsText(f, "value", "positive") || IsText(f, "value", "negative"))
          && if IsText(f, "basis", "road_reference") then NamesOneRoad(lang, location)
             else if IsText(f, "basis", "alert_c") then HasCode(location)
             else IsText(f, "basis", "openlr") && HasOpenLr(location))
  {
    OneRoadExactly(lang, location);
    CodeExactly(location);
    SaysText(f, "value", "both");
    SaysText(f, "value", "positive");
    SaysText(f, "value", "negative");
    SaysText(f, "basis", "road_reference");
    SaysText(f, "basis", "alert_c");
    SaysText(f, "basis", "openlr");
    hide RoadRefs, NamesOneRoad, IsBlank, IsShaped, IsSafeInteger, HasCode, HasOpenLr, IsText, Says, TextAt, At, Field;
  }

  lemma {:induction false} DirectionExactly(lang: Language, d: Option<Value>, location: Rec)
    requires IsShaped(location)
    ensures KnownDirection(lang, d, location) <==> DirectionTold(lang, d, location)
  {
    if d.Some? && d.value.Record? {
      hide RoadRefs, NamesOneRoad, IsBlank, IsShaped, IsSafeInteger, HasCode, HasOpenLr, IsText, Says, TextAt, At, Field, KnownDirection;
      DirectionRead(lang, d.value.fields, location);
      BasesApart(d.value.fields);
      assert KnownDirection(lang, d, location) <==> DirectionTold(lang, d, location);
    } else {
      hide NamesOneRoad, HasCode, HasOpenLr, IsText, Says, TextAt, At, Field;
      assert KnownDirection(lang, d, location) <==> d.None?;
      assert DirectionTold(lang, d, location) <==> d.None?;
    }
    hide *;
  }

  lemma {:induction false} LocationExactly(lang: Language, location: Rec, nearby: bool)
    requires IsShaped(location)
    ensures PlaceOf(lang, location, nearby).Some? <==> LocationTold(lang, location)
  {
    assert Field(location, "direction") == At(location, "direction");
    DirectionExactly(lang, At(location, "direction"), location);
    hide KnownDirection, DirectionTold, GeometryMeaning, RoadMeaning;
  }

  lemma {:induction false} EffectExactlyTold(lang: Language, e: Rec, location: Rec, validity: Option<Value>)
    requires IsShaped(Effective(e, location))
    ensures EffectOf(lang, e, location, validity).Some? <==> EffectTold(lang, Record(e), location, validity)
  {
    var here := location + OwnLocation(e);
    assert Effective(e, location) == here by {
      if !("location" in e && e["location"].Record?) { assert location + map[] == location; }
    }
    LocationExactly(lang, here, "geometry" !in OwnLocation(e));
    DirectionExactly(lang, GivenOr(e, "direction", Field(here, "direction")), here);
    KnownEffectExactly(e);
    hide PlaceOf, LocationTold, KnownDirection, DirectionTold, IsShaped, Effective, IsKnownEffect;
  }

  lemma {:induction false} KnownEffectExactly(e: Rec)
    ensures IsKnownEffect(e) <==>
      && IsText(e, "normalization", "complete") && !IsText(e, "kind", "unsupported") && !IsText(e, "compliance", "unknown")
      && ObjectIn(e, "applicability").Some? && !IsText(ObjectIn(e, "applicability").value, "kind", "unknown")
      && !IsFilled(e, "issues")
  {
  }

  lemma {:induction false} OneMoreEffect(lang: Language, items: seq<Value>, n: nat, location: Rec, validity: Option<Value>)
    requires 0 < n <= |items| && AreShaped(Some(List(items)), location)
    ensures EffectsUpTo(lang, items, n, location, validity).Some?
       <==> EffectsUpTo(lang, items, n - 1, location, validity).Some? && EffectTold(lang, items[n - 1], location, validity)
  {
    var item := items[n - 1];
    assert item in items;
    if item.Record? {
      EffectExactlyTold(lang, item.fields, location, validity);
    } else {
      assert !EffectTold(lang, item, location, validity);
    }
    hide EffectOf, EffectFits, EffectTold, IsShaped, Effective;
  }

  ghost predicate AllTold(lang: Language, items: seq<Value>, n: nat, location: Rec, validity: Option<Value>)
    requires n <= |items|
  {
    forall i :: 0 <= i < n ==> EffectTold(lang, items[i], location, validity)
  }

  lemma {:induction false} OneMoreTold(lang: Language, items: seq<Value>, n: nat, location: Rec, validity: Option<Value>)
    requires 0 < n <= |items|
    ensures AllTold(lang, items, n, location, validity)
       <==> AllTold(lang, items, n - 1, location, validity) && EffectTold(lang, items[n - 1], location, validity)
  {
    hide EffectTold;
  }

  lemma {:induction false} NoneUpToZero(lang: Language, items: seq<Value>, location: Rec, validity: Option<Value>)
    requires AreShaped(Some(List(items)), location)
    ensures EffectsUpTo(lang, items, 0, location, validity).Some? && AllTold(lang, items, 0, location, validity)
  {
    hide EffectTold, AreShaped;
  }

  lemma {:induction false} EffectsUpToTold(lang: Language, items: seq<Value>, n: nat, location: Rec, validity: Option<Value>)
    requires n <= |items| && AreShaped(Some(List(items)), location)
    ensures EffectsUpTo(lang, items, n, location, validity).Some? <==> AllTold(lang, items, n, location, validity)
  {
    hide *;
    if n == 0 {
      NoneUpToZero(lang, items, location, validity);
    } else {
      EffectsUpToTold(lang, items, n - 1, location, validity);
      OneMoreEffect(lang, items, n, location, validity);
      OneMoreTold(lang, items, n, location, validity);
    }
  }

  lemma {:induction false} EffectsToldExactly(lang: Language, effects: Option<Value>, location: Rec, validity: Option<Value>)
    requires AreShaped(effects, location)
    ensures EffectsOf(lang, effects, location, validity).Some? <==> EffectsTold(lang, effects, location, validity)
    ensures EffectsOf(lang, effects, location, validity).Some? ==>
      (EffectsOf(lang, effects, location, validity).value != [] <==> HasEntries(effects))
  {
    hide EffectTold, EffectsUpTo, EffectFits;
    if IsList(effects) {
      EffectsUpToTold(lang, effects.value.items, |effects.value.items|, location, validity);
    }
    hide AreShaped;
  }

  lemma {:induction false} StatusKnownExactly(v: Option<Value>)
    ensures KnownValidity(v) <==> StatusKnown(v)
  {
  }

  lemma {:induction false} PhaseToldExactly(lang: Language, p: Value, location: Rec)
    requires p.Record? ==> AreShaped(At(p.fields, "effects"), location)
    ensures PhaseOf(lang, p, location).Some? <==> PhaseTold(lang, p, location)
    ensures PhaseOf(lang, p, location).Some? ==>
      p.Record? && (PhaseOf(lang, p, location).value.effects != [] <==> HasEntries(Field(p.fields, "effects")))
  {
    if p.Record? {
      assert Field(p.fields, "effects") == At(p.fields, "effects") && Field(p.fields, "validity") == At(p.fields, "validity");
      EffectsToldExactly(lang, At(p.fields, "effects"), location, At(p.fields, "validity"));
      StatusKnownExactly(At(p.fields, "validity"));
    }
    hide EffectsOf, EffectsTold, StatusKnown, KnownValidity, AreShaped, At, Field, HasEntries;
  }

  lemma {:induction false} OneMorePhase(lang: Language, items: seq<Value>, n: nat, location: Rec)
    requires 0 < n <= |items| && ArePhasesShaped(items, location)
    ensures var (before, after) := (PhasesUpTo(lang, items, n - 1, location), PhasesUpTo(lang, items, n, location));
      && (after.Some? <==> before.Some? && PhaseTold(lang, items[n - 1], location))
      && (after.Some? ==>
            (CountMembers(after.value) > 0
             <==> CountMembers(before.value) > 0 || HasMembers(items[n - 1])))
  {
    assert items[n - 1] in items;
    PhaseToldExactly(lang, items[n - 1], location);
    hide PhaseOf, PhaseFits, AreShaped, At, HasEntries, Field, PhaseTold;
    var before := PhasesUpTo(lang, items, n - 1, location);
    if PhasesUpTo(lang, items, n, location).Some? {
      var phase := PhaseOf(lang, items[n - 1], location).value;
      assert (before.value + [phase])[..n - 1] == before.value;
    }
  }

  ghost predicate AllPhasesTold(lang: Language, items: seq<Value>, n: nat, location: Rec)
    requires n <= |items|
  {
    forall i :: 0 <= i < n ==> PhaseTold(lang, items[i], location)
  }

  ghost predicate SomeMembers(items: seq<Value>, n: nat)
    requires n <= |items|
  {
    exists i :: 0 <= i < n && HasMembers(items[i])
  }

  lemma {:induction false} OneMorePhaseTold(lang: Language, items: seq<Value>, n: nat, location: Rec)
    requires 0 < n <= |items|
    ensures AllPhasesTold(lang, items, n, location)
       <==> AllPhasesTold(lang, items, n - 1, location) && PhaseTold(lang, items[n - 1], location)
    ensures SomeMembers(items, n) <==> SomeMembers(items, n - 1) || HasMembers(items[n - 1])
  {
    hide PhaseTold, HasMembers;
  }

  lemma {:induction false} NoPhasesUpToZero(lang: Language, items: seq<Value>, location: Rec)
    requires ArePhasesShaped(items, location)
    ensures PhasesUpTo(lang, items, 0, location) == Some([]) && CountMembers([]) == 0
    ensures AllPhasesTold(lang, items, 0, location) && !SomeMembers(items, 0)
  {
    hide PhaseTold, ArePhasesShaped, HasMembers;
  }

  lemma {:induction false} PhasesUpToTold(lang: Language, items: seq<Value>, n: nat, location: Rec)
    requires n <= |items| && ArePhasesShaped(items, location)
    ensures PhasesUpTo(lang, items, n, location).Some? <==> AllPhasesTold(lang, items, n, location)
    ensures PhasesUpTo(lang, items, n, location).Some? ==>
      (CountMembers(PhasesUpTo(lang, items, n, location).value) > 0 <==> SomeMembers(items, n))
  {
    hide *;
    if n == 0 {
      NoPhasesUpToZero(lang, items, location);
    } else {
      PhasesUpToTold(lang, items, n - 1, location);
      OneMorePhase(lang, items, n, location);
      OneMorePhaseTold(lang, items, n, location);
    }
  }

  lemma {:induction false} PhasesToldExactly(lang: Language, r: Rec, location: Rec)
    requires match PhasesIn(r) case Some(List(items)) => ArePhasesShaped(items, location) case _ => true
    ensures var (phases, read) := (PhasesGiven(r), ReportPhases(lang, r, location));
      && (read.Some? <==> (phases.Some? ==> phases.value.List? && forall p :: p in phases.value.items ==> PhaseTold(lang, p, location)))
      && (read.Some? ==>
            (CountMembers(read.value.GetOr([])) > 0
             <==> phases.Some? && exists p :: p in phases.value.items && HasMembers(p)))
  {
    var phases := PhasesGiven(r);
    assert phases == PhasesIn(r);
    hide PhaseTold, HasMembers, Field, PhaseFits, PhasesIn, PhasesGiven, At;
    if IsList(phases) {
      PhasesUpToTold(lang, phases.value.items, |phases.value.items|, location);
    }
    hide PhasesUpTo, ArePhasesShaped;
  }

  lemma {:induction false} ReportedExactly(r: Rec)
    ensures IsReported(r) <==>
      && ObjectIn(r, "location").Some?
      && ObjectIn(r, "provenance").Some? && TextIn(ObjectIn(r, "provenance").value, "sourceId").Some?
      && !IsFilled(ObjectIn(r, "provenance").value, "mergedSources")
      && !IsText(r, "certainty", "unknown") && StatusKnown(Field(r, "validity"))
  {
    StatusKnownExactly(At(r, "validity"));
    assert At(r, "validity") == Field(r, "validity");
    hide KnownValidity, StatusKnown;
  }

  /** A report has a key exactly if it tells enough to be compared. */
  lemma {:induction false} KeyedExactly(lang: Language, l: Value -> Json, r: Rec)
    requires IsTyped(r)
    ensures CompatibilityKey(lang, l, r).Some? <==> RecordTold(lang, r)
  {
    ReportedExactly(r);
    if ObjectIn(r, "location").Some? {
      var location := ObjectIn(r, "location").value;
      assert AsObject(At(r, "location")) == Some(location);
      assert Field(r, "effects") == At(r, "effects") && Field(r, "validity") == At(r, "validity");
      LocationExactly(lang, location, true);
      EffectsToldExactly(lang, At(r, "effects"), location, At(r, "validity"));
      PhasesToldExactly(lang, r, location);
    }
    hide IsReported, ReportPhases, PlaceOf, EffectsOf, LocationTold, EffectsTold, PhaseTold, PhasesGiven, HasEntries, HasMembers, PhasesIn, StatusKnown, IsFilled,
      IsText, TextIn, At, Field, AreShaped, IsShaped, CountMembers, ArePhasesShaped, ReportFits, DetailsOf, FreshnessOf, RECORD_OWN, ReportValue, KeyOf;
  }

  /** Leaving the spaces out of a reference keeps every other character, in order. */
  lemma {:induction false} SpacesLeave(s: string, c: char)
    ensures Unspaced("") == ""
    ensures Unspaced(s + [c]) == Unspaced(s) + if IsSpace(c) then "" else [c]
  {
    if s == "" {
      assert s + [c] == [c];
    } else {
      hide IsSpace;
      SpacesLeave(s[1..], c);
      assert (s + [c])[1..] == s[1..] + [c];
    }
  }
}
