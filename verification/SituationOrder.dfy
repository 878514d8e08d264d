/** The order in which a report lists its roads, effects, phases and the members of
    a phase does not show in its key. */
module SituationOrder {
  import opened Basics
  import opened CanonicalJson
  import opened JsonText
  import opened Situation
  import opened SituationLaws

  // --- records that differ in the order of lists only ---

  ghost predicate SameBagOf(v: Option<Value>, v': Option<Value>) {
    v.Some? && v'.Some? && v.value.List? && v'.value.List? && multiset(v.value.items) == multiset(v'.value.items)
  }

  /** Two locations that differ in the order of their roads at most. */
  ghost predicate RoadsAlike(a: Rec, b: Rec) {
    a - {"roads"} == b - {"roads"} && (At(a, "roads") == At(b, "roads") || SameBagOf(At(a, "roads"), At(b, "roads")))
  }

  ghost predicate LocationAlike(v: Option<Value>, v': Option<Value>) {
    v == v' || (AsObject(v).Some? && AsObject(v').Some? && RoadsAlike(AsObject(v).value, AsObject(v').value))
  }

  /** Two effects that differ in the order of their own location's roads at most. */
  ghost predicate EffectAlike(v: Value, v': Value) {
    || v == v'
    || (v.Record? && v'.Record? && v.fields - {"location"} == v'.fields - {"location"}
        && LocationAlike(At(v.fields, "location"), At(v'.fields, "location")))
  }

  ghost predicate AllAlike(items: seq<Value>, items': seq<Value>) {
    |items| == |items'| && forall i :: 0 <= i < |items| ==> EffectAlike(items[i], items'[i])
  }

  /** Two lists of effects that differ in their order, or in that of their effects' roads. */
  ghost predicate EffectsAlike(v: Option<Value>, v': Option<Value>) {
    || v == v' || SameBagOf(v, v')
    || (v.Some? && v'.Some? && v.value.List? && v'.value.List? && AllAlike(v.value.items, v'.value.items))
  }

  ghost predicate PhaseAlike(v: Value, v': Value) {
    || v == v'
    || (v.Record? && v'.Record? && v.fields - {"effects"} == v'.fields - {"effects"}
        && EffectsAlike(At(v.fields, "effects"), At(v'.fields, "effects")))
  }

  ghost predicate PhasesAlike(v: Option<Value>, v': Option<Value>) {
    || v == v' || SameBagOf(v, v')
    || (v.Some? && v'.Some? && v.value.List? && v'.value.List? && |v.value.items| == |v'.value.items|
        && forall i :: 0 <= i < |v.value.items| ==> PhaseAlike(v.value.items[i], v'.value.items[i]))
  }

  ghost predicate DetailsAlike(v: Option<Value>, v': Option<Value>) {
    || v == v'
    || (AsObject(v).Some? && AsObject(v').Some? && AsObject(v).value - {"phases"} == AsObject(v').value - {"phases"}
        && PhasesAlike(At(AsObject(v).value, "phases"), At(AsObject(v').value, "phases")))
  }

  const ORDERED_IN := {"location", "effects", "details"}

  /** Two records that say the same but for the order of roads, effects, phases or members. */
  ghost predicate SameButForOrder(r: Rec, r': Rec) {
    && r - ORDERED_IN == r' - ORDERED_IN
    && LocationAlike(At(r, "location"), At(r', "location"))
    && EffectsAlike(At(r, "effects"), At(r', "effects"))
    && DetailsAlike(At(r, "details"), At(r', "details"))
  }

  // --- fields outside a hole ---

  lemma {:induction false} Kept(a: Rec, b: Rec, hole: set<string>, k: string)
    requires a - hole == b - hole && k !in hole
    ensures At(a, k) == At(b, k) && TextAt(a, k) == TextAt(b, k)
  {
    assert k in a <==> k in a - hole;
    assert k in b <==> k in b - hole;
    assert k in a ==> a[k] == (a - hole)[k];
  }

  lemma {:induction false} SameMembers<T(!new)>(s: seq<T>, t: seq<T>)
    requires multiset(s) == multiset(t)
    ensures |s| == |t| && forall x :: x in s <==> x in t
  {
    assert |multiset(s)| == |multiset(t)|;
    forall x ensures x in s <==> x in t {
      assert x in multiset(s) <==> x in multiset(t);
    }
  }

  // --- locations ---

  lemma {:induction false} ShapeKept(a: Rec, b: Rec)
    requires RoadsAlike(a, b) && IsShaped(a)
    ensures IsShaped(b)
  {
    Kept(a, b, {"roads"}, "geometry");
    if SameBagOf(At(a, "roads"), At(b, "roads")) {
      SameMembers(a["roads"].items, b["roads"].items);
    }
  }

  lemma {:induction false} RefsKept(lang: Language, a: Rec, b: Rec)
    requires RoadsAlike(a, b) && IsShaped(a) && IsShaped(b)
    ensures RoadRefs(lang, a) == RoadRefs(lang, b)
  {
    Kept(a, b, {"roads"}, "linear");
    if SameBagOf(At(a, "roads"), At(b, "roads")) {
      SameMembers(a["roads"].items, b["roads"].items);
    }
    assert forall road :: road in RoadsOf(a) <==> road in RoadsOf(b);
    hide RoadsOf, RoadRef, IsBlank, TextAt;
  }

  lemma {:induction false} DirectionKept(lang: Language, d: Option<Value>, a: Rec, b: Rec)
    requires RoadsAlike(a, b) && IsShaped(a) && IsShaped(b)
    ensures KnownDirection(lang, d, a) == KnownDirection(lang, d, b)
  {
    RefsKept(lang, a, b);
    Kept(a, b, {"roads"}, "tmc");
    Kept(a, b, {"roads"}, "openlr");
    hide RoadRefs, IsShaped, RoadsAlike, IsSafeInteger, IsBlank, At, TextAt;
  }

  function RoadValue(lang: Language, road: Value): Value {
    if road.Record? then Record(RoadMeaning(lang, road.fields)) else road
  }

  ghost predicate PlacesAlike(p: Option<Place>, p': Option<Place>) {
    (p.Some? <==> p'.Some?) && (p.Some? ==> MeaningOfPlace(p.value) == MeaningOfPlace(p'.value))
  }

  /** What a location's place is made of. */
  lemma {:induction false} PlaceParts(lang: Language, location: Rec, nearby: bool)
    requires IsShaped(location) && PlaceOf(lang, location, nearby).Some?
    ensures AsObject(At(location, "geometry")).Some?
    ensures var p := PlaceOf(lang, location, nearby).value;
      var fields := location["geometry" := Record(GeometryMeaning(AsObject(At(location, "geometry")).value, nearby))];
      if "roads" in location && location["roads"].List?
      then p.fields == fields - {"roads"} && p.roads == Some(MapOver(road => RoadValue(lang, road), location["roads"].items))
      else p == Place(fields, None)
  {
    hide RoadMeaning, GeometryMeaning, KnownDirection;
    if "roads" in location && location["roads"].List? {
      var roads := location["roads"].items;
      assert MapOver(road => RoadValue(lang, road), roads) == PlaceOf(lang, location, nearby).value.roads.value;
    }
  }

  lemma {:induction false} PlaceKept(lang: Language, a: Rec, b: Rec, nearby: bool)
    requires RoadsAlike(a, b) && IsShaped(a) && IsShaped(b)
    ensures PlacesAlike(PlaceOf(lang, a, nearby), PlaceOf(lang, b, nearby))
  {
    PlaceKnown(lang, a, b, nearby);
    if PlaceOf(lang, a, nearby).Some? {
      PlaceParts(lang, a, nearby);
      PlaceParts(lang, b, nearby);
      Kept(a, b, {"roads"}, "geometry");
      hide PlaceOf, RoadValue, GeometryMeaning, IsShaped;
      var v := Record(GeometryMeaning(AsObject(At(a, "geometry")).value, nearby));
      assert a["geometry" := v] - {"roads"} == (a - {"roads"})["geometry" := v];
      assert b["geometry" := v] - {"roads"} == (b - {"roads"})["geometry" := v];
      if SameBagOf(At(a, "roads"), At(b, "roads")) {
        SameBagMapped(road => RoadValue(lang, road), a["roads"].items, b["roads"].items);
      } else {
        SameWhole(a, b);
      }
    }
  }

  lemma {:induction false} SameWhole(a: Rec, b: Rec)
    requires a - {"roads"} == b - {"roads"} && At(a, "roads") == At(b, "roads")
    ensures a == b
  {
    forall k ensures At(a, k) == At(b, k) {
      if k != "roads" { Kept(a, b, {"roads"}, k); }
    }
    SameFields(a, b);
  }

  lemma {:induction false} SameFields(a: Rec, b: Rec)
    requires forall k :: At(a, k) == At(b, k)
    ensures a == b
  {
    forall k ensures (k in a <==> k in b) && (k in a ==> a[k] == b[k]) {
      assert At(a, k) == At(b, k);
    }
  }

  lemma {:induction false} PlaceKnown(lang: Language, a: Rec, b: Rec, nearby: bool)
    requires RoadsAlike(a, b) && IsShaped(a) && IsShaped(b)
    ensures PlaceOf(lang, a, nearby).Some? <==> PlaceOf(lang, b, nearby).Some?
  {
    Kept(a, b, {"roads"}, "geometry");
    Kept(a, b, {"roads"}, "fuzziness");
    Kept(a, b, {"roads"}, "direction");
    DirectionKept(lang, At(a, "direction"), a, b);
    hide KnownDirection, GeometryMeaning, RoadMeaning, RoadsAlike, At, TextAt;
  }

  lemma {:induction false} SameBagMapped<A(!new), B(!new)>(f: A -> B, s: seq<A>, t: seq<A>)
    requires multiset(s) == multiset(t)
    ensures multiset(MapOver(f, s)) == multiset(MapOver(f, t))
  {
    var same := (x: A) => x;
    assert MapOver(same, s) == s && MapOver(same, t) == t;
    hide MapOver;
    BagsImply(same, same, f, f, s, t);
  }

  // --- one effect ---

  lemma {:induction false} OwnAlike(e: Rec, e': Rec)
    requires LocationAlike(At(e, "location"), At(e', "location"))
    ensures var (own, own') := (AsObject(At(e, "location")), AsObject(At(e', "location")));
      (own.None? <==> own'.None?) && (own.Some? ==> RoadsAlike(own.value, own'.value) && ("geometry" in own.value <==> "geometry" in own'.value))
  {
    var (own, own') := (AsObject(At(e, "location")), AsObject(At(e', "location")));
    if own.Some? && own'.Some? {
      Kept(own.value, own'.value, {"roads"}, "geometry");
    }
  }

  lemma {:induction false} EffectiveAlike(e: Rec, e': Rec, a: Rec, b: Rec)
    requires LocationAlike(At(e, "location"), At(e', "location")) && RoadsAlike(a, b)
    ensures RoadsAlike(Effective(e, a), Effective(e', b))
  {
    OwnAlike(e, e');
    var (own, own') := (AsObject(At(e, "location")), AsObject(At(e', "location")));
    if own.Some? {
      Overlaid(own.value, own'.value, a, b);
    }
  }

  lemma {:induction false} Overlaid(own: Rec, own': Rec, a: Rec, b: Rec)
    requires RoadsAlike(own, own') && RoadsAlike(a, b)
    ensures RoadsAlike(a + own, b + own')
  {
    assert (a + own) - {"roads"} == (a - {"roads"}) + (own - {"roads"});
    assert (b + own') - {"roads"} == (b - {"roads"}) + (own' - {"roads"});
  }

  ghost predicate ReadAlike(e: Option<Effect>, e': Option<Effect>) {
    (e.Some? <==> e'.Some?) && (e.Some? ==> MeaningOfEffect(e.value) == MeaningOfEffect(e'.value))
  }

  /** The direction and the time an effect goes by: its own or those around it. */
  function DirectionOf(e: Rec, effective: Rec): Option<Value> {
    if IsNullish(At(e, "direction")) then At(effective, "direction") else At(e, "direction")
  }

  function TimeOf(e: Rec, validity: Option<Value>): Option<Value> {
    if IsNullish(At(e, "validity")) then validity else At(e, "validity")
  }

  predicate IsNearby(e: Rec) {
    var own := AsObject(At(e, "location")); own.None? || "geometry" !in own.value
  }

  function EffectMade(known: bool, place: Option<Place>, directed: bool, direction: Option<Value>, time: Option<Value>, fields: Rec): Option<Effect> {
    if !known || place.None? || !directed || !KnownValidity(time) then None else Some(Effect(fields, place.value, direction, time.value))
  }

  lemma {:induction false} EffectParts(lang: Language, e: Rec, location: Rec, validity: Option<Value>)
    requires IsShaped(Effective(e, location))
    ensures var x := Effective(e, location);
      EffectOf(lang, e, location, validity) == EffectMade(
        IsKnownEffect(e), PlaceOf(lang, x, IsNearby(e)), KnownDirection(lang, DirectionOf(e, x), x), DirectionOf(e, x), TimeOf(e, validity), e - EFFECT_OWN)
  {
    hide IsKnownEffect, PlaceOf, KnownDirection, KnownValidity, Effective, IsShaped, EFFECT_OWN;
  }

  lemma {:induction false} MadeAlike(known: bool, place: Option<Place>, place': Option<Place>, directed: bool, direction: Option<Value>,
                                     time: Option<Value>, fields: Rec)
    requires PlacesAlike(place, place')
    ensures ReadAlike(EffectMade(known, place, directed, direction, time, fields), EffectMade(known, place', directed, direction, time, fields))
  {
    hide KnownValidity, MeaningOfPlace;
  }

  lemma {:induction false} EffectKept(lang: Language, e: Rec, e': Rec, a: Rec, b: Rec, validity: Option<Value>)
    requires e - {"location"} == e' - {"location"} && LocationAlike(At(e, "location"), At(e', "location")) && RoadsAlike(a, b)
    requires IsShaped(Effective(e, a)) && IsShaped(Effective(e', b))
    ensures ReadAlike(EffectOf(lang, e, a, validity), EffectOf(lang, e', b, validity))
  {
    var (x, y) := (Effective(e, a), Effective(e', b));
    EffectiveAlike(e, e', a, b);
    OwnAlike(e, e');
    KnownEffectKept(e, e');
    Kept(e, e', {"location"}, "direction");
    Kept(e, e', {"location"}, "validity");
    Kept(x, y, {"roads"}, "direction");
    EffectFieldsKept(e, e');
    EffectParts(lang, e, a, validity);
    EffectParts(lang, e', b, validity);
    PlaceKept(lang, x, y, IsNearby(e));
    DirectionKept(lang, DirectionOf(e, x), x, y);
    assert IsNearby(e') == IsNearby(e) && DirectionOf(e', y) == DirectionOf(e, x) && TimeOf(e', validity) == TimeOf(e, validity);
    hide *;
    MadeAlike(IsKnownEffect(e), PlaceOf(lang, x, IsNearby(e)), PlaceOf(lang, y, IsNearby(e)), KnownDirection(lang, DirectionOf(e, x), x),
              DirectionOf(e, x), TimeOf(e, validity), e - EFFECT_OWN);
  }

  lemma {:induction false} KnownEffectKept(e: Rec, e': Rec)
    requires e - {"location"} == e' - {"location"}
    ensures IsKnownEffect(e) == IsKnownEffect(e')
  {
    var hole := {"location"};
    Kept(e, e', hole, "applicability");
    Kept(e, e', hole, "normalization");
    Kept(e, e', hole, "kind");
    Kept(e, e', hole, "compliance");
    Kept(e, e', hole, "issues");
    hide At, TextAt, HasLength;
  }

  lemma {:induction false} EffectFieldsKept(e: Rec, e': Rec)
    requires e - {"location"} == e' - {"location"}
    ensures e - EFFECT_OWN == e' - EFFECT_OWN
  {
    assert e - EFFECT_OWN == (e - {"location"}) - EFFECT_OWN;
    assert e' - EFFECT_OWN == (e' - {"location"}) - EFFECT_OWN;
  }

  // --- lists of effects ---

  ghost predicate ListsAlike(es: Option<seq<Effect>>, es': Option<seq<Effect>>) {
    && (es.Some? <==> es'.Some?)
    && (es.Some? ==> |es.value| == |es'.value| && multiset(MapOver(MeaningOfEffect, es.value)) == multiset(MapOver(MeaningOfEffect, es'.value)))
  }

  lemma {:induction false} ShapesKept(items: seq<Value>, items': seq<Value>, a: Rec, b: Rec)
    requires AllAlike(items, items') && RoadsAlike(a, b) && AreShaped(Some(List(items)), a)
    ensures AreShaped(Some(List(items')), b)
  {
    forall v' | v' in items' && v'.Record? ensures IsShaped(Effective(v'.fields, b)) {
      var i :| 0 <= i < |items'| && items'[i] == v';
      assert EffectAlike(items[i], items'[i]) && items[i] in items;
      EffectiveAlike(items[i].fields, v'.fields, a, b);
      ShapeKept(Effective(items[i].fields, a), Effective(v'.fields, b));
    }
  }

  lemma {:induction false} EffectsKeptAt(lang: Language, v: Value, v': Value, a: Rec, b: Rec, validity: Option<Value>)
    requires EffectAlike(v, v') && RoadsAlike(a, b)
    requires v.Record? ==> IsShaped(Effective(v.fields, a))
    requires v'.Record? ==> IsShaped(Effective(v'.fields, b))
    ensures v.Record? <==> v'.Record?
    ensures v.Record? ==> ReadAlike(EffectOf(lang, v.fields, a, validity), EffectOf(lang, v'.fields, b, validity))
  {
    if v.Record? {
      EffectLocationsAlike(v, v');
      hide EffectOf, IsShaped, Effective, RoadsAlike, LocationAlike, EffectAlike;
      EffectKept(lang, v.fields, v'.fields, a, b, validity);
    }
  }

  lemma {:induction false} EffectsKeptUpTo(lang: Language, items: seq<Value>, items': seq<Value>, n: nat, a: Rec, b: Rec, validity: Option<Value>)
    requires AllAlike(items, items') && RoadsAlike(a, b) && n <= |items|
    requires AreShaped(Some(List(items)), a) && AreShaped(Some(List(items')), b)
    ensures var (es, es') := (EffectsUpTo(lang, items, n, a, validity), EffectsUpTo(lang, items', n, b, validity));
      (es.Some? <==> es'.Some?) && (es.Some? ==> MapOver(MeaningOfEffect, es.value) == MapOver(MeaningOfEffect, es'.value))
  {
    hide EffectOf, IsShaped, Effective, RoadsAlike, MeaningOfEffect, LocationAlike, EffectFits, EffectAlike;
    if n > 0 {
      EffectsKeptUpTo(lang, items, items', n - 1, a, b, validity);
      var (v, v') := (items[n - 1], items'[n - 1]);
      assert v in items && v' in items' && EffectAlike(v, v');
      EffectsKeptAt(lang, v, v', a, b, validity);
      var (es, es') := (EffectsUpTo(lang, items, n, a, validity), EffectsUpTo(lang, items', n, b, validity));
      if es.Some? && es'.Some? {
        MapOverNext(MeaningOfEffect, es.value);
        MapOverNext(MeaningOfEffect, es'.value);
      }
      hide MapOver;
    }
  }

  lemma {:induction false} MapOverNext<A, B>(f: A -> B, s: seq<A>)
    requires s != []
    ensures MapOver(f, s) == MapOver(f, s[..|s| - 1]) + [f(s[|s| - 1])]
  {
  }

  lemma {:induction false} EffectLocationsAlike(v: Value, v': Value)
    requires EffectAlike(v, v') && v.Record?
    ensures v'.Record? && v.fields - {"location"} == v'.fields - {"location"} && LocationAlike(At(v.fields, "location"), At(v'.fields, "location"))
  {
  }

  lemma {:induction false} EffectsKept(lang: Language, items: seq<Value>, items': seq<Value>, a: Rec, b: Rec, validity: Option<Value>)
    requires AllAlike(items, items') && RoadsAlike(a, b) && AreShaped(Some(List(items)), a)
    ensures AreShaped(Some(List(items')), b)
    ensures ListsAlike(EffectsOf(lang, Some(List(items)), a, validity), EffectsOf(lang, Some(List(items')), b, validity))
  {
    ShapesKept(items, items', a, b);
    EffectsKeptUpTo(lang, items, items', |items|, a, b, validity);
    hide EffectsUpTo, AreShaped, RoadsAlike, AllAlike, MeaningOfEffect;
    var (es, es') := (EffectsOf(lang, Some(List(items)), a, validity), EffectsOf(lang, Some(List(items')), b, validity));
    if es.Some? {
      assert |MapOver(MeaningOfEffect, es.value)| == |es.value| && |MapOver(MeaningOfEffect, es'.value)| == |es'.value|;
    }
  }

  /** One listed effect as it is read. */
  function EffectIn(lang: Language, location: Rec, validity: Option<Value>, v: Value): Option<Effect> {
    if v.Record? && IsShaped(Effective(v.fields, location)) then EffectOf(lang, v.fields, location, validity) else None
  }

  lemma {:induction false} EffectsAreThose(lang: Language, items: seq<Value>, n: nat, location: Rec, validity: Option<Value>)
    requires n <= |items| && AreShaped(Some(List(items)), location)
    ensures var es := EffectsUpTo(lang, items, n, location, validity);
      && (es.Some? <==> forall i :: 0 <= i < n ==> EffectIn(lang, location, validity, items[i]).Some?)
      && (es.Some? ==> |es.value| == n && forall i :: 0 <= i < n ==> EffectIn(lang, location, validity, items[i]) == Some(es.value[i]))
  {
    hide EffectOf, EffectFits, IsShaped, Effective;
    if n > 0 {
      EffectsAreThose(lang, items, n - 1, location, validity);
      assert items[n - 1] in items;
    }
  }

  lemma {:induction false} ReorderedEffects(lang: Language, items: seq<Value>, items': seq<Value>, location: Rec, validity: Option<Value>)
    requires AreShaped(Some(List(items)), location) && multiset(items) == multiset(items')
    ensures AreShaped(Some(List(items')), location)
    ensures ListsAlike(EffectsOf(lang, Some(List(items)), location, validity), EffectsOf(lang, Some(List(items')), location, validity))
  {
    SameMembers(items, items');
    var f := (v: Value) => EffectIn(lang, location, validity, v);
    EffectsAreThose(lang, items, |items|, location, validity);
    EffectsAreThose(lang, items', |items'|, location, validity);
    var (es, es') := (EffectsOf(lang, Some(List(items)), location, validity), EffectsOf(lang, Some(List(items')), location, validity));
    hide EffectsUpTo, EffectIn, AreShaped, MeaningOfEffect;
    if es.Some? {
      forall i | 0 <= i < |items'| ensures f(items'[i]).Some? {
        assert items'[i] in items;
      }
      MeanAlike(f, items, items', es.value, es'.value);
    } else {
      var i :| 0 <= i < |items| && f(items[i]).None?;
      assert items[i] in items';
    }
  }

  lemma {:induction false} MeanAlike(f: Value -> Option<Effect>, items: seq<Value>, items': seq<Value>, es: seq<Effect>, es': seq<Effect>)
    requires multiset(items) == multiset(items') && |es| == |items| && |es'| == |items'|
    requires forall i :: 0 <= i < |items| ==> f(items[i]) == Some(es[i])
    requires forall i :: 0 <= i < |items'| ==> f(items'[i]) == Some(es'[i])
    ensures multiset(MapOver(MeaningOfEffect, es)) == multiset(MapOver(MeaningOfEffect, es'))
  {
    var some := (e: Effect) => Some(e);
    SameBagMapped(f, items, items');
    assert MapOver(f, items) == MapOver(some, es) && MapOver(f, items') == MapOver(some, es');
    hide MapOver, MeaningOfEffect;
    BagsImply(some, some, MeaningOfEffect, MeaningOfEffect, es, es');
  }

  /** Effects differing in order read alike, at locations that do. */
  lemma {:induction false} EffectsReadAlike(lang: Language, v: Option<Value>, v': Option<Value>, a: Rec, b: Rec, validity: Option<Value>)
    requires EffectsAlike(v, v') && RoadsAlike(a, b) && AreShaped(v, a)
    ensures AreShaped(v', b) && ListsAlike(EffectsOf(lang, v, a, validity), EffectsOf(lang, v', b, validity))
  {
    hide EffectsOf, AreShaped, RoadsAlike, EffectAlike, ListsAlike;
    if v.Some? && v.value.List? && v'.Some? && v'.value.List? {
      var (items, items') := (v.value.items, v'.value.items);
      if multiset(items) == multiset(items') {
        ReorderedEffects(lang, items, items', a, validity);
        Themselves(items');
        EffectsKept(lang, items', items', a, b, validity);
        ListsAlikeThrough(EffectsOf(lang, v, a, validity), EffectsOf(lang, v', a, validity), EffectsOf(lang, v', b, validity));
      } else {
        EffectsKept(lang, items, items', a, b, validity);
      }
    } else {
      NoList(lang, v, a, b, validity);
    }
  }

  lemma {:induction false} NoList(lang: Language, v: Option<Value>, a: Rec, b: Rec, validity: Option<Value>)
    requires !(v.Some? && v.value.List?)
    ensures AreShaped(v, a) && AreShaped(v, b) && ListsAlike(EffectsOf(lang, v, a, validity), EffectsOf(lang, v, b, validity))
  {
  }

  lemma {:induction false} Themselves(items: seq<Value>)
    ensures AllAlike(items, items)
  {
  }

  lemma {:induction false} ListsAlikeThrough(es: Option<seq<Effect>>, es': Option<seq<Effect>>, es'': Option<seq<Effect>>)
    requires ListsAlike(es, es') && ListsAlike(es', es'')
    ensures ListsAlike(es, es'')
  {
  }

  // --- phases ---

  ghost predicate PhaseReadAlike(p: Option<Phase>, p': Option<Phase>) {
    (p.Some? <==> p'.Some?) && (p.Some? ==> MeaningOfPhase(p.value) == MeaningOfPhase(p'.value))
  }

  predicate IsPhaseShaped(v: Value, location: Rec) { v.Record? ==> AreShaped(At(v.fields, "effects"), location) }

  lemma {:induction false} PhaseKept(lang: Language, v: Value, v': Value, a: Rec, b: Rec)
    requires PhaseAlike(v, v') && RoadsAlike(a, b) && IsPhaseShaped(v, a)
    ensures IsPhaseShaped(v', b) && PhaseReadAlike(PhaseOf(lang, v, a), PhaseOf(lang, v', b))
  {
    if v.Record? {
      PhaseFieldsKept(v, v');
      EffectsReadAlike(lang, At(v.fields, "effects"), At(v'.fields, "effects"), a, b, At(v.fields, "validity"));
      hide EffectsOf, AreShaped, EffectsAlike, RoadsAlike, KnownValidity, At, PHASE_OWN, MapOver, MeaningOfEffect;
    }
  }

  lemma {:induction false} PhaseFieldsKept(v: Value, v': Value)
    requires PhaseAlike(v, v') && v.Record?
    ensures v'.Record? && EffectsAlike(At(v.fields, "effects"), At(v'.fields, "effects"))
    ensures At(v.fields, "validity") == At(v'.fields, "validity") && v.fields - PHASE_OWN == v'.fields - PHASE_OWN
  {
    if v != v' {
      Kept(v.fields, v'.fields, {"effects"}, "validity");
      assert v.fields - PHASE_OWN == (v.fields - {"effects"}) - PHASE_OWN;
      assert v'.fields - PHASE_OWN == (v'.fields - {"effects"}) - PHASE_OWN;
    }
  }

  lemma {:induction false} PhaseShapesKept(items: seq<Value>, items': seq<Value>, a: Rec, b: Rec)
    requires |items| == |items'| && (forall i :: 0 <= i < |items| ==> PhaseAlike(items[i], items'[i]))
    requires RoadsAlike(a, b) && ArePhasesShaped(items, a)
    ensures ArePhasesShaped(items', b)
  {
    forall v' | v' in items' && v'.Record? ensures AreShaped(At(v'.fields, "effects"), b) {
      var i :| 0 <= i < |items'| && items'[i] == v';
      assert items[i] in items && PhaseAlike(items[i], items'[i]);
      PhaseKept(AnyLanguage(), items[i], v', a, b);
    }
    hide PhaseAlike, RoadsAlike;
  }

  /** Shape says nothing of the language, so any will do to speak of it. */
  ghost function AnyLanguage(): Language { Language((a, b) => true, j => "", s => s) }

  lemma {:induction false} PhasesKeptUpTo(lang: Language, items: seq<Value>, items': seq<Value>, n: nat, a: Rec, b: Rec)
    requires |items| == |items'| && (forall i :: 0 <= i < |items| ==> PhaseAlike(items[i], items'[i]))
    requires RoadsAlike(a, b) && n <= |items| && ArePhasesShaped(items, a) && ArePhasesShaped(items', b)
    ensures var (ps, ps') := (PhasesUpTo(lang, items, n, a), PhasesUpTo(lang, items', n, b));
      (ps.Some? <==> ps'.Some?) && (ps.Some? ==> MapOver(MeaningOfPhase, ps.value) == MapOver(MeaningOfPhase, ps'.value))
  {
    hide PhaseOf, RoadsAlike, MeaningOfPhase, PhaseFits, AreShaped, PhaseAlike;
    if n > 0 {
      PhasesKeptUpTo(lang, items, items', n - 1, a, b);
      assert items[n - 1] in items && items'[n - 1] in items';
      PhaseKept(lang, items[n - 1], items'[n - 1], a, b);
      var (ps, ps') := (PhasesUpTo(lang, items, n, a), PhasesUpTo(lang, items', n, b));
      if ps.Some? && ps'.Some? {
        MapOverNext(MeaningOfPhase, ps.value);
        MapOverNext(MeaningOfPhase, ps'.value);
      }
      hide MapOver;
    }
  }

  function PhaseIn(lang: Language, location: Rec, v: Value): Option<Phase> {
    if IsPhaseShaped(v, location) then PhaseOf(lang, v, location) else None
  }

  lemma {:induction false} PhasesAreThose(lang: Language, items: seq<Value>, n: nat, location: Rec)
    requires n <= |items| && ArePhasesShaped(items, location)
    ensures var ps := PhasesUpTo(lang, items, n, location);
      && (ps.Some? <==> forall i :: 0 <= i < n ==> PhaseIn(lang, location, items[i]).Some?)
      && (ps.Some? ==> |ps.value| == n && forall i :: 0 <= i < n ==> PhaseIn(lang, location, items[i]) == Some(ps.value[i]))
  {
    hide PhaseOf, PhaseFits, AreShaped;
    if n > 0 {
      PhasesAreThose(lang, items, n - 1, location);
      assert items[n - 1] in items;
    }
  }

  ghost predicate PhaseListsAlike(ps: Option<seq<Phase>>, ps': Option<seq<Phase>>) {
    (ps.Some? <==> ps'.Some?) && (ps.Some? ==> multiset(MapOver(MeaningOfPhase, ps.value)) == multiset(MapOver(MeaningOfPhase, ps'.value)))
  }

  lemma {:induction false} ReorderedPhases(lang: Language, items: seq<Value>, items': seq<Value>, location: Rec)
    requires ArePhasesShaped(items, location) && multiset(items) == multiset(items')
    ensures ArePhasesShaped(items', location)
    ensures PhaseListsAlike(PhasesUpTo(lang, items, |items|, location), PhasesUpTo(lang, items', |items'|, location))
  {
    SameMembers(items, items');
    var f := (v: Value) => PhaseIn(lang, location, v);
    PhasesAreThose(lang, items, |items|, location);
    PhasesAreThose(lang, items', |items'|, location);
    var (ps, ps') := (PhasesUpTo(lang, items, |items|, location), PhasesUpTo(lang, items', |items'|, location));
    hide PhasesUpTo, PhaseIn, ArePhasesShaped, MeaningOfPhase;
    if ps.Some? {
      forall i | 0 <= i < |items'| ensures f(items'[i]).Some? {
        assert items'[i] in items;
      }
      PhasesMeanAlike(f, items, items', ps.value, ps'.value);
    } else {
      var i :| 0 <= i < |items| && f(items[i]).None?;
      assert items[i] in items';
    }
  }

  lemma {:induction false} PhasesMeanAlike(f: Value -> Option<Phase>, items: seq<Value>, items': seq<Value>, ps: seq<Phase>, ps': seq<Phase>)
    requires multiset(items) == multiset(items') && |ps| == |items| && |ps'| == |items'|
    requires forall i :: 0 <= i < |items| ==> f(items[i]) == Some(ps[i])
    requires forall i :: 0 <= i < |items'| ==> f(items'[i]) == Some(ps'[i])
    ensures multiset(MapOver(MeaningOfPhase, ps)) == multiset(MapOver(MeaningOfPhase, ps'))
  {
    var some := (p: Phase) => Some(p);
    SameBagMapped(f, items, items');
    assert MapOver(f, items) == MapOver(some, ps) && MapOver(f, items') == MapOver(some, ps');
    hide MapOver, MeaningOfPhase;
    BagsImply(some, some, MeaningOfPhase, MeaningOfPhase, ps, ps');
  }

  lemma {:induction false} PhasesReadAlike(lang: Language, items: seq<Value>, items': seq<Value>, a: Rec, b: Rec)
    requires PhasesAlike(Some(List(items)), Some(List(items'))) && RoadsAlike(a, b) && ArePhasesShaped(items, a)
    ensures ArePhasesShaped(items', b)
    ensures PhaseListsAlike(PhasesUpTo(lang, items, |items|, a), PhasesUpTo(lang, items', |items'|, b))
  {
    hide PhasesUpTo, RoadsAlike, ArePhasesShaped, PhaseAlike, MeaningOfPhase;
    if multiset(items) == multiset(items') {
      ReorderedPhases(lang, items, items', a);
      PhasesThemselves(items');
      PhaseShapesKept(items', items', a, b);
      PhasesKeptUpTo(lang, items', items', |items'|, a, b);
    } else {
      PhaseShapesKept(items, items', a, b);
      PhasesKeptUpTo(lang, items, items', |items|, a, b);
    }
    hide MapOver;
  }

  lemma {:induction false} PhasesThemselves(items: seq<Value>)
    ensures forall i :: 0 <= i < |items| ==> PhaseAlike(items[i], items[i])
  {
  }

  // --- whether a report has any effect at all ---

  lemma {:induction false} NoMembers(ps: seq<Phase>)
    ensures CountMembers(ps) == 0 <==> forall m :: m in MapOver(MeaningOfPhase, ps) ==> m.effects == multiset{}
  {
    if ps != [] {
      var n := |ps| - 1;
      NoMembers(ps[..n]);
      MapOverNext(MeaningOfPhase, ps);
      var before, last := MapOver(MeaningOfPhase, ps[..n]), MeaningOfPhase(ps[n]);
      EmptyMeaning(ps[n]);
      hide MapOver, MeaningOfPhase;
      assert forall m :: m in before + [last] <==> m in before || m == last;
    }
  }

  lemma {:induction false} EmptyMeaning(p: Phase)
    ensures MeaningOfPhase(p).effects == multiset{} <==> |p.effects| == 0
  {
    assert |multiset(MapOver(MeaningOfEffect, p.effects))| == |p.effects|;
  }

  lemma {:induction false} SameNoMembers(ps: seq<Phase>, ps': seq<Phase>)
    requires multiset(MapOver(MeaningOfPhase, ps)) == multiset(MapOver(MeaningOfPhase, ps'))
    ensures CountMembers(ps) == 0 <==> CountMembers(ps') == 0
  {
    NoMembers(ps);
    NoMembers(ps');
    SameMembers(MapOver(MeaningOfPhase, ps), MapOver(MeaningOfPhase, ps'));
    hide MapOver, MeaningOfPhase, CountMembers;
  }

  // --- the whole report ---

  ghost predicate ReportPhasesAlike(ps: Option<Option<seq<Phase>>>, ps': Option<Option<seq<Phase>>>) {
    && (ps.Some? <==> ps'.Some?)
    && (ps.Some? ==> PhaseListsAlike(ps.value, ps'.value) && (CountMembers(ps.value.GetOr([])) == 0 <==> CountMembers(ps'.value.GetOr([])) == 0))
  }

  predicate IsPhasesShaped(record: Rec, location: Rec) {
    match PhasesIn(record) case Some(List(items)) => ArePhasesShaped(items, location) case _ => true
  }

  lemma {:induction false} ReportPhasesKept(lang: Language, r: Rec, r': Rec, a: Rec, b: Rec)
    requires DetailsAlike(At(r, "details"), At(r', "details")) && RoadsAlike(a, b) && IsPhasesShaped(r, a)
    ensures IsPhasesShaped(r', b) && ReportPhasesAlike(ReportPhases(lang, r, a), ReportPhases(lang, r', b))
  {
    var (v, v') := (PhasesIn(r), PhasesIn(r'));
    assert PhasesAlike(v, v');
    hide PhasesUpTo, ArePhasesShaped, RoadsAlike, PhaseAlike, MeaningOfPhase, CountMembers, PhasesIn, MapOver, PhaseFits;
    if v.Some? && v.value.List? {
      var (items, items') := (v.value.items, v'.value.items);
      PhasesReadAlike(lang, items, items', a, b);
      var (ps, ps') := (PhasesUpTo(lang, items, |items|, a), PhasesUpTo(lang, items', |items'|, b));
      if ps.Some? { SameNoMembers(ps.value, ps'.value); }
    }
  }

  lemma {:induction false} DetailsKept(r: Rec, r': Rec, ps: Option<seq<Phase>>, ps': Option<seq<Phase>>)
    requires DetailsAlike(At(r, "details"), At(r', "details")) && PhaseListsAlike(ps, ps')
    ensures var (d, d') := (DetailsOf(r, ps), DetailsOf(r', ps'));
      (d.Some? <==> d'.Some?) && (d.Some? ==> MeaningOfDetails(d.value) == MeaningOfDetails(d'.value))
  {
    hide PhasesAlike, MeaningOfPhase, MapOver;
  }

  lemma {:induction false} ReportedKept(r: Rec, r': Rec)
    requires SameButForOrder(r, r')
    ensures IsReported(r) == IsReported(r')
    ensures At(r, "validity") == At(r', "validity") && FreshnessOf(r) == FreshnessOf(r') && r - RECORD_OWN == r' - RECORD_OWN
  {
    Kept(r, r', ORDERED_IN, "provenance");
    Kept(r, r', ORDERED_IN, "certainty");
    Kept(r, r', ORDERED_IN, "validity");
    Kept(r, r', ORDERED_IN, "freshness");
    OwnKept(r, r');
    hide At, TextAt, KnownValidity, HasLength, RECORD_OWN, EffectsAlike, DetailsAlike, RoadsAlike;
  }

  lemma {:induction false} OwnKept(r: Rec, r': Rec)
    requires r - ORDERED_IN == r' - ORDERED_IN
    ensures r - RECORD_OWN == r' - RECORD_OWN
  {
    assert ORDERED_IN <= RECORD_OWN;
    hide RECORD_OWN, ORDERED_IN;
    assert r - RECORD_OWN == (r - ORDERED_IN) - RECORD_OWN;
    assert r' - RECORD_OWN == (r' - ORDERED_IN) - RECORD_OWN;
  }

  /** The root locations of two such records. */
  lemma {:induction false} RootsAlike(r: Rec, r': Rec)
    requires SameButForOrder(r, r')
    ensures var (a, b) := (AsObject(At(r, "location")), AsObject(At(r', "location")));
      (a.Some? <==> b.Some?) && (a.Some? ==> RoadsAlike(a.value, b.value))
  {
  }

  lemma {:induction false} TypedKept(r: Rec, r': Rec)
    requires SameButForOrder(r, r') && IsTyped(r)
    ensures IsTyped(r')
  {
    RootsAlike(r, r');
    var location := AsObject(At(r, "location"));
    if location.Some? {
      var (a, b) := (location.value, AsObject(At(r', "location")).value);
      ShapeKept(a, b);
      EffectsReadAlike(AnyLanguage(), At(r, "effects"), At(r', "effects"), a, b, None);
      ReportPhasesKept(AnyLanguage(), r, r', a, b);
      hide EffectsOf, ReportPhases, IsShaped, AreShaped, ArePhasesShaped, RoadsAlike, EffectsAlike, DetailsAlike, PhasesIn, At;
    }
  }

  function ReportMade(place: Option<Place>, effects: Option<seq<Effect>>, phases: Option<Option<seq<Phase>>>,
                      fields: Rec, details: Option<Details>, freshness: Option<Rec>): Option<Report> {
    if place.None? || effects.None? || phases.None? then None
    else if |effects.value| + CountMembers(phases.value.GetOr([])) == 0 then None
    else Some(Report(fields, place.value, effects.value, details, freshness))
  }

  function LocationOf(r: Rec): Rec { AsObject(At(r, "location")).GetOr(map[]) }

  lemma {:induction false} ReportParts(lang: Language, r: Rec)
    requires IsTyped(r) && IsReported(r)
    ensures IsShaped(LocationOf(r)) && AreShaped(At(r, "effects"), LocationOf(r)) && IsPhasesShaped(r, LocationOf(r))
    ensures var phases := ReportPhases(lang, r, LocationOf(r));
      ReportOf(lang, r) == ReportMade(
        PlaceOf(lang, LocationOf(r), true), EffectsOf(lang, At(r, "effects"), LocationOf(r), At(r, "validity")), phases,
        r - RECORD_OWN, DetailsOf(r, phases.GetOr(None)), FreshnessOf(r))
  {
    hide PlaceOf, EffectsOf, ReportPhases, IsShaped, AreShaped, ArePhasesShaped, PhasesIn, KnownValidity, HasLength, DetailsOf, FreshnessOf,
      RECORD_OWN, CountMembers, PlaceFits, EffectFits, PhaseFits, DetailsFit, ReportFits;
  }

  lemma {:induction false} ReportMadeAlike(
      place: Option<Place>, place': Option<Place>, effects: Option<seq<Effect>>, effects': Option<seq<Effect>>,
      phases: Option<Option<seq<Phase>>>, phases': Option<Option<seq<Phase>>>,
      fields: Rec, details: Option<Details>, details': Option<Details>, freshness: Option<Rec>)
    requires PlacesAlike(place, place') && ListsAlike(effects, effects') && ReportPhasesAlike(phases, phases')
    requires phases.Some? ==> (details.Some? <==> details'.Some?) && (details.Some? ==> MeaningOfDetails(details.value) == MeaningOfDetails(details'.value))
    ensures var (one, other) := (ReportMade(place, effects, phases, fields, details, freshness), ReportMade(place', effects', phases', fields, details', freshness));
      (one.Some? <==> other.Some?) && (one.Some? ==> MeaningOf(one.value) == MeaningOf(other.value))
  {
    hide MeaningOfPlace, MeaningOfDetails, MeaningOfEffect, MapOver, CountMembers, PhaseListsAlike;
  }

  lemma {:induction false} ReportKept(lang: Language, r: Rec, r': Rec)
    requires SameButForOrder(r, r') && IsTyped(r) && IsTyped(r')
    ensures var (one, other) := (ReportOf(lang, r), ReportOf(lang, r'));
      (one.Some? <==> other.Some?) && (one.Some? ==> MeaningOf(one.value) == MeaningOf(other.value))
  {
    ReportedKept(r, r');
    if IsReported(r) {
      KnownReportKept(lang, r, r');
    }
    hide IsReported, IsTyped, MeaningOf, SameButForOrder;
  }

  lemma {:induction false} KnownReportKept(lang: Language, r: Rec, r': Rec)
    requires SameButForOrder(r, r') && IsTyped(r) && IsTyped(r') && IsReported(r) && IsReported(r')
    ensures var (one, other) := (ReportOf(lang, r), ReportOf(lang, r'));
      (one.Some? <==> other.Some?) && (one.Some? ==> MeaningOf(one.value) == MeaningOf(other.value))
  {
    RootsAlike(r, r');
    ReportedKept(r, r');
    ReportParts(lang, r);
    ReportParts(lang, r');
    var (a, b, validity) := (LocationOf(r), LocationOf(r'), At(r, "validity"));
    hide IsReported, IsTyped, ReportOf, MeaningOf, PlaceOf, EffectsOf, ReportPhases, IsShaped, AreShaped, IsPhasesShaped, RoadsAlike, EffectsAlike,
      DetailsAlike, DetailsOf, FreshnessOf, RECORD_OWN, PlacesAlike, ListsAlike, ReportMade, At;
    PlaceKept(lang, a, b, true);
    EffectsReadAlike(lang, At(r, "effects"), At(r', "effects"), a, b, validity);
    ReportPhasesKept(lang, r, r', a, b);
    var (ps, ps') := (ReportPhases(lang, r, a), ReportPhases(lang, r', b));
    if ps.Some? { DetailsKept(r, r', ps.value, ps'.value); }
    ReportMadeAlike(
      PlaceOf(lang, a, true), PlaceOf(lang, b, true),
      EffectsOf(lang, At(r, "effects"), a, validity), EffectsOf(lang, At(r', "effects"), b, validity), ps, ps',
      r - RECORD_OWN, DetailsOf(r, ps.GetOr(None)), DetailsOf(r', ps'.GetOr(None)), FreshnessOf(r));
  }

  /** Two reports that differ only in the order of roads, effects, phases or members have
      one key, or neither has any. */
  lemma {:induction false} OrderIsIgnored(lang: Language, l: Value -> Json, r: Rec, r': Rec)
    requires lang.Valid() && IsListing(l) && IsTyped(r) && SameButForOrder(r, r')
    ensures IsTyped(r') && CompatibilityKey(lang, l, r) == CompatibilityKey(lang, l, r')
  {
    TypedKept(r, r');
    ReportKept(lang, r, r');
    hide IsListing, Language.Valid, IsTyped, ReportOf, MeaningOf, CompatibilityKey, SameButForOrder;
    KeyMeansExactly(lang, l, l, r, r');
    KeyMeansExactly(lang, l, l, r', r);
  }

  // --- one list put in another order ---

  lemma {:induction false} OnlyField(r: Rec, key: string, v: Value)
    requires key in ORDERED_IN
    ensures r[key := v] - ORDERED_IN == r - ORDERED_IN
    ensures At(r[key := v], key) == Some(v) && forall k :: k != key ==> At(r[key := v], k) == At(r, k)
  {
    hide ORDERED_IN;
  }

  /** The order of a report's effects does not show. */
  lemma {:induction false} EffectOrderIsIgnored(lang: Language, l: Value -> Json, r: Rec, effects: seq<Value>)
    requires lang.Valid() && IsListing(l) && IsTyped(r)
    requires "effects" in r && r["effects"].List? && multiset(effects) == multiset(r["effects"].items)
    ensures var r' := r["effects" := List(effects)]; IsTyped(r') && CompatibilityKey(lang, l, r) == CompatibilityKey(lang, l, r')
  {
    OnlyField(r, "effects", List(effects));
    OrderIsIgnored(lang, l, r, r["effects" := List(effects)]);
  }

  /** Nor does the order of the roads of its location, which every effect goes by that names none of its own. */
  lemma {:induction false} RoadOrderIsIgnored(lang: Language, l: Value -> Json, r: Rec, location: Rec, roads: seq<Value>)
    requires lang.Valid() && IsListing(l) && IsTyped(r)
    requires At(r, "location") == Some(Record(location))
    requires "roads" in location && location["roads"].List? && multiset(roads) == multiset(location["roads"].items)
    ensures var r' := r["location" := Record(location["roads" := List(roads)])];
      IsTyped(r') && CompatibilityKey(lang, l, r) == CompatibilityKey(lang, l, r')
  {
    var moved := location["roads" := List(roads)];
    assert moved - {"roads"} == location - {"roads"};
    assert RoadsAlike(location, moved);
    OnlyField(r, "location", Record(moved));
    hide RoadsAlike;
    OrderIsIgnored(lang, l, r, r["location" := Record(moved)]);
  }

  /** Nor the order of its phases. */
  lemma {:induction false} PhaseOrderIsIgnored(lang: Language, l: Value -> Json, r: Rec, details: Rec, phases: seq<Value>)
    requires lang.Valid() && IsListing(l) && IsTyped(r)
    requires At(r, "details") == Some(Record(details))
    requires "phases" in details && details["phases"].List? && multiset(phases) == multiset(details["phases"].items)
    ensures var r' := r["details" := Record(details["phases" := List(phases)])];
      IsTyped(r') && CompatibilityKey(lang, l, r) == CompatibilityKey(lang, l, r')
  {
    PhasesReplaced(details, phases);
    OnlyField(r, "details", Record(details["phases" := List(phases)]));
    hide PhasesAlike;
    OrderIsIgnored(lang, l, r, r["details" := Record(details["phases" := List(phases)])]);
  }

  lemma {:induction false} PhasesReplaced(details: Rec, phases: seq<Value>)
    requires "phases" in details && PhasesAlike(At(details, "phases"), Some(List(phases)))
    ensures DetailsAlike(Some(Record(details)), Some(Record(details["phases" := List(phases)])))
  {
    assert details["phases" := List(phases)] - {"phases"} == details - {"phases"};
  }

  /** Nor the order of a phase's effects. */
  lemma {:induction false} MemberOrderIsIgnored(lang: Language, l: Value -> Json, r: Rec, details: Rec, k: nat, phase: Rec, effects: seq<Value>)
    requires lang.Valid() && IsListing(l) && IsTyped(r)
    requires At(r, "details") == Some(Record(details)) && "phases" in details && details["phases"].List?
    requires k < |details["phases"].items| && details["phases"].items[k] == Record(phase)
    requires "effects" in phase && phase["effects"].List? && multiset(effects) == multiset(phase["effects"].items)
    ensures var phases := details["phases"].items[k := Record(phase["effects" := List(effects)])];
      var r' := r["details" := Record(details["phases" := List(phases)])];
      IsTyped(r') && CompatibilityKey(lang, l, r) == CompatibilityKey(lang, l, r')
  {
    var items := details["phases"].items;
    var moved := phase["effects" := List(effects)];
    var phases := items[k := Record(moved)];
    assert moved - {"effects"} == phase - {"effects"};
    forall i | 0 <= i < |items| ensures PhaseAlike(items[i], phases[i]) {
      hide EffectAlike;
    }
    hide PhaseAlike;
    PhasesReplaced(details, phases);
    OnlyField(r, "details", Record(details["phases" := List(phases)]));
    hide PhasesAlike;
    OrderIsIgnored(lang, l, r, r["details" := Record(details["phases" := List(phases)])]);
  }
}
