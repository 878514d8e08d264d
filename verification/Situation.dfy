/** The key of a traffic situation's meaning: equal for two reports exactly if they
    say the same of the road, whoever reports it and in whatever words. Objects are
    maps here; in what order each lists its keys is the parameter `l`. */
module Situation {
  import opened Basics
  import opened CanonicalJson
  import opened JsonText

  type Rec = map<string, Value>

  // --- reading a value ---

  function At(r: Rec, key: string): Option<Value> { if key in r then Some(r[key]) else None }

  function AsObject(v: Option<Value>): Option<Rec> {
    if v.Some? && v.value.Record? then Some(v.value.fields) else None
  }

  function TextAt(r: Rec, key: string): Option<string> {
    if key in r && r[key].Atom? && r[key].atom.Text? then Some(r[key].atom.s) else None
  }

  predicate Says(r: Rec, key: string, s: string) { TextAt(r, key) == Some(s) }

  /** Absent or null, as `??` takes it. */
  predicate IsNullish(v: Option<Value>) { v.None? || v.value == Atom(Null) }

  /** Whether `length` is there and not zero. */
  predicate HasLength(v: Option<Value>) {
    match v
    case Some(List(items)) => items != []
    case Some(Atom(Text(s))) => s != ""
    case _ => false
  }

  const MAX_SAFE := 9007199254740991

  predicate IsSafeInteger(v: Option<Value>) {
    v.Some? && v.value.Atom? && v.value.atom.Number?
    && var n := v.value.atom.n; n == n.Floor as real && -MAX_SAFE <= n.Floor <= MAX_SAFE
  }

  function Unspaced(s: string): string {
    if s == "" then "" else (if IsSpace(s[0]) then "" else [s[0]]) + Unspaced(s[1..])
  }

  function RoadRef(lang: Language, s: string): string { lang.upper(Unspaced(s)) }

  predicate IsBlank(s: string) { forall c :: c in s ==> IsSpace(c) }

  // --- what is known well enough ---

  predicate KnownValidity(v: Option<Value>) {
    var validity := AsObject(v);
    validity.Some? && TextAt(validity.value, "status").Some? && !Says(validity.value, "status", "unknown")
  }

  /** What the typed model promises of a location: its roads are objects, a point has coordinates. */
  predicate IsShaped(location: Rec) {
    && (match At(location, "roads")
        case Some(List(roads)) => forall road :: road in roads ==> road.Record?
        case Some(v) => v == Atom(Null)
        case None => true)
    && (match AsObject(At(location, "geometry"))
        case Some(geometry) => Says(geometry, "type", "Point") ==> "coordinates" in geometry && geometry["coordinates"].List?
        case None => true)
  }

  function RoadsOf(location: Rec): seq<Value> {
    if "roads" in location && location["roads"].List? then location["roads"].items else []
  }

  function RoadRefs(lang: Language, location: Rec): set<string>
    requires IsShaped(location)
  {
    var linear := AsObject(At(location, "linear"));
    (set road | road in RoadsOf(location) && TextAt(road.fields, "ref").Some? && !IsBlank(TextAt(road.fields, "ref").value)
      :: RoadRef(lang, TextAt(road.fields, "ref").value))
    + (if linear.Some? && TextAt(linear.value, "ref").Some? then {RoadRef(lang, TextAt(linear.value, "ref").value)} else {})
  }

  predicate KnownDirection(lang: Language, d: Option<Value>, location: Rec)
    requires IsShaped(location)
  {
    if d.None? then true
    else
      match AsObject(d)
      case None => false
      case Some(direction) =>
        if Says(direction, "value", "both") then true
        else if !Says(direction, "value", "positive") && !Says(direction, "value", "negative") then false
        else if Says(direction, "basis", "road_reference") then |RoadRefs(lang, location)| == 1
        else if Says(direction, "basis", "alert_c") then
          var tmc := AsObject(At(location, "tmc"));
          tmc.Some? && TextAt(tmc.value, "country").Some? && IsSafeInteger(At(tmc.value, "table"))
          && TextAt(tmc.value, "version").Some? && IsSafeInteger(At(tmc.value, "code")) && At(tmc.value, "code").value.atom.n > 0.0
        else Says(direction, "basis", "openlr") && TextAt(location, "openlr").Some? && !IsBlank(TextAt(location, "openlr").value)
  }

  // --- the parts of a meaning, with their lists as read ---

  /** A location's meaning: its fields but for the roads, and those. */
  datatype Place = Place(fields: Rec, roads: Option<seq<Value>>)

  function RoadMeaning(lang: Language, road: Rec): Rec {
    match TextAt(road, "ref")
    case Some(ref) => road["ref" := Atom(Text(RoadRef(lang, ref)))]
    case None => road
  }

  function GeometryMeaning(geometry: Rec, nearbyPoint: bool): Rec
    requires Says(geometry, "type", "Point") ==> "coordinates" in geometry && geometry["coordinates"].List?
  {
    if nearbyPoint && Says(geometry, "type", "Point") then
      var coordinates := geometry["coordinates"].items;
      geometry["coordinates" := List(if |coordinates| < 2 then [] else coordinates[2..])]
    else geometry
  }

  function PlaceOf(lang: Language, location: Rec, nearbyPoint: bool): (place: Option<Place>)
    requires IsShaped(location)
    ensures place.Some? ==> PlaceFits(place.value)
  {
    var geometry := AsObject(At(location, "geometry"));
    if geometry.None? || !Says(location, "fuzziness", "exact") || !KnownDirection(lang, At(location, "direction"), location) then None
    else
      var fields := location["geometry" := Record(GeometryMeaning(geometry.value, nearbyPoint))];
      if "roads" in location && location["roads"].List? then
        var roads := location["roads"].items;
        Some(Place(fields - {"roads"},
                   Some(seq(|roads|, i requires 0 <= i < |roads| => Record(RoadMeaning(lang, roads[i].fields))))))
      else Some(Place(fields, None))
  }

  predicate PlaceFits(p: Place) {
    if p.roads.Some? then "roads" !in p.fields else "roads" in p.fields ==> p.fields["roads"] == Atom(Null)
  }

  const EFFECT_OWN := {"id", "sourceRecordRef", "source", "location", "direction", "validity"}

  datatype Effect = Effect(fields: Rec, place: Place, direction: Option<Value>, validity: Value)

  function Effective(effect: Rec, location: Rec): Rec {
    match AsObject(At(effect, "location")) case Some(own) => location + own case None => location
  }

  predicate IsKnownEffect(effect: Rec) {
    var applicability := AsObject(At(effect, "applicability"));
    && Says(effect, "normalization", "complete") && !Says(effect, "kind", "unsupported") && applicability.Some?
    && !Says(applicability.value, "kind", "unknown") && !Says(effect, "compliance", "unknown") && !HasLength(At(effect, "issues"))
  }

  function EffectOf(lang: Language, effect: Rec, location: Rec, validity: Option<Value>): (e: Option<Effect>)
    requires IsShaped(Effective(effect, location))
    ensures e.Some? ==> EffectFits(e.value)
  {
    if !IsKnownEffect(effect) then None
    else
      var own := AsObject(At(effect, "location"));
      var effective := Effective(effect, location);
      var place := PlaceOf(lang, effective, own.None? || "geometry" !in own.value);
      var direction := if IsNullish(At(effect, "direction")) then At(effective, "direction") else At(effect, "direction");
      var time := if IsNullish(At(effect, "validity")) then validity else At(effect, "validity");
      if place.None? || !KnownDirection(lang, direction, effective) || !KnownValidity(time) then None
      else Some(Effect(effect - EFFECT_OWN, place.value, direction, time.value))
  }

  predicate EffectFits(e: Effect) { PlaceFits(e.place) && e.fields.Keys !! EFFECT_OWN }

  /** Every effect there is, an object whose location is shaped. */
  predicate AreShaped(value: Option<Value>, location: Rec) {
    match value
    case Some(List(items)) => forall v :: v in items && v.Record? ==> IsShaped(Effective(v.fields, location))
    case _ => true
  }

  /** The effects of a list up to `n`, unless the meaning of one is not known. */
  function EffectsUpTo(lang: Language, items: seq<Value>, n: nat, location: Rec, validity: Option<Value>): (es: Option<seq<Effect>>)
    requires n <= |items| && AreShaped(Some(List(items)), location)
    ensures es.Some? ==> |es.value| == n && forall e :: e in es.value ==> EffectFits(e)
  {
    if n == 0 then Some([])
    else
      var before := EffectsUpTo(lang, items, n - 1, location, validity);
      var effect := if items[n - 1].Record? then EffectOf(lang, items[n - 1].fields, location, validity) else None;
      if before.None? || effect.None? then None else Some(before.value + [effect.value])
  }

  function EffectsOf(lang: Language, value: Option<Value>, location: Rec, validity: Option<Value>): (es: Option<seq<Effect>>)
    requires AreShaped(value, location)
    ensures es.Some? ==> forall e :: e in es.value ==> EffectFits(e)
  {
    match value
    case Some(List(items)) => EffectsUpTo(lang, items, |items|, location, validity)
    case _ => None
  }

  const PHASE_OWN := {"id", "name", "effects"}

  datatype Phase = Phase(fields: Rec, effects: seq<Effect>)

  predicate PhaseFits(p: Phase) { p.fields.Keys !! PHASE_OWN && forall e :: e in p.effects ==> EffectFits(e) }

  function PhaseOf(lang: Language, value: Value, location: Rec): (p: Option<Phase>)
    requires value.Record? ==> AreShaped(At(value.fields, "effects"), location)
    ensures p.Some? ==> PhaseFits(p.value)
  {
    if !value.Record? || !KnownValidity(At(value.fields, "validity")) then None
    else
      var members := EffectsOf(lang, At(value.fields, "effects"), location, At(value.fields, "validity"));
      if members.None? then None else Some(Phase(value.fields - PHASE_OWN, members.value))
  }

  predicate ArePhasesShaped(items: seq<Value>, location: Rec) {
    forall v :: v in items && v.Record? ==> AreShaped(At(v.fields, "effects"), location)
  }

  function PhasesUpTo(lang: Language, items: seq<Value>, n: nat, location: Rec): (ps: Option<seq<Phase>>)
    requires n <= |items| && ArePhasesShaped(items, location)
    ensures ps.Some? ==> |ps.value| == n && forall p :: p in ps.value ==> PhaseFits(p)
  {
    if n == 0 then Some([])
    else
      var before := PhasesUpTo(lang, items, n - 1, location);
      var phase := PhaseOf(lang, items[n - 1], location);
      if before.None? || phase.None? then None else Some(before.value + [phase.value])
  }

  datatype Details = Details(fields: Rec, phases: Option<seq<Phase>>)

  const RECORD_OWN := {"id", "canonicalId", "contentHash", "revision", "recordedAt", "provenance", "headline", "description",
                       "externalIds", "extras", "groupId", "freshness", "location", "effects", "details"}

  datatype Report = Report(fields: Rec, place: Place, effects: seq<Effect>, details: Option<Details>, freshness: Option<Rec>)

  function PhasesIn(record: Rec): Option<Value> {
    match AsObject(At(record, "details")) case Some(details) => At(details, "phases") case None => None
  }

  /** What the typed model promises of a record. */
  predicate IsTyped(record: Rec) {
    match AsObject(At(record, "location"))
    case None => true
    case Some(location) =>
      && IsShaped(location) && AreShaped(At(record, "effects"), location)
      && (match PhasesIn(record) case Some(List(items)) => ArePhasesShaped(items, location) case _ => true)
  }

  predicate IsReported(record: Rec) {
    var provenance := AsObject(At(record, "provenance"));
    && AsObject(At(record, "location")).Some?
    && provenance.Some? && TextAt(provenance.value, "sourceId").Some? && !HasLength(At(provenance.value, "mergedSources"))
    && !Says(record, "certainty", "unknown") && KnownValidity(At(record, "validity"))
  }

  function CountMembers(phases: seq<Phase>): nat {
    if phases == [] then 0 else CountMembers(phases[..|phases| - 1]) + |phases[|phases| - 1].effects|
  }

  function DetailsOf(record: Rec, phases: Option<seq<Phase>>): Option<Details> {
    match AsObject(At(record, "details"))
    case None => None
    case Some(details) => Some(Details(details - {"phases"}, phases))
  }

  function FreshnessOf(record: Rec): Option<Rec> {
    match AsObject(At(record, "freshness"))
    case None => None
    case Some(freshness) => Some(freshness - {"fetchedAt", "sourceCheckedAt"})
  }

  /** The report's phases: none given, or those given, if all of them are known. */
  function ReportPhases(lang: Language, record: Rec, location: Rec): (phases: Option<Option<seq<Phase>>>)
    requires match PhasesIn(record) case Some(List(items)) => ArePhasesShaped(items, location) case _ => true
    ensures phases.Some? && phases.value.Some? ==> forall p :: p in phases.value.value ==> PhaseFits(p)
    ensures phases.Some? && phases.value.Some? ==> AsObject(At(record, "details")).Some?
  {
    match PhasesIn(record)
    case None => Some(None)
    case Some(List(items)) =>
      var phases := PhasesUpTo(lang, items, |items|, location);
      if phases.None? then None else Some(phases)
    case _ => None
  }

  /** What a report means, its lists still in the order given; none if not enough is known to say. */
  function ReportOf(lang: Language, record: Rec): (r: Option<Report>)
    requires IsTyped(record)
    ensures r.Some? ==> ReportFits(r.value)
  {
    if !IsReported(record) then None
    else
      var location := AsObject(At(record, "location")).value;
      var place := PlaceOf(lang, location, true);
      var effects := EffectsOf(lang, At(record, "effects"), location, At(record, "validity"));
      var phases := ReportPhases(lang, record, location);
      if place.None? || effects.None? || phases.None? then None
      else if |effects.value| + CountMembers(phases.value.GetOr([])) == 0 then None
      else Some(Report(record - RECORD_OWN, place.value, effects.value, DetailsOf(record, phases.value), FreshnessOf(record)))
  }

  predicate ReportFits(r: Report) {
    && PlaceFits(r.place) && r.fields.Keys !! RECORD_OWN
    && (forall e :: e in r.effects ==> EffectFits(e))
    && (r.details.Some? ==> DetailsFit(r.details.value))
  }

  predicate DetailsFit(d: Details) {
    "phases" !in d.fields && (d.phases.Some? ==> forall p :: p in d.phases.value ==> PhaseFits(p))
  }

  // --- the value the key is the text of: the lists without order sorted ---

  function PlaceValue(lang: Language, l: Value -> Json, p: Place): Value {
    Record(if p.roads.Some? then p.fields["roads" := List(Unordered(lang, l, p.roads.value))] else p.fields)
  }

  function EffectValue(lang: Language, l: Value -> Json, e: Effect): Value {
    var placed := e.fields["location" := PlaceValue(lang, l, e.place)]["validity" := e.validity];
    Record(if e.direction.Some? then placed["direction" := e.direction.value] else placed)
  }

  function EffectValues(lang: Language, l: Value -> Json, es: seq<Effect>): seq<Value> {
    seq(|es|, i requires 0 <= i < |es| => EffectValue(lang, l, es[i]))
  }

  function PhaseValue(lang: Language, l: Value -> Json, p: Phase): Value {
    Record(p.fields["effects" := List(Unordered(lang, l, EffectValues(lang, l, p.effects)))])
  }

  function PhaseValues(lang: Language, l: Value -> Json, ps: seq<Phase>): seq<Value> {
    seq(|ps|, i requires 0 <= i < |ps| => PhaseValue(lang, l, ps[i]))
  }

  function DetailsValue(lang: Language, l: Value -> Json, d: Details): Value {
    Record(if d.phases.Some? then d.fields["phases" := List(Unordered(lang, l, PhaseValues(lang, l, d.phases.value)))] else d.fields)
  }

  function ReportValue(lang: Language, l: Value -> Json, r: Report): Value {
    var core := r.fields["location" := PlaceValue(lang, l, r.place)]
                        ["effects" := List(Unordered(lang, l, EffectValues(lang, l, r.effects)))];
    var detailed := if r.details.Some? then core["details" := DetailsValue(lang, l, r.details.value)] else core;
    Record(if r.freshness.Some? then detailed["freshness" := Record(r.freshness.value)] else detailed)
  }

  function CompatibilityKey(lang: Language, l: Value -> Json, record: Rec): Option<string>
    requires IsTyped(record)
  {
    match ReportOf(lang, record)
    case None => None
    case Some(r) => Some(KeyOf(lang, l, ReportValue(lang, l, r)))
  }

  // --- the code's own loop ---

  lemma {:induction false} PhasesStop(lang: Language, items: seq<Value>, n: nat, m: nat, location: Rec)
    requires n <= m <= |items| && ArePhasesShaped(items, location) && PhasesUpTo(lang, items, n, location).None?
    ensures PhasesUpTo(lang, items, m, location).None?
  {
    hide PhaseOf, PhaseFits, ArePhasesShaped;
    if n < m { PhasesStop(lang, items, n, m - 1, location); }
  }

  lemma {:induction false} PhasesNext(lang: Language, items: seq<Value>, n: nat, location: Rec, pushed: seq<Phase>)
    requires n < |items| && ArePhasesShaped(items, location) && PhasesUpTo(lang, items, n, location) == Some(pushed)
    ensures var phase := PhaseOf(lang, items[n], location);
      if phase.None? then PhasesUpTo(lang, items, n + 1, location).None?
      else PhasesUpTo(lang, items, n + 1, location) == Some(pushed + [phase.value])
           && CountMembers(pushed + [phase.value]) == CountMembers(pushed) + |phase.value.effects|
  {
    hide PhaseOf, PhaseFits, AreShaped, At;
    var phase := PhaseOf(lang, items[n], location);
    if phase.Some? {
      assert (pushed + [phase.value])[..n] == pushed;
    }
  }

  /** The loop over phases: those of the list, and how many effects they hold. */
  method ReadPhases(lang: Language, items: seq<Value>, location: Rec) returns (phases: Option<seq<Phase>>, members: nat)
    requires ArePhasesShaped(items, location)
    ensures phases == PhasesUpTo(lang, items, |items|, location)
    ensures phases.Some? ==> members == CountMembers(phases.value)
  {
    var pushed: seq<Phase> := [];
    members := 0;
    assert PhasesUpTo(lang, items, 0, location) == Some(pushed);
    hide PhaseOf, PhaseFits, PhasesUpTo, CountMembers, AreShaped, At, ArePhasesShaped;
    for i := 0 to |items|
      invariant PhasesUpTo(lang, items, i, location) == Some(pushed)
      invariant members == CountMembers(pushed)
    {
      assert items[i] in items;
      var phase := PhaseOf(lang, items[i], location);
      PhasesNext(lang, items, i, location, pushed);
      if phase.None? {
        PhasesStop(lang, items, i + 1, |items|, location);
        return None, members;
      }
      pushed := pushed + [phase.value];
      members := members + |phase.value.effects|;
    }
    phases := Some(pushed);
  }

  method SituationCompatibilityKey(lang: Language, l: Value -> Json, record: Rec) returns (key: Option<string>)
    requires IsTyped(record)
    ensures key == CompatibilityKey(lang, l, record)
  {
    hide PlaceOf, EffectsOf, PhaseOf, PhaseFits, EffectFits, PlaceFits, ReportValue, KeyOf, RECORD_OWN, KnownValidity;
    hide HasLength, TextAt, IsShaped, FreshnessOf, ReportFits, DetailsFit, AreShaped, Effective, KnownDirection, PhasesUpTo, ArePhasesShaped;
    if !IsReported(record) {
      return None;
    }
    var location := AsObject(At(record, "location")).value;
    var place := PlaceOf(lang, location, true);
    var effects := EffectsOf(lang, At(record, "effects"), location, At(record, "validity"));
    if place.None? || effects.None? {
      return None;
    }
    var details := AsObject(At(record, "details"));
    var phases: Option<seq<Phase>> := None;
    var typedEffects := |effects.value|;
    if details.Some? && "phases" in details.value {
      var given := details.value["phases"];
      if !given.List? {
        return None;
      }
      var pushed, members := ReadPhases(lang, given.items, location);
      if pushed.None? {
        return None;
      }
      phases := pushed;
      typedEffects := typedEffects + members;
    }
    if typedEffects == 0 {
      return None;
    }
    var report := Report(record - RECORD_OWN, place.value, effects.value, DetailsOf(record, phases), FreshnessOf(record));
    key := Some(KeyOf(lang, l, ReportValue(lang, l, report)));
  }
}
