/** Status readings of charging stations that were merged into one site. A full
    parse drafts every reading and then moves it; a status-only poll reads through
    an index whose subjects the merge rewrote. Both land a reading in the same
    place. How a station's site and a reading are named is a parameter; `SiteId` is
    how a feed names its sites. */
module StatusPath {
  import opened Basics
  import opened Components
  import opened ComponentLaws

  type Point = (real, real)

  datatype Subject = Subject(
    stationId: string,
    evseKey: Option<string>,
    connectorId: Option<string>,
    upstream: Option<string>,
    point: Option<Point>,
    featureId: Option<string>,
    componentKey: Option<string>)

  /** A reading without its id, which is derived from it. */
  datatype Content = Content(
    property: string,
    featureId: string,
    componentKey: Option<string>,
    stationId: string,
    status: string,
    at: int,
    upstream: Option<string>,
    point: Option<Point>)

  datatype Reading = Reading(id: string, content: Content)

  /** One status of a poll: the subject it is about, the status and the instant the
      source gives it, if it gives one that can be written. */
  datatype Update = Update(subject: Subject, status: string, at: Option<int>)

  datatype Naming = Naming(siteId: string -> string, idOf: Content -> string)

  // --- drafting a reading ---

  function ComponentKeyOf(s: Subject): string {
    if s.connectorId.None? then EvseKey(s.evseKey.GetOr("")) else ConnectorKey(s.evseKey.GetOr(""), s.connectorId.value)
  }

  function Draft(names: Naming, u: Update, fetched: int): Reading {
    var s := u.subject;
    var content := Content(
      if s.connectorId.None? then "charging.evse_status" else "charging.connector_status",
      names.siteId(s.stationId),
      Some(ComponentKeyOf(s)),
      s.stationId,
      u.status,
      if u.at.Some? && u.at.value < fetched then u.at.value else fetched,
      s.upstream,
      s.point);
    Reading(names.idOf(content), content)
  }

  /** The component a subject names, as its site keys it. */
  function NamedComponent(s: Subject): string {
    var point := Underscored(Trim(s.evseKey.GetOr("")), "#/");
    match s.connectorId
    case None => point
    case Some(id) => point + "/" + Underscored(Trim(id), "#")
  }

  /** A reading says of a feature and component what a status says of its subject: whether a
      charge point or a connector, its station, publisher and place, and when, at the latest
      when it was fetched. */
  predicate Reports(names: Naming, r: Reading, u: Update, fetched: int, feature: string, component: string) {
    var (c, s) := (r.content, u.subject);
    && r.id == names.idOf(c) && c.featureId == feature && c.componentKey == Some(component)
    && (c.property == "charging.evse_status" <==> s.connectorId.None?)
    && (c.property == "charging.connector_status" <==> s.connectorId.Some?)
    && c.status == u.status && c.stationId == s.stationId && c.upstream == s.upstream && c.point == s.point
    && (u.at.Some? && u.at.value <= fetched ==> c.at == u.at.value)
    && (u.at.None? || u.at.value > fetched ==> c.at == fetched)
  }

  /** A drafted reading reports its status at its station's own site. */
  lemma {:induction false} DraftReports(names: Naming, u: Update, fetched: int)
    ensures Reports(names, Draft(names, u, fetched), u, fetched, names.siteId(u.subject.stationId), NamedComponent(u.subject))
  {
  }

  /** What a poll makes of a status: a reading where its subject points, or at its station's own site. */
  predicate ReportsWherePointed(names: Naming, r: Reading, u: Update, fetched: int) {
    var s := u.subject;
    Reports(names, r, u, fetched,
      if s.featureId.Some? then s.featureId.value else names.siteId(s.stationId),
      if s.featureId.Some? && s.componentKey.Some? then s.componentKey.value else NamedComponent(s))
  }

  function MovedReading(names: Naming, r: Reading, featureId: string, componentKey: Option<string>): Reading {
    var content := r.content.(
      featureId := featureId,
      componentKey := if componentKey.None? then r.content.componentKey else componentKey);
    Reading(names.idOf(content), content)
  }

  // --- what the merge of the sites recorded ---

  datatype Moves = Moves(
    keys: map<string, map<string, string>>,
    siteOf: map<string, string>,
    memberOfStation: map<string, string>)

  const NOTHING := Moves(map[], map[], map[])

  function SitesOf(siteOf: map<string, string>, group: seq<Member>, site: string): map<string, string> {
    siteOf + map m | m in group :: m.draftId := site
  }

  function StationsOf(stations: map<string, string>, group: seq<Member>): map<string, string> {
    if group == [] then stations
    else
      var n := |group| - 1;
      StationsOf(stations, group[..n])[group[n].stationId := group[n].draftId]
  }

  function KeysMoved(keys: map<string, map<string, string>>, group: seq<Member>): map<string, map<string, string>> {
    keys + MergeAll(group, Mixed(group)).renamed
  }

  function Recorded(moves: Moves, group: seq<Member>): Moves {
    if |group| < 2 then moves
    else Moves(
      KeysMoved(moves.keys, group),
      SitesOf(moves.siteOf, group, group[0].draftId),
      StationsOf(moves.memberOfStation, group))
  }

  function AllMoves(groups: seq<seq<Member>>): Moves {
    if groups == [] then NOTHING
    else Recorded(AllMoves(groups[..|groups| - 1]), groups[|groups| - 1])
  }

  method RecordStations(before: map<string, string>, group: seq<Member>) returns (stations: map<string, string>)
    ensures stations == StationsOf(before, group)
  {
    stations := before;
    for j := 0 to |group|
      invariant stations == StationsOf(before, group[..j])
    {
      assert group[..j + 1][..j] == group[..j];
      stations := stations[group[j].stationId := group[j].draftId];
    }
    assert group[..|group|] == group;
  }

  method RecordMoves(groups: seq<seq<Member>>) returns (moves: Moves)
    ensures moves == AllMoves(groups)
  {
    hide MergeAll, Mixed, StationsOf, SitesOf;
    var keys: map<string, map<string, string>>, siteOf: map<string, string>, stations: map<string, string> := map[], map[], map[];
    for i := 0 to |groups|
      invariant Moves(keys, siteOf, stations) == AllMoves(groups[..i])
    {
      var group := groups[i];
      assert groups[..i + 1][..i] == groups[..i];
      if |group| >= 2 {
        var _, renamed := MergeComponents(group);
        stations := RecordStations(stations, group);
        keys := keys + renamed;
        siteOf := SitesOf(siteOf, group, group[0].draftId);
      }
    }
    assert groups[..|groups|] == groups;
    moves := Moves(keys, siteOf, stations);
  }

  function KeyAfter(moves: Moves, member: string, key: string): string {
    if member in moves.keys && key in moves.keys[member] then moves.keys[member][key] else key
  }

  /** A subject of the status index, pointed to where its station's readings go. */
  function Rewritten(moves: Moves, s: Subject): Subject {
    if s.stationId in moves.memberOfStation && moves.memberOfStation[s.stationId] in moves.siteOf then
      var member := moves.memberOfStation[s.stationId];
      s.(featureId := Some(moves.siteOf[member]), componentKey := Some(KeyAfter(moves, member, ComponentKeyOf(s))))
    else s
  }

  // --- the two paths ---

  /** A reading where it goes, and whether the merge moved it there. */
  datatype Placement = Placement(reading: Reading, moved: bool)

  function SlowPlacement(names: Naming, moves: Moves, r: Reading): Placement {
    if r.content.featureId in moves.siteOf then
      var member := r.content.featureId;
      Placement(
        MovedReading(names, r, moves.siteOf[member],
          if r.content.componentKey.None? then None else Some(KeyAfter(moves, member, r.content.componentKey.value))),
        true)
    else Placement(r, false)
  }

  function FastPlacement(names: Naming, u: Update, fetched: int): Placement {
    var reading := Draft(names, u, fetched);
    if u.subject.featureId.None? then Placement(reading, false)
    else Placement(MovedReading(names, reading, u.subject.featureId.value, u.subject.componentKey), true)
  }

  /** Readings in order, a moved one only once by its id, and the ids moved so far. */
  datatype Gathered = Gathered(observations: seq<Reading>, seen: set<string>)

  function Gather(placements: seq<Placement>): Gathered {
    if placements == [] then Gathered([], {})
    else
      var n := |placements| - 1;
      var (before, p) := (Gather(placements[..n]), placements[n]);
      if !p.moved then before.(observations := before.observations + [p.reading])
      else if p.reading.id in before.seen then before
      else Gathered(before.observations + [p.reading], before.seen + {p.reading.id})
  }

  /** A full parse's readings, moved onto the merged sites. */
  method MoveReadings(names: Naming, moves: Moves, readings: seq<Reading>) returns (observations: seq<Reading>)
    ensures observations == Gather(seq(|readings|, i requires 0 <= i < |readings| => SlowPlacement(names, moves, readings[i]))).observations
  {
    observations := [];
    var seen: set<string> := {};
    ghost var placements := seq(|readings|, i requires 0 <= i < |readings| => SlowPlacement(names, moves, readings[i]));
    for i := 0 to |readings|
      invariant Gathered(observations, seen) == Gather(placements[..i])
    {
      assert placements[..i + 1][..i] == placements[..i];
      var r := readings[i];
      if r.content.featureId !in moves.siteOf {
        observations := observations + [r];
      } else {
        var member := r.content.featureId;
        var onSite := MovedReading(names, r, moves.siteOf[member],
          if r.content.componentKey.None? then None else Some(KeyAfter(moves, member, r.content.componentKey.value)));
        if onSite.id !in seen {
          seen := seen + {onSite.id};
          observations := observations + [onSite];
        }
      }
    }
    assert placements[..|readings|] == placements;
  }

  /** Gathers the readings of a status-only poll. */
  class StatusReader {
    const names: Naming
    const fetched: int
    var observations: seq<Reading>
    var moved: set<string>
    var rejected: nat
    ghost var updates: seq<Update>

    ghost predicate Valid()
      reads this
    {
      Gathered(observations, moved) == Gather(FastPlacements(names, updates, fetched))
    }

    constructor (naming: Naming, fetchedAt: int)
      ensures Valid() && names == naming && fetched == fetchedAt && updates == [] && rejected == 0
    {
      names, fetched, observations, moved, rejected, updates := naming, fetchedAt, [], {}, 0, [];
    }

    method Read(u: Update)
      requires Valid()
      modifies this
      ensures Valid() && updates == old(updates) + [u] && rejected == old(rejected)
      ensures exists r: Reading ::
        && ReportsWherePointed(names, r, u, fetched)
        && if u.subject.featureId.None? then observations == old(observations) + [r] && moved == old(moved)
           else if r.id in old(moved) then observations == old(observations) && moved == old(moved)
           else observations == old(observations) + [r] && moved == old(moved) + {r.id}
    {
      updates := updates + [u];
      ghost var placements := FastPlacements(names, updates, fetched);
      assert placements[..|updates| - 1] == FastPlacements(names, old(updates), fetched);
      var reading := Draft(names, u, fetched);
      DraftReports(names, u, fetched);
      hide Draft, NamedComponent;
      if u.subject.featureId.None? {
        assert ReportsWherePointed(names, reading, u, fetched);
        observations := observations + [reading];
        return;
      }
      var onSite := MovedReading(names, reading, u.subject.featureId.value, u.subject.componentKey);
      assert ReportsWherePointed(names, onSite, u, fetched);
      if onSite.id in moved {
        return;
      }
      moved := moved + {onSite.id};
      observations := observations + [onSite];
    }

    method Reject()
      requires Valid()
      modifies this
      ensures Valid() && updates == old(updates) && rejected == old(rejected) + 1
    {
      rejected := rejected + 1;
    }
  }

  function FastPlacements(names: Naming, updates: seq<Update>, fetched: int): seq<Placement> {
    seq(|updates|, i requires 0 <= i < |updates| => FastPlacement(names, updates[i], fetched))
  }

  function SlowPlacements(names: Naming, moves: Moves, updates: seq<Update>, fetched: int): seq<Placement> {
    seq(|updates|, i requires 0 <= i < |updates| => SlowPlacement(names, moves, Draft(names, updates[i], fetched)))
  }

  // --- they agree ---

  ghost predicate NamedBySites(names: Naming, groups: seq<seq<Member>>) {
    forall g, m :: 0 <= g < |groups| && m in groups[g] ==> m.draftId == names.siteId(m.stationId)
  }

  /** If a station's site id was merged, the station itself was. */
  predicate IsSettled(names: Naming, moves: Moves, stationId: string) {
    names.siteId(stationId) in moves.siteOf ==> stationId in moves.memberOfStation
  }

  lemma {:induction false} StationsRecorded(stations: map<string, string>, group: seq<Member>, names: Naming)
    requires forall m :: m in group ==> m.draftId == names.siteId(m.stationId)
    ensures var after := StationsOf(stations, group);
      && (forall s :: s in after <==> s in stations || exists m :: m in group && m.stationId == s)
      && (forall s :: s in after ==> after[s] == names.siteId(s) || (s in stations && after[s] == stations[s]))
  {
    if group != [] {
      var n := |group| - 1;
      assert group == group[..n] + [group[n]];
      StationsRecorded(stations, group[..n], names);
    }
  }

  /** Every station recorded has its own site id, which has a site; every id that
      has a site is that of a recorded station, which some group lists. */
  ghost predicate WellRecorded(moves: Moves, names: Naming) {
    && (forall s :: s in moves.memberOfStation ==> moves.memberOfStation[s] == names.siteId(s) && names.siteId(s) in moves.siteOf)
    && (forall f :: f in moves.siteOf ==> exists s :: s in moves.memberOfStation && names.siteId(s) == f)
  }

  lemma {:induction false} SiteIsRecorded(moves: Moves, group: seq<Member>, names: Naming, f: string)
    requires WellRecorded(moves, names) && forall m :: m in group ==> m.draftId == names.siteId(m.stationId)
    requires f in Recorded(moves, group).siteOf
    ensures exists s :: s in Recorded(moves, group).memberOfStation && names.siteId(s) == f
  {
    hide KeysMoved;
    StationsRecorded(moves.memberOfStation, group, names);
    hide StationsOf;
    if f in moves.siteOf {
      var s :| s in moves.memberOfStation && names.siteId(s) == f;
      assert s in Recorded(moves, group).memberOfStation;
    } else {
      var m :| m in group && m.draftId == f;
      assert m.stationId in Recorded(moves, group).memberOfStation;
    }
  }

  lemma {:induction false} StationIsRecorded(moves: Moves, group: seq<Member>, names: Naming, s: string)
    requires WellRecorded(moves, names) && forall m :: m in group ==> m.draftId == names.siteId(m.stationId)
    requires s in Recorded(moves, group).memberOfStation
    ensures var after := Recorded(moves, group); after.memberOfStation[s] == names.siteId(s) && names.siteId(s) in after.siteOf
    ensures s in moves.memberOfStation || exists m :: m in group && m.stationId == s
  {
    hide KeysMoved;
    StationsRecorded(moves.memberOfStation, group, names);
    hide StationsOf;
  }

  lemma {:induction false} RecordedWell(moves: Moves, group: seq<Member>, names: Naming)
    requires WellRecorded(moves, names)
    requires forall m :: m in group ==> m.draftId == names.siteId(m.stationId)
    ensures WellRecorded(Recorded(moves, group), names)
    ensures forall s :: s in Recorded(moves, group).memberOfStation ==>
      s in moves.memberOfStation || exists m :: m in group && m.stationId == s
  {
    hide Recorded;
    var after := Recorded(moves, group);
    forall f | f in after.siteOf ensures exists s :: s in after.memberOfStation && names.siteId(s) == f {
      SiteIsRecorded(moves, group, names, f);
    }
    forall s | s in after.memberOfStation
      ensures after.memberOfStation[s] == names.siteId(s) && names.siteId(s) in after.siteOf
      ensures s in moves.memberOfStation || exists m :: m in group && m.stationId == s
    {
      StationIsRecorded(moves, group, names, s);
    }
  }

  predicate Lists(group: seq<Member>, station: string) { exists m :: m in group && m.stationId == station }

  lemma {:induction false} MovesRecorded(groups: seq<seq<Member>>, names: Naming)
    requires NamedBySites(names, groups)
    ensures WellRecorded(AllMoves(groups), names)
    ensures forall s :: s in AllMoves(groups).memberOfStation ==> exists g :: 0 <= g < |groups| && Lists(groups[g], s)
  {
    if groups != [] {
      var n := |groups| - 1;
      var before := groups[..n];
      MovesRecorded(before, names);
      RecordedWell(AllMoves(before), groups[n], names);
      hide Recorded, WellRecorded;
      forall s | s in AllMoves(groups).memberOfStation ensures exists g :: 0 <= g < |groups| && Lists(groups[g], s) {
        if s in AllMoves(before).memberOfStation {
          var g :| 0 <= g < n && Lists(before[g], s);
          assert before[g] == groups[g];
        } else {
          assert Lists(groups[n], s);
        }
      }
    }
  }

  /** The move of a status leads nowhere: to the same site and the same component. */
  predicate StaysPut(names: Naming, moves: Moves, s: Subject) {
    var site := names.siteId(s.stationId);
    site in moves.siteOf && moves.siteOf[site] == site && KeyAfter(moves, site, ComponentKeyOf(s)) == ComponentKeyOf(s)
  }

  /** A reading the full parse moves and the index does not. */
  predicate Strays(fast: Placement, slow: Placement) { !fast.moved && slow.moved }

  /** A status lands alike on both paths, and is moved on both or neither, exactly if its
      station was merged where its site id was. Short of that only the full parse moves it,
      and the readings are still one only where the move leads nowhere. */
  lemma {:induction false} OneUpdateAgrees(names: Naming, groups: seq<seq<Member>>, u: Update, fetched: int)
    requires NamedBySites(names, groups)
    requires u.subject.featureId.None? && u.subject.componentKey.None?
    ensures var moves := AllMoves(groups);
      var settled := IsSettled(names, moves, u.subject.stationId);
      var fast := FastPlacement(names, u.(subject := Rewritten(moves, u.subject)), fetched);
      var slow := SlowPlacement(names, moves, Draft(names, u, fetched));
      && (if settled then fast == slow else Strays(fast, slow))
      && (fast.reading == slow.reading <==> settled || StaysPut(names, moves, u.subject))
  {
    MovesRecorded(groups, names);
    hide AllMoves, ComponentKeyOf;
  }

  function Rewrites(moves: Moves, updates: seq<Update>): seq<Update> {
    seq(|updates|, i requires 0 <= i < |updates| => updates[i].(subject := Rewritten(moves, updates[i].subject)))
  }

  // --- what two lists of placements gather ---

  /** Two lists of placements that differ only where the second moves a reading the first does not. */
  ghost predicate Paired(fast: seq<Placement>, slow: seq<Placement>) {
    |fast| == |slow| && forall i :: 0 <= i < |fast| ==> fast[i] == slow[i] || Strays(fast[i], slow[i])
  }

  predicate SeenIn(placements: seq<Placement>, n: nat, id: string)
    requires n <= |placements|
  {
    exists j :: 0 <= j < n && placements[j].moved && placements[j].reading.id == id
  }

  lemma {:induction false} SeenExactly(placements: seq<Placement>, n: nat, id: string)
    requires n <= |placements|
    ensures id in Gather(placements[..n]).seen <==> SeenIn(placements, n, id)
  {
    if n > 0 {
      assert placements[..n][..n - 1] == placements[..n - 1];
      SeenExactly(placements, n - 1, id);
      var last := placements[n - 1];
      assert SeenIn(placements, n, id) <==> SeenIn(placements, n - 1, id) || (last.moved && last.reading.id == id);
    }
  }

  predicate IsKept(placements: seq<Placement>, i: nat)
    requires i < |placements|
  {
    placements[i].moved ==> !SeenIn(placements, i, placements[i].reading.id)
  }

  /** What a placement adds to the readings gathered before it. */
  function Given(placements: seq<Placement>, i: nat): seq<Reading>
    requires i < |placements|
  {
    if IsKept(placements, i) then [placements[i].reading] else []
  }

  lemma {:induction false} GatherNext(placements: seq<Placement>, n: nat)
    requires n < |placements|
    ensures Gather(placements[..n + 1]).observations == Gather(placements[..n]).observations + Given(placements, n)
  {
    assert placements[..n + 1][..n] == placements[..n];
    SeenExactly(placements, n, placements[n].reading.id);
    hide SeenIn;
  }

  lemma {:induction false} SlowSeesMore(fast: seq<Placement>, slow: seq<Placement>, n: nat, id: string)
    requires Paired(fast, slow) && n <= |fast|
    ensures SeenIn(fast, n, id) ==> SeenIn(slow, n, id)
  {
    if SeenIn(fast, n, id) {
      var j :| 0 <= j < n && fast[j].moved && fast[j].reading.id == id;
      assert slow[j].moved && slow[j].reading.id == id;
    }
  }

  /** The same contribution to what is gathered: the same reading, or none. */
  predicate GivesAlike(fast: seq<Placement>, slow: seq<Placement>, i: nat)
    requires i < |fast| == |slow|
  {
    IsKept(fast, i) == IsKept(slow, i) && (IsKept(fast, i) ==> fast[i].reading == slow[i].reading)
  }

  /** The slow list keeps no more than the fast one. */
  lemma {:induction false} GivenExactly(fast: seq<Placement>, slow: seq<Placement>, i: nat)
    requires Paired(fast, slow) && i < |fast|
    ensures |Given(slow, i)| <= |Given(fast, i)|
    ensures Given(fast, i) == Given(slow, i) <==> GivesAlike(fast, slow, i)
  {
    SlowSeesMore(fast, slow, i, fast[i].reading.id);
    hide SeenIn;
    if IsKept(fast, i) && IsKept(slow, i) {
      assert Given(fast, i)[0] == fast[i].reading && Given(slow, i)[0] == slow[i].reading;
    }
  }

  /** As the slow list keeps no more, equal lists are made of equal contributions. */
  lemma {:induction false} AlikeUpTo(fast: seq<Placement>, slow: seq<Placement>, n: nat)
    requires Paired(fast, slow) && n <= |fast|
    ensures |Gather(slow[..n]).observations| <= |Gather(fast[..n]).observations|
    ensures Gather(fast[..n]).observations == Gather(slow[..n]).observations <==> forall i :: 0 <= i < n ==> GivesAlike(fast, slow, i)
  {
    hide Gather, Given, GivesAlike, Strays;
    if n == 0 {
      assert fast[..0] == slow[..0];
    } else {
      AlikeUpTo(fast, slow, n - 1);
      GatherNext(fast, n - 1);
      GatherNext(slow, n - 1);
      GivenExactly(fast, slow, n - 1);
      SameWithLast(Gather(fast[..n - 1]).observations, Gather(slow[..n - 1]).observations, Given(fast, n - 1), Given(slow, n - 1));
    }
  }

  lemma {:induction false} SameWithLast<T>(a: seq<T>, b: seq<T>, x: seq<T>, y: seq<T>)
    requires |b| <= |a| && |y| <= |x|
    ensures a + x == b + y <==> a == b && x == y
  {
    if a + x == b + y {
      assert |a| == |b|;
      assert (a + x)[..|a|] == a && (b + y)[..|b|] == b;
      assert (a + x)[|a|..] == x && (b + y)[|b|..] == y;
    }
  }

  /** No other moved reading has this one's id. */
  predicate IsAlone(placements: seq<Placement>, i: nat)
    requires i < |placements|
  {
    forall j :: 0 <= j < |placements| && j != i && placements[j].moved ==> placements[j].reading.id != placements[i].reading.id
  }

  /** The next moved reading of a stray's id would be dropped on one path only. */
  lemma {:induction false} NextDiffers(fast: seq<Placement>, slow: seq<Placement>, i: nat, j: nat)
    requires Paired(fast, slow) && i < j < |fast| && Strays(fast[i], slow[i]) && GivesAlike(fast, slow, j)
    requires !SeenIn(slow, i, slow[i].reading.id)
    requires forall k :: i < k < j && slow[k].moved ==> slow[k].reading.id != slow[i].reading.id
    ensures slow[j].moved ==> slow[j].reading.id != slow[i].reading.id
  {
    var id := slow[i].reading.id;
    assert SeenIn(slow, j, id);
    forall k | 0 <= k < j && fast[k].moved ensures fast[k].reading.id != id {
      assert fast[k] == slow[k];
    }
    assert !SeenIn(fast, j, id);
  }

  lemma {:induction false} NoneUpTo(fast: seq<Placement>, slow: seq<Placement>, i: nat, n: nat)
    requires Paired(fast, slow) && i < n <= |fast| && Strays(fast[i], slow[i])
    requires forall k :: 0 <= k < |fast| ==> GivesAlike(fast, slow, k)
    ensures !SeenIn(slow, i, slow[i].reading.id)
    ensures forall k :: i < k < n && slow[k].moved ==> slow[k].reading.id != slow[i].reading.id
  {
    if n == i + 1 {
      assert GivesAlike(fast, slow, i) && IsKept(fast, i);
    } else {
      NoneUpTo(fast, slow, i, n - 1);
      NextDiffers(fast, slow, i, n - 1);
    }
  }

  lemma {:induction false} StrayStandsAlone(fast: seq<Placement>, slow: seq<Placement>, i: nat)
    requires Paired(fast, slow) && i < |fast| && Strays(fast[i], slow[i])
    requires forall k :: 0 <= k < |fast| ==> GivesAlike(fast, slow, k)
    ensures fast[i].reading == slow[i].reading && IsAlone(slow, i)
  {
    assert GivesAlike(fast, slow, i) && IsKept(fast, i);
    NoneUpTo(fast, slow, i, |fast|);
  }

  /** Every reading that strays does so to where it is, and shares its id with no other that is moved. */
  predicate StraysDoNotShow(fast: seq<Placement>, slow: seq<Placement>)
    requires |fast| == |slow|
  {
    forall i :: 0 <= i < |fast| && Strays(fast[i], slow[i]) ==> fast[i].reading == slow[i].reading && IsAlone(slow, i)
  }

  lemma {:induction false} AloneGivesAlike(fast: seq<Placement>, slow: seq<Placement>, i: nat)
    requires Paired(fast, slow) && i < |fast| && StraysDoNotShow(fast, slow)
    ensures GivesAlike(fast, slow, i)
  {
    var id := slow[i].reading.id;
    if Strays(fast[i], slow[i]) {
      assert IsAlone(slow, i) && !SeenIn(slow, i, id);
    } else {
      SlowSeesMore(fast, slow, i, id);
      if slow[i].moved && SeenIn(slow, i, id) {
        var j :| 0 <= j < i && slow[j].moved && slow[j].reading.id == id;
        assert !IsAlone(slow, j);
        assert fast[j] == slow[j] && SeenIn(fast, i, id);
      }
    }
  }

  /** What is gathered is one exactly if no reading that strays shows. */
  lemma {:induction false} GatherExactly(fast: seq<Placement>, slow: seq<Placement>)
    requires Paired(fast, slow)
    ensures Gather(fast).observations == Gather(slow).observations <==> StraysDoNotShow(fast, slow)
  {
    assert fast[..|fast|] == fast && slow[..|slow|] == slow;
    AlikeUpTo(fast, slow, |fast|);
    hide Gather, GivesAlike, IsAlone;
    if StraysDoNotShow(fast, slow) {
      forall i | 0 <= i < |fast| ensures GivesAlike(fast, slow, i) {
        AloneGivesAlike(fast, slow, i);
      }
    } else if forall i :: 0 <= i < |fast| ==> GivesAlike(fast, slow, i) {
      forall i | 0 <= i < |fast| && Strays(fast[i], slow[i]) ensures fast[i].reading == slow[i].reading && IsAlone(slow, i) {
        StrayStandsAlone(fast, slow, i);
      }
    }
  }

  /** For the same statuses in the same order, the status-only poll over the rewritten
      index places every reading as a full parse and merge would, exactly if each
      station named was merged where its site id was. The readings yielded are the same
      exactly if, wherever that fails, the full parse moves the reading to where it is,
      and moves no other of its id. */
  lemma {:induction false} FastPathAgrees(names: Naming, groups: seq<seq<Member>>, updates: seq<Update>, fetched: int)
    requires NamedBySites(names, groups)
    requires forall u :: u in updates ==> u.subject.featureId.None? && u.subject.componentKey.None?
    ensures var moves := AllMoves(groups);
      var (fast, slow) := (FastPlacements(names, Rewrites(moves, updates), fetched), SlowPlacements(names, moves, updates, fetched));
      && (fast == slow <==> forall u :: u in updates ==> IsSettled(names, moves, u.subject.stationId))
      && (Gather(fast).observations == Gather(slow).observations
          <==> forall i :: 0 <= i < |updates| && !IsSettled(names, moves, updates[i].subject.stationId) ==>
                 StaysPut(names, moves, updates[i].subject) && IsAlone(slow, i))
  {
    var moves := AllMoves(groups);
    var (fast, slow) := (FastPlacements(names, Rewrites(moves, updates), fetched), SlowPlacements(names, moves, updates, fetched));
    hide *;
    forall i | 0 <= i < |updates|
      ensures |fast| == |slow| == |updates|
      ensures if IsSettled(names, moves, updates[i].subject.stationId) then fast[i] == slow[i]
              else Strays(fast[i], slow[i]) && (fast[i].reading == slow[i].reading <==> StaysPut(names, moves, updates[i].subject))
    {
      PlacedAt(names, groups, updates, fetched, i);
    }
    PlacedLengths(names, moves, updates, fetched);
    NoStray();
    if forall u :: u in updates ==> IsSettled(names, moves, u.subject.stationId) {
      assert fast == slow;
    } else {
      var u :| u in updates && !IsSettled(names, moves, u.subject.stationId);
      var i :| 0 <= i < |updates| && updates[i] == u;
      assert fast[i] != slow[i];
    }
    PairedGather(fast, slow);
  }

  lemma {:induction false} NoStray()
    ensures forall p, q :: Strays(p, q) ==> p != q
  {
  }

  lemma {:induction false} PairedGather(fast: seq<Placement>, slow: seq<Placement>)
    requires |fast| == |slow| && forall i :: 0 <= i < |fast| ==> fast[i] == slow[i] || Strays(fast[i], slow[i])
    ensures Gather(fast).observations == Gather(slow).observations
       <==> forall i :: 0 <= i < |fast| && Strays(fast[i], slow[i]) ==> fast[i].reading == slow[i].reading && IsAlone(slow, i)
  {
    GatherExactly(fast, slow);
    hide Gather, IsAlone;
  }

  lemma {:induction false} PlacedLengths(names: Naming, moves: Moves, updates: seq<Update>, fetched: int)
    ensures |FastPlacements(names, Rewrites(moves, updates), fetched)| == |SlowPlacements(names, moves, updates, fetched)| == |updates|
  {
  }

  lemma {:induction false} PlacedAt(names: Naming, groups: seq<seq<Member>>, updates: seq<Update>, fetched: int, i: nat)
    requires NamedBySites(names, groups) && i < |updates|
    requires forall u :: u in updates ==> u.subject.featureId.None? && u.subject.componentKey.None?
    ensures var moves := AllMoves(groups);
      var (fast, slow) := (FastPlacements(names, Rewrites(moves, updates), fetched), SlowPlacements(names, moves, updates, fetched));
      && |fast| == |slow| == |updates|
      && if IsSettled(names, moves, updates[i].subject.stationId) then fast[i] == slow[i]
         else Strays(fast[i], slow[i]) && (fast[i].reading == slow[i].reading <==> StaysPut(names, moves, updates[i].subject))
  {
    assert updates[i] in updates;
    OneUpdateAgrees(names, groups, updates[i], fetched);
    hide AllMoves, FastPlacement, SlowPlacement, Rewritten, IsSettled, StaysPut, Strays, NamedBySites;
  }

  // --- what a moved reading says ---

  /** A full parse's reading of a status reports it too: at the site its own was merged into,
      of the component its own became there, or else at its own. */
  lemma {:induction false} SlowReports(names: Naming, moves: Moves, u: Update, fetched: int)
    ensures var (site, named) := (names.siteId(u.subject.stationId), NamedComponent(u.subject));
      var placed := SlowPlacement(names, moves, Draft(names, u, fetched));
      && (placed.moved <==> site in moves.siteOf)
      && Reports(names, placed.reading, u, fetched,
           if site in moves.siteOf then moves.siteOf[site] else site,
           if site in moves.siteOf && site in moves.keys && named in moves.keys[site] then moves.keys[site][named] else named)
  {
    DraftReports(names, u, fetched);
    hide Draft, NamedComponent;
  }

  /** A move changes a reading's feature and component and, as that is derived, its id; nothing else. */
  lemma {:induction false} MoveChangesPlace(names: Naming, moves: Moves, r: Reading)
    ensures var (c, placed) := (r.content, SlowPlacement(names, moves, r));
      var c' := placed.reading.content;
      && (placed.moved <==> c.featureId in moves.siteOf) && (!placed.moved ==> placed.reading == r)
      && c'.property == c.property && c'.stationId == c.stationId && c'.status == c.status && c'.at == c.at
      && c'.upstream == c.upstream && c'.point == c.point
      && (placed.moved ==> placed.reading.id == names.idOf(c') && c'.featureId == moves.siteOf[c.featureId])
      && (c'.componentKey.Some? <==> c.componentKey.Some?)
  {
  }

  // --- where a moved reading lands ---

  predicate ListsDraft(group: seq<Member>, draftId: string) { exists m :: m in group && m.draftId == draftId }

  /** What is recorded of a draft comes last from this location of this group: those after
      it in the group, and the merged groups after that, are of other drafts. */
  predicate HasLastWord(groups: seq<seq<Member>>, g: nat, i: nat) {
    && g < |groups| && |groups[g]| >= 2 && IsLastOf(groups[g], |groups[g]|, i)
    && forall h :: g < h < |groups| && |groups[h]| >= 2 ==> !ListsDraft(groups[h], groups[g][i].draftId)
  }

  lemma {:induction false} RenamesEachMember(group: seq<Member>, mixed: bool)
    ensures forall d :: d in MergeAll(group, mixed).renamed <==> ListsDraft(group, d)
  {
    if group != [] {
      var n := |group| - 1;
      RenamesEachMember(group[..n], mixed);
      assert group == group[..n] + [group[n]];
      hide MovesOf, DroppedOf, Joining, Adding, Renames;
      forall d ensures ListsDraft(group, d) <==> ListsDraft(group[..n], d) || d == group[n].draftId {
      }
    }
  }

  /** One group more leaves what was recorded of another's draft. */
  lemma {:induction false} RecordedStays(moves: Moves, group: seq<Member>, draftId: string)
    requires |group| >= 2 ==> !ListsDraft(group, draftId)
    requires draftId in moves.keys && draftId in moves.siteOf
    ensures var after := Recorded(moves, group);
      && draftId in after.keys && after.keys[draftId] == moves.keys[draftId]
      && draftId in after.siteOf && after.siteOf[draftId] == moves.siteOf[draftId]
  {
    RenamesEachMember(group, Mixed(group));
    hide MergeAll, Mixed, StationsOf;
  }

  lemma {:induction false} RecordedHere(moves: Moves, group: seq<Member>, i: nat)
    requires |group| >= 2 && IsLastOf(group, |group|, i)
    ensures var (after, d) := (Recorded(moves, group), group[i].draftId);
      && d in after.keys && after.keys[d] == OwnRenames(group, Mixed(group), i)
      && d in after.siteOf && after.siteOf[d] == group[0].draftId
  {
    assert group[..|group|] == group && group[i] in group;
    RenamesSurvive(group, Mixed(group), i, |group|);
    hide MergeAll, Mixed, StationsOf, OwnRenames;
  }

  /** The maps hold of each merged draft the renames of the location that has the last word on it, and its group's site. */
  lemma {:induction false} MovesHold(groups: seq<seq<Member>>, g: nat, i: nat)
    requires HasLastWord(groups, g, i)
    ensures var (moves, d) := (AllMoves(groups), groups[g][i].draftId);
      && d in moves.keys && moves.keys[d] == OwnRenames(groups[g], Mixed(groups[g]), i)
      && d in moves.siteOf && moves.siteOf[d] == groups[g][0].draftId
    decreases |groups|
  {
    var n := |groups| - 1;
    hide Recorded, MergeAll, Mixed, OwnRenames, ListsDraft;
    if g == n {
      RecordedHere(AllMoves(groups[..n]), groups[n], i);
    } else {
      assert groups[..n][g] == groups[g];
      MovesHold(groups[..n], g, i);
      RecordedStays(AllMoves(groups[..n]), groups[n], groups[g][i].draftId);
    }
  }

  lemma {:induction false} LastOfDraft(group: seq<Member>, n: nat, draftId: string) returns (i: nat)
    requires n <= |group| && ListsDraft(group[..n], draftId)
    ensures IsLastOf(group, n, i) && group[i].draftId == draftId
  {
    if group[n - 1].draftId == draftId {
      i := n - 1;
    } else {
      assert group[..n] == group[..n - 1] + [group[n - 1]];
      i := LastOfDraft(group, n - 1, draftId);
    }
  }

  /** On every merged draft some location has the last word. */
  lemma {:induction false} SomeLastWord(groups: seq<seq<Member>>, draftId: string) returns (g: nat, i: nat)
    requires draftId in AllMoves(groups).siteOf
    ensures HasLastWord(groups, g, i) && groups[g][i].draftId == draftId
    decreases |groups|
  {
    var n := |groups| - 1;
    if |groups[n]| >= 2 && ListsDraft(groups[n], draftId) {
      assert groups[n][..|groups[n]|] == groups[n];
      g := n;
      i := LastOfDraft(groups[n], |groups[n]|, draftId);
    } else {
      hide KeysMoved, StationsOf;
      g, i := SomeLastWord(groups[..n], draftId);
      assert groups[..n][g] == groups[g];
      hide ListsDraft;
      forall h | g < h < |groups| && |groups[h]| >= 2 ensures !ListsDraft(groups[h], draftId) {
        if h < n { assert groups[..n][h] == groups[h]; }
      }
    }
  }

  // --- which drafts the merged sites replace ---

  /** What a draft becomes: the merged site of the group of that number, or nothing. */
  type Replaced = map<string, Option<nat>>

  function Withdrawn(replaced: Replaced, group: seq<Member>, n: nat): Replaced
    requires n <= |group|
  {
    if n <= 1 then replaced else Withdrawn(replaced, group, n - 1)[group[n - 1].draftId := None]
  }

  /** The drafts replaced by the first `n` groups: each lead's by the site, the others' by nothing. */
  function ReplacedBy(groups: seq<seq<Member>>, n: nat): Replaced
    requires n <= |groups|
  {
    if n == 0 then map[]
    else
      var (before, group) := (ReplacedBy(groups, n - 1), groups[n - 1]);
      if |group| < 2 then before else Withdrawn(before[group[0].draftId := Some(n - 1)], group, |group|)
  }

  method ReplaceDrafts(groups: seq<seq<Member>>) returns (replaced: Replaced)
    ensures replaced == ReplacedBy(groups, |groups|)
  {
    replaced := map[];
    for g := 0 to |groups|
      invariant replaced == ReplacedBy(groups, g)
    {
      var group := groups[g];
      if |group| >= 2 {
        replaced := replaced[group[0].draftId := Some(g)];
        ghost var withLead := replaced;
        for j := 1 to |group|
          invariant replaced == Withdrawn(withLead, group, j)
        {
          replaced := replaced[group[j].draftId := None];
        }
      }
    }
  }

  lemma {:induction false} WithdrawnExactly(replaced: Replaced, group: seq<Member>, n: nat, d: string)
    requires 1 <= n <= |group|
    ensures var (after, others) := (Withdrawn(replaced, group, n), exists j :: 1 <= j < n && group[j].draftId == d);
      (d in after <==> d in replaced || others) && (d in after ==> after[d] == if others then None else replaced[d])
  {
    if n > 1 {
      WithdrawnExactly(replaced, group, n - 1, d);
      assert (exists j :: 1 <= j < n && group[j].draftId == d)
        <==> (exists j :: 1 <= j < n - 1 && group[j].draftId == d) || group[n - 1].draftId == d;
    }
  }

  /** One group more leaves a draft it does not list, and takes any it lists from the site of another. */
  lemma {:induction false} ReplacedNext(groups: seq<seq<Member>>, n: nat, g: nat, d: string)
    requires g < n < |groups| && d in ReplacedBy(groups, n)
    ensures d in ReplacedBy(groups, n + 1)
    ensures if |groups[n]| >= 2 && ListsDraft(groups[n], d) then ReplacedBy(groups, n + 1)[d] != Some(g)
            else ReplacedBy(groups, n + 1)[d] == ReplacedBy(groups, n)[d]
  {
    var group := groups[n];
    if |group| >= 2 {
      WithdrawnExactly(ReplacedBy(groups, n)[group[0].draftId := Some(n)], group, |group|, d);
      hide ReplacedBy;
      if ListsDraft(group, d) {
        var m :| m in group && m.draftId == d;
        var j :| 0 <= j < |group| && group[j] == m;
      } else {
        forall j | 0 <= j < |group| ensures group[j].draftId != d {
          assert group[j] in group;
        }
      }
    }
  }

  /** What has taken a lead's draft from its group's site: another location of the group, or a later group. */
  predicate IsTaken(groups: seq<seq<Member>>, g: nat, n: nat)
    requires g < n <= |groups| && |groups[g]| >= 2
  {
    || !IsLastOf(groups[g], |groups[g]|, 0)
    || exists h :: g < h < n && |groups[h]| >= 2 && ListsDraft(groups[h], groups[g][0].draftId)
  }

  lemma {:induction false} StandsUpTo(groups: seq<seq<Member>>, g: nat, n: nat)
    requires g < n <= |groups| && |groups[g]| >= 2
    ensures var (replaced, d) := (ReplacedBy(groups, n), groups[g][0].draftId);
      d in replaced && (replaced[d] == Some(g) <==> !IsTaken(groups, g, n))
    decreases n
  {
    var d := groups[g][0].draftId;
    if n == g + 1 {
      WithdrawnExactly(ReplacedBy(groups, g)[d := Some(g)], groups[g], |groups[g]|, d);
    } else {
      StandsUpTo(groups, g, n - 1);
      ReplacedNext(groups, n - 1, g, d);
      hide ReplacedBy, ListsDraft, IsLastOf;
      assert IsTaken(groups, g, n) <==> IsTaken(groups, g, n - 1) || (|groups[n - 1]| >= 2 && ListsDraft(groups[n - 1], d));
    }
  }

  /** A group's merged site stands in place of its lead's draft exactly if the lead has the last
      word on it: a later location that shares the lead's draft id takes the site away. */
  lemma {:induction false} SiteStandsExactly(groups: seq<seq<Member>>, g: nat)
    requires g < |groups| && |groups[g]| >= 2
    ensures var (replaced, d) := (ReplacedBy(groups, |groups|), groups[g][0].draftId);
      d in replaced && (replaced[d] == Some(g) <==> HasLastWord(groups, g, 0))
  {
    StandsUpTo(groups, g, |groups|);
    hide ReplacedBy, ListsDraft, IsLastOf;
  }

  // --- where a component lands ---

  /** The key the renames give is, for a charge point, that of one on the site with the same
      eMI3 id; for a connector, that of one below its charge point if it was kept or the one
      held lists it, and of none otherwise. */
  ghost predicate LandsOnSite(group: seq<Member>, i: nat, c: Component, key: string)
    requires i < |group|
  {
    var before, m := MergeAll(group[..i], Mixed(group)), MergeAll(group, Mixed(group));
    var renames := OwnRenames(group, Mixed(group), i);
    && KeysOf(m.components) == m.taken.Keys
    && c.key in renames && key == renames[c.key]
    && if c.parentKey.None? then key in m.taken && m.taken[key].emi3 == c.emi3
       else
         && HangsBelow(m, renames, c)
         && (key in m.taken <==> IsHeld(before, group[i], c) ==> c.key in before.taken)
  }

  lemma {:induction false} ComponentLands(group: seq<Member>, i: nat, c: Component)
    requires GroupSound(group) && StaysClear(group, Mixed(group)) && i < |group| && c in group[i].components
    ensures var renames := OwnRenames(group, Mixed(group), i);
      c.key in renames && LandsOnSite(group, i, c, renames[c.key])
  {
    hide MergeAll, Mixed, Sound, MovesOf, DroppedOf, OwnRenames;
    assert group[..|group|] == group;
    MergeUpTo(group, Mixed(group), |group|);
    if c.parentKey.Some? {
      ConnectorFollows(group, i, c);
    } else {
      assert Lands(MergeAll(group, Mixed(group)), OwnRenames(group, Mixed(group), i), c);
    }
  }

  /** A reading on a merged draft is moved to the site of the group that has the last word on
      it, and its component's key goes where the location that has it took that key. */
  lemma {:induction false} ReadingFollowsLast(names: Naming, groups: seq<seq<Member>>, g: nat, i: nat, r: Reading)
    requires HasLastWord(groups, g, i) && r.content.featureId == groups[g][i].draftId
    ensures var placed := SlowPlacement(names, AllMoves(groups), r);
      var (renames, key, to) := (OwnRenames(groups[g], Mixed(groups[g]), i), r.content.componentKey, placed.reading.content.componentKey);
      && placed.moved && placed.reading.content.featureId == groups[g][0].draftId
      && (key.None? ==> to.None?)
      && (key.Some? ==> to == Some(if key.value in renames then renames[key.value] else key.value))
  {
    MovesHold(groups, g, i);
    hide AllMoves, MergeAll, Mixed, OwnRenames, HasLastWord;
  }

  /** A reading on a component of a merged location is moved to its group's site, and names
      there the component its own became: a charge point always one on the site; a
      connector one exactly if its charge point was kept, or the one held lists it. */
  lemma {:induction false} MovedReadingLands(names: Naming, groups: seq<seq<Member>>, g: nat, i: nat, c: Component, r: Reading)
    requires HasLastWord(groups, g, i)
    requires GroupSound(groups[g]) && StaysClear(groups[g], Mixed(groups[g])) && c in groups[g][i].components
    requires r.content.featureId == groups[g][i].draftId && r.content.componentKey == Some(c.key)
    ensures var placed := SlowPlacement(names, AllMoves(groups), r);
      && placed.moved && placed.reading.content.featureId == groups[g][0].draftId
      && placed.reading.content.componentKey.Some?
      && LandsOnSite(groups[g], i, c, placed.reading.content.componentKey.value)
  {
    ReadingFollowsLast(names, groups, g, i, r);
    ComponentLands(groups[g], i, c);
    hide *;
  }

  // --- site ids ---

  predicate IsLineBreak(c: char) { c == '\n' || c == '\r' || c == '\U{2028}' || c == '\U{2029}' }

  /** A character of a publisher's id as a record id holds it. */
  function Escaped(c: char): string {
    if c == '\n' then "%0A" else if c == '\r' then "%0D"
    else if c == '\U{2028}' then "%E2%80%A8" else if c == '\U{2029}' then "%E2%80%A9" else [c]
  }

  function RecordLocalId(id: string): string {
    if id == "" then "" else Escaped(id[0]) + RecordLocalId(id[1..])
  }

  function SiteId(feed: string, stationId: string): string { "oc:feature:" + feed + ":" + RecordLocalId(stationId) }

  predicate HoldsNoBreak(id: string) { forall c :: c in id ==> !IsLineBreak(c) }

  lemma {:induction false} PlainIdStays(id: string)
    requires HoldsNoBreak(id)
    ensures RecordLocalId(id) == id
  {
    if id != "" {
      assert id[0] in id;
      PlainIdStays(id[1..]);
    }
  }

  lemma {:induction false} SiteIdsDiffer(feed: string, a: string, b: string)
    requires HoldsNoBreak(a) && HoldsNoBreak(b) && SiteId(feed, a) == SiteId(feed, b)
    ensures a == b
  {
    PlainIdStays(a);
    PlainIdStays(b);
    var start := "oc:feature:" + feed + ":";
    assert SiteId(feed, a)[|start|..] == a && SiteId(feed, b)[|start|..] == b;
  }

  /** Where no station id holds a line break, every station is settled, so the paths agree. */
  lemma {:induction false} PlainIdsAreSettled(feed: string, idOf: Content -> string, groups: seq<seq<Member>>, stationId: string)
    requires NamedBySites(Naming(id => SiteId(feed, id), idOf), groups)
    requires HoldsNoBreak(stationId) && forall g, m :: 0 <= g < |groups| && m in groups[g] ==> HoldsNoBreak(m.stationId)
    ensures IsSettled(Naming(id => SiteId(feed, id), idOf), AllMoves(groups), stationId)
  {
    var names := Naming(id => SiteId(feed, id), idOf);
    var moves := AllMoves(groups);
    MovesRecorded(groups, names);
    hide AllMoves, SiteId, HoldsNoBreak;
    if names.siteId(stationId) in moves.siteOf {
      var s :| s in moves.memberOfStation && names.siteId(s) == names.siteId(stationId);
      var g :| 0 <= g < |groups| && Lists(groups[g], s);
      var m :| m in groups[g] && m.stationId == s;
      SiteIdsDiffer(feed, s, stationId);
    }
  }

  /** Two stations, one with a line break in its id and one with the break's escape, share
      a site id: a status of the one, with only the other merged, lands on the other's
      site by the full parse, and stays off it by the index. */
  lemma {:induction false} SharedSiteIdDiffers(feed: string, idOf: Content -> string, status: string, fetched: int)
    ensures var names := Naming(id => SiteId(feed, id), idOf);
      var lead, other := Member("0", names.siteId("0"), None, []), Member("a%0A", names.siteId("a%0A"), None, []);
      var u := Update(Subject("a\n", Some("1"), None, None, None, None, None), status, None);
      var moves := AllMoves([[lead, other]]);
      && NamedBySites(names, [[lead, other]]) && names.siteId("a\n") == names.siteId("a%0A")
      && FastPlacement(names, u.(subject := Rewritten(moves, u.subject)), fetched).reading.content.featureId == names.siteId("a\n")
      && SlowPlacement(names, moves, Draft(names, u, fetched)).reading.content.featureId == names.siteId("0") != names.siteId("a\n")
  {
    var names := Naming(id => SiteId(feed, id), idOf);
    var lead, other := Member("0", names.siteId("0"), None, []), Member("a%0A", names.siteId("a%0A"), None, []);
    SharedLocalId();
    SiteIdsApart(feed);
    hide SiteId, RecordLocalId;
    PairMoves(lead, other);
    hide AllMoves, ComponentKeyOf, KeyAfter;
  }

  lemma {:induction false} SharedLocalId()
    ensures RecordLocalId("a\n") == RecordLocalId("a%0A")
  {
    PlainIdStays("a%0A");
    assert "a\n"[1..] == "\n" && "\n"[1..] == "";
  }

  lemma {:induction false} SiteIdsApart(feed: string)
    ensures SiteId(feed, "a\n") == SiteId(feed, "a%0A") && SiteId(feed, "0") != SiteId(feed, "a%0A")
  {
    SharedLocalId();
    if SiteId(feed, "0") == SiteId(feed, "a%0A") {
      SiteIdsDiffer(feed, "0", "a%0A");
    }
  }

  lemma {:induction false} PairMoves(lead: Member, other: Member)
    requires lead.stationId != other.stationId && lead.draftId != other.draftId
    ensures var moves := AllMoves([[lead, other]]);
      && moves.siteOf == map[lead.draftId := lead.draftId, other.draftId := lead.draftId]
      && moves.memberOfStation == map[lead.stationId := lead.draftId, other.stationId := other.draftId]
  {
    hide KeysMoved;
    assert [[lead, other]][..0] == [] && [lead, other][..1] == [lead] && [lead][..0] == [];
    assert AllMoves([[lead, other]]) == Recorded(NOTHING, [lead, other]);
    assert StationsOf(map[], [lead]) == map[lead.stationId := lead.draftId];
    assert StationsOf(map[], [lead, other]) == StationsOf(map[], [lead])[other.stationId := other.draftId];
  }
}
