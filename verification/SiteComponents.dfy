/** The components a charging site's draft is built with: its charge points, each
    with its connectors below it, then its bays. */
module SiteComponents {
  import opened Basics
  import opened Components
  import opened ComponentLaws

  /** A charge point as a source states it: `bays` and `connectors` by their own keys and ids. */
  datatype EvseInput = EvseInput(
    key: string,
    emi3: Option<string>,
    lifecycle: Option<string>,
    bays: seq<string>,
    connectors: seq<string>)

  /** The language's collation, by which charge points, and connector and bay ids, are put in order. */
  datatype Collation = Collation(evses: (EvseInput, EvseInput) -> bool, ids: (string, string) -> bool)

  // --- bays ---

  function BayOf(key: string): Component { Component(BayKey(key), None, "charging_bay", None, None, []) }

  function BaysUpTo(keys: seq<string>, n: nat): seq<Component>
    requires n <= |keys|
  {
    if n == 0 then []
    else
      var before := BaysUpTo(keys, n - 1);
      if Trim(keys[n - 1]) == "" || BayKey(keys[n - 1]) in KeysOf(before) then before else before + [BayOf(keys[n - 1])]
  }

  method BayComponents(collation: Collation, keys: seq<string>) returns (out: seq<Component>)
    ensures var sorted := Sort(collation.ids, keys); out == BaysUpTo(sorted, |sorted|)
  {
    out := [];
    var seen: set<string> := {};
    var sorted := Sort(collation.ids, keys);
    for i := 0 to |sorted|
      invariant out == BaysUpTo(sorted, i) && seen == KeysOf(out)
    {
      var key := BayKey(sorted[i]);
      if Trim(sorted[i]) == "" || key in seen {
        continue;
      }
      KeysOfNext(out, BayOf(sorted[i]));
      seen := seen + {key};
      out := out + [BayOf(sorted[i])];
    }
  }

  lemma {:induction false} KeysOfNext(own: seq<Component>, c: Component)
    ensures KeysOf(own + [c]) == KeysOf(own) + {c.key}
  {
  }

  // --- charge points and connectors ---

  /** The bays a charge point names, of those listed, each of the source's keys once. */
  function NamedBays(keys: seq<string>, listed: set<string>): (bays: seq<string>)
    ensures forall b :: b in bays ==> b in listed
  {
    if keys == [] then []
    else
      var n := |keys| - 1;
      NamedBays(keys[..n], listed)
      + if BayKey(keys[n]) in listed && keys[n] !in keys[..n] then [BayKey(keys[n])] else []
  }

  function PointOf(e: EvseInput, listed: set<string>): Component {
    Component(EvseKey(e.key), None, "evse", e.emi3, e.lifecycle, NamedBays(e.bays, listed))
  }

  function ConnectorOf(point: string, id: string): Component {
    Component(ConnectorKey(point, id), Some(point), "connector", None, None, [])
  }

  /** The components with a charge point's connectors up to `n` added. */
  function WithConnectors(own: seq<Component>, listed: set<string>, point: string, ids: seq<string>, n: nat): seq<Component>
    requires n <= |ids|
  {
    if n == 0 then own
    else
      var before := WithConnectors(own, listed, point, ids, n - 1);
      if Trim(ids[n - 1]) == "" || ConnectorKey(point, ids[n - 1]) in listed + KeysOf(before) then before
      else before + [ConnectorOf(point, ids[n - 1])]
  }

  function WithPoint(collation: Collation, own: seq<Component>, listed: set<string>, e: EvseInput): seq<Component> {
    var key := EvseKey(e.key);
    if key == "" || key in listed + KeysOf(own) then own
    else
      var ids := Sort(collation.ids, e.connectors);
      WithConnectors(own + [PointOf(e, listed)], listed, key, ids, |ids|)
  }

  function PointsUpTo(collation: Collation, evses: seq<EvseInput>, listed: set<string>, n: nat): seq<Component>
    requires n <= |evses|
  {
    if n == 0 then [] else WithPoint(collation, PointsUpTo(collation, evses, listed, n - 1), listed, evses[n - 1])
  }

  /** The connectors of the charge point last added. */
  method AddConnectors(own: seq<Component>, before: set<string>, ghost listed: set<string>, point: string, ids: seq<string>)
    returns (out: seq<Component>, seen: set<string>)
    requires before == listed + KeysOf(own)
    ensures out == WithConnectors(own, listed, point, ids, |ids|) && seen == listed + KeysOf(out)
  {
    hide ConnectorKey, Trim;
    out, seen := own, before;
    for j := 0 to |ids|
      invariant out == WithConnectors(own, listed, point, ids, j) && seen == listed + KeysOf(out)
    {
      var childKey := ConnectorKey(point, ids[j]);
      if Trim(ids[j]) == "" || childKey in seen {
        continue;
      }
      KeysOfNext(out, ConnectorOf(point, ids[j]));
      seen := seen + {childKey};
      out := out + [ConnectorOf(point, ids[j])];
    }
  }

  method EvseComponents(collation: Collation, evses: seq<EvseInput>, listed: set<string>) returns (out: seq<Component>)
    ensures var sorted := Sort(collation.evses, evses); out == PointsUpTo(collation, sorted, listed, |sorted|)
  {
    var seen := listed;
    out := [];
    var sorted := Sort(collation.evses, evses);
    for i := 0 to |sorted|
      invariant out == PointsUpTo(collation, sorted, listed, i) && seen == listed + KeysOf(out)
    {
      var evse := sorted[i];
      var key := EvseKey(evse.key);
      if key == "" || key in seen {
        continue;
      }
      hide Sort, EvseKey, WithConnectors, NamedBays;
      KeysOfNext(out, PointOf(evse, listed));
      out, seen := AddConnectors(out + [PointOf(evse, listed)], seen + {key}, listed, key, Sort(collation.ids, evse.connectors));
    }
  }

  /** A site's components: charge points with connectors, then bays. */
  function SiteBays(collation: Collation, bays: seq<string>): seq<Component> {
    var sorted := Sort(collation.ids, bays);
    BaysUpTo(sorted, |sorted|)
  }

  function SiteOf(collation: Collation, evses: seq<EvseInput>, bays: seq<string>): seq<Component> {
    var listed := SiteBays(collation, bays);
    var sorted := Sort(collation.evses, evses);
    PointsUpTo(collation, sorted, KeysOf(listed), |sorted|) + listed
  }

  method SiteDraftComponents(collation: Collation, evses: seq<EvseInput>, bays: seq<string>) returns (components: seq<Component>)
    ensures components == SiteOf(collation, evses, bays)
  {
    hide Sort, PointsUpTo, BaysUpTo;
    var listed := BayComponents(collation, bays);
    var points := EvseComponents(collation, evses, set b | b in listed :: b.key);
    components := points + listed;
  }

  // --- keys ---

  lemma {:induction false} TrimmedEnds(s: string)
    ensures var t := Trim(s); Trim(t) == t && (t != "" ==> !IsSpace(t[0]) && !IsSpace(t[|t| - 1]))
    decreases |s|
  {
    hide IsSpace;
    if s != "" && IsSpace(s[0]) {
      TrimmedEnds(s[1..]);
    } else if s != "" && IsSpace(s[|s| - 1]) {
      TrimmedEnds(s[..|s| - 1]);
    }
  }

  /** A key once in the model's form stays as it is. */
  lemma {:induction false} EvseKeyTwice(key: string)
    ensures EvseKey(EvseKey(key)) == EvseKey(key) && '/' !in EvseKey(key) && '#' !in EvseKey(key)
  {
    var t, k := Trim(key), EvseKey(key);
    TrimmedEnds(key);
    assert forall i :: 0 <= i < |k| ==> k[i] != '/' && k[i] != '#';
    if k != "" {
      assert k[0] == t[0] || k[0] == '_';
      assert k[|k| - 1] == t[|t| - 1] || k[|k| - 1] == '_';
    }
    assert Trim(k) == k;
    assert Underscored(k, "#/") == k;
  }

  // --- the components of a site hang together ---

  /** Components so far, of charge points and connectors only: as sound as a site's, with the bays listed. */
  ghost predicate PointsSound(own: seq<Component>, listed: set<string>) {
    && DistinctKeys(own) && KeysOf(own) !! listed
    && (forall c :: c in own ==> WellKeyed(own, c) && forall b :: b in c.bays ==> b in listed)
  }

  lemma {:induction false} OneMoreSound(own: seq<Component>, listed: set<string>, x: Component)
    requires PointsSound(own, listed) && x.key !in listed + KeysOf(own) && WellKeyed(own + [x], x) && forall b :: b in x.bays ==> b in listed
    ensures PointsSound(own + [x], listed)
  {
  }

  lemma {:induction false} ConnectorsSound(own: seq<Component>, listed: set<string>, key: string, ids: seq<string>, n: nat)
    requires n <= |ids| && PointsSound(own, listed) && HasTop(own, EvseKey(key))
    ensures var all := WithConnectors(own, listed, EvseKey(key), ids, n); PointsSound(all, listed) && HasTop(all, EvseKey(key))
  {
    if n > 0 {
      ConnectorsSound(own, listed, key, ids, n - 1);
      var before, x := WithConnectors(own, listed, EvseKey(key), ids, n - 1), ConnectorOf(EvseKey(key), ids[n - 1]);
      ConnectorWellKeyed(before, key, ids[n - 1]);
      hide PointsSound, EvseKey, ConnectorKey, WellKeyed, HasTop, Trim;
      if x.key !in listed + KeysOf(before) {
        OneMoreSound(before, listed, x);
      }
    }
  }

  lemma {:induction false} ConnectorWellKeyed(own: seq<Component>, key: string, id: string)
    requires HasTop(own, EvseKey(key))
    ensures var x := ConnectorOf(EvseKey(key), id); WellKeyed(own + [x], x) && HasTop(own + [x], EvseKey(key))
  {
    EvseKeyTwice(key);
    hide EvseKey;
    var x := ConnectorOf(EvseKey(key), id);
    var t :| t in own && t.parentKey.None? && t.key == EvseKey(key);
    assert t in own + [x];
    assert x.key == EvseKey(key) + "/" + Underscored(Trim(id), "#");
  }

  lemma {:induction false} PointSound(collation: Collation, own: seq<Component>, listed: set<string>, e: EvseInput)
    requires PointsSound(own, listed)
    ensures PointsSound(WithPoint(collation, own, listed, e), listed)
  {
    EvseKeyTwice(e.key);
    var x := PointOf(e, listed);
    hide EvseKey;
    if EvseKey(e.key) !in listed + KeysOf(own) {
      OneMoreSound(own, listed, x);
      assert x in own + [x];
      hide PointsSound, WithConnectors;
      var ids := Sort(collation.ids, e.connectors);
      ConnectorsSound(own + [x], listed, e.key, ids, |ids|);
    }
  }

  lemma {:induction false} AllPointsSound(collation: Collation, evses: seq<EvseInput>, listed: set<string>, n: nat)
    requires n <= |evses|
    ensures PointsSound(PointsUpTo(collation, evses, listed, n), listed)
  {
    hide WithPoint;
    if n > 0 {
      AllPointsSound(collation, evses, listed, n - 1);
      PointSound(collation, PointsUpTo(collation, evses, listed, n - 1), listed, evses[n - 1]);
    }
  }

  lemma {:induction false} BaysSound(keys: seq<string>, n: nat)
    requires n <= |keys|
    ensures DistinctKeys(BaysUpTo(keys, n))
    ensures forall b :: b in BaysUpTo(keys, n) ==> b.parentKey.None? && b.bays == [] && '/' !in b.key
  {
    hide Trim, EvseKey;
    if n > 0 {
      BaysSound(keys, n - 1);
      EvseKeyTwice(keys[n - 1]);
      var before := BaysUpTo(keys, n - 1);
      forall i | 0 <= i < |before| ensures before[i].key in KeysOf(before) {
      }
    }
  }

  /** Whatever a source states, the components a site is built with hang together. */
  lemma {:induction false} SiteIsSound(collation: Collation, evses: seq<EvseInput>, bays: seq<string>)
    ensures Sound(SiteOf(collation, evses, bays))
  {
    var ids, sorted := Sort(collation.ids, bays), Sort(collation.evses, evses);
    var listed := BaysUpTo(ids, |ids|);
    BaysSound(ids, |ids|);
    AllPointsSound(collation, sorted, KeysOf(listed), |sorted|);
    hide Sort, PointsUpTo, BaysUpTo, Trim;
    PointsThenBays(PointsUpTo(collation, sorted, KeysOf(listed), |sorted|), listed);
  }

  lemma {:induction false} PointsThenBays(points: seq<Component>, listed: seq<Component>)
    requires PointsSound(points, KeysOf(listed)) && DistinctKeys(listed)
    requires forall b :: b in listed ==> b.parentKey.None? && b.bays == [] && '/' !in b.key
    ensures Sound(points + listed)
  {
    var all := points + listed;
    forall i, j | 0 <= i < j < |all| ensures all[i].key != all[j].key {
      if i < |points| <= j {
        assert all[i].key in KeysOf(points) && all[j].key in KeysOf(listed);
      }
    }
    forall c | c in points ensures WellKeyed(all, c) && forall b :: b in c.bays ==> HasTop(all, b) {
      if c.parentKey.Some? {
        var t :| t in points && t.parentKey.None? && t.key == c.parentKey.value;
        assert t in all;
      }
      forall b | b in c.bays ensures HasTop(all, b) {
        var x :| x in listed && x.key == b;
        assert x in all;
      }
    }
  }

  // --- which of the stated charge points is kept ---

  lemma {:induction false} ConnectorsKeep(own: seq<Component>, listed: set<string>, point: string, ids: seq<string>, n: nat)
    requires n <= |ids|
    ensures var all := WithConnectors(own, listed, point, ids, n);
      forall c: Component :: c.parentKey.None? ==> (c in all <==> c in own)
  {
    hide ConnectorKey, Trim;
    if n > 0 { ConnectorsKeep(own, listed, point, ids, n - 1); }
  }

  predicate IsFirstStated(evses: seq<EvseInput>, i: nat)
    requires i < |evses|
  {
    forall j :: 0 <= j < i ==> EvseKey(evses[j].key) != EvseKey(evses[i].key)
  }

  /** A charge point is the first stated under its key, of those up to `n`. */
  predicate IsStated(c: Component, evses: seq<EvseInput>, listed: set<string>, n: nat)
    requires n <= |evses|
  {
    exists i :: 0 <= i < n && IsFirstStated(evses, i) && c == PointOf(evses[i], listed)
  }

  ghost predicate AreTheFirst(own: seq<Component>, evses: seq<EvseInput>, listed: set<string>, n: nat)
    requires n <= |evses|
  {
    && (forall c :: c in own && c.parentKey.None? ==> IsStated(c, evses, listed, n))
    && (forall i :: 0 <= i < n && IsFirstStated(evses, i) && EvseKey(evses[i].key) !in listed + {""} ==> PointOf(evses[i], listed) in own)
  }

  /** The first charge point stated under a key, in the collation's order, is the one on the
      site; none is there that is not so stated, and none is left out but under a blank key or a bay's. */
  lemma {:induction false} FirstStatedIsKept(collation: Collation, evses: seq<EvseInput>, listed: set<string>, n: nat)
    requires n <= |evses|
    ensures AreTheFirst(PointsUpTo(collation, evses, listed, n), evses, listed, n)
  {
    hide AreTheFirst, WithPoint, PointsSound;
    if n == 0 {
      NoneYet(evses, listed);
    } else {
      FirstStatedIsKept(collation, evses, listed, n - 1);
      AllPointsSound(collation, evses, listed, n - 1);
      PointKept(collation, evses, listed, n, PointsUpTo(collation, evses, listed, n - 1));
    }
  }

  lemma {:induction false} NoneYet(evses: seq<EvseInput>, listed: set<string>)
    ensures AreTheFirst([], evses, listed, 0)
  {
  }

  lemma {:induction false} TakenWasStated(evses: seq<EvseInput>, listed: set<string>, n: nat, own: seq<Component>, key: string)
    requires n <= |evses| && PointsSound(own, listed) && AreTheFirst(own, evses, listed, n)
    requires key in KeysOf(own) && '/' !in key
    ensures exists i :: 0 <= i < n && EvseKey(evses[i].key) == key
  {
    hide EvseKey, NamedBays, WellKeyed, DistinctKeys;
    var c :| c in own && c.key == key;
    ChildHasSlash(own, c);
    assert IsStated(c, evses, listed, n);
  }

  lemma {:induction false} StatedIsTaken(evses: seq<EvseInput>, listed: set<string>, n: nat, own: seq<Component>, i: nat)
    requires i < n <= |evses| && AreTheFirst(own, evses, listed, n) && EvseKey(evses[i].key) !in listed + {""}
    ensures EvseKey(evses[i].key) in KeysOf(own)
  {
    hide EvseKey, NamedBays;
    var j := FirstOf(evses, i);
    assert PointOf(evses[j], listed) in own;
  }

  /** A key that no connector has is taken just if it was stated before. */
  lemma {:induction false} StatedBefore(evses: seq<EvseInput>, listed: set<string>, n: nat, own: seq<Component>)
    requires 0 < n <= |evses| && PointsSound(own, listed) && AreTheFirst(own, evses, listed, n - 1)
    requires EvseKey(evses[n - 1].key) !in listed + {""}
    ensures EvseKey(evses[n - 1].key) in KeysOf(own) <==> !IsFirstStated(evses, n - 1)
  {
    var key := EvseKey(evses[n - 1].key);
    EvseKeyTwice(evses[n - 1].key);
    hide EvseKey, PointsSound, AreTheFirst, KeysOf;
    if key in KeysOf(own) {
      TakenWasStated(evses, listed, n - 1, own, key);
    }
    if !IsFirstStated(evses, n - 1) {
      var j :| 0 <= j < n - 1 && EvseKey(evses[j].key) == key;
      StatedIsTaken(evses, listed, n - 1, own, j);
    }
  }

  lemma {:induction false} FirstOf(evses: seq<EvseInput>, i: nat) returns (first: nat)
    requires i < |evses|
    ensures first <= i && IsFirstStated(evses, first) && EvseKey(evses[first].key) == EvseKey(evses[i].key)
  {
    hide EvseKey;
    if IsFirstStated(evses, i) {
      first := i;
    } else {
      var j :| 0 <= j < i && EvseKey(evses[j].key) == EvseKey(evses[i].key);
      first := FirstOf(evses, j);
    }
  }

  lemma {:induction false} PointKept(collation: Collation, evses: seq<EvseInput>, listed: set<string>, n: nat, own: seq<Component>)
    requires 0 < n <= |evses| && PointsSound(own, listed) && AreTheFirst(own, evses, listed, n - 1)
    ensures AreTheFirst(WithPoint(collation, own, listed, evses[n - 1]), evses, listed, n)
  {
    var key := EvseKey(evses[n - 1].key);
    if key !in listed + {""} {
      StatedBefore(evses, listed, n, own);
    }
    hide EvseKey, PointsSound, AreTheFirst, IsFirstStated, WithPoint;
    PointAdded(collation, own, listed, evses[n - 1]);
    FirstAdded(evses, listed, n, own, WithPoint(collation, own, listed, evses[n - 1]));
  }

  lemma {:induction false} PointAdded(collation: Collation, own: seq<Component>, listed: set<string>, e: EvseInput)
    ensures var all := WithPoint(collation, own, listed, e);
      forall c: Component :: c.parentKey.None? ==>
        (c in all <==> c in own || (EvseKey(e.key) !in listed + {""} + KeysOf(own) && c == PointOf(e, listed)))
  {
    hide EvseKey, Sort, NamedBays, KeysOf;
    var ids := Sort(collation.ids, e.connectors);
    ConnectorsKeep(own + [PointOf(e, listed)], listed, EvseKey(e.key), ids, |ids|);
    hide WithConnectors;
  }

  lemma {:induction false} FirstAdded(evses: seq<EvseInput>, listed: set<string>, n: nat, own: seq<Component>, all: seq<Component>)
    requires 0 < n <= |evses| && AreTheFirst(own, evses, listed, n - 1)
    requires forall c: Component :: c.parentKey.None? ==>
      (c in all <==> c in own || (IsFirstStated(evses, n - 1) && EvseKey(evses[n - 1].key) !in listed + {""} && c == PointOf(evses[n - 1], listed)))
    ensures AreTheFirst(all, evses, listed, n)
  {
  }

  // --- sites put together ---

  datatype Stated = Stated(stationId: string, draftId: string, lifecycle: Option<string>, evses: seq<EvseInput>, bays: seq<string>)

  function MemberOf(collation: Collation, s: Stated): Member {
    Member(s.stationId, s.draftId, s.lifecycle, SiteOf(collation, s.evses, s.bays))
  }

  function MembersOf(collation: Collation, group: seq<Stated>): seq<Member> {
    seq(|group|, i requires 0 <= i < |group| => MemberOf(collation, group[i]))
  }

  /** From what the sources state to the merged site: whatever the locations state, the
      merged keys are distinct exactly if each moved key is new; and then the merged
      components hang together, and every charge point and bay is found under the key it
      took as its location joined. Kept are the renames of the last location of a draft id. */
  lemma {:induction false} StatedSitesMergeSoundly(collation: Collation, group: seq<Stated>)
    ensures var members := MembersOf(collation, group);
      var (mixed, m) := (Mixed(members), MergeAll(members, Mixed(members)));
      && (forall i :: 0 <= i < |group| ==> members[i].stationId == group[i].stationId && members[i].draftId == group[i].draftId)
      && (DistinctKeys(m.components) <==> StaysClear(members, mixed))
      && (DistinctKeys(m.components) ==> Sound(m.components) && Followed(members, mixed, |members|, m))
      && KeepsLast(members, mixed, m)
  {
    var members := MembersOf(collation, group);
    forall i | 0 <= i < |members| ensures Sound(members[i].components) {
      SiteIsSound(collation, group[i].evses, group[i].bays);
    }
    hide Sound, SiteOf, StaysClear, DistinctKeys, Followed, KeepsLast;
    MergeKeepsSound(members);
  }
}
