/** What a site's components say of what was stated, and that nothing stated is
    lost but what stands under a key already used. */
module SiteStated {
  import opened Basics
  import opened Components
  import opened ComponentLaws
  import opened SiteComponents

  // --- keys, by what they are written from ---

  /** What is left of a text without the spaces at its ends. */
  ghost predicate IsCut(s: string, a: int, b: int) {
    && 0 <= a <= b <= |s|
    && (forall i :: 0 <= i < a || b <= i < |s| ==> IsSpace(s[i]))
    && (a < b ==> !IsSpace(s[a]) && !IsSpace(s[b - 1]))
  }

  function Masked(c: char, slash: bool): char { if c == '#' || (slash && c == '/') then '_' else c }

  /** The text without the spaces at its ends, `#` written `_`, and `/` too where asked for. */
  ghost predicate IsForm(k: string, s: string, slash: bool) {
    exists a, b :: IsCut(s, a, b) && |k| == b - a && forall i :: 0 <= i < |k| ==> k[i] == Masked(s[a + i], slash)
  }

  lemma {:induction false} TrimIsCut(s: string) returns (a: nat, b: nat)
    ensures IsCut(s, a, b) && Trim(s) == s[a..b]
    decreases |s|
  {
    hide IsSpace;
    if s != "" && IsSpace(s[0]) {
      a, b := TrimIsCut(s[1..]);
      assert s[1..][a..b] == s[a + 1..b + 1];
      assert forall i :: 0 < i < |s| ==> s[i] == s[1..][i - 1];
      a, b := a + 1, b + 1;
    } else if s != "" && IsSpace(s[|s| - 1]) {
      a, b := TrimIsCut(s[..|s| - 1]);
    } else {
      a, b := 0, |s|;
    }
  }

  lemma {:induction false} OneCut(s: string, a: int, b: int, a': int, b': int)
    requires IsCut(s, a, b) && IsCut(s, a', b')
    ensures s[a..b] == s[a'..b']
  {
    hide IsSpace;
  }

  lemma {:induction false} FormExactly(k: string, s: string, slash: bool)
    ensures IsForm(k, s, slash) <==> k == Underscored(Trim(s), if slash then "#/" else "#")
  {
    var a, b := TrimIsCut(s);
    hide IsSpace, Trim;
    if IsForm(k, s, slash) {
      var a', b' :| IsCut(s, a', b') && |k| == b' - a' && forall i :: 0 <= i < |k| ==> k[i] == Masked(s[a' + i], slash);
      OneCut(s, a, b, a', b');
      assert forall i :: 0 <= i < |k| ==> s[a'..b'][i] == s[a' + i];
    }
  }

  ghost predicate IsBayKey(k: string, bay: string) { exists f :: f != "" && IsForm(f, bay, true) && k == "bay:" + f }

  ghost predicate IsPlugKey(k: string, point: string, id: string) { exists f :: f != "" && IsForm(f, id, false) && k == point + "/" + f }

  lemma {:induction false} BayKeyExactly(k: string, bay: string)
    ensures IsBayKey(k, bay) <==> Trim(bay) != "" && k == BayKey(bay)
  {
    forall f ensures IsForm(f, bay, true) <==> f == EvseKey(bay) { FormExactly(f, bay, true); }
    assert Trim(bay) != "" <==> EvseKey(bay) != "";
    hide IsForm, Trim, EvseKey;
  }

  lemma {:induction false} PlugKeyExactly(k: string, key: string, id: string)
    ensures IsPlugKey(k, EvseKey(key), id) <==> Trim(id) != "" && k == ConnectorKey(EvseKey(key), id)
  {
    EvseKeyTwice(key);
    forall f ensures IsForm(f, id, false) <==> f == Underscored(Trim(id), "#") { FormExactly(f, id, false); }
    assert Trim(id) != "" <==> Underscored(Trim(id), "#") != "";
    hide IsForm, Trim, EvseKey, Underscored;
  }

  // --- components, by what states them ---

  /** The component is the charge point stated, with the bays it names of those there. */
  ghost predicate IsPoint(c: Component, e: EvseInput, listed: set<string>) {
    && c.kind == "evse" && c.parentKey == None && c.key != "" && IsForm(c.key, e.key, true)
    && c.emi3 == e.emi3 && c.lifecycle == e.lifecycle
    && forall b :: b in c.bays <==> b in listed && exists k :: k in e.bays && b == BayKey(k)
  }

  ghost predicate IsPlug(c: Component, e: EvseInput, id: string) {
    && c.kind == "connector" && c.emi3 == None && c.lifecycle == None && c.bays == []
    && c.parentKey.Some? && IsForm(c.parentKey.value, e.key, true) && IsPlugKey(c.key, c.parentKey.value, id)
  }

  ghost predicate IsBay(c: Component, bay: string) {
    && c.kind == "charging_bay" && c.parentKey == None && c.emi3 == None && c.lifecycle == None && c.bays == []
    && IsBayKey(c.key, bay)
  }

  lemma {:induction false} NamedExactly(keys: seq<string>, listed: set<string>)
    ensures forall b :: b in NamedBays(keys, listed) <==> b in listed && exists k :: k in keys && b == BayKey(k)
  {
    hide BayKey;
    if keys != [] {
      var n := |keys| - 1;
      assert keys == keys[..n] + [keys[n]];
      NamedExactly(keys[..n], listed);
      if keys[n] in keys[..n] && BayKey(keys[n]) in listed {
        assert BayKey(keys[n]) in NamedBays(keys[..n], listed);
      }
    }
  }

  lemma {:induction false} PointIs(e: EvseInput, listed: set<string>)
    requires EvseKey(e.key) != ""
    ensures IsPoint(PointOf(e, listed), e, listed)
  {
    FormExactly(EvseKey(e.key), e.key, true);
    assert IsForm(EvseKey(e.key), e.key, true);
    NamedExactly(e.bays, listed);
    hide IsForm, NamedBays, BayKey, EvseKey;
  }

  lemma {:induction false} PlugIs(e: EvseInput, id: string)
    requires Trim(id) != ""
    ensures IsPlug(ConnectorOf(EvseKey(e.key), id), e, id)
  {
    FormExactly(EvseKey(e.key), e.key, true);
    assert IsForm(EvseKey(e.key), e.key, true);
    PlugKeyExactly(ConnectorKey(EvseKey(e.key), id), e.key, id);
    hide IsForm, IsPlugKey, EvseKey, ConnectorKey, Trim;
  }

  lemma {:induction false} BayIs(bay: string)
    requires Trim(bay) != ""
    ensures IsBay(BayOf(bay), bay)
  {
    BayKeyExactly(BayKey(bay), bay);
    hide IsBayKey, BayKey, Trim;
  }

  // --- bays ---

  lemma {:induction false} BaysAre(keys: seq<string>, n: nat)
    requires n <= |keys|
    ensures forall c :: c in BaysUpTo(keys, n) ==> exists b :: b in keys && IsBay(c, b)
    ensures forall b :: b in keys[..n] && Trim(b) != "" ==> BayKey(b) in KeysOf(BaysUpTo(keys, n))
  {
    hide Trim, BayKey, IsBay;
    if n > 0 {
      BaysAre(keys, n - 1);
      assert keys[..n] == keys[..n - 1] + [keys[n - 1]];
      if Trim(keys[n - 1]) != "" {
        BayIs(keys[n - 1]);
        assert keys[n - 1] in keys;
        KeysOfNext(BaysUpTo(keys, n - 1), BayOf(keys[n - 1]));
      }
    }
  }

  // --- charge points and connectors ---

  ghost predicate IsStatedBy(c: Component, evses: seq<EvseInput>, listed: set<string>) {
    || (exists e :: e in evses && IsPoint(c, e, listed))
    || (exists e, id :: e in evses && id in e.connectors && IsPlug(c, e, id))
  }

  lemma {:induction false} PlugsAre(own: seq<Component>, listed: set<string>, evses: seq<EvseInput>, e: EvseInput, ids: seq<string>, n: nat)
    requires n <= |ids| && e in evses && (forall id :: id in ids ==> id in e.connectors) && forall c :: c in own ==> IsStatedBy(c, evses, listed)
    ensures var all := WithConnectors(own, listed, EvseKey(e.key), ids, n);
      && (forall c :: c in own ==> c in all)
      && (forall c :: c in all ==> IsStatedBy(c, evses, listed))
      && (forall id :: id in ids[..n] && Trim(id) != "" ==> ConnectorKey(EvseKey(e.key), id) in listed + KeysOf(all))
  {
    hide Trim, EvseKey, ConnectorKey, IsPlug, IsPoint, KeysOf;
    if n > 0 {
      PlugsAre(own, listed, evses, e, ids, n - 1);
      assert ids[..n] == ids[..n - 1] + [ids[n - 1]];
      if Trim(ids[n - 1]) != "" {
        PlugIs(e, ids[n - 1]);
        assert ids[n - 1] in e.connectors;
        KeysOfNext(WithConnectors(own, listed, EvseKey(e.key), ids, n - 1), ConnectorOf(EvseKey(e.key), ids[n - 1]));
      }
    }
  }

  lemma {:induction false} OneMoreStated(collation: Collation, own: seq<Component>, listed: set<string>, evses: seq<EvseInput>, e: EvseInput)
    requires e in evses && forall c :: c in own ==> IsStatedBy(c, evses, listed)
    ensures var (all, key) := (WithPoint(collation, own, listed, e), EvseKey(e.key));
      && (forall c :: c in own ==> c in all)
      && (forall c :: c in all ==> IsStatedBy(c, evses, listed))
      && (key != "" ==> key in listed + KeysOf(all))
      && (key != "" && key !in listed + KeysOf(own) ==>
            forall id :: id in e.connectors && Trim(id) != "" ==> ConnectorKey(key, id) in listed + KeysOf(all))
  {
    var key := EvseKey(e.key);
    if key != "" && key !in listed + KeysOf(own) {
      PointIs(e, listed);
      var ids := Sort(collation.ids, e.connectors);
      SortKeeps(collation.ids, e.connectors);
      assert forall id :: id in ids <==> id in multiset(ids);
      assert forall id :: id in e.connectors <==> id in multiset(e.connectors);
      hide Trim, EvseKey, ConnectorKey, IsPlug, IsPoint, Sort;
      var first := own + [PointOf(e, listed)];
      assert IsStatedBy(PointOf(e, listed), evses, listed);
      PlugsAre(first, listed, evses, e, ids, |ids|);
      assert ids[..|ids|] == ids;
      assert PointOf(e, listed) in first;
      hide WithConnectors;
    }
  }

  lemma {:induction false} PointsAre(collation: Collation, evses: seq<EvseInput>, listed: set<string>, n: nat)
    requires n <= |evses|
    ensures var all := PointsUpTo(collation, evses, listed, n);
      && (forall c :: c in all ==> IsStatedBy(c, evses, listed))
      && (forall e :: e in evses[..n] && EvseKey(e.key) != "" ==> EvseKey(e.key) in listed + KeysOf(all))
  {
    hide EvseKey, WithPoint, IsStatedBy;
    if n > 0 {
      PointsAre(collation, evses, listed, n - 1);
      assert evses[..n] == evses[..n - 1] + [evses[n - 1]];
      OneMoreStated(collation, PointsUpTo(collation, evses, listed, n - 1), listed, evses, evses[n - 1]);
    }
  }

  /** The first stated under a key that is no bay's has all its connectors on the site. */
  lemma {:induction false} PlugsKept(collation: Collation, evses: seq<EvseInput>, listed: set<string>, n: nat, i: nat)
    requires i < n <= |evses| && IsFirstStated(evses, i) && EvseKey(evses[i].key) !in listed + {""}
    ensures HasPlugs(PointsUpTo(collation, evses, listed, n), listed, evses[i])
    decreases n
  {
    hide EvseKey, WithPoint, IsStatedBy, IsFirstStated, AreTheFirst, PointsSound, HasPlugs, KeysOf;
    var before := PointsUpTo(collation, evses, listed, n - 1);
    PointsAre(collation, evses, listed, n - 1);
    if i < n - 1 {
      PlugsKept(collation, evses, listed, n - 1, i);
      PlugsStay(collation, before, listed, evses, evses[n - 1], evses[i]);
    } else {
      AllPointsSound(collation, evses, listed, n - 1);
      FirstStatedIsKept(collation, evses, listed, n - 1);
      StatedBefore(evses, listed, n, before);
      PlugsJoin(collation, before, listed, evses, evses[n - 1]);
    }
  }

  /** Every connector the charge point lists is there under its key, or a bay is. */
  ghost predicate HasPlugs(all: seq<Component>, listed: set<string>, e: EvseInput) {
    forall id :: id in e.connectors && Trim(id) != "" ==> ConnectorKey(EvseKey(e.key), id) in listed + KeysOf(all)
  }

  lemma {:induction false} PlugsStay(collation: Collation, own: seq<Component>, listed: set<string>, evses: seq<EvseInput>, e: EvseInput, first: EvseInput)
    requires e in evses && (forall c :: c in own ==> IsStatedBy(c, evses, listed)) && HasPlugs(own, listed, first)
    ensures HasPlugs(WithPoint(collation, own, listed, e), listed, first)
  {
    hide EvseKey, ConnectorKey, Trim, WithPoint, IsStatedBy;
    OneMoreStated(collation, own, listed, evses, e);
    assert forall key :: key in KeysOf(own) ==> key in KeysOf(WithPoint(collation, own, listed, e));
    hide KeysOf;
  }

  lemma {:induction false} PlugsJoin(collation: Collation, own: seq<Component>, listed: set<string>, evses: seq<EvseInput>, e: EvseInput)
    requires e in evses && (forall c :: c in own ==> IsStatedBy(c, evses, listed)) && EvseKey(e.key) !in listed + {""} + KeysOf(own)
    ensures HasPlugs(WithPoint(collation, own, listed, e), listed, e)
  {
    hide EvseKey, ConnectorKey, Trim, WithPoint, IsStatedBy, KeysOf;
    OneMoreStated(collation, own, listed, evses, e);
  }

  // --- the site ---

  ghost predicate HasKey(site: seq<Component>, key: string) { exists c :: c in site && c.key == key }

  lemma {:induction false} SortedHold<T(!new)>(le: (T, T) -> bool, s: seq<T>)
    ensures forall x :: x in Sort(le, s) <==> x in s
  {
    SortKeeps(le, s);
    forall x ensures x in Sort(le, s) <==> x in s {
      assert x in Sort(le, s) <==> x in multiset(Sort(le, s));
    }
  }

  lemma {:induction false} StatedEither(c: Component, evses: seq<EvseInput>, sorted: seq<EvseInput>, listed: set<string>)
    requires (forall e :: e in sorted <==> e in evses) && IsStatedBy(c, sorted, listed)
    ensures IsStatedBy(c, evses, listed)
  {
    hide IsPoint, IsPlug;
  }

  /** Everything on a site is a charge point, a connector or a bay stated, and says what was
      stated of it; every bay named and every charge point is there under its key. */
  lemma {:induction false} SiteAsStated(collation: Collation, evses: seq<EvseInput>, bays: seq<string>)
    ensures var (site, listed) := (SiteOf(collation, evses, bays), KeysOf(SiteBays(collation, bays)));
      && (forall c :: c in site ==> IsStatedBy(c, evses, listed) || exists b :: b in bays && IsBay(c, b))
      && (forall k :: k in listed <==> exists b :: b in bays && IsBayKey(k, b))
      && (forall k :: k in listed ==> HasKey(site, k))
      && (forall e, k :: e in evses && k != "" && IsForm(k, e.key, true) ==> HasKey(site, k))
  {
    var (sorted, ids) := (Sort(collation.evses, evses), Sort(collation.ids, bays));
    SortedHold(collation.evses, evses);
    SortedHold(collation.ids, bays);
    var there := SiteBays(collation, bays);
    var listed := KeysOf(there);
    hide Sort;
    BaysAre(ids, |ids|);
    PointsAre(collation, sorted, listed, |sorted|);
    assert ids[..|ids|] == ids && sorted[..|sorted|] == sorted;
    forall k, b ensures IsBayKey(k, b) <==> Trim(b) != "" && k == BayKey(b) { BayKeyExactly(k, b); }
    forall e: EvseInput, k ensures IsForm(k, e.key, true) <==> k == EvseKey(e.key) { FormExactly(k, e.key, true); }
    hide PointsUpTo, BaysUpTo, IsForm, IsBayKey, IsPoint, IsPlug, Trim, BayKey, EvseKey;
    var site := SiteOf(collation, evses, bays);
    forall c | IsStatedBy(c, sorted, listed) ensures IsStatedBy(c, evses, listed) { StatedEither(c, evses, sorted, listed); }
    hide IsStatedBy, IsBay;
    assert forall key :: key in KeysOf(site) <==> HasKey(site, key);
  }
}
