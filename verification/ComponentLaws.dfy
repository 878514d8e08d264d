/** The merged components of a site hang together: keys stay distinct, every
    connector's charge point and every bay a charge point names is there, and no
    charge point is lost or merged with another that is not the same one. */
module ComponentLaws {
  import opened Basics
  import opened Components

  // --- keys ---

  lemma {:induction false} HeadOfPlain(key: string)
    requires '/' !in key
    ensures Head(key) == key
  {
  }

  lemma {:induction false} HeadOfChild(parent: string, rest: string)
    requires '/' !in parent
    ensures Head(parent + "/" + rest) == parent
  {
    if parent == "" {
      assert (parent + "/" + rest)[0] == '/';
    } else {
      HeadOfChild(parent[1..], rest);
      assert (parent + "/" + rest)[1..] == parent[1..] + "/" + rest;
    }
  }

  lemma {:induction false} PrefixedIsPlain(stationId: string, key: string)
    requires '/' !in key
    ensures '/' !in Prefixed(stationId, key)
  {
  }

  lemma {:induction false} PrefixedInjective(stationId: string, k: string, k': string)
    requires Prefixed(stationId, k) == Prefixed(stationId, k')
    ensures k == k'
  {
    var n := |EvseKey(stationId) + ":"|;
    assert Prefixed(stationId, k) == EvseKey(stationId) + ":" + k;
    assert Prefixed(stationId, k)[n..] == k && Prefixed(stationId, k')[n..] == k';
  }

  // --- components that hang together ---

  predicate HasTop(own: seq<Component>, key: string) {
    exists t :: t in own && t.parentKey.None? && t.key == key
  }

  ghost predicate DistinctKeys(own: seq<Component>) {
    forall i, j :: 0 <= i < j < |own| ==> own[i].key != own[j].key
  }

  /** Distinct keys; a connector's key starts with that of its charge point, which
      is listed; every bay named is listed. What a site's draft is built with. */
  ghost predicate Sound(own: seq<Component>) {
    && DistinctKeys(own)
    && (forall c :: c in own ==> WellKeyed(own, c))
    && (forall c, b :: c in own && b in c.bays ==> HasTop(own, b))
  }

  ghost predicate WellKeyed(own: seq<Component>, c: Component) {
    match c.parentKey
    case None => '/' !in c.key
    case Some(p) => '/' !in p && HasTop(own, p) && p + "/" <= c.key
  }

  lemma {:induction false} HeadIsTop(own: seq<Component>, c: Component)
    requires WellKeyed(own, c)
    ensures Head(c.key) == Top(c) && '/' !in Top(c) && (c in own ==> HasTop(own, Top(c)))
  {
    match c.parentKey
    case None => HeadOfPlain(c.key);
    case Some(p) =>
      HeadOfChild(p, c.key[|p| + 1..]);
      assert c.key == p + "/" + c.key[|p| + 1..];
  }

  function KeysOf(own: seq<Component>): set<string> { set c | c in own :: c.key }

  function Tops(own: seq<Component>): set<string> { set c | c in own && c.parentKey.None? :: c.key }

  function Prefixes(m: Member): set<string> { set k | k in Tops(m.components) :: Prefixed(m.stationId, k) }

  /** No charge point or bay key the merge could make is one that some location
      uses, or one it makes for another location. */
  ghost predicate NoClash(group: seq<Member>) {
    && (forall i, j :: 0 <= i < |group| && 0 <= j < |group| ==> Prefixes(group[i]) !! Tops(group[j].components))
    && (forall i, j :: 0 <= i < j < |group| ==> Prefixes(group[i]) !! Prefixes(group[j]))
  }

  // --- one member joining ---

  /** What the merge knows of the site so far: its index of components is theirs. */
  ghost predicate Indexed(m: Merge) {
    && m.taken.Keys == KeysOf(m.components)
    && forall k :: k in m.taken ==> m.taken[k] in m.components && m.taken[k].key == k
  }

  /** The keys the member's moves make are new to the site and to the member. */
  ghost predicate Fresh(m: Merge, member: Member) {
    forall k :: k in MovesOf(m.taken, member.stationId, member.components) ==>
      Prefixed(member.stationId, k) !in m.taken && Prefixed(member.stationId, k) !in Tops(member.components)
  }

  /** Where a kept charge point's own key goes. */
  function Moved(keys: map<string, string>, top: string): string { if top in keys then keys[top] else top }

  lemma {:induction false} MovedIsNew(m: Merge, member: Member, top: string)
    requires Sound(member.components) && Fresh(m, member)
    requires HasTop(member.components, top) && '/' !in top
    requires top !in DroppedOf(m.taken, member.components)
    ensures var keys := MovesOf(m.taken, member.stationId, member.components);
      && Moved(keys, top) !in m.taken && '/' !in Moved(keys, top)
      && (top in keys ==> keys[top] == Prefixed(member.stationId, top))
  {
  }

  lemma {:induction false} KeyOfTop(keys: map<string, string>, top: string)
    requires '/' !in top
    ensures KeyOf(keys, top) == Moved(keys, top)
  {
    HeadOfPlain(top);
    assert top[|top|..] == "";
  }

  lemma {:induction false} KeyOfChild(keys: map<string, string>, top: string, rest: string)
    requires '/' !in top
    ensures KeyOf(keys, top + "/" + rest) == Moved(keys, top) + "/" + rest
  {
    HeadOfChild(top, rest);
    var key := top + "/" + rest;
    assert key[|top|..] == "/" + rest;
    assert Moved(keys, top) + ("/" + rest) == Moved(keys, top) + "/" + rest;
  }

  /** What follows a component's charge point in its key. */
  function Rest(c: Component): string {
    if c.parentKey.None? || |c.key| <= |c.parentKey.value| then "" else c.key[|c.parentKey.value| + 1..]
  }

  lemma {:induction false} KeyParts(own: seq<Component>, c: Component)
    requires WellKeyed(own, c)
    ensures '/' !in Top(c)
    ensures c.parentKey.None? ==> c.key == Top(c)
    ensures c.parentKey.Some? ==> c.key == Top(c) + "/" + Rest(c)
  {
  }

  /** A kept component's new key: the moved charge point's, then the rest as it was. */
  lemma {:induction false} PlacedKey(keys: map<string, string>, own: seq<Component>, c: Component)
    requires WellKeyed(own, c) && '/' !in Moved(keys, Top(c))
    ensures Head(KeyOf(keys, c.key)) == Moved(keys, Top(c))
    ensures c.parentKey.None? ==> KeyOf(keys, c.key) == Moved(keys, Top(c))
    ensures c.parentKey.Some? ==> KeyOf(keys, c.key) == Moved(keys, Top(c)) + "/" + Rest(c)
    ensures c.parentKey.Some? ==> KeyOf(keys, c.parentKey.value) == Moved(keys, Top(c))
  {
    KeyParts(own, c);
    KeyOfTop(keys, Top(c));
    HeadOfPlain(Moved(keys, Top(c)));
    if c.parentKey.Some? {
      KeyOfChild(keys, Top(c), Rest(c));
      HeadOfChild(Moved(keys, Top(c)), Rest(c));
    }
  }

  lemma {:induction false} SamePlaceSameKey(m: Merge, member: Member, c: Component, d: Component)
    requires Sound(member.components) && Fresh(m, member)
    requires c in member.components && Top(c) !in DroppedOf(m.taken, member.components)
    requires d in member.components && Top(d) !in DroppedOf(m.taken, member.components)
    requires var keys := MovesOf(m.taken, member.stationId, member.components); KeyOf(keys, c.key) == KeyOf(keys, d.key)
    ensures c.key == d.key
  {
    var own := member.components;
    var keys := MovesOf(m.taken, member.stationId, own);
    HeadIsTop(own, c);
    HeadIsTop(own, d);
    MovedIsNew(m, member, Top(c));
    MovedIsNew(m, member, Top(d));
    hide MovesOf, DroppedOf, Sound, Fresh, KeyOf;
    PlacedKey(keys, own, c);
    PlacedKey(keys, own, d);
    MovedInjective(m, member, Top(c), Top(d));
    KeyParts(own, c);
    KeyParts(own, d);
    var top := Moved(keys, Top(c));
    assert c.parentKey.Some? <==> |KeyOf(keys, c.key)| > |top|;
    assert d.parentKey.Some? <==> |KeyOf(keys, d.key)| > |top|;
    if c.parentKey.Some? {
      assert (top + "/" + Rest(c))[|top| + 1..] == Rest(c);
      assert (top + "/" + Rest(d))[|top| + 1..] == Rest(d);
    }
  }

  lemma {:induction false} MovedInjective(m: Merge, member: Member, t: string, u: string)
    requires Sound(member.components) && Fresh(m, member)
    requires HasTop(member.components, t) && HasTop(member.components, u) && '/' !in t && '/' !in u
    requires t !in DroppedOf(m.taken, member.components) && u !in DroppedOf(m.taken, member.components)
    requires var keys := MovesOf(m.taken, member.stationId, member.components); Moved(keys, t) == Moved(keys, u)
    ensures t == u
  {
    MovedIsNew(m, member, t);
    MovedIsNew(m, member, u);
    assert t in Tops(member.components) && u in Tops(member.components);
    if t in MovesOf(m.taken, member.stationId, member.components) && u in MovesOf(m.taken, member.stationId, member.components) {
      PrefixedInjective(member.stationId, t, u);
    }
  }

  lemma {:induction false} JoiningFrom(keys: map<string, string>, dropped: set<string>, lifecycle: Option<string>, own: seq<Component>)
    ensures forall c' :: c' in Joining(keys, dropped, lifecycle, own)
              <==> exists c :: c in own && Top(c) !in dropped && c' == Placed(keys, lifecycle, c)
  {
    if own != [] {
      var n := |own| - 1;
      JoiningFrom(keys, dropped, lifecycle, own[..n]);
      assert own == own[..n] + [own[n]];
    }
  }

  lemma {:induction false} JoiningDistinct(m: Merge, member: Member, lifecycle: Option<string>, n: nat)
    requires Sound(member.components) && Fresh(m, member) && n <= |member.components|
    ensures var keys := MovesOf(m.taken, member.stationId, member.components);
      DistinctKeys(Joining(keys, DroppedOf(m.taken, member.components), lifecycle, member.components[..n]))
  {
    var own := member.components;
    var keys := MovesOf(m.taken, member.stationId, own);
    var dropped := DroppedOf(m.taken, own);
    hide MovesOf, DroppedOf, KeyOf, Fresh, WellKeyed, HasTop;
    if n > 0 {
      JoiningDistinct(m, member, lifecycle, n - 1);
      JoiningNext(keys, dropped, lifecycle, own, n - 1);
      var before, last := Joining(keys, dropped, lifecycle, own[..n - 1]), own[n - 1];
      if Top(last) !in dropped {
        JoinsApart(m, member, lifecycle, n - 1);
        hide Joining, Placed, Top, Sound;
        assert DistinctKeys(before + [Placed(keys, lifecycle, last)]);
      }
    }
  }

  lemma {:induction false} JoinsApart(m: Merge, member: Member, lifecycle: Option<string>, n: nat)
    requires Sound(member.components) && Fresh(m, member) && n < |member.components|
    requires Top(member.components[n]) !in DroppedOf(m.taken, member.components)
    ensures var keys := MovesOf(m.taken, member.stationId, member.components);
      forall c' :: c' in Joining(keys, DroppedOf(m.taken, member.components), lifecycle, member.components[..n])
        ==> c'.key != Placed(keys, lifecycle, member.components[n]).key
  {
    var own := member.components;
    var keys := MovesOf(m.taken, member.stationId, own);
    var dropped := DroppedOf(m.taken, own);
    hide MovesOf, DroppedOf, KeyOf, Fresh, WellKeyed, HasTop, Joining;
    JoiningFrom(keys, dropped, lifecycle, own[..n]);
    forall c' | c' in Joining(keys, dropped, lifecycle, own[..n]) ensures c'.key != Placed(keys, lifecycle, own[n]).key {
      var c :| c in own[..n] && Top(c) !in dropped && c' == Placed(keys, lifecycle, c);
      var i :| 0 <= i < n && own[i] == c;
      assert own[i].key != own[n].key;
      if c'.key == Placed(keys, lifecycle, own[n]).key {
        SamePlaceSameKey(m, member, c, own[n]);
      }
    }
  }

  lemma {:induction false} KeysNext(own: seq<Component>, last: Component)
    requires DistinctKeys(own + [last])
    ensures KeysOf(own + [last]) == KeysOf(own) + {last.key}
    ensures DistinctKeys(own) && last.key !in KeysOf(own)
  {
    var all := own + [last];
    forall i | 0 <= i < |own| ensures own[i].key != last.key {
      assert all[i].key != all[|own|].key;
    }
    forall i, j | 0 <= i < j < |own| ensures own[i].key != own[j].key {
      assert all[i].key != all[j].key;
    }
  }

  lemma {:induction false} AddingIndexes(taken: Taken, joining: seq<Component>)
    requires DistinctKeys(joining)
    requires taken.Keys !! KeysOf(joining)
    ensures Adding(taken, joining).Keys == taken.Keys + KeysOf(joining)
    ensures forall k :: k in taken ==> Adding(taken, joining)[k] == taken[k]
    ensures forall c :: c in joining ==> Adding(taken, joining)[c.key] == c
  {
    if joining != [] {
      var n := |joining| - 1;
      assert joining == joining[..n] + [joining[n]];
      KeysNext(joining[..n], joining[n]);
      AddingIndexes(taken, joining[..n]);
      hide DistinctKeys;
    }
  }

  lemma {:induction false} PlainIsTop(own: seq<Component>, key: string)
    requires Sound(own) && key in KeysOf(own) && '/' !in key
    ensures HasTop(own, key)
  {
    var c :| c in own && c.key == key;
    ChildHasSlash(own, c);
  }

  lemma {:induction false} ChildHasSlash(own: seq<Component>, c: Component)
    requires WellKeyed(own, c)
    ensures c.parentKey.Some? <==> '/' in c.key
  {
    if c.parentKey.Some? {
      assert c.key[|c.parentKey.value|] == '/';
    }
  }

  /** With a key, that of its charge point is on the site. */
  lemma {:induction false} TopTaken(m: Merge, key: string)
    requires Indexed(m) && Sound(m.components) && key in m.taken
    ensures Head(key) in m.taken
  {
    var x := m.taken[key];
    HeadIsTop(m.components, x);
    assert Head(x.key) in KeysOf(m.components);
  }

  lemma {:induction false} KeptKeyIsNew(m: Merge, member: Member, c: Component)
    requires Indexed(m) && Sound(m.components) && Sound(member.components) && Fresh(m, member)
    requires c in member.components && Top(c) !in DroppedOf(m.taken, member.components)
    ensures KeyOf(MovesOf(m.taken, member.stationId, member.components), c.key) !in m.taken
  {
    var keys := MovesOf(m.taken, member.stationId, member.components);
    HeadIsTop(member.components, c);
    MovedIsNew(m, member, Top(c));
    PlacedKey(keys, member.components, c);
    if KeyOf(keys, c.key) in m.taken {
      TopTaken(m, KeyOf(keys, c.key));
    }
  }

  /** Where a member's own charge points and bays end up: on the site under the key
      the renames give, as themselves or as the same point already there. */
  lemma {:induction false} TopLands(m: Merge, member: Member, joining: seq<Component>, lifecycle: Option<string>, top: string)
    requires Indexed(m) && Sound(m.components) && Sound(member.components) && Fresh(m, member)
    requires HasTop(member.components, top) && '/' !in top
    requires joining == Joining(MovesOf(m.taken, member.stationId, member.components), DroppedOf(m.taken, member.components),
                                lifecycle, member.components)
    ensures HasTop(m.components + joining, KeyOf(MovesOf(m.taken, member.stationId, member.components), top))
    ensures top in DroppedOf(m.taken, member.components) ==>
      top in m.taken && KeyOf(MovesOf(m.taken, member.stationId, member.components), top) == top
  {
    var own := member.components;
    var keys, dropped := MovesOf(m.taken, member.stationId, own), DroppedOf(m.taken, own);
    var t :| t in own && t.parentKey.None? && t.key == top;
    KeyOfTop(keys, top);
    if top in dropped {
      var d :| d in own && SamePoint(m.taken, d) && d.key == top;
      forall c | c in own && c.key == top ensures c == d {
        SameKeySame(own, c, d);
      }
      PlainIsTop(m.components, top);
      var x :| x in m.components && x.parentKey.None? && x.key == top;
      assert x in m.components + joining;
    } else {
      JoiningFrom(keys, dropped, lifecycle, own);
      assert Top(t) == top;
      var t' := Placed(keys, lifecycle, t);
      assert t' in joining;
      assert t' in m.components + joining;
    }
  }

  lemma {:induction false} JoinedWellKeyed(m: Merge, member: Member, joining: seq<Component>, lifecycle: Option<string>, c: Component)
    requires Indexed(m) && Sound(m.components) && Sound(member.components) && Fresh(m, member)
    requires c in member.components && Top(c) !in DroppedOf(m.taken, member.components)
    requires joining == Joining(MovesOf(m.taken, member.stationId, member.components), DroppedOf(m.taken, member.components),
                                lifecycle, member.components)
    ensures var c' := Placed(MovesOf(m.taken, member.stationId, member.components), lifecycle, c);
      WellKeyed(m.components + joining, c') && forall b :: b in c'.bays ==> HasTop(m.components + joining, b)
  {
    hide MovesOf, DroppedOf, Joining, Fresh, Indexed, KeyOf;
    var own := member.components;
    var keys := MovesOf(m.taken, member.stationId, own);
    var c' := Placed(keys, lifecycle, c);
    HeadIsTop(own, c);
    MovedIsNew(m, member, Top(c));
    PlacedKey(keys, own, c);
    if c.parentKey.Some? {
      TopLands(m, member, joining, lifecycle, Top(c));
      KeyOfTop(keys, Top(c));
    }
    forall b' | b' in c'.bays ensures HasTop(m.components + joining, b') {
      var i :| 0 <= i < |c.bays| && b' == KeyOf(keys, c.bays[i]);
      assert c.bays[i] in c.bays;
      assert HasTop(own, c.bays[i]);
      var t :| t in own && t.parentKey.None? && t.key == c.bays[i];
      assert WellKeyed(own, t);
      TopLands(m, member, joining, lifecycle, c.bays[i]);
    }
  }

  lemma {:induction false} PlacedUnder(keys: map<string, string>, lifecycle: Option<string>, c: Component)
    ensures Placed(keys, lifecycle, c).key == KeyOf(keys, c.key)
  {
  }

  /** One member joining keeps the site's components sound. */
  lemma {:induction false} JoinKeepsSound(m: Merge, member: Member, mixed: bool)
    requires Indexed(m) && Sound(m.components) && Sound(member.components) && Fresh(m, member)
    ensures Indexed(MergeOne(m, member, mixed)) && Sound(MergeOne(m, member, mixed).components)
    ensures forall k :: k in m.taken ==> k in MergeOne(m, member, mixed).taken && MergeOne(m, member, mixed).taken[k] == m.taken[k]
    ensures forall d :: d in m.renamed && d != member.draftId ==>
      d in MergeOne(m, member, mixed).renamed && MergeOne(m, member, mixed).renamed[d] == m.renamed[d]
  {
    var own := member.components;
    var keys, dropped := MovesOf(m.taken, member.stationId, own), DroppedOf(m.taken, own);
    var lifecycle := if mixed then member.lifecycle else None;
    var joining := Joining(keys, dropped, lifecycle, own);
    var all := m.components + joining;
    hide Joining, MovesOf, DroppedOf, Adding, Placed, KeyOf, Fresh, WellKeyed, HasTop, DistinctKeys;
    JoiningFrom(keys, dropped, lifecycle, own);
    assert own[..|own|] == own;
    JoiningDistinct(m, member, lifecycle, |own|);
    forall c' | c' in joining ensures c'.key !in m.taken && WellKeyed(all, c') && forall b :: b in c'.bays ==> HasTop(all, b) {
      var c :| c in own && Top(c) !in dropped && c' == Placed(keys, lifecycle, c);
      KeptKeyIsNew(m, member, c);
      JoinedWellKeyed(m, member, joining, lifecycle, c);
      PlacedUnder(keys, lifecycle, c);
    }
    AddingIndexes(m.taken, joining);
    StillSound(m.components, joining);
    assert KeysOf(all) == KeysOf(m.components) + KeysOf(joining);
  }

  lemma {:induction false} StillSound(old_: seq<Component>, joining: seq<Component>)
    requires Sound(old_) && DistinctKeys(joining) && KeysOf(old_) !! KeysOf(joining)
    requires forall c :: c in joining ==> WellKeyed(old_ + joining, c) && forall b :: b in c.bays ==> HasTop(old_ + joining, b)
    ensures Sound(old_ + joining)
  {
    var all := old_ + joining;
    forall key | HasTop(old_, key) ensures HasTop(all, key) {
      var t :| t in old_ && t.parentKey.None? && t.key == key;
      assert t in all;
    }
    forall c | c in all ensures WellKeyed(all, c) && forall b :: b in c.bays ==> HasTop(all, b) {
      if c in old_ {
        assert WellKeyed(old_, c);
      }
    }
    forall i, j | 0 <= i < j < |all| ensures all[i].key != all[j].key {
      if i < |old_| <= j {
        assert all[i].key in KeysOf(old_) && all[j].key in KeysOf(joining);
      }
    }
  }

  // --- the whole merge ---

  ghost predicate GroupSound(group: seq<Member>) {
    forall i :: 0 <= i < |group| ==> Sound(group[i].components)
  }

  /** Every charge point and bay key of the site is a member's own, or made for one. */
  ghost predicate Origins(group: seq<Member>, m: Merge) {
    forall t :: t in Tops(m.components) ==> exists j :: 0 <= j < |group| && ComesFrom(group[j], t)
  }

  predicate ComesFrom(member: Member, t: string) { t in Tops(member.components) + Prefixes(member) }

  /** Where a location's keys go as it joins. */
  function RenamesAt(m: Merge, member: Member): map<string, string> {
    Renames(MovesOf(m.taken, member.stationId, member.components), member.components)
  }

  function OwnRenames(group: seq<Member>, mixed: bool, i: nat): map<string, string>
    requires i < |group|
  {
    RenamesAt(MergeAll(group[..i], mixed), group[i])
  }

  /** Each charge point and bay of the first `n` locations is on the site under the key
      it took as its location joined, there as one with the same eMI3 id. */
  ghost predicate Followed(group: seq<Member>, mixed: bool, n: nat, m: Merge)
    requires n <= |group|
  {
    forall i, c :: 0 <= i < n && c in group[i].components && c.parentKey.None? ==> Lands(m, OwnRenames(group, mixed, i), c)
  }

  ghost predicate Lands(m: Merge, renames: map<string, string>, c: Component) {
    && c.key in renames && renames[c.key] in m.taken
    && m.taken[renames[c.key]].emi3 == c.emi3
  }

  lemma {:induction false} RenamesGive(m: Merge, member: Member, c: Component)
    requires c in member.components
    ensures c.key in RenamesAt(m, member)
    ensures RenamesAt(m, member)[c.key] == KeyOf(MovesOf(m.taken, member.stationId, member.components), c.key)
  {
    hide MovesOf, KeyOf;
  }

  lemma {:induction false} FreshNext(group: seq<Member>, m: Merge, n: nat)
    requires n < |group| && GroupSound(group) && NoClash(group)
    requires Indexed(m) && Sound(m.components) && Origins(group[..n], m)
    ensures Fresh(m, group[n])
  {
    forall p | p in Prefixes(group[n]) ensures p !in m.taken.Keys {
      var k :| k in Tops(group[n].components) && p == Prefixed(group[n].stationId, k);
      var c :| c in group[n].components && c.parentKey.None? && c.key == k;
      assert WellKeyed(group[n].components, c);
      PrefixedIsPlain(group[n].stationId, k);
      forall j | 0 <= j < n ensures !ComesFrom(group[j], p) {
        assert Prefixes(group[n]) !! Tops(group[j].components) && Prefixes(group[j]) !! Prefixes(group[n]);
      }
      if p in m.taken.Keys {
        TakenComesFrom(group, m, n, p);
      }
    }
    assert Prefixes(group[n]) !! Tops(group[n].components);
  }

  lemma {:induction false} TakenComesFrom(group: seq<Member>, m: Merge, n: nat, key: string)
    requires n < |group| && Indexed(m) && Sound(m.components) && Origins(group[..n], m)
    requires key in m.taken && '/' !in key
    ensures exists j :: 0 <= j < n && ComesFrom(group[j], key)
  {
    PlainIsTop(m.components, key);
    assert key in Tops(m.components);
    var j :| 0 <= j < n && ComesFrom(group[..n][j], key);
    assert group[..n][j] == group[j];
  }

  lemma {:induction false} OriginsNext(group: seq<Member>, m: Merge, n: nat, mixed: bool)
    requires n < |group| && GroupSound(group)
    requires Indexed(m) && Sound(m.components) && Origins(group[..n], m) && Fresh(m, group[n])
    ensures Origins(group[..n + 1], MergeOne(m, group[n], mixed))
  {
    var member := group[n];
    var own := member.components;
    var keys, dropped := MovesOf(m.taken, member.stationId, own), DroppedOf(m.taken, own);
    var lifecycle := if mixed then member.lifecycle else None;
    JoiningFrom(keys, dropped, lifecycle, own);
    var m' := MergeOne(m, member, mixed);
    var upTo := group[..n + 1];
    forall t | t in Tops(m'.components) ensures exists j :: 0 <= j < n + 1 && ComesFrom(upTo[j], t) {
      var c' :| c' in m'.components && c'.parentKey.None? && c'.key == t;
      if c' in m.components {
        assert t in Tops(m.components);
        var j :| 0 <= j < n && ComesFrom(group[..n][j], t);
        assert upTo[j] == group[..n][j];
      } else {
        var c :| c in own && Top(c) !in dropped && c' == Placed(keys, lifecycle, c);
        assert WellKeyed(own, c);
        KeyOfTop(keys, c.key);
        assert c.key in Tops(own);
        if c.key in keys { assert Prefixed(member.stationId, c.key) in Prefixes(member); }
        assert upTo[n] == member && ComesFrom(member, t);
      }
    }
  }

  lemma {:induction false} LandsHere(m: Merge, member: Member, mixed: bool, c: Component)
    requires Indexed(m) && Sound(m.components) && Sound(member.components) && Fresh(m, member)
    requires c in member.components && c.parentKey.None?
    ensures Lands(MergeOne(m, member, mixed), RenamesAt(m, member), c)
    ensures RenamesAt(m, member)[c.key] in m.taken ==>
      c.emi3.Some? && c.key in DroppedOf(m.taken, member.components)
  {
    var own := member.components;
    var keys, dropped := MovesOf(m.taken, member.stationId, own), DroppedOf(m.taken, own);
    var lifecycle := if mixed then member.lifecycle else None;
    var joining := Joining(keys, dropped, lifecycle, own);
    var m' := MergeOne(m, member, mixed);
    assert WellKeyed(own, c) && HasTop(own, c.key);
    SamePointHeld(m, member, c);
    hide Joining, KeyOf, Fresh, MovesOf, DroppedOf, WellKeyed, HasTop;
    TopLands(m, member, joining, lifecycle, c.key);
    JoinKeepsSound(m, member, mixed);
    JoiningFrom(keys, dropped, lifecycle, own);
    RenamesGive(m, member, c);
    hide RenamesAt;
    if c.key !in dropped {
      KeptKeyIsNew(m, member, c);
      var c' := Placed(keys, lifecycle, c);
      assert c' in joining && c' in m'.components;
      assert c'.key in KeysOf(m'.components);
      var x := m'.taken[c'.key];
      SameKeySame(m'.components, x, c');
    }
  }

  lemma {:induction false} SameKeySame(own: seq<Component>, c: Component, d: Component)
    requires DistinctKeys(own) && c in own && d in own && c.key == d.key
    ensures c == d
  {
  }

  lemma {:induction false} NothingMerged()
    ensures var m := Merge([], map[], map[]); Indexed(m) && Sound(m.components) && Origins([], m)
  {
  }

  /** At each location the keys its moves make are new: what the merge needs of its input. */
  ghost predicate IsClearAt(group: seq<Member>, mixed: bool, n: nat)
    requires n < |group|
  {
    Fresh(MergeAll(group[..n], mixed), group[n])
  }

  ghost predicate StaysClear(group: seq<Member>, mixed: bool) {
    forall n :: 0 <= n < |group| ==> IsClearAt(group, mixed, n)
  }

  lemma {:induction false} MergeUpTo(group: seq<Member>, mixed: bool, n: nat)
    requires n <= |group| && GroupSound(group) && forall i :: 0 <= i < n ==> IsClearAt(group, mixed, i)
    ensures var m := MergeAll(group[..n], mixed); Indexed(m) && Sound(m.components) && Followed(group, mixed, n, m)
  {
    hide Sound, Indexed, MergeOne, Fresh, RenamesAt;
    assert n == 0 ==> group[..0] == [] && MergeAll([], mixed) == Merge([], map[], map[]);
    if n == 0 {
      NothingMerged();
    } else {
      MergeUpTo(group, mixed, n - 1);
      assert group[..n][..n - 1] == group[..n - 1];
      var m, member := MergeAll(group[..n - 1], mixed), group[n - 1];
      var m' := MergeOne(m, member, mixed);
      assert IsClearAt(group, mixed, n - 1);
      JoinKeepsSound(m, member, mixed);
      forall i, c | 0 <= i < n && c in group[i].components && c.parentKey.None? ensures Lands(m', OwnRenames(group, mixed, i), c) {
        if i == n - 1 {
          LandsHere(m, member, mixed, c);
        } else {
          assert Lands(m, OwnRenames(group, mixed, i), c);
        }
      }
    }
  }

  // --- when keys repeat ---

  lemma {:induction false} JoinedKeysDiffer(keys: map<string, string>, dropped: set<string>, lifecycle: Option<string>, own: seq<Component>,
                                            i: nat, j: nat)
    requires DistinctKeys(Joining(keys, dropped, lifecycle, own)) && i < j < |own|
    requires Top(own[i]) !in dropped && Top(own[j]) !in dropped
    ensures KeyOf(keys, own[i].key) != KeyOf(keys, own[j].key)
  {
    hide Top, KeyOf;
    var n := |own| - 1;
    var before, all := Joining(keys, dropped, lifecycle, own[..n]), Joining(keys, dropped, lifecycle, own);
    assert before <= all;
    if j < n {
      assert DistinctKeys(before);
      JoinedKeysDiffer(keys, dropped, lifecycle, own[..n], i, j);
    } else {
      JoiningFrom(keys, dropped, lifecycle, own[..n]);
      var x := Placed(keys, lifecycle, own[i]);
      assert own[..n][i] == own[i] && x in before;
      var k :| 0 <= k < |before| && before[k] == x;
      assert all[k] == x && all[|before|] == Placed(keys, lifecycle, own[j]);
    }
  }

  lemma {:induction false} IndexOf(own: seq<Component>, c: Component) returns (i: nat)
    requires c in own
    ensures i < |own| && own[i] == c
  {
    i :| 0 <= i < |own| && own[i] == c;
  }

  /** A moved charge point is one of the location's, kept, under the key made for it. */
  lemma {:induction false} MovedIsKept(m: Merge, member: Member, k: string) returns (c: Component)
    requires Sound(member.components) && k in MovesOf(m.taken, member.stationId, member.components)
    ensures c in member.components && c.parentKey.None? && c.key == k && Top(c) == k && k in m.taken
    ensures k !in DroppedOf(m.taken, member.components)
    ensures KeyOf(MovesOf(m.taken, member.stationId, member.components), k) == Prefixed(member.stationId, k)
  {
    var own := member.components;
    c :| c in own && Clashes(m.taken, c) && !SamePoint(m.taken, c) && c.key == k;
    assert WellKeyed(own, c);
    if k in DroppedOf(m.taken, own) {
      DroppedStays(m, member, k);
    }
    KeyOfTop(MovesOf(m.taken, member.stationId, own), k);
  }

  /** A charge point whose key is free stays where it is. */
  lemma {:induction false} FreeStays(m: Merge, member: Member, t: Component)
    requires Sound(member.components) && t in member.components && t.parentKey.None? && t.key !in m.taken
    ensures KeyOf(MovesOf(m.taken, member.stationId, member.components), t.key) == t.key
    ensures Top(t) !in DroppedOf(m.taken, member.components)
  {
  }

  /** A key made for a move that is taken, or another's of the same location, stands twice. */
  lemma {:induction false} TakenKeyRepeats(m: Merge, member: Member, mixed: bool, k: string)
    requires Indexed(m) && Sound(member.components) && k in MovesOf(m.taken, member.stationId, member.components)
    requires Prefixed(member.stationId, k) in m.taken
    ensures !DistinctKeys(MergeOne(m, member, mixed).components)
  {
    var own, key := member.components, Prefixed(member.stationId, k);
    var keys, dropped := MovesOf(m.taken, member.stationId, own), DroppedOf(m.taken, own);
    var lifecycle := if mixed then member.lifecycle else None;
    var joining := Joining(keys, dropped, lifecycle, own);
    assert MergeOne(m, member, mixed).components == m.components + joining;
    hide *;
    var c := MovedIsKept(m, member, k);
    JoinsPlaced(keys, dropped, lifecycle, own, c);
    HeldUnder(m, key);
    SharedKey(m.components, joining, m.taken[key], Placed(keys, lifecycle, c));
  }

  lemma {:induction false} JoinsPlaced(keys: map<string, string>, dropped: set<string>, lifecycle: Option<string>, own: seq<Component>,
                                       c: Component)
    requires c in own && Top(c) !in dropped
    ensures Placed(keys, lifecycle, c) in Joining(keys, dropped, lifecycle, own) && Placed(keys, lifecycle, c).key == KeyOf(keys, c.key)
  {
    hide Placed, Top;
    JoiningFrom(keys, dropped, lifecycle, own);
    PlacedUnder(keys, lifecycle, c);
  }

  lemma {:induction false} HeldUnder(m: Merge, key: string)
    requires Indexed(m) && key in m.taken
    ensures m.taken[key] in m.components && m.taken[key].key == key
  {
  }

  lemma {:induction false} SharedKey(a: seq<Component>, b: seq<Component>, x: Component, y: Component)
    requires x in a && y in b && x.key == y.key
    ensures !DistinctKeys(a + b)
  {
    var i := IndexOf(a, x);
    var j := IndexOf(b, y);
    assert (a + b)[i].key == (a + b)[|a| + j].key;
  }

  lemma {:induction false} OwnKeyRepeats(m: Merge, member: Member, mixed: bool, k: string)
    requires Sound(member.components) && k in MovesOf(m.taken, member.stationId, member.components)
    requires Prefixed(member.stationId, k) in Tops(member.components) && Prefixed(member.stationId, k) !in m.taken
    ensures !DistinctKeys(MergeOne(m, member, mixed).components)
  {
    var own, key := member.components, Prefixed(member.stationId, k);
    var keys, dropped := MovesOf(m.taken, member.stationId, own), DroppedOf(m.taken, own);
    var lifecycle := if mixed then member.lifecycle else None;
    var joining := Joining(keys, dropped, lifecycle, own);
    var c := MovedIsKept(m, member, k);
    var t :| t in own && t.parentKey.None? && t.key == key;
    FreeStays(m, member, t);
    hide MovesOf, DroppedOf, Joining, KeyOf, Sound, Adding, WellKeyed, Prefixed, DistinctKeys;
    TwoUnderOneKey(keys, dropped, lifecycle, own, c, t);
    if DistinctKeys(m.components + joining) {
      DistinctTail(m.components, joining);
    }
  }

  lemma {:induction false} TwoUnderOneKey(keys: map<string, string>, dropped: set<string>, lifecycle: Option<string>, own: seq<Component>,
                                          c: Component, t: Component)
    requires c in own && t in own && c != t && Top(c) !in dropped && Top(t) !in dropped && KeyOf(keys, c.key) == KeyOf(keys, t.key)
    ensures !DistinctKeys(Joining(keys, dropped, lifecycle, own))
  {
    hide Joining, KeyOf, Top, DistinctKeys;
    var i := IndexOf(own, c);
    var j := IndexOf(own, t);
    if DistinctKeys(Joining(keys, dropped, lifecycle, own)) {
      if i < j {
        JoinedKeysDiffer(keys, dropped, lifecycle, own, i, j);
      } else {
        JoinedKeysDiffer(keys, dropped, lifecycle, own, j, i);
      }
    }
  }

  lemma {:induction false} DistinctTail(a: seq<Component>, b: seq<Component>)
    requires DistinctKeys(a + b)
    ensures DistinctKeys(a) && DistinctKeys(b)
  {
    forall i, j | 0 <= i < j < |a| ensures a[i].key != a[j].key {
      assert (a + b)[i] == a[i] && (a + b)[j] == a[j];
    }
    forall i, j | 0 <= i < j < |b| ensures b[i].key != b[j].key {
      assert (a + b)[|a| + i] == b[i] && (a + b)[|a| + j] == b[j];
    }
  }

  /** A location joining leaves the keys distinct exactly if those its moves make are new. */
  lemma {:induction false} FreshExactly(m: Merge, member: Member, mixed: bool)
    requires Indexed(m) && Sound(m.components) && Sound(member.components)
    ensures DistinctKeys(MergeOne(m, member, mixed).components) <==> Fresh(m, member)
  {
    if Fresh(m, member) {
      JoinKeepsSound(m, member, mixed);
    } else {
      var k :| k in MovesOf(m.taken, member.stationId, member.components)
        && (Prefixed(member.stationId, k) in m.taken || Prefixed(member.stationId, k) in Tops(member.components));
      if Prefixed(member.stationId, k) in m.taken {
        TakenKeyRepeats(m, member, mixed, k);
      } else {
        OwnKeyRepeats(m, member, mixed, k);
      }
    }
  }

  lemma {:induction false} Appended(m: Merge, member: Member, mixed: bool)
    ensures DistinctKeys(MergeOne(m, member, mixed).components) ==> DistinctKeys(m.components)
  {
    hide Joining, Adding, MovesOf, DroppedOf;
    var all := MergeOne(m, member, mixed).components;
    assert all == m.components + all[|m.components|..];
    hide MergeOne;
    if DistinctKeys(all) {
      DistinctTail(m.components, all[|m.components|..]);
    }
  }

  lemma {:induction false} DistinctNext(group: seq<Member>, mixed: bool, n: nat)
    requires n < |group| && GroupSound(group)
    ensures DistinctKeys(MergeAll(group[..n + 1], mixed).components) ==> DistinctKeys(MergeAll(group[..n], mixed).components)
    ensures (forall i :: 0 <= i < n ==> IsClearAt(group, mixed, i)) ==>
      (DistinctKeys(MergeAll(group[..n + 1], mixed).components) <==> IsClearAt(group, mixed, n))
  {
    hide Sound, Indexed, Fresh, MergeAll, MergeOne, DistinctKeys, Followed;
    MergeNext(group, mixed, n);
    var m := MergeAll(group[..n], mixed);
    Appended(m, group[n], mixed);
    if forall i :: 0 <= i < n ==> IsClearAt(group, mixed, i) {
      MergeUpTo(group, mixed, n);
      FreshExactly(m, group[n], mixed);
    }
  }

  lemma {:induction false} DistinctUpTo(group: seq<Member>, mixed: bool, n: nat)
    requires n <= |group| && GroupSound(group)
    ensures DistinctKeys(MergeAll(group[..n], mixed).components) <==> forall i :: 0 <= i < n ==> IsClearAt(group, mixed, i)
  {
    hide GroupSound, IsClearAt, MergeAll, DistinctKeys;
    if n == 0 {
      NothingRepeats(mixed);
      assert group[..0] == [];
    } else {
      DistinctUpTo(group, mixed, n - 1);
      DistinctNext(group, mixed, n - 1);
    }
  }

  lemma {:induction false} NothingRepeats(mixed: bool)
    ensures DistinctKeys(MergeAll([], mixed).components)
  {
  }

  /** The last of the first `n` locations with its draft id. */
  predicate IsLastOf(group: seq<Member>, n: nat, i: nat) {
    i < n <= |group| && forall j :: i < j < n ==> group[j].draftId != group[i].draftId
  }

  /** The renames kept for a draft are those of the last location with its id. */
  ghost predicate KeepsLast(group: seq<Member>, mixed: bool, m: Merge) {
    forall i: nat :: IsLastOf(group, |group|, i) ==> group[i].draftId in m.renamed && m.renamed[group[i].draftId] == OwnRenames(group, mixed, i)
  }

  /** The merged keys are distinct exactly if at each location the keys its moves make
      are new; and then the merged components are as sound as those of each location
      (every connector's charge point and every named bay there), and each charge point
      is on the site once, under the key it took as its location joined. Of locations
      that share a draft id the last one's renames are kept. */
  lemma {:induction false} MergeKeepsSound(group: seq<Member>)
    requires GroupSound(group)
    ensures var (mixed, m) := (Mixed(group), MergeAll(group, Mixed(group)));
      && (DistinctKeys(m.components) <==> StaysClear(group, mixed))
      && (DistinctKeys(m.components) ==> Sound(m.components) && Followed(group, mixed, |group|, m))
      && KeepsLast(group, mixed, m)
  {
    assert group[..|group|] == group;
    DistinctUpTo(group, Mixed(group), |group|);
    hide Sound, MergeAll, Mixed, DistinctKeys, Followed, OwnRenames, KeepsLast;
    if StaysClear(group, Mixed(group)) {
      MergeUpTo(group, Mixed(group), |group|);
    }
    LastIsKept(group, Mixed(group));
  }

  lemma {:induction false} LastIsKept(group: seq<Member>, mixed: bool)
    ensures KeepsLast(group, mixed, MergeAll(group, mixed))
  {
    hide MergeAll, OwnRenames;
    assert group[..|group|] == group;
    forall i: nat | IsLastOf(group, |group|, i)
      ensures group[i].draftId in MergeAll(group, mixed).renamed
      ensures MergeAll(group, mixed).renamed[group[i].draftId] == OwnRenames(group, mixed, i)
    {
      RenamesSurvive(group, mixed, i, |group|);
    }
  }

  lemma {:induction false} ClearUpTo(group: seq<Member>, mixed: bool, n: nat)
    requires n <= |group| && GroupSound(group) && NoClash(group)
    ensures Origins(group[..n], MergeAll(group[..n], mixed)) && forall i :: 0 <= i < n ==> IsClearAt(group, mixed, i)
  {
    hide Sound, Indexed, Fresh, NoClash, Followed, MergeOne;
    if n == 0 {
      NothingMerged();
      assert group[..0] == [] && MergeAll([], mixed) == Merge([], map[], map[]);
    } else {
      ClearUpTo(group, mixed, n - 1);
      MergeUpTo(group, mixed, n - 1);
      var m := MergeAll(group[..n - 1], mixed);
      hide Origins, MergeAll;
      FreshNext(group, m, n - 1);
      OriginsNext(group, m, n - 1, mixed);
      MergeNext(group, mixed, n - 1);
      assert IsClearAt(group, mixed, n - 1);
    }
  }

  /** Enough to see before merging: no key the merge could make is one that some location uses or is given. */
  lemma {:induction false} NoClashStaysClear(group: seq<Member>)
    requires GroupSound(group) && NoClash(group)
    ensures StaysClear(group, Mixed(group))
  {
    hide Mixed;
    ClearUpTo(group, Mixed(group), |group|);
  }

  lemma {:induction false} MergeNext(group: seq<Member>, mixed: bool, n: nat)
    requires n < |group|
    ensures var before, after := MergeAll(group[..n], mixed), MergeAll(group[..n + 1], mixed);
      && after == MergeOne(before, group[n], mixed)
      && after.renamed == before.renamed[group[n].draftId := after.renamed[group[n].draftId]]
  {
    assert group[..n + 1][..n] == group[..n];
    hide Adding, Joining, Renames, MovesOf, DroppedOf;
  }

  lemma {:induction false} RenamesKept(m: Merge, member: Member, mixed: bool)
    ensures MergeOne(m, member, mixed).renamed == m.renamed[member.draftId := RenamesAt(m, member)]
  {
    hide Adding, Joining, Renames, MovesOf, DroppedOf;
  }

  lemma {:induction false} RenamesSurvive(group: seq<Member>, mixed: bool, i: nat, n: nat)
    requires IsLastOf(group, n, i)
    ensures var end := MergeAll(group[..n], mixed);
      group[i].draftId in end.renamed && end.renamed[group[i].draftId] == OwnRenames(group, mixed, i)
    decreases n
  {
    hide MergeAll, MergeOne, RenamesAt;
    MergeNext(group, mixed, n - 1);
    RenamesKept(MergeAll(group[..n - 1], mixed), group[n - 1], mixed);
    if i + 1 < n {
      RenamesSurvive(group, mixed, i, n - 1);
    }
  }

  /** A charge point dropped for one held carries the same eMI3 id as that. */
  lemma {:induction false} SamePointHeld(m: Merge, member: Member, d: Component)
    requires Sound(member.components) && d in member.components && d.parentKey.None?
    ensures d.key in DroppedOf(m.taken, member.components) ==>
      && d.key in m.taken && d.emi3.Some? && m.taken[d.key].emi3 == d.emi3
      && KeyOf(MovesOf(m.taken, member.stationId, member.components), d.key) == d.key
  {
  }

  /** Two locations' charge points end up under one key only if both carry the same eMI3 id. */
  lemma {:induction false} OnlySamePointsMeet(group: seq<Member>, i: nat, j: nat, c: Component, d: Component)
    requires GroupSound(group) && StaysClear(group, Mixed(group)) && i < j < |group|
    requires c in group[i].components && c.parentKey.None? && d in group[j].components && d.parentKey.None?
    requires var (one, other) := (OwnRenames(group, Mixed(group), i), OwnRenames(group, Mixed(group), j));
      c.key in one && d.key in other && one[c.key] == other[d.key]
    ensures c.emi3.Some? && c.emi3 == d.emi3
  {
    var mixed := Mixed(group);
    var before := MergeAll(group[..j], mixed);
    MergeUpTo(group, mixed, j);
    assert Lands(before, OwnRenames(group, mixed, i), c);
    assert IsClearAt(group, mixed, j);
    LandsHere(before, group[j], mixed, d);
    RenamesGive(before, group[j], d);
    SamePointHeld(before, group[j], d);
    hide MergeAll, MergeOne, NoClash, GroupSound, Sound, Indexed, DroppedOf, MovesOf, Mixed, Origins, Fresh, RenamesAt, Followed;
  }

  /** A connector goes with its charge point. Only where that is one already on the
      site does it keep its key, and is there exactly if the point held lists it. */
  lemma {:induction false} ConnectorLands(m: Merge, member: Member, mixed: bool, c: Component)
    requires Indexed(m) && Sound(m.components) && Sound(member.components) && Fresh(m, member)
    requires c in member.components && c.parentKey.Some?
    ensures var m', r := MergeOne(m, member, mixed), KeyOf(MovesOf(m.taken, member.stationId, member.components), c.key);
      if Top(c) in DroppedOf(m.taken, member.components)
      then r == c.key && (r in m'.taken <==> r in m.taken)
      else r in m'.taken && m'.taken[r].parentKey == Some(KeyOf(MovesOf(m.taken, member.stationId, member.components), Top(c)))
  {
    var own := member.components;
    var keys, dropped := MovesOf(m.taken, member.stationId, own), DroppedOf(m.taken, own);
    var lifecycle := if mixed then member.lifecycle else None;
    var joining := Joining(keys, dropped, lifecycle, own);
    var m' := MergeOne(m, member, mixed);
    HeadIsTop(own, c);
    JoinKeepsSound(m, member, mixed);
    JoiningFrom(keys, dropped, lifecycle, own);
    if Top(c) in dropped {
      TopLands(m, member, joining, lifecycle, Top(c));
      KeyOfTop(keys, Top(c));
      DroppedStays(m, member, Top(c));
      forall x | x in joining ensures x.key != c.key {
        var y :| y in own && Top(y) !in dropped && x == Placed(keys, lifecycle, y);
        HeadIsTop(own, y);
        MovedIsNew(m, member, Top(y));
        PlacedKey(keys, own, y);
      }
      assert c.key in m'.taken ==> m'.taken[c.key] in m.components + joining;
    } else {
      var c' := Placed(keys, lifecycle, c);
      assert c' in joining && c' in m'.components && c'.key in KeysOf(m'.components);
      SameKeySame(m'.components, m'.taken[c'.key], c');
    }
  }

  // --- connectors in the finished group ---

  /** A join adds nothing below a charge point already on the site. */
  lemma {:induction false} JoinAddsNoneBelow(m: Merge, member: Member, mixed: bool, key: string)
    requires Indexed(m) && Sound(m.components) && Sound(member.components) && Fresh(m, member)
    requires Head(key) in m.taken
    ensures key in MergeOne(m, member, mixed).taken <==> key in m.taken
  {
    var own := member.components;
    var keys, dropped := MovesOf(m.taken, member.stationId, own), DroppedOf(m.taken, own);
    var lifecycle := if mixed then member.lifecycle else None;
    var joining := Joining(keys, dropped, lifecycle, own);
    hide Joining, Adding, MovesOf, DroppedOf, Placed, Fresh, WellKeyed, KeyOf, DistinctKeys, HasTop;
    JoinKeepsSound(m, member, mixed);
    JoiningFrom(keys, dropped, lifecycle, own);
    forall x | x in joining ensures x.key != key {
      var y :| y in own && Top(y) !in dropped && x == Placed(keys, lifecycle, y);
      PlacedElsewhere(m, member, lifecycle, y);
    }
    assert KeysOf(m.components + joining) == KeysOf(m.components) + KeysOf(joining);
  }

  lemma {:induction false} PlacedElsewhere(m: Merge, member: Member, lifecycle: Option<string>, c: Component)
    requires Sound(member.components) && Fresh(m, member)
    requires c in member.components && Top(c) !in DroppedOf(m.taken, member.components)
    ensures Head(Placed(MovesOf(m.taken, member.stationId, member.components), lifecycle, c).key) !in m.taken
  {
    var keys := MovesOf(m.taken, member.stationId, member.components);
    hide MovesOf, DroppedOf, KeyOf, Fresh, Moved;
    HeadIsTop(member.components, c);
    MovedIsNew(m, member, Top(c));
    PlacedKey(keys, member.components, c);
  }

  /** What the site holds stays, and what it lacks below a charge point it holds never comes. */
  lemma {:induction false} StaysToTheEnd(group: seq<Member>, mixed: bool, i: nat, n: nat, key: string)
    requires i <= n <= |group| && GroupSound(group) && forall k :: 0 <= k < n ==> IsClearAt(group, mixed, k)
    requires Head(key) in MergeAll(group[..i], mixed).taken
    ensures var at, end := MergeAll(group[..i], mixed).taken, MergeAll(group[..n], mixed).taken;
      Head(key) in end && (key in end <==> key in at) && (key in at ==> end[key] == at[key])
    decreases n
  {
    hide MergeAll, MergeOne, Sound, Indexed, Fresh, Followed;
    if i < n {
      StaysToTheEnd(group, mixed, i, n - 1, key);
      MergeUpTo(group, mixed, n - 1);
      MergeNext(group, mixed, n - 1);
      var m := MergeAll(group[..n - 1], mixed);
      assert IsClearAt(group, mixed, n - 1);
      JoinKeepsSound(m, group[n - 1], mixed);
      JoinAddsNoneBelow(m, group[n - 1], mixed, key);
    }
  }

  /** Below its charge point, wherever the renames took that, if a component is there at all. */
  ghost predicate HangsBelow(m: Merge, renames: map<string, string>, c: Component) {
    && c.key in renames && Top(c) in renames
    && renames[Top(c)] in m.taken
    && (renames[c.key] in m.taken ==> m.taken[renames[c.key]].parentKey == Some(renames[Top(c)]))
  }

  /** The charge point of a connector is one already on the site when its location joins. */
  ghost predicate IsHeld(before: Merge, member: Member, c: Component) { Top(c) in DroppedOf(before.taken, member.components) }

  lemma {:induction false} ParentOf(own: seq<Component>, c: Component) returns (t: Component)
    requires Sound(own) && c in own && c.parentKey.Some?
    ensures t in own && t.parentKey.None? && t.key == Top(c)
  {
    assert WellKeyed(own, c);
    t :| t in own && t.parentKey.None? && t.key == Top(c);
  }

  /** A component of the site whose key starts with that of a charge point hangs below it. */
  lemma {:induction false} BelowItsHead(m: Merge, own: seq<Component>, c: Component)
    requires Indexed(m) && Sound(m.components) && c in own && WellKeyed(own, c) && c.parentKey.Some?
    ensures Head(c.key) == Top(c) && (c.key in m.taken ==> m.taken[c.key].parentKey == Some(Top(c)))
  {
    HeadIsTop(own, c);
    ChildHasSlash(own, c);
    if c.key in m.taken {
      var x := m.taken[c.key];
      HeadIsTop(m.components, x);
      ChildHasSlash(m.components, x);
    }
  }

  lemma {:induction false} ConnectorJoins(m: Merge, member: Member, mixed: bool, c: Component)
    requires Indexed(m) && Sound(m.components) && Sound(member.components) && Fresh(m, member)
    requires c in member.components && c.parentKey.Some?
    ensures var (m', renames) := (MergeOne(m, member, mixed), RenamesAt(m, member));
      && HangsBelow(m', renames, c)
      && Head(renames[c.key]) == renames[Top(c)]
      && (IsHeld(m, member, c) ==> renames[c.key] == c.key)
      && (renames[c.key] in m'.taken <==> IsHeld(m, member, c) ==> c.key in m.taken)
  {
    var own, m' := member.components, MergeOne(m, member, mixed);
    var keys := MovesOf(m.taken, member.stationId, own);
    hide MergeOne, MovesOf, DroppedOf, KeyOf, Fresh, RenamesAt;
    var t := ParentOf(own, c);
    RenamesGive(m, member, c);
    RenamesGive(m, member, t);
    LandsHere(m, member, mixed, t);
    ConnectorLands(m, member, mixed, c);
    JoinKeepsSound(m, member, mixed);
    BelowItsHead(m', own, c);
    if IsHeld(m, member, c) {
      DroppedStays(m, member, Top(c));
      KeyOfTop(keys, Top(c));
    } else {
      MovedIsNew(m, member, Top(c));
      PlacedKey(keys, own, c);
      KeyOfTop(keys, Top(c));
    }
  }

  /** In the finished group a connector stands below its charge point, wherever that went,
      exactly if its charge point was kept, or was one already held that lists it. */
  lemma {:induction false} ConnectorFollows(group: seq<Member>, i: nat, c: Component)
    requires GroupSound(group) && StaysClear(group, Mixed(group)) && i < |group|
    requires c in group[i].components && c.parentKey.Some?
    ensures var before, m := MergeAll(group[..i], Mixed(group)), MergeAll(group, Mixed(group));
      var renames := OwnRenames(group, Mixed(group), i);
      && HangsBelow(m, renames, c)
      && (IsHeld(before, group[i], c) ==> renames[c.key] == c.key)
      && (renames[c.key] in m.taken <==> IsHeld(before, group[i], c) ==> c.key in before.taken)
  {
    var mixed := Mixed(group);
    hide Mixed, MergeAll, MergeOne, Sound, Indexed, Fresh, IsHeld, RenamesAt, Followed;
    assert group[..|group|] == group;
    MergeUpTo(group, mixed, i);
    assert IsClearAt(group, mixed, i);
    var before := MergeAll(group[..i], mixed);
    MergeNext(group, mixed, i);
    ConnectorJoins(before, group[i], mixed, c);
    StaysToTheEnd(group, mixed, i + 1, |group|, OwnRenames(group, mixed, i)[c.key]);
  }

  // --- what a component says on the finished site ---

  /** A charge point or bay of a location that is one held already, by its eMI3 id. */
  predicate IsSameAsHeld(before: Merge, member: Member, top: string) {
    top in before.taken
    && exists d :: d in member.components && d.parentKey.None? && d.key == top && d.emi3.Some? && d.emi3 == before.taken[top].emi3
  }

  /** The key a location's charge point or bay has on the site: its own, unless another there has it. */
  function KeyOnSite(before: Merge, member: Member, top: string): string {
    if top in before.taken && !IsSameAsHeld(before, member, top) then EvseKey(member.stationId) + ":" + top else top
  }

  /** Whether two locations of the group state different lifecycles. */
  ghost predicate LifecyclesDiffer(group: seq<Member>) {
    exists p, q :: 0 <= p < |group| && 0 <= q < |group| && group[p].lifecycle != group[q].lifecycle
  }

  /** `x` is what location `i` states as `c`: kind and eMI3 id as they are, keys as on the
      site, and of a charge point without a lifecycle its location's, where those differ. */
  ghost predicate IsAsStated(group: seq<Member>, i: nat, before: Merge, c: Component, x: Component)
    requires i < |group|
  {
    var (member, top) := (group[i], Top(c));
    && x.kind == c.kind && x.emi3 == c.emi3
    && (c.parentKey.None? ==> x.parentKey.None? && x.key == KeyOnSite(before, member, c.key))
    && (c.parentKey.Some? ==>
          && x.parentKey == Some(KeyOnSite(before, member, c.parentKey.value))
          && |c.parentKey.value| <= |c.key| && x.key == KeyOnSite(before, member, c.parentKey.value) + c.key[|c.parentKey.value|..])
    && |x.bays| == |c.bays| && (forall k :: 0 <= k < |c.bays| ==> x.bays[k] == KeyOnSite(before, member, c.bays[k]))
    && x.lifecycle == if c.kind == "evse" && c.lifecycle.None? && LifecyclesDiffer(group) then member.lifecycle else c.lifecycle
  }

  lemma {:induction false} SameAsHeldExactly(m: Merge, member: Member, top: string)
    requires Sound(member.components) && HasTop(member.components, top)
    ensures top in DroppedOf(m.taken, member.components) <==> IsSameAsHeld(m, member, top)
    ensures '/' !in top ==> KeyOf(MovesOf(m.taken, member.stationId, member.components), top) == KeyOnSite(m, member, top)
  {
    var t :| t in member.components && t.parentKey.None? && t.key == top;
    if '/' !in top { KeyOfTop(MovesOf(m.taken, member.stationId, member.components), top); }
    forall d | d in member.components && d.key == top ensures d == t {
      SameKeySame(member.components, d, t);
    }
    hide KeyOf;
  }

  lemma {:induction false} MixedExactly(group: seq<Member>)
    ensures Mixed(group) <==> LifecyclesDiffer(group)
  {
    if Mixed(group) {
      var i :| 0 <= i < |group| && group[i].lifecycle != group[0].lifecycle;
    }
    if LifecyclesDiffer(group) {
      var p, q :| 0 <= p < |group| && 0 <= q < |group| && group[p].lifecycle != group[q].lifecycle;
    }
  }

  lemma {:induction false} BayIsTop(own: seq<Component>, c: Component, b: string)
    requires Sound(own) && c in own && b in c.bays
    ensures HasTop(own, b) && '/' !in b
  {
    assert HasTop(own, b);
    var t :| t in own && t.parentKey.None? && t.key == b;
    assert WellKeyed(own, t);
  }

  lemma {:induction false} KeysAsStated(m: Merge, member: Member, c: Component)
    requires Sound(member.components) && c in member.components
    ensures var keys := MovesOf(m.taken, member.stationId, member.components);
      && KeyOf(keys, Top(c)) == KeyOnSite(m, member, Top(c))
      && (c.parentKey.None? ==> KeyOf(keys, c.key) == KeyOnSite(m, member, c.key))
      && (c.parentKey.Some? ==> |Top(c)| <= |c.key| && KeyOf(keys, c.key) == KeyOnSite(m, member, Top(c)) + c.key[|Top(c)|..])
  {
    var own := member.components;
    var keys := MovesOf(m.taken, member.stationId, own);
    HeadIsTop(own, c);
    KeyParts(own, c);
    hide MovesOf, KeyOf, KeyOnSite, DroppedOf, Sound, WellKeyed, HasTop, Rest;
    SameAsHeldExactly(m, member, Top(c));
    KeyOfTop(keys, Top(c));
    if c.parentKey.Some? {
      KeyOfChild(keys, Top(c), Rest(c));
      assert c.key[|Top(c)|..] == "/" + Rest(c);
      assert Moved(keys, Top(c)) + "/" + Rest(c) == Moved(keys, Top(c)) + ("/" + Rest(c));
    }
  }

  lemma {:induction false} BaysAsStated(m: Merge, member: Member, c: Component)
    requires Sound(member.components) && c in member.components
    ensures var keys := MovesOf(m.taken, member.stationId, member.components);
      forall k :: 0 <= k < |c.bays| ==> KeyOf(keys, c.bays[k]) == KeyOnSite(m, member, c.bays[k])
  {
    hide MovesOf, KeyOf, KeyOnSite, DroppedOf, Sound, HasTop;
    forall k | 0 <= k < |c.bays| ensures KeyOf(MovesOf(m.taken, member.stationId, member.components), c.bays[k]) == KeyOnSite(m, member, c.bays[k]) {
      BayIsTop(member.components, c, c.bays[k]);
      SameAsHeldExactly(m, member, c.bays[k]);
    }
  }

  lemma {:induction false} PlacedAsStated(group: seq<Member>, i: nat, m: Merge, c: Component)
    requires i < |group| && Sound(group[i].components) && c in group[i].components
    ensures var (member, own) := (group[i], group[i].components);
      IsAsStated(group, i, m, c, Placed(MovesOf(m.taken, member.stationId, own), if Mixed(group) then member.lifecycle else None, c))
  {
    MixedExactly(group);
    KeysAsStated(m, group[i], c);
    BaysAsStated(m, group[i], c);
    hide MovesOf, KeyOf, KeyOnSite, Mixed, LifecyclesDiffer, Sound;
  }

  /** As its location joins, a component stands on the site as stated. */
  lemma {:induction false} JoinedAsStated(group: seq<Member>, i: nat, c: Component)
    requires GroupSound(group) && StaysClear(group, Mixed(group)) && i < |group| && c in group[i].components
    requires !IsSameAsHeld(MergeAll(group[..i], Mixed(group)), group[i], Top(c))
    ensures var (before, at, renames) := (MergeAll(group[..i], Mixed(group)), MergeAll(group[..i + 1], Mixed(group)), OwnRenames(group, Mixed(group), i));
      && c.key in renames && renames[c.key] in at.taken && Head(renames[c.key]) in at.taken
      && IsAsStated(group, i, before, c, at.taken[renames[c.key]])
  {
    var (mixed, member, own) := (Mixed(group), group[i], group[i].components);
    var before := MergeAll(group[..i], mixed);
    var keys := MovesOf(before.taken, member.stationId, own);
    hide MergeAll, MergeOne, Fresh, Mixed, MovesOf, DroppedOf, Placed, IsAsStated, IsSameAsHeld, RenamesAt, KeyOf, Followed, Sound;
    MergeUpTo(group, mixed, i);
    MergeNext(group, mixed, i);
    assert IsClearAt(group, mixed, i);
    HeadIsTop(own, c);
    SameAsHeldExactly(before, member, Top(c));
    RenamesGive(before, member, c);
    PlacedAsStated(group, i, before, c);
    PlacedUnder(keys, if mixed then member.lifecycle else None, c);
    JoinHolds(before, member, mixed, c);
    HeadJoined(before, member, mixed, c);
  }

  /** What a location states of a component, unless its charge point is one held already,
      the finished site says, under the key the renames give. */
  lemma {:induction false} KeptAsStated(group: seq<Member>, i: nat, c: Component)
    requires GroupSound(group) && StaysClear(group, Mixed(group)) && i < |group| && c in group[i].components
    requires var before := MergeAll(group[..i], Mixed(group)); !IsSameAsHeld(before, group[i], Top(c))
    ensures var (before, m, renames) := (MergeAll(group[..i], Mixed(group)), MergeAll(group, Mixed(group)), OwnRenames(group, Mixed(group), i));
      && c.key in renames && renames[c.key] in m.taken && m.taken[renames[c.key]] in m.components
      && IsAsStated(group, i, before, c, m.taken[renames[c.key]])
  {
    var mixed := Mixed(group);
    hide MergeAll, Mixed, OwnRenames, IsAsStated, IsSameAsHeld, Sound, GroupSound, IsClearAt, Followed;
    assert group[..|group|] == group;
    JoinedAsStated(group, i, c);
    var key := OwnRenames(group, mixed, i)[c.key];
    MergeUpTo(group, mixed, |group|);
    StaysToTheEnd(group, mixed, i + 1, |group|, key);
    HeldUnder(MergeAll(group, mixed), key);
  }

  lemma {:induction false} JoinHolds(m: Merge, member: Member, mixed: bool, c: Component)
    requires Indexed(m) && Sound(m.components) && Sound(member.components) && Fresh(m, member)
    requires c in member.components && Top(c) !in DroppedOf(m.taken, member.components)
    ensures var (m', x) := (MergeOne(m, member, mixed),
        Placed(MovesOf(m.taken, member.stationId, member.components), if mixed then member.lifecycle else None, c));
      x.key in m'.taken && m'.taken[x.key] == x
  {
    var own := member.components;
    var keys, dropped := MovesOf(m.taken, member.stationId, own), DroppedOf(m.taken, own);
    var lifecycle := if mixed then member.lifecycle else None;
    var (m', x) := (MergeOne(m, member, mixed), Placed(keys, lifecycle, c));
    JoinsPlaced(keys, dropped, lifecycle, own, c);
    JoinKeepsSound(m, member, mixed);
    assert x in m'.components && x.key in KeysOf(m'.components);
    hide MergeOne, MovesOf, DroppedOf, Placed, Fresh;
    SameKeySame(m'.components, m'.taken[x.key], x);
  }

  lemma {:induction false} HeadJoined(m: Merge, member: Member, mixed: bool, c: Component)
    requires Indexed(m) && Sound(m.components) && Sound(member.components) && Fresh(m, member)
    requires c in member.components && Top(c) !in DroppedOf(m.taken, member.components)
    ensures Head(KeyOf(MovesOf(m.taken, member.stationId, member.components), c.key)) in MergeOne(m, member, mixed).taken
  {
    JoinHolds(m, member, mixed, c);
    JoinKeepsSound(m, member, mixed);
    PlacedUnder(MovesOf(m.taken, member.stationId, member.components), if mixed then member.lifecycle else None, c);
    hide MergeOne, MovesOf, DroppedOf, Placed, Fresh, KeyOf;
    TopTaken(MergeOne(m, member, mixed), KeyOf(MovesOf(m.taken, member.stationId, member.components), c.key));
  }

  lemma {:induction false} DroppedStays(m: Merge, member: Member, top: string)
    requires Sound(member.components) && top in DroppedOf(m.taken, member.components)
    ensures top !in MovesOf(m.taken, member.stationId, member.components) && top in m.taken
  {
  }

  lemma {:induction false} JoiningUnmoved(own: seq<Component>)
    requires forall c :: c in own ==> c.parentKey.None? && c.bays == []
    ensures Joining(map[], {}, None, own) == own
  {
    if own != [] {
      var n := |own| - 1;
      JoiningUnmoved(own[..n]);
      assert own[n] in own && Placed(map[], None, own[n]) == own[n];
      assert own == own[..n] + [own[n]];
    }
  }

  lemma {:induction false} NothingMoves(first: Member)
    ensures MovesOf(map[], first.stationId, first.components) == map[] && DroppedOf(map[], first.components) == {}
  {
  }

  lemma {:induction false} AddedFirst(own: seq<Component>)
    requires DistinctKeys(own)
    ensures var taken := Adding(map[], own);
      taken.Keys == KeysOf(own) && forall k :: k in taken ==> taken[k] in own && taken[k].key == k
  {
    AddingIndexes(map[], own);
    hide Adding;
  }

  /** What the first location of a group leaves, if it lists charge points only. */
  lemma {:induction false} FirstUnmoved(first: Member)
    requires Sound(first.components) && forall c :: c in first.components ==> c.parentKey.None? && c.bays == []
    ensures var m := MergeOne(Merge([], map[], map[]), first, false);
      m.components == first.components && Indexed(m)
  {
    JoiningUnmoved(first.components);
    NothingMoves(first);
    AddedFirst(first.components);
    hide MovesOf, DroppedOf, Joining, Adding, Sound, KeysOf;
    assert [] + first.components == first.components;
  }

  /** A location of one charge point without an eMI3 id, whose key is taken. */
  lemma {:induction false} OneMoved(m: Merge, member: Member, x: Component)
    requires member.components == [x] && x.parentKey.None? && x.emi3.None? && '/' !in x.key && x.key in m.taken
    ensures var all := MergeOne(m, member, false).components;
      |all| == |m.components| + 1 && all[..|m.components|] == m.components
      && all[|m.components|].key == Prefixed(member.stationId, x.key)
  {
    var keys := MovesOf(m.taken, member.stationId, [x]);
    assert Clashes(m.taken, x) && !SamePoint(m.taken, x);
    assert DroppedOf(m.taken, [x]) == {};
    assert x.key in keys && keys[x.key] == Prefixed(member.stationId, x.key);
    KeyOfTop(keys, x.key);
    assert [x][..0] == [];
    assert Joining(keys, {}, None, [x]) == [Placed(keys, None, x)];
  }

  lemma {:induction false} SecondRepeats(first: Member, second: Member, x: Component, y: Component)
    requires first.components == [x, y] && second.components == [x] && first.lifecycle == second.lifecycle
    requires Sound(first.components) && x.parentKey.None? && y.parentKey.None? && x.bays == y.bays == []
    requires x.emi3.None? && y.key == Prefixed(second.stationId, x.key)
    ensures var group := [first, second]; !DistinctKeys(MergeAll(group, Mixed(group)).components)
  {
    var group := [first, second];
    MergedFirst(first, second);
    var m := MergeAll(group[..1], false);
    assert WellKeyed(first.components, x) && x in first.components;
    hide MergeOne, Sound, Mixed;
    FirstUnmoved(first);
    assert x.key in KeysOf(m.components);
    OneMoved(m, second, x);
    var all := MergeOne(m, second, false).components;
    assert all[..2][1] == y;
    assert all[1].key == all[2].key;
  }

  lemma {:induction false} PrefixOfTwo()
    ensures Prefixed("2", "x") == "2:x"
  {
  }

  lemma {:induction false} PointsAreSound(x: Component, y: Component)
    requires x.parentKey.None? && y.parentKey.None? && x.bays == y.bays == []
    requires '/' !in x.key && '/' !in y.key && x.key != y.key
    ensures Sound([x, y]) && Sound([x]) && Tops([x, y]) == {x.key, y.key} && Tops([x]) == {x.key}
  {
  }

  lemma {:induction false} ClashGroup(first: Member, second: Member, x: Component, y: Component)
    requires first.components == [x, y] && second.components == [x]
    requires Sound([x, y]) && Sound([x]) && Tops([x, y]) == {x.key, y.key} && Tops([x]) == {x.key}
    requires y.key == Prefixed(second.stationId, x.key)
    ensures GroupSound([first, second]) && !NoClash([first, second])
  {
    var group := [first, second];
    assert y.key in Prefixes(second);
    assert !(Prefixes(group[1]) !! Tops(group[0].components));
  }

  lemma {:induction false} NothingMovesWhereHeld(m: Merge, member: Member, x: Component, k: Component)
    requires member.components == [x, k] && k.parentKey == Some(x.key) && SamePoint(m.taken, x)
    ensures MovesOf(m.taken, member.stationId, member.components) == map[] && IsHeld(m, member, k)
  {
    assert x in member.components;
  }

  lemma {:induction false} OneHeld(m: Merge, x: Component)
    requires Indexed(m) && m.components == [x]
    ensures m.taken.Keys == {x.key} && m.taken[x.key] == x
  {
    assert x in m.components;
    assert KeysOf([x]) == {x.key};
  }

  lemma {:induction false} FirstIsFresh(first: Member)
    ensures Fresh(Merge([], map[], map[]), first)
  {
    NothingMoves(first);
    hide MovesOf;
  }

  lemma {:induction false} FirstHolds(first: Member, x: Component)
    requires first.components == [x] && Sound(first.components) && x.parentKey.None? && x.bays == []
    ensures var m := MergeOne(Merge([], map[], map[]), first, false);
      m.taken.Keys == {x.key} && m.taken[x.key] == x && Fresh(Merge([], map[], map[]), first)
  {
    hide *;
    FirstUnmoved(first);
    FirstIsFresh(first);
    OneHeld(MergeOne(Merge([], map[], map[]), first, false), x);
  }

  lemma {:induction false} MergedFirst(first: Member, second: Member)
    requires first.lifecycle == second.lifecycle
    ensures var group := [first, second];
      && !Mixed(group) && MergeAll(group[..0], false) == Merge([], map[], map[])
      && MergeAll(group[..1], false) == MergeOne(Merge([], map[], map[]), first, false)
  {
    var group := [first, second];
    assert group[..0] == [] && group[..1] == [first] && [first][..0] == [];
    hide MergeOne;
  }

  lemma {:induction false} ConnectorLost(first: Member, second: Member, x: Component, k: Component)
    requires first.components == [x] && second.components == [x, k] && first.lifecycle == second.lifecycle
    requires Sound(first.components) && Sound(second.components)
    requires x.parentKey.None? && x.bays == [] && x.emi3.Some? && k.parentKey == Some(x.key) && k.key != x.key
    ensures LosesAConnector([first, second])
  {
    var group := [first, second];
    hide MergeOne, MergeAll, MovesOf, DroppedOf, Sound, Mixed, Indexed;
    MergedFirst(first, second);
    FirstHolds(first, x);
    var m := MergeAll(group[..1], false);
    assert SamePoint(m.taken, x) && k.key !in m.taken.Keys;
    NothingMovesWhereHeld(m, second, x, k);
    assert IsClearAt(group, false, 0) && IsClearAt(group, false, 1);
    assert k in group[1].components;
    hide Fresh, IsHeld, SamePoint, Clashes, RenamesAt;
    ConnectorFollows(group, 1, k);
    RenamesSurvive(group, false, 1, 2);
    assert group[..2] == group;
    assert IsLost(group, 1, k);
  }

  /** A connector of location `i` that is nowhere on the site, under the key its readings name. */
  ghost predicate IsLost(group: seq<Member>, i: nat, c: Component) {
    var m := MergeAll(group, Mixed(group));
    && i < |group| && c in group[i].components && c.parentKey.Some? && group[i].draftId in m.renamed && c.key in m.renamed[group[i].draftId]
    && m.renamed[group[i].draftId][c.key] !in m.taken
  }

  /** Sound locations whose keys stay clear, and yet one of their connectors is lost. */
  ghost predicate LosesAConnector(group: seq<Member>) {
    GroupSound(group) && StaysClear(group, Mixed(group)) && exists i, c :: IsLost(group, i, c)
  }

  lemma {:induction false} PointAndConnector(x: Component, k: Component)
    requires x.parentKey.None? && k.parentKey == Some(x.key) && x.bays == k.bays == [] && '/' !in x.key && x.key + "/" <= k.key
    ensures Sound([x]) && Sound([x, k]) && k.key != x.key
  {
    assert x in [x, k] && k.key[|x.key|] == '/' && '/' in k.key;
  }

  /** A connector can be lost: its charge point is taken for one the first location lists without it. */
  lemma {:induction false} HeldPointLosesConnector()
    ensures exists group :: LosesAConnector(group)
  {
    var x, k := Component("x", None, "evse", Some("e"), None, []), Component("x/1", Some("x"), "connector", None, None, []);
    var first, second := Member("1", "f1", None, [x]), Member("2", "f2", None, [x, k]);
    hide *;
    PointAndConnector(x, k);
    ConnectorLost(first, second, x, k);
  }

  /** A charge point whose key the renames kept for its draft take elsewhere than it went. */
  ghost predicate IsMisplaced(group: seq<Member>, i: nat, c: Component) {
    var (mixed, m) := (Mixed(group), MergeAll(group, Mixed(group)));
    && i < |group| && c in group[i].components && c.parentKey.None? && Lands(m, OwnRenames(group, mixed, i), c)
    && group[i].draftId in m.renamed && Lands(m, m.renamed[group[i].draftId], c)
    && m.renamed[group[i].draftId][c.key] != OwnRenames(group, mixed, i)[c.key]
  }

  ghost predicate MisplacesAPoint(group: seq<Member>) {
    GroupSound(group) && StaysClear(group, Mixed(group)) && exists c :: IsMisplaced(group, 0, c)
  }

  lemma {:induction false} SecondMoves(m: Merge, second: Member, x: Component)
    requires second.components == [x] && x.parentKey.None? && x.emi3.None? && '/' !in x.key && m.taken.Keys == {x.key}
    ensures Fresh(m, second) && x.key in RenamesAt(m, second) && RenamesAt(m, second)[x.key] == Prefixed(second.stationId, x.key) != x.key
  {
    assert Clashes(m.taken, x) && !SamePoint(m.taken, x) && x in [x];
    assert |Prefixed(second.stationId, x.key)| > |x.key|;
    RenamesGive(m, second, x);
    KeyOfTop(MovesOf(m.taken, second.stationId, [x]), x.key);
  }

  lemma {:induction false} SharedDraft(first: Member, second: Member, x: Component)
    requires first.components == second.components == [x] && first.lifecycle == second.lifecycle && first.draftId == second.draftId
    requires Sound([x]) && x.parentKey.None? && x.emi3.None? && x.bays == [] && '/' !in x.key
    ensures MisplacesAPoint([first, second])
  {
    var group := [first, second];
    hide MergeOne, MergeAll, Sound, Mixed, Indexed, RenamesAt;
    MergedFirst(first, second);
    FirstHolds(first, x);
    FirstStays(first, x);
    SecondMoves(MergeAll(group[..1], false), second, x);
    hide Fresh, Prefixed;
    assert IsClearAt(group, false, 0) && IsClearAt(group, false, 1);
    assert group[..2] == group && x in group[0].components && x in group[1].components;
    MergeUpTo(group, false, 2);
    RenamesSurvive(group, false, 1, 2);
    assert IsMisplaced(group, 0, x);
  }

  lemma {:induction false} FirstStays(first: Member, x: Component)
    requires first.components == [x] && '/' !in x.key
    ensures x.key in RenamesAt(Merge([], map[], map[]), first) && RenamesAt(Merge([], map[], map[]), first)[x.key] == x.key
  {
    NothingMoves(first);
    RenamesGive(Merge([], map[], map[]), first, x);
    KeyOfTop(map[], x.key);
  }

  /** Two locations that share a draft id: the first's charge point stays where it is, and the
      renames kept for the draft, the second's, take its key to the second's own. */
  lemma {:induction false} SharedDraftMisplaces()
    ensures exists group :: MisplacesAPoint(group)
  {
    var x, y := Component("x", None, "evse", None, None, []), Component("2:x", None, "evse", None, None, []);
    var first, second := Member("1", "f", None, [x]), Member("2", "f", None, [x]);
    hide *;
    PointsAreSound(x, y);
    SharedDraft(first, second, x);
  }

  /** Without `NoClash` keys can repeat: a location that names a charge point
      `2:x` as the merge would name another's `x`. */
  lemma {:induction false} ClashRepeatsAKey()
    ensures exists group :: GroupSound(group) && !NoClash(group) && !DistinctKeys(MergeAll(group, Mixed(group)).components)
  {
    var x, y := Component("x", None, "evse", None, None, []), Component("2:x", None, "evse", None, None, []);
    var first, second := Member("1", "f1", None, [x, y]), Member("2", "f2", None, [x]);
    hide *;
    PrefixOfTwo();
    PointsAreSound(x, y);
    SecondRepeats(first, second, x, y);
    ClashGroup(first, second, x, y);
    var group := [first, second];
    assert GroupSound(group) && !NoClash(group) && !DistinctKeys(MergeAll(group, Mixed(group)).components);
  }
}
