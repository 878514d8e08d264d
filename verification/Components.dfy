/** The charge points, connectors and bays of several charging locations put
    together under one site: keys two locations share are moved under the later
    one's station id, unless both carry the same eMI3 id. */
module Components {
  import opened Basics

  /** A component: a charge point or bay (no parent) or a connector below a charge
      point. `bays` are the bays a charge point names, by key. */
  datatype Component = Component(
    key: string,
    parentKey: Option<string>,
    kind: string,
    emi3: Option<string>,
    lifecycle: Option<string>,
    bays: seq<string>)

  datatype Member = Member(stationId: string, draftId: string, lifecycle: Option<string>, components: seq<Component>)

  // --- keys ---

  function Underscored(s: string, marks: string): string {
    seq(|s|, i requires 0 <= i < |s| => if s[i] in marks then '_' else s[i])
  }

  function EvseKey(key: string): string { Underscored(Trim(key), "#/") }

  function ConnectorKey(evse: string, connectorId: string): string {
    EvseKey(evse) + "/" + Underscored(Trim(connectorId), "#")
  }

  function BayKey(key: string): string { "bay:" + EvseKey(key) }

  function Prefixed(stationId: string, key: string): string { EvseKey(stationId) + ":" + key }

  /** The part of a key before its first `/`: the charge point's own key. */
  function Head(key: string): (head: string)
    ensures head <= key && '/' !in head
    ensures head == key || key[|head|] == '/'
  {
    if key == "" || key[0] == '/' then "" else [key[0]] + Head(key[1..])
  }

  /** `key` with its charge point's key moved as `keys` say. */
  function KeyOf(keys: map<string, string>, key: string): string {
    if Head(key) in keys then keys[Head(key)] + key[|Head(key)|..] else key
  }

  // --- the merge, member by member ---

  type Taken = map<string, Component>

  /** Whether a component keeps its key, moves, or is one already held. */
  predicate Clashes(taken: Taken, c: Component) { c.parentKey.None? && c.key in taken }

  predicate SamePoint(taken: Taken, c: Component) {
    Clashes(taken, c) && c.emi3.Some? && c.emi3 == taken[c.key].emi3
  }

  function MovesOf(taken: Taken, stationId: string, own: seq<Component>): map<string, string> {
    map c | c in own && Clashes(taken, c) && !SamePoint(taken, c) :: c.key := Prefixed(stationId, c.key)
  }

  function DroppedOf(taken: Taken, own: seq<Component>): set<string> {
    set c | c in own && SamePoint(taken, c) :: c.key
  }

  function Top(c: Component): string { c.parentKey.GetOr(c.key) }

  function Placed(keys: map<string, string>, lifecycle: Option<string>, c: Component): Component {
    Component(
      KeyOf(keys, c.key),
      if c.parentKey.None? then None else Some(KeyOf(keys, c.parentKey.value)),
      c.kind,
      c.emi3,
      if c.kind == "evse" && c.lifecycle.None? then lifecycle else c.lifecycle,
      seq(|c.bays|, i requires 0 <= i < |c.bays| => KeyOf(keys, c.bays[i])))
  }

  /** A member's components as they join the site. */
  function Joining(keys: map<string, string>, dropped: set<string>, lifecycle: Option<string>, own: seq<Component>): seq<Component> {
    if own == [] then []
    else
      var n := |own| - 1;
      Joining(keys, dropped, lifecycle, own[..n])
      + if Top(own[n]) in dropped then [] else [Placed(keys, lifecycle, own[n])]
  }

  function Adding(taken: Taken, joining: seq<Component>): Taken {
    if joining == [] then taken
    else
      var n := |joining| - 1;
      Adding(taken, joining[..n])[joining[n].key := joining[n]]
  }

  /** Whether the members' lifecycles differ, so a charge point has to state its own. */
  predicate Mixed(group: seq<Member>) {
    exists i :: 0 <= i < |group| && group[i].lifecycle != group[0].lifecycle
  }

  datatype Merge = Merge(components: seq<Component>, taken: Taken, renamed: map<string, map<string, string>>)

  /** Where each of a member's keys went. */
  function Renames(keys: map<string, string>, own: seq<Component>): map<string, string> {
    map c | c in own :: c.key := KeyOf(keys, c.key)
  }

  function MergeOne(m: Merge, member: Member, mixed: bool): Merge {
    var own := member.components;
    var keys := MovesOf(m.taken, member.stationId, own);
    var joining := Joining(keys, DroppedOf(m.taken, own), if mixed then member.lifecycle else None, own);
    Merge(
      m.components + joining,
      Adding(m.taken, joining),
      m.renamed[member.draftId := Renames(keys, own)])
  }

  function MergeAll(group: seq<Member>, mixed: bool): Merge {
    if group == [] then Merge([], map[], map[])
    else MergeOne(MergeAll(group[..|group| - 1], mixed), group[|group| - 1], mixed)
  }

  lemma {:induction false} MovesNext(taken: Taken, stationId: string, own: seq<Component>, c: Component)
    ensures var moves, all := MovesOf(taken, stationId, own), MovesOf(taken, stationId, own + [c]);
      all == if Clashes(taken, c) && !SamePoint(taken, c) then moves[c.key := Prefixed(stationId, c.key)] else moves
    ensures DroppedOf(taken, own + [c]) == DroppedOf(taken, own) + if SamePoint(taken, c) then {c.key} else {}
  {
  }

  lemma {:induction false} JoiningNext(keys: map<string, string>, dropped: set<string>, lifecycle: Option<string>, own: seq<Component>, n: nat)
    requires n < |own|
    ensures var before := Joining(keys, dropped, lifecycle, own[..n]);
      Joining(keys, dropped, lifecycle, own[..n + 1])
      == if Top(own[n]) in dropped then before else before + [Placed(keys, lifecycle, own[n])]
  {
    hide Top, Placed;
    assert own[..n + 1][..n] == own[..n];
  }

  lemma {:induction false} AddingNext(taken: Taken, joining: seq<Component>, c: Component)
    ensures Adding(taken, joining + [c]) == Adding(taken, joining)[c.key := c]
  {
  }

  method FindMoves(taken: Taken, stationId: string, own: seq<Component>) returns (keys: map<string, string>, dropped: set<string>)
    ensures keys == MovesOf(taken, stationId, own) && dropped == DroppedOf(taken, own)
  {
    keys, dropped := map[], {};
    for i := 0 to |own|
      invariant keys == MovesOf(taken, stationId, own[..i])
      invariant dropped == DroppedOf(taken, own[..i])
    {
      hide MovesOf, DroppedOf, Prefixed;
      var c := own[i];
      assert own[..i + 1] == own[..i] + [c];
      MovesNext(taken, stationId, own[..i], c);
      if c.parentKey.None? && c.key in taken {
        if c.emi3.Some? && c.emi3 == taken[c.key].emi3 {
          dropped := dropped + {c.key};
        } else {
          keys := keys[c.key := Prefixed(stationId, c.key)];
        }
      }
    }
    assert own[..|own|] == own;
  }

  method Join(taken: Taken, keys: map<string, string>, dropped: set<string>, lifecycle: Option<string>, own: seq<Component>)
    returns (joining: seq<Component>, after: Taken)
    ensures joining == Joining(keys, dropped, lifecycle, own) && after == Adding(taken, joining)
  {
    joining, after := [], taken;
    for j := 0 to |own|
      invariant joining == Joining(keys, dropped, lifecycle, own[..j])
      invariant after == Adding(taken, joining)
    {
      hide Joining, Adding, Placed, Top;
      JoiningNext(keys, dropped, lifecycle, own, j);
      if Top(own[j]) !in dropped {
        var component := Placed(keys, lifecycle, own[j]);
        AddingNext(taken, joining, component);
        after := after[component.key := component];
        joining := joining + [component];
      }
    }
    assert own[..|own|] == own;
  }

  method MergeComponents(group: seq<Member>) returns (components: seq<Component>, renamed: map<string, map<string, string>>)
    ensures components == MergeAll(group, Mixed(group)).components
    ensures renamed == MergeAll(group, Mixed(group)).renamed
  {
    hide Joining, Adding, MovesOf, DroppedOf, Renames, Mixed;
    components, renamed := [], map[];
    var taken: Taken := map[];
    var mixed := Mixed(group);
    for i := 0 to |group|
      invariant Merge(components, taken, renamed) == MergeAll(group[..i], mixed)
    {
      var member := group[i];
      assert group[..i + 1][..i] == group[..i];
      var keys, dropped := FindMoves(taken, member.stationId, member.components);
      var joining, after := Join(taken, keys, dropped, if mixed then member.lifecycle else None, member.components);
      components, taken := components + joining, after;
      renamed := renamed[member.draftId := Renames(keys, member.components)];
    }
    assert group[..|group|] == group;
  }
}
