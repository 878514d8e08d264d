/** The groups of charging locations that are one site each. Taken in order, a
    location goes to the earliest group all of which stands together with it, or
    begins one of its own; the groups are looked up through a grid of cells. Which
    two locations stand together (15 m apart at most, house numbers not different),
    how many columns a search spans at a latitude and the order of station ids are
    left abstract. */
module Grouping {
  import opened Basics

  datatype Place = Place(stationId: string, lon: real, lat: real, houseNumber: Option<string>)

  type Together = (Place, Place) -> bool
  type Span = real -> nat
  type Order = (Place, Place) -> bool

  /** The height of a cell in degrees: 15 m of latitude. */
  const CELL_DEG := 15.0 / 111195.0

  function Column(p: Place): int { (p.lon / CELL_DEG).Floor }
  function Row(p: Place): int { (p.lat / CELL_DEG).Floor }

  /** Whether the search around `p` looks into the cell of `a`. */
  predicate InWindow(a: Place, p: Place, span: Span) {
    && -(span(p.lat) as int) <= Column(a) - Column(p) <= span(p.lat)
    && -1 <= Row(a) - Row(p) <= 1
  }

  predicate Joins(group: seq<Place>, p: Place, together: Together) {
    forall a :: a in group ==> together(a, p)
  }

  predicate Found(group: seq<Place>, p: Place, span: Span) {
    exists a :: a in group && InWindow(a, p, span)
  }

  /** The first group `p` joins, among all of them or, with `grid`, among those the
      search finds; the number of groups if there is none. */
  function Choose(groups: seq<seq<Place>>, p: Place, together: Together, span: Span, grid: bool): nat {
    if groups == [] then 0
    else if Joins(groups[0], p, together) && (grid ==> Found(groups[0], p, span)) then 0
    else 1 + Choose(groups[1..], p, together, span, grid)
  }

  function Put(groups: seq<seq<Place>>, k: nat, p: Place): seq<seq<Place>> {
    if k < |groups| then groups[k := groups[k] + [p]] else groups + [[p]]
  }

  /** First fit over places in the order given. */
  function Groups(places: seq<Place>, together: Together, span: Span, grid: bool): seq<seq<Place>> {
    if places == [] then []
    else
      var n := |places| - 1;
      var groups := Groups(places[..n], together, span, grid);
      Put(groups, Choose(groups, places[n], together, span, grid), places[n])
  }

  // --- the search through the grid ---

  type Cells = map<(int, int), seq<nat>>

  predicate Listed(cells: Cells, x: int, y: int, g: nat) { (x, y) in cells && g in cells[(x, y)] }

  ghost predicate Occupies(group: seq<Place>, x: int, y: int) {
    exists a :: a in group && Column(a) == x && Row(a) == y
  }

  /** Each cell lists the groups with a member in it. */
  ghost predicate Indexes(cells: Cells, groups: seq<seq<Place>>) {
    forall x, y, g: nat :: Listed(cells, x, y, g) <==> g < |groups| && Occupies(groups[g], x, y)
  }

  /** Some cell of column `x` in the rows `y0` to `y1`, the last left out, lists `g`. */
  ghost predicate InColumn(cells: Cells, x: int, y0: int, y1: int, g: nat) {
    exists y :: y0 <= y < y1 && Listed(cells, x, y, g)
  }

  ghost predicate ListedIn(cells: Cells, x0: int, x1: int, y0: int, y1: int, g: nat) {
    exists x :: x0 <= x < x1 && InColumn(cells, x, y0, y1, g)
  }

  method Near(cells: Cells, x: int, y: int, span: nat) returns (near: set<nat>)
    ensures forall g :: g in near <==> ListedIn(cells, x - span, x + span + 1, y - 1, y + 2, g)
  {
    near := {};
    var cx, right := x - span, x + span + 1;
    ghost var low, high := y - 1, y + 2;
    while cx < right
      invariant x - span <= cx <= right
      invariant forall g :: g in near <==> ListedIn(cells, x - span, cx, low, high, g)
    {
      ghost var before := near;
      var cy := y - 1;
      while cy < y + 2
        invariant low <= cy <= high
        invariant forall g :: g in near <==> g in before || InColumn(cells, cx, low, cy, g)
      {
        if (cx, cy) in cells {
          near := near + set g | g in cells[(cx, cy)];
        }
        assert forall g :: g in near <==> g in before || InColumn(cells, cx, low, cy, g) || Listed(cells, cx, cy, g);
        cy := cy + 1;
      }
      cx := cx + 1;
    }
  }

  /** The lowest of `near` that `p` joins, or `none`. */
  method Earliest(groups: seq<seq<Place>>, near: set<nat>, p: Place, together: Together, none: nat) returns (k: nat)
    requires forall g :: g in near ==> g < |groups| <= none
    ensures k == none || (k in near && Joins(groups[k], p, together))
    ensures forall g :: g in near && Joins(groups[g], p, together) ==> k <= g
  {
    k := none;
    var left := near;
    while left != {}
      invariant left <= near
      invariant k == none || (k in near && Joins(groups[k], p, together))
      invariant forall g :: g in near - left && Joins(groups[g], p, together) ==> k <= g
      decreases left
    {
      var g :| g in left;
      left := left - {g};
      if Joins(groups[g], p, together) && g < k {
        k := g;
      }
    }
  }

  lemma {:induction false} ChooseIsFirst(groups: seq<seq<Place>>, p: Place, together: Together, span: Span, grid: bool, k: nat)
    requires k <= |groups|
    requires k < |groups| ==> Joins(groups[k], p, together) && (grid ==> Found(groups[k], p, span))
    requires forall g :: 0 <= g < k ==> !(Joins(groups[g], p, together) && (grid ==> Found(groups[g], p, span)))
    ensures Choose(groups, p, together, span, grid) == k
  {
    if k > 0 {
      ChooseIsFirst(groups[1..], p, together, span, grid, k - 1);
    }
  }

  method GroupsOf(members: seq<Place>, le: Order, together: Together, span: Span) returns (groups: seq<seq<Place>>)
    ensures groups == Groups(Sort(le, members), together, span, true)
  {
    var sorted := Sort(le, members);
    groups := [];
    var cells: Cells := map[];
    for i := 0 to |sorted|
      invariant groups == Groups(sorted[..i], together, span, true)
      invariant Indexes(cells, groups)
    {
      var p := sorted[i];
      var x, y := Column(p), Row(p);
      var near := Near(cells, x, y, span(p.lat));
      NearIsFound(cells, groups, p, span, near);
      var k := Earliest(groups, near, p, together, |groups|);
      ChooseIsFirst(groups, p, together, span, true, k);
      assert sorted[..i + 1][..i] == sorted[..i];
      var inCell := if (x, y) in cells then cells[(x, y)] else [];
      PutIndexes(cells, groups, k, p);
      groups := Put(groups, k, p);
      if k !in inCell {
        cells := cells[(x, y) := inCell + [k]];
      }
    }
    assert sorted[..|sorted|] == sorted;
  }

  lemma {:induction false} NearIsFound(cells: Cells, groups: seq<seq<Place>>, p: Place, span: Span, near: set<nat>)
    requires Indexes(cells, groups)
    requires forall g :: g in near <==>
      ListedIn(cells, Column(p) - span(p.lat), Column(p) + span(p.lat) + 1, Row(p) - 1, Row(p) + 2, g)
    ensures forall g :: g in near <==> 0 <= g < |groups| && Found(groups[g], p, span)
  {
    forall g: nat | g < |groups| && Found(groups[g], p, span) ensures g in near {
      var a :| a in groups[g] && InWindow(a, p, span);
      assert Occupies(groups[g], Column(a), Row(a));
      assert Listed(cells, Column(a), Row(a), g);
      assert InColumn(cells, Column(a), Row(p) - 1, Row(p) + 2, g);
    }
  }

  lemma {:induction false} PutIndexes(cells: Cells, groups: seq<seq<Place>>, k: nat, p: Place)
    requires Indexes(cells, groups) && k <= |groups|
    ensures var key := (Column(p), Row(p));
      var inCell := if key in cells then cells[key] else [];
      Indexes(if k in inCell then cells else cells[key := inCell + [k]], Put(groups, k, p))
  {
    var key := (Column(p), Row(p));
    var inCell := if key in cells then cells[key] else [];
    var cells', groups' := if k in inCell then cells else cells[key := inCell + [k]], Put(groups, k, p);
    forall x, y, g: nat
      ensures Listed(cells', x, y, g) <==> g < |groups'| && Occupies(groups'[g], x, y)
    {
      assert Listed(cells', x, y, g) <==> Listed(cells, x, y, g) || ((x, y) == key && g == k);
      if g == k {
        var old_ := if k < |groups| then groups[k] else [];
        assert groups'[k] == old_ + [p];
        assert Occupies(groups'[k], x, y) <==> Occupies(old_, x, y) || (x, y) == key by {
          if (x, y) == key { assert p in groups'[k]; }
        }
      }
    }
  }

  // --- what the groups are ---

  ghost predicate WindowCovers(places: seq<Place>, together: Together, span: Span) {
    forall i, j :: 0 <= i < j < |places| && together(places[i], places[j]) ==> InWindow(places[i], places[j], span)
  }

  ghost predicate From(groups: seq<seq<Place>>, places: seq<Place>) {
    forall k :: 0 <= k < |groups| ==> groups[k] != [] && forall a :: a in groups[k] ==> a in places
  }

  lemma {:induction false} GroupsCome(places: seq<Place>, together: Together, span: Span, grid: bool)
    ensures From(Groups(places, together, span, grid), places)
  {
    if places != [] {
      var n := |places| - 1;
      GroupsCome(places[..n], together, span, grid);
    }
  }

  lemma {:induction false} SameChoice(groups: seq<seq<Place>>, p: Place, together: Together, span: Span)
    requires forall k :: 0 <= k < |groups| ==> groups[k] != []
    requires forall k, a :: 0 <= k < |groups| && a in groups[k] && together(a, p) ==> InWindow(a, p, span)
    ensures Choose(groups, p, together, span, true) == Choose(groups, p, together, span, false)
  {
    if groups != [] {
      assert groups[0][0] in groups[0];
      forall k, a | 0 <= k < |groups[1..]| && a in groups[1..][k] && together(a, p) ensures InWindow(a, p, span) {
        assert a in groups[k + 1];
      }
      SameChoice(groups[1..], p, together, span);
    }
  }

  /** The grid finds what first fit over all groups finds, if no two locations that
      stand together lie further apart than the search reaches. */
  lemma {:induction false} GridRefinesFirstFit(places: seq<Place>, together: Together, span: Span)
    requires WindowCovers(places, together, span)
    ensures Groups(places, together, span, true) == Groups(places, together, span, false)
  {
    if places != [] {
      var n := |places| - 1;
      GridRefinesFirstFit(places[..n], together, span);
      var groups := Groups(places[..n], together, span, true);
      GroupsCome(places[..n], together, span, true);
      forall k, a | 0 <= k < |groups| && a in groups[k] && together(a, places[n]) ensures InWindow(a, places[n], span) {
        var i :| 0 <= i < n && places[..n][i] == a;
        assert together(places[i], places[n]);
      }
      SameChoice(groups, places[n], together, span);
    }
  }

  /** And only then: over all lists in id order, the grid is first fit exactly if
      the search reaches from every later location to every earlier one it stands
      together with. */
  lemma {:induction false} GridExactly(le: Order, together: Together, span: Span)
    ensures (forall places :: SortedBy(le, places) ==> Groups(places, together, span, true) == Groups(places, together, span, false))
       <==> (forall a, b :: le(a, b) && together(a, b) ==> InWindow(a, b, span))
  {
    if forall places :: SortedBy(le, places) ==> Groups(places, together, span, true) == Groups(places, together, span, false) {
      forall a, b | le(a, b) && together(a, b) ensures InWindow(a, b, span) {
        assert SortedBy(le, [a, b]);
        PairGroups(a, b, together, span);
      }
    }
    if forall a, b :: le(a, b) && together(a, b) ==> InWindow(a, b, span) {
      forall places | SortedBy(le, places) ensures Groups(places, together, span, true) == Groups(places, together, span, false) {
        GridRefinesFirstFit(places, together, span);
      }
    }
  }

  lemma {:induction false} PairGroups(a: Place, b: Place, together: Together, span: Span)
    requires together(a, b)
    ensures Groups([a, b], together, span, false) == [[a, b]]
    ensures Groups([a, b], together, span, true) == if InWindow(a, b, span) then [[a, b]] else [[a], [b]]
  {
    assert [a, b][..1] == [a] && [a][..0] == [];
    assert forall grid :: Groups([a], together, span, grid) == [[a]];
    assert [a] + [b] == [a, b];
  }

  /** Two points on either side of the 180th meridian, metres apart, are never found
      by the grid, as no search spans more than a hundred columns. */
  lemma {:induction false} AntimeridianSplits(a: Place, b: Place, together: Together, span: Span)
    requires together(a, b) && span(b.lat) <= 100
    requires 179.9 <= a.lon <= 180.0 && -180.0 <= b.lon <= -179.9
    ensures Groups([a, b], together, span, true) != Groups([a, b], together, span, false)
  {
    PairGroups(a, b, together, span);
    assert a.lon / CELL_DEG - b.lon / CELL_DEG == (a.lon - b.lon) / CELL_DEG;
    assert (a.lon - b.lon) / CELL_DEG >= 102.0;
  }

  /** Away from it the search does reach: a latitude within a cell's height and a
      longitude within `span` cells put two locations in the window. */
  lemma {:induction false} DegreesInWindow(a: Place, b: Place, span: Span)
    requires -15.0 <= (a.lat - b.lat) * 111195.0 <= 15.0
    requires -(span(b.lat) as real * 15.0) <= (a.lon - b.lon) * 111195.0 <= span(b.lat) as real * 15.0
    ensures InWindow(a, b, span)
  {
  }

  /** And a cell is no higher or wider: two locations in one are less than 15 m apart, at 111195 m a degree. */
  lemma {:induction false} CellsAreSmall(a: Place, b: Place)
    ensures Row(a) == Row(b) ==> -15.0 < (a.lat - b.lat) * 111195.0 < 15.0
    ensures Column(a) == Column(b) ==> -15.0 < (a.lon - b.lon) * 111195.0 < 15.0
  {
  }

  function Flatten(groups: seq<seq<Place>>): seq<Place> {
    if groups == [] then [] else Flatten(groups[..|groups| - 1]) + groups[|groups| - 1]
  }

  lemma {:induction false} PutFlattens(groups: seq<seq<Place>>, k: nat, p: Place)
    requires k <= |groups|
    ensures multiset(Flatten(Put(groups, k, p))) == multiset(Flatten(groups)) + multiset{p}
  {
    var n := |groups|;
    if k == n {
      assert Put(groups, k, p)[..n] == groups;
    } else if k == n - 1 {
      assert Put(groups, k, p)[..n - 1] == groups[..n - 1];
    } else {
      PutFlattens(groups[..n - 1], k, p);
      assert Put(groups, k, p)[..n - 1] == Put(groups[..n - 1], k, p);
    }
  }

  lemma {:induction false} OneMorePlace(places: seq<Place>, n: nat)
    requires |places| == n + 1
    ensures multiset(places) == multiset(places[..n]) + multiset{places[n]}
  {
    assert places == places[..n] + [places[n]];
  }

  lemma {:induction false} NextPartition(groups: seq<seq<Place>>, p: Place, together: Together, span: Span, grid: bool)
    ensures multiset(Flatten(Put(groups, Choose(groups, p, together, span, grid), p))) == multiset(Flatten(groups)) + multiset{p}
  {
    hide *;
    ChooseInRange(groups, p, together, span, grid);
    PutFlattens(groups, Choose(groups, p, together, span, grid), p);
  }

  /** Every location is in exactly one group, as often as it was listed. */
  lemma {:induction false} GroupsPartition(places: seq<Place>, together: Together, span: Span, grid: bool)
    ensures multiset(Flatten(Groups(places, together, span, grid))) == multiset(places)
  {
    if places != [] {
      var n := |places| - 1;
      hide Choose, Put, Flatten;
      GroupsPartition(places[..n], together, span, grid);
      NextPartition(Groups(places[..n], together, span, grid), places[n], together, span, grid);
      OneMorePlace(places, n);
    }
  }

  lemma {:induction false} ChooseInRange(groups: seq<seq<Place>>, p: Place, together: Together, span: Span, grid: bool)
    ensures var k := Choose(groups, p, together, span, grid);
      && k <= |groups| && (k < |groups| ==> Joins(groups[k], p, together))
      && (!grid ==> forall g :: 0 <= g < k ==> !Joins(groups[g], p, together))
  {
    if groups != [] {
      ChooseInRange(groups[1..], p, together, span, grid);
    }
  }

  /** No group stretches: each member stands together with every one that joined before it. */
  ghost predicate PairwiseTogether(group: seq<Place>, together: Together) {
    forall i, j :: 0 <= i < j < |group| ==> together(group[i], group[j])
  }

  /** Each member of a later group stands apart from someone in every earlier one. */
  ghost predicate KeptApart(groups: seq<seq<Place>>, together: Together) {
    forall k, l, b :: 0 <= k < l < |groups| && b in groups[l] ==> !Joins(groups[k], b, together)
  }

  /** Members joined in id order, so a group's lead has its lowest id, and groups are in the order of their leads. */
  ghost predicate LedInOrder(groups: seq<seq<Place>>, le: Order) {
    && (forall k :: 0 <= k < |groups| ==> groups[k] != [] && SortedBy(le, groups[k]))
    && (forall k, l :: 0 <= k < l < |groups| ==> groups[k] != [] && groups[l] != [] && le(groups[k][0], groups[l][0]))
  }

  lemma {:induction false} GroupsStandTogether(places: seq<Place>, together: Together, span: Span, grid: bool, le: Order)
    requires SortedBy(le, places)
    ensures var groups := Groups(places, together, span, grid);
      && (forall k :: 0 <= k < |groups| ==> PairwiseTogether(groups[k], together))
      && LedInOrder(groups, le)
      && (!grid ==> KeptApart(groups, together))
  {
    if places != [] {
      var n := |places| - 1;
      var p := places[n];
      GroupsStandTogether(places[..n], together, span, grid, le);
      GroupsCome(places[..n], together, span, grid);
      var groups := Groups(places[..n], together, span, grid);
      var k := Choose(groups, p, together, span, grid);
      ChooseInRange(groups, p, together, span, grid);
      forall g, a | 0 <= g < |groups| && a in groups[g] ensures le(a, p) {
        var i :| 0 <= i < n && places[..n][i] == a;
      }
      PutKeepsOrder(groups, k, p, le);
      if !grid {
        PutKeepsApart(groups, k, p, together);
      }
    }
  }

  lemma {:induction false} PutKeepsOrder(groups: seq<seq<Place>>, k: nat, p: Place, le: Order)
    requires LedInOrder(groups, le) && k <= |groups|
    requires forall g, a :: 0 <= g < |groups| && a in groups[g] ==> le(a, p)
    ensures LedInOrder(Put(groups, k, p), le)
  {
  }

  lemma {:induction false} PutKeepsApart(groups: seq<seq<Place>>, k: nat, p: Place, together: Together)
    requires KeptApart(groups, together) && k <= |groups|
    requires forall g :: 0 <= g < k ==> !Joins(groups[g], p, together)
    ensures KeptApart(Put(groups, k, p), together)
  {
  }
}
