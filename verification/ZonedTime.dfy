/** The instant a wall-clock time names in a time zone. How far the zone is ahead
    of UTC at each instant is left abstract; instants, wall-clock times and offsets
    are milliseconds. */
module ZonedTime {

  type Offsets = int -> int

  /** Two steps: the offset at the wall time read as UTC, then the offset there. */
  function ZonedInstant(offset: Offsets, wall: int): int {
    var guess := wall - offset(wall);
    wall - offset(guess)
  }

  /** The zone's clocks show `wall` at `at`. */
  predicate Shows(offset: Offsets, at: int, wall: int) { at + offset(at) == wall }

  /** Near `wall`, as far as offsets reach, the zone changes its offset at most once:
      from `a` to `b` at `change`. */
  ghost predicate OneChange(offset: Offsets, wall: int, reach: nat, change: int, a: int, b: int) {
    && (forall t :: -(reach as int) <= offset(t) <= reach)
    && (forall t :: wall - reach <= t <= wall + reach ==> offset(t) == if t < change then a else b)
  }

  /** The result shows the wall time whenever some instant does; in the hour a change
      skips nothing does. */
  lemma {:induction false} FindsTheTime(offset: Offsets, wall: int, reach: nat, change: int, a: int, b: int)
    requires OneChange(offset, wall, reach, change, a, b)
    ensures Shows(offset, ZonedInstant(offset, wall), wall) <==> exists at :: Shows(offset, at, wall)
  {
  }

  /** In the hour a change repeats, the result is the first of the two instants
      exactly if the change comes after the wall time read as UTC. */
  lemma {:induction false} FirstOfTwoExactly(offset: Offsets, wall: int, reach: nat, change: int, a: int, b: int)
    requires OneChange(offset, wall, reach, change, a, b)
    requires -(reach as int) <= a <= reach && -(reach as int) <= b <= reach
    requires wall - a < change <= wall - b
    ensures Shows(offset, wall - a, wall) && Shows(offset, wall - b, wall) && wall - a < wall - b
    ensures ZonedInstant(offset, wall) == wall - a <==> wall < change
    ensures ZonedInstant(offset, wall) == wall - b <==> change <= wall
  {
  }

  /** So it is the first wherever the zone is never ahead of UTC, and the second
      wherever it is not behind after the change: east of UTC the promise of the
      first fails. */
  lemma {:induction false} EastAndWest(offset: Offsets, wall: int, reach: nat, change: int, a: int, b: int)
    requires OneChange(offset, wall, reach, change, a, b)
    requires -(reach as int) <= a <= reach && -(reach as int) <= b <= reach
    requires wall - a < change <= wall - b
    ensures a <= 0 ==> ZonedInstant(offset, wall) == wall - a
    ensures b >= 0 ==> ZonedInstant(offset, wall) == wall - b
  {
  }

  /** Central European Time on 26 October 2025: 02:30 names the second 02:30. */
  lemma {:induction false} EuropeTakesTheSecond()
    ensures var hour := 3600000; var change := 1761440400000; var wall := change + 3 * hour / 2;
      var offset := (t: int) => if t < change then 2 * hour else hour;
      && Shows(offset, change - hour / 2, wall) && Shows(offset, change + hour / 2, wall)
      && ZonedInstant(offset, wall) == change + hour / 2
  {
  }
}
