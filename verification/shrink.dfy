/** The shrinking arena: its half-size as a function of time. */
module Shrink {
  import opened Numerics

  /**
    `arenaHalfAt`: the full half-size up to `start`, the shrunken one from
    `end` on, and a linear blend in between.
   */
  function ArenaHalfAt(time: real, half: real, start: real, end: real, shrinkTo: real): (r: real)
    ensures time <= start ==> r == half
    ensures time > start && time >= end ==> r == half * shrinkTo
    // the half-size never leaves the range between the two extremes
    ensures Between(half, r, half * shrinkTo)
  {
    if time <= start then
      half
    else if time >= end then
      half * shrinkTo
    else
      var t := (time - start) / (end - start);
      RatioInUnit(time - start, end - start);
      Lerp(half, half * shrinkTo, t);
      half + (half * shrinkTo - half) * t
  }

  /** A non-negative arena that shrinks (`shrinkTo <= 1`) never grows back. */
  lemma ArenaNeverGrows(t1: real, t2: real, half: real, start: real, end: real, shrinkTo: real)
    requires t1 <= t2 && half >= 0.0 && shrinkTo <= 1.0
    ensures ArenaHalfAt(t2, half, start, end, shrinkTo) <= ArenaHalfAt(t1, half, start, end, shrinkTo)
  {
    var r1 := ArenaHalfAt(t1, half, start, end, shrinkTo);
    var r2 := ArenaHalfAt(t2, half, start, end, shrinkTo);
    assert half * shrinkTo <= half by {
      MulNonNeg(half, 1.0 - shrinkTo);
    }
    if t1 <= start || (t2 > start && t2 >= end) {
    } else {
      var a := (t1 - start) / (end - start);
      var b := (t2 - start) / (end - start);
      DivMonotone(t1 - start, t2 - start, end - start);
      ScaleNonPositive(half * shrinkTo - half, a, b);
    }
  }

  /** With the shipped schedule the 50-unit half-size shrinks to 20 between 20 s and 60 s. */
  lemma ShippedSchedule()
    ensures ArenaHalfAt(0.0, 50.0, 20.0, 60.0, 0.4) == 50.0
    ensures ArenaHalfAt(40.0, 50.0, 20.0, 60.0, 0.4) == 35.0
    ensures ArenaHalfAt(60.0, 50.0, 20.0, 60.0, 0.4) == 20.0
    ensures ArenaHalfAt(90.0, 50.0, 20.0, 60.0, 0.4) == 20.0
  {
  }
}
