/** The minimap's coordinate mapping and how many trail segments it draws. */
module Minimap {
  import opened Numerics
  import opened Vec

  /** `worldToMinimap`: arena coordinates as fractions of the arena half-size; the centre for a degenerate arena. */
  function WorldToMinimap(pos: Vec2, arenaHalf: real): (r: Vec2)
    ensures arenaHalf <= 0.0 ==> r == Vec2(0.0, 0.0)
    ensures arenaHalf > 0.0 ==> r.x * arenaHalf == pos.x && r.y * arenaHalf == pos.y
  {
    if arenaHalf <= 0.0 then Vec2(0.0, 0.0) else Vec2(pos.x / arenaHalf, pos.y / arenaHalf)
  }

  /** Scaling back by the half-size recovers the arena point. */
  lemma MinimapRoundTrip(pos: Vec2, arenaHalf: real)
    requires arenaHalf > 0.0
    ensures Scale(WorldToMinimap(pos, arenaHalf), arenaHalf) == pos
  {
  }

  /** A coordinate within the half-size maps into [-1, 1]. */
  lemma UnitFraction(v: real, h: real)
    requires h > 0.0 && -h <= v <= h
    ensures -1.0 <= v / h <= 1.0
  {
    var f := v / h;
    assert f * h == v;
    if f > 1.0 {
      MulPos(f - 1.0, h);
    }
    if f < -1.0 {
      MulPos(-1.0 - f, h);
    }
  }

  /** Points of the arena's bounding square land in the unit square. */
  lemma InsideArenaInsideMap(pos: Vec2, arenaHalf: real)
    requires arenaHalf > 0.0 && Abs(pos.x) <= arenaHalf && Abs(pos.y) <= arenaHalf
    ensures var r := WorldToMinimap(pos, arenaHalf);
      -1.0 <= r.x <= 1.0 && -1.0 <= r.y <= 1.0
  {
    UnitFraction(pos.x, arenaHalf);
    UnitFraction(pos.y, arenaHalf);
  }

  /** The most trail segments the minimap draws per refresh. */
  const MaxTrailDraw: nat := 420

  /** The draw stride: the fewest trails to skip so that at most 420 are drawn, and at least one. */
  function TrailStride(n: nat): (step: nat)
    ensures step >= 1 && step * MaxTrailDraw >= n
    // and it is the least such stride
    ensures step == 1 || (step - 1) * MaxTrailDraw < n
  {
    var c := Ceil(n as real / MaxTrailDraw as real);
    assert c as real * 420.0 >= n as real;
    assert (c - 1) as real * 420.0 < n as real;
    if c >= 1 then c else 1
  }

  /** The indices `i = from, from + step, ...` below `n` that the draw loop visits. */
  function Drawn(n: nat, step: nat, from: nat): (r: seq<nat>)
    requires step >= 1
    ensures forall k :: 0 <= k < |r| ==> r[k] == from + k * step && r[k] < n
    decreases n - from
  {
    if from >= n then [] else [from] + Drawn(n, step, from + step)
  }

  /** The loop visits every index below `n` that it can reach, and stops right after the last. */
  lemma {:induction false} DrawnReachesEnd(n: nat, step: nat, from: nat)
    requires step >= 1
    ensures from + |Drawn(n, step, from)| * step >= n
    decreases n - from
  {
    if from < n {
      DrawnReachesEnd(n, step, from + step);
      var k := |Drawn(n, step, from + step)|;
      assert (from + step) + k * step == from + (k + 1) * step;
    }
  }

  /** At the chosen stride the minimap draws at most 420 segments, and the first one whenever there is one. */
  lemma AtMostMaxDrawn(n: nat)
    ensures |Drawn(n, TrailStride(n), 0)| <= MaxTrailDraw
    ensures n > 0 ==> |Drawn(n, TrailStride(n), 0)| > 0 && Drawn(n, TrailStride(n), 0)[0] == 0
  {
    var step := TrailStride(n);
    var d := Drawn(n, step, 0);
    if |d| > MaxTrailDraw {
      var last := |d| - 1;
      assert d[last] == last * step < n;
      assert last >= MaxTrailDraw;
      MulMonotone(MaxTrailDraw, last, step);
    }
  }

  lemma MulMonotone(a: nat, b: nat, c: nat)
    requires a <= b
    ensures a * c <= b * c
  {
  }

  lemma MinimapExample()
    ensures WorldToMinimap(Vec2(50.0, 0.0), 100.0) == Vec2(0.5, 0.0)
    ensures TrailStride(420) == 1 && TrailStride(421) == 2 && TrailStride(0) == 1
  {
  }
}
