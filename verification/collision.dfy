/**
  Collision tests of a move against trail segments and the arena wall.

  A move hits a trail when the two segments cross at a single point; parallel
  (including collinear, overlapping) segments never count. A trail is exempt
  while it is not yet solid, and the mover's own trail is exempt for a grace
  period after it was laid.
 */
module Collision {
  import opened Numerics
  import opened Vec
  import opened Types

  function Cross(a: Vec2, b: Vec2): real {
    a.x * b.y - a.y * b.x
  }

  function Sub(a: Vec2, b: Vec2): Vec2 {
    Vec2(a.x - b.x, a.y - b.y)
  }

  /** The closed intervals `[aMin, aMax]` and `[bMin, bMax]` share a point. */
  predicate Overlap(aMin: real, aMax: real, bMin: real, bMax: real) {
    !(aMax < bMin || bMax < aMin)
  }

  /** The point a fraction `t` of the way from `p` to `q`. */
  function PointAt(p: Vec2, q: Vec2, t: real): Vec2 {
    Vec2(p.x + (q.x - p.x) * t, p.y + (q.y - p.y) * t)
  }

  /** Segment `p1 p2` at parameter `t` and segment `q1 q2` at `u` are the same point. */
  predicate CommonPoint(p1: Vec2, p2: Vec2, q1: Vec2, q2: Vec2, t: real, u: real) {
    0.0 <= t <= 1.0 && 0.0 <= u <= 1.0 && PointAt(p1, p2, t) == PointAt(q1, q2, u)
  }

  /** Cramer's rule for `t * r - u * s == w`: the solution it gives is one. */
  lemma CramerSolves(rx: real, ry: real, sx: real, sy: real, wx: real, wy: real)
    requires rx * sy - ry * sx != 0.0
    ensures var d := rx * sy - ry * sx;
      var t := (wx * sy - wy * sx) / d;
      var u := (wx * ry - wy * rx) / d;
      t * rx - u * sx == wx && t * ry - u * sy == wy
  {
    var d := rx * sy - ry * sx;
    var nt := wx * sy - wy * sx;
    var nu := wx * ry - wy * rx;
    var t := nt / d;
    var u := nu / d;
    assert t * d == nt;
    assert u * d == nu;
    assert (t * rx - u * sx) * d == rx * nt - sx * nu;
    assert rx * nt - sx * nu == wx * d;
    assert (t * ry - u * sy) * d == ry * nt - sy * nu;
    assert ry * nt - sy * nu == wy * d;
  }

  /** ... and it is the only one. */
  lemma CramerUnique(rx: real, ry: real, sx: real, sy: real, wx: real, wy: real, t: real, u: real)
    requires rx * sy - ry * sx != 0.0
    requires t * rx - u * sx == wx && t * ry - u * sy == wy
    ensures var d := rx * sy - ry * sx;
      t == (wx * sy - wy * sx) / d && u == (wx * ry - wy * rx) / d
  {
    var d := rx * sy - ry * sx;
    assert wx * sy - wy * sx == t * d;
    assert wx * ry - wy * rx == u * d;
  }

  /** The two points agree exactly when `t * r - u * s == q1 - p1`. */
  lemma PointsAgree(p1: Vec2, p2: Vec2, q1: Vec2, q2: Vec2, t: real, u: real)
    ensures PointAt(p1, p2, t) == PointAt(q1, q2, u)
        <==> (t * (p2.x - p1.x) - u * (q2.x - q1.x) == q1.x - p1.x
              && t * (p2.y - p1.y) - u * (q2.y - q1.y) == q1.y - p1.y)
  {
    CoordAgree(p1.x, p2.x - p1.x, t, q1.x, q2.x - q1.x, u);
    CoordAgree(p1.y, p2.y - p1.y, t, q1.y, q2.y - q1.y, u);
  }

  lemma CoordAgree(a: real, ra: real, t: real, b: real, rb: real, u: real)
    ensures a + ra * t == b + rb * u <==> t * ra - u * rb == b - a
  {
  }

  /** The parameter along `p1 p2` of the crossing with the line through `q1 q2`. */
  function ParamT(p1: Vec2, p2: Vec2, q1: Vec2, q2: Vec2): real
    requires Cross(Sub(p2, p1), Sub(q2, q1)) != 0.0
  {
    Cross(Sub(q1, p1), Sub(q2, q1)) / Cross(Sub(p2, p1), Sub(q2, q1))
  }

  /** The parameter along `q1 q2` of the crossing with the line through `p1 p2`. */
  function ParamU(p1: Vec2, p2: Vec2, q1: Vec2, q2: Vec2): real
    requires Cross(Sub(p2, p1), Sub(q2, q1)) != 0.0
  {
    Cross(Sub(q1, p1), Sub(p2, p1)) / Cross(Sub(p2, p1), Sub(q2, q1))
  }

  /** For non-parallel segments the two parameters name the same point. */
  lemma ParamsMeet(p1: Vec2, p2: Vec2, q1: Vec2, q2: Vec2)
    requires Cross(Sub(p2, p1), Sub(q2, q1)) != 0.0
    ensures PointAt(p1, p2, ParamT(p1, p2, q1, q2)) == PointAt(q1, q2, ParamU(p1, p2, q1, q2))
  {
    var r, s, w := Sub(p2, p1), Sub(q2, q1), Sub(q1, p1);
    var t := ParamT(p1, p2, q1, q2);
    var u := ParamU(p1, p2, q1, q2);
    assert t == Cross(w, s) / Cross(r, s);
    assert u == Cross(w, r) / Cross(r, s);
    CramerVec(r, s, w, t, u);
    PointsAgree(p1, p2, q1, q2, t, u);
  }

  /** `CramerSolves` in vector form. */
  lemma CramerVec(r: Vec2, s: Vec2, w: Vec2, t: real, u: real)
    requires Cross(r, s) != 0.0
    requires t == Cross(w, s) / Cross(r, s) && u == Cross(w, r) / Cross(r, s)
    ensures t * r.x - u * s.x == w.x && t * r.y - u * s.y == w.y
  {
    CramerSolves(r.x, r.y, s.x, s.y, w.x, w.y);
  }

  /** ... and no other pair of parameters does. */
  lemma ParamsUnique(p1: Vec2, p2: Vec2, q1: Vec2, q2: Vec2, t: real, u: real)
    requires Cross(Sub(p2, p1), Sub(q2, q1)) != 0.0
    requires PointAt(p1, p2, t) == PointAt(q1, q2, u)
    ensures t == ParamT(p1, p2, q1, q2) && u == ParamU(p1, p2, q1, q2)
  {
    var r, s, w := Sub(p2, p1), Sub(q2, q1), Sub(q1, p1);
    PointsAgree(p1, p2, q1, q2, t, u);
    CramerUnique(r.x, r.y, s.x, s.y, w.x, w.y, t, u);
  }

  /**
    `segmentsIntersect`: true exactly when the segments are not parallel and
    share a point.
   */
  function SegmentsIntersect(p1: Vec2, p2: Vec2, q1: Vec2, q2: Vec2): (b: bool)
    ensures b <==> Cross(Sub(p2, p1), Sub(q2, q1)) != 0.0
                   && exists t, u :: CommonPoint(p1, p2, q1, q2, t, u)
  {
    var r := Sub(p2, p1);
    var s := Sub(q2, q1);
    var denom := Cross(r, s);
    if denom == 0.0 then
      false
    else
      var t := ParamT(p1, p2, q1, q2);
      var u := ParamU(p1, p2, q1, q2);
      var b := t >= 0.0 && t <= 1.0 && u >= 0.0 && u <= 1.0;
      assert b ==> CommonPoint(p1, p2, q1, q2, t, u) by {
        ParamsMeet(p1, p2, q1, q2);
      }
      assert (exists t', u' :: CommonPoint(p1, p2, q1, q2, t', u')) ==> b by {
        if exists t', u' :: CommonPoint(p1, p2, q1, q2, t', u') {
          var t', u' :| CommonPoint(p1, p2, q1, q2, t', u');
          ParamsUnique(p1, p2, q1, q2, t', u');
        }
      }
      b
  }

  /** A common point of non-parallel segments is a crossing. */
  lemma CrossingFromWitness(p1: Vec2, p2: Vec2, q1: Vec2, q2: Vec2, t: real, u: real)
    requires Cross(Sub(p2, p1), Sub(q2, q1)) != 0.0 && CommonPoint(p1, p2, q1, q2, t, u)
    ensures SegmentsIntersect(p1, p2, q1, q2)
  {
  }

  lemma BetweenMinMax(a: real, b: real, c: real)
    requires Between(a, b, c)
    ensures Min(a, c) <= b <= Max(a, c)
  {
  }

  /** A point of a segment lies in the segment's bounding box. */
  lemma PointInBox(p: Vec2, q: Vec2, t: real)
    requires 0.0 <= t <= 1.0
    ensures var x := PointAt(p, q, t);
      Min(p.x, q.x) <= x.x <= Max(p.x, q.x) && Min(p.y, q.y) <= x.y <= Max(p.y, q.y)
  {
    var x := PointAt(p, q, t);
    Lerp(p.x, q.x, t);
    BetweenMinMax(p.x, x.x, q.x);
    Lerp(p.y, q.y, t);
    BetweenMinMax(p.y, x.y, q.y);
  }

  /** A crossing point lies in the bounding boxes of both segments. */
  lemma CrossingPoint(p1: Vec2, p2: Vec2, q1: Vec2, q2: Vec2) returns (x: Vec2)
    requires SegmentsIntersect(p1, p2, q1, q2)
    ensures Min(p1.x, p2.x) <= x.x <= Max(p1.x, p2.x) && Min(p1.y, p2.y) <= x.y <= Max(p1.y, p2.y)
    ensures Min(q1.x, q2.x) <= x.x <= Max(q1.x, q2.x) && Min(q1.y, q2.y) <= x.y <= Max(q1.y, q2.y)
  {
    var t, u :| CommonPoint(p1, p2, q1, q2, t, u);
    x := PointAt(p1, p2, t);
    PointInBox(p1, p2, t);
    PointInBox(q1, q2, u);
  }

  /** The bounding-box prefilter of `intersectsAny`. */
  predicate BoxesOverlap(prev: Vec2, next: Vec2, trail: TrailSegment) {
    && Overlap(Min(prev.x, next.x), Max(prev.x, next.x),
               Min(trail.start.x, trail.end.x), Max(trail.start.x, trail.end.x))
    && Overlap(Min(prev.y, next.y), Max(prev.y, next.y),
               Min(trail.start.y, trail.end.y), Max(trail.start.y, trail.end.y))
  }

  /** The prefilter never discards a crossing. */
  lemma PrefilterSound(prev: Vec2, next: Vec2, trail: TrailSegment)
    ensures SegmentsIntersect(prev, next, trail.start, trail.end) ==> BoxesOverlap(prev, next, trail)
  {
    if SegmentsIntersect(prev, next, trail.start, trail.end) {
      var x := CrossingPoint(prev, next, trail.start, trail.end);
    }
  }

  datatype HitResult = HitResult(hit: bool, owner: Option<PlayerId>)

  /**
    A trail the move cannot hit: not solid yet, or the mover's own trail laid
    less than `selfGrace` ago (an empty or absent `selfId` exempts nothing,
    and an absent `selfGrace` is 0).
   */
  predicate Exempt(trail: TrailSegment, time: real, selfId: Option<PlayerId>, selfGrace: Option<real>) {
    || time < trail.solidAt
    || (selfId.Some? && selfId.value != "" && trail.owner == selfId.value
        && time - trail.createdAt < selfGrace.GetOr(0.0))
  }

  /** The move `prev -> next` hits `trail`. */
  predicate Hits(
    prev: Vec2, next: Vec2, trail: TrailSegment, time: real,
    selfId: Option<PlayerId>, selfGrace: Option<real>)
  {
    !Exempt(trail, time, selfId, selfGrace) && SegmentsIntersect(prev, next, trail.start, trail.end)
  }

  /** The scan of `intersectsAny` from position `k` on. */
  function IntersectsFrom(
    prev: Vec2, next: Vec2, trails: seq<TrailSegment>, k: nat, time: real,
    selfId: Option<PlayerId>, selfGrace: Option<real>): (r: HitResult)
    requires k <= |trails|
    ensures r.hit <==> exists i :: k <= i < |trails| && Hits(prev, next, trails[i], time, selfId, selfGrace)
    ensures r.hit ==> exists i :: (k <= i < |trails| && Hits(prev, next, trails[i], time, selfId, selfGrace)
      && r.owner == Some(trails[i].owner)
      && forall j :: k <= j < i ==> !Hits(prev, next, trails[j], time, selfId, selfGrace))
    ensures !r.hit ==> r.owner == None
    decreases |trails| - k
  {
    if k == |trails| then
      HitResult(false, None)
    else
      var trail := trails[k];
      if Exempt(trail, time, selfId, selfGrace) then
        IntersectsFrom(prev, next, trails, k + 1, time, selfId, selfGrace)
      else if !BoxesOverlap(prev, next, trail) then
        PrefilterSound(prev, next, trail);
        IntersectsFrom(prev, next, trails, k + 1, time, selfId, selfGrace)
      else if SegmentsIntersect(prev, next, trail.start, trail.end) then
        HitResult(true, Some(trail.owner))
      else
        IntersectsFrom(prev, next, trails, k + 1, time, selfId, selfGrace)
  }

  /**
    `intersectsAny`: a hit exactly when some trail is hit, reporting the owner
    of the first one in list order.
   */
  function IntersectsAny(
    prev: Vec2, next: Vec2, trails: seq<TrailSegment>, time: real,
    selfId: Option<PlayerId>, selfGrace: Option<real>): (r: HitResult)
    ensures r.hit <==> exists i :: 0 <= i < |trails| && Hits(prev, next, trails[i], time, selfId, selfGrace)
    ensures r.hit ==> exists i :: (0 <= i < |trails| && Hits(prev, next, trails[i], time, selfId, selfGrace)
      && r.owner == Some(trails[i].owner)
      && forall j :: 0 <= j < i ==> !Hits(prev, next, trails[j], time, selfId, selfGrace))
    ensures !r.hit ==> r.owner == None
  {
    IntersectsFrom(prev, next, trails, 0, time, selfId, selfGrace)
  }

  /**
    The verdict depends only on which trails are present: two lists with the
    same hit trails, one drawn from the other, give the same verdict.
   */
  lemma HitDependsOnlyOnHitTrails(
    prev: Vec2, next: Vec2, all: seq<TrailSegment>, some: seq<TrailSegment>, time: real,
    selfId: Option<PlayerId>, selfGrace: Option<real>)
    requires forall c :: c in some ==> c in all
    requires forall t :: t in all && Hits(prev, next, t, time, selfId, selfGrace) ==> t in some
    ensures IntersectsAny(prev, next, some, time, selfId, selfGrace).hit
         == IntersectsAny(prev, next, all, time, selfId, selfGrace).hit
  {
    if IntersectsAny(prev, next, all, time, selfId, selfGrace).hit {
      var i :| 0 <= i < |all| && Hits(prev, next, all[i], time, selfId, selfGrace);
      assert all[i] in some;
      var j :| 0 <= j < |some| && some[j] == all[i];
    }
    if IntersectsAny(prev, next, some, time, selfId, selfGrace).hit {
      var j :| 0 <= j < |some| && Hits(prev, next, some[j], time, selfId, selfGrace);
      assert some[j] in all;
      var i :| 0 <= i < |all| && all[i] == some[j];
    }
  }

  /**
    The two filters of the scan: a trail that has not solidified never
    counts, and without a mover id only solidity matters.
   */
  lemma ExemptionRules(
    prev: Vec2, next: Vec2, trail: TrailSegment, time: real,
    selfId: Option<PlayerId>, selfGrace: Option<real>)
    ensures time < trail.solidAt ==> !Hits(prev, next, trail, time, selfId, selfGrace)
    ensures selfId.None? ==> (Exempt(trail, time, selfId, selfGrace) <==> time < trail.solidAt)
    ensures selfId.Some? && trail.owner != selfId.value ==> (Exempt(trail, time, selfId, selfGrace) <==> time < trail.solidAt)
  {
  }

  /** An empty trail list is never hit. */
  lemma EmptyListNeverHit(prev: Vec2, next: Vec2, time: real, selfId: Option<PlayerId>, selfGrace: Option<real>)
    ensures IntersectsAny(prev, next, [], time, selfId, selfGrace) == HitResult(false, None)
  {
  }

  /**
    `outOfBounds`: the distance from the centre exceeds the arena half-size;
    with a valid host, a point is out exactly when the half-size is negative
    or the point lies strictly outside the circle of that radius.
   */
  function OutOfBounds(m: MathLib, pos: Vec2, arenaHalf: real): (out: bool)
    ensures Valid(m) ==> (out <==> arenaHalf < 0.0 || LengthSq(pos) > arenaHalf * arenaHalf)
  {
    assert Valid(m) ==> (Hypot(m, pos.x, pos.y) > arenaHalf
                         <==> arenaHalf < 0.0 || pos.x * pos.x + pos.y * pos.y > arenaHalf * arenaHalf) by {
      if Valid(m) {
        if arenaHalf >= 0.0 {
          HypotCompare(m, pos.x, pos.y, arenaHalf);
        } else {
          HypotCompare(m, pos.x, pos.y, 0.0);
        }
      }
    }
    Hypot(m, pos.x, pos.y) > arenaHalf
  }

  /** With a valid host, the wall test is a comparison of squares; a negative half-size is always out. */
  lemma OutOfBoundsSquared(m: MathLib, pos: Vec2, arenaHalf: real)
    requires Valid(m)
    ensures arenaHalf < 0.0 ==> OutOfBounds(m, pos, arenaHalf)
    ensures arenaHalf >= 0.0 ==> (OutOfBounds(m, pos, arenaHalf) <==> LengthSq(pos) > arenaHalf * arenaHalf)
  {
    if arenaHalf >= 0.0 {
      HypotCompare(m, pos.x, pos.y, arenaHalf);
    } else {
      HypotCompare(m, pos.x, pos.y, 0.0);
    }
  }

  /** A single trail that is hit yields a hit reporting its owner. */
  lemma SingleTrailHit(
    prev: Vec2, next: Vec2, trail: TrailSegment, time: real,
    selfId: Option<PlayerId>, selfGrace: Option<real>)
    requires Hits(prev, next, trail, time, selfId, selfGrace)
    ensures var r := IntersectsAny(prev, next, [trail], time, selfId, selfGrace);
      r.hit && r.owner == Some(trail.owner)
  {
  }

  /** The crossing example of the collision tests: the move hits `p2`'s trail. */
  lemma CrossingExample()
    ensures var r := IntersectsAny(Vec2(0.0, 0.0), Vec2(2.0, 0.0),
                                   [TrailSegment(1, "p2", Vec2(1.0, -1.0), Vec2(1.0, 1.0), 0.0, 0.0)],
                                   1.0, None, None);
      r.hit && r.owner == Some("p2")
  {
    var prev, next := Vec2(0.0, 0.0), Vec2(2.0, 0.0);
    var trail := TrailSegment(1, "p2", Vec2(1.0, -1.0), Vec2(1.0, 1.0), 0.0, 0.0);
    CrossingHit(prev, next, trail);
    SingleTrailHit(prev, next, trail, 1.0, None, None);
  }

  lemma CrossingNotParallel(prev: Vec2, next: Vec2, trail: TrailSegment)
    requires prev == Vec2(0.0, 0.0) && next == Vec2(2.0, 0.0)
    requires trail == TrailSegment(1, "p2", Vec2(1.0, -1.0), Vec2(1.0, 1.0), 0.0, 0.0)
    ensures Cross(Sub(next, prev), Sub(trail.end, trail.start)) != 0.0
  {
  }

  lemma CrossingMidpoints(prev: Vec2, next: Vec2, trail: TrailSegment)
    requires prev == Vec2(0.0, 0.0) && next == Vec2(2.0, 0.0)
    requires trail == TrailSegment(1, "p2", Vec2(1.0, -1.0), Vec2(1.0, 1.0), 0.0, 0.0)
    ensures CommonPoint(prev, next, trail.start, trail.end, 0.5, 0.5)
  {
  }

  lemma CrossingHit(prev: Vec2, next: Vec2, trail: TrailSegment)
    requires prev == Vec2(0.0, 0.0) && next == Vec2(2.0, 0.0)
    requires trail == TrailSegment(1, "p2", Vec2(1.0, -1.0), Vec2(1.0, 1.0), 0.0, 0.0)
    ensures Hits(prev, next, trail, 1.0, None, None)
  {
    CrossingNotParallel(prev, next, trail);
    CrossingMidpoints(prev, next, trail);
    CrossingFromWitness(prev, next, trail.start, trail.end, 0.5, 0.5);
  }

  /** The grace example of the collision tests: the mover's fresh trail is ignored. */
  lemma GraceExample()
    ensures !IntersectsAny(Vec2(0.0, 0.0), Vec2(1.0, 0.0),
                           [TrailSegment(1, "p1", Vec2(0.0, 0.0), Vec2(1.0, 0.0), 1.0, 0.0)],
                           1.2, Some("p1"), Some(0.35)).hit
  {
    var trail := TrailSegment(1, "p1", Vec2(0.0, 0.0), Vec2(1.0, 0.0), 1.0, 0.0);
    assert Exempt(trail, 1.2, Some("p1"), Some(0.35));
    assert !Hits(Vec2(0.0, 0.0), Vec2(1.0, 0.0), trail, 1.2, Some("p1"), Some(0.35));
    assert [trail][0] == trail;
  }

  /** The wall example of the collision tests. */
  lemma WallExample(m: MathLib)
    requires Valid(m)
    ensures OutOfBounds(m, Vec2(6.0, 0.0), 5.0)
  {
    OutOfBoundsSquared(m, Vec2(6.0, 0.0), 5.0);
  }

  /** Collinear, overlapping segments are parallel and do not count as a crossing. */
  lemma CollinearNeverCrosses()
    ensures !SegmentsIntersect(Vec2(0.0, 0.0), Vec2(2.0, 0.0), Vec2(1.0, 0.0), Vec2(3.0, 0.0))
  {
  }
}
