/**
  Spawn placement: rejection sampling of spaced points in a square, then
  evenly spaced points on a circle for whatever sampling could not place.
 */
module Spawn {
  import opened Numerics
  import opened Vec
  import opened Types

  datatype SpawnPoint = SpawnPoint(pos: Vec2, heading: real)

  /** `randomBetween`: the point a fraction `r` of the way from `lo` to `hi`. */
  function RandomBetween(lo: real, hi: real, r: real): (x: real)
    ensures lo <= hi && 0.0 <= r <= 1.0 ==> lo <= x <= hi
  {
    var x := lo + (hi - lo) * r;
    LerpBounds(lo, hi, r, x);
    x
  }

  lemma LerpBounds(lo: real, hi: real, r: real, x: real)
    requires x == lo + (hi - lo) * r
    ensures lo <= hi && 0.0 <= r <= 1.0 ==> lo <= x <= hi
  {
    if lo <= hi && 0.0 <= r <= 1.0 {
      Lerp(lo, hi, r);
      assert Between(lo, x, hi);
      if hi <= x <= lo {
        assert x == lo;
      }
    }
  }

  predicate InSquare(p: Vec2, limit: real) {
    -limit <= p.x <= limit && -limit <= p.y <= limit
  }

  /** `Math.hypot(dx, dy) >= minDistance` for the point `p` against every earlier spawn. */
  predicate SpacedFrom(m: MathLib, spawns: seq<SpawnPoint>, p: Vec2, minDistance: real) {
    forall i :: 0 <= i < |spawns| ==> Hypot(m, spawns[i].pos.x - p.x, spawns[i].pos.y - p.y) >= minDistance
  }

  /** Every pair of the sampled points is at least `minDistance` apart. */
  predicate PairwiseSpaced(m: MathLib, spawns: seq<SpawnPoint>, minDistance: real) {
    forall i, j :: 0 <= i < j < |spawns| ==>
      Hypot(m, spawns[i].pos.x - spawns[j].pos.x, spawns[i].pos.y - spawns[j].pos.y) >= minDistance
  }

  /** The `i`-th of `remaining` fallback points on the circle of radius `radius`. */
  function FallbackPoint(m: MathLib, i: nat, remaining: nat, radius: real): SpawnPoint
    requires remaining > 0
  {
    var angle := (PI * 2.0 * i as real) / remaining as real;
    SpawnPoint(Vec2(m.cos(angle) * radius, m.sin(angle) * radius), angle + PI / 2.0)
  }

  /** The half-width of the sampling square: the arena half-size less the (non-negative) margin, never below 0. */
  function Limit(arenaHalf: real, margin: real): (l: real)
    ensures l >= 0.0 && l <= Max(0.0, arenaHalf)
  {
    Max(0.0, arenaHalf - Max(0.0, margin))
  }

  /** The attempt budget: the caller's, when given (even 0), otherwise 200 attempts per requested point. */
  function AttemptBudget(count: int, maxAttempts: Option<int>): int {
    maxAttempts.GetOr(count * 200)
  }

  /** A heading `rng() * Math.PI * 2` from a draw in [0, 1) lies in [0, 2π). */
  lemma HeadingInRange(r: real)
    requires 0.0 <= r < 1.0
    ensures 0.0 <= r * PI * 2.0 < 2.0 * PI
  {
    MulNonNeg(r, PI * 2.0);
    MulPos(1.0 - r, PI * 2.0);
  }

  /**
    The sampling loop of `generateSpawnPoints`: draw candidates in the
    square until `count` are placed or the budget is spent, keeping those
    spaced from every earlier one.
   */
  method SampleSpawns(m: MathLib, count: int, limit: real, minD: real, draws: Draws, budget: int)
    returns (spawns: seq<SpawnPoint>, attempts: nat)
    requires UnitDraws(draws) && limit >= 0.0
    ensures attempts <= (if budget < 0 then 0 else budget)
    ensures |spawns| <= attempts && |spawns| <= (if count < 0 then 0 else count)
    ensures |spawns| < count ==> attempts >= budget
    ensures forall i :: 0 <= i < |spawns| ==> InSquare(spawns[i].pos, limit)
    ensures forall i :: 0 <= i < |spawns| ==> 0.0 <= spawns[i].heading < 2.0 * PI
    ensures PairwiseSpaced(m, spawns, minD)
  {
    spawns := [];
    attempts := 0;
    var k: nat := 0;
    while |spawns| < count && attempts < budget
      invariant attempts <= (if budget < 0 then 0 else budget)
      invariant |spawns| <= attempts
      invariant |spawns| <= if count < 0 then 0 else count
      invariant forall i :: 0 <= i < |spawns| ==> InSquare(spawns[i].pos, limit)
      invariant forall i :: 0 <= i < |spawns| ==> 0.0 <= spawns[i].heading < 2.0 * PI
      invariant PairwiseSpaced(m, spawns, minD)
      decreases budget - attempts
    {
      attempts := attempts + 1;
      var x := RandomBetween(-limit, limit, draws(k));
      var y := RandomBetween(-limit, limit, draws(k + 1));
      k := k + 2;
      var candidate := Vec2(x, y);
      if SpacedFrom(m, spawns, candidate, minD) {
        var heading := draws(k) * PI * 2.0;
        HeadingInRange(draws(k));
        k := k + 1;
        spawns := spawns + [SpawnPoint(candidate, heading)];
      }
    }
  }

  /** The fallback loop: `remaining` evenly spaced points appended after `head`. */
  method AppendFallback(m: MathLib, head: seq<SpawnPoint>, remaining: nat, radius: real)
    returns (spawns: seq<SpawnPoint>)
    requires remaining > 0
    ensures |spawns| == |head| + remaining && spawns[..|head|] == head
    ensures forall j :: |head| <= j < |spawns| ==> spawns[j] == FallbackPoint(m, j - |head|, remaining, radius)
  {
    spawns := head;
    var i := 0;
    while i < remaining
      invariant 0 <= i <= remaining
      invariant |spawns| == |head| + i
      invariant spawns[..|head|] == head
      invariant forall j :: |head| <= j < |spawns| ==> spawns[j] == FallbackPoint(m, j - |head|, remaining, radius)
      decreases remaining - i
    {
      spawns := spawns + [FallbackPoint(m, i, remaining, radius)];
      i := i + 1;
    }
  }

  /**
    `generateSpawnPoints`. `sampled` is how many points came from sampling
    and `attempts` how many candidates were drawn; draw `k` of `draws` is
    the k-th call of `rng` (two per candidate, one more per accepted point).
   */
  method GenerateSpawnPoints(
    m: MathLib, count: int, arenaHalf: real, minDistance: real, margin: real,
    draws: Draws, maxAttempts: Option<int>)
    returns (spawns: seq<SpawnPoint>, sampled: nat, attempts: nat)
    requires UnitDraws(draws)
    ensures |spawns| == if count < 0 then 0 else count
    ensures attempts <= (if AttemptBudget(count, maxAttempts) < 0 then 0 else AttemptBudget(count, maxAttempts))
    ensures sampled <= |spawns| && sampled <= attempts
    // sampled points: inside the square, spaced, with headings in [0, 2π)
    ensures forall i :: 0 <= i < sampled ==> InSquare(spawns[i].pos, Limit(arenaHalf, margin))
    ensures forall i :: 0 <= i < sampled ==> 0.0 <= spawns[i].heading < 2.0 * PI
    ensures PairwiseSpaced(m, spawns[..sampled], Max(0.0, minDistance))
    // the circle is used only once the attempt budget is spent
    ensures sampled < |spawns| ==> attempts >= AttemptBudget(count, maxAttempts)
    ensures forall i :: sampled <= i < |spawns| ==>
      spawns[i] == FallbackPoint(m, i - sampled, |spawns| - sampled, Limit(arenaHalf, margin) * 0.65)
  {
    var limit := Limit(arenaHalf, margin);
    var head;
    head, attempts := SampleSpawns(m, count, limit, Max(0.0, minDistance), draws, AttemptBudget(count, maxAttempts));
    sampled := |head|;
    if |head| < count {
      spawns := AppendFallback(m, head, count - |head|, limit * 0.65);
      forall j | 0 <= j < sampled ensures spawns[j] == head[j] {
        assert spawns[..sampled][j] == spawns[j];
      }
    } else {
      spawns := head;
    }
    assert spawns[..sampled] == head;
  }

  /** Fallback points lie on the circle of the given radius, facing along it. */
  lemma FallbackOnCircle(m: MathLib, i: nat, remaining: nat, radius: real)
    requires Valid(m) && remaining > 0
    ensures var p := FallbackPoint(m, i, remaining, radius);
      LengthSq(p.pos) == radius * radius
  {
    var angle := (PI * 2.0 * i as real) / remaining as real;
    var c, s := m.cos(angle), m.sin(angle);
    assert c * c + s * s == 1.0;
    assert (c * radius) * (c * radius) + (s * radius) * (s * radius) == (c * c + s * s) * (radius * radius);
  }

  /** Spacing by `Math.hypot` is spacing by squared distance. */
  lemma SpacedSquared(m: MathLib, spawns: seq<SpawnPoint>, minDistance: real, i: nat, j: nat)
    requires Valid(m) && minDistance >= 0.0 && PairwiseSpaced(m, spawns, minDistance)
    requires i < j < |spawns|
    ensures LengthSq(Vec2(spawns[i].pos.x - spawns[j].pos.x, spawns[i].pos.y - spawns[j].pos.y))
         >= minDistance * minDistance
  {
    HypotCompare(m, spawns[i].pos.x - spawns[j].pos.x, spawns[i].pos.y - spawns[j].pos.y, minDistance);
  }

  /** The budget is 200 candidates per point unless given, and an explicit 0 draws nothing. */
  lemma BudgetDefaults(count: int)
    ensures AttemptBudget(count, None) == count * 200
    ensures AttemptBudget(count, Some(0)) == 0
  {
  }
}
