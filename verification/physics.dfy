/**
  The turn-inertia integrator: the turn rate follows the steering target with
  a first-order lag, the heading integrates the turn rate, and the vehicle
  moves at constant speed along its new heading.
 */
module Physics {
  import opened Numerics
  import opened Vec
  import opened Types

  datatype Kinematics = Kinematics(pos: Vec2, heading: real, turnVel: real)

  /** The lag factor `min(1, dt / inertia)`. */
  function Alpha(dt: real, inertia: real): (a: real)
    requires inertia != 0.0
    ensures a <= 1.0
    ensures dt >= 0.0 && inertia > 0.0 ==> 0.0 <= a
    ensures dt >= inertia > 0.0 ==> a == 1.0
  {
    Min(1.0, dt / inertia)
  }

  lemma UnitCircleScale(c: real, s: real, k: real)
    requires c * c + s * s == 1.0
    ensures (c * k) * (c * k) + (s * k) * (s * k) == k * k
  {
    assert (c * k) * (c * k) + (s * k) * (s * k) == (c * c + s * s) * (k * k);
  }

  /** `stepPhysics`. */
  function StepPhysics(
    m: MathLib, pos: Vec2, heading: real, turnVel: real, input: Steer,
    dt: real, speed: real, turnRate: real, inertia: real): (r: Kinematics)
    requires inertia != 0.0
    // the turn rate never overshoots the steering target
    ensures dt >= 0.0 && inertia > 0.0 ==> Between(turnVel, r.turnVel, input as real * turnRate)
    // a tick at least as long as the lag reaches the target exactly
    ensures dt >= inertia > 0.0 ==> r.turnVel == input as real * turnRate
    ensures r.heading == heading + r.turnVel * dt
    // the move is speed * dt along the new heading
    ensures r.pos == Add(pos, Vec2(m.cos(r.heading) * speed * dt, m.sin(r.heading) * speed * dt))
    ensures Valid(m) ==> LengthSq(Vec2(r.pos.x - pos.x, r.pos.y - pos.y)) == (speed * dt) * (speed * dt)
  {
    var target := input as real * turnRate;
    var alpha := Alpha(dt, inertia);
    var nextTurnVel := turnVel + (target - turnVel) * alpha;
    var nextHeading := heading + nextTurnVel * dt;
    var c := m.cos(nextHeading);
    var s := m.sin(nextHeading);
    var nextPos := Vec2(pos.x + c * speed * dt, pos.y + s * speed * dt);
    assert dt >= 0.0 && inertia > 0.0 ==> Between(turnVel, nextTurnVel, target) by {
      if dt >= 0.0 && inertia > 0.0 {
        Lerp(turnVel, target, alpha);
      }
    }
    assert Valid(m) ==> LengthSq(Vec2(nextPos.x - pos.x, nextPos.y - pos.y)) == (speed * dt) * (speed * dt) by {
      if Valid(m) {
        assert c * c + s * s == 1.0;
        assert c * speed * dt == c * (speed * dt) && s * speed * dt == s * (speed * dt);
        UnitCircleScale(c, s, speed * dt);
      }
    }
    Kinematics(nextPos, nextHeading, nextTurnVel)
  }

  /** Starting within the turn-rate envelope, every input keeps the turn rate inside it. */
  lemma TurnVelStaysBounded(
    m: MathLib, pos: Vec2, heading: real, turnVel: real, input: Steer,
    dt: real, speed: real, turnRate: real, inertia: real)
    requires dt >= 0.0 && inertia > 0.0 && Abs(turnVel) <= turnRate
    ensures Abs(StepPhysics(m, pos, heading, turnVel, input, dt, speed, turnRate, inertia).turnVel) <= turnRate
  {
    var target := input as real * turnRate;
    assert Abs(target) <= turnRate;
  }

  /** Going straight with no residual turn keeps the heading. */
  lemma StraightKeepsHeading(
    m: MathLib, pos: Vec2, heading: real, dt: real, speed: real, turnRate: real, inertia: real)
    requires inertia != 0.0
    ensures StepPhysics(m, pos, heading, 0.0, 0, dt, speed, turnRate, inertia).heading == heading
  {
  }

  lemma PositiveStep(a: real, b: real, h: real)
    requires a > 0.0 && b > 0.0
    ensures h + a * b > h
  {
    MulPos(a, b);
  }

  /** From rest, holding a turn strictly increases the heading. */
  lemma TurnFromRestIncreasesHeading(
    m: MathLib, pos: Vec2, heading: real, dt: real, speed: real, turnRate: real, inertia: real)
    requires dt > 0.0 && inertia > 0.0 && turnRate > 0.0
    ensures StepPhysics(m, pos, heading, 0.0, 1, dt, speed, turnRate, inertia).heading > heading
  {
    var alpha := Alpha(dt, inertia);
    assert alpha > 0.0 by {
      if dt / inertia < 1.0 {
        assert dt / inertia > 0.0;
      }
    }
    var tv := 0.0 + (1 as real * turnRate - 0.0) * alpha;
    assert tv == turnRate * alpha;
    MulPos(turnRate, alpha);
    PositiveStep(tv, dt, heading);
  }
}
