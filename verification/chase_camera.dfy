/** Where the chase camera sits and looks, and how far it rolls into a turn. */
module ChaseCamera {
  import opened Numerics
  import opened Vec

  datatype Vec3 = Vec3(x: real, y: real, z: real)

  /** `computeCameraRoll`: the turn rate, scaled, clamped to `[-rollMax, rollMax]`. */
  function CameraRoll(turnVel: real, rollFactor: real, rollMax: real): (r: real)
    ensures rollMax >= 0.0 ==> -rollMax <= r <= rollMax
    ensures -rollMax <= turnVel * rollFactor <= rollMax ==> r == turnVel * rollFactor
    ensures turnVel * rollFactor > rollMax ==> r == rollMax
    ensures turnVel * rollFactor < -rollMax && turnVel * rollFactor <= rollMax ==> r == -rollMax
  {
    var raw := turnVel * rollFactor;
    if raw > rollMax then rollMax
    else if raw < -rollMax then -rollMax
    else raw
  }

  /** Turning the other way rolls the other way by the same amount. */
  lemma RollIsOdd(turnVel: real, rollFactor: real, rollMax: real)
    requires rollMax >= 0.0
    ensures CameraRoll(-turnVel, rollFactor, rollMax) == -CameraRoll(turnVel, rollFactor, rollMax)
  {
    assert -turnVel * rollFactor == -(turnVel * rollFactor);
  }

  /** A roll factor of 0.2 capped at 0.4. */
  lemma RollExamples()
    ensures CameraRoll(0.0, 0.2, 0.4) == 0.0
    ensures CameraRoll(1.0, 0.2, 0.4) == 0.2
    ensures CameraRoll(5.0, 0.2, 0.4) == 0.4
    ensures CameraRoll(-5.0, 0.2, 0.4) == -0.4
  {
  }

  datatype CameraPose = CameraPose(position: Vec3, target: Vec3)

  /**
    `computeChaseCamera`: the camera sits `distance` behind the vehicle and
    `shoulder` to its right, at `height`; it looks `lookAhead` in front of the
    vehicle, at 15% of the height. The plane's y axis is the scene's z axis.
   */
  function ComputeChaseCamera(
    m: MathLib, pos: Vec2, heading: real, height: real, distance: real, lookAhead: real, shoulder: real): (pose: CameraPose)
    ensures pose.position.y == height && pose.target.y == height * 0.15
    ensures Valid(m) ==>
      var dx, dz := pose.position.x - pos.x, pose.position.z - pos.y;
      dx * dx + dz * dz == distance * distance + shoulder * shoulder
    ensures Valid(m) ==>
      var tx, tz := pose.target.x - pos.x, pose.target.z - pos.y;
      tx * tx + tz * tz == lookAhead * lookAhead
    // along the heading (cos h, sin h) the camera is `distance` behind, and along its
    // right-hand normal (-sin h, cos h) it is `shoulder` to the side
    ensures Valid(m) ==>
      var c, s := m.cos(heading), m.sin(heading);
      var dx, dz := pose.position.x - pos.x, pose.position.z - pos.y;
      dx * c + dz * s == -distance && dx * -s + dz * c == shoulder
    // the target lies straight ahead, `lookAhead` along the heading
    ensures Valid(m) ==>
      var c, s := m.cos(heading), m.sin(heading);
      var tx, tz := pose.target.x - pos.x, pose.target.z - pos.y;
      tx * c + tz * s == lookAhead && tx * -s + tz * c == 0.0
  {
    var forwardX, forwardZ := m.cos(heading), m.sin(heading);
    var rightX, rightZ := -m.sin(heading), m.cos(heading);
    var position := Vec3(pos.x - forwardX * distance + rightX * shoulder, height, pos.y - forwardZ * distance + rightZ * shoulder);
    var target := Vec3(pos.x + forwardX * lookAhead, height * 0.15, pos.y + forwardZ * lookAhead);
    assert Valid(m) ==> OffsetLength(forwardX, forwardZ, distance, shoulder) by {
      if Valid(m) {
        assert forwardX * forwardX + forwardZ * forwardZ == 1.0;
        BehindAndRight(forwardX, forwardZ, distance, shoulder);
      }
    }
    assert Valid(m) ==> (forwardX * lookAhead) * (forwardX * lookAhead) + (forwardZ * lookAhead) * (forwardZ * lookAhead) == lookAhead * lookAhead by {
      if Valid(m) {
        assert forwardX * forwardX + forwardZ * forwardZ == 1.0;
        assert (forwardX * lookAhead) * (forwardX * lookAhead) + (forwardZ * lookAhead) * (forwardZ * lookAhead)
            == (forwardX * forwardX + forwardZ * forwardZ) * (lookAhead * lookAhead);
      }
    }
    assert Valid(m) ==> Projections(forwardX, forwardZ, distance, shoulder, lookAhead) by {
      if Valid(m) {
        assert forwardX * forwardX + forwardZ * forwardZ == 1.0;
        BehindRightAhead(forwardX, forwardZ, distance, shoulder, lookAhead);
      }
    }
    CameraPose(position, target)
  }

  /**
    The camera and target offsets, written with the heading's unit vector
    (c, s), projected onto that vector and onto its right-hand normal (-s, c).
   */
  predicate Projections(c: real, s: real, distance: real, shoulder: real, lookAhead: real) {
    var dx, dz := -c * distance + -s * shoulder, -s * distance + c * shoulder;
    var tx, tz := c * lookAhead, s * lookAhead;
    && dx * c + dz * s == -distance && dx * -s + dz * c == shoulder
    && tx * c + tz * s == lookAhead && tx * -s + tz * c == 0.0
  }

  /** For a unit heading the camera offset is `distance` behind and `shoulder` right, and the target `lookAhead` ahead. */
  lemma BehindRightAhead(c: real, s: real, distance: real, shoulder: real, lookAhead: real)
    requires c * c + s * s == 1.0
    ensures Projections(c, s, distance, shoulder, lookAhead)
  {
    var dx, dz := -c * distance + -s * shoulder, -s * distance + c * shoulder;
    assert dx * c + dz * s == -(c * c + s * s) * distance;
    assert dx * -s + dz * c == (c * c + s * s) * shoulder;
    assert (c * lookAhead) * c + (s * lookAhead) * s == (c * c + s * s) * lookAhead;
  }

  predicate OffsetLength(c: real, s: real, distance: real, shoulder: real) {
    var dx, dz := -c * distance + -s * shoulder, -s * distance + c * shoulder;
    dx * dx + dz * dz == distance * distance + shoulder * shoulder
  }

  /** Backwards along a unit heading and sideways along its normal are at right angles. */
  lemma BehindAndRight(c: real, s: real, distance: real, shoulder: real)
    requires c * c + s * s == 1.0
    ensures OffsetLength(c, s, distance, shoulder)
  {
    var dx, dz := -c * distance + -s * shoulder, -s * distance + c * shoulder;
    assert dx * dx + dz * dz == (c * c + s * s) * (distance * distance) + (c * c + s * s) * (shoulder * shoulder);
  }

  /** Facing along +x from the origin: 20 behind, 2 to the side, 10 up, looking 12 ahead. */
  lemma ChaseExample(m: MathLib)
    requires Valid(m)
    ensures ComputeChaseCamera(m, Vec2(0.0, 0.0), 0.0, 10.0, 20.0, 12.0, 2.0)
         == CameraPose(Vec3(-20.0, 10.0, 2.0), Vec3(12.0, 1.5, 0.0))
  {
  }
}
