/** Gravity: every rocket outside the sun's dead zone is pulled toward the sun at
    the origin with an inverse-square force, its velocity is capped at its speed
    limit, and it moves by that velocity. Inside the dead zone nothing happens. */
module Gravity {
  import opened Geometry
  import opened Rockets

  const GRAVITATIONAL_CONSTANT: real := 120000000.0

  /** Rockets closer than this to the sun feel no pull. */
  const DEAD_ZONE: real := 70.0

  /** The vector from a rocket to the sun at the origin. */
  function ToSun(translation: Vec3): Vec2
  {
    Vec2(0.0 - translation.x, 0.0 - translation.y)
  }

  /** The dead zone, stated without a square root: closer than 70 to the sun. */
  predicate InDeadZone(translation: Vec3)
  {
    LengthSq(ToSun(translation)) < DEAD_ZONE * DEAD_ZONE
  }

  /** The squared test is the distance test of the game: the rocket's distance to the sun is below 70. */
  lemma DeadZoneIsDistance(sqrt: real -> real, translation: Vec3)
    requires IsSqrt(sqrt)
    ensures sqrt(LengthSq(ToSun(translation))) < DEAD_ZONE <==> InDeadZone(translation)
  {
    SqrtBelow(sqrt, LengthSq(ToSun(translation)), DEAD_ZONE);
  }

  /** The velocity after the pull is added, before the cap. */
  function Pulled(velocity: Vec2, t: Transform, dt: Seconds, sqrt: real -> real): Vec2
    requires IsSqrt(sqrt)
    requires !InDeadZone(t.translation)
  {
    var direction := ToSun(t.translation);
    var distance := sqrt(LengthSq(direction));
    SqrtBelow(sqrt, LengthSq(direction), DEAD_ZONE);
    var force := GRAVITATIONAL_CONSTANT / (distance * distance);
    var acceleration := Scale(Scale(direction, 1.0 / distance), force);
    Add(velocity, Scale(acceleration, dt))
  }

  /** The speed cap: a velocity longer than maxSpeed is scaled down to length maxSpeed. */
  function Cap(v: Vec2, maxSpeed: real, sqrt: real -> real): (r: Vec2)
    requires IsSqrt(sqrt) && 0.0 <= maxSpeed
    ensures LengthSq(r) <= maxSpeed * maxSpeed
    ensures LengthSq(v) <= maxSpeed * maxSpeed ==> r == v
    ensures maxSpeed * maxSpeed < LengthSq(v) ==>
      LengthSq(r) == maxSpeed * maxSpeed && Cross(r, v) == 0.0 && 0.0 <= Dot(r, v)
  {
    var len := sqrt(LengthSq(v));
    SqrtAtMost(sqrt, LengthSq(v), maxSpeed);
    if len > maxSpeed then
      CapLength(v, maxSpeed, sqrt);
      Scale(Scale(v, 1.0 / len), maxSpeed)
    else
      v
  }

  /** Scaling a too-long velocity to the cap gives length exactly maxSpeed, in the same direction. */
  lemma CapLength(v: Vec2, maxSpeed: real, sqrt: real -> real)
    requires IsSqrt(sqrt) && 0.0 <= maxSpeed < sqrt(LengthSq(v))
    ensures var len := sqrt(LengthSq(v));
      LengthSq(Scale(Scale(v, 1.0 / len), maxSpeed)) == maxSpeed * maxSpeed &&
      Cross(Scale(Scale(v, 1.0 / len), maxSpeed), v) == 0.0 &&
      0.0 <= Dot(Scale(Scale(v, 1.0 / len), maxSpeed), v)
  {
    var len := sqrt(LengthSq(v));
    var k := maxSpeed / len;
    var r := Scale(Scale(v, 1.0 / len), maxSpeed);
    assert r == Scale(v, k);
    LengthSqScale(v, k);
    assert len * len == LengthSq(v);
    var kl := k * len;
    assert kl == maxSpeed;
    calc {
      LengthSq(r);
      k * k * LengthSq(v);
      k * k * (len * len);
      kl * kl;
    }
    CrossScale(v, k);
    DotScale(v, k);
    MulNonNeg(k, LengthSq(v));
  }

  /** Move a transform by velocity times dt in the plane. */
  function Advance(t: Transform, v: Vec2, dt: Seconds): (r: Transform)
    ensures r.angle == t.angle && r.translation.z == t.translation.z
  {
    Transform(Vec3(t.translation.x + v.x * dt, t.translation.y + v.y * dt, t.translation.z), t.angle)
  }

  /** One rocket's gravity tick: (velocity, transform) afterwards. */
  function GravityStep(velocity: Vec2, maxSpeed: real, t: Transform, dt: Seconds, sqrt: real -> real): (r: (Vec2, Transform))
    requires IsSqrt(sqrt) && 0.0 <= maxSpeed
    ensures InDeadZone(t.translation) ==> r == (velocity, t)
    ensures !InDeadZone(t.translation) ==> LengthSq(r.0) <= maxSpeed * maxSpeed
    ensures !InDeadZone(t.translation) ==> r.0 == Cap(Pulled(velocity, t, dt, sqrt), maxSpeed, sqrt)
    ensures r.1.angle == t.angle && r.1.translation.z == t.translation.z
    ensures !InDeadZone(t.translation) ==> r.1 == Advance(t, r.0, dt)
  {
    if InDeadZone(t.translation) then (velocity, t)
    else
      var v := Cap(Pulled(velocity, t, dt, sqrt), maxSpeed, sqrt);
      (v, Advance(t, v, dt))
  }

  /** The gravity system over every rocket and its transform. A rocket in the
      dead zone is skipped; any other has its velocity pulled and capped and
      its translation moved. */
  method GravitationalPull(rockets: seq<Rocket>, transforms: array<Transform>, dt: Seconds, sqrt: real -> real)
    requires |rockets| == transforms.Length && Distinct(rockets)
    requires IsSqrt(sqrt)
    requires forall k :: 0 <= k < |rockets| ==> 0.0 <= rockets[k].maxSpeed
    modifies rockets, transforms
    ensures forall k :: 0 <= k < |rockets| ==>
      (rockets[k].velocity, transforms[k]) == GravityStep(old(rockets[k].velocity), rockets[k].maxSpeed, old(transforms[k]), dt, sqrt)
    ensures forall k :: 0 <= k < |rockets| ==>
      rockets[k].speed == old(rockets[k].speed) && rockets[k].rotationSpeed == old(rockets[k].rotationSpeed) &&
      rockets[k].lastShotTime == old(rockets[k].lastShotTime)
  {
    for i := 0 to |rockets|
      invariant forall k :: 0 <= k < i ==>
        (rockets[k].velocity, transforms[k]) == GravityStep(old(rockets[k].velocity), rockets[k].maxSpeed, old(transforms[k]), dt, sqrt)
      invariant forall k :: i <= k < |rockets| ==>
        rockets[k].velocity == old(rockets[k].velocity) && transforms[k] == old(transforms[k])
      invariant forall k :: 0 <= k < |rockets| ==>
        rockets[k].speed == old(rockets[k].speed) && rockets[k].rotationSpeed == old(rockets[k].rotationSpeed) &&
        rockets[k].lastShotTime == old(rockets[k].lastShotTime)
    {
      var rocket := rockets[i];
      var transform := transforms[i];
      var direction := ToSun(transform.translation);
      var distance := sqrt(LengthSq(direction));
      SqrtBelow(sqrt, LengthSq(direction), DEAD_ZONE);
      if distance < DEAD_ZONE {
        continue;
      }
      rocket.velocity := Pulled(rocket.velocity, transform, dt, sqrt);
      rocket.velocity := Cap(rocket.velocity, rocket.maxSpeed, sqrt);
      transforms[i] := Advance(transform, rocket.velocity, dt);
    }
  }
}
