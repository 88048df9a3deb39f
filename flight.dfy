/** Flight dynamics of one rocket for one tick: thrust, spin, heading and
    position, driven by the held keys and the frame time. */
module Flight {
  import opened Geometry
  import opened Rockets

  /** Speed gained or lost per second of thrust or coasting. */
  const THRUST: real := 50.0

  /** Single-precision pi, as the engine's degree-to-radian conversion uses it. */
  const PI: real := 3.1415927

  function ToRadians(degrees: real): real
  {
    degrees * (PI / 180.0)
  }

  /** Spin gained per second while a rotate key is held, in degrees per second. */
  const SPIN_RATE: real := 50.0

  /** Spin is limited to 70 degrees per second either way. */
  const MAX_ROTATION_SPEED: real := ToRadians(70.0)

  /** The thrust rule: while accelerate is held the speed rises by one step unless it
      has reached the cap; otherwise it falls by one step unless it is already at or
      below zero. The guards are checked before the step, so the speed may end one
      step above the cap or one step below zero. */
  function NextSpeed(speed: real, maxSpeed: real, accelerate: bool, dt: Seconds): (r: real)
    ensures accelerate ==> speed <= r
    ensures !accelerate ==> r <= speed
    ensures r == speed || Abs(r - speed) == THRUST * dt
    ensures (accelerate && maxSpeed <= speed) || (!accelerate && speed <= 0.0) ==> r == speed
    ensures accelerate && speed < maxSpeed ==> r == speed + THRUST * dt && r < maxSpeed + THRUST * dt
    ensures !accelerate && 0.0 < speed ==> r == speed - THRUST * dt && -(THRUST * dt) < r
  {
    if accelerate then
      if speed < maxSpeed then speed + THRUST * dt else speed
    else
      if speed > 0.0 then speed - THRUST * dt else speed
  }

  /** The turn direction the two rotate keys ask for: left counts +1, right counts -1. */
  function RotationInput(left: bool, right: bool): (r: real)
    ensures r == 1.0 <==> left && !right
    ensures r == -1.0 <==> right && !left
    ensures r == 0.0 <==> left == right
  {
    (if left then 1.0 else 0.0) - (if right then 1.0 else 0.0)
  }

  /** f32::clamp: the nearest value of [lo, hi]. */
  function Clamp(x: real, lo: real, hi: real): (r: real)
    requires lo <= hi
    ensures lo <= r <= hi
    ensures lo <= x <= hi ==> r == x
    ensures x < lo ==> r == lo
    ensures hi < x ==> r == hi
  {
    if x < lo then lo else if x > hi then hi else x
  }

  /** The spin after the input has been applied and the result clamped. */
  function ClampedRotationSpeed(rotationSpeed: real, left: bool, right: bool, dt: Seconds): (r: real)
    ensures Abs(r) <= MAX_ROTATION_SPEED
    ensures left && !right && Abs(rotationSpeed) <= MAX_ROTATION_SPEED ==> rotationSpeed <= r
    ensures right && !left && Abs(rotationSpeed) <= MAX_ROTATION_SPEED ==> r <= rotationSpeed
    ensures left == right && Abs(rotationSpeed) <= MAX_ROTATION_SPEED ==> r == rotationSpeed
  {
    Clamp(rotationSpeed + RotationInput(left, right) * ToRadians(SPIN_RATE * dt), -MAX_ROTATION_SPEED, MAX_ROTATION_SPEED)
  }

  /** The spin a rocket keeps at the end of the tick: holding both rotate keys
      stops it outright, otherwise it is the clamped spin. */
  function NextRotationSpeed(rotationSpeed: real, left: bool, right: bool, dt: Seconds): (r: real)
    ensures Abs(r) <= MAX_ROTATION_SPEED
    ensures left && right ==> r == 0.0
    ensures !(left && right) ==> r == ClampedRotationSpeed(rotationSpeed, left, right, dt)
    ensures !left && !right && Abs(rotationSpeed) <= MAX_ROTATION_SPEED ==> r == rotationSpeed
  {
    if left && right then 0.0 else ClampedRotationSpeed(rotationSpeed, left, right, dt)
  }

  /** A turn of the heading by spin * dt radians (composing two rotations about z adds their angles). */
  function Turn(angle: real, spin: real, dt: Seconds): real
  {
    angle + spin * dt
  }

  /** The per-tick motion state of one rocket entity: its rocket fields and its transform. */
  datatype Motion = Motion(speed: real, rotationSpeed: real, velocity: Vec2, transform: Transform)

  /** One tick of flight. The heading turns by the clamped spin and then again by
      the final spin, velocity is the new heading scaled by the new speed (any
      earlier velocity is discarded), and the position moves by velocity times dt. */
  function MovementStep(m: Motion, maxSpeed: real, controls: RocketControls, pressed: set<Key>,
                        dt: Seconds, forward: real -> Vec2): (r: Motion)
    ensures r.speed == NextSpeed(m.speed, maxSpeed, controls.accelerate in pressed, dt)
    ensures r.rotationSpeed == NextRotationSpeed(m.rotationSpeed, controls.rotateLeft in pressed, controls.rotateRight in pressed, dt)
    ensures r.transform.angle ==
      Turn(Turn(m.transform.angle, ClampedRotationSpeed(m.rotationSpeed, controls.rotateLeft in pressed, controls.rotateRight in pressed, dt), dt),
           r.rotationSpeed, dt)
    ensures r.velocity == Scale(forward(r.transform.angle), r.speed)
    ensures r.transform.translation == Add3(m.transform.translation, Extend(Scale(r.velocity, dt), 0.0))
  {
    var left := controls.rotateLeft in pressed;
    var right := controls.rotateRight in pressed;
    var speed := NextSpeed(m.speed, maxSpeed, controls.accelerate in pressed, dt);
    var clamped := ClampedRotationSpeed(m.rotationSpeed, left, right, dt);
    var spin := NextRotationSpeed(m.rotationSpeed, left, right, dt);
    var angle := Turn(Turn(m.transform.angle, clamped, dt), spin, dt);
    var velocity := Scale(forward(angle), speed);
    Motion(speed, spin, velocity, Transform(Add3(m.transform.translation, Extend(Scale(velocity, dt), 0.0)), angle))
  }

  /** The part of a rocket and its transform that flight reads and writes. */
  function MotionOf(rocket: Rocket, t: Transform): Motion
    reads rocket
  {
    Motion(rocket.speed, rocket.rotationSpeed, rocket.velocity, t)
  }

  /** Flight for one rocket, step by step as the game does it; the transform is
      returned updated. Only speed, spin and velocity of the rocket change. */
  method HandleRocketMovement(dt: Seconds, pressed: set<Key>, rocket: Rocket, t: Transform, forward: real -> Vec2)
    returns (t': Transform)
    modifies rocket`speed, rocket`rotationSpeed, rocket`velocity
    ensures MotionOf(rocket, t') == MovementStep(old(MotionOf(rocket, t)), rocket.maxSpeed, rocket.controls, pressed, dt, forward)
    ensures Abs(rocket.rotationSpeed) <= MAX_ROTATION_SPEED
    ensures rocket.controls.rotateLeft in pressed && rocket.controls.rotateRight in pressed ==> rocket.rotationSpeed == 0.0
    ensures t'.translation.z == t.translation.z
  {
    ghost var left, right := rocket.controls.rotateLeft in pressed, rocket.controls.rotateRight in pressed;
    ghost var m := MotionOf(rocket, t);
    if rocket.controls.accelerate in pressed {
      if rocket.speed < rocket.maxSpeed {
        rocket.speed := rocket.speed + THRUST * dt;
      }
    } else {
      if rocket.speed > 0.0 {
        rocket.speed := rocket.speed - THRUST * dt;
      }
    }
    assert rocket.speed == NextSpeed(m.speed, rocket.maxSpeed, rocket.controls.accelerate in pressed, dt);

    var rotationInput := 0.0;
    if rocket.controls.rotateLeft in pressed {
      rotationInput := rotationInput + 1.0;
    }
    if rocket.controls.rotateRight in pressed {
      rotationInput := rotationInput - 1.0;
    }
    assert rotationInput == RotationInput(left, right);

    var maxRotationSpeed := ToRadians(70.0);
    var rotationAcceleration := ToRadians(SPIN_RATE * dt);
    rocket.rotationSpeed := rocket.rotationSpeed + rotationInput * rotationAcceleration;
    rocket.rotationSpeed := Clamp(rocket.rotationSpeed, -maxRotationSpeed, maxRotationSpeed);
    ghost var clamped := rocket.rotationSpeed;
    assert clamped == ClampedRotationSpeed(m.rotationSpeed, left, right, dt);

    var angle := Turn(t.angle, rocket.rotationSpeed, dt);

    if rocket.controls.rotateRight in pressed && rocket.controls.rotateLeft in pressed {
      rocket.rotationSpeed := 0.0;
    }
    assert rocket.rotationSpeed == NextRotationSpeed(m.rotationSpeed, left, right, dt);

    angle := Turn(angle, rocket.rotationSpeed, dt);

    var direction := forward(angle);
    rocket.velocity := Scale(direction, rocket.speed);

    t' := Transform(Add3(t.translation, Extend(Scale(rocket.velocity, dt), 0.0)), angle);
  }

  /** Flight for every rocket entity, each with its own transform. */
  method UpdateRocketStatus(dt: Seconds, pressed: set<Key>, rockets: seq<Rocket>, transforms: array<Transform>, forward: real -> Vec2)
    requires |rockets| == transforms.Length && Distinct(rockets)
    modifies rockets, transforms
    ensures forall k :: 0 <= k < |rockets| ==>
      MotionOf(rockets[k], transforms[k]) ==
      MovementStep(old(MotionOf(rockets[k], transforms[k])), rockets[k].maxSpeed, rockets[k].controls, pressed, dt, forward)
    ensures forall k :: 0 <= k < |rockets| ==> rockets[k].lastShotTime == old(rockets[k].lastShotTime)
  {
    for i := 0 to |rockets|
      invariant forall k :: 0 <= k < i ==>
        MotionOf(rockets[k], transforms[k]) ==
        MovementStep(old(MotionOf(rockets[k], transforms[k])), rockets[k].maxSpeed, rockets[k].controls, pressed, dt, forward)
      invariant forall k :: i <= k < |rockets| ==> MotionOf(rockets[k], transforms[k]) == old(MotionOf(rockets[k], transforms[k]))
      invariant forall k :: 0 <= k < |rockets| ==> rockets[k].lastShotTime == old(rockets[k].lastShotTime)
    {
      var t := HandleRocketMovement(dt, pressed, rockets[i], transforms[i], forward);
      transforms[i] := t;
    }
  }

  /** One tick of key state for the thrust rule. */
  datatype Tick = Tick(accelerate: bool, dt: Seconds)

  /** The speed after a run of ticks. */
  function SpeedAfter(speed: real, maxSpeed: real, ticks: seq<Tick>): real
    decreases |ticks|
  {
    if ticks == [] then speed
    else SpeedAfter(NextSpeed(speed, maxSpeed, ticks[0].accelerate, ticks[0].dt), maxSpeed, ticks[1..])
  }

  /** With frame times at most dtMax, the speed never leaves the band from one step
      below zero to one step above the cap, whatever keys are held. */
  lemma {:induction false} SpeedStaysInBand(speed: real, maxSpeed: real, ticks: seq<Tick>, dtMax: real)
    requires forall k :: 0 <= k < |ticks| ==> ticks[k].dt <= dtMax
    requires -(THRUST * dtMax) <= speed <= maxSpeed + THRUST * dtMax
    ensures -(THRUST * dtMax) <= SpeedAfter(speed, maxSpeed, ticks) <= maxSpeed + THRUST * dtMax
    decreases |ticks|
  {
    if ticks != [] {
      var next := NextSpeed(speed, maxSpeed, ticks[0].accelerate, ticks[0].dt);
      assert -(THRUST * dtMax) <= next <= maxSpeed + THRUST * dtMax;
      SpeedStaysInBand(next, maxSpeed, ticks[1..], dtMax);
    }
  }

  /** The speed after n ticks with no accelerate key held. */
  function Coast(speed: real, maxSpeed: real, dt: Seconds, n: nat): real
    decreases n
  {
    if n == 0 then speed else Coast(NextSpeed(speed, maxSpeed, false, dt), maxSpeed, dt, n - 1)
  }

  /** Coasting never raises the speed. */
  lemma {:induction false} CoastNeverRises(speed: real, maxSpeed: real, dt: Seconds, n: nat)
    ensures Coast(speed, maxSpeed, dt, n) <= speed
    decreases n
  {
    if n > 0 {
      CoastNeverRises(NextSpeed(speed, maxSpeed, false, dt), maxSpeed, dt, n - 1);
    }
  }

  /** A rocket that has stopped (speed at or below zero) stays put while coasting. */
  lemma {:induction false} CoastStopped(speed: real, maxSpeed: real, dt: Seconds, n: nat)
    requires speed <= 0.0
    ensures Coast(speed, maxSpeed, dt, n) == speed
    decreases n
  {
    if n > 0 {
      CoastStopped(speed, maxSpeed, dt, n - 1);
    }
  }

  /** Coasting for enough ticks brings the speed to zero or just below: it ends in
      (-THRUST * dt, 0], so it is not always exactly zero. */
  lemma {:induction false} CoastComesToRest(speed: real, maxSpeed: real, dt: Seconds, n: nat)
    requires 0.0 < dt
    requires -(THRUST * dt) < speed <= (n as real) * (THRUST * dt)
    ensures -(THRUST * dt) < Coast(speed, maxSpeed, dt, n) <= 0.0
    decreases n
  {
    var step := THRUST * dt;
    if speed <= 0.0 {
      CoastStopped(speed, maxSpeed, dt, n);
    } else {
      assert n > 0;
      var next := NextSpeed(speed, maxSpeed, false, dt);
      assert next == speed - step;
      assert ((n - 1) as real) * step == (n as real) * step - step;
      CoastComesToRest(next, maxSpeed, dt, n - 1);
    }
  }
}
