# spacewars — a Dafny model of the game logic

spacewars is a two-player arcade duel written in Rust on the Bevy engine. Two
rockets fly around a sun at the centre of the screen, are pulled toward it by
gravity, wrap around the playfield edges and fire bullets at each other. This
project models the per-frame game logic — rocket flight, the boundary wrap,
gravity, the rocket–rocket box test, and the weapon system (cooldown-gated
firing, bullet flight and retirement, the bullet hit scan) — and proves
properties of it.

Modules, one per concern of the source:

- `Geometry` (geometry.dfy): 2-D/3-D vectors, the transform (translation plus a
  heading angle about z), squared lengths, and facts about a square-root
  function supplied by the host.
- `BoundaryWrap` (wrap.dfy): the mirror-style wrap shared by both wrap systems.
- `Rockets` (rocket.dfy): the rocket class, the match-start configuration and the
  rocket-only wrap.
- `Flight` (flight.dfy): thrust, spin, heading and position for one tick.
- `Collision` (collision.dfy): the axis-aligned box test and the pair scan.
- `Gravity` (gravity.dfy): inverse-square pull, the dead zone and the speed cap.
- `Bullets` (bullet.dfy): firing, bullet flight, retirement and the hit scan.

How the engine is represented:

- A rocket entity is a `Rocket` object whose speed, velocity, spin and last-shot
  time the systems update in place. Its configuration fields (speed cap,
  collision radius, key bindings, cooldown) are `const`. A transform is a value.
  The transforms a system iterates over are an `array<Transform>`, updated in
  place like the engine's query.
- Systems that despawn or spawn entities return what they would hand to the
  engine: the despawn list or the new bullets.
- Rotations are about z only, so a rotation is an angle. Composing with a z
  rotation adds angles. The forward direction of a heading (`rotation * Y`) is a
  function parameter `forward`.
- Lengths are compared squared where the source compares lengths. Where the
  source takes a length (gravity's distance, the cap), a host `sqrt` satisfying
  `Geometry.IsSqrt` is passed in, and lemmas show the squared test equals the
  distance test.
- Frame time is a non-negative real number of seconds. Engine durations
  (elapsed time, last shot, cooldown) are whole milliseconds.

Behaviour of the game code that differs from what a reader might expect, which the model follows:

- Speed is not held inside `[0, max_speed]`. The guards run before the step, so
  one step of overshoot above the cap and undershoot below zero remain.
  `Flight.SpeedStaysInBand` proves the band that does hold.
- Holding both rotate keys does not cancel the turn. The clamped spin is applied
  once, then the spin is set to 0, then the 0 spin is applied.
- The heading is turned twice per tick: by the clamped spin, then by the final
  spin.
- Rocket–rocket collision is a 50×50 box test with touching counted, and nothing
  happens when it fires. Nothing tests rockets against the sun.
- The bullet hit test has no owner exclusion and does not despawn the bullet. A
  rocket hit by several bullets gets several despawn commands.
- Bullets are retired only on y (above 510 or below -380), not on x.
- Gravity adds the pull to the rocket's velocity, caps it, and moves the rocket
  by it. Flight then overwrites the velocity with heading × speed on its next
  run, so the pull accumulated by earlier ticks is discarded. The game registers
  flight and gravity without an ordering constraint (src/main.rs:66-74), so the
  model treats each as a separate step and fixes no order between them.

## Model

| member | source | states |
|---|---|---|
| BoundaryWrap.ReflectAxis | src/rocket.rs:102-115 | one axis of the wrap: a coordinate inside the closed band is kept, one outside is negated and lands outside again; the magnitude never changes |
| BoundaryWrap.Wrap | src/rocket.rs:102-115 | the x step then the y step: each coordinate is reflected against its own half-extent, independently of the other; z is kept |
| BoundaryWrap.WrapX | src/rocket.rs:102-108 | the x step leaves y and z alone |
| BoundaryWrap.WrapY | src/rocket.rs:109-115 | the y step leaves x and z alone |
| BoundaryWrap.WrapTransform | src/rocket.rs:101-115 | the wrap rewrites only the translation; the heading is kept |
| BoundaryWrap.WrapInsideUnchanged | src/rocket.rs:102-115 | a position inside both half-extents is not moved |
| BoundaryWrap.WrapXOutside | src/rocket.rs:102-108 | outside on x, the x step yields (-x, y, z) |
| BoundaryWrap.WrapCorner | src/rocket.rs:102-115 | outside on both axes, one pass negates both coordinates |
| BoundaryWrap.WrapPreservesMagnitude | src/rocket.rs:102-115 | the wrap keeps each coordinate's distance from the centre line |
| BoundaryWrap.WrapInvolution | src/rocket.rs:102-115 | wrapping twice gives back the original position |
| BoundaryWrap.WrapAll | src/rocket.rs:99-116 | every element of the collected list is wrapped in place by the same rule |
| BoundaryWrap.LegacyClipRockets | src/main.rs:276-296 | the older wrap on every transform, with bounds 670 and 380, per coordinate |
| Rockets.Rocket.constructor | src/rocket.rs:5-15 | a rocket starts at rest: speed 0, zero velocity, no spin, last shot at time 0, with the given configuration |
| Rockets.AddRockets | src/rocket.rs:29-96 | the two rockets at match start: positions (-400, 200, 1) and (400, -200, 1), cap 150, radius 50, bindings A/D/S fire W with cooldown 500 ms and J/L/K fire I with cooldown 300 ms, both at rest |
| Rockets.ClipRockets | src/rocket.rs:98-117 | the rocket wrap at 510 by 380 on every rocket transform; an in-bounds rocket is untouched |
| Flight.NextSpeed | src/main.rs:193-201 | thrust never lowers speed and coasting never raises it; each tick the speed changes by nothing or by exactly 50·dt; a capped or stopped rocket keeps its speed; the step may overshoot the cap or undershoot zero by less than one step |
| Flight.RotationInput | src/main.rs:203-209 | +1 exactly when only left is held, -1 exactly when only right is held, 0 exactly when both or neither are held |
| Flight.Clamp | src/main.rs:214-216 | the result lies in [lo, hi], equals x inside it and the nearer bound outside it |
| Flight.ClampedRotationSpeed | src/main.rs:211-216 | the spin after input and clamping never exceeds 70°/s either way; from a legal spin, left never lowers it, right never raises it, and no input keeps it |
| Flight.NextRotationSpeed | src/main.rs:211-222 | the end-of-tick spin is within ±70°/s; both rotate keys reset it to exactly 0; otherwise it is the clamped spin |
| Flight.Turn | src/main.rs:218 | composing a heading with a z rotation by spin·dt adds spin·dt to the angle; used for both turns of the tick (src/main.rs:218 and 224) |
| Flight.MovementStep | src/main.rs:187-233 | one tick of flight: new speed by the thrust rule, heading turned by the clamped spin and then the final spin, velocity = heading direction × new speed (the old velocity is discarded), position advanced by velocity × dt |
| Flight.HandleRocketMovement | src/main.rs:187-233 | the step-by-step flight code yields exactly MovementStep on the rocket and its transform; the spin stays within ±70°/s; z does not change |
| Flight.UpdateRocketStatus | src/main.rs:235-244 | every rocket entity gets one MovementStep with its own transform; the last-shot time is untouched |
| Flight.SpeedStaysInBand | src/main.rs:193-201 | over any sequence of ticks with dt ≤ dtMax, the speed stays in [-50·dtMax, cap + 50·dtMax] |
| Flight.CoastNeverRises | src/main.rs:197-201 | with accelerate released the speed never rises, over any number of ticks |
| Flight.CoastStopped | src/main.rs:197-201 | a rocket at or below zero speed keeps that speed while coasting |
| Flight.CoastComesToRest | src/main.rs:197-201 | after enough coasting ticks the speed is in (-50·dt, 0], so it is not always exactly zero |
| Collision.AreRocketsColliding | src/main.rs:246-259 | the box test exactly as written: two 50×50 boxes centred on the planar positions overlap unless one lies wholly left, right, below or above the other |
| Collision.CollidingIffClose | src/main.rs:246-259 | the box test holds exactly when the centres are at most 50 apart on x and on y |
| Collision.CollidingSymmetric | src/main.rs:246-259 | the box test does not depend on argument order |
| Collision.CollidingWhenCoincident | src/main.rs:246-259 | two rockets at the same planar position always collide |
| Collision.PairsFromExact | src/main.rs:264-265 | from outer index i onwards the nested loops visit exactly the pairs i ≤ a < b < n, in strictly increasing order |
| Collision.AllPairsOnce | src/main.rs:264-265 | the whole scan visits every unordered pair of distinct rockets exactly once and never a rocket with itself |
| Collision.CheckCollision | src/main.rs:261-274 | the scan visits each pair i < j once and reports exactly the visited pairs whose boxes overlap |
| Gravity.InDeadZone | src/main.rs:305-310 | the skip test without a square root: squared distance from the sun below 70·70 |
| Gravity.DeadZoneIsDistance | src/main.rs:305-310 | the squared dead-zone test is the game's test `distance to the sun < 70` |
| Gravity.Pulled | src/main.rs:312-316 | the velocity plus the inverse-square pull for dt: force G/d² along the unit vector toward the sun |
| Gravity.Cap | src/main.rs:318-320 | after the cap the velocity is no longer than max_speed; a velocity within the cap is unchanged; a longer one is scaled to length exactly max_speed, keeping its direction |
| Gravity.CapLength | src/main.rs:318-320 | normalizing and scaling by max_speed gives length max_speed, parallel and same-facing |
| Gravity.Advance | src/main.rs:321-322 | moving by the velocity keeps the heading and z |
| Gravity.GravityStep | src/main.rs:302-323 | in the dead zone nothing changes; otherwise the velocity gains the inverse-square pull, is capped (so its length is at most max_speed), and the position moves by it; heading and z are kept |
| Gravity.GravitationalPull | src/main.rs:298-324 | every rocket and transform gets one GravityStep; speed, spin and last-shot time are untouched |
| Bullets.NewBullet | src/bullet.rs:24-40 | a bullet spawns 50 units ahead of the rocket along its heading, with the rocket's heading, the rocket's z and speed 300 |
| Bullets.CanFire | src/bullet.rs:21-22 | the fire condition: the spawn key went down this frame and at least the cooldown has elapsed since the last shot |
| Bullets.SpawnBullet | src/bullet.rs:9-47 | a rocket fires exactly when its spawn key went down this frame and at least its cooldown has elapsed since its last shot; each shooter spawns one bullet and records the frame time; other rockets and all other fields are unchanged |
| Bullets.FireTimesSpaced | src/bullet.rs:21-44 | for any sequence of key presses, shots are at presses, the first at least one cooldown after the last shot and each later one at least one cooldown after the previous |
| Bullets.TwoPresses | src/bullet.rs:21-44 | two presses less than a cooldown apart fire once; a second press a full cooldown later fires again |
| Bullets.MoveBullet | src/bullet.rs:55-57 | a bullet keeps its speed, heading and z while moving |
| Bullets.OffScreen | src/bullet.rs:58 | the retirement test: y above 510 or below -380; x is not checked |
| Bullets.HandleBulletMovement | src/bullet.rs:50-62 | every bullet moves one frame in place; exactly those above 510 or below -380 afterwards are listed for despawn, each once |
| Bullets.BulletClimbsStraightUp | src/bullet.rs:56-57 | a bullet heading straight up moves up by speed·dt in a frame, with x and z unchanged |
| Bullets.BulletClimbsFivePerFrame | src/bullet.rs:56-57 | a bullet heading straight up climbs 5 units in a 1/60 s frame and does not drift sideways |
| Bullets.BulletFliesStraight | src/bullet.rs:55-57 | after n equal frames a bullet is n·speed·dt along its heading from where it started, with its speed and heading unchanged |
| Bullets.Hits | src/bullet.rs:71-75 | the hit test without a square root: squared planar distance below 30·30 |
| Bullets.HitsIsDistance | src/bullet.rs:71-75 | the squared hit test is the game's test `planar distance < 30` |
| Bullets.HitCountPositive | src/bullet.rs:70-78 | a rocket's hit count over the bullets is positive exactly when some bullet is within 30 of it |
| Bullets.CheckBulletColl | src/bullet.rs:64-81 | a rocket is listed for despawn exactly when some bullet is within 30 of it in the plane, and exactly as many times as there are such bullets; the list holds only rocket indices, in scan order |

## Left out

- Rendering and setup are not part of this model: the window, camera, sun mesh and
  shader material, sprite and image loading, and plugin and schedule registration
  (src/main.rs:35-93 and 155-185, the sprite parts of src/rocket.rs:29-57, the sprite and
  scale of spawned bullets).
- Trigonometry is left out. The initial headings that point the rockets at the sun
  are parameters of `Rockets.AddRockets`. The forward direction of a heading is a
  parameter `forward`. The bullet members (`Bullets.MoveBullet`,
  `Bullets.HandleBulletMovement`, `Bullets.BulletAfter`,
  `Bullets.BulletFliesStraight`) require that direction to be a unit vector, as a
  rotated unit axis is. The `.normalize()` of src/bullet.rs:56 is then the
  identity, and it is not written out.
- Arithmetic is exact real arithmetic. f32 rounding and the NaN of normalizing a
  zero vector are not modelled.
- The square root is a host function given as a parameter.
- The engine's scheduling, queries and command buffers are left out. Systems run
  over a list of rocket objects and an array of transforms. Despawns and spawns
  are returned as lists, not applied.
- Keyboard state is given as sets of keys (held, or went down this frame). The
  clock is given as the frame time `dt` and the elapsed time in milliseconds.
- The `add_rockets` in src/main.rs:94-153 is not part of this model. src/main.rs
  registers its own earlier configuration at startup (src/main.rs:65): rockets at
  (-550, 250, 10) and (550, -250, 10), speed cap 200, the same movement keys, and
  no fire key, cooldown or collision radius. `Rockets.AddRockets` models the
  configuration in src/rocket.rs:29-96.
- src/main.rs declares no `rocket` or `bullet` module and registers only
  `update_rocket_status`, `gravitational_pull`, `check_collision` and its own
  `clip_rockets` (src/main.rs:1-10, 66-74). The model follows src/rocket.rs and
  src/bullet.rs as written (the rocket record, `add_rockets`, the rocket wrap
  and the weapon systems), although that src/main.rs does not wire them in.
- Flight.HandleRocketMovement: takes the transform by value and returns the new
  one, rather than a mutable reference.
- Bullets.CanFire: requires the last shot not to lie in the future, because the
  engine's duration subtraction panics then.
- Gravity.GravitationalPull: requires every speed cap to be non-negative. The
  source would normalize a zero vector or flip the velocity otherwise.
- No system reads `radius_collision`. The only rule that removes a rocket is the
  bullet hit scan (src/bullet.rs:77, `Bullets.CheckBulletColl`). Rocket–rocket
  and rocket–sun contact remove nothing, and nothing ends the match.
