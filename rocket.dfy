/** The rocket record, the initial two-rocket configuration and the rocket-only wrap. */
module Rockets {
  import opened Geometry
  import BoundaryWrap

  /** The keys the two players' bindings use. */
  datatype Key = KeyA | KeyD | KeyS | KeyW | KeyJ | KeyL | KeyK | KeyI

  datatype RocketControls = RocketControls(rotateLeft: Key, rotateRight: Key, accelerate: Key)

  /** One player's rocket. The configuration (speed cap, collision radius,
      bindings, cooldown) is fixed at creation; speed, velocity, rotation speed
      and the time of the last shot change every tick. */
  class Rocket {
    var speed: real
    const maxSpeed: real
    var velocity: Vec2
    var rotationSpeed: real
    const radiusCollision: real
    const controls: RocketControls
    const spawnKey: Key
    const cooldown: Millis
    var lastShotTime: Millis

    constructor (maxSpeed: real, radiusCollision: real, controls: RocketControls, spawnKey: Key, cooldown: Millis)
      ensures this.maxSpeed == maxSpeed && this.radiusCollision == radiusCollision
      ensures this.controls == controls && this.spawnKey == spawnKey && this.cooldown == cooldown
      ensures speed == 0.0 && velocity == Vec2(0.0, 0.0) && rotationSpeed == 0.0 && lastShotTime == 0
    {
      this.speed := 0.0;
      this.maxSpeed := maxSpeed;
      this.velocity := Vec2(0.0, 0.0);
      this.rotationSpeed := 0.0;
      this.radiusCollision := radiusCollision;
      this.controls := controls;
      this.spawnKey := spawnKey;
      this.cooldown := cooldown;
      this.lastShotTime := 0;
    }
  }

  /** No rocket appears twice in a collection of rocket entities. */
  ghost predicate Distinct(rockets: seq<Rocket>)
  {
    forall i, j :: 0 <= i < j < |rockets| ==> rockets[i] != rockets[j]
  }

  const SPAWN_X: real := 400.0
  const SPAWN_Y: real := 200.0

  /** The two rockets at match start, with their transforms. The initial headings
      point each rocket at the sun; they are trigonometry and come in as angles. */
  method AddRockets(angleA: real, angleB: real)
    returns (a: Rocket, ta: Transform, b: Rocket, tb: Transform)
    ensures fresh(a) && fresh(b) && a != b
    ensures ta == Transform(Vec3(-SPAWN_X, SPAWN_Y, 1.0), angleA)
    ensures tb == Transform(Vec3(SPAWN_X, -SPAWN_Y, 1.0), angleB)
    ensures a.speed == 0.0 && a.maxSpeed == 150.0 && a.radiusCollision == 50.0
    ensures a.velocity == Vec2(0.0, 0.0) && a.rotationSpeed == 0.0
    ensures a.controls == RocketControls(KeyA, KeyD, KeyS) && a.spawnKey == KeyW
    ensures a.cooldown == 500 && a.lastShotTime == 0
    ensures b.speed == 0.0 && b.maxSpeed == 150.0 && b.radiusCollision == 50.0
    ensures b.velocity == Vec2(0.0, 0.0) && b.rotationSpeed == 0.0
    ensures b.controls == RocketControls(KeyJ, KeyL, KeyK) && b.spawnKey == KeyI
    ensures b.cooldown == 300 && b.lastShotTime == 0
    ensures 0.0 <= a.speed <= a.maxSpeed && 0.0 <= b.speed <= b.maxSpeed
  {
    ta := Transform(Vec3(-SPAWN_X, SPAWN_Y, 1.0), angleA);
    tb := Transform(Vec3(SPAWN_X, -SPAWN_Y, 1.0), angleB);
    a := new Rocket(150.0, 50.0, RocketControls(KeyA, KeyD, KeyS), KeyW, 500);
    b := new Rocket(150.0, 50.0, RocketControls(KeyJ, KeyL, KeyK), KeyI, 300);
  }

  /** Half-extents of the playfield for rockets. */
  const W_CLIP: real := 510.0
  const H_CLIP: real := 380.0

  /** The rocket wrap: each rocket's translation is wrapped in place against 510 by 380. */
  method ClipRockets(pos: array<Transform>)
    modifies pos
    ensures forall i :: 0 <= i < pos.Length ==> pos[i] == BoundaryWrap.WrapTransform(old(pos[i]), W_CLIP, H_CLIP)
    ensures forall i :: 0 <= i < pos.Length && Abs(old(pos[i].translation.x)) <= W_CLIP && Abs(old(pos[i].translation.y)) <= H_CLIP ==>
      pos[i] == old(pos[i])
  {
    BoundaryWrap.WrapAll(pos, W_CLIP, H_CLIP);
  }
}
