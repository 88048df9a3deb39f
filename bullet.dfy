/** The weapon system: cooldown-gated firing, bullet flight and retirement, and
    the rocket-bullet hit scan. */
module Bullets {
  import opened Geometry
  import opened Rockets

  const BULLET_SPEED: real := 300.0

  /** Bullets appear this far ahead of the rocket's centre. */
  const SPAWN_PADDING: real := 50.0

  /** Bullets are retired above this height or below the next one. */
  const TOP_LIMIT: real := 510.0
  const BOTTOM_LIMIT: real := -380.0

  /** A bullet closer than this to a rocket's centre hits it. */
  const HIT_RADIUS: real := 30.0

  /** A bullet entity: its transform and its constant speed. */
  datatype Bullet = Bullet(transform: Transform, speed: real)

  /** The fire condition: the spawn key went down this frame and at least the
      cooldown has passed since the last shot. Engine durations cannot go
      negative, so the last shot must not lie in the future. */
  predicate CanFire(justPressed: bool, now: Millis, lastShotTime: Millis, cooldown: Millis)
    requires lastShotTime <= now
  {
    justPressed && now - lastShotTime >= cooldown
  }

  /** The bullet a rocket fires: ahead of the rocket along its heading, with the
      rocket's heading and the fixed bullet speed (not the rocket's speed). */
  function NewBullet(t: Transform, forward: real -> Vec2): (b: Bullet)
    ensures b.speed == BULLET_SPEED && b.transform.angle == t.angle
    ensures b.transform.translation.z == t.translation.z
    ensures Truncate(b.transform.translation) == Add(Truncate(t.translation), Scale(forward(t.angle), SPAWN_PADDING))
  {
    var direction := Extend(forward(t.angle), 0.0);
    Bullet(Transform(Add3(t.translation, Scale3(direction, SPAWN_PADDING)), t.angle), BULLET_SPEED)
  }

  /** The firing system for one frame. Each rocket whose fire condition holds
      spawns exactly one bullet and records the frame time as its last shot;
      every other rocket is left as it was. `shooters` lists, in order, the
      rockets that fired; `spawned[m]` is the bullet of `shooters[m]`. */
  method SpawnBullet(now: Millis, justPressed: set<Key>, rockets: seq<Rocket>, transforms: seq<Transform>, forward: real -> Vec2)
    returns (spawned: seq<Bullet>, shooters: seq<nat>)
    requires |rockets| == |transforms| && Distinct(rockets)
    requires forall k :: 0 <= k < |rockets| ==> rockets[k].lastShotTime <= now
    modifies rockets
    ensures |spawned| == |shooters| <= |rockets|
    ensures forall m :: 0 <= m < |shooters| ==> shooters[m] < |rockets| && spawned[m] == NewBullet(transforms[shooters[m]], forward)
    ensures forall m, l :: 0 <= m < l < |shooters| ==> shooters[m] < shooters[l]
    ensures forall k :: 0 <= k < |rockets| ==>
      (k in shooters <==> CanFire(rockets[k].spawnKey in justPressed, now, old(rockets[k].lastShotTime), rockets[k].cooldown))
    ensures forall k :: 0 <= k < |rockets| ==>
      rockets[k].lastShotTime == (if k in shooters then now else old(rockets[k].lastShotTime))
    ensures forall k :: 0 <= k < |rockets| ==> rockets[k].lastShotTime <= now
    ensures forall k :: 0 <= k < |rockets| ==>
      rockets[k].speed == old(rockets[k].speed) && rockets[k].velocity == old(rockets[k].velocity) &&
      rockets[k].rotationSpeed == old(rockets[k].rotationSpeed)
  {
    spawned, shooters := [], [];
    for i := 0 to |rockets|
      invariant |spawned| == |shooters| <= i
      invariant forall m :: 0 <= m < |shooters| ==> shooters[m] < i && spawned[m] == NewBullet(transforms[shooters[m]], forward)
      invariant forall m, l :: 0 <= m < l < |shooters| ==> shooters[m] < shooters[l]
      invariant forall k :: 0 <= k < i ==>
        (k in shooters <==> CanFire(rockets[k].spawnKey in justPressed, now, old(rockets[k].lastShotTime), rockets[k].cooldown))
      invariant forall k :: 0 <= k < i ==>
        rockets[k].lastShotTime == (if k in shooters then now else old(rockets[k].lastShotTime))
      invariant forall k :: i <= k < |rockets| ==> rockets[k].lastShotTime == old(rockets[k].lastShotTime)
      invariant forall k :: 0 <= k < |rockets| ==>
        rockets[k].speed == old(rockets[k].speed) && rockets[k].velocity == old(rockets[k].velocity) &&
        rockets[k].rotationSpeed == old(rockets[k].rotationSpeed)
    {
      var rocket := rockets[i];
      if rocket.spawnKey in justPressed && now - rocket.lastShotTime >= rocket.cooldown {
        spawned := spawned + [NewBullet(transforms[i], forward)];
        shooters := shooters + [i];
        rocket.lastShotTime := now;
      }
    }
  }

  /** The times at which a rocket fires, given the times its spawn key goes down
      (in order, none before the last shot). */
  function FireTimes(lastShotTime: Millis, cooldown: Millis, presses: seq<Millis>): seq<Millis>
    requires forall k :: 0 <= k < |presses| ==> lastShotTime <= presses[k]
    requires forall k, l :: 0 <= k < l < |presses| ==> presses[k] <= presses[l]
    decreases |presses|
  {
    if presses == [] then []
    else if CanFire(true, presses[0], lastShotTime, cooldown) then
      [presses[0]] + FireTimes(presses[0], cooldown, presses[1..])
    else
      FireTimes(lastShotTime, cooldown, presses[1..])
  }

  /** Shots are rate limited: the first comes at least one cooldown after the
      previous shot, each later one at least one cooldown after the one before,
      and every shot is at a key press. */
  lemma {:induction false} FireTimesSpaced(lastShotTime: Millis, cooldown: Millis, presses: seq<Millis>)
    requires forall k :: 0 <= k < |presses| ==> lastShotTime <= presses[k]
    requires forall k, l :: 0 <= k < l < |presses| ==> presses[k] <= presses[l]
    ensures var shots := FireTimes(lastShotTime, cooldown, presses);
      |shots| <= |presses| &&
      (|shots| > 0 ==> lastShotTime + cooldown <= shots[0]) &&
      (forall m :: 0 < m < |shots| ==> shots[m - 1] + cooldown <= shots[m]) &&
      (forall m :: 0 <= m < |shots| ==> shots[m] in presses)
    decreases |presses|
  {
    if presses != [] {
      if CanFire(true, presses[0], lastShotTime, cooldown) {
        FireTimesSpaced(presses[0], cooldown, presses[1..]);
        var rest := FireTimes(presses[0], cooldown, presses[1..]);
        assert FireTimes(lastShotTime, cooldown, presses) == [presses[0]] + rest;
        forall m | 0 <= m < |rest|
          ensures rest[m] in presses
        {
          assert rest[m] in presses[1..];
        }
      } else {
        FireTimesSpaced(lastShotTime, cooldown, presses[1..]);
        var rest := FireTimes(lastShotTime, cooldown, presses[1..]);
        forall m | 0 <= m < |rest|
          ensures rest[m] in presses
        {
          assert rest[m] in presses[1..];
        }
      }
    }
  }

  /** Two presses less than a cooldown apart give one bullet; a second press at or
      after the cooldown gives a second bullet. */
  lemma TwoPresses(lastShotTime: Millis, cooldown: Millis, t1: Millis, t2: Millis)
    requires lastShotTime + cooldown <= t1 <= t2
    ensures t2 < t1 + cooldown ==> FireTimes(lastShotTime, cooldown, [t1, t2]) == [t1]
    ensures t1 + cooldown <= t2 ==> FireTimes(lastShotTime, cooldown, [t1, t2]) == [t1, t2]
  {
    assert [t1, t2][1..] == [t2];
    assert [t2][1..] == [];
    assert FireTimes(lastShotTime, cooldown, [t1, t2]) == [t1] + FireTimes(t1, cooldown, [t2]);
    assert FireTimes(t1, cooldown, [t2]) == (if t1 + cooldown <= t2 then [t2] else []);
  }

  /** One frame of flight for a bullet: forward along its fixed heading at its
      fixed speed. The engine normalizes the heading's direction before use;
      a rotated unit axis is already of length 1, so the direction is required
      to be a unit vector and used as it is. */
  function MoveBullet(b: Bullet, dt: Seconds, forward: real -> Vec2): (r: Bullet)
    requires LengthSq(forward(b.transform.angle)) == 1.0
    ensures r.speed == b.speed && r.transform.angle == b.transform.angle
    ensures r.transform.translation.z == b.transform.translation.z
  {
    var direction := Extend(forward(b.transform.angle), 0.0);
    b.(transform := b.transform.(translation := Add3(b.transform.translation, Scale3(Scale3(direction, b.speed), dt))))
  }

  /** The retirement band: only y is checked, and the band is not symmetric. */
  predicate OffScreen(p: Vec3)
  {
    p.y > TOP_LIMIT || p.y < BOTTOM_LIMIT
  }

  /** The bullet system for one frame: every bullet is moved in place, then the
      ones outside the band are listed for despawn, each once, in order. */
  method HandleBulletMovement(bullets: array<Bullet>, dt: Seconds, forward: real -> Vec2) returns (despawn: seq<nat>)
    requires forall i :: 0 <= i < bullets.Length ==> LengthSq(forward(bullets[i].transform.angle)) == 1.0
    modifies bullets
    ensures forall i :: 0 <= i < bullets.Length ==> bullets[i] == MoveBullet(old(bullets[i]), dt, forward)
    ensures forall m :: 0 <= m < |despawn| ==> despawn[m] < bullets.Length
    ensures forall m, l :: 0 <= m < l < |despawn| ==> despawn[m] < despawn[l]
    ensures forall i :: 0 <= i < bullets.Length ==> (i in despawn <==> OffScreen(bullets[i].transform.translation))
  {
    despawn := [];
    for i := 0 to bullets.Length
      invariant forall k :: 0 <= k < i ==> bullets[k] == MoveBullet(old(bullets[k]), dt, forward)
      invariant forall k :: i <= k < bullets.Length ==> bullets[k] == old(bullets[k])
      invariant forall m :: 0 <= m < |despawn| ==> despawn[m] < i
      invariant forall m, l :: 0 <= m < l < |despawn| ==> despawn[m] < despawn[l]
      invariant forall k :: 0 <= k < i ==> (k in despawn <==> OffScreen(bullets[k].transform.translation))
    {
      bullets[i] := MoveBullet(bullets[i], dt, forward);
      if bullets[i].transform.translation.y > TOP_LIMIT || bullets[i].transform.translation.y < BOTTOM_LIMIT {
        despawn := despawn + [i];
      }
    }
  }

  /** A bullet heading straight up climbs speed * dt in a frame and does not
      move sideways. */
  lemma BulletClimbsStraightUp(b: Bullet, dt: Seconds, forward: real -> Vec2)
    requires forward(b.transform.angle) == Vec2(0.0, 1.0)
    ensures MoveBullet(b, dt, forward).transform.translation ==
      Vec3(b.transform.translation.x, b.transform.translation.y + b.speed * dt, b.transform.translation.z)
  {
    assert Scale3(Extend(forward(b.transform.angle), 0.0), b.speed) == Vec3(0.0, b.speed, 0.0);
  }

  /** Example of the flight rule: a bullet heading straight up at 300 per second
      climbs 5 units in a 1/60 s frame. */
  lemma BulletClimbsFivePerFrame(b: Bullet, forward: real -> Vec2)
    requires b.speed == BULLET_SPEED && forward(b.transform.angle) == Vec2(0.0, 1.0)
    ensures MoveBullet(b, 1.0 / 60.0, forward).transform.translation ==
      Vec3(b.transform.translation.x, b.transform.translation.y + 5.0, b.transform.translation.z)
  {
    BulletClimbsStraightUp(b, 1.0 / 60.0, forward);
    assert b.speed * (1.0 / 60.0) == 5.0;
  }

  /** The bullet after n frames of the same length. */
  function BulletAfter(b: Bullet, dt: Seconds, forward: real -> Vec2, n: nat): Bullet
    requires LengthSq(forward(b.transform.angle)) == 1.0
    decreases n
  {
    if n == 0 then b else BulletAfter(MoveBullet(b, dt, forward), dt, forward, n - 1)
  }

  /** Bullets fly in a straight line at constant speed: after n equal frames a
      bullet has moved n * speed * dt along its heading, and its speed and heading
      are those it was fired with. */
  lemma {:induction false} BulletFliesStraight(b: Bullet, dt: Seconds, forward: real -> Vec2, n: nat)
    requires LengthSq(forward(b.transform.angle)) == 1.0
    ensures BulletAfter(b, dt, forward, n).speed == b.speed
    ensures BulletAfter(b, dt, forward, n).transform.angle == b.transform.angle
    ensures Truncate(BulletAfter(b, dt, forward, n).transform.translation) ==
      Add(Truncate(b.transform.translation), Scale(forward(b.transform.angle), (n as real) * (b.speed * dt)))
    decreases n
  {
    if n > 0 {
      var b1 := MoveBullet(b, dt, forward);
      BulletFliesStraight(b1, dt, forward, n - 1);
      var f := forward(b.transform.angle);
      var step := b.speed * dt;
      var m := (n - 1) as real;
      assert Truncate(b1.transform.translation) == Add(Truncate(b.transform.translation), Scale(f, step)) by {
        assert f.x * b.speed * dt == f.x * step;
        assert f.y * b.speed * dt == f.y * step;
      }
      assert f.x * step + f.x * (m * step) == f.x * ((n as real) * step);
      assert f.y * step + f.y * (m * step) == f.y * ((n as real) * step);
    }
  }

  /** A bullet hits a rocket when their centres, seen in the plane, are closer than 30. */
  predicate Hits(rocket: Transform, bullet: Transform)
  {
    DistanceSq(Truncate(rocket.translation), Truncate(bullet.translation)) < HIT_RADIUS * HIT_RADIUS
  }

  /** The squared test agrees with the Euclidean distance test `distance < 30`. */
  lemma HitsIsDistance(sqrt: real -> real, rocket: Transform, bullet: Transform)
    requires IsSqrt(sqrt)
    ensures sqrt(DistanceSq(Truncate(rocket.translation), Truncate(bullet.translation))) < HIT_RADIUS <==> Hits(rocket, bullet)
  {
    SqrtBelow(sqrt, DistanceSq(Truncate(rocket.translation), Truncate(bullet.translation)), HIT_RADIUS);
  }

  /** The number of the first n bullets that hit the rocket. */
  function HitCount(rocket: Transform, bullets: seq<Transform>, n: nat): nat
    requires n <= |bullets|
  {
    if n == 0 then 0
    else HitCount(rocket, bullets, n - 1) + (if Hits(rocket, bullets[n - 1]) then 1 else 0)
  }

  /** The count is positive exactly when one of those bullets hits the rocket. */
  lemma {:induction false} HitCountPositive(rocket: Transform, bullets: seq<Transform>, n: nat)
    requires n <= |bullets|
    ensures 0 < HitCount(rocket, bullets, n) <==> exists b :: 0 <= b < n && Hits(rocket, bullets[b])
  {
    if n > 0 {
      HitCountPositive(rocket, bullets, n - 1);
    }
  }

  /** The hit scan: for every rocket and every bullet, a despawn of the rocket
      when the bullet is close enough. A rocket is listed iff some bullet is
      within range, and exactly once per such bullet; bullets are never despawned here, and
      a rocket's own bullets count like any other. */
  method CheckBulletColl(rockets: seq<Transform>, bullets: seq<Transform>) returns (despawn: seq<nat>)
    ensures forall m :: 0 <= m < |despawn| ==> despawn[m] < |rockets|
    ensures forall m, l :: 0 <= m < l < |despawn| ==> despawn[m] <= despawn[l]
    ensures forall r :: 0 <= r < |rockets| ==>
      (r in despawn <==> exists b :: 0 <= b < |bullets| && Hits(rockets[r], bullets[b]))
    ensures forall r :: 0 <= r < |rockets| ==> multiset(despawn)[r] == HitCount(rockets[r], bullets, |bullets|)
  {
    despawn := [];
    for r := 0 to |rockets|
      invariant forall m :: 0 <= m < |despawn| ==> despawn[m] < r
      invariant forall m, l :: 0 <= m < l < |despawn| ==> despawn[m] <= despawn[l]
      invariant forall k :: 0 <= k < r ==> multiset(despawn)[k] == HitCount(rockets[k], bullets, |bullets|)
    {
      ghost var counts: multiset<nat> := multiset(despawn);
      assert counts[r] == 0;
      for b := 0 to |bullets|
        invariant forall m :: 0 <= m < |despawn| ==> despawn[m] <= r
        invariant forall m, l :: 0 <= m < l < |despawn| ==> despawn[m] <= despawn[l]
        invariant forall k :: 0 <= k < r ==> multiset(despawn)[k] == counts[k]
        invariant multiset(despawn)[r] == HitCount(rockets[r], bullets, b)
      {
        assert HitCount(rockets[r], bullets, b + 1) ==
          HitCount(rockets[r], bullets, b) + if Hits(rockets[r], bullets[b]) then 1 else 0;
        if DistanceSq(Truncate(rockets[r].translation), Truncate(bullets[b].translation)) < HIT_RADIUS * HIT_RADIUS {
          despawn := despawn + [r];
        }
      }
    }
    forall r | 0 <= r < |rockets|
      ensures r in despawn <==> exists b :: 0 <= b < |bullets| && Hits(rockets[r], bullets[b])
    {
      HitCountPositive(rockets[r], bullets, |bullets|);
    }
  }
}
