/** Vector and transform math the simulation is written against.
    Coordinates are exact reals: the f32 rounding of the game is not modelled.
    A rotation is only ever about the z axis, so a transform's rotation is its
    z angle in radians; the unit forward vector of an angle (rotation * Y) is
    trigonometry and is passed in as a function wherever it is needed. */
module Geometry {

  /** Elapsed frame time in seconds; the engine clock never reports a negative delta. */
  type Seconds = r: real | 0.0 <= r

  /** Engine time (elapsed time, cooldowns) as whole milliseconds. */
  type Millis = nat

  datatype Vec2 = Vec2(x: real, y: real)

  datatype Vec3 = Vec3(x: real, y: real, z: real)

  /** The part of an entity's transform the simulation reads and writes (scale is render-only). */
  datatype Transform = Transform(translation: Vec3, angle: real)

  function Abs(r: real): (a: real)
    ensures 0.0 <= a && (a == r || a == -r)
  {
    if r < 0.0 then -r else r
  }

  function Add(a: Vec2, b: Vec2): Vec2
  {
    Vec2(a.x + b.x, a.y + b.y)
  }

  function Scale(v: Vec2, k: real): Vec2
  {
    Vec2(v.x * k, v.y * k)
  }

  function Dot(a: Vec2, b: Vec2): real
  {
    a.x * b.x + a.y * b.y
  }

  function Cross(a: Vec2, b: Vec2): real
  {
    a.x * b.y - a.y * b.x
  }

  function LengthSq(v: Vec2): (r: real)
    ensures 0.0 <= r
  {
    v.x * v.x + v.y * v.y
  }

  /** Vec3::truncate: drop the z coordinate. */
  function Truncate(v: Vec3): Vec2
  {
    Vec2(v.x, v.y)
  }

  /** Vec2::extend: add a z coordinate. */
  function Extend(v: Vec2, z: real): Vec3
  {
    Vec3(v.x, v.y, z)
  }

  function Add3(a: Vec3, b: Vec3): Vec3
  {
    Vec3(a.x + b.x, a.y + b.y, a.z + b.z)
  }

  function Scale3(v: Vec3, k: real): Vec3
  {
    Vec3(v.x * k, v.y * k, v.z * k)
  }

  function DistanceSq(a: Vec2, b: Vec2): (r: real)
    ensures 0.0 <= r
  {
    LengthSq(Vec2(a.x - b.x, a.y - b.y))
  }

  /** The host's square root: non-negative, and it squares back to its argument. */
  ghost predicate IsSqrt(sqrt: real -> real)
  {
    forall x: real :: 0.0 <= x ==> 0.0 <= sqrt(x) && sqrt(x) * sqrt(x) == x
  }

  lemma LengthSqScale(v: Vec2, k: real)
    ensures LengthSq(Scale(v, k)) == k * k * LengthSq(v)
  {
    calc {
      LengthSq(Scale(v, k));
      (v.x * k) * (v.x * k) + (v.y * k) * (v.y * k);
      k * k * (v.x * v.x) + k * k * (v.y * v.y);
      k * k * LengthSq(v);
    }
  }

  lemma LessTrans(a: real, b: real, c: real)
    requires a <= b && b < c
    ensures a < c
  {
  }

  lemma AtMostTrans(a: real, b: real, c: real)
    requires a <= b && b <= c
    ensures a <= c
  {
  }

  /** Squaring is strictly monotone on the non-negative reals. */
  lemma SquareLess(a: real, b: real)
    requires 0.0 <= a < b
    ensures a * a < b * b
  {
    LessTrans(a * a, a * b, b * b);
  }

  lemma SquareAtMost(a: real, b: real)
    requires 0.0 <= a <= b
    ensures a * a <= b * b
  {
    AtMostTrans(a * a, a * b, b * b);
  }

  /** Comparing a length against a non-negative bound is the same as comparing squares. */
  lemma SqrtBelow(sqrt: real -> real, x: real, c: real)
    requires IsSqrt(sqrt) && 0.0 <= x && 0.0 <= c
    ensures sqrt(x) < c <==> x < c * c
  {
    var s := sqrt(x);
    assert 0.0 <= s && s * s == x;
    if s < c {
      SquareLess(s, c);
    } else {
      SquareAtMost(c, s);
    }
  }

  /** Comparing a length against a non-negative bound, non-strictly. */
  lemma SqrtAtMost(sqrt: real -> real, x: real, c: real)
    requires IsSqrt(sqrt) && 0.0 <= x && 0.0 <= c
    ensures sqrt(x) <= c <==> x <= c * c
  {
    var s := sqrt(x);
    assert 0.0 <= s && s * s == x;
    if s <= c {
      SquareAtMost(s, c);
    } else {
      SquareLess(c, s);
    }
  }

  lemma DotScale(v: Vec2, k: real)
    ensures Dot(Scale(v, k), v) == k * LengthSq(v)
  {
    calc {
      Dot(Scale(v, k), v);
      (v.x * k) * v.x + (v.y * k) * v.y;
      k * (v.x * v.x) + k * (v.y * v.y);
      k * LengthSq(v);
    }
  }

  lemma CrossScale(v: Vec2, k: real)
    ensures Cross(Scale(v, k), v) == 0.0
  {
    calc {
      Cross(Scale(v, k), v);
      (v.x * k) * v.y - (v.y * k) * v.x;
      k * (v.x * v.y) - k * (v.x * v.y);
      0.0;
    }
  }

  lemma MulNonNeg(a: real, b: real)
    requires 0.0 <= a && 0.0 <= b
    ensures 0.0 <= a * b
  {
  }

  /** The square root of a square of a non-negative number is that number. */
  lemma SqrtOfSquare(sqrt: real -> real, m: real)
    requires IsSqrt(sqrt) && 0.0 <= m
    ensures sqrt(m * m) == m
  {
    var s := sqrt(m * m);
    assert 0.0 <= s && s * s == m * m;
    if s < m {
      SquareLess(s, m);
    } else if m < s {
      SquareLess(m, s);
    }
  }
}
