/** Boundary wrap: a coordinate that leaves the playfield's half-extent is
    mirrored by negating it (not clamped, not taken modulo the width).
    The x rule runs first and the y rule second, each on its own axis. */
module BoundaryWrap {
  import opened Geometry

  /** Whether a coordinate lies inside the closed band [-bound, bound]. */
  predicate Inside(v: real, bound: real)
  {
    -bound <= v <= bound
  }

  /** One axis of the wrap: mirror the coordinate when it is outside the band. */
  function ReflectAxis(v: real, bound: real): (r: real)
    ensures Abs(r) == Abs(v)
    ensures Inside(v, bound) ==> r == v
    ensures !Inside(v, bound) ==> r == -v && !Inside(r, bound)
  {
    if v < -bound || v > bound then -v else v
  }

  /** The x step: the translation rebuilt with x negated when x is outside [-w, w]. */
  function WrapX(p: Vec3, w: real): (r: Vec3)
    ensures r.y == p.y && r.z == p.z
  {
    if p.x < -w || p.x > w then Vec3(-p.x, p.y, p.z) else p
  }

  /** The y step: the translation rebuilt with y negated when y is outside [-h, h]. */
  function WrapY(p: Vec3, h: real): (r: Vec3)
    ensures r.x == p.x && r.z == p.z
  {
    if p.y < -h || p.y > h then Vec3(p.x, -p.y, p.z) else p
  }

  /** The whole wrap of one translation: the x step, then the y step on its result. */
  function Wrap(p: Vec3, w: real, h: real): (r: Vec3)
    ensures r.x == ReflectAxis(p.x, w)
    ensures r.y == ReflectAxis(p.y, h)
    ensures r.z == p.z
  {
    WrapY(WrapX(p, w), h)
  }

  /** A transform after the wrap: only its translation changes. */
  function WrapTransform(t: Transform, w: real, h: real): (r: Transform)
    ensures r.angle == t.angle
    ensures r.translation == Wrap(t.translation, w, h)
  {
    t.(translation := Wrap(t.translation, w, h))
  }

  /** A position inside both half-extents is left where it is. */
  lemma WrapInsideUnchanged(p: Vec3, w: real, h: real)
    requires Abs(p.x) <= w && Abs(p.y) <= h
    ensures Wrap(p, w, h) == p
  {
  }

  /** A position outside on x has x negated while y and z are untouched by that step. */
  lemma WrapXOutside(p: Vec3, w: real)
    requires p.x < -w || p.x > w
    ensures WrapX(p, w) == Vec3(-p.x, p.y, p.z)
  {
  }

  /** Corner wrap: both axes outside means both are negated in the same pass. */
  lemma WrapCorner(p: Vec3, w: real, h: real)
    requires !Inside(p.x, w) && !Inside(p.y, h)
    ensures Wrap(p, w, h) == Vec3(-p.x, -p.y, p.z)
  {
  }

  /** The wrap keeps the distance of each coordinate from the centre line. */
  lemma WrapPreservesMagnitude(p: Vec3, w: real, h: real)
    ensures Abs(Wrap(p, w, h).x) == Abs(p.x)
    ensures Abs(Wrap(p, w, h).y) == Abs(p.y)
  {
  }

  /** Wrapping twice gives back the original translation: the wrap is an involution. */
  lemma WrapInvolution(p: Vec3, w: real, h: real)
    ensures Wrap(Wrap(p, w, h), w, h) == p
  {
  }

  /** Every transform of the collected list is wrapped in place, one element per
      iteration, x step then y step; each element gets the same rule. */
  method WrapAll(pos: array<Transform>, w: real, h: real)
    modifies pos
    ensures forall i :: 0 <= i < pos.Length ==> pos[i] == WrapTransform(old(pos[i]), w, h)
  {
    for i := 0 to pos.Length
      invariant forall k :: 0 <= k < i ==> pos[k] == WrapTransform(old(pos[k]), w, h)
      invariant forall k :: i <= k < pos.Length ==> pos[k] == old(pos[k])
    {
      var t := pos[i];
      if t.translation.x < -w || t.translation.x > w {
        pos[i] := t.(translation := Vec3(-t.translation.x, t.translation.y, t.translation.z));
      }
      t := pos[i];
      if t.translation.y < -h || t.translation.y > h {
        pos[i] := t.(translation := Vec3(t.translation.x, -t.translation.y, t.translation.z));
      }
    }
  }

  /** Half-extents of the older wrap system, which applies to every transform. */
  const LEGACY_W_CLIP: real := 670.0
  const LEGACY_H_CLIP: real := 380.0

  /** The older wrap system: every transform in the world, bounds 670 by 380. */
  method LegacyClipRockets(pos: array<Transform>)
    modifies pos
    ensures forall i :: 0 <= i < pos.Length ==>
      pos[i].angle == old(pos[i].angle) &&
      pos[i].translation.z == old(pos[i].translation.z) &&
      pos[i].translation.x == (if Inside(old(pos[i].translation.x), LEGACY_W_CLIP) then old(pos[i].translation.x) else -old(pos[i].translation.x)) &&
      pos[i].translation.y == (if Inside(old(pos[i].translation.y), LEGACY_H_CLIP) then old(pos[i].translation.y) else -old(pos[i].translation.y))
  {
    WrapAll(pos, LEGACY_W_CLIP, LEGACY_H_CLIP);
  }
}
