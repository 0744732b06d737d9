/** The unit sphere at the origin of its local frame (`Sphere::intersectLocal`,
    src/SceneObjects/Sphere.cpp). */
module Sphere {
  import opened Common
  import opened Vectors
  import opened Materials
  import opened Rays

  const Pi: real := 3.14159265

  /** With v = -origin and b = v.d, the quarter discriminant b^2 - v.v + 1 of the ray against
      the unit sphere. */
  function HalfB(r: Ray): real { r.origin.Neg().Dot(r.dir) }

  function Discriminant(r: Ray): real
  {
    var v := r.origin.Neg();
    HalfB(r) * HalfB(r) - v.Dot(v) + 1.0
  }

  /** The far root b + sqrt(disc) and the near root b - sqrt(disc). */
  function FarRoot(m: Math, r: Ray): (t: real)
    ensures Lawful(m) && Discriminant(r) >= 0.0 ==> t >= HalfB(r)
  {
    HalfB(r) + m.sqrt(Discriminant(r))
  }

  /** The near root is the nearer of the two, and they coincide for a grazing ray. */
  function NearRoot(m: Math, r: Ray): (t: real)
    ensures Lawful(m) && Discriminant(r) >= 0.0 ==> t <= HalfB(r) <= FarRoot(m, r)
    ensures Lawful(m) && Discriminant(r) == 0.0 ==> t == HalfB(r) == FarRoot(m, r)
  {
    HalfB(r) - m.sqrt(Discriminant(r))
  }

  /** The hit on the sphere, or None when the record is left untouched: a negative
      discriminant, or a far root not beyond RAY_EPSILON. On a hit the record takes the near
      root when it lies beyond RAY_EPSILON and the far root otherwise, the unit normal at that
      point, the spherical texture coordinates and this sphere as its object; its material
      and barycentric coordinates are kept. */
  function Intersect(m: Math, r: Ray, i: Isect, self: int): (res: Option<Isect>)
    ensures res.None? <==> Discriminant(r) < 0.0 || FarRoot(m, r) <= RayEpsilon
    ensures res.Some? ==>
              res.value.t > RayEpsilon &&
              (NearRoot(m, r) > RayEpsilon ==> res.value.t == NearRoot(m, r)) &&
              (NearRoot(m, r) <= RayEpsilon ==> res.value.t == FarRoot(m, r)) &&
              res.value.n == m.normalize(r.At(res.value.t)) &&
              res.value.obj == self && res.value.mat == i.mat && res.value.bary == i.bary
    ensures res.Some? && Lawful(m) ==> res.value.t <= FarRoot(m, r)
  {
    var disc := Discriminant(r);
    if disc < 0.0 then None
    else
      var t2 := FarRoot(m, r);
      if t2 <= RayEpsilon then None
      else
        var t1 := NearRoot(m, r);
        var t := if t1 > RayEpsilon then t1 else t2;
        var n := m.normalize(r.At(t));
        var uv := UV(0.5 + m.atan2(-1.0 * n.z, -1.0 * n.x) / (2.0 * Pi), 0.5 - m.asin(-1.0 * n.y) / Pi);
        Some(i.(t := t, n := n, uv := uv, obj := self))
  }

  /** With an exact square root and a unit direction, the point reported lies on the unit
      sphere. */
  lemma HitOnSphere(m: Math, r: Ray, i: Isect, self: int)
    requires Intersect(m, r, i, self).Some?
    requires m.sqrt(Discriminant(r)) * m.sqrt(Discriminant(r)) == Discriminant(r)
    requires r.dir.Dot(r.dir) == 1.0
    ensures var p := r.At(Intersect(m, r, i, self).value.t); p.Dot(p) == 1.0
  {
    var t := Intersect(m, r, i, self).value.t;
    var s := m.sqrt(Discriminant(r));
    assert t == NearRoot(m, r) || t == FarRoot(m, r);
    RootOnSphere(r, s, t);
  }

  /** A root b - s or b + s of the quadratic, with s * s the discriminant, is a point of
      the unit sphere when the direction is a unit vector. */
  lemma RootOnSphere(r: Ray, s: real, t: real)
    requires s * s == Discriminant(r) && r.dir.Dot(r.dir) == 1.0
    requires t == HalfB(r) - s || t == HalfB(r) + s
    ensures r.At(t).Dot(r.At(t)) == 1.0
  {
    var o, d := r.origin, r.dir;
    var oo, od := o.Dot(o), o.Dot(d);
    assert HalfB(r) == -od;
    assert o.Neg().Dot(o.Neg()) == oo;
    DotAlongRay(o, d, t);
    QuadraticRoot(HalfB(r), s, t, oo);
  }

  /** The algebra of `RootOnSphere`: (t - b)^2 = s^2 = b^2 - |o|^2 + 1. */
  lemma QuadraticRoot(b: real, s: real, t: real, oo: real)
    requires s * s == b * b - oo + 1.0
    requires t == b - s || t == b + s
    ensures oo - 2.0 * t * b + t * t == 1.0
  {
    assert (t - b) * (t - b) == s * s;
  }

  lemma DotAlongRay(o: Vec3, d: Vec3, t: real)
    ensures o.Add(d.Scale(t)).Dot(o.Add(d.Scale(t))) == o.Dot(o) + 2.0 * t * o.Dot(d) + t * t * d.Dot(d)
  {
  }
}
