/** Directional and point lights: direction, distance attenuation and shadow attenuation
    (src/scene/light.cpp). */
module Lights {
  import opened Common
  import opened Vectors
  import opened Materials
  import opened Rays

  /** A light source. A point light carries the constant, linear and quadratic coefficients
      of its distance falloff. */
  datatype Light =
    | Directional(color: Vec3, orientation: Vec3)
    | Point(color: Vec3, position: Vec3, constant: real, linear: real, quadratic: real)

  /** `getDirection`: towards the light from P. */
  function Direction(m: Math, l: Light, p: Vec3): (r: Vec3)
    ensures l.Directional? ==> r == l.orientation.Neg()
    ensures l.Point? ==> r == m.normalize(l.position.Sub(p))
  {
    match l
    case Directional(_, orientation) => orientation.Neg()
    case Point(_, position, _, _, _) => m.normalize(position.Sub(p))
  }

  /** `min(1, 1 / (c0 + c1 d + c2 d^2))`: never above 1, and positive when the divisor is. */
  function Falloff(m: Math, c0: real, c1: real, c2: real, d: real): (r: real)
    ensures r <= 1.0
    ensures Lawful(m) && c0 + c1 * d + c2 * d * d > 0.0 ==> 0.0 < r
    ensures Lawful(m) && 0.0 < c0 + c1 * d + c2 * d * d <= 1.0 ==> r == 1.0
  {
    var den := c0 + c1 * d + c2 * d * d;
    Min(1.0, m.div(1.0, den))
  }

  /** `distanceAttenuation`: 1 for a directional light; the falloff at the distance to a
      point light. */
  function DistanceAttenuation(m: Math, l: Light, p: Vec3): (r: real)
    ensures r <= 1.0
    ensures l.Directional? ==> r == 1.0
    ensures l.Point? ==>
              r == Falloff(m, l.constant, l.linear, l.quadratic, Length(m, l.position.Sub(p)))
  {
    match l
    case Directional(_, _) => 1.0
    case Point(_, position, c0, c1, c2) => Falloff(m, c0, c1, c2, Length(m, position.Sub(p)))
  }

  /** The hit that shadows P: for a directional light any hit of the ray towards the light;
      for a point light only a hit nearer than the light itself. */
  function Occluder(m: Math, intersect: Ray -> Option<Isect>, l: Light, p: Vec3): (r: Option<Isect>)
    ensures var h := intersect(Ray(p, Direction(m, l, p), Shadow));
            r.Some? <==> h.Some? && (l.Point? ==> Length(m, l.position.Sub(p)) > h.value.t)
    ensures r.Some? ==> r == intersect(Ray(p, Direction(m, l, p), Shadow))
  {
    var h := intersect(Ray(p, Direction(m, l, p), Shadow));
    match l
    case Directional(_, _) => h
    case Point(_, position, _, _, _) =>
      if h.Some? && Length(m, position.Sub(p)) > h.value.t then h else None
  }

  /** The colour a transmissive occluder lets through: the light colour scaled by a falloff
      of at most 1 and filtered by the occluder's transmission; black when no channel of the
      transmission is positive. The fraction is positive when the falloff's divisor is, and
      the whole colour when the divisor lies in (0, 1]. */
  function Transmitted(m: Math, color: Vec3, kT: Vec3, c0: real, c1: real, c2: real, dist: real): (r: Vec3)
    ensures !kT.AnyPositive() ==> r == Zero
    ensures kT.AnyPositive() ==> exists f :: f <= 1.0 && r == color.Scale(f).Mul(kT)
    ensures kT.AnyPositive() ==>
              exists f ::
                f <= 1.0 &&
                (Lawful(m) && 0.0 < c0 + c1 * dist + c2 * dist * dist ==> 0.0 < f) &&
                (Lawful(m) && 0.0 < c0 + c1 * dist + c2 * dist * dist <= 1.0 ==> f == 1.0) &&
                r == color.Scale(f).Mul(kT)
  {
    if kT.AnyPositive() then color.Scale(Falloff(m, c0, c1, c2, dist)).Mul(kT) else Zero
  }

  /** The colour a light lets through a transmissive occluder at the given distance: the
      fixed coefficients 0.2, 0.2, 0.6 for a directional light and the light's own for a point
      light; a directional light always lets a positive fraction through. */
  function Transmission(m: Math, l: Light, kT: Vec3, dist: real): (r: Vec3)
    ensures !kT.AnyPositive() ==> r == Zero
    ensures kT.AnyPositive() && l.Directional? ==>
              r == l.color.Scale(Falloff(m, 0.2, 0.2, 0.6, dist)).Mul(kT)
    ensures kT.AnyPositive() && l.Point? ==>
              r == l.color.Scale(Falloff(m, l.constant, l.linear, l.quadratic, dist)).Mul(kT)
    ensures kT.AnyPositive() ==> exists f :: f <= 1.0 && r == l.color.Scale(f).Mul(kT)
    ensures Lawful(m) && l.Directional? && kT.AnyPositive() ==>
              exists f :: 0.0 < f <= 1.0 && r == l.color.Scale(f).Mul(kT)
  {
    match l
    case Directional(color, _) =>
      DirectionalDivisorPositive(dist);
      Transmitted(m, color, kT, 0.2, 0.2, 0.6, dist)
    case Point(color, _, c0, c1, c2) => Transmitted(m, color, kT, c0, c1, c2, dist)
  }

  /** The distance the falloff of a shadowed point uses: the length along the second shadow
      ray, cast from the occluding point towards the light, to what it hits; 1 when it hits
      nothing. */
  function ExitDistance(m: Math, intersect: Ray -> Option<Isect>, l: Light, p: Vec3, t: real): real
  {
    var q := Ray(p, Direction(m, l, p), Shadow).At(t);
    match intersect(Ray(q, Direction(m, l, q), Shadow))
    case None => 1.0
    case Some(j) => j.t
  }

  /** `shadowAttenuation`. Unoccluded: white. Occluded: the transmission of the occluder at
      the distance a second shadow ray gives. */
  function ShadowAttenuation(m: Math, intersect: Ray -> Option<Isect>, l: Light, p: Vec3): (r: Vec3)
    requires ShadeableQuery(intersect)
    ensures Occluder(m, intersect, l, p).None? ==> r == White
    ensures Occluder(m, intersect, l, p).Some? ==>
              var i := Occluder(m, intersect, l, p).value;
              var kT := Value(i.mat.kt, i.uv);
              (!kT.AnyPositive() ==> r == Zero) &&
              (kT.AnyPositive() ==> exists f :: f <= 1.0 && r == l.color.Scale(f).Mul(kT))
    ensures Occluder(m, intersect, l, p).Some? ==>
              var i := Occluder(m, intersect, l, p).value;
              r == Transmission(m, l, Value(i.mat.kt, i.uv), ExitDistance(m, intersect, l, p, i.t))
  {
    match Occluder(m, intersect, l, p)
    case None => White
    case Some(i) =>
      Transmission(m, l, Value(i.mat.kt, i.uv), ExitDistance(m, intersect, l, p, i.t))
  }

  /** The divisor of the directional light's fixed falloff, 0.2 + 0.2 d + 0.6 d^2, is positive
      at every distance: it equals 0.6 (d + 1/6)^2 + 11/60. */
  lemma DirectionalDivisorPositive(d: real)
    ensures 0.0 < 0.2 + 0.2 * d + 0.6 * d * d
  {
    var e := d + 1.0 / 6.0;
    assert 0.0 <= e * e;
    assert 0.2 + 0.2 * d + 0.6 * d * d == 0.6 * (e * e) + 11.0 / 60.0;
  }
}
