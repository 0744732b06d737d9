/** The Phong and stylised shading of a hit (`Material::shade`, src/scene/material.cpp). */
module Shading {
  import opened Common
  import opened Vectors
  import opened Materials
  import opened Rays
  import opened Lights
  import opened Settings

  /** What `shade` consults besides the ray and the hit: the maths primitives, the render
      settings, the scene's intersection query (for shadow rays), its lights and its ambient
      colour. */
  datatype Env = Env(m: Math, cfg: Config, intersect: Ray -> Option<Isect>, lights: seq<Light>, ambient: Vec3)

  ghost predicate ValidEnv(e: Env)
  {
    ShadeableQuery(e.intersect)
  }

  /** The coefficient accessors of a material evaluated at a hit. The shininess and refractive
      index accessors are taken to be the luminance of their parameters. */
  function Kd(i: Isect): Vec3 requires Shadeable(i) { Value(i.mat.kd, i.uv) }
  function Ks(i: Isect): Vec3 requires Shadeable(i) { Value(i.mat.ks, i.uv) }
  function Ke(i: Isect): Vec3 requires Shadeable(i) { Value(i.mat.ke, i.uv) }
  function Ka(i: Isect): Vec3 requires Shadeable(i) { Value(i.mat.ka, i.uv) }
  function Kr(i: Isect): Vec3 requires Shadeable(i) { Value(i.mat.kr, i.uv) }
  function Kt(i: Isect): Vec3 requires Shadeable(i) { Value(i.mat.kt, i.uv) }
  function Shininess(i: Isect): real requires Shadeable(i) { IntensityValue(i.mat.shininess, i.uv) }
  function Index(i: Isect): real requires Shadeable(i) { IntensityValue(i.mat.index, i.uv) }

  /** The bump value of a hit (`bump(i, scale)`): the sentinel (2, 2, 2) without a bump map. */
  function Bump(e: Env, i: Isect): Vec3
    requires Shadeable(i)
  {
    BumpValue(e.m, i.mat.bump, i.uv, e.cfg.bumpScale)
  }

  const CoolTone := Vec3(0.0, 0.0, 0.4)
  const WarmTone := Vec3(0.4, 0.4, 0.0)

  /** The cool end of the stylised blend, shown where the surface faces away from the light. */
  function CoolEnd(kd: Vec3): Vec3 { CoolTone.Add(kd.Scale(0.2)) }

  /** The warm end of the stylised blend, shown where the surface faces the light. */
  function WarmEnd(kd: Vec3): Vec3 { WarmTone.Add(kd.Scale(0.6)) }

  /** x lies between a and b, in either order. */
  predicate Between(a: real, b: real, x: real)
  {
    Min(a, b) <= x <= Max(a, b)
  }

  /** A non-negative value times a weight in [0, 1] lies between 0 and the value. */
  lemma ProductWithin(k: real, c: real)
    requires 0.0 <= k && 0.0 <= c <= 1.0
    ensures 0.0 <= k * c <= k
  {
    assert k * c + k * (1.0 - c) == k;
    assert 0.0 <= k * (1.0 - c);
  }

  /** A convex blend of a <= b lies in [a, b]. */
  lemma BlendUp(a: real, b: real, c: real)
    requires a <= b && 0.0 <= c <= 1.0
    ensures a <= c * a + (1.0 - c) * b <= b
  {
    ProductWithin(b - a, 1.0 - c);
    assert c * a + (1.0 - c) * b == a + (b - a) * (1.0 - c);
  }

  /** A convex blend of two values lies between them. */
  lemma BlendBetween(a: real, b: real, c: real)
    requires 0.0 <= c <= 1.0
    ensures Between(a, b, c * a + (1.0 - c) * b)
  {
    if a <= b {
      BlendUp(a, b, c);
    } else {
      BlendUp(b, a, 1.0 - c);
      assert (1.0 - c) * b + (1.0 - (1.0 - c)) * a == c * a + (1.0 - c) * b;
    }
  }

  /** The blend of a with weight c and b with weight 1 - c, channel by channel. */
  function Mix(a: Vec3, b: Vec3, c: real): Vec3
  {
    Vec3(c * a.x + (1.0 - c) * b.x, c * a.y + (1.0 - c) * b.y, c * a.z + (1.0 - c) * b.z)
  }

  /** Weight 0 gives b and weight 1 gives a. */
  lemma MixEnds(a: Vec3, b: Vec3)
    ensures Mix(a, b, 0.0) == b && Mix(a, b, 1.0) == a
  {
  }

  /** A blend with a weight in [0, 1] lies, channel by channel, between its two ends. */
  lemma MixBetween(a: Vec3, b: Vec3, c: real)
    requires 0.0 <= c <= 1.0
    ensures Between(a.x, b.x, Mix(a, b, c).x)
    ensures Between(a.y, b.y, Mix(a, b, c).y)
    ensures Between(a.z, b.z, Mix(a, b, c).z)
  {
    BlendBetween(a.x, b.x, c);
    BlendBetween(a.y, b.y, c);
    BlendBetween(a.z, b.z, c);
  }

  /** The stylised term: a blend of a cool and a warm tone by how much the surface faces the
      light. Facing the light head on gives the warm tone, facing straight away the cool one,
      and every cosine in between gives, channel by channel, a colour between the two. */
  function Stylised(kd: Vec3, ln: real): (r: Vec3)
    ensures r == Mix(CoolEnd(kd), WarmEnd(kd), (1.0 + (-1.0) * ln) / 2.0)
    ensures ln == 1.0 ==> r == WarmEnd(kd)
    ensures ln == -1.0 ==> r == CoolEnd(kd)
    ensures -1.0 <= ln <= 1.0 ==>
              Between(CoolEnd(kd).x, WarmEnd(kd).x, r.x) &&
              Between(CoolEnd(kd).y, WarmEnd(kd).y, r.y) &&
              Between(CoolEnd(kd).z, WarmEnd(kd).z, r.z)
  {
    var cool := (1.0 + (-1.0) * ln) / 2.0;
    MixEnds(CoolEnd(kd), WarmEnd(kd));
    if 0.0 <= cool <= 1.0 then
      MixBetween(CoolEnd(kd), WarmEnd(kd), cool);
      Mix(CoolEnd(kd), WarmEnd(kd), cool)
    else
      Mix(CoolEnd(kd), WarmEnd(kd), cool)
  }

  /** The cosine the diffuse term uses: N.L, or, when a bump map is bound (its value's first
      channel is not the sentinel 2), the normalised perturbation 2 b - 1 dotted with L. */
  function DiffuseCosine(e: Env, i: Isect, toLight: Vec3): (r: real)
    requires Shadeable(i)
    ensures Bump(e, i).x == 2.0 ==> r == i.n.Dot(toLight)
    ensures Bump(e, i).x != 2.0 ==> r == e.m.normalize(Bump(e, i).Scale(2.0).SubScalar(1.0)).Dot(toLight)
  {
    var b := Bump(e, i);
    if b.x != 2.0 then e.m.normalize(b.Scale(2.0).SubScalar(1.0)).Dot(toLight)
    else i.n.Dot(toLight)
  }

  /** The mirror of the light direction about the normal, and its cosine with the view
      direction. */
  function SpecularCosine(e: Env, r: Ray, i: Isect, toLight: Vec3): real
  {
    var dirA := i.n.Scale(toLight.Dot(i.n));
    var dirB := dirA.Sub(toLight);
    var dirC := e.m.normalize(dirA.Add(dirB));
    r.dir.Neg().Dot(dirC)
  }

  /** The Phong terms of one light: the diffuse and specular colours weighted by their
      cosines, filtered by the shadow colour. */
  function Phong(shadow: Vec3, diffuse: Vec3, specular: Vec3, ln: real, spec: real): Vec3
  {
    shadow.Mul(diffuse.Scale(Max(ln, 0.0)).Add(specular.Scale(spec)))
  }

  /** The contribution of one light, scaled by its distance attenuation. The stylised path
      uses neither shadows nor specular light. */
  function LightTerm(e: Env, r: Ray, i: Isect, l: Light): (c: Vec3)
    requires ValidEnv(e) && Shadeable(i)
    ensures var p := r.At(i.t);
            var toLight := Direction(e.m, l, p);
            e.cfg.nonRealism ==>
              c == Stylised(Kd(i), i.n.Dot(toLight)).Scale(DistanceAttenuation(e.m, l, p))
    ensures var p := r.At(i.t);
            var toLight := Direction(e.m, l, p);
            var col := l.color;
            !e.cfg.nonRealism ==>
              c == Phong(ShadowAttenuation(e.m, e.intersect, l, p), Kd(i).Mul(col), Ks(i).Mul(col),
                         DiffuseCosine(e, i, toLight),
                         e.m.pow(Max(SpecularCosine(e, r, i, toLight), 0.0), Shininess(i)))
                   .Scale(DistanceAttenuation(e.m, l, p))
  {
    var p := r.At(i.t);
    var toLight := Direction(e.m, l, p);
    var shadow :=
      if e.cfg.nonRealism then White.Mul(Stylised(Kd(i), i.n.Dot(toLight)))
      else
        var col := l.color;
        var rn := SpecularCosine(e, r, i, toLight);
        Phong(ShadowAttenuation(e.m, e.intersect, l, p), Kd(i).Mul(col), Ks(i).Mul(col),
              DiffuseCosine(e, i, toLight), e.m.pow(Max(rn, 0.0), Shininess(i)));
    shadow.Scale(DistanceAttenuation(e.m, l, p))
  }

  /** The light terms of `lights`, accumulated in order. */
  function LightSum(e: Env, r: Ray, i: Isect, lights: seq<Light>): Vec3
    requires ValidEnv(e) && Shadeable(i)
  {
    if |lights| == 0 then Zero
    else LightSum(e, r, i, lights[..|lights| - 1]).Add(LightTerm(e, r, i, lights[|lights| - 1]))
  }

  /** What `shade` returns: the light terms of every scene light, plus the emissive term
      and the ambient term (ka filtered by the scene ambient), each added once. */
  function Shaded(e: Env, r: Ray, i: Isect): Vec3
    requires ValidEnv(e) && Shadeable(i)
  {
    LightSum(e, r, i, e.lights).Add(Ke(i)).Add(Ka(i).Mul(e.ambient))
  }

  /** `Material::shade`: the loop over the scene lights. */
  method Shade(e: Env, r: Ray, i: Isect) returns (c: Vec3)
    requires ValidEnv(e) && Shadeable(i)
    ensures c == Shaded(e, r, i)
  {
    var intensity := Zero;
    var eIntensity := Ke(i);
    var aIntensity := Ka(i).Mul(e.ambient);
    var k := 0;
    while k < |e.lights|
      invariant 0 <= k <= |e.lights|
      invariant intensity == LightSum(e, r, i, e.lights[..k])
    {
      assert e.lights[..k + 1][..k] == e.lights[..k];
      intensity := intensity.Add(LightTerm(e, r, i, e.lights[k]));
      k := k + 1;
    }
    assert e.lights[..k] == e.lights;
    c := intensity.Add(eIntensity).Add(aIntensity);
  }

  /** Without lights a hit shows its emissive colour plus its ambient reflection. */
  lemma ShadedWithoutLights(e: Env, r: Ray, i: Isect)
    requires ValidEnv(e) && Shadeable(i) && |e.lights| == 0
    ensures Shaded(e, r, i) == Ke(i).Add(Ka(i).Mul(e.ambient))
  {
  }

  /** The light terms of two light lists add up: lights contribute independently. */
  lemma {:induction false} LightSumConcat(e: Env, r: Ray, i: Isect, a: seq<Light>, b: seq<Light>)
    requires ValidEnv(e) && Shadeable(i)
    ensures LightSum(e, r, i, a + b) == LightSum(e, r, i, a).Add(LightSum(e, r, i, b))
    decreases |b|
  {
    if |b| == 0 {
      assert a + b == a;
      assert LightSum(e, r, i, b) == Zero;
      AddZero(LightSum(e, r, i, a));
    } else {
      var b' := b[..|b| - 1];
      var t := LightTerm(e, r, i, b[|b| - 1]);
      assert (a + b)[..|a + b| - 1] == a + b';
      assert (a + b)[|a + b| - 1] == b[|b| - 1];
      LightSumConcat(e, r, i, a, b');
      AddAssociates(LightSum(e, r, i, a), LightSum(e, r, i, b'), t);
    }
  }

  /** One more light adds exactly its own term; the emissive and ambient terms are not
      repeated. */
  lemma ShadedAddLight(e: Env, r: Ray, i: Isect, l: Light)
    requires ValidEnv(e) && Shadeable(i)
    ensures Shaded(e.(lights := e.lights + [l]), r, i) == Shaded(e, r, i).Add(LightTerm(e, r, i, l))
  {
    var e' := e.(lights := e.lights + [l]);
    assert (e.lights + [l])[..|e.lights|] == e.lights;
    LightSumIgnoresLights(e, e', r, i, e.lights);
    LightTermIgnoresLights(e, e', r, i, l);
  }

  /** A light's term does not depend on which other lights the scene holds. */
  lemma LightTermIgnoresLights(e: Env, e': Env, r: Ray, i: Isect, l: Light)
    requires ValidEnv(e) && Shadeable(i) && e' == e.(lights := e'.lights)
    ensures LightTerm(e, r, i, l) == LightTerm(e', r, i, l)
  {
  }

  lemma {:induction false} LightSumIgnoresLights(e: Env, e': Env, r: Ray, i: Isect, ls: seq<Light>)
    requires ValidEnv(e) && Shadeable(i) && e' == e.(lights := e'.lights)
    ensures LightSum(e, r, i, ls) == LightSum(e', r, i, ls)
    decreases |ls|
  {
    if |ls| > 0 {
      LightSumIgnoresLights(e, e', r, i, ls[..|ls| - 1]);
      LightTermIgnoresLights(e, e', r, i, ls[|ls| - 1]);
    }
  }

  /** The stylised path never casts shadow rays: the term is the same whatever the scene's
      intersection query answers. */
  lemma StylisedIgnoresShadows(e: Env, intersect': Ray -> Option<Isect>, r: Ray, i: Isect, l: Light)
    requires ValidEnv(e) && ShadeableQuery(intersect') && Shadeable(i) && e.cfg.nonRealism
    ensures LightTerm(e, r, i, l) == LightTerm(e.(intersect := intersect'), r, i, l)
  {
  }

  /** Without a bump map the bump scale has no effect on shading. */
  lemma BumpScaleIrrelevantWithoutBumpMap(e: Env, s: real, r: Ray, i: Isect, l: Light)
    requires ValidEnv(e) && Shadeable(i) && i.mat.bump.bump.None?
    ensures LightTerm(e, r, i, l) == LightTerm(e.(cfg := e.cfg.(bumpScale := s)), r, i, l)
  {
  }

  /** A diffuse coefficient of zero. */
  const NoDiffuse := Param(Zero, None, None)

  /** A light behind the (unperturbed) surface adds no diffuse light: the term is the one of
      the same material without a diffuse coefficient. */
  lemma LightBehindAddsNoDiffuse(e: Env, r: Ray, i: Isect, l: Light)
    requires ValidEnv(e) && Shadeable(i) && !e.cfg.nonRealism && i.mat.bump.bump.None?
    requires i.n.Dot(Direction(e.m, l, r.At(i.t))) <= 0.0
    ensures LightTerm(e, r, i, l) == LightTerm(e, r, i.(mat := i.mat.(kd := NoDiffuse)), l)
  {
    var i' := i.(mat := i.mat.(kd := NoDiffuse));
    var p := r.At(i.t);
    var toLight := Direction(e.m, l, p);
    assert Bump(e, i) == Bump(e, i') == BumpSentinel;
    assert DiffuseCosine(e, i, toLight) == DiffuseCosine(e, i', toLight) == i.n.Dot(toLight);
    assert Ks(i) == Ks(i') && Shininess(i) == Shininess(i');
    assert Kd(i') == Zero;
    var spec := e.m.pow(Max(SpecularCosine(e, r, i, toLight), 0.0), Shininess(i));
    PhongWithoutDiffuse(ShadowAttenuation(e.m, e.intersect, l, p), Kd(i).Mul(l.color), Kd(i').Mul(l.color),
                        Ks(i).Mul(l.color), i.n.Dot(toLight), spec);
  }

  lemma PhongWithoutDiffuse(shadow: Vec3, d1: Vec3, d2: Vec3, s: Vec3, ln: real, spec: real)
    requires ln <= 0.0
    ensures Phong(shadow, d1, s, ln, spec) == Phong(shadow, d2, s, ln, spec)
  {
  }
}
