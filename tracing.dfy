/** Recursive ray tracing over abstract colours (`RayTracer::traceRay`, `trace`,
    `initialize_refractions` and `checkTotalInternal`, src/RayTracer.cpp). */
module Tracing {
  import opened Common
  import opened Vectors
  import opened Rays
  import opened Lights
  import opened Settings
  import opened Shading
  import opened KdBuild
  import opened KdTrees

  /** A parsed scene as the tracer consults it: the camera's ray through normalised window
      coordinates (`Camera::rayThrough`), the linear intersection query of the scene
      (`Scene::intersect`), its lights and ambient light, the objects a KD tree is built
      over with their box and hit tests, and the surface-area cost the tree builder uses
      when that heuristic is selected. */
  datatype Scene = Scene(camera: (real, real) -> Ray, intersect: Ray -> Option<Isect>, lights: seq<Light>,
                         ambient: Vec3, objects: seq<Obj>, probe: Probe,
                         sah: (seq<Obj>, Axis) -> (real, real))

  /** What shading a hit of this scene consults. */
  function EnvOf(m: Math, cfg: Config, s: Scene): Env
  {
    Env(m, cfg, s.intersect, s.lights, s.ambient)
  }

  /** The split heuristic the tree builder reads from the settings. */
  function HeuristicOf(cfg: Config, s: Scene): Heuristic
  {
    if cfg.useSurface then Surface(s.sah) else Median
  }

  /** Every hit an object's own test reports can be shaded. */
  ghost predicate ShadeableProbe(p: Probe)
  {
    forall o, r :: p.hit(o, r).Some? ==> Shadeable(p.hit(o, r).value)
  }

  ghost predicate ValidScene(s: Scene)
  {
    ShadeableQuery(s.intersect) && ShadeableProbe(s.probe)
  }

  /** The answer of `rayTreeTraversal` for a tree with the given root; a tree never built
      reports no hit. */
  function TreeQuery(m: Math, probe: Probe, root: Option<Tree>): Ray -> Option<Isect>
  {
    r => if root.None? then None else Traverse(m, probe, r, root.value)
  }

  /** The tree only reports hits of the objects it stores, so its hits can be shaded when
      theirs can. */
  lemma TreeQueryShadeable(m: Math, probe: Probe, root: Option<Tree>)
    requires ShadeableProbe(probe)
    ensures ShadeableQuery(TreeQuery(m, probe, root))
  {
    forall r | TreeQuery(m, probe, root)(r).Some?
      ensures Shadeable(TreeQuery(m, probe, root)(r).value)
    {
      HitInOwnBox(m, probe, r, root.value);
    }
  }

  /** The hit `traceRay` shades. The tree is asked first only when the stored acceleration
      switch is off; the linear scan answers whenever the tree found nothing. */
  function FindHit(cfg: Config, tree: Ray -> Option<Isect>, linear: Ray -> Option<Isect>, r: Ray): (h: Option<Isect>)
    ensures h.Some? <==> (!cfg.accelerate && tree(r).Some?) || linear(r).Some?
    ensures !cfg.accelerate && tree(r).Some? ==> h == tree(r)
    ensures (cfg.accelerate || tree(r).None?) ==> h == linear(r)
  {
    var found := if !cfg.accelerate then tree(r) else None;
    if found.None? then linear(r) else found
  }

  /** The colour of a ray that hits nothing: the bound cube map's colour, else black. */
  function Backdrop(cube: Option<Ray -> Vec3>, r: Ray): Vec3
  {
    if cube.Some? then cube.value(r) else Zero
  }

  /** The projection of the reversed ray direction on the normal, `dirA`, and `dirB`, the
      direction plus that projection. Their sum is the mirror image d - 2 (d.N) N of the
      incoming direction d. */
  function MirrorParts(r: Ray, i: Isect): (p: (Vec3, Vec3))
    ensures p.0.Add(p.1) == r.dir.Sub(i.n.Scale(2.0 * r.dir.Dot(i.n)))
  {
    var d, n := r.dir, i.n;
    var c := d.Neg().Dot(n);
    assert c == -(d.Dot(n));
    var dirA := n.Scale(c);
    assert dirA.Add(dirA.Add(d)) == Vec3(2.0 * c * n.x + d.x, 2.0 * c * n.y + d.y, 2.0 * c * n.z + d.z);
    (dirA, dirA.Add(d))
  }

  /** The direction of the reflected ray, `normalize(dirA + dirB)`: the normalised mirror
      image of the incoming direction. */
  function ReflectDir(m: Math, r: Ray, i: Isect): (d: Vec3)
    ensures d == m.normalize(r.dir.Sub(i.n.Scale(2.0 * r.dir.Dot(i.n))))
  {
    var parts := MirrorParts(r, i);
    m.normalize(parts.0.Add(parts.1))
  }

  /** `checkTotalInternal`: reported only for a ray leaving the surface (N.d > 0) whose
      refraction term 1 - eta^2 (1 - (N.d)^2) is negative. */
  function TotalInternal(r: Ray, i: Isect): (b: bool)
    requires Shadeable(i)
    ensures b <==> i.n.Dot(r.dir) > 0.0 &&
                   1.0 - Index(i) * Index(i) * (1.0 - i.n.Dot(r.dir) * i.n.Dot(r.dir)) < 0.0
  {
    var incident := i.n.Dot(r.dir);
    if incident > 0.0 then 1.0 - Index(i) * Index(i) * (1.0 - incident * incident) < 0.0
    else false
  }

  /** For a cosine of at most 1, total internal reflection needs a refractive index above 1
      in magnitude. */
  lemma TotalInternalNeedsDenserMedium(r: Ray, i: Isect)
    requires Shadeable(i) && TotalInternal(r, i) && i.n.Dot(r.dir) <= 1.0
    ensures Index(i) * Index(i) > 1.0
  {
    var c := i.n.Dot(r.dir);
    var e := Index(i) * Index(i);
    var q := 1.0 - c * c;
    assert c * c <= c * 1.0;
    assert 0.0 <= q;
    assert e >= 0.0 by { SquareNonNegative(Index(i)); }
    assert e * q <= e * 1.0;
  }

  lemma SquareNonNegative(x: real)
    ensures x * x >= 0.0
  {
    if x < 0.0 {
      assert x * x == (-x) * (-x);
    }
  }

  /** `temp > 1` resets the squared sine to 0. */
  function Clip(temp: real): real
  {
    if temp > 1.0 then 0.0 else temp
  }

  /** Whatever the squared sine, the square root in the refraction is taken of a value in
      [0, 1]. */
  lemma ClipKeepsRootDefined(temp: real)
    requires temp >= 0.0
    ensures 0.0 <= 1.0 - Clip(temp) <= 1.0
  {
  }

  /** `initialize_refractions`: no refracted ray when no transmission channel is positive or
      the ray is totally internally reflected. Otherwise, entering the surface (N.d < 0)
      scales `dirB` by 1/index and takes the cosine part along -N; leaving it (N.d > 0)
      scales by the index and takes it along N; grazing (N.d = 0) keeps the zero vectors the
      caller passed in. The direction is the normalised sum. */
  function RefractDir(m: Math, r: Ray, i: Isect, dirB: Vec3): (res: Option<Vec3>)
    requires Shadeable(i)
    ensures res.Some? <==> Kt(i).AnyPositive() && !TotalInternal(r, i)
  {
    if !Kt(i).AnyPositive() || TotalInternal(r, i) then None
    else
      var incident := i.n.Dot(r.dir);
      var parts :=
        if incident < 0.0 then
          var st := dirB.Scale(m.div(1.0, Index(i)));
          (st, i.n.Scale(-1.0).Scale(m.sqrt(1.0 - Clip(st.Dot(st)))))
        else if incident > 0.0 then
          var st := dirB.Scale(Index(i));
          (st, i.n.Scale(m.sqrt(1.0 - Clip(st.Dot(st)))))
        else (Zero, Zero);
      Some(m.normalize(parts.0.Add(parts.1)))
  }

  /** Whichever query answers, the hit `traceRay` shades can be shaded. */
  lemma FoundShadeable(cfg: Config, s: Scene, tree: Ray -> Option<Isect>, r: Ray)
    requires ValidScene(s) && ShadeableQuery(tree)
    ensures FindHit(cfg, tree, s.intersect, r).Some? ==> Shadeable(FindHit(cfg, tree, s.intersect, r).value)
  {
  }

  /** `traceRay`: a ray that hits nothing shows the backdrop; a hit is coloured by
      `TraceHit`. A hit below depth 0, or on a surface that neither reflects (kr = 0) nor
      transmits (no positive kt), shows its shading alone. The `thresh` argument of the
      source is never read. */
  function TraceRay(m: Math, cfg: Config, s: Scene, tree: Ray -> Option<Isect>, cube: Option<Ray -> Vec3>,
                    r: Ray, depth: int): (c: Vec3)
    requires ValidScene(s) && ShadeableQuery(tree)
    ensures var hit := FindHit(cfg, tree, s.intersect, r);
            hit.None? ==> c == Backdrop(cube, r)
    ensures var hit := FindHit(cfg, tree, s.intersect, r);
            hit.Some? && (depth < 0 || (Kr(hit.value) == Zero && !Kt(hit.value).AnyPositive())) ==>
              c == Shaded(EnvOf(m, cfg, s), r, hit.value)
    decreases if depth < 0 then 0 else depth + 1, 1
  {
    var hit := FindHit(cfg, tree, s.intersect, r);
    FoundShadeable(cfg, s, tree, r);
    if hit.None? then Backdrop(cube, r)
    else TraceHit(m, cfg, s, tree, cube, r, hit.value, depth)
  }

  /** The colour of a hit: its shading plus the reflected and the refracted terms. */
  function TraceHit(m: Math, cfg: Config, s: Scene, tree: Ray -> Option<Isect>, cube: Option<Ray -> Vec3>,
                    r: Ray, i: Isect, depth: int): (c: Vec3)
    requires ValidScene(s) && ShadeableQuery(tree) && Shadeable(i)
    ensures depth < 0 || (Kr(i) == Zero && !Kt(i).AnyPositive()) ==> c == Shaded(EnvOf(m, cfg, s), r, i)
    decreases if depth < 0 then 0 else depth + 1, 0
  {
    var shade := Shaded(EnvOf(m, cfg, s), r, i);
    if depth < 0 then shade
    else
      var reflected := Reflected(m, cfg, s, tree, cube, r, i, depth);
      var refracted := Refracted(m, cfg, s, tree, cube, r, i, depth);
      MatteAddsNothing(shade, Kr(i) == Zero, reflected, !Kt(i).AnyPositive(), refracted);
      shade.Add(reflected).Add(refracted)
  }

  /** The reflected colour, traced one level shallower along the mirror direction and
      filtered by kr; nothing when kr = 0. */
  function Reflected(m: Math, cfg: Config, s: Scene, tree: Ray -> Option<Isect>, cube: Option<Ray -> Vec3>,
                     r: Ray, i: Isect, depth: int): (c: Vec3)
    requires ValidScene(s) && ShadeableQuery(tree) && Shadeable(i) && depth >= 0
    ensures Kr(i) == Zero ==> c == Zero
    decreases depth + 1, -1
  {
    Kr(i).Mul(TraceRay(m, cfg, s, tree, cube, Ray(r.At(i.t), ReflectDir(m, r, i), Reflection), depth - 1))
  }

  /** The refracted colour, traced one level shallower and filtered by kt, only when the
      refraction gate is open; nothing otherwise, and so nothing without a positive kt. */
  function Refracted(m: Math, cfg: Config, s: Scene, tree: Ray -> Option<Isect>, cube: Option<Ray -> Vec3>,
                     r: Ray, i: Isect, depth: int): (c: Vec3)
    requires ValidScene(s) && ShadeableQuery(tree) && Shadeable(i) && depth >= 0
    ensures !Kt(i).AnyPositive() ==> c == Zero
    decreases depth + 1, -1
  {
    match RefractDir(m, r, i, MirrorParts(r, i).1)
    case None => Zero
    case Some(dir) => Kt(i).Mul(TraceRay(m, cfg, s, tree, cube, Ray(r.At(i.t), dir, RayKind.Refraction), depth - 1))
  }

  /** On a surface with kr = 0 and a closed refraction gate the recursive terms add
      nothing to the shading. */
  lemma MatteAddsNothing(shade: Vec3, noReflection: bool, reflected: Vec3, noTransmission: bool, refracted: Vec3)
    requires noReflection ==> reflected == Zero
    requires noTransmission ==> refracted == Zero
    ensures noReflection && noTransmission ==> shade.Add(reflected).Add(refracted) == shade
  {
  }

  /** A scene whose surfaces neither reflect (kr = 0) nor transmit (no positive kt) looks
      the same at every recursion depth: the recursive terms contribute nothing. */
  lemma MatteSceneIgnoresDepth(m: Math, cfg: Config, s: Scene, tree: Ray -> Option<Isect>, cube: Option<Ray -> Vec3>,
                               r: Ray, depth: int)
    requires ValidScene(s) && ShadeableQuery(tree)
    requires var hit := FindHit(cfg, tree, s.intersect, r);
             hit.Some? ==> Kr(hit.value) == Zero && !Kt(hit.value).AnyPositive()
    ensures TraceRay(m, cfg, s, tree, cube, r, depth) == TraceRay(m, cfg, s, tree, cube, r, -1)
  {
  }

  /** `trace`: the camera ray through (x, y) traced to the configured depth, each channel
      clamped to [0, 1]. */
  function Trace(m: Math, cfg: Config, s: Scene, tree: Ray -> Option<Isect>, cube: Option<Ray -> Vec3>,
                 x: real, y: real): (c: Vec3)
    requires ValidScene(s) && ShadeableQuery(tree)
    ensures c.InUnit()
    ensures TraceRay(m, cfg, s, tree, cube, s.camera(x, y), cfg.depth).InUnit() ==>
              c == TraceRay(m, cfg, s, tree, cube, s.camera(x, y), cfg.depth)
  {
    TraceRay(m, cfg, s, tree, cube, s.camera(x, y), cfg.depth).Clamp()
  }
}
