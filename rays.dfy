/** Rays, intersection records and the nearest-hit choice shared by every linear scan. */
module Rays {
  import opened Common
  import opened Vectors
  import opened Materials

  /** Why a ray was cast (`ray::RayType`). */
  datatype RayKind = Visibility | Reflection | Refraction | Shadow

  /** A ray `origin + t * dir`. */
  datatype Ray = Ray(origin: Vec3, dir: Vec3, kind: RayKind) {
    function At(t: real): Vec3 { origin.Add(dir.Scale(t)) }
  }

  /** An intersection record (`isect`): ray parameter, surface normal, barycentric
      coordinates, texture coordinates, material and the id of the object hit. */
  datatype Isect = Isect(t: real, n: Vec3, bary: Vec3, uv: UV, mat: Material, obj: int)

  /** The self-intersection tolerance `RAY_EPSILON` of the ray header. */
  const RayEpsilon: real := 0.00001

  /** The record a linear scan keeps: scanning the candidates in order, a candidate replaces
      the one kept so far only when its `t` is strictly smaller, so the first of several
      equally near hits wins. */
  function NearestHit(hits: seq<Option<Isect>>): (r: Option<Isect>)
    ensures r.Some? ==> r in hits
  {
    if |hits| == 0 then None
    else
      var best := NearestHit(hits[..|hits| - 1]);
      var cur := hits[|hits| - 1];
      if cur.None? then best
      else if best.None? || cur.value.t < best.value.t then cur
      else best
  }

  /** The scan finds nothing exactly when no candidate is a hit; otherwise it reports the
      first of the nearest hits. */
  lemma {:induction false} NearestHitIsFirstNearest(hits: seq<Option<Isect>>)
    ensures NearestHit(hits).None? <==> forall k :: 0 <= k < |hits| ==> hits[k].None?
    ensures NearestHit(hits).Some? ==> exists k :: 0 <= k < |hits| && hits[k] == NearestHit(hits) && FirstNearest(hits, k)
  {
    if |hits| > 0 {
      var init, cur := hits[..|hits| - 1], hits[|hits| - 1];
      assert hits == init + [cur];
      NearestHitIsFirstNearest(init);
      var best := NearestHit(init);
      if best.Some? {
        var k :| 0 <= k < |init| && init[k] == best && FirstNearest(init, k);
        if cur.Some? && cur.value.t < best.value.t {
          FirstNearestLast(init, cur, k);
        } else {
          FirstNearestKept(init, cur, k);
        }
      } else if cur.Some? {
        FirstNearestOnly(init, cur);
      }
    }
  }

  /** A kept candidate stays first nearest when the next one is no nearer. */
  lemma FirstNearestKept(init: seq<Option<Isect>>, c: Option<Isect>, k: int)
    requires 0 <= k < |init| && FirstNearest(init, k)
    requires c.Some? ==> c.value.t >= init[k].value.t
    ensures FirstNearest(init + [c], k) && (init + [c])[k] == init[k]
  {
  }

  /** A candidate strictly nearer than the first nearest so far becomes the first nearest. */
  lemma FirstNearestLast(init: seq<Option<Isect>>, c: Option<Isect>, k: int)
    requires 0 <= k < |init| && FirstNearest(init, k)
    requires c.Some? && c.value.t < init[k].value.t
    ensures FirstNearest(init + [c], |init|)
  {
    var hits := init + [c];
    forall j | 0 <= j < |hits| && hits[j].Some?
      ensures hits[|init|].value.t <= hits[j].value.t && (j < |init| ==> hits[j].value.t > hits[|init|].value.t)
    {
      if j < |init| {
        assert hits[j] == init[j];
      }
    }
  }

  /** The first hit after none becomes the first nearest. */
  lemma FirstNearestOnly(init: seq<Option<Isect>>, c: Option<Isect>)
    requires forall k :: 0 <= k < |init| ==> init[k].None?
    requires c.Some?
    ensures FirstNearest(init + [c], |init|)
  {
    var hits := init + [c];
    forall j | 0 <= j < |init|
      ensures hits[j].None?
    {
      assert hits[j] == init[j];
    }
  }

  /** Scanning one more candidate. */
  lemma NearestHitStep(hits: seq<Option<Isect>>, c: Option<Isect>)
    ensures var best := NearestHit(hits);
            NearestHit(hits + [c]) ==
              if c.None? then best
              else if best.None? || c.value.t < best.value.t then c
              else best
  {
    assert (hits + [c])[..|hits|] == hits;
  }

  /** Candidate `k` is a hit, no hit is nearer, and every hit before it is strictly farther. */
  ghost predicate FirstNearest(hits: seq<Option<Isect>>, k: int)
    requires 0 <= k < |hits|
  {
    hits[k].Some? &&
    (forall j :: 0 <= j < |hits| && hits[j].Some? ==> hits[k].value.t <= hits[j].value.t) &&
    (forall j :: 0 <= j < k && hits[j].Some? ==> hits[j].value.t > hits[k].value.t)
  }

  /** At most one candidate satisfies `FirstNearest`, so the scan's answer is determined by
      the nearest-first rule alone. */
  lemma FirstNearestUnique(hits: seq<Option<Isect>>, k: int, l: int)
    requires 0 <= k < |hits| && 0 <= l < |hits|
    requires FirstNearest(hits, k) && FirstNearest(hits, l)
    ensures k == l
  {
  }

  /** A hit the shading code can evaluate: its material's textures are well formed and its
      texture coordinates are not negative. */
  predicate Shadeable(i: Isect)
  {
    ValidMaterial(i.mat) && i.uv.u >= 0.0 && i.uv.v >= 0.0
  }

  /** An intersection query (`Scene::intersect`, a KD traversal, a primitive test) whose
      every hit is shadeable. */
  ghost predicate ShadeableQuery(intersect: Ray -> Option<Isect>)
  {
    forall r :: intersect(r).Some? ==> Shadeable(intersect(r).value)
  }
}
