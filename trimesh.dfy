/** Triangle meshes (`Trimesh`, `TrimeshFace`, src/SceneObjects/trimesh.cpp): the vertex,
    normal, material and face lists, the triangle test, the nearest-hit scan and per-vertex
    normal averaging. */
module Meshes {
  import opened Common
  import opened Vectors
  import opened Materials
  import opened Rays
  import opened Settings
  import opened KdTrees

  /** A face: three vertex indices and its own copy of the mesh material. */
  datatype Face = Face(a: int, b: int, c: int, mat: Material)
  {
    function Id(k: int): int
      requires 0 <= k < 3
    {
      if k == 0 then a else if k == 1 then b else c
    }
  }

  /** The three indices of a face address a list of length n. */
  predicate FaceIn(f: Face, n: int)
  {
    0 <= f.a < n && 0 <= f.b < n && 0 <= f.c < n
  }

  const BadMaterials := "Bad Trimesh: Wrong number of materials."
  const BadNormals := "Bad Trimesh: Wrong number of normals."

  /** The unit normal of the plane through a, b, c: (a - c) x (b - c), normalised. */
  function PlaneNormal(m: Math, a: Vec3, b: Vec3, c: Vec3): Vec3
  {
    m.normalize(a.Sub(c).Cross(b.Sub(c)))
  }

  /** The linear system whose solution is the barycentric weights: the rows of the kept
      coordinates of a, b, c, with a row of ones in place of the dropped coordinate. */
  function BaryMatrix(drop: int, a: Vec3, b: Vec3, c: Vec3): Mat3
  {
    var ones := Vec3(1.0, 1.0, 1.0);
    if drop == 0 then Mat3(ones, Vec3(a.y, b.y, c.y), Vec3(a.z, b.z, c.z))
    else if drop == 1 then Mat3(Vec3(a.x, b.x, c.x), ones, Vec3(a.z, b.z, c.z))
    else Mat3(Vec3(a.x, b.x, c.x), Vec3(a.y, b.y, c.y), ones)
  }

  /** The right-hand side: the hit point with 1 in place of the dropped coordinate. */
  function BaryTarget(drop: int, p: Vec3): Vec3
  {
    if drop == 0 then Vec3(1.0, p.y, p.z)
    else if drop == 1 then Vec3(p.x, 1.0, p.z)
    else Vec3(p.x, p.y, 1.0)
  }

  /** The ray parameter of the plane hit, -(N.origin + planeDistance) / (N.dir) with
      planeDistance = -(N.a). */
  function PlaneHit(n: Vec3, a: Vec3, r: Ray): real
    requires n.Dot(r.dir) != 0.0
  {
    -(n.Dot(r.origin) + -(n.Dot(a))) / n.Dot(r.dir)
  }

  /** The barycentric weights of the point at parameter t. */
  function Bary(m: Math, a: Vec3, b: Vec3, c: Vec3, r: Ray, t: real): Vec3
  {
    var drop := m.dropAxis(PlaneNormal(m, a, b, c));
    m.solve(BaryMatrix(drop, a, b, c), BaryTarget(drop, r.At(t)))
  }

  /** The Phong-interpolated normal: the barycentric blend of the vertex normals,
      normalised. */
  function Blend(m: Math, na: Vec3, nb: Vec3, nc: Vec3, w: Vec3): Vec3
  {
    m.normalize(na.Scale(w.x).Add(nb.Scale(w.y)).Add(nc.Scale(w.z)))
  }

  /** `TrimeshFace::intersectLocal` on record `i`: the ray is rejected when it is parallel
      to the plane, the plane lies at or before RAY_EPSILON, or the weights are all zero or
      one is negative. A hit records t, the weights, the face material and the plane normal,
      or the blended vertex normal when the mesh has per-vertex normals; the texture
      coordinates and object of `i` are kept. */
  function FaceIntersect(m: Math, verts: seq<Vec3>, norms: seq<Vec3>, vertNorms: bool, f: Face, r: Ray, i: Isect)
    : (res: Option<Isect>)
    requires FaceIn(f, |verts|) && (vertNorms ==> FaceIn(f, |norms|))
    ensures res.Some? ==>
              res.value.t > RayEpsilon && res.value.mat == f.mat &&
              res.value.bary.x >= 0.0 && res.value.bary.y >= 0.0 && res.value.bary.z >= 0.0 &&
              res.value.bary != Zero &&
              res.value.uv == i.uv && res.value.obj == i.obj &&
              (vertNorms ==> res.value.n == Blend(m, norms[f.a], norms[f.b], norms[f.c], res.value.bary)) &&
              (!vertNorms ==> res.value.n == PlaneNormal(m, verts[f.a], verts[f.b], verts[f.c]))
  {
    var a := verts[f.a];
    var b := verts[f.b];
    var c := verts[f.c];
    var n := PlaneNormal(m, a, b, c);
    if n.Dot(r.dir) == 0.0 then None
    else
      var t := PlaneHit(n, a, r);
      if t <= RayEpsilon then None
      else
        var w := Bary(m, a, b, c, r, t);
        if w.x == 0.0 && w.y == 0.0 && w.z == 0.0 then None
        else if !(w.x >= 0.0 && w.y >= 0.0 && w.z >= 0.0) then None
        else
          var normal := if vertNorms then Blend(m, norms[f.a], norms[f.b], norms[f.c], w) else n;
          Some(i.(n := normal, t := t, bary := w, mat := f.mat))
  }

  /** The face test reports a hit exactly when none of the four rejections applies. */
  lemma FaceIntersectRejects(m: Math, verts: seq<Vec3>, norms: seq<Vec3>, vertNorms: bool, f: Face, r: Ray, i: Isect)
    requires FaceIn(f, |verts|) && (vertNorms ==> FaceIn(f, |norms|))
    ensures var a, b, c := verts[f.a], verts[f.b], verts[f.c];
            var n := PlaneNormal(m, a, b, c);
            var res := FaceIntersect(m, verts, norms, vertNorms, f, r, i);
            res.Some? <==>
              n.Dot(r.dir) != 0.0 && PlaneHit(n, a, r) > RayEpsilon &&
              var w := Bary(m, a, b, c, r, PlaneHit(n, a, r));
              !(w.x == 0.0 && w.y == 0.0 && w.z == 0.0) && w.x >= 0.0 && w.y >= 0.0 && w.z >= 0.0
  {
  }

  /** The candidates of the linear scan, each face tested on a fresh record. */
  function FaceHits(m: Math, verts: seq<Vec3>, norms: seq<Vec3>, vertNorms: bool, faces: seq<Face>, r: Ray, blank: Isect)
    : (hs: seq<Option<Isect>>)
    requires forall f :: f in faces ==> FaceIn(f, |verts|) && (vertNorms ==> FaceIn(f, |norms|))
    ensures |hs| == |faces|
  {
    if |faces| == 0 then []
    else
      FaceHits(m, verts, norms, vertNorms, faces[..|faces| - 1], r, blank) +
      [FaceIntersect(m, verts, norms, vertNorms, faces[|faces| - 1], r, blank)]
  }

  /** Candidate k is the face test of face k on a fresh record. */
  lemma {:induction false} FaceHitsAt(m: Math, verts: seq<Vec3>, norms: seq<Vec3>, vertNorms: bool, faces: seq<Face>, r: Ray, blank: Isect)
    requires forall f :: f in faces ==> FaceIn(f, |verts|) && (vertNorms ==> FaceIn(f, |norms|))
    ensures var hs := FaceHits(m, verts, norms, vertNorms, faces, r, blank);
            forall k :: 0 <= k < |faces| ==> hs[k] == FaceIntersect(m, verts, norms, vertNorms, faces[k], r, blank)
  {
    if |faces| > 0 {
      var init := faces[..|faces| - 1];
      assert forall f :: f in init ==> f in faces;
      FaceHitsAt(m, verts, norms, vertNorms, init, r, blank);
      assert forall k :: 0 <= k < |init| ==> init[k] == faces[k];
    }
  }

  lemma FaceHitsStep(m: Math, verts: seq<Vec3>, norms: seq<Vec3>, vertNorms: bool, faces: seq<Face>, r: Ray, blank: Isect, k: int)
    requires forall f :: f in faces ==> FaceIn(f, |verts|) && (vertNorms ==> FaceIn(f, |norms|))
    requires 0 <= k < |faces|
    ensures FaceHits(m, verts, norms, vertNorms, faces[..k + 1], r, blank) ==
              FaceHits(m, verts, norms, vertNorms, faces[..k], r, blank) +
              [FaceIntersect(m, verts, norms, vertNorms, faces[k], r, blank)]
  {
    assert faces[..k + 1][..k] == faces[..k];
  }

  /** `List::resize`: the first n elements, padded with zero vectors. */
  function Resize(s: seq<Vec3>, n: nat): (r: seq<Vec3>)
    ensures |r| == n
    ensures forall v :: 0 <= v < n ==> r[v] == if v < |s| then s[v] else Zero
  {
    if n <= |s| then s[..n] else s + seq(n - |s|, _ => Zero)
  }

  /** How many of a face's three corners are vertex v. */
  function Uses(f: Face, v: int, i: int): nat
    requires 0 <= i <= 3
  {
    if i == 0 then 0 else Uses(f, v, i - 1) + (if f.Id(i - 1) == v then 1 else 0)
  }

  /** The face normal added once for each of the first i corners that are vertex v. */
  function Share(f: Face, n: Vec3, v: int, i: int): Vec3
    requires 0 <= i <= 3
  {
    if i == 0 then Zero else Share(f, n, v, i - 1).Add(if f.Id(i - 1) == v then n else Zero)
  }

  /** The number of face corners at vertex v. */
  function Count(faces: seq<Face>, v: int): nat
  {
    if |faces| == 0 then 0 else Count(faces[..|faces| - 1], v) + Uses(faces[|faces| - 1], v, 3)
  }

  /** The sum of the normals of the faces at vertex v, once per corner. */
  function FaceSum(faces: seq<Face>, fns: seq<Vec3>, v: int): Vec3
    requires |fns| == |faces|
  {
    if |faces| == 0 then Zero
    else FaceSum(faces[..|faces| - 1], fns[..|fns| - 1], v).Add(Share(faces[|faces| - 1], fns[|fns| - 1], v, 3))
  }

  /** A vertex in no face receives nothing. */
  lemma {:induction false} UnusedReceivesNothing(faces: seq<Face>, fns: seq<Vec3>, v: int)
    requires |fns| == |faces| && Count(faces, v) == 0
    ensures FaceSum(faces, fns, v) == Zero
  {
    if |faces| > 0 {
      var f := faces[|faces| - 1];
      UnusedReceivesNothing(faces[..|faces| - 1], fns[..|fns| - 1], v);
      var n := fns[|fns| - 1];
      assert Uses(f, v, 3) == 0;
      assert Uses(f, v, 2) == 0 && Uses(f, v, 1) == 0;
      assert f.Id(0) != v && f.Id(1) != v && f.Id(2) != v;
      AddZero(Zero);
      assert Share(f, n, v, 1) == Zero;
      assert Share(f, n, v, 2) == Zero;
      assert Share(f, n, v, 3) == Zero;
    }
  }

  function DivBy(s: Vec3, k: int): Vec3
    requires k != 0
  {
    Vec3(s.x / k as real, s.y / k as real, s.z / k as real)
  }

  lemma ScanFacesStep(m: Math, verts: seq<Vec3>, norms: seq<Vec3>, vertNorms: bool, faces: seq<Face>, r: Ray, blank: Isect, k: int)
    requires forall f :: f in faces ==> FaceIn(f, |verts|) && (vertNorms ==> FaceIn(f, |norms|))
    requires 0 <= k < |faces|
    ensures var best := NearestHit(FaceHits(m, verts, norms, vertNorms, faces[..k], r, blank));
            var c := FaceIntersect(m, verts, norms, vertNorms, faces[k], r, blank);
            NearestHit(FaceHits(m, verts, norms, vertNorms, faces[..k + 1], r, blank)) ==
              if c.None? then best else if best.None? || c.value.t < best.value.t then c else best
  {
    assert faces[k] in faces;
    FaceHitsStep(m, verts, norms, vertNorms, faces, r, blank, k);
    NearestHitStep(FaceHits(m, verts, norms, vertNorms, faces[..k], r, blank),
                   FaceIntersect(m, verts, norms, vertNorms, faces[k], r, blank));
  }

  /** The face loop of `Trimesh::intersectLocal`: a hit replaces the best so far when none
      is kept yet or its t is strictly smaller. */
  method ScanFaces(m: Math, verts: seq<Vec3>, norms: seq<Vec3>, vertNorms: bool, faces: seq<Face>, r: Ray, blank: Isect)
    returns (found: Option<Isect>)
    requires forall f :: f in faces ==> FaceIn(f, |verts|) && (vertNorms ==> FaceIn(f, |norms|))
    ensures found == NearestHit(FaceHits(m, verts, norms, vertNorms, faces, r, blank))
  {
    found := None;
    var k := 0;
    while k < |faces|
      invariant 0 <= k <= |faces|
      invariant found == NearestHit(FaceHits(m, verts, norms, vertNorms, faces[..k], r, blank))
    {
      assert faces[k] in faces;
      var cur := FaceIntersect(m, verts, norms, vertNorms, faces[k], r, blank);
      ScanFacesStep(m, verts, norms, vertNorms, faces, r, blank, k);
      if cur.Some? {
        if found.None? || cur.value.t < found.value.t {
          found := cur;
        }
      }
      k := k + 1;
    }
    assert faces[..k] == faces;
  }

  /** The linear scan reports a hit exactly when some face is hit; the hit reported is the
      first of the nearest ones. */
  lemma ScanFindsNearest(m: Math, verts: seq<Vec3>, norms: seq<Vec3>, vertNorms: bool, faces: seq<Face>, r: Ray, blank: Isect)
    requires forall f :: f in faces ==> FaceIn(f, |verts|) && (vertNorms ==> FaceIn(f, |norms|))
    ensures var hs := FaceHits(m, verts, norms, vertNorms, faces, r, blank);
            NearestHit(hs).Some? <==> exists k :: 0 <= k < |faces| && hs[k].Some?
    ensures var hs := FaceHits(m, verts, norms, vertNorms, faces, r, blank);
            NearestHit(hs).Some? ==> exists k :: 0 <= k < |faces| && hs[k] == NearestHit(hs) && FirstNearest(hs, k)
  {
    NearestHitIsFirstNearest(FaceHits(m, verts, norms, vertNorms, faces, r, blank));
  }

  /** A mesh while it is loaded and rendered. */
  class Trimesh {
    var vertices: seq<Vec3>
    var normals: seq<Vec3>
    var materials: seq<Material>
    var faces: seq<Face>
    var vertNorms: bool
    const material: Material
    const kdTree: KdTree

    /** An empty mesh whose faces take copies of `material`. */
    constructor (material: Material)
      ensures vertices == [] && normals == [] && materials == [] && faces == [] && !vertNorms
      ensures this.material == material && fresh(kdTree) && kdTree.root.None?
    {
      vertices := [];
      normals := [];
      materials := [];
      faces := [];
      vertNorms := false;
      this.material := material;
      kdTree := new KdTree();
    }

    /** Every face addresses existing vertices, and existing normals when the mesh has
        per-vertex normals. */
    predicate FacesValid()
      reads this
    {
      forall f :: f in faces ==> FaceIn(f, |vertices|) && (vertNorms ==> FaceIn(f, |normals|))
    }

    method AddVertex(v: Vec3)
      modifies this
      ensures vertices == old(vertices) + [v]
      ensures normals == old(normals) && materials == old(materials) && faces == old(faces)
      ensures vertNorms == old(vertNorms)
    {
      vertices := vertices + [v];
    }

    method AddMaterial(mat: Material)
      modifies this
      ensures materials == old(materials) + [mat]
      ensures vertices == old(vertices) && normals == old(normals) && faces == old(faces)
      ensures vertNorms == old(vertNorms)
    {
      materials := materials + [mat];
    }

    method AddNormal(n: Vec3)
      modifies this
      ensures normals == old(normals) + [n]
      ensures vertices == old(vertices) && materials == old(materials) && faces == old(faces)
      ensures vertNorms == old(vertNorms)
    {
      normals := normals + [n];
    }

    /** `addFace`: refused, adding nothing, when an index is not below the vertex count
        (negative indices are not checked); otherwise one face with a copy of the mesh
        material is appended. */
    method AddFace(a: int, b: int, c: int) returns (ok: bool)
      modifies this
      ensures ok <==> a < |vertices| && b < |vertices| && c < |vertices|
      ensures ok ==> faces == old(faces) + [Face(a, b, c, material)]
      ensures !ok ==> faces == old(faces)
      ensures vertices == old(vertices) && normals == old(normals) && materials == old(materials)
      ensures vertNorms == old(vertNorms)
    {
      var vcnt := |vertices|;
      if a >= vcnt || b >= vcnt || c >= vcnt {
        return false;
      }
      faces := faces + [Face(a, b, c, material)];
      return true;
    }

    /** `doubleCheck`: per-vertex materials, then per-vertex normals, when present, must
        number exactly as many as the vertices. */
    function DoubleCheck(): (msg: Option<string>)
      reads this
      ensures msg == Some(BadMaterials) <==> |materials| != 0 && |materials| != |vertices|
      ensures msg == Some(BadNormals) <==>
                !(|materials| != 0 && |materials| != |vertices|) && |normals| != 0 && |normals| != |vertices|
      ensures msg.None? <==>
                (|materials| == 0 || |materials| == |vertices|) && (|normals| == 0 || |normals| == |vertices|)
    {
      if |materials| != 0 && |materials| != |vertices| then Some(BadMaterials)
      else if |normals| != 0 && |normals| != |vertices| then Some(BadNormals)
      else None
    }

    /** `Trimesh::intersectLocal`. When acceleration is reported on, the faces' KD tree
        answers; otherwise every face is tested on a fresh record `blank` and the nearest
        hit kept, the earlier face winning a tie. Without a hit the record keeps its fields
        but takes t = 1000. */
    method IntersectLocal(m: Math, cfg: Config, probe: Probe, r: Ray, i: Isect, blank: Isect)
      returns (hit: bool, rec: Isect)
      requires FacesValid()
      ensures cfg.Acceleration() ==>
                var res := if kdTree.root.None? then None else Traverse(m, probe, r, kdTree.root.value);
                hit == res.Some? && rec == (if hit then res.value else i.(t := 1000.0))
      ensures !cfg.Acceleration() ==>
                var res := NearestHit(FaceHits(m, vertices, normals, vertNorms, faces, r, blank));
                hit == res.Some? && rec == (if hit then res.value else i.(t := 1000.0))
    {
      var found: Option<Isect>;
      if cfg.Acceleration() {
        found := kdTree.RayTreeTraversal(m, probe, r);
      } else {
        found := ScanFaces(m, vertices, normals, vertNorms, faces, r, blank);
      }
      if found.None? {
        return false, i.(t := 1000.0);
      }
      return true, found.value;
    }

    /** `generateNormals`, given each face's normal: the normal list is resized to the
        vertex count, every vertex used by k >= 1 face corners gets (its resized normal plus
        the normals of those faces) / k, every other vertex keeps its resized normal, and
        the mesh switches to per-vertex normals. */
    method GenerateNormals(fns: seq<Vec3>)
      requires |fns| == |faces|
      requires forall f :: f in faces ==> FaceIn(f, |vertices|)
      modifies this
      ensures vertNorms
      ensures vertices == old(vertices) && faces == old(faces) && materials == old(materials)
      ensures |normals| == |vertices|
      ensures forall v :: 0 <= v < |vertices| && Count(faces, v) == 0 ==>
                normals[v] == Resize(old(normals), |vertices|)[v]
      ensures forall v :: 0 <= v < |vertices| && Count(faces, v) != 0 ==>
                normals[v] == DivBy(Resize(old(normals), |vertices|)[v].Add(FaceSum(faces, fns, v)), Count(faces, v))
    {
      var cnt := |vertices|;
      normals := Resize(normals, cnt);
      ghost var base := normals;
      var numFaces := new int[cnt](_ => 0);
      var k := 0;
      while k < |faces|
        invariant 0 <= k <= |faces|
        invariant vertices == old(vertices) && faces == old(faces) && materials == old(materials)
        invariant |normals| == cnt
        invariant forall v :: 0 <= v < cnt ==>
                    normals[v] == base[v].Add(FaceSum(faces[..k], fns[..k], v)) &&
                    numFaces[v] == Count(faces[..k], v)
      {
        AccumulateFace(numFaces, fns, k, base);
        k := k + 1;
      }
      assert faces[..k] == faces && fns[..k] == fns;
      var v := 0;
      while v < cnt
        invariant 0 <= v <= cnt
        invariant vertices == old(vertices) && faces == old(faces) && materials == old(materials)
        invariant |normals| == cnt
        invariant forall w :: 0 <= w < cnt ==> numFaces[w] == Count(faces, w)
        invariant forall w :: 0 <= w < v && Count(faces, w) == 0 ==> normals[w] == base[w]
        invariant forall w :: 0 <= w < v && Count(faces, w) != 0 ==>
                    normals[w] == DivBy(base[w].Add(FaceSum(faces, fns, w)), Count(faces, w))
        invariant forall w :: v <= w < cnt ==> normals[w] == base[w].Add(FaceSum(faces, fns, w))
      {
        if numFaces[v] != 0 {
          normals := normals[v := DivBy(normals[v], numFaces[v])];
        } else {
          UnusedReceivesNothing(faces, fns, v);
          AddZero(base[v]);
        }
        v := v + 1;
      }
      vertNorms := true;
    }

    /** One pass of the face loop of `generateNormals`: the face normal is added to each of
        its three corners' normals, and each corner's count goes up by one. */
    method AccumulateFace(numFaces: array<int>, fns: seq<Vec3>, k: int, ghost base: seq<Vec3>)
      requires 0 <= k < |faces| == |fns| && numFaces.Length == |normals| == |base|
      requires forall f :: f in faces ==> FaceIn(f, |normals|)
      requires forall v :: 0 <= v < |normals| ==>
                 normals[v] == base[v].Add(FaceSum(faces[..k], fns[..k], v)) &&
                 numFaces[v] == Count(faces[..k], v)
      modifies this, numFaces
      ensures vertices == old(vertices) && faces == old(faces) && materials == old(materials)
      ensures vertNorms == old(vertNorms) && |normals| == |base|
      ensures forall v :: 0 <= v < |normals| ==>
                normals[v] == base[v].Add(FaceSum(faces[..k + 1], fns[..k + 1], v)) &&
                numFaces[v] == Count(faces[..k + 1], v)
    {
      var f := faces[k];
      var fn := fns[k];
      assert f in faces;
      ghost var before := normals;
      ghost var counts := numFaces[..];
      var i := 0;
      while i < 3
        invariant 0 <= i <= 3
        invariant vertices == old(vertices) && faces == old(faces) && materials == old(materials)
        invariant vertNorms == old(vertNorms) && |normals| == |base|
        invariant forall v :: 0 <= v < |normals| ==>
                    normals[v] == before[v].Add(Share(f, fn, v, i)) && numFaces[v] == counts[v] + Uses(f, v, i)
      {
        var id := f.Id(i);
        forall v | 0 <= v < |normals|
          ensures before[v].Add(Share(f, fn, v, i + 1)) ==
                    (if v == id then before[v].Add(Share(f, fn, v, i)).Add(fn) else before[v].Add(Share(f, fn, v, i)))
        {
          AddAssociates(before[v], Share(f, fn, v, i), if f.Id(i) == v then fn else Zero);
          AddZero(Share(f, fn, v, i));
        }
        normals := normals[id := normals[id].Add(fn)];
        numFaces[id] := numFaces[id] + 1;
        i := i + 1;
      }
      assert faces[..k + 1][..k] == faces[..k] && fns[..k + 1][..k] == fns[..k];
      forall v | 0 <= v < |normals|
        ensures normals[v] == base[v].Add(FaceSum(faces[..k + 1], fns[..k + 1], v))
      {
        AddAssociates(base[v], FaceSum(faces[..k], fns[..k], v), Share(f, fn, v, 3));
      }
    }
  }
}
