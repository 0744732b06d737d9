/** Building the KD tree (`Node`, `splitNode`, `computeHMedian`, src/kdtree.h). */
module KdBuild {
  import opened Common
  import opened Vectors

  /** An axis-aligned bounding box; the default box is empty. */
  datatype Box = EmptyBox | Box(lo: Vec3, hi: Vec3)

  /** Whether a point lies in a box, faces included. */
  predicate Contains(b: Box, p: Vec3)
  {
    b.Box? && b.lo.x <= p.x <= b.hi.x && b.lo.y <= p.y <= b.hi.y && b.lo.z <= p.z <= b.hi.z
  }

  /** The smallest box holding both boxes; the empty box merges as the identity. */
  function MergeBox(a: Box, b: Box): Box
  {
    match (a, b)
    case (EmptyBox, _) => b
    case (_, EmptyBox) => a
    case (Box(l1, h1), Box(l2, h2)) =>
      Box(Vec3(Min(l1.x, l2.x), Min(l1.y, l2.y), Min(l1.z, l2.z)),
          Vec3(Max(h1.x, h2.x), Max(h1.y, h2.y), Max(h1.z, h2.z)))
  }

  /** Merging with the empty box changes nothing, and the merge of two boxes contains every
      point of either. */
  lemma MergeBoxCovers(a: Box, b: Box, p: Vec3)
    ensures MergeBox(a, EmptyBox) == a && MergeBox(EmptyBox, b) == b
    ensures Contains(a, p) || Contains(b, p) ==> Contains(MergeBox(a, b), p)
  {
  }

  /** An object the tree stores: an id the intersection query understands, its bounding
      box (from `lo` to `hi`) and the area of that box. */
  datatype Obj = Obj(id: int, lo: Vec3, hi: Vec3, area: real)
  {
    function Bounds(): Box { Box(lo, hi) }

    /** The object's extent `[d1, d2]` along an axis (`getPlaneNormsDists`). */
    function D1(a: Axis): real { lo.At(a) }
    function D2(a: Axis): real { hi.At(a) }
  }

  /** Which children of a node split at `split` along `a` receive an object. */
  datatype Side = Neg | Pos | Both

  /** An object whose extent ends at or before the plane goes to the negative child only;
      otherwise one that starts at or after the plane goes to the positive child only; an
      object straddling the plane goes to both. */
  function Classify(o: Obj, a: Axis, split: real): (s: Side)
    ensures s == Neg <==> split >= o.D2(a)
    ensures s == Pos <==> split < o.D2(a) && split <= o.D1(a)
    ensures s == Both <==> o.D1(a) < split < o.D2(a)
  {
    if split >= o.D2(a) then Neg else if split <= o.D1(a) then Pos else Both
  }

  predicate GoesNeg(o: Obj, a: Axis, split: real) { Classify(o, a, split) != Pos }
  predicate GoesPos(o: Obj, a: Axis, split: real) { Classify(o, a, split) != Neg }

  /** The objects the negative child receives, in order. */
  function NegPart(objs: seq<Obj>, a: Axis, split: real): (r: seq<Obj>)
    ensures |r| <= |objs|
  {
    if |objs| == 0 then []
    else
      var last := objs[|objs| - 1];
      NegPart(objs[..|objs| - 1], a, split) + (if GoesNeg(last, a, split) then [last] else [])
  }

  /** The objects the positive child receives, in order. */
  function PosPart(objs: seq<Obj>, a: Axis, split: real): (r: seq<Obj>)
    ensures |r| <= |objs|
  {
    if |objs| == 0 then []
    else
      var last := objs[|objs| - 1];
      PosPart(objs[..|objs| - 1], a, split) + (if GoesPos(last, a, split) then [last] else [])
  }

  /** The negative child receives exactly the objects that do not lie wholly beyond the
      plane, and the positive child exactly those that do not lie wholly before it. */
  lemma {:induction false} PartsMembers(objs: seq<Obj>, a: Axis, split: real)
    ensures forall o :: o in NegPart(objs, a, split) <==> o in objs && GoesNeg(o, a, split)
    ensures forall o :: o in PosPart(objs, a, split) <==> o in objs && GoesPos(o, a, split)
  {
    if |objs| > 0 {
      var init := objs[..|objs| - 1];
      PartsMembers(init, a, split);
      assert objs == init + [objs[|objs| - 1]];
    }
  }

  lemma PartsStep(objs: seq<Obj>, k: int, a: Axis, split: real)
    requires 0 <= k < |objs|
    ensures NegPart(objs[..k + 1], a, split) ==
              NegPart(objs[..k], a, split) + (if GoesNeg(objs[k], a, split) then [objs[k]] else [])
    ensures PosPart(objs[..k + 1], a, split) ==
              PosPart(objs[..k], a, split) + (if GoesPos(objs[k], a, split) then [objs[k]] else [])
  {
    assert objs[..k + 1][..k] == objs[..k];
  }

  /** Every object reaches at least one child. */
  lemma PartsCover(objs: seq<Obj>, a: Axis, split: real)
    ensures forall o :: o in objs ==> o in NegPart(objs, a, split) || o in PosPart(objs, a, split)
  {
    PartsMembers(objs, a, split);
  }

  /** Together the two children hold at least as many objects as their parent. */
  lemma {:induction false} PartsCount(objs: seq<Obj>, a: Axis, split: real)
    ensures |NegPart(objs, a, split)| + |PosPart(objs, a, split)| >= |objs|
  {
    if |objs| > 0 {
      PartsCount(objs[..|objs| - 1], a, split);
    }
  }

  /** What a node accumulates: its objects, the merge of their boxes and the sum of their
      areas. */
  datatype NodeData = NodeData(objects: seq<Obj>, box: Box, area: real)

  const EmptyNode := NodeData([], EmptyBox, 0.0)

  /** The data of a node after `addObject(o)`. */
  function Added(d: NodeData, o: Obj): NodeData
  {
    NodeData(d.objects + [o], MergeBox(d.box, o.Bounds()), d.area + o.area)
  }

  function SumAreas(objs: seq<Obj>): real
  {
    if |objs| == 0 then 0.0 else SumAreas(objs[..|objs| - 1]) + objs[|objs| - 1].area
  }

  /** The data of a fresh node after adding `objs` in order. */
  function Collect(objs: seq<Obj>): NodeData
  {
    if |objs| == 0 then EmptyNode
    else Added(Collect(objs[..|objs| - 1]), objs[|objs| - 1])
  }

  lemma {:induction false} CollectObjects(objs: seq<Obj>)
    ensures Collect(objs).objects == objs
  {
    if |objs| > 0 {
      CollectObjects(objs[..|objs| - 1]);
      assert objs == objs[..|objs| - 1] + [objs[|objs| - 1]];
    }
  }

  /** A node that collected `objs` holds exactly those objects and the sum of their areas;
      its box is empty only without objects and contains every point of every object's box. */
  lemma {:induction false} CollectContents(objs: seq<Obj>)
    ensures Collect(objs).objects == objs
    ensures Collect(objs).area == SumAreas(objs)
    ensures Collect(objs).box.EmptyBox? <==> |objs| == 0
    ensures forall k, p :: 0 <= k < |objs| && Contains(objs[k].Bounds(), p) ==> Contains(Collect(objs).box, p)
  {
    if |objs| > 0 {
      var init, last := objs[..|objs| - 1], objs[|objs| - 1];
      CollectContents(init);
      assert objs == init + [last];
      forall k, p | 0 <= k < |objs| && Contains(objs[k].Bounds(), p)
        ensures Contains(Collect(objs).box, p)
      {
        MergeBoxCovers(Collect(init).box, last.Bounds(), p);
        if k < |init| {
          assert init[k] == objs[k];
        }
      }
    }
  }

  /** A node while it collects objects. */
  class Node {
    var objects: seq<Obj>
    var box: Box
    var area: real

    /** A node without objects, with an empty box and zero area. */
    constructor ()
      ensures Data() == EmptyNode
    {
      objects := [];
      box := EmptyBox;
      area := 0.0;
    }

    function Data(): NodeData
      reads this
    {
      NodeData(objects, box, area)
    }

    /** `addObject`: one more object, its box merged in, its area added. */
    method AddObject(o: Obj)
      modifies this
      ensures Data() == Added(old(Data()), o)
      ensures |objects| == |old(objects)| + 1
    {
      box := MergeBox(box, o.Bounds());
      area := area + o.area;
      objects := objects + [o];
    }
  }

  /** A built tree. An internal node records the axis and distance of its splitting plane
      and its positive and negative children; a leaf keeps its objects. */
  datatype Tree =
    | Leaf(data: NodeData)
    | Internal(data: NodeData, axis: Axis, dist: real, pos: Tree, neg: Tree)

  function Height(t: Tree): nat
  {
    match t
    case Leaf(_) => 0
    case Internal(_, _, _, p, n) => 1 + (if Height(p) >= Height(n) then Height(p) else Height(n))
  }

  /** Object `o` is stored in some leaf of `t`. */
  predicate InSomeLeaf(t: Tree, o: Obj)
  {
    match t
    case Leaf(d) => o in d.objects
    case Internal(_, _, _, p, n) => InSomeLeaf(p, o) || InSomeLeaf(n, o)
  }

  /** The endpoints of every object along an axis, d1 then d2 for each in turn. */
  function Endpoints(objs: seq<Obj>, a: Axis): (r: seq<real>)
    ensures |r| == 2 * |objs|
  {
    if |objs| == 0 then []
    else Endpoints(objs[..|objs| - 1], a) + [objs[|objs| - 1].D1(a), objs[|objs| - 1].D2(a)]
  }

  predicate Sorted(s: seq<real>)
  {
    forall i, j :: 0 <= i < j < |s| ==> s[i] <= s[j]
  }

  function Insert(x: real, s: seq<real>): (r: seq<real>)
    requires Sorted(s)
    ensures Sorted(r) && multiset(r) == multiset(s) + multiset{x} && |r| == |s| + 1
    ensures forall y :: y in r ==> y == x || y in s
  {
    if |s| == 0 then [x]
    else if x <= s[0] then [x] + s
    else
      assert s == [s[0]] + s[1..];
      var rest := Insert(x, s[1..]);
      assert forall y :: y in rest ==> s[0] <= y;
      SortedCons(s[0], rest);
      [s[0]] + rest
  }

  lemma SortedCons(h: real, t: seq<real>)
    requires Sorted(t) && forall y :: y in t ==> h <= y
    ensures Sorted([h] + t)
  {
    var r := [h] + t;
    forall i, j | 0 <= i < j < |r|
      ensures r[i] <= r[j]
    {
      assert r[j] == t[j - 1];
      if i > 0 {
        assert r[i] == t[i - 1];
      } else {
        assert t[j - 1] in t;
      }
    }
  }

  /** The ascending order of a sequence of distances (`std::sort` on the first components). */
  function SortReals(s: seq<real>): (r: seq<real>)
    ensures Sorted(r) && multiset(r) == multiset(s) && |r| == |s|
  {
    if |s| == 0 then []
    else
      assert s == [s[0]] + s[1..];
      Insert(s[0], SortReals(s[1..]))
  }

  /** Two sorted arrangements of the same values are equal, so the distance `std::sort`
      leaves at any index does not depend on how it orders equal keys. */
  lemma {:induction false} SortedUnique(a: seq<real>, b: seq<real>)
    requires Sorted(a) && Sorted(b) && multiset(a) == multiset(b)
    ensures a == b
    decreases |a|
  {
    assert |a| == |multiset(a)| == |multiset(b)| == |b|;
    if |a| > 0 {
      assert a[0] in multiset(b) && b[0] in multiset(a);
      SortedFirstIsLeast(b, a[0]);
      SortedFirstIsLeast(a, b[0]);
      var h := a[0];
      assert a == [h] + a[1..] && b == [h] + b[1..];
      assert multiset(a[1..]) == multiset(a) - multiset{h};
      assert multiset(b[1..]) == multiset(b) - multiset{h};
      SortedUnique(a[1..], b[1..]);
    }
  }

  lemma SortedFirstIsLeast(s: seq<real>, x: real)
    requires Sorted(s) && x in multiset(s)
    ensures s[0] <= x
  {
    assert x in s;
    var i :| 0 <= i < |s| && s[i] == x;
    assert i == 0 || s[0] <= s[i];
  }

  /** The median cost `-max(pos, neg) / (pos + neg)`: between -1 and -1/2. */
  function MedianCost(neg: nat, pos: nat): (h: real)
    requires neg + pos >= 1
    ensures -1.0 <= h <= -0.5
  {
    var total := (neg + pos) as real;
    FractionsSum(neg as real, pos as real);
    -Max(pos as real / total, neg as real / total)
  }

  lemma FractionsSum(n: real, p: real)
    requires n >= 0.0 && p >= 0.0 && n + p >= 1.0
    ensures p / (n + p) + n / (n + p) == 1.0
    ensures 0.0 <= p / (n + p) <= 1.0 && 0.0 <= n / (n + p) <= 1.0
  {
    var s := n + p;
    assert p / s + n / s == (p + n) / s;
  }

  /** `computeHMedian` on a non-empty node: the split is the endpoint at index n of the 2n
      sorted endpoints, and the cost is the median cost of the counts of the two sides. */
  function MedianSplit(objs: seq<Obj>, a: Axis): (r: (real, real))
    ensures |objs| == 0 ==> r == (-1.0, 0.0)
    ensures |objs| > 0 ==> -1.0 <= r.0 <= -0.5
  {
    if |objs| == 0 then (-1.0, 0.0)
    else
      var d := SortReals(Endpoints(objs, a))[|objs|];
      PartsCount(objs, a, d);
      (MedianCost(|NegPart(objs, a, d)|, |PosPart(objs, a, d)|), d)
  }

  /** How the split cost is computed: the median heuristic, or the surface-area heuristic
      whose sweep the model leaves to a function `(objects, axis) -> (cost, split)`. */
  datatype Heuristic = Median | Surface(sah: (seq<Obj>, Axis) -> (real, real))

  function Cost(hr: Heuristic, objs: seq<Obj>, a: Axis): (r: (real, real))
    ensures |objs| == 0 ==> r == (-1.0, 0.0)
    ensures hr.Median? ==> r == MedianSplit(objs, a)
    ensures hr.Surface? && |objs| > 0 ==> r == hr.sah(objs, a)
  {
    if |objs| == 0 then (-1.0, 0.0)
    else match hr
      case Median => MedianSplit(objs, a)
      case Surface(sah) => sah(objs, a)
  }

  /** The choice of the splitting axis from the three costs: x by default, y only when
      strictly cheaper, then z only when strictly cheaper than the best so far. */
  function ChooseAxis(hx: real, hy: real, hz: real): (a: Axis)
    ensures a == X <==> hx <= hy && hx <= hz
    ensures a == Y <==> hy < hx && hy <= hz
    ensures a == Z <==> hz < hx && hz < hy
  {
    var best := if hy < hx then Y else X;
    var hBest := if hy < hx then hy else hx;
    if hz < hBest then Z else best
  }

  /** The axis and distance of the plane splitting a node: the first axis, in x, y, z order,
      of least cost, with the distance its cost computation proposed. */
  function Plane(hr: Heuristic, objs: seq<Obj>): (p: (Axis, real))
    ensures p.1 == Cost(hr, objs, p.0).1
    ensures var h := Cost(hr, objs, p.0).0;
            h <= Cost(hr, objs, X).0 && h <= Cost(hr, objs, Y).0 && h <= Cost(hr, objs, Z).0
    ensures p.0 != X ==> Cost(hr, objs, p.0).0 < Cost(hr, objs, X).0
    ensures p.0 == Z ==> Cost(hr, objs, Z).0 < Cost(hr, objs, Y).0
  {
    var cx := Cost(hr, objs, X);
    var cy := Cost(hr, objs, Y);
    var cz := Cost(hr, objs, Z);
    var a := ChooseAxis(cx.0, cy.0, cz.0);
    var c := match a case X => cx case Y => cy case Z => cz;
    (a, c.1)
  }

  function Bound(depth: int): nat
  {
    if depth < 0 then 0 else depth + 1
  }

  /** `choose` picks, for every set of objects, the plane `Plane` picks. */
  ghost predicate PlaneChooser(hr: Heuristic, choose: seq<Obj> -> (Axis, real))
  {
    forall objs {:trigger Plane(hr, objs)} :: choose(objs) == Plane(hr, objs)
  }

  /** The plane choice of a heuristic, as a function of a node's objects. */
  function Chooser(hr: Heuristic): (choose: seq<Obj> -> (Axis, real))
    ensures PlaneChooser(hr, choose)
  {
    (objs: seq<Obj>) => Plane(hr, objs)
  }

  /** `splitNode` on a node holding `objs`: a leaf when there are at most `minObjs` objects
      or the depth is exhausted; otherwise the node is split on the plane `choose` picks and
      both children are built with one less depth. */
  function Build(objs: seq<Obj>, depth: int, minObjs: nat, choose: seq<Obj> -> (Axis, real)): (t: Tree)
    ensures t.data == Collect(objs)
    decreases Bound(depth)
  {
    if |objs| <= minObjs || depth < 0 then Leaf(Collect(objs))
    else
      var p := choose(objs);
      Internal(Collect(objs), p.0, p.1, Build(PosPart(objs, p.0, p.1), depth - 1, minObjs, choose),
               Build(NegPart(objs, p.0, p.1), depth - 1, minObjs, choose))
  }

  lemma BuildInternal(objs: seq<Obj>, depth: int, minObjs: nat, choose: seq<Obj> -> (Axis, real), a: Axis, d: real)
    requires !(|objs| <= minObjs || depth < 0) && choose(objs) == (a, d)
    ensures Build(objs, depth, minObjs, choose) ==
              Internal(Collect(objs), a, d, Build(PosPart(objs, a, d), depth - 1, minObjs, choose),
                       Build(NegPart(objs, a, d), depth - 1, minObjs, choose))
  {
  }

  /** A node stays a leaf exactly when it holds at most `minObjs` objects or the depth is
      negative. */
  lemma LeafExactly(objs: seq<Obj>, depth: int, minObjs: nat, choose: seq<Obj> -> (Axis, real))
    ensures Build(objs, depth, minObjs, choose).Leaf? <==> |objs| <= minObjs || depth < 0
  {
  }

  /** Children are built with one less depth, so the tree is at most depth + 1 levels high. */
  lemma {:induction false} HeightBound(objs: seq<Obj>, depth: int, minObjs: nat, choose: seq<Obj> -> (Axis, real))
    ensures Height(Build(objs, depth, minObjs, choose)) <= Bound(depth)
    decreases Bound(depth)
  {
    if !(|objs| <= minObjs || depth < 0) {
      var p := choose(objs);
      HeightBound(PosPart(objs, p.0, p.1), depth - 1, minObjs, choose);
      HeightBound(NegPart(objs, p.0, p.1), depth - 1, minObjs, choose);
    }
  }

  /** Every object handed to the build ends up in at least one leaf, and every leaf object
      was handed to the build. */
  lemma {:induction false} Coverage(objs: seq<Obj>, depth: int, minObjs: nat, choose: seq<Obj> -> (Axis, real), o: Obj)
    ensures InSomeLeaf(Build(objs, depth, minObjs, choose), o) <==> o in objs
    decreases Bound(depth)
  {
    if |objs| <= minObjs || depth < 0 {
      CollectContents(objs);
    } else {
      var p := choose(objs);
      Coverage(PosPart(objs, p.0, p.1), depth - 1, minObjs, choose, o);
      Coverage(NegPart(objs, p.0, p.1), depth - 1, minObjs, choose, o);
      PartsCover(objs, p.0, p.1);
      PartsMembers(objs, p.0, p.1);
    }
  }

  /** Objects in the positive child end beyond the plane, and objects in the negative child
      start before it or end at it. */
  lemma ChildrenRespectPlane(objs: seq<Obj>, depth: int, minObjs: nat, choose: seq<Obj> -> (Axis, real))
    requires Build(objs, depth, minObjs, choose).Internal?
    ensures var t := Build(objs, depth, minObjs, choose);
            (forall o :: o in t.pos.data.objects ==> o in objs && o.D2(t.axis) > t.dist) &&
            (forall o :: o in t.neg.data.objects ==> o in objs && (o.D1(t.axis) < t.dist || o.D2(t.axis) <= t.dist))
  {
    var p := choose(objs);
    PartsMembers(objs, p.0, p.1);
    CollectContents(PosPart(objs, p.0, p.1));
    CollectContents(NegPart(objs, p.0, p.1));
  }

  /** `computeHMedian`: on an empty node -1 (the split distance keeps its initial 0);
      otherwise the endpoints are collected, sorted, the one at index n taken, and the objects
      counted on each side. */
  method ComputeHMedian(node: Node, a: Axis) returns (h: real, bestD: real)
    ensures (h, bestD) == MedianSplit(node.objects, a)
  {
    var objs := node.objects;
    if |objs| == 0 {
      return -1.0, 0.0;
    }
    var pairs := CollectEndpoints(objs, a);
    var sorted := SortReals(pairs);
    assert |sorted| / 2 == |objs|;
    bestD := sorted[|sorted| / 2];
    var negHalf, posHalf := CountSides(objs, a, bestD);
    PartsCount(objs, a, bestD);
    var total := (negHalf + posHalf) as real;
    h := -1.0 * Max(posHalf as real / total, negHalf as real / total);
    MedianCostIs(negHalf, posHalf, h);
    MedianSplitNonEmpty(objs, a, bestD, h);
  }

  lemma MedianCostIs(neg: nat, pos: nat, h: real)
    requires neg + pos >= 1
    requires h == -1.0 * Max(pos as real / (neg + pos) as real, neg as real / (neg + pos) as real)
    ensures h == MedianCost(neg, pos)
  {
  }

  lemma MedianSplitNonEmpty(objs: seq<Obj>, a: Axis, d: real, h: real)
    requires |objs| > 0 && d == SortReals(Endpoints(objs, a))[|objs|]
    requires |NegPart(objs, a, d)| + |PosPart(objs, a, d)| >= 1
    requires h == MedianCost(|NegPart(objs, a, d)|, |PosPart(objs, a, d)|)
    ensures MedianSplit(objs, a) == (h, d)
  {
  }

  /** The endpoint list of `computeHMedian`: d1 then d2 of each object in turn. */
  method CollectEndpoints(objs: seq<Obj>, a: Axis) returns (pairs: seq<real>)
    ensures pairs == Endpoints(objs, a)
  {
    pairs := [];
    var k := 0;
    while k < |objs|
      invariant 0 <= k <= |objs|
      invariant pairs == Endpoints(objs[..k], a)
    {
      assert objs[..k + 1][..k] == objs[..k];
      pairs := pairs + [objs[k].D1(a), objs[k].D2(a)];
      k := k + 1;
    }
    assert objs[..k] == objs;
  }

  /** The counting loop of `computeHMedian`: how many objects each child would receive. */
  method CountSides(objs: seq<Obj>, a: Axis, d: real) returns (negHalf: nat, posHalf: nat)
    ensures negHalf == |NegPart(objs, a, d)| && posHalf == |PosPart(objs, a, d)|
  {
    negHalf, posHalf := 0, 0;
    var k := 0;
    while k < |objs|
      invariant 0 <= k <= |objs|
      invariant negHalf == |NegPart(objs[..k], a, d)| && posHalf == |PosPart(objs[..k], a, d)|
    {
      PartsStep(objs, k, a, d);
      var o := objs[k];
      if d >= o.D2(a) {
        negHalf := negHalf + 1;
      } else if d <= o.D1(a) {
        posHalf := posHalf + 1;
      } else {
        negHalf := negHalf + 1;
        posHalf := posHalf + 1;
      }
      k := k + 1;
    }
    assert objs[..k] == objs;
  }

  /** The partition loop of `splitNode`: two fresh nodes receive, through `addObject`, the
      objects of each side of the plane in order. */
  method Partition(objs: seq<Obj>, a: Axis, split: real) returns (positive: Node, negative: Node)
    ensures fresh(positive) && fresh(negative)
    ensures positive.objects == PosPart(objs, a, split) && negative.objects == NegPart(objs, a, split)
    ensures positive.Data() == Collect(positive.objects) && negative.Data() == Collect(negative.objects)
  {
    positive := new Node();
    negative := new Node();
    var k := 0;
    while k < |objs|
      invariant 0 <= k <= |objs|
      invariant fresh(positive) && fresh(negative) && positive != negative
      invariant positive.Data() == Collect(PosPart(objs[..k], a, split))
      invariant negative.Data() == Collect(NegPart(objs[..k], a, split))
    {
      DistributeAt(objs, k, a, split, positive, negative);
      k := k + 1;
    }
    assert objs[..k] == objs;
    CollectObjects(PosPart(objs, a, split));
    CollectObjects(NegPart(objs, a, split));
  }

  /** The partition loop's step: object k goes to the children `Classify` names. */
  method DistributeAt(objs: seq<Obj>, k: int, a: Axis, split: real, positive: Node, negative: Node)
    requires 0 <= k < |objs| && positive != negative
    requires positive.Data() == Collect(PosPart(objs[..k], a, split))
    requires negative.Data() == Collect(NegPart(objs[..k], a, split))
    modifies positive, negative
    ensures positive.Data() == Collect(PosPart(objs[..k + 1], a, split))
    ensures negative.Data() == Collect(NegPart(objs[..k + 1], a, split))
  {
    PartsStep(objs, k, a, split);
    var pos, neg := PosPart(objs[..k], a, split), NegPart(objs[..k], a, split);
    CollectStep(pos, objs[k]);
    CollectStep(neg, objs[k]);
    assert pos + [] == pos && neg + [] == neg;
    Distribute(objs[k], a, split, positive, negative);
  }

  /** One object of the partition loop: `d2 <= split` sends it to the negative child,
      `d1 >= split` to the positive child, anything else to both. */
  method Distribute(o: Obj, a: Axis, split: real, positive: Node, negative: Node)
    requires positive != negative
    modifies positive, negative
    ensures positive.Data() == if GoesPos(o, a, split) then Added(old(positive.Data()), o) else old(positive.Data())
    ensures negative.Data() == if GoesNeg(o, a, split) then Added(old(negative.Data()), o) else old(negative.Data())
  {
    var side := Classify(o, a, split);
    if split >= o.D2(a) {
      assert side == Neg;
      negative.AddObject(o);
    } else if split <= o.D1(a) {
      assert side == Pos;
      positive.AddObject(o);
    } else {
      assert side == Both;
      negative.AddObject(o);
      positive.AddObject(o);
    }
  }

  lemma CollectStep(objs: seq<Obj>, o: Obj)
    ensures Collect(objs + [o]) == Added(Collect(objs), o)
  {
    assert (objs + [o])[..|objs|] == objs;
  }

  /** `splitNode`: a node within the limits stays a leaf; otherwise it is split on the
      cheapest plane. */
  method SplitNode(node: Node, depth: int, minObjs: nat, hr: Heuristic, ghost choose: seq<Obj> -> (Axis, real))
    returns (t: Tree)
    requires PlaneChooser(hr, choose)
    ensures t == Build(node.objects, depth, minObjs, choose)
    decreases Bound(depth), 1
  {
    var objs := node.objects;
    if |objs| <= minObjs || depth < 0 {
      return Leaf(Collect(objs));
    }
    var dim, dMin := ChoosePlane(node, hr, choose);
    t := SplitChildren(objs, depth, minObjs, hr, choose, dim, dMin);
  }

  /** The split itself: children are fresh nodes filled with `addObject`, then split in
      turn with one less depth. */
  method SplitChildren(objs: seq<Obj>, depth: int, minObjs: nat, hr: Heuristic, ghost choose: seq<Obj> -> (Axis, real),
                       dim: Axis, dMin: real)
    returns (t: Tree)
    requires PlaneChooser(hr, choose)
    requires !(|objs| <= minObjs || depth < 0) && choose(objs) == (dim, dMin)
    ensures t == Build(objs, depth, minObjs, choose)
    decreases Bound(depth), 0
  {
    var positive, negative := Partition(objs, dim, dMin);
    var p := SplitNode(positive, depth - 1, minObjs, hr, choose);
    var n := SplitNode(negative, depth - 1, minObjs, hr, choose);
    assert p == Build(PosPart(objs, dim, dMin), depth - 1, minObjs, choose);
    assert n == Build(NegPart(objs, dim, dMin), depth - 1, minObjs, choose);
    BuildInternal(objs, depth, minObjs, choose, dim, dMin);
    t := Internal(Collect(objs), dim, dMin, p, n);
  }

  /** `computeH`: -1 on an empty node (the split distance keeps its initial 0); otherwise
      the surface-area sweep, which the model takes as the function `sah`. */
  method ComputeH(node: Node, a: Axis, sah: (seq<Obj>, Axis) -> (real, real)) returns (h: real, bestD: real)
    ensures (h, bestD) == Cost(Surface(sah), node.objects, a)
  {
    if |node.objects| == 0 {
      return -1.0, 0.0;
    }
    var r := sah(node.objects, a);
    h, bestD := r.0, r.1;
  }

  /** The axis selection of `splitNode`: the cost along x, y and z, keeping an axis only when
      it is strictly cheaper than the best so far. */
  method ChoosePlane(node: Node, hr: Heuristic, ghost choose: seq<Obj> -> (Axis, real)) returns (dim: Axis, dMin: real)
    requires PlaneChooser(hr, choose)
    ensures (dim, dMin) == choose(node.objects)
  {
    var objs := node.objects;
    var hx, dx, hy, dy, hz, dz;
    if hr.Surface? {
      hx, dx := ComputeH(node, X, hr.sah);
      hy, dy := ComputeH(node, Y, hr.sah);
      hz, dz := ComputeH(node, Z, hr.sah);
    } else {
      hx, dx := ComputeHMedian(node, X);
      hy, dy := ComputeHMedian(node, Y);
      hz, dz := ComputeHMedian(node, Z);
    }
    assert (hx, dx) == Cost(hr, objs, X) && (hy, dy) == Cost(hr, objs, Y) && (hz, dz) == Cost(hr, objs, Z);
    dim := X;
    var hMin := hx;
    dMin := dx;
    if hy < hMin {
      dim := Y;
      hMin := hy;
      dMin := dy;
    }
    if hz < hMin {
      dim := Z;
      hMin := hz;
      dMin := dz;
    }
    assert (dim, dMin) == Plane(hr, objs);
  }
}
