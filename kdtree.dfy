/** The KD tree itself (`KdTree`, src/kdtree.h): building it once, deleting it, and the
    stack-based ray traversal that returns the nearest hit of the first leaf that has one. */
module KdTrees {
  import opened Common
  import opened Vectors
  import opened Rays
  import opened KdBuild

  /** What the traversal asks of the geometry it cannot see: the entry and exit parameters
      of a ray through a box (`BoundingBox::intersect`), and an object's own intersection
      test (`intersect` on the stored object). */
  datatype Probe = Probe(boxHit: (Box, Ray) -> Option<(real, real)>, hit: (Obj, Ray) -> Option<Isect>)

  /** A stack element: a node and the ray parameter interval in which it is visited. */
  datatype Frame = Frame(node: Tree, tMin: real, tMax: real)

  function Size(t: Tree): (n: nat)
    ensures n >= 1
  {
    match t
    case Leaf(_) => 1
    case Internal(_, _, _, p, n) => 1 + Size(p) + Size(n)
  }

  function SumSizes(s: seq<Frame>): nat
  {
    if |s| == 0 then 0 else SumSizes(s[..|s| - 1]) + Size(s[|s| - 1].node)
  }

  lemma {:induction false} SumSizesConcat(a: seq<Frame>, b: seq<Frame>)
    ensures SumSizes(a + b) == SumSizes(a) + SumSizes(b)
    decreases |b|
  {
    if |b| == 0 {
      assert a + b == a;
    } else {
      assert (a + b)[..|a + b| - 1] == a + b[..|b| - 1];
      SumSizesConcat(a, b[..|b| - 1]);
    }
  }

  /** The ray parameter at which the ray meets the splitting plane of a node. */
  function TPlane(m: Math, r: Ray, a: Axis, dist: real): real
  {
    m.div(dist - r.origin.At(a), r.dir.At(a))
  }

  /** One step down an internal node. The near child is the negative one when the plane lies
      ahead (tPlane >= 0) and the ray runs towards +axis, or the plane lies behind and it runs
      towards -axis; otherwise it is the positive one. Only the near child is visited when
      the plane lies outside (0, tMax); only the far child when it lies at or before tMin;
      otherwise the far child is pushed with [tPlane, tMax] and the near child visited with
      [tMin, tPlane]. */
  function Step(m: Math, r: Ray, f: Frame): (s: (Frame, Option<Frame>))
    requires f.node.Internal?
    ensures s.0.node == f.node.pos || s.0.node == f.node.neg
    ensures s.1.Some? ==>
              0.0 < s.1.value.tMin < s.1.value.tMax &&
              s.0.tMin == f.tMin && s.0.tMax == s.1.value.tMin && s.1.value.tMax == f.tMax &&
              ((s.0.node == f.node.neg && s.1.value.node == f.node.pos) ||
               (s.0.node == f.node.pos && s.1.value.node == f.node.neg))
    ensures s.1.None? ==> s.0.tMin == f.tMin && s.0.tMax == f.tMax
  {
    var t := f.node;
    var tPlane := TPlane(m, r, t.axis, t.dist);
    var d := r.dir.At(t.axis);
    var near := if tPlane >= 0.0 then (if d > 0.0 then t.neg else t.pos)
                else (if d > 0.0 then t.pos else t.neg);
    var far := if tPlane >= 0.0 then (if d > 0.0 then t.pos else t.neg)
               else (if d > 0.0 then t.neg else t.pos);
    if tPlane >= f.tMax || tPlane <= 0.0 then (Frame(near, f.tMin, f.tMax), None)
    else if tPlane <= f.tMin then (Frame(far, f.tMin, f.tMax), None)
    else (Frame(near, f.tMin, tPlane), Some(Frame(far, tPlane, f.tMax)))
  }

  /** The descent from a popped frame to a leaf: the leaf reached and the frames pushed on
      the way, in push order. */
  function Descend(m: Math, r: Ray, f: Frame): (res: (Tree, seq<Frame>))
    ensures res.0.Leaf?
    decreases f.node
  {
    match f.node
    case Leaf(_) => (f.node, [])
    case Internal(_, _, _, _, _) =>
      var s := Step(m, r, f);
      var rest := Descend(m, r, s.0);
      (rest.0, (if s.1.Some? then [s.1.value] else []) + rest.1)
  }

  /** Every frame pushed during a descent has 0 < tMin < tMax. */
  lemma {:induction false} PushedFramesValid(m: Math, r: Ray, f: Frame)
    ensures forall g :: g in Descend(m, r, f).1 ==> 0.0 < g.tMin < g.tMax
    decreases f.node
  {
    if f.node.Internal? {
      PushedFramesValid(m, r, Step(m, r, f).0);
    }
  }

  /** The leaf reached and the nodes pushed are disjoint parts of the popped node, so they
      are together smaller than it. */
  lemma {:induction false} DescendSize(m: Math, r: Ray, f: Frame)
    ensures SumSizes(Descend(m, r, f).1) + Size(Descend(m, r, f).0) <= Size(f.node)
    decreases f.node
  {
    if f.node.Internal? {
      var s := Step(m, r, f);
      var rest := Descend(m, r, s.0);
      DescendSize(m, r, s.0);
      var pushed := if s.1.Some? then [s.1.value] else [];
      SumSizesConcat(pushed, rest.1);
      if s.1.Some? {
        assert SumSizes(pushed) == Size(s.1.value.node) by {
          assert pushed[..0] == [];
        }
      }
    }
  }

  /** `a` is `b` itself or lies below one of its children. */
  predicate SubtreeOf(a: Tree, b: Tree)
    decreases b
  {
    a == b || (b.Internal? && (SubtreeOf(a, b.pos) || SubtreeOf(a, b.neg)))
  }

  lemma {:induction false} SubtreeTrans(a: Tree, b: Tree, c: Tree)
    requires SubtreeOf(a, b) && SubtreeOf(b, c)
    ensures SubtreeOf(a, c)
    decreases c
  {
    if b != c {
      if SubtreeOf(b, c.pos) {
        SubtreeTrans(a, b, c.pos);
      } else {
        SubtreeTrans(a, b, c.neg);
      }
    }
  }

  /** `Leaf(d)` is a leaf of `t`. */
  predicate LeafOf(t: Tree, d: NodeData)
  {
    match t
    case Leaf(e) => e == d
    case Internal(_, _, _, p, n) => LeafOf(p, d) || LeafOf(n, d)
  }

  /** A leaf of a subtree is a leaf of the whole tree. */
  lemma {:induction false} LeafOfSubtree(a: Tree, b: Tree, d: NodeData)
    requires SubtreeOf(a, b) && LeafOf(a, d)
    ensures LeafOf(b, d)
    decreases b
  {
    if a != b {
      if SubtreeOf(a, b.pos) {
        LeafOfSubtree(a, b.pos, d);
      } else {
        LeafOfSubtree(a, b.neg, d);
      }
    }
  }

  /** The leaf reached is a leaf of the popped node, and every pushed node is one of its
      subtrees. */
  lemma {:induction false} DescendWithin(m: Math, r: Ray, f: Frame)
    ensures LeafOf(f.node, Descend(m, r, f).0.data)
    ensures forall g :: g in Descend(m, r, f).1 ==> SubtreeOf(g.node, f.node)
    decreases f.node
  {
    if f.node.Internal? {
      var s := Step(m, r, f);
      DescendWithin(m, r, s.0);
      assert SubtreeOf(f.node.pos, f.node.pos) && SubtreeOf(f.node.neg, f.node.neg);
    }
  }

  /** A leaf object's candidate hit: its own hit, kept only when the hit point lies in the
      object's own bounding box. */
  function Candidate(probe: Probe, r: Ray, o: Obj): (c: Option<Isect>)
    ensures c.Some? <==> probe.hit(o, r).Some? && Contains(o.Bounds(), r.At(probe.hit(o, r).value.t))
    ensures c.Some? ==> c == probe.hit(o, r)
  {
    var h := probe.hit(o, r);
    if h.Some? && Contains(o.Bounds(), r.At(h.value.t)) then h else None
  }

  function Candidates(probe: Probe, r: Ray, objs: seq<Obj>): (cs: seq<Option<Isect>>)
    ensures |cs| == |objs|
    ensures forall k :: 0 <= k < |objs| ==> cs[k] == Candidate(probe, r, objs[k])
  {
    if |objs| == 0 then []
    else Candidates(probe, r, objs[..|objs| - 1]) + [Candidate(probe, r, objs[|objs| - 1])]
  }

  lemma CandidatesStep(probe: Probe, r: Ray, objs: seq<Obj>, k: int)
    requires 0 <= k < |objs|
    ensures Candidates(probe, r, objs[..k + 1]) == Candidates(probe, r, objs[..k]) + [Candidate(probe, r, objs[k])]
  {
    assert objs[..k + 1][..k] == objs[..k];
  }

  /** The leaf scan: the nearest candidate, the first of equally near ones. */
  function LeafHit(probe: Probe, r: Ray, objs: seq<Obj>): Option<Isect>
  {
    NearestHit(Candidates(probe, r, objs))
  }

  /** The leaf scan finds nothing exactly when no object has a hit inside its own box;
      otherwise it reports such a hit, the first of the nearest ones. */
  lemma LeafHitSpec(probe: Probe, r: Ray, objs: seq<Obj>)
    ensures var h := LeafHit(probe, r, objs);
            h.None? <==> forall k :: 0 <= k < |objs| ==> Candidate(probe, r, objs[k]).None?
    ensures var h := LeafHit(probe, r, objs);
            h.Some? ==> exists k :: 0 <= k < |objs| && h == probe.hit(objs[k], r) &&
                          Contains(objs[k].Bounds(), r.At(h.value.t)) &&
                          FirstNearest(Candidates(probe, r, objs), k)
  {
    NearestHitIsFirstNearest(Candidates(probe, r, objs));
  }

  /** The traversal loop over a stack whose top is its last element: pop a frame, descend to
      a leaf pushing far children, and stop at the first leaf with a hit. */
  function Run(m: Math, probe: Probe, r: Ray, stack: seq<Frame>): (res: Option<Isect>)
    decreases SumSizes(stack)
  {
    if |stack| == 0 then None
    else
      var top := stack[|stack| - 1];
      var d := Descend(m, r, top);
      var hit := LeafHit(probe, r, d.0.data.objects);
      if hit.Some? then hit
      else
        DescendSize(m, r, top);
        SumSizesConcat(stack[..|stack| - 1], d.1);
        Run(m, probe, r, stack[..|stack| - 1] + d.1)
  }

  /** `rayTreeTraversal` on a tree: a ray missing the root box finds nothing; otherwise the
      root is visited with the box's entry and exit parameters. */
  function Traverse(m: Math, probe: Probe, r: Ray, root: Tree): (res: Option<Isect>)
    ensures probe.boxHit(root.data.box, r).None? ==> res.None?
  {
    match probe.boxHit(root.data.box, r)
    case None => None
    case Some(span) => Run(m, probe, r, [Frame(root, span.0, span.1)])
  }

  /** The leaves the loop scans, in order: after each popped frame the leaf its descent
      reaches, up to and including the first whose scan finds a hit. */
  function Visited(m: Math, probe: Probe, r: Ray, stack: seq<Frame>): seq<NodeData>
    decreases SumSizes(stack)
  {
    if |stack| == 0 then []
    else
      var top := stack[|stack| - 1];
      var d := Descend(m, r, top);
      if LeafHit(probe, r, d.0.data.objects).Some? then [d.0.data]
      else
        DescendSize(m, r, top);
        SumSizesConcat(stack[..|stack| - 1], d.1);
        [d.0.data] + Visited(m, probe, r, stack[..|stack| - 1] + d.1)
  }

  /** A list of scanned leaves and the loop's answer agree with "the nearest hit of the
      first leaf with a hit": every leaf is a leaf of `root`, every leaf before the last
      finds nothing, the answer is nothing exactly when no leaf has a hit, and otherwise
      it is the last leaf's scan result. */
  ghost predicate FirstLeafWithHit(probe: Probe, r: Ray, root: Tree, v: seq<NodeData>, res: Option<Isect>)
  {
    (forall k :: 0 <= k < |v| ==> LeafOf(root, v[k])) &&
    (forall k :: 0 <= k < |v| - 1 ==> LeafHit(probe, r, v[k].objects).None?) &&
    (res.None? <==> forall k :: 0 <= k < |v| ==> LeafHit(probe, r, v[k].objects).None?) &&
    (res.Some? ==> |v| > 0 && res == LeafHit(probe, r, v[|v| - 1].objects))
  }

  /** A leaf of `root` without a hit may be scanned before the others. */
  lemma PrependNoHit(probe: Probe, r: Ray, root: Tree, x: NodeData, rest: seq<NodeData>, res: Option<Isect>)
    requires LeafOf(root, x) && LeafHit(probe, r, x.objects).None?
    requires FirstLeafWithHit(probe, r, root, rest, res)
    ensures FirstLeafWithHit(probe, r, root, [x] + rest, res)
  {
    var v := [x] + rest;
    forall k | 0 <= k < |v|
      ensures LeafOf(root, v[k]) && (LeafHit(probe, r, v[k].objects).None? || k == |v| - 1)
      ensures LeafHit(probe, r, v[k].objects).Some? ==> exists j :: 0 <= j < |rest| && LeafHit(probe, r, rest[j].objects).Some?
    {
      if k > 0 {
        assert v[k] == rest[k - 1];
      }
    }
    if res.Some? {
      assert v[|v| - 1] == rest[|rest| - 1];
    }
  }

  /** The frames left after popping the top and descending from it. */
  function NextStack(m: Math, r: Ray, stack: seq<Frame>): seq<Frame>
    requires |stack| > 0
  {
    stack[..|stack| - 1] + Descend(m, r, stack[|stack| - 1]).1
  }

  /** One pass of the loop: when the leaf reached finds nothing, the loop goes on with the
      remaining and pushed frames; otherwise it stops there. */
  lemma RunStep(m: Math, probe: Probe, r: Ray, stack: seq<Frame>)
    requires |stack| > 0
    ensures var leaf := Descend(m, r, stack[|stack| - 1]).0.data;
            LeafHit(probe, r, leaf.objects).None? ==>
              SumSizes(NextStack(m, r, stack)) < SumSizes(stack) &&
              Run(m, probe, r, stack) == Run(m, probe, r, NextStack(m, r, stack)) &&
              Visited(m, probe, r, stack) == [leaf] + Visited(m, probe, r, NextStack(m, r, stack))
    ensures var leaf := Descend(m, r, stack[|stack| - 1]).0.data;
            LeafHit(probe, r, leaf.objects).Some? ==>
              Run(m, probe, r, stack) == LeafHit(probe, r, leaf.objects) && Visited(m, probe, r, stack) == [leaf]
  {
    var top := stack[|stack| - 1];
    DescendSize(m, r, top);
    SumSizesConcat(stack[..|stack| - 1], Descend(m, r, top).1);
  }

  /** The frames left after a pass are subtrees of `root` when the stack's were. */
  lemma NextWithin(m: Math, r: Ray, stack: seq<Frame>, root: Tree)
    requires |stack| > 0
    requires forall g :: g in stack ==> SubtreeOf(g.node, root)
    ensures forall g :: g in NextStack(m, r, stack) ==> SubtreeOf(g.node, root)
    ensures LeafOf(root, Descend(m, r, stack[|stack| - 1]).0.data)
  {
    var top := stack[|stack| - 1];
    assert top in stack;
    DescendWithin(m, r, top);
    LeafOfSubtree(top.node, root, Descend(m, r, top).0.data);
    forall g | g in NextStack(m, r, stack)
      ensures SubtreeOf(g.node, root)
    {
      if g in Descend(m, r, top).1 {
        SubtreeTrans(g.node, top.node, root);
      } else {
        assert g in stack;
      }
    }
  }

  /** Started from subtrees of `root`, the loop scans leaves of `root` up to the first one
      with a hit, and answers that leaf's scan result. */
  lemma {:induction false} RunFirstLeafWithHit(m: Math, probe: Probe, r: Ray, stack: seq<Frame>, root: Tree)
    requires forall g :: g in stack ==> SubtreeOf(g.node, root)
    ensures FirstLeafWithHit(probe, r, root, Visited(m, probe, r, stack), Run(m, probe, r, stack))
    decreases SumSizes(stack)
  {
    if |stack| > 0 {
      var leaf := Descend(m, r, stack[|stack| - 1]).0.data;
      RunStep(m, probe, r, stack);
      NextWithin(m, r, stack, root);
      if LeafHit(probe, r, leaf.objects).None? {
        var next := NextStack(m, r, stack);
        RunFirstLeafWithHit(m, probe, r, next, root);
        PrependNoHit(probe, r, root, leaf, Visited(m, probe, r, next), Run(m, probe, r, next));
      }
    }
  }

  lemma {:induction false} LeafOfWithin(t: Tree, d: NodeData)
    requires LeafOf(t, d)
    ensures forall o :: o in d.objects ==> InSomeLeaf(t, o)
  {
    match t
    case Leaf(_) =>
    case Internal(_, _, _, p, n) =>
      if LeafOf(p, d) {
        LeafOfWithin(p, d);
      } else {
        LeafOfWithin(n, d);
      }
  }

  /** The leaves `rayTreeTraversal` scans: none when the ray misses the root box. */
  function TraverseVisited(m: Math, probe: Probe, r: Ray, root: Tree): seq<NodeData>
  {
    match probe.boxHit(root.data.box, r)
    case None => []
    case Some(span) => Visited(m, probe, r, [Frame(root, span.0, span.1)])
  }

  /** `rayTreeTraversal` reports the nearest hit of the first leaf with a hit: every leaf it
      scans is a leaf of the tree, every one before the last finds nothing, and the answer is
      the last one's scan result, or nothing when no scanned leaf has a hit. */
  lemma TraverseFirstLeafWithHit(m: Math, probe: Probe, r: Ray, root: Tree)
    ensures FirstLeafWithHit(probe, r, root, TraverseVisited(m, probe, r, root), Traverse(m, probe, r, root))
  {
    match probe.boxHit(root.data.box, r)
    case None =>
    case Some(span) =>
      var stack := [Frame(root, span.0, span.1)];
      assert forall g :: g in stack ==> g.node == root;
      RunFirstLeafWithHit(m, probe, r, stack, root);
  }

  /** A hit reported by the traversal is the first nearest candidate of a leaf of the tree:
      some stored object's own hit, whose point lies in that object's own box (not the
      leaf's). */
  lemma HitInOwnBox(m: Math, probe: Probe, r: Ray, root: Tree)
    ensures var res := Traverse(m, probe, r, root);
            res.Some? ==> exists d :: LeafOf(root, d) && res == LeafHit(probe, r, d.objects) &&
                                      exists k :: 0 <= k < |d.objects| && res == probe.hit(d.objects[k], r) &&
                                                  Contains(d.objects[k].Bounds(), r.At(res.value.t)) &&
                                                  FirstNearest(Candidates(probe, r, d.objects), k)
    ensures var res := Traverse(m, probe, r, root);
            res.Some? ==> exists o :: InSomeLeaf(root, o) && res == probe.hit(o, r) &&
                                      Contains(o.Bounds(), r.At(res.value.t))
  {
    var res := Traverse(m, probe, r, root);
    if res.Some? {
      TraverseFirstLeafWithHit(m, probe, r, root);
      var v := TraverseVisited(m, probe, r, root);
      var d := v[|v| - 1];
      assert LeafOf(root, d);
      LeafOfWithin(root, d);
      LeafHitSpec(probe, r, d.objects);
      var k :| 0 <= k < |d.objects| && res == probe.hit(d.objects[k], r) &&
               Contains(d.objects[k].Bounds(), r.At(res.value.t)) &&
               FirstNearest(Candidates(probe, r, d.objects), k);
      assert InSomeLeaf(root, d.objects[k]);
    }
  }

  /** The tree of a scene: cost constants, build limits and the root, absent until built. */
  class KdTree {
    const ti: real
    const tt: real
    const depth: int
    const minObjs: nat
    var root: Option<Tree>

    /** The constructor's defaults: ti = 1, tt = 80, depth 15, at most 3 objects per leaf,
        and no root. */
    constructor (ti: real := 1.0, tt: real := 80.0, depth: int := 15, minObjs: nat := 3)
      ensures this.ti == ti && this.tt == tt && this.depth == depth && this.minObjs == minObjs
      ensures root.None?
    {
      this.ti := ti;
      this.tt := tt;
      this.depth := depth;
      this.minObjs := minObjs;
      root := None;
    }

    /** `buildTree`: refused, with nothing changed, when a root exists; otherwise a root
        node collects every object through `addObject` and is split. */
    method BuildTree(objs: seq<Obj>, hr: Heuristic) returns (ok: bool)
      modifies this
      ensures ok <==> old(root).None?
      ensures !ok ==> root == old(root)
      ensures ok ==> root == Some(Build(objs, depth, minObjs, Chooser(hr)))
      ensures ok ==> forall o :: InSomeLeaf(root.value, o) <==> o in objs
    {
      if root.Some? {
        return false;
      }
      var node := new Node();
      var k := 0;
      while k < |objs|
        invariant 0 <= k <= |objs|
        invariant node.objects == objs[..k]
      {
        node.AddObject(objs[k]);
        assert objs[..k + 1] == objs[..k] + [objs[k]];
        k := k + 1;
      }
      assert objs[..k] == objs;
      var t := SplitNode(node, depth, minObjs, hr, Chooser(hr));
      forall o
        ensures InSomeLeaf(t, o) <==> o in objs
      {
        Coverage(objs, depth, minObjs, Chooser(hr), o);
      }
      root := Some(t);
      return true;
    }

    /** `deleteTree`: afterwards there is no root, so the next build is accepted. */
    method DeleteTree()
      modifies this
      ensures root.None?
    {
      root := None;
    }

    /** `rayTreeTraversal`. The source dereferences the root unconditionally; here a tree
        that was never built finds nothing. */
    method RayTreeTraversal(m: Math, probe: Probe, r: Ray) returns (res: Option<Isect>)
      ensures root.None? ==> res.None?
      ensures root.Some? ==> res == Traverse(m, probe, r, root.value)
    {
      if root.None? {
        return None;
      }
      var tree := root.value;
      var span := probe.boxHit(tree.data.box, r);
      if span.None? {
        return None;
      }
      var stack := [Frame(tree, span.value.0, span.value.1)];
      while |stack| > 0
        invariant Run(m, probe, r, stack) == Traverse(m, probe, r, tree)
        decreases SumSizes(stack)
      {
        ghost var whole := stack;
        var current := stack[|stack| - 1];
        stack := stack[..|stack| - 1];
        var leaf;
        leaf, stack := DescendLoop(m, r, stack, current);
        var best := ScanLeaf(probe, r, leaf.data.objects);
        if best.Some? {
          return best;
        }
        DescendSize(m, r, current);
        SumSizesConcat(whole[..|whole| - 1], Descend(m, r, current).1);
        assert Run(m, probe, r, whole) == Run(m, probe, r, stack);
      }
      return None;
    }
  }

  /** The inner loop of `rayTreeTraversal`: from a popped frame down to a leaf, pushing far
      children on the stack. */
  method DescendLoop(m: Math, r: Ray, stack0: seq<Frame>, current: Frame) returns (leaf: Tree, stack: seq<Frame>)
    ensures leaf == Descend(m, r, current).0
    ensures stack == stack0 + Descend(m, r, current).1
  {
    stack := stack0;
    ghost var goal := Descend(m, r, current);
    var parent := current.node;
    var tMin := current.tMin;
    var tMax := current.tMax;
    while parent.Internal?
      invariant Descend(m, r, Frame(parent, tMin, tMax)).0 == goal.0
      invariant stack + Descend(m, r, Frame(parent, tMin, tMax)).1 == stack0 + goal.1
      decreases parent
    {
      ghost var f := Frame(parent, tMin, tMax);
      ghost var s := Step(m, r, f);
      var tPlane := TPlane(m, r, parent.axis, parent.dist);
      var near, far;
      if tPlane >= 0.0 {
        if r.dir.At(parent.axis) > 0.0 {
          near, far := parent.neg, parent.pos;
        } else {
          near, far := parent.pos, parent.neg;
        }
      } else {
        if r.dir.At(parent.axis) > 0.0 {
          near, far := parent.pos, parent.neg;
        } else {
          near, far := parent.neg, parent.pos;
        }
      }
      if tPlane >= tMax || tPlane <= 0.0 {
        parent := near;
      } else if tPlane <= tMin {
        parent := far;
      } else {
        stack := stack + [Frame(far, tPlane, tMax)];
        parent := near;
        tMax := tPlane;
      }
      assert Frame(parent, tMin, tMax) == s.0;
    }
    assert Descend(m, r, Frame(parent, tMin, tMax)) == (parent, []);
    leaf := parent;
  }

  lemma ScanLeafStep(probe: Probe, r: Ray, objs: seq<Obj>, k: int)
    requires 0 <= k < |objs|
    ensures var best, c := NearestHit(Candidates(probe, r, objs[..k])), Candidate(probe, r, objs[k]);
            NearestHit(Candidates(probe, r, objs[..k + 1])) ==
              if c.None? then best else if best.None? || c.value.t < best.value.t then c else best
  {
    CandidatesStep(probe, r, objs, k);
    NearestHitStep(Candidates(probe, r, objs[..k]), Candidate(probe, r, objs[k]));
  }

  /** The leaf loop of `rayTreeTraversal`: a candidate replaces the best so far only when
      its `t` is strictly smaller. */
  method ScanLeaf(probe: Probe, r: Ray, objs: seq<Obj>) returns (best: Option<Isect>)
    ensures best == LeafHit(probe, r, objs)
  {
    best := None;
    var k := 0;
    while k < |objs|
      invariant 0 <= k <= |objs|
      invariant best == NearestHit(Candidates(probe, r, objs[..k]))
    {
      var o := objs[k];
      var cur := probe.hit(o, r);
      ScanLeafStep(probe, r, objs, k);
      if cur.Some? && Contains(o.Bounds(), r.At(cur.value.t)) {
        if best.None? || best.value.t > cur.value.t {
          best := cur;
        }
      }
      k := k + 1;
    }
    assert objs[..k] == objs;
  }
}
