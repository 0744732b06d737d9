/** The stochastic and windowing helpers of the tracer: jitter, the rounded uniform draw,
    the in-place swap shuffle, the squared deviation, the neighbour window and the
    descriptor average. Every call to `rand()` is replaced by a draw in [0, 1] that the
    caller passes in. */
module Sampling {
  import opened Common
  import opened Vectors

  /** A traced sample kept for a pixel: the point hit and the view angle (`-1` when none). */
  datatype Descriptor = Descriptor(point: Vec3, viewAngle: real)

  /** The descriptor a default construction yields. */
  const NoDescriptor := Descriptor(Zero, -1.0)

  /** A draw `rand()/RAND_MAX`. */
  predicate Fraction(u: real)
  {
    0.0 <= u <= 1.0
  }

  /** `Jitter::operator()`: the first draw picks the sign (positive only above one half),
      the second scales `jitterMax`; the result never strays further than `|jitterMax|` from
      the base value. */
  function Jitter(jitterMax: real, baseVal: real, signDraw: real, sizeDraw: real): (r: real)
    requires Fraction(signDraw) && Fraction(sizeDraw)
    ensures baseVal - Abs(jitterMax) <= r <= baseVal + Abs(jitterMax)
    ensures jitterMax >= 0.0 ==> (signDraw > 0.5 <==> r >= baseVal) || r == baseVal
  {
    var sign := if signDraw > 0.5 then 1.0 else -1.0;
    JitterBound(jitterMax, sizeDraw);
    sizeDraw * jitterMax * sign + baseVal
  }

  function Abs(x: real): real { if x < 0.0 then -x else x }

  lemma JitterBound(jitterMax: real, u: real)
    requires Fraction(u)
    ensures -Abs(jitterMax) <= u * jitterMax <= Abs(jitterMax)
  {
    if jitterMax >= 0.0 {
      assert u * jitterMax <= 1.0 * jitterMax;
    } else {
      assert u * jitterMax >= 1.0 * jitterMax;
    }
  }

  /** `UFRand::operator()`: the draw scaled to `val` and rounded half up by the truncating
      conversion to `unsigned int`; the result is an integer in [0, val] within one half of
      the scaled draw. */
  function UFRand(val: nat, u: real): (r: nat)
    requires Fraction(u)
    ensures r <= val
    ensures r as real - 0.5 <= u * val as real < r as real + 0.5
  {
    assert u * val as real <= 1.0 * val as real;
    (u * val as real + 0.5).Floor
  }

  /** The swap indices of `fillRandomIdx` for a range of `size` elements: one draw per
      element, each rounded into [0, size - 1]. */
  function SwapIndices(draws: seq<real>, size: nat): (idx: seq<nat>)
    requires |draws| <= size
    requires forall k :: 0 <= k < |draws| ==> Fraction(draws[k])
    ensures |idx| == |draws|
    ensures forall k :: 0 <= k < |idx| ==> idx[k] < size
  {
    if |draws| == 0 then []
    else seq(|draws|, k requires 0 <= k < |draws| => UFRand(size - 1, draws[k]))
  }

  /** The sequence with the elements at i and j exchanged through a temporary. */
  function Swap<T>(s: seq<T>, i: nat, j: nat): (r: seq<T>)
    requires i < |s| && j < |s|
    ensures |r| == |s|
    ensures r[i] == s[j] && r[j] == s[i]
    ensures forall k :: 0 <= k < |s| && k != i && k != j ==> r[k] == s[k]
  {
    s[i := s[j]][j := s[i]]
  }

  /** Exchanging two elements keeps the same elements. */
  lemma SwapPermutes<T>(s: seq<T>, i: nat, j: nat)
    requires i < |s| && j < |s|
    ensures multiset(Swap(s, i, j)) == multiset(s)
  {
    var t := s[i := s[j]];
    assert multiset(t) == multiset(s) - multiset{s[i]} + multiset{s[j]};
    assert t[j] == s[j] || i == j;
    if i != j {
      assert multiset(Swap(s, i, j)) == multiset(t) - multiset{s[j]} + multiset{s[i]};
    }
  }

  /** The swaps of `fillRandomIdx` applied in order: step k exchanges `one[k]` and `two[k]`. */
  function Shuffle<T>(s: seq<T>, one: seq<nat>, two: seq<nat>): (r: seq<T>)
    requires |one| == |two|
    requires forall k :: 0 <= k < |one| ==> one[k] < |s| && two[k] < |s|
    ensures |r| == |s|
  {
    if |one| == 0 then s
    else Swap(Shuffle(s, one[..|one| - 1], two[..|two| - 1]), one[|one| - 1], two[|two| - 1])
  }

  /** However the indices fall, the shuffle is a permutation of its input. */
  lemma {:induction false} ShufflePermutes<T>(s: seq<T>, one: seq<nat>, two: seq<nat>)
    requires |one| == |two|
    requires forall k :: 0 <= k < |one| ==> one[k] < |s| && two[k] < |s|
    ensures multiset(Shuffle(s, one, two)) == multiset(s)
  {
    if |one| > 0 {
      var before := Shuffle(s, one[..|one| - 1], two[..|two| - 1]);
      ShufflePermutes(s, one[..|one| - 1], two[..|two| - 1]);
      SwapPermutes(before, one[|one| - 1], two[|two| - 1]);
    }
  }

  /** `fillRandomIdx`: draws one pair of indices per element, then walks the range swapping
      the elements at each pair in place. The array ends as the shuffle of its old contents,
      which holds the same elements. */
  method FillRandomIdx<T>(a: array<T>, drawsOne: seq<real>, drawsTwo: seq<real>)
    requires |drawsOne| == a.Length && |drawsTwo| == a.Length
    requires forall k :: 0 <= k < a.Length ==> Fraction(drawsOne[k]) && Fraction(drawsTwo[k])
    modifies a
    ensures a[..] == Shuffle(old(a[..]), SwapIndices(drawsOne, a.Length), SwapIndices(drawsTwo, a.Length))
    ensures multiset(a[..]) == multiset(old(a[..]))
  {
    var one := SwapIndices(drawsOne, a.Length);
    var two := SwapIndices(drawsTwo, a.Length);
    var k := 0;
    while k < a.Length
      invariant 0 <= k <= a.Length
      invariant a[..] == Shuffle(old(a[..]), one[..k], two[..k])
    {
      SwapAt(a, one[k], two[k]);
      ShuffleStep(old(a[..]), one, two, k);
      k := k + 1;
    }
    assert one[..k] == one && two[..k] == two;
    ShufflePermutes(old(a[..]), one, two);
  }

  /** One step of the swap walk: the three assignments through a temporary. */
  method SwapAt<T>(a: array<T>, i: nat, j: nat)
    requires i < a.Length && j < a.Length
    modifies a
    ensures a[..] == Swap(old(a[..]), i, j)
  {
    var temp := a[i];
    a[i] := a[j];
    a[j] := temp;
  }

  lemma ShuffleStep<T>(s: seq<T>, one: seq<nat>, two: seq<nat>, k: nat)
    requires |one| == |two| && k < |one|
    requires forall k :: 0 <= k < |one| ==> one[k] < |s| && two[k] < |s|
    ensures Shuffle(s, one[..k + 1], two[..k + 1]) == Swap(Shuffle(s, one[..k], two[..k]), one[k], two[k])
  {
    assert one[..k + 1][..k] == one[..k] && two[..k + 1][..k] == two[..k];
  }

  /** `ZeroMean::operator()`: the squared deviation from the mean, never negative and zero
      at the mean. */
  function ZeroMean(mean: real, val: real): (r: real)
    ensures r >= 0.0
    ensures val == mean ==> r == 0.0
  {
    var temp := val - mean;
    temp * temp
  }

  /** The first offset of a window of k cells about the centre: `-k/2` in C++ integer
      arithmetic. */
  function WindowLow(k: int): int
  {
    TruncDiv(-k, 2)
  }

  /** The last offset: `k/2`, one less when k is even. */
  function WindowHigh(k: int): int
  {
    TruncDiv(k, 2) - (if TruncMod(k, 2) == 0 then 1 else 0)
  }

  /** A window of k >= 1 cells spans exactly k offsets. */
  lemma WindowSpan(k: int)
    requires k >= 1
    ensures WindowHigh(k) - WindowLow(k) + 1 == k
  {
    if k % 2 == 0 {
      assert TruncDiv(k, 2) == k / 2 && TruncDiv(-k, 2) == -(k / 2);
    } else {
      assert TruncDiv(k, 2) == (k - 1) / 2 && TruncDiv(-k, 2) == -((k - 1) / 2);
    }
  }

  /** Offset (x, y) from the centre is kept: it is not the centre and lands inside a buffer of
      w by h cells. */
  predicate Kept(currY: int, currX: int, w: int, h: int, y: int, x: int)
  {
    !(currX + x < 0 || currY + y < 0 || (x == 0 && y == 0) || currX + x >= w || currY + y >= h)
  }

  /** The index `(ny * w + nx)` of a cell in a row-major buffer. */
  function CellIndex(currY: int, currX: int, w: int, y: int, x: int): int
  {
    (currY + y) * w + currX + x
  }

  /** The indices one row of the window emits, offsets `left .. right` in order. */
  function RowScan(currY: int, currX: int, w: int, h: int, y: int, left: int, right: int): seq<int>
    decreases right - left + 1
  {
    if right < left then []
    else RowScan(currY, currX, w, h, y, left, right - 1) +
         (if Kept(currY, currX, w, h, y, right) then [CellIndex(currY, currX, w, y, right)] else [])
  }

  /** The indices the whole window emits, rows `top .. bottom` in order. */
  function WindowScan(currY: int, currX: int, w: int, h: int, top: int, bottom: int, left: int, right: int): seq<int>
    decreases bottom - top + 1
  {
    if bottom < top then []
    else WindowScan(currY, currX, w, h, top, bottom - 1, left, right) + RowScan(currY, currX, w, h, bottom, left, right)
  }

  /** An index is emitted by a row exactly when some kept offset of that row yields it. */
  lemma {:induction false} RowScanMembers(currY: int, currX: int, w: int, h: int, y: int, left: int, right: int, idx: int)
    decreases right - left + 1
    ensures idx in RowScan(currY, currX, w, h, y, left, right) <==>
            exists x :: left <= x <= right && Kept(currY, currX, w, h, y, x) && idx == CellIndex(currY, currX, w, y, x)
  {
    if right >= left {
      RowScanMembers(currY, currX, w, h, y, left, right - 1, idx);
    }
  }

  /** An index is emitted by the window exactly when some kept offset yields it. */
  lemma {:induction false} WindowScanMembers(currY: int, currX: int, w: int, h: int, top: int, bottom: int, left: int, right: int, idx: int)
    decreases bottom - top + 1
    ensures idx in WindowScan(currY, currX, w, h, top, bottom, left, right) <==>
            exists y, x :: top <= y <= bottom && left <= x <= right && Kept(currY, currX, w, h, y, x) &&
                           idx == CellIndex(currY, currX, w, y, x)
  {
    if bottom >= top {
      WindowScanMembers(currY, currX, w, h, top, bottom - 1, left, right, idx);
      RowScanMembers(currY, currX, w, h, bottom, left, right, idx);
    }
  }

  /** A kept cell's index lies inside the buffer of w * h cells. */
  lemma CellInBuffer(currY: int, currX: int, w: int, h: int, y: int, x: int)
    requires Kept(currY, currX, w, h, y, x)
    ensures 0 <= CellIndex(currY, currX, w, y, x) < w * h
  {
    var ny, nx := currY + y, currX + x;
    assert ny * w >= 0;
    assert ny * w <= (h - 1) * w;
  }

  /** Every index the window emits addresses a cell of the buffer and, when the centre is a
      cell of the buffer itself, not the centre's. */
  lemma NeighboursInBuffer(currY: int, currX: int, w: int, h: int, top: int, bottom: int, left: int, right: int)
    ensures forall idx :: idx in WindowScan(currY, currX, w, h, top, bottom, left, right) ==>
              0 <= idx < w * h && (0 <= currX < w ==> idx != CellIndex(currY, currX, w, 0, 0))
  {
    forall idx | idx in WindowScan(currY, currX, w, h, top, bottom, left, right)
      ensures 0 <= idx < w * h && (0 <= currX < w ==> idx != CellIndex(currY, currX, w, 0, 0))
    {
      WindowScanMembers(currY, currX, w, h, top, bottom, left, right, idx);
      var y, x :| top <= y <= bottom && left <= x <= right && Kept(currY, currX, w, h, y, x) &&
                  idx == CellIndex(currY, currX, w, y, x);
      CellInBuffer(currY, currX, w, h, y, x);
      if 0 <= currX < w {
        DistinctCells(currY, currX, w, h, y, x);
      }
    }
  }

  /** Inside the buffer, a cell other than the centre has another index. */
  lemma DistinctCells(currY: int, currX: int, w: int, h: int, y: int, x: int)
    requires Kept(currY, currX, w, h, y, x) && 0 <= currX < w
    ensures CellIndex(currY, currX, w, y, x) != CellIndex(currY, currX, w, 0, 0)
  {
    var d := CellIndex(currY, currX, w, y, x) - CellIndex(currY, currX, w, 0, 0);
    assert d == y * w + x;
    if y == 0 {
      assert x != 0;
    } else if y > 0 {
      assert y * w >= w;
      assert x > -w;
    } else {
      assert y * w <= -w;
      assert x < w;
    }
  }

  /** `loadNeighbours`: the indices of the cells of a `knlWidth` by `knlHeight` window about
      `(currX, currY)`, row by row, skipping the centre and every cell outside the buffer. */
  method LoadNeighbours(currY: int, currX: int, knlWidth: int, knlHeight: int, srcWidth: int, srcHeight: int)
    returns (neighbours: seq<int>)
    ensures neighbours == WindowScan(currY, currX, srcWidth, srcHeight,
                                     WindowLow(knlHeight), WindowHigh(knlHeight), WindowLow(knlWidth), WindowHigh(knlWidth))
  {
    var top, bottom := WindowLow(knlHeight), WindowHigh(knlHeight);
    var left, right := WindowLow(knlWidth), WindowHigh(knlWidth);
    neighbours := [];
    var y := top;
    while y <= bottom
      invariant top <= y && (y <= bottom + 1 || y == top)
      invariant neighbours == WindowScan(currY, currX, srcWidth, srcHeight, top, y - 1, left, right)
      decreases bottom - y
    {
      var row := ScanRow(currY, currX, srcWidth, srcHeight, y, left, right);
      neighbours := neighbours + row;
      y := y + 1;
    }
  }

  /** The inner loop of `loadNeighbours`, over one row of the window. */
  method ScanRow(currY: int, currX: int, w: int, h: int, y: int, left: int, right: int) returns (row: seq<int>)
    ensures row == RowScan(currY, currX, w, h, y, left, right)
  {
    row := [];
    var x := left;
    while x <= right
      invariant left <= x && (x <= right + 1 || x == left)
      invariant row == RowScan(currY, currX, w, h, y, left, x - 1)
      decreases right - x
    {
      var neighbourY, neighbourX := currY + y, currX + x;
      if !(neighbourX < 0 || neighbourY < 0 || (x == 0 && y == 0) || neighbourX >= w || neighbourY >= h) {
        row := row + [neighbourY * w + neighbourX];
      }
      x := x + 1;
    }
  }

  /** The point accumulator after adding each descriptor's point in order. */
  function AccumulatePoints(acc: Vec3, s: seq<Descriptor>): Vec3
  {
    if |s| == 0 then acc else AccumulatePoints(acc, s[..|s| - 1]).Add(s[|s| - 1].point)
  }

  /** The angle accumulator after adding each descriptor's view angle in order. */
  function AccumulateAngles(acc: real, s: seq<Descriptor>): real
  {
    if |s| == 0 then acc else AccumulateAngles(acc, s[..|s| - 1]) + s[|s| - 1].viewAngle
  }

  /** The accumulators are not reset: the starting value is carried into the sums. */
  lemma {:induction false} AccumulatorsCarry(point: Vec3, angle: real, s: seq<Descriptor>)
    ensures AccumulatePoints(point, s) == point.Add(AccumulatePoints(Zero, s))
    ensures AccumulateAngles(angle, s) == angle + AccumulateAngles(0.0, s)
  {
    if |s| > 0 {
      AccumulatorsCarry(point, angle, s[..|s| - 1]);
    }
  }

  /** n copies of the same point add up to n times it. */
  lemma {:induction false} AccumulateSame(s: seq<Descriptor>, d: Descriptor)
    requires forall k :: 0 <= k < |s| ==> s[k] == d
    ensures AccumulatePoints(Zero, s) == d.point.Scale(|s| as real)
    ensures AccumulateAngles(0.0, s) == |s| as real * d.viewAngle
  {
    if |s| > 0 {
      AccumulateSame(s[..|s| - 1], d);
    }
  }

  /** `loadAvgVals`: adds every descriptor into the caller's accumulators, then divides both
      by the number of descriptors. */
  method LoadAvgVals(m: Math, descs: seq<Descriptor>, point: Vec3, viewAngle: real)
    returns (pointOut: Vec3, angleOut: real)
    ensures pointOut == AccumulatePoints(point, descs).Over(m, |descs| as real)
    ensures angleOut == m.div(AccumulateAngles(viewAngle, descs), |descs| as real)
  {
    pointOut, angleOut := point, viewAngle;
    var numSamples := 0;
    while numSamples < |descs|
      invariant 0 <= numSamples <= |descs|
      invariant pointOut == AccumulatePoints(point, descs[..numSamples])
      invariant angleOut == AccumulateAngles(viewAngle, descs[..numSamples])
    {
      assert descs[..numSamples + 1][..numSamples] == descs[..numSamples];
      pointOut := pointOut.Add(descs[numSamples].point);
      angleOut := angleOut + descs[numSamples].viewAngle;
      numSamples := numSamples + 1;
    }
    assert descs[..numSamples] == descs;
    pointOut := pointOut.Over(m, numSamples as real);
    angleOut := m.div(angleOut, numSamples as real);
  }

  /** Averaging n >= 1 identical descriptors into zeroed accumulators gives that descriptor
      back. */
  lemma AverageOfSame(m: Math, descs: seq<Descriptor>, d: Descriptor)
    requires Lawful(m) && |descs| >= 1
    requires forall k :: 0 <= k < |descs| ==> descs[k] == d
    ensures AccumulatePoints(Zero, descs).Over(m, |descs| as real) == d.point
    ensures m.div(AccumulateAngles(0.0, descs), |descs| as real) == d.viewAngle
  {
    AccumulateSame(descs, d);
    OverScaled(m, d.point, |descs| as real);
    DivScaled(m, |descs| as real, d.viewAngle);
  }

  lemma OverScaled(m: Math, p: Vec3, n: real)
    requires Lawful(m) && n != 0.0
    ensures p.Scale(n).Over(m, n) == p
  {
    DivScaled(m, n, p.x);
    DivScaled(m, n, p.y);
    DivScaled(m, n, p.z);
  }

  lemma DivScaled(m: Math, n: real, x: real)
    requires Lawful(m) && n != 0.0
    ensures m.div(n * x, n) == x
  {
    assert m.div(n * x, n) == n * x / n;
  }
}
