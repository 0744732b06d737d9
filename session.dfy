/** The tracer session (`RayTracer`, src/RayTracer.cpp): the pixel buffer and its setup,
    the sub-pixel sample grid with full and adaptive supersampling, the pixel write, and
    scene loading with the one-time KD rebuild. */
module Session {
  import opened Common
  import opened Vectors
  import opened Materials
  import opened TextureLoading
  import opened Rays
  import opened Settings
  import opened KdBuild
  import opened KdTrees
  import opened Sampling
  import opened Tracing

  /** The deviation below which adaptive sampling stops (`threshold`). */
  const Threshold: real := 0.001

  /** The random draws one pixel consumes: a sign and a size draw per jittered sample
      coordinate, and the two swap draws per sample of the adaptive shuffle. */
  datatype Draws = Draws(xJitter: seq<(real, real)>, yJitter: seq<(real, real)>, swapOne: seq<real>, swapTwo: seq<real>)

  predicate JitterDraws(d: seq<(real, real)>, n: int)
  {
    |d| == (if n > 0 then n else 0) && forall k :: 0 <= k < |d| ==> Fraction(d[k].0) && Fraction(d[k].1)
  }

  predicate DrawsFit(d: Draws, samples: int)
  {
    JitterDraws(d.xJitter, samples) && JitterDraws(d.yJitter, samples) &&
    (samples >= 2 ==> |d.swapOne| == samples * samples && |d.swapTwo| == samples * samples &&
                      forall k :: 0 <= k < samples * samples ==> Fraction(d.swapOne[k]) && Fraction(d.swapTwo[k]))
  }

  /** The spacing of the sub-pixel grid, `0.5 / (samples / 2)` with an integer quotient. */
  function Resample(m: Math, samples: int): (step: real)
    ensures Lawful(m) && samples >= 2 ==> 0.0 < step <= 0.5
  {
    var h := TruncDiv(samples, 2);
    HalfOver(h as real);
    m.div(0.5, h as real)
  }

  lemma HalfOver(h: real)
    ensures h >= 1.0 ==> 0.0 < 0.5 / h <= 0.5
  {
    if h >= 1.0 {
      assert 0.5 / h * h == 0.5;
    }
  }

  /** The coordinates of one axis of the grid: `min + t * resample` for t from samples - 1
      down to 0. */
  function Offsets(min: real, samples: int, resample: real): (r: seq<real>)
    ensures |r| == if samples > 0 then samples else 0
  {
    seq(if samples > 0 then samples else 0, k => min + (samples - 1 - k) as real * resample)
  }

  /** The loop that fills `x_list` or `y_list`. */
  method SampleList(min: real, samples: int, resample: real) returns (list: seq<real>)
    ensures list == Offsets(min, samples, resample)
  {
    list := [];
    var t := samples - 1;
    while t >= 0
      invariant t <= samples - 1 && (t >= -1 || t == samples - 1)
      invariant |list| == samples - 1 - t
      invariant forall k :: 0 <= k < |list| ==> list[k] == min + (samples - 1 - k) as real * resample
    {
      list := list + [min + t as real * resample];
      t := t - 1;
    }
    assert forall k :: 0 <= k < |list| ==> list[k] == Offsets(min, samples, resample)[k];
  }

  /** With at least two samples per axis the grid stays within one unit above `min`, that is
      inside the half-unit neighbourhood of the pixel centre `min + 0.5`. */
  lemma OffsetsWithinPixel(m: Math, min: real, samples: int)
    requires Lawful(m) && samples >= 2
    ensures var list := Offsets(min, samples, Resample(m, samples));
            forall k :: 0 <= k < |list| ==> min <= list[k] <= min + 1.0
  {
    var h := TruncDiv(samples, 2);
    var step := Resample(m, samples);
    ResampleStep(m, samples);
    forall k | 0 <= k < samples
      ensures min <= Offsets(min, samples, step)[k] <= min + 1.0
    {
      GridStepBound(samples - 1 - k, h, step);
    }
  }

  /** The grid spacing is 0.5 / h with h = samples / 2 >= 1 and samples - 1 <= 2h. */
  lemma ResampleStep(m: Math, samples: int)
    requires Lawful(m) && samples >= 2
    ensures var h := TruncDiv(samples, 2);
            h >= 1 && samples - 1 <= 2 * h && Resample(m, samples) * h as real == 0.5
  {
    var h := TruncDiv(samples, 2);
    assert h == samples / 2;
    assert Resample(m, samples) == 0.5 / h as real;
  }

  /** t steps of 0.5 / h, with t at most 2h, span at most one unit. */
  lemma GridStepBound(t: int, h: int, step: real)
    requires 0 <= t <= 2 * h && h >= 1 && step * h as real == 0.5
    ensures 0.0 <= t as real * step <= 1.0
  {
    assert step > 0.0;
    assert t as real * step <= (2 * h) as real * step;
  }

  /** The jitter applied to a whole list, two draws per entry. */
  function Jittered(list: seq<real>, resample: real, draws: seq<(real, real)>): (r: seq<real>)
    requires |draws| == |list| && forall k :: 0 <= k < |draws| ==> Fraction(draws[k].0) && Fraction(draws[k].1)
    ensures |r| == |list|
    ensures forall k :: 0 <= k < |r| ==> list[k] - Abs(resample) <= r[k] <= list[k] + Abs(resample)
  {
    seq(|list|, k requires 0 <= k < |list| => Jitter(resample, list[k], draws[k].0, draws[k].1))
  }

  /** The coordinates of one axis, jittered when the settings ask for it. */
  function AxisSamples(m: Math, cfg: Config, min: real, draws: seq<(real, real)>): (r: seq<real>)
    requires JitterDraws(draws, cfg.sampleSize)
    ensures |r| == |draws|
  {
    var list := Offsets(min, cfg.sampleSize, Resample(m, cfg.sampleSize));
    if cfg.jitter then Jittered(list, Resample(m, cfg.sampleSize), draws) else list
  }

  /** The colour traced at a grid point, in normalised window coordinates. */
  function Sample(m: Math, trace: (real, real) -> Vec3, x: real, y: real, w: int, h: int): Vec3
  {
    trace(m.div(x, w as real), m.div(y, h as real))
  }

  /** The colours of one column of the grid, added in order. */
  function ColumnSum(m: Math, trace: (real, real) -> Vec3, x: real, ys: seq<real>, w: int, h: int): Vec3
  {
    if |ys| == 0 then Zero
    else ColumnSum(m, trace, x, ys[..|ys| - 1], w, h).Add(Sample(m, trace, x, ys[|ys| - 1], w, h))
  }

  /** The colours of the whole grid, x outer and y inner. */
  function GridSum(m: Math, trace: (real, real) -> Vec3, xs: seq<real>, ys: seq<real>, w: int, h: int): Vec3
  {
    if |xs| == 0 then Zero
    else GridSum(m, trace, xs[..|xs| - 1], ys, w, h).Add(ColumnSum(m, trace, xs[|xs| - 1], ys, w, h))
  }

  /** Full supersampling: every grid point traced, the sum divided by samples^2. */
  method Supersample(m: Math, trace: (real, real) -> Vec3, xs: seq<real>, ys: seq<real>, w: int, h: int, samples: int)
    returns (col: Vec3)
    ensures col == GridSum(m, trace, xs, ys, w, h).Over(m, (samples * samples) as real)
  {
    col := Zero;
    var a := 0;
    while a < |xs|
      invariant 0 <= a <= |xs|
      invariant col == GridSum(m, trace, xs[..a], ys, w, h)
    {
      assert xs[..a + 1][..a] == xs[..a];
      col := AddColumn(m, trace, col, xs[a], ys, w, h);
      a := a + 1;
    }
    assert xs[..a] == xs;
    col := col.Over(m, (samples * samples) as real);
  }

  /** The inner loop of full supersampling, over one column. */
  method AddColumn(m: Math, trace: (real, real) -> Vec3, col0: Vec3, x: real, ys: seq<real>, w: int, h: int)
    returns (col: Vec3)
    ensures col == col0.Add(ColumnSum(m, trace, x, ys, w, h))
  {
    col := col0;
    var b := 0;
    while b < |ys|
      invariant 0 <= b <= |ys|
      invariant col == col0.Add(ColumnSum(m, trace, x, ys[..b], w, h))
    {
      assert ys[..b + 1][..b] == ys[..b];
      AddAssociates(col0, ColumnSum(m, trace, x, ys[..b], w, h), Sample(m, trace, x, ys[b], w, h));
      col := col.Add(Sample(m, trace, x, ys[b], w, h));
      b := b + 1;
    }
    assert ys[..b] == ys;
  }

  /** A column of one colour adds up to that colour times its length. */
  lemma {:induction false} UniformColumn(m: Math, trace: (real, real) -> Vec3, c: Vec3, x: real, ys: seq<real>, w: int, h: int)
    requires forall u, v :: trace(u, v) == c
    ensures ColumnSum(m, trace, x, ys, w, h) == c.Scale(|ys| as real)
  {
    if |ys| > 0 {
      UniformColumn(m, trace, c, x, ys[..|ys| - 1], w, h);
      ScalesAdd(c, (|ys| - 1) as real, 1.0);
    }
  }

  /** A grid of one colour adds up to that colour times the number of grid points. */
  lemma {:induction false} UniformGrid(m: Math, trace: (real, real) -> Vec3, c: Vec3, xs: seq<real>, ys: seq<real>, w: int, h: int)
    requires forall u, v :: trace(u, v) == c
    ensures GridSum(m, trace, xs, ys, w, h) == c.Scale((|xs| * |ys|) as real)
  {
    if |xs| > 0 {
      UniformGrid(m, trace, c, xs[..|xs| - 1], ys, w, h);
      UniformColumn(m, trace, c, xs[|xs| - 1], ys, w, h);
      var n := |xs| - 1;
      assert (n * |ys|) as real + |ys| as real == (|xs| * |ys|) as real;
      ScalesAdd(c, (n * |ys|) as real, |ys| as real);
    }
  }

  lemma ScalesAdd(c: Vec3, a: real, b: real)
    ensures c.Scale(a).Add(c.Scale(b)) == c.Scale(a + b)
  {
  }

  /** Supersampling a region of one colour gives that colour back. */
  lemma SupersampleUniform(m: Math, trace: (real, real) -> Vec3, c: Vec3, xs: seq<real>, ys: seq<real>, w: int, h: int, samples: int)
    requires Lawful(m) && samples >= 1 && |xs| == samples && |ys| == samples
    requires forall u, v :: trace(u, v) == c
    ensures GridSum(m, trace, xs, ys, w, h).Over(m, (samples * samples) as real) == c
  {
    UniformGrid(m, trace, c, xs, ys, w, h);
    var n := (samples * samples) as real;
    assert n > 0.0;
    OverScaled(m, c, n);
  }

  /** The grid points of adaptive sampling, x outer and y inner. */
  function Pairs(xs: seq<real>, ys: seq<real>): (r: seq<(real, real)>)
    ensures |r| == |xs| * |ys|
  {
    if |xs| == 0 then []
    else Pairs(xs[..|xs| - 1], ys) + seq(|ys|, b requires 0 <= b < |ys| => (xs[|xs| - 1], ys[b]))
  }

  /** Point a * |ys| + b of the list pairs the a-th x with the b-th y. */
  lemma {:induction false} PairsAt(xs: seq<real>, ys: seq<real>, a: int, b: int)
    requires 0 <= a < |xs| && 0 <= b < |ys|
    ensures 0 <= a * |ys| + b < |Pairs(xs, ys)|
    ensures Pairs(xs, ys)[a * |ys| + b] == (xs[a], ys[b])
  {
    var n := |xs| - 1;
    assert a * |ys| + b < (a + 1) * |ys| <= |xs| * |ys|;
    if a < n {
      PairsAt(xs[..n], ys, a, b);
    } else {
      assert |Pairs(xs[..n], ys)| == n * |ys|;
    }
  }

  /** The nested loop that fills `sample_list`. */
  method BuildPairs(xs: seq<real>, ys: seq<real>) returns (pairs: seq<(real, real)>)
    ensures pairs == Pairs(xs, ys)
  {
    pairs := [];
    var a := 0;
    while a < |xs|
      invariant 0 <= a <= |xs|
      invariant pairs == Pairs(xs[..a], ys)
    {
      assert xs[..a + 1][..a] == xs[..a];
      var b := 0;
      ghost var before := pairs;
      while b < |ys|
        invariant 0 <= b <= |ys|
        invariant pairs == before + seq(b, k requires 0 <= k < b => (xs[a], ys[k]))
      {
        pairs := pairs + [(xs[a], ys[b])];
        b := b + 1;
      }
      a := a + 1;
    }
    assert xs[..a] == xs;
  }

  /** The brightness of a sample: the mean of its channels. */
  function Brightness(c: Vec3): real
  {
    (c.x + c.y + c.z) / 3.0
  }

  function SumReals(s: seq<real>): real
  {
    if |s| == 0 then 0.0 else SumReals(s[..|s| - 1]) + s[|s| - 1]
  }

  /** The colours traced at a list of points, added in order. */
  function ColourSum(m: Math, trace: (real, real) -> Vec3, pts: seq<(real, real)>, w: int, h: int): Vec3
  {
    if |pts| == 0 then Zero
    else ColourSum(m, trace, pts[..|pts| - 1], w, h).Add(Sample(m, trace, pts[|pts| - 1].0, pts[|pts| - 1].1, w, h))
  }

  /** The brightnesses of the colours traced at a list of points (`sIntensity`). */
  function Intensities(m: Math, trace: (real, real) -> Vec3, pts: seq<(real, real)>, w: int, h: int): (r: seq<real>)
    ensures |r| == |pts|
  {
    if |pts| == 0 then []
    else Intensities(m, trace, pts[..|pts| - 1], w, h) + [Brightness(Sample(m, trace, pts[|pts| - 1].0, pts[|pts| - 1].1, w, h))]
  }

  /** The squared deviations of the brightnesses from a mean, added in order (the
      transform by `ZeroMean` followed by `accumulate`). */
  function SquaredDeviations(mean: real, s: seq<real>): (r: real)
    ensures r >= 0.0
  {
    if |s| == 0 then 0.0 else SquaredDeviations(mean, s[..|s| - 1]) + ZeroMean(mean, s[|s| - 1])
  }

  /** The sample standard deviation of the brightnesses so far: the root of the sum of
      squared deviations from their mean, over n - 1. */
  function Deviation(m: Math, s: seq<real>): real
  {
    var mean := m.div(SumReals(s), |s| as real);
    m.sqrt(m.div(SquaredDeviations(mean, s), (|s| - 1) as real))
  }

  /** Adaptive sampling stops after the n-th sample: the test runs from the fourth sample on,
      and passes when the deviation is below the threshold. */
  predicate StopsAt(m: Math, trace: (real, real) -> Vec3, pts: seq<(real, real)>, w: int, h: int, n: int, threshold: real)
    requires 0 <= n <= |pts|
  {
    n >= 4 && Deviation(m, Intensities(m, trace, pts[..n], w, h)) < threshold
  }

  /** The deviation test's arithmetic: the mean from the running sum, the squared
      deviations added up, divided by n - 1, and the root taken. */
  method DeviationOf(m: Math, intensities: seq<real>, intensitySum: real) returns (deviation: real)
    requires intensitySum == SumReals(intensities)
    ensures deviation == Deviation(m, intensities)
  {
    var mean := m.div(intensitySum, |intensities| as real);
    var sum := SquaredDeviations(mean, intensities);
    var tempx := m.div(sum, (|intensities| - 1) as real);
    deviation := m.sqrt(tempx);
  }

  lemma {:induction false} SumUniform(s: seq<real>, b: real)
    requires forall k :: 0 <= k < |s| ==> s[k] == b
    ensures SumReals(s) == |s| as real * b
  {
    if |s| > 0 {
      SumUniform(s[..|s| - 1], b);
    }
  }

  lemma {:induction false} NoDeviationsAtMean(s: seq<real>, b: real)
    requires forall k :: 0 <= k < |s| ==> s[k] == b
    ensures SquaredDeviations(b, s) == 0.0
  {
    if |s| > 0 {
      NoDeviationsAtMean(s[..|s| - 1], b);
    }
  }

  /** Two or more equal brightnesses have mean equal to that brightness and no deviation. */
  lemma UniformDeviation(m: Math, s: seq<real>, b: real)
    requires Lawful(m) && |s| >= 2
    requires forall k :: 0 <= k < |s| ==> s[k] == b
    ensures Deviation(m, s) == 0.0
  {
    SumUniform(s, b);
    assert m.div(SumReals(s), |s| as real) == b;
    NoDeviationsAtMean(s, b);
  }

  lemma {:induction false} IntensitiesAt(m: Math, trace: (real, real) -> Vec3, pts: seq<(real, real)>, w: int, h: int, k: int)
    requires 0 <= k < |pts|
    ensures Intensities(m, trace, pts, w, h)[k] == Brightness(Sample(m, trace, pts[k].0, pts[k].1, w, h))
  {
    if k < |pts| - 1 {
      IntensitiesAt(m, trace, pts[..|pts| - 1], w, h, k);
    }
  }

  /** A region whose samples all have the same brightness passes the deviation test the
      first time it runs, after the fourth sample, for any positive threshold. */
  lemma EvenRegionStopsAtFourth(m: Math, trace: (real, real) -> Vec3, pts: seq<(real, real)>, w: int, h: int,
                                b: real, threshold: real)
    requires Lawful(m) && threshold > 0.0 && |pts| >= 4
    requires forall k :: 0 <= k < |pts| ==> Brightness(Sample(m, trace, pts[k].0, pts[k].1, w, h)) == b
    ensures StopsAt(m, trace, pts, w, h, 4, threshold)
  {
    var s := Intensities(m, trace, pts[..4], w, h);
    forall k | 0 <= k < |s|
      ensures s[k] == b
    {
      IntensitiesAt(m, trace, pts[..4], w, h, k);
      assert pts[..4][k] == pts[k];
    }
    UniformDeviation(m, s, b);
  }

  /** One sample of the adaptive loop: the point traced, its colour added to the running
      sum, and its brightness appended to the list and added to the brightness sum. */
  method TakeSample(m: Math, trace: (real, real) -> Vec3, pts: seq<(real, real)>, w: int, h: int, used: nat,
                    col0: Vec3, intensities0: seq<real>, intensitySum0: real)
    returns (col: Vec3, intensities: seq<real>, intensitySum: real)
    requires used < |pts|
    requires intensities0 == Intensities(m, trace, pts[..used], w, h)
    requires intensitySum0 == SumReals(intensities0)
    requires col0 == ColourSum(m, trace, pts[..used], w, h)
    ensures intensities == Intensities(m, trace, pts[..used + 1], w, h)
    ensures intensitySum == SumReals(intensities)
    ensures col == ColourSum(m, trace, pts[..used + 1], w, h)
  {
    var temp := Sample(m, trace, pts[used].0, pts[used].1, w, h);
    var avg := Brightness(temp);
    assert pts[..used + 1][..used] == pts[..used];
    assert (intensities0 + [avg])[..used] == intensities0;
    intensities := intensities0 + [avg];
    col := col0.Add(temp);
    intensitySum := intensitySum0 + avg;
  }

  /** The test after a sample: from the fourth sample on (`min_samples` counts down from
      two), whether the deviation is below the threshold. */
  method StopTest(m: Math, trace: (real, real) -> Vec3, pts: seq<(real, real)>, w: int, h: int, used: nat,
                  minSamples: int, intensities: seq<real>, intensitySum: real, threshold: real)
    returns (stop: bool)
    requires used <= |pts| && minSamples == 3 - used
    requires intensities == Intensities(m, trace, pts[..used], w, h)
    requires intensitySum == SumReals(intensities)
    ensures stop == StopsAt(m, trace, pts, w, h, used, threshold)
  {
    stop := false;
    if minSamples <= -1 {
      var deviation := DeviationOf(m, intensities, intensitySum);
      stop := deviation < threshold;
    }
  }

  /** The adaptive loop. It traces the points in order, keeping the colour sum, the
      brightness list and its sum, and stops at the first sample after which the deviation
      test passes. */
  method AdaptiveLoop(m: Math, trace: (real, real) -> Vec3, pts: seq<(real, real)>, w: int, h: int, threshold: real)
    returns (sum: Vec3, used: nat)
    ensures used <= |pts| && (|pts| > 0 ==> used >= 1)
    ensures used < |pts| ==> StopsAt(m, trace, pts, w, h, used, threshold)
    ensures forall n :: 0 <= n < used ==> !StopsAt(m, trace, pts, w, h, n, threshold)
    ensures sum == ColourSum(m, trace, pts[..used], w, h)
  {
    var minSamples := 2;
    var intensitySum := 0.0;
    var intensities: seq<real> := [];
    sum := Zero;
    used := 0;
    while used < |pts|
      invariant used <= |pts|
      invariant minSamples == 2 - used
      invariant intensities == Intensities(m, trace, pts[..used], w, h)
      invariant intensitySum == SumReals(intensities)
      invariant sum == ColourSum(m, trace, pts[..used], w, h)
      invariant NoStopBefore(m, trace, pts, w, h, used, threshold) && !StopsAt(m, trace, pts, w, h, used, threshold)
    {
      sum, intensities, intensitySum := TakeSample(m, trace, pts, w, h, used, sum, intensities, intensitySum);
      used := used + 1;
      var stop := StopTest(m, trace, pts, w, h, used, minSamples, intensities, intensitySum, threshold);
      if stop {
        break;
      }
      minSamples := minSamples - 1;
    }
    NoStopBeforeAll(m, trace, pts, w, h, used, threshold);
  }

  /** No sample before the k-th passed the test. */
  ghost predicate NoStopBefore(m: Math, trace: (real, real) -> Vec3, pts: seq<(real, real)>, w: int, h: int, k: int, threshold: real)
    requires 0 <= k <= |pts|
  {
    k == 0 || (NoStopBefore(m, trace, pts, w, h, k - 1, threshold) && !StopsAt(m, trace, pts, w, h, k - 1, threshold))
  }

  lemma {:induction false} NoStopBeforeAll(m: Math, trace: (real, real) -> Vec3, pts: seq<(real, real)>, w: int, h: int, k: int, threshold: real)
    requires 0 <= k <= |pts| && NoStopBefore(m, trace, pts, w, h, k, threshold)
    ensures forall n :: 0 <= n < k ==> !StopsAt(m, trace, pts, w, h, n, threshold)
  {
    if k > 0 {
      NoStopBeforeAll(m, trace, pts, w, h, k - 1, threshold);
    }
  }

  /** Adaptive supersampling: the loop above, then the colour sum divided by the number of
      samples used. At least four samples are taken unless there are fewer points. */
  method AdaptiveSample(m: Math, trace: (real, real) -> Vec3, pts: seq<(real, real)>, w: int, h: int, threshold: real)
    returns (col: Vec3, used: nat)
    ensures used <= |pts| && (|pts| > 0 ==> used >= 1)
    ensures used < 4 ==> used == |pts|
    ensures used < |pts| ==> StopsAt(m, trace, pts, w, h, used, threshold)
    ensures forall n :: 0 <= n < used ==> !StopsAt(m, trace, pts, w, h, n, threshold)
    ensures col == ColourSum(m, trace, pts[..used], w, h).Over(m, used as real)
  {
    var sum;
    sum, used := AdaptiveLoop(m, trace, pts, w, h, threshold);
    col := sum.Over(m, used as real);
  }

  /** Points all traced to one colour add up to that colour times their number. */
  lemma {:induction false} UniformColourSum(m: Math, trace: (real, real) -> Vec3, c: Vec3, pts: seq<(real, real)>, w: int, h: int)
    requires forall u, v :: trace(u, v) == c
    ensures ColourSum(m, trace, pts, w, h) == c.Scale(|pts| as real)
  {
    if |pts| > 0 {
      UniformColourSum(m, trace, c, pts[..|pts| - 1], w, h);
      ScalesAdd(c, (|pts| - 1) as real, 1.0);
    }
  }

  /** Adaptive sampling of a region of one colour gives that colour back, however many
      samples the deviation test lets it take. */
  lemma AdaptiveUniform(m: Math, trace: (real, real) -> Vec3, c: Vec3, pts: seq<(real, real)>, w: int, h: int, used: nat)
    requires Lawful(m) && 1 <= used <= |pts|
    requires forall u, v :: trace(u, v) == c
    ensures ColourSum(m, trace, pts[..used], w, h).Over(m, used as real) == c
  {
    UniformColourSum(m, trace, c, pts[..used], w, h);
    OverScaled(m, c, used as real);
  }

  /** A supersampled colour and how many samples it took. */
  datatype AntiAliased = AntiAliased(col: Vec3, used: nat)

  /** The anti-aliasing part of `tracePixel`: one centre trace at sample size <= 1;
      otherwise the sample grid, jittered when asked, is either traced in full or shuffled
      and traced adaptively. */
  method AntiAlias(m: Math, cfg: Config, trace: (real, real) -> Vec3, d: Draws, i: int, j: int, w: int, h: int)
    returns (res: AntiAliased)
    requires DrawsFit(d, cfg.sampleSize)
    ensures cfg.sampleSize <= 1 ==> res.col == Sample(m, trace, i as real, j as real, w, h)
    ensures cfg.sampleSize > 1 && !cfg.adaptive ==>
              res.col == GridSum(m, trace, AxisSamples(m, cfg, i as real - 0.5, d.xJitter),
                                 AxisSamples(m, cfg, j as real - 0.5, d.yJitter), w, h)
                           .Over(m, (cfg.sampleSize * cfg.sampleSize) as real)
    ensures cfg.sampleSize > 1 && cfg.adaptive ==> 1 <= res.used <= cfg.sampleSize * cfg.sampleSize
  {
    var samples := cfg.sampleSize;
    var x := m.div(i as real, w as real);
    var y := m.div(j as real, h as real);
    var minX := i as real - 0.5;
    var minY := j as real - 0.5;
    var resample := Resample(m, samples);
    if samples <= 1 {
      res := AntiAliased(trace(x, y), 1);
    } else {
      var xs := SampleList(minX, samples, resample);
      var ys := SampleList(minY, samples, resample);
      if cfg.jitter {
        xs := Jittered(xs, resample, d.xJitter);
        ys := Jittered(ys, resample, d.yJitter);
      }
      if !cfg.adaptive {
        var col := Supersample(m, trace, xs, ys, w, h, samples);
        res := AntiAliased(col, samples * samples);
      } else {
        var pts := BuildPairs(xs, ys);
        var shuffled := new (real, real)[|pts|](k requires 0 <= k < |pts| => pts[k]);
        FillRandomIdx(shuffled, d.swapOne, d.swapTwo);
        var col, used := AdaptiveSample(m, trace, shuffled[..], w, h, Threshold);
        res := AntiAliased(col, used);
      }
    }
  }

  /** C++ conversion of an int to `unsigned char`: reduction modulo 256. */
  function ToByte(v: int): (b: byte)
    ensures (v - b as int) % 256 == 0
    ensures 0 <= v < 256 ==> b as int == v
  {
    (v % 256) as byte
  }

  /** The bytes written for a colour: each channel times 255, truncated. */
  function PixelBytes(c: Vec3): (byte, byte, byte)
  {
    (ToByte(Trunc(255.0 * c.x)), ToByte(Trunc(255.0 * c.y)), ToByte(Trunc(255.0 * c.z)))
  }

  /** For a channel in [0, 1] the conversion does not wrap: the byte is the truncated
      product, from 0 for black to 255 for full intensity. */
  lemma ChannelByte(v: real)
    requires 0.0 <= v <= 1.0
    ensures 0 <= Trunc(255.0 * v) <= 255
    ensures ToByte(Trunc(255.0 * v)) as int == Trunc(255.0 * v)
    ensures v == 0.0 ==> Trunc(255.0 * v) == 0
    ensures v == 1.0 ==> Trunc(255.0 * v) == 255
  {
    assert 0.0 <= 255.0 * v <= 255.0;
  }

  /** A clamped colour is written without wrap-around in any channel. */
  lemma PixelBytesExact(c: Vec3)
    requires c.InUnit()
    ensures PixelBytes(c).0 as int == Trunc(255.0 * c.x)
    ensures PixelBytes(c).1 as int == Trunc(255.0 * c.y)
    ensures PixelBytes(c).2 as int == Trunc(255.0 * c.z)
  {
    ChannelByte(c.x);
    ChannelByte(c.y);
    ChannelByte(c.z);
  }

  /** The colour a pixel gets: the scene traced through the tree at the pixel's
      normalised window coordinates, clamped to the unit range. */
  function PixelColour(m: Math, cfg: Config, s: Scene, root: Option<Tree>, cube: Option<Ray -> Vec3>,
                       i: int, j: int, w: int, h: int): (c: Vec3)
    requires ValidScene(s)
    ensures c.InUnit()
  {
    TreeQueryShadeable(m, s.probe, root);
    Trace(m, cfg, s, TreeQuery(m, s.probe, root), cube, m.div(i as real, w as real), m.div(j as real, h as real))
  }

  /** A byte buffer with the three bytes at an offset replaced by a pixel's, when they lie
      inside it. */
  function Painted(buf: seq<byte>, off: int, px: (byte, byte, byte)): (r: seq<byte>)
    ensures |r| == |buf|
    ensures 0 <= off && off + 2 < |buf| ==> r[off] == px.0 && r[off + 1] == px.1 && r[off + 2] == px.2
    ensures forall k :: 0 <= k < |buf| && !(off <= k <= off + 2) ==> r[k] == buf[k]
  {
    if 0 <= off && off + 2 < |buf| then buf[off := px.0][off + 1 := px.1][off + 2 := px.2] else buf
  }

  /** The three stores of a pixel's bytes. */
  method WritePixel(buf: array<byte>, off: int, px: (byte, byte, byte))
    requires 0 <= off && off + 2 < buf.Length
    modifies buf
    ensures buf[..] == Painted(old(buf[..]), off, px)
  {
    buf[off] := px.0;
    buf[off + 1] := px.1;
    buf[off + 2] := px.2;
  }

  /** Whether a character separates directories in a path ('/' or '\\'). */
  predicate Separator(c: char)
  {
    c == '/' || c == '\\'
  }

  /** The position of the last separator of a path, -1 when there is none
      (`find_last_of("\\/")`). */
  function LastSeparator(s: string): (r: int)
    ensures -1 <= r < |s|
    ensures r >= 0 ==> Separator(s[r])
    ensures forall k :: r < k < |s| ==> !Separator(s[k])
  {
    if |s| == 0 then -1
    else if Separator(s[|s| - 1]) then |s| - 1
    else LastSeparator(s[..|s| - 1])
  }

  /** The directory the parser resolves relative names against: the path up to its last
      separator, or "." when it has none. */
  function SceneDirectory(fn: string): (dir: string)
    ensures (forall k :: 0 <= k < |fn| ==> !Separator(fn[k])) ==> dir == "."
    ensures (exists k :: 0 <= k < |fn| && Separator(fn[k])) ==>
              |dir| < |fn| && dir == fn[..|dir|] && Separator(fn[|dir|]) &&
              forall k :: |dir| < k < |fn| ==> !Separator(fn[k])
  {
    var last := LastSeparator(fn);
    if last < 0 then "." else fn[..last]
  }

  /** The tracer: the loaded scene, the pixel buffer with its size, the per-pixel
      descriptor lists with their cursor, and the KD tree it owns. */
  class RayTracer {
    var scene: Option<Scene>
    var buffer: array?<byte>
    var bufferWidth: int
    var bufferHeight: int
    var bufferSize: int
    var ready: bool
    var descriptors: seq<seq<Descriptor>>
    var cursor: int
    const kdTree: KdTree

    /** An allocated buffer holds three bytes per pixel of the recorded size. */
    ghost predicate Valid()
      reads this, buffer
    {
      buffer != null ==> bufferSize == bufferWidth * bufferHeight * 3 && buffer.Length == bufferSize
    }

    /** No scene, no buffer, a 256 by 256 size, not ready, and an empty tree. */
    constructor ()
      ensures Valid()
      ensures scene.None? && buffer == null && bufferWidth == 256 && bufferHeight == 256 && !ready
      ensures descriptors == [] && fresh(kdTree) && kdTree.root.None?
    {
      scene := None;
      buffer := null;
      bufferWidth := 256;
      bufferHeight := 256;
      bufferSize := 0;
      ready := false;
      descriptors := [];
      cursor := 0;
      kdTree := new KdTree();
    }

    /** `descriptor_setup`: one empty descriptor list per pixel, the cursor at the first. */
    method DescriptorSetup(w: int, h: int)
      requires w * h >= 0
      modifies this
      ensures descriptors == seq(w * h, _ => []) && cursor == 0
      ensures scene == old(scene) && buffer == old(buffer) && bufferWidth == old(bufferWidth)
      ensures bufferHeight == old(bufferHeight) && bufferSize == old(bufferSize) && ready == old(ready)
    {
      descriptors := seq(w * h, _ => []);
      cursor := 0;
    }

    /** `traceSetup`: a buffer of w * h * 3 zero bytes, reallocated only when the size
        changed or none was allocated; the descriptor lists reset; ready. */
    method TraceSetup(w: int, h: int)
      requires Valid() && w >= 0 && h >= 0
      modifies this, buffer
      ensures Valid()
      ensures buffer != null && buffer.Length == w * h * 3
      ensures forall k :: 0 <= k < buffer.Length ==> buffer[k] == 0
      ensures bufferWidth == w && bufferHeight == h && ready
      ensures old(bufferWidth) == w && old(bufferHeight) == h && old(buffer) != null ==> buffer == old(buffer)
      ensures !(old(bufferWidth) == w && old(bufferHeight) == h && old(buffer) != null) ==> fresh(buffer)
      ensures descriptors == seq(w * h, _ => []) && cursor == 0
      ensures scene == old(scene)
    {
      if bufferWidth != w || bufferHeight != h || buffer == null {
        bufferWidth := w;
        bufferHeight := h;
        MulNonNegativeInt(w, h);
        MulNonNegativeInt(w * h, 3);
        bufferSize := bufferWidth * bufferHeight * 3;
        buffer := new byte[bufferSize];
      }
      var buf := buffer;
      forall k | 0 <= k < buf.Length {
        buf[k] := 0;
      }
      MulNonNegativeInt(w, h);
      DescriptorSetup(w, h);
      ready := true;
    }

    /** `getBuffer`: the buffer and its size as set up. */
    method GetBuffer() returns (buf: array?<byte>, w: int, h: int)
      ensures buf == buffer && w == bufferWidth && h == bufferHeight
    {
      buf, w, h := buffer, bufferWidth, bufferHeight;
    }

    /** The tree query of the tree this tracer owns. */
    function Tree(m: Math, probe: Probe): Ray -> Option<Isect>
      reads kdTree
    {
      TreeQuery(m, probe, kdTree.root)
    }

    /** `tracePixel`: nothing without a scene. Otherwise the anti-aliasing samples are
        traced, then the pixel's three bytes at offset (i + j * width) * 3 are written from
        a fresh trace of the pixel's own coordinates, which replaces whatever the
        supersampling computed; the descriptor cursor moves on. */
    method TracePixel(m: Math, cfg: Config, cube: Option<Ray -> Vec3>, d: Draws, i: int, j: int)
      requires Valid() && buffer != null
      requires 0 <= i < bufferWidth && 0 <= j < bufferHeight
      requires scene.Some? ==> ValidScene(scene.value)
      requires DrawsFit(d, cfg.sampleSize)
      modifies buffer, this`cursor
      ensures scene.None? ==> buffer[..] == old(buffer[..]) && cursor == old(cursor)
      ensures scene.Some? ==>
                var px := PixelBytes(PixelColour(m, cfg, scene.value, kdTree.root, cube, i, j, bufferWidth, bufferHeight));
                var off := PixelOffset(i, j, bufferWidth);
                buffer[..] == Painted(old(buffer[..]), off, px) &&
                cursor == old(cursor) + 1
    {
      if scene.None? {
        return;
      }
      var s := scene.value;
      TreeQueryShadeable(m, s.probe, kdTree.root);
      var tree := TreeQuery(m, s.probe, kdTree.root);
      var trace := (x, y) => Trace(m, cfg, s, tree, cube, x, y);
      var x := m.div(i as real, bufferWidth as real);
      var y := m.div(j as real, bufferHeight as real);
      var supersampled := AntiAlias(m, cfg, trace, d, i, j, bufferWidth, bufferHeight);
      PixelOffsetInRange(i, j, bufferWidth, bufferHeight);
      var off := PixelOffset(i, j, bufferWidth);
      var col := PixelColour(m, cfg, s, kdTree.root, cube, i, j, bufferWidth, bufferHeight);
      WritePixel(buffer, off, PixelBytes(col));
      cursor := cursor + 1;
    }

    /** `loadScene`: a file that cannot be opened changes nothing. Otherwise the old scene
        is dropped before parsing, the parser is given the file's directory, and a parse
        error leaves no scene. With the tree in use, a refused build (a root already exists)
        is followed by one deletion and one more build, so the tree ends built over the new
        scene's objects either way. */
    method LoadScene(cfg: Config, fn: string, readable: bool, parse: string -> Result<Scene>) returns (ok: bool)
      modifies this, kdTree
      ensures !readable ==> !ok && scene == old(scene) && kdTree.root == old(kdTree.root)
      ensures readable ==> (ok <==> parse(SceneDirectory(fn)).Ok?)
      ensures readable ==> scene == if ok then Some(parse(SceneDirectory(fn)).value) else None
      ensures ok && cfg.Acceleration() ==>
                var s := parse(SceneDirectory(fn)).value;
                kdTree.root == Some(Build(s.objects, kdTree.depth, kdTree.minObjs, Chooser(HeuristicOf(cfg, s))))
      ensures !(ok && cfg.Acceleration()) ==> kdTree.root == old(kdTree.root)
      ensures buffer == old(buffer) && bufferWidth == old(bufferWidth) && bufferHeight == old(bufferHeight)
      ensures bufferSize == old(bufferSize)
      ensures ready == old(ready) && descriptors == old(descriptors) && cursor == old(cursor)
    {
      if !readable {
        return false;
      }
      var path := SceneDirectory(fn);
      scene := None;
      var parsed := parse(path);
      if parsed.Err? {
        return false;
      }
      var s := parsed.value;
      scene := Some(s);
      if cfg.Acceleration() {
        var built := kdTree.BuildTree(s.objects, HeuristicOf(cfg, s));
        if !built {
          kdTree.DeleteTree();
          built := kdTree.BuildTree(s.objects, HeuristicOf(cfg, s));
        }
      }
      return true;
    }
  }
}
