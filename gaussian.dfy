/** The area-weighted ("Gaussian") downsampler: each destination pixel is
    the weighted mean of the source pixels in the rectangle of the source
    that the destination pixel covers, truncated to an integer. */
module Gaussian {
  import opened Pixels

  /** The spread parameter of the kernel. */
  const Tuning: real := 10.0

  /** `Math.pow(2.718, t)` is a floating-point library call; the model takes
      it as a parameter. Every statement about the sampler's results needs
      only that its values are positive. */
  ghost predicate Positive(powE: real -> real) {
    forall t :: powE(t) > 0.0
  }

  /** The kernel weight of a pixel at normalised offset (u, v). The exponent
      is positive, so the weight grows with the distance from the mapped
      coordinate. */
  function Gauss(powE: real -> real, u: real, v: real): (w: real)
    ensures Positive(powE) ==> w > 0.0
  {
    (1.0 / (12.0 * Tuning)) * powE((u * u + v * v) / (2.0 * Tuning * Tuning))
  }

  /** The weight depends on the offset only through its distance. */
  lemma GaussSymmetric(powE: real -> real, u: real, v: real)
    ensures Gauss(powE, -u, v) == Gauss(powE, u, v) == Gauss(powE, u, -v)
    ensures Gauss(powE, v, u) == Gauss(powE, u, v)
  {
    assert -u * -u == u * u && -v * -v == v * v;
    assert v * v + u * u == u * u + v * v;
  }

  /** What the sampler knows about one resize: the exponential and the
      size of a destination pixel in source pixels, horizontally and
      vertically. */
  datatype Sampling = Sampling(powE: real -> real, sampleX: real, sampleY: real)

  /** The sampling of a `sw x sh` source onto a `dw x dh` destination. For
      a destination without columns (rows) the quotient is not a number; it
      is never used there, and the model sets it to 0. */
  function SamplingFor(powE: real -> real, sw: nat, sh: nat, dw: nat, dh: nat): (s: Sampling)
    ensures s.powE == powE
    // dw destination pixels of width sampleX span the sw source pixels
    ensures dw > 0 ==> s.sampleX * dw as real == sw as real
    ensures dh > 0 ==> s.sampleY * dh as real == sh as real
    // a shrinking (or same-size) dimension has destination pixels at least one source pixel wide
    ensures 0 < dw <= sw ==> s.sampleX >= 1.0
    ensures 0 < dh <= sh ==> s.sampleY >= 1.0
    ensures dw == 0 ==> s.sampleX == 0.0
    ensures dh == 0 ==> s.sampleY == 0.0
  {
    SampleSize(sw, dw);
    SampleSize(sh, dh);
    Sampling(powE, if dw > 0 then sw as real / dw as real else 0.0,
             if dh > 0 then sh as real / dh as real else 0.0)
  }

  function MaxReal(a: real, b: real): real { if a >= b then a else b }
  function MinReal(a: real, b: real): real { if a <= b then a else b }

  /** A rectangle of source pixels, columns `x0 <= xs < x1` and rows
      `y0 <= ys < y1`; it is empty when either range is. */
  datatype Window = Window(x0: int, x1: int, y0: int, y1: int) {
    predicate Inside(width: nat, height: nat) {
      0 <= x0 && x1 <= width && 0 <= y0 && y1 <= height
    }

    predicate Contains(xs: int, ys: int) {
      x0 <= xs < x1 && y0 <= ys < y1
    }
  }

  /** The window gathered for the mapped coordinate (x, y): from the
      coordinate itself to one destination pixel further, clamped to the
      buffer and truncated. It never leaves the buffer, and it has columns
      (rows) only when a destination pixel is wider (taller) than zero. */
  function WindowAt(s: Sampling, width: nat, height: nat, x: real, y: real): (w: Window)
    ensures w.Inside(width, height)
    ensures w.x0 < w.x1 ==> s.sampleX > 0.0
    ensures w.y0 < w.y1 ==> s.sampleY > 0.0
  {
    var w := Window(Trunc(MaxReal(x, 0.0)), Trunc(MinReal(x + s.sampleX, width as real)),
                    Trunc(MaxReal(y, 0.0)), Trunc(MinReal(y + s.sampleY, height as real)));
    RangeAt(x, s.sampleX, width);
    RangeAt(y, s.sampleY, height);
    w
  }

  /** One side of the window: the truncated range from max(v, 0) to
      min(v + step, size) lies in [0, size] and is non-empty only for a
      positive step. */
  lemma RangeAt(v: real, step: real, size: nat)
    ensures 0 <= Trunc(MaxReal(v, 0.0)) && Trunc(MinReal(v + step, size as real)) <= size
    ensures Trunc(MaxReal(v, 0.0)) < Trunc(MinReal(v + step, size as real)) ==> step > 0.0
  {
    var lo, hi := MaxReal(v, 0.0), MinReal(v + step, size as real);
    TruncOfInt(size);
    TruncMonotone(hi, size as real);
    if hi <= lo {
      TruncMonotone(hi, lo);
    }
  }

  /** The predicate the accumulation functions need: the window is inside
      the source and the divisions by the sample sizes are defined
      wherever a pixel is gathered. */
  predicate Gatherable(src: Raster, s: Sampling, w: Window) {
    src.WellFormed() && w.Inside(src.width, src.height) &&
    (w.x0 < w.x1 ==> s.sampleX > 0.0) && (w.y0 < w.y1 ==> s.sampleY > 0.0)
  }

  /** The weight of the source pixel (xs, ys) for the mapped coordinate (x, y). */
  function Weight(s: Sampling, x: real, y: real, xs: int, ys: int): (f: real)
    requires s.sampleX > 0.0 && s.sampleY > 0.0
    ensures Positive(s.powE) ==> f > 0.0
  {
    Gauss(s.powE, (x - xs as real) / s.sampleX, (y - ys as real) / s.sampleY)
  }

  /** The running sums the sampler keeps: one weighted sum per channel and
      the sum of the weights. */
  datatype Sums = Sums(r: real, g: real, b: real, a: real, total: real) {
    /** The weighted sum for channel k (0 = R, 1 = G, 2 = B, 3 = A). */
    function Channel(k: int): real {
      if k == 0 then r else if k == 1 then g else if k == 2 then b else a
    }

    /** The sums after gathering pixel p with weight `factor`. */
    function Add(p: Pixel, factor: real): (t: Sums)
      ensures forall k :: 0 <= k < 4 ==> t.Channel(k) == Channel(k) + p[k] * factor
      ensures t.total == total + factor
    {
      Sums(r + p[0] * factor, g + p[1] * factor, b + p[2] * factor, a + p[3] * factor,
           total + factor)
    }
  }

  const Zero := Sums(0.0, 0.0, 0.0, 0.0, 0.0)

  /** The sums after gathering, on top of `acc`, column xs of the window from
      row y0 up to (not including) row yEnd, in increasing row order. */
  function ColumnSums(src: Raster, s: Sampling, x: real, y: real, w: Window,
                      acc: Sums, xs: int, yEnd: int): Sums
    requires Gatherable(src, s, w) && w.x0 <= xs < w.x1 && (yEnd <= w.y1 || yEnd <= w.y0)
    decreases yEnd - w.y0
  {
    if yEnd <= w.y0 then acc
    else ColumnSums(src, s, x, y, w, acc, xs, yEnd - 1)
           .Add(src.PixelAt(xs, yEnd - 1), Weight(s, x, y, xs, yEnd - 1))
  }

  /** The sums after gathering the columns x0 up to (not including) xEnd of
      the window, column after column, each column row after row. */
  function WindowSums(src: Raster, s: Sampling, x: real, y: real, w: Window, xEnd: int): Sums
    requires Gatherable(src, s, w) && (xEnd <= w.x1 || xEnd <= w.x0)
    decreases xEnd - w.x0
  {
    if xEnd <= w.x0 then Zero
    else ColumnSums(src, s, x, y, w, WindowSums(src, s, x, y, w, xEnd - 1), xEnd - 1, w.y1)
  }

  /** The sampled pixel: each channel's weighted mean, truncated. A window
      without pixels (the range in one direction is empty) gives the pixel
      [0, 0, 0, 0]: every quotient is 0 / 0, and `| 0` turns the NaN into 0. */
  function GaussianPixel(src: Raster, s: Sampling, x: real, y: real): (p: Pixel)
    requires src.WellFormed()
    ensures var w := WindowAt(s, src.width, src.height, x, y);
            w.x1 <= w.x0 || w.y1 <= w.y0 ==> p == [0.0, 0.0, 0.0, 0.0]
  {
    var w := WindowAt(s, src.width, src.height, x, y);
    var sums := WindowSums(src, s, x, y, w, w.x1);
    assert w.y1 <= w.y0 ==> sums == Zero by {
      if w.y1 <= w.y0 { NoRowsNoSums(src, s, x, y, w, w.x1); }
    }
    [JsTruncDiv(sums.r, sums.total) as real, JsTruncDiv(sums.g, sums.total) as real,
     JsTruncDiv(sums.b, sums.total) as real, JsTruncDiv(sums.a, sums.total) as real]
  }

  /** Gathering one more row of a column adds that row's pixel. */
  lemma ColumnStep(src: Raster, s: Sampling, x: real, y: real, w: Window,
                   acc: Sums, xs: int, ys: int)
    requires Gatherable(src, s, w) && w.Contains(xs, ys)
    ensures ColumnSums(src, s, x, y, w, acc, xs, ys + 1)
         == ColumnSums(src, s, x, y, w, acc, xs, ys).Add(src.PixelAt(xs, ys), Weight(s, x, y, xs, ys))
  {
  }

  /** Adding the four channels read one by one is adding the pixel. */
  lemma AddReads(acc: Sums, p: Pixel, factor: real, c0: real, c1: real, c2: real, c3: real)
    requires c0 == p[0] && c1 == p[1] && c2 == p[2] && c3 == p[3]
    ensures Sums(acc.r + c0 * factor, acc.g + c1 * factor, acc.b + c2 * factor,
                 acc.a + c3 * factor, acc.total + factor) == acc.Add(p, factor)
  {
    assert c0 * factor == p[0] * factor && c1 * factor == p[1] * factor;
    assert c2 * factor == p[2] * factor && c3 * factor == p[3] * factor;
  }

  /** The body of the inner loop of getGaussianPixel: weighs the source
      pixel (xs, ys) of the window and adds it to the running sums, which
      then hold one more row of the column. */
  method Gather(imageData: ImageData, s: Sampling, x: real, y: real, w: Window, xs: int, ys: int,
                r: real, g: real, b: real, a: real, total: real, ghost src: Raster, ghost column: Sums)
    returns (r': real, g': real, b': real, a': real, total': real)
    requires imageData.WellFormed() && src == imageData.Snapshot()
    requires Gatherable(src, s, w) && w.Contains(xs, ys)
    requires Sums(r, g, b, a, total) == ColumnSums(src, s, x, y, w, column, xs, ys)
    ensures Sums(r', g', b', a', total') == ColumnSums(src, s, x, y, w, column, xs, ys + 1)
  {
    var idx := (ys * imageData.width + xs) * 4;
    var factor := Weight(s, x, y, xs, ys);
    ReadPixelAgrees(imageData, xs, ys, idx);
    ghost var p := src.PixelAt(xs, ys);
    assert imageData.data[idx] == p[0] && imageData.data[idx + 1] == p[1];
    assert imageData.data[idx + 2] == p[2] && imageData.data[idx + 3] == p[3];
    ColumnStep(src, s, x, y, w, column, xs, ys);
    AddReads(Sums(r, g, b, a, total), p, factor, imageData.data[idx], imageData.data[idx + 1],
             imageData.data[idx + 2], imageData.data[idx + 3]);
    r' := r + imageData.data[idx] * factor;
    g' := g + imageData.data[idx + 1] * factor;
    b' := b + imageData.data[idx + 2] * factor;
    a' := a + imageData.data[idx + 3] * factor;
    total' := total + factor;
  }

  /** The inner loop of getGaussianPixel: gathers column xs of the window,
      row by row, on top of the running sums. */
  method GatherColumn(imageData: ImageData, s: Sampling, x: real, y: real, w: Window, xs: int,
                      r: real, g: real, b: real, a: real, total: real, ghost src: Raster)
    returns (r': real, g': real, b': real, a': real, total': real)
    requires imageData.WellFormed() && src == imageData.Snapshot()
    requires Gatherable(src, s, w) && w.x0 <= xs < w.x1
    ensures Sums(r', g', b', a', total')
         == ColumnSums(src, s, x, y, w, Sums(r, g, b, a, total), xs, w.y1)
  {
    ghost var column := Sums(r, g, b, a, total);
    r', g', b', a', total' := r, g, b, a, total;
    var ys := w.y0;
    while ys < w.y1
      invariant w.y0 <= ys && (ys <= w.y1 || ys == w.y0)
      invariant Sums(r', g', b', a', total') == ColumnSums(src, s, x, y, w, column, xs, ys)
    {
      r', g', b', a', total' := Gather(imageData, s, x, y, w, xs, ys, r', g', b', a', total', src, column);
      ys := ys + 1;
    }
  }

  /** getGaussianPixel: the two nested loops over the window, keeping the
      running sums in five variables. */
  method GetGaussianPixel(imageData: ImageData, s: Sampling, x: real, y: real)
    returns (pixel: seq<real>)
    requires imageData.WellFormed()
    ensures pixel == GaussianPixel(imageData.Snapshot(), s, x, y)
  {
    var r := 0.0;
    var b := 0.0;
    var g := 0.0;
    var a := 0.0;
    var width := imageData.width;
    var height := imageData.height;
    var w := WindowAt(s, width, height, x, y);
    ghost var src := imageData.Snapshot();
    var total := 0.0;
    var xs := w.x0;
    while xs < w.x1
      invariant w.x0 <= xs && (xs <= w.x1 || xs == w.x0)
      invariant Sums(r, g, b, a, total) == WindowSums(src, s, x, y, w, xs)
    {
      r, g, b, a, total := GatherColumn(imageData, s, x, y, w, xs, r, g, b, a, total, src);
      xs := xs + 1;
    }
    pixel := [JsTruncDiv(r, total) as real, JsTruncDiv(g, total) as real,
              JsTruncDiv(b, total) as real, JsTruncDiv(a, total) as real];
  }

  /** Channel k of the sums lies between lo and hi times the total weight,
      so the weighted mean, where there is one, lies in [lo, hi]. */
  predicate Bounded(t: Sums, k: int, lo: real, hi: real) {
    lo * t.total <= t.Channel(k) <= hi * t.total
  }

  /** Channel k of every pixel of the window lies in [lo, hi]. */
  ghost predicate WindowWithin(src: Raster, w: Window, k: int, lo: real, hi: real)
    requires src.WellFormed() && w.Inside(src.width, src.height) && 0 <= k < 4
  {
    forall xs, ys :: w.Contains(xs, ys) ==> lo <= src.Channel(xs, ys, k) <= hi
  }

  /** Adding a value in [lo, hi] with a positive weight keeps the sums
      bounded. */
  lemma AddBounded(t: Sums, p: Pixel, factor: real, k: int, lo: real, hi: real)
    requires 0 <= k < 4 && Bounded(t, k, lo, hi) && factor > 0.0 && lo <= p[k] <= hi
    ensures Bounded(t.Add(p, factor), k, lo, hi)
  {
    var u := t.Add(p, factor);
    assert u.Channel(k) == t.Channel(k) + p[k] * factor && u.total == t.total + factor;
    WeighIn(t.Channel(k), t.total, p[k], factor, lo, hi);
  }

  /** The arithmetic of one gathering step: if c lies between lo and hi
      times the total and v lies between lo and hi, then c plus v times a
      positive weight lies between lo and hi times the new total. */
  lemma WeighIn(c: real, total: real, v: real, f: real, lo: real, hi: real)
    requires lo * total <= c <= hi * total && lo <= v <= hi && f > 0.0
    ensures lo * (total + f) <= c + v * f <= hi * (total + f)
  {
    assert (v - lo) * f >= 0.0 && (hi - v) * f >= 0.0;
    assert lo * (total + f) == lo * total + lo * f;
    assert hi * (total + f) == hi * total + hi * f;
  }

  /** Gathering a column of pixels whose channel k lies in [lo, hi] keeps
      the sums bounded. */
  lemma {:induction false} ColumnBounded(src: Raster, s: Sampling, x: real, y: real, w: Window,
                                          acc: Sums, xs: int, yEnd: int, k: int, lo: real, hi: real)
    requires Gatherable(src, s, w) && w.x0 <= xs < w.x1 && (yEnd <= w.y1 || yEnd <= w.y0)
    requires Positive(s.powE) && 0 <= k < 4 && WindowWithin(src, w, k, lo, hi)
    requires Bounded(acc, k, lo, hi)
    ensures Bounded(ColumnSums(src, s, x, y, w, acc, xs, yEnd), k, lo, hi)
    decreases yEnd - w.y0
  {
    if yEnd > w.y0 {
      ColumnBounded(src, s, x, y, w, acc, xs, yEnd - 1, k, lo, hi);
      assert w.Contains(xs, yEnd - 1);
      var p := src.PixelAt(xs, yEnd - 1);
      assert p[k] == src.Channel(xs, yEnd - 1, k);
      AddBounded(ColumnSums(src, s, x, y, w, acc, xs, yEnd - 1), p, Weight(s, x, y, xs, yEnd - 1),
                 k, lo, hi);
    }
  }

  /** The sums over a window whose channel k lies in [lo, hi] are bounded. */
  lemma {:induction false} WindowBounded(src: Raster, s: Sampling, x: real, y: real, w: Window,
                                          xEnd: int, k: int, lo: real, hi: real)
    requires Gatherable(src, s, w) && (xEnd <= w.x1 || xEnd <= w.x0)
    requires Positive(s.powE) && 0 <= k < 4 && WindowWithin(src, w, k, lo, hi)
    ensures Bounded(WindowSums(src, s, x, y, w, xEnd), k, lo, hi)
    decreases xEnd - w.x0
  {
    if xEnd > w.x0 {
      WindowBounded(src, s, x, y, w, xEnd - 1, k, lo, hi);
      ColumnBounded(src, s, x, y, w, WindowSums(src, s, x, y, w, xEnd - 1), xEnd - 1, w.y1,
                    k, lo, hi);
    }
  }

  /** Gathering never lowers the total weight, and gathering at least one
      row raises it. */
  lemma {:induction false} ColumnTotal(src: Raster, s: Sampling, x: real, y: real, w: Window,
                                        acc: Sums, xs: int, yEnd: int)
    requires Gatherable(src, s, w) && w.x0 <= xs < w.x1 && (yEnd <= w.y1 || yEnd <= w.y0)
    requires Positive(s.powE)
    ensures ColumnSums(src, s, x, y, w, acc, xs, yEnd).total >= acc.total
    ensures yEnd > w.y0 ==> ColumnSums(src, s, x, y, w, acc, xs, yEnd).total > acc.total
    decreases yEnd - w.y0
  {
    if yEnd > w.y0 {
      ColumnTotal(src, s, x, y, w, acc, xs, yEnd - 1);
      assert Weight(s, x, y, xs, yEnd - 1) > 0.0;
    }
  }

  /** A window without rows gathers nothing, column after column. */
  lemma {:induction false} NoRowsNoSums(src: Raster, s: Sampling, x: real, y: real, w: Window,
                                         xEnd: int)
    requires Gatherable(src, s, w) && (xEnd <= w.x1 || xEnd <= w.x0) && w.y1 <= w.y0
    ensures WindowSums(src, s, x, y, w, xEnd) == Zero
    decreases xEnd - w.x0
  {
    if xEnd > w.x0 {
      NoRowsNoSums(src, s, x, y, w, xEnd - 1);
    }
  }

  /** With positive weights, the total weight of the gathered columns
      x0 .. xEnd - 1 is positive exactly when there is at least one such
      column and the window has rows. */
  lemma {:induction false} WindowTotal(src: Raster, s: Sampling, x: real, y: real, w: Window,
                                        xEnd: int)
    requires Gatherable(src, s, w) && (xEnd <= w.x1 || xEnd <= w.x0) && Positive(s.powE)
    ensures WindowSums(src, s, x, y, w, xEnd).total >= 0.0
    ensures WindowSums(src, s, x, y, w, xEnd).total > 0.0 <==> w.x0 < xEnd && w.y0 < w.y1
    decreases xEnd - w.x0
  {
    if w.y1 <= w.y0 {
      NoRowsNoSums(src, s, x, y, w, xEnd);
    } else if xEnd > w.x0 {
      WindowTotal(src, s, x, y, w, xEnd - 1);
      ColumnTotal(src, s, x, y, w, WindowSums(src, s, x, y, w, xEnd - 1), xEnd - 1, w.y1);
    }
  }

  /** A weighted mean lies between the bounds of the values averaged. */
  lemma MeanWithin(t: Sums, k: int, lo: real, hi: real)
    requires Bounded(t, k, lo, hi) && t.total > 0.0
    ensures lo <= t.Channel(k) / t.total <= hi
  {
    var q := t.Channel(k) / t.total;
    assert q * t.total == t.Channel(k);
    assert (q - lo) * t.total >= 0.0 && (hi - q) * t.total >= 0.0;
  }

  /** Channel k of a sampled pixel is the truncated quotient of channel k of
      the window sums by the total weight. */
  lemma GaussianChannel(src: Raster, s: Sampling, x: real, y: real, k: int)
    requires src.WellFormed() && 0 <= k < 4
    ensures var w := WindowAt(s, src.width, src.height, x, y);
            var sums := WindowSums(src, s, x, y, w, w.x1);
            GaussianPixel(src, s, x, y)[k] == JsTruncDiv(sums.Channel(k), sums.total) as real
  {
  }

  /** The sampled pixel is a mean: where its window has pixels, channel k
      lies between the truncated least and greatest channel-k values of the
      window. */
  lemma GaussianPixelWithin(src: Raster, s: Sampling, x: real, y: real, k: int, lo: real, hi: real)
    requires src.WellFormed() && Positive(s.powE) && 0 <= k < 4
    requires var w := WindowAt(s, src.width, src.height, x, y);
             w.x0 < w.x1 && w.y0 < w.y1 && WindowWithin(src, w, k, lo, hi)
    ensures Trunc(lo) as real <= GaussianPixel(src, s, x, y)[k] <= Trunc(hi) as real
  {
    var w := WindowAt(s, src.width, src.height, x, y);
    var sums := WindowSums(src, s, x, y, w, w.x1);
    WindowTotal(src, s, x, y, w, w.x1);
    WindowBounded(src, s, x, y, w, w.x1, k, lo, hi);
    MeanWithin(sums, k, lo, hi);
    TruncMonotone(lo, sums.Channel(k) / sums.total);
    TruncMonotone(sums.Channel(k) / sums.total, hi);
    GaussianChannel(src, s, x, y, k);
  }

  /** Sampling a region of one colour gives that colour, truncated. */
  lemma GaussianPixelUniform(src: Raster, s: Sampling, x: real, y: real, k: int, c: real)
    requires src.WellFormed() && Positive(s.powE) && 0 <= k < 4 && src.Uniform(k, c)
    requires var w := WindowAt(s, src.width, src.height, x, y); w.x0 < w.x1 && w.y0 < w.y1
    ensures GaussianPixel(src, s, x, y)[k] == Trunc(c) as real
  {
    var w := WindowAt(s, src.width, src.height, x, y);
    assert WindowWithin(src, w, k, c, c);
    GaussianPixelWithin(src, s, x, y, k, c, c);
  }

  /** One step past a non-negative coordinate, at least one pixel long,
      reaches a later whole pixel. */
  lemma StepPastTrunc(v: real, step: real)
    requires v >= 0.0 && step >= 1.0
    ensures Trunc(v) < Trunc(v + step)
  {
    TruncMonotone(Trunc(v) as real + 1.0, v + step);
    TruncOfInt(Trunc(v) + 1);
  }

  /** When a dimension of size s shrinks (or keeps its size) to dd > 0, the
      window side of every destination coordinate d has at least one
      pixel. */
  lemma ShrinkAxisNonempty(d: int, s: nat, dd: nat)
    requires 0 <= d < dd <= s
    ensures var c := MapCoord(d, s, dd);
            Trunc(MaxReal(c, 0.0)) < Trunc(MinReal(c + s as real / dd as real, s as real))
  {
    var c := MapCoord(d, s, dd);
    var step := s as real / dd as real;
    AtLeastOne(s as real, dd as real);
    MapCoordStep(d, s, dd);
    MapCoordAtMost(d + 1, s, dd);
    StepPastTrunc(c, step);
  }

  /** The size of a destination pixel in source pixels along one side:
      d of them span the s source pixels, and each is at least one source
      pixel long when the side does not grow. */
  lemma SampleSize(s: nat, d: nat)
    ensures d > 0 ==> (s as real / d as real) * d as real == s as real
    ensures 0 < d <= s ==> s as real / d as real >= 1.0
  {
    if 0 < d <= s {
      AtLeastOne(s as real, d as real);
    }
  }

  /** A quotient of a number by a positive number no larger is at least 1. */
  lemma AtLeastOne(a: real, b: real)
    requires 0.0 < b <= a
    ensures a / b >= 1.0
  {
    assert (a / b) * b == a;
    assert (a / b - 1.0) * b == a - b;
  }

  /** Coordinates up to dd map to at most s. */
  lemma MapCoordAtMost(d: int, s: nat, dd: nat)
    requires 0 <= d <= dd && dd > 0
    ensures MapCoord(d, s, dd) <= s as real
  {
    assert d as real * s as real <= dd as real * s as real by {
      assert dd as real * s as real - d as real * s as real == (dd - d) as real * s as real;
    }
    DivMonotone(d as real * s as real, dd as real * s as real, dd as real);
    DivCancel(s as real, dd as real);
  }

  /** Division by a positive number keeps the order. */
  lemma DivMonotone(a: real, b: real, c: real)
    requires a <= b && c > 0.0
    ensures a / c <= b / c
  {
  }

  /** Multiplying by c and dividing by c cancel. */
  lemma DivCancel(a: real, c: real)
    requires c > 0.0
    ensures (c * a) / c == a
  {
  }

  /** The next destination coordinate maps one destination pixel, s / dd
      source pixels, further. */
  lemma MapCoordStep(d: int, s: nat, dd: nat)
    requires dd > 0
    ensures MapCoord(d + 1, s, dd) == MapCoord(d, s, dd) + s as real / dd as real
  {
    var a := d as real * s as real;
    assert (d + 1) as real * s as real == a + s as real;
    assert MapCoord(d + 1, s, dd) == (a + s as real) / dd as real;
    assert MapCoord(d, s, dd) == a / dd as real;
    DivAdd(a, s as real, dd as real);
  }

  /** Division by a positive number distributes over a sum. */
  lemma DivAdd(a: real, b: real, c: real)
    requires c > 0.0
    ensures (a + b) / c == a / c + b / c
  {
  }

  /** On the axis where destination coordinate d and d + 1 map into the same
      source pixel, the window side of d is empty. */
  lemma AxisEmpty(d: int, s: nat, dd: nat)
    requires 0 <= d < dd && Trunc(MapCoord(d, s, dd)) >= Trunc(MapCoord(d + 1, s, dd))
    ensures var c := MapCoord(d, s, dd);
            Trunc(MinReal(c + s as real / dd as real, s as real)) <= Trunc(MaxReal(c, 0.0))
  {
    var c := MapCoord(d, s, dd);
    var step := s as real / dd as real;
    MapCoordStep(d, s, dd);
    TruncMonotone(MinReal(c + step, s as real), c + step);
  }

  /** The destination pixel (dx, dy) of a dw x dh resize with sampling s;
      the resize of a source uses `SamplingFor` its dimensions. */
  function DestPixel(s: Sampling, src: Raster, dw: nat, dh: nat, dx: int, dy: int): Pixel
    requires src.WellFormed() && 0 <= dx < dw && 0 <= dy < dh
  {
    GaussianPixel(src, s, MapCoord(dx, src.width, dw), MapCoord(dy, src.height, dh))
  }

  /** The destination pixels of a dw x dh resize, row-major. */
  function DestPixels(s: Sampling, src: Raster, dw: nat, dh: nat): (ps: seq<Pixel>)
    requires src.WellFormed()
    ensures |ps| == dw * dh
  {
    Tabulate(p requires 0 <= p < dw * dh =>
               RowMajorBounds(p, dw, dh);
               DestPixel(s, src, dw, dh, p % dw, p / dw),
             0, dw * dh)
  }

  /** Destination pixel (dx, dy) is pixel number dy * dw + dx of the list. */
  lemma DestPixelsAt(s: Sampling, src: Raster, dw: nat, dh: nat, dx: int, dy: int)
    requires src.WellFormed() && 0 <= dx < dw && 0 <= dy < dh
    ensures |DestPixels(s, src, dw, dh)| == dw * dh
    ensures 0 <= dy * dw + dx < dw * dh
    ensures DestPixels(s, src, dw, dh)[dy * dw + dx] == DestPixel(s, src, dw, dh, dx, dy)
  {
    OffsetInBounds(dw, dh, dx, dy, 0);
    RowMajor(dx, dy, dw);
    TabulateAt(p requires 0 <= p < dw * dh =>
                 RowMajorBounds(p, dw, dh);
                 DestPixel(s, src, dw, dh, p % dw, p / dw),
               0, dw * dh, dy * dw + dx);
  }

  /** Shrinking a source whose channel k is c everywhere gives the
      truncation of c in channel k of every destination pixel. */
  lemma ShrinkUniform(powE: real -> real, src: Raster, dw: nat, dh: nat, k: int, c: real)
    requires src.WellFormed() && Positive(powE) && dw <= src.width && dh <= src.height
    requires 0 <= k < 4 && src.Uniform(k, c)
    ensures var s := SamplingFor(powE, src.width, src.height, dw, dh);
            forall dx, dy :: 0 <= dx < dw && 0 <= dy < dh ==>
              DestPixel(s, src, dw, dh, dx, dy)[k] == Trunc(c) as real
  {
    var s := SamplingFor(powE, src.width, src.height, dw, dh);
    forall dx, dy | 0 <= dx < dw && 0 <= dy < dh
      ensures DestPixel(s, src, dw, dh, dx, dy)[k] == Trunc(c) as real
    {
      ShrinkAxisNonempty(dx, src.width, dw);
      ShrinkAxisNonempty(dy, src.height, dh);
      GaussianPixelUniform(src, s, MapCoord(dx, src.width, dw), MapCoord(dy, src.height, dh), k, c);
    }
  }

  /** Shrinking an image of one whole-numbered grey value n reproduces n in
      every channel of every destination pixel; a 4 x 4 grey image copied
      to 1 x 1 keeps its grey. */
  lemma ShrinkGrey(powE: real -> real, src: Raster, dw: nat, dh: nat, n: int)
    requires src.WellFormed() && Positive(powE) && dw <= src.width && dh <= src.height
    requires src.Uniform(0, n as real) && src.Uniform(1, n as real)
    requires src.Uniform(2, n as real) && src.Uniform(3, n as real)
    ensures var s := SamplingFor(powE, src.width, src.height, dw, dh);
            forall dx, dy :: 0 <= dx < dw && 0 <= dy < dh ==>
              DestPixel(s, src, dw, dh, dx, dy) == [n as real, n as real, n as real, n as real]
  {
    TruncOfInt(n);
    ShrinkUniform(powE, src, dw, dh, 0, n as real);
    ShrinkUniform(powE, src, dw, dh, 1, n as real);
    ShrinkUniform(powE, src, dw, dh, 2, n as real);
    ShrinkUniform(powE, src, dw, dh, 3, n as real);
  }

  /** Where two consecutive destination rows map into the same source row
      (the height grows), the earlier row's windows have no pixels and the
      row comes out as [0, 0, 0, 0]; likewise for columns. */
  lemma EmptyWindowPixel(powE: real -> real, src: Raster, dw: nat, dh: nat, dx: int, dy: int)
    requires src.WellFormed() && 0 <= dx < dw && 0 <= dy < dh
    requires Trunc(MapCoord(dx, src.width, dw)) >= Trunc(MapCoord(dx + 1, src.width, dw)) ||
             Trunc(MapCoord(dy, src.height, dh)) >= Trunc(MapCoord(dy + 1, src.height, dh))
    ensures var s := SamplingFor(powE, src.width, src.height, dw, dh);
            DestPixel(s, src, dw, dh, dx, dy) == [0.0, 0.0, 0.0, 0.0]
  {
    var s := SamplingFor(powE, src.width, src.height, dw, dh);
    var x, y := MapCoord(dx, src.width, dw), MapCoord(dy, src.height, dh);
    if Trunc(MapCoord(dx, src.width, dw)) >= Trunc(MapCoord(dx + 1, src.width, dw)) {
      AxisEmpty(dx, src.width, dw);
    } else {
      AxisEmpty(dy, src.height, dh);
    }
  }

  /** Copying a 2 x 1 image to 1 x 3 leaves the first two destination rows
      at [0, 0, 0, 0], whatever the source holds. */
  lemma TallerRowsEmpty(powE: real -> real, src: Raster)
    requires src.WellFormed() && src.width == 2 && src.height == 1
    ensures DestPixel(SamplingFor(powE, 2, 1, 1, 3), src, 1, 3, 0, 0) == [0.0, 0.0, 0.0, 0.0]
    ensures DestPixel(SamplingFor(powE, 2, 1, 1, 3), src, 1, 3, 0, 1) == [0.0, 0.0, 0.0, 0.0]
  {
    assert MapCoord(1, 1, 3) == 1.0 / 3.0 && MapCoord(2, 1, 3) == 2.0 / 3.0;
    assert Trunc(1.0 / 3.0) == 0 && Trunc(2.0 / 3.0) == 0;
    EmptyWindowPixel(powE, src, 1, 3, 0, 0);
    EmptyWindowPixel(powE, src, 1, 3, 0, 1);
  }

  /** The inner copy loop: row y of the destination, whose first pixel is
      pixel number n of the row-major list `ps`. */
  method CopyRow(source: ImageData, dest: ImageData, s: Sampling, y: int,
                 ghost src: Raster, ghost ps: seq<Pixel>, ghost n: int)
    requires source.WellFormed() && dest.WellFormed() && source.data != dest.data
    requires 0 <= y < dest.height && n == y * dest.width
    requires src == source.Snapshot() && ps == DestPixels(s, src, dest.width, dest.height)
    requires Written(dest.data[..], ps, n)
    modifies dest.data
    ensures Written(dest.data[..], ps, n + dest.width)
    ensures Kept(dest.data[..], old(dest.data[..]), 4 * (n + dest.width))
  {
    ghost var m := n;
    var x := 0;
    while x < dest.width
      invariant 0 <= x <= dest.width && m == n + x
      invariant Written(dest.data[..], ps, m)
      invariant Kept(dest.data[..], old(dest.data[..]), 4 * m)
    {
      ghost var before := dest.data[..];
      CopyPixel(source, dest, s, x, y, src, ps, m);
      KeptTrans(dest.data[..], before, old(dest.data[..]), 4 * (m + 1), 4 * m);
      m := m + 1;
      x := x + 1;
    }
  }

  /** One iteration of the copy loop: destination pixel (x, y), pixel number
      n of the row-major list, is sampled and stored right after the n
      pixels already written. */
  method CopyPixel(source: ImageData, dest: ImageData, s: Sampling, x: int, y: int,
                   ghost src: Raster, ghost ps: seq<Pixel>, ghost n: int)
    requires source.WellFormed() && dest.WellFormed() && source.data != dest.data
    requires 0 <= x < dest.width && 0 <= y < dest.height && n == y * dest.width + x
    requires src == source.Snapshot() && ps == DestPixels(s, src, dest.width, dest.height)
    requires Written(dest.data[..], ps, n)
    modifies dest.data
    ensures Written(dest.data[..], ps, n + 1)
    ensures Kept(dest.data[..], old(dest.data[..]), 4 * (n + 1))
  {
    var i := (y * dest.width + x) * 4;
    var newPixel := GetGaussianPixel(source, s,
                                     MapCoord(x, source.width, dest.width),
                                     MapCoord(y, source.height, dest.height));
    DestPixelsAt(s, src, dest.width, dest.height, x, y);
    OffsetInBounds(dest.width, dest.height, x, y, 3);
    assert newPixel == ps[n] && i == 4 * n;
    ghost var before := dest.data[..];
    StorePixel(dest.data, i, newPixel);
    WrittenNext(before, dest.data[..], ps, n);
  }

  /** The outer copy loop: every row of the destination, top to bottom,
      sampled with s. */
  method CopyRows(source: ImageData, dest: ImageData, s: Sampling)
    requires source.WellFormed() && dest.WellFormed() && source.data != dest.data
    modifies dest.data
    ensures dest.data[..] == Interleave(DestPixels(s, source.Snapshot(), dest.width, dest.height))
  {
    ghost var src := source.Snapshot();
    ghost var ps := DestPixels(s, src, dest.width, dest.height);
    ghost var n := 0;
    WrittenNone(dest.data[..], ps);
    var y := 0;
    while y < dest.height
      invariant 0 <= y <= dest.height && n == y * dest.width
      invariant Written(dest.data[..], ps, n)
    {
      CopyRow(source, dest, s, y, src, ps, n);
      NextRow(y, dest.width, n);
      n := n + dest.width;
      y := y + 1;
    }
    WrittenRows(dest.data[..], ps, dest.width, dest.height, n);
  }

  /** `copyGaussian`: every destination pixel, row by row, is the weighted
      mean of the source window it covers. Every element of the destination
      buffer is written, the source is not modified, and the destination
      object itself is returned. */
  method CopyGaussian(powE: real -> real, source: ImageData, dest: ImageData)
    returns (result: ImageData)
    requires source.WellFormed() && dest.WellFormed() && source.data != dest.data
    modifies dest.data
    ensures result == dest
    ensures unchanged(source.data)
    ensures dest.data[..] == Interleave(DestPixels(SamplingFor(powE, source.width, source.height,
                                                               dest.width, dest.height),
                                                   source.Snapshot(), dest.width, dest.height))
  {
    var s := SamplingFor(powE, source.width, source.height, dest.width, dest.height);
    CopyRows(source, dest, s);
    return dest;
  }
}
