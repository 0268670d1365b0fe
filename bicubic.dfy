/** The bicubic sampler: each destination pixel is reconstructed from a 4x4
    neighbourhood of source pixels, clamped to the edges of the source, by a
    closed-form cubic patch evaluated at the fractional part of the mapped
    coordinate. */
module Bicubic {
  import opened Pixels

  /** The cubic patch through a 4x4 neighbourhood, evaluated at (x, y).
      In `pij` the first index is the column (offsets -1, 0, 1, 2 from the
      sampled column) and the second the row. The result is not clamped. */
  function Bicubic(x: real, y: real,
                   p00: real, p01: real, p02: real, p03: real,
                   p10: real, p11: real, p12: real, p13: real,
                   p20: real, p21: real, p22: real, p23: real,
                   p30: real, p31: real, p32: real, p33: real): (r: real)
    // at the origin the patch takes the value of the sampled pixel
    ensures x == 0.0 && y == 0.0 ==> r == p11
  {
    var x2 := x * x;
    var x3 := x2 * x;
    var y2 := y * y;
    var y3 := y2 * y;

    var a00 := p11;
    var a01 := -0.5*p10 + 0.5*p12;
    var a02 := p10 - 2.5*p11 + 2.0*p12 - 0.5*p13;
    var a03 := -0.5*p10 + 1.5*p11 - 1.5*p12 + 0.5*p13;
    var a10 := -0.5*p01 + 0.5*p21;
    var a11 := 0.25*p00 - 0.25*p02 - 0.25*p20 + 0.25*p22;
    var a12 := -0.5*p00 + 1.25*p01 - p02 + 0.25*p03 + 0.5*p20 - 1.25*p21 + p22 - 0.25*p23;
    var a13 := 0.25*p00 - 0.75*p01 + 0.75*p02 - 0.25*p03 - 0.25*p20 + 0.75*p21 - 0.75*p22 + 0.25*p23;
    var a20 := p01 - 2.5*p11 + 2.0*p21 - 0.5*p31;
    var a21 := -0.5*p00 + 0.5*p02 + 1.25*p10 - 1.25*p12 - p20 + p22 + 0.25*p30 - 0.25*p32;
    var a22 := p00 - 2.5*p01 + 2.0*p02 - 0.5*p03 - 2.5*p10 + 6.25*p11 - 5.0*p12 + 1.25*p13 + 2.0*p20 - 5.0*p21 + 4.0*p22 - p23 - 0.5*p30 + 1.25*p31 - p32 + 0.25*p33;
    var a23 := -0.5*p00 + 1.5*p01 - 1.5*p02 + 0.5*p03 + 1.25*p10 - 3.75*p11 + 3.75*p12 - 1.25*p13 - p20 + 3.0*p21 - 3.0*p22 + p23 + 0.25*p30 - 0.75*p31 + 0.75*p32 - 0.25*p33;
    var a30 := -0.5*p01 + 1.5*p11 - 1.5*p21 + 0.5*p31;
    var a31 := 0.25*p00 - 0.25*p02 - 0.75*p10 + 0.75*p12 + 0.75*p20 - 0.75*p22 - 0.25*p30 + 0.25*p32;
    var a32 := -0.5*p00 + 1.25*p01 - p02 + 0.25*p03 + 1.5*p10 - 3.75*p11 + 3.0*p12 - 0.75*p13 - 1.5*p20 + 3.75*p21 - 3.0*p22 + 0.75*p23 + 0.5*p30 - 1.25*p31 + p32 - 0.25*p33;
    var a33 := 0.25*p00 - 0.75*p01 + 0.75*p02 - 0.25*p03 - 0.75*p10 + 2.25*p11 - 2.25*p12 + 0.75*p13 + 0.75*p20 - 2.25*p21 + 2.25*p22 - 0.75*p23 - 0.25*p30 + 0.75*p31 - 0.75*p32 + 0.25*p33;

    (a00 + a01 * y + a02 * y2 + a03 * y3) +
    (a10 + a11 * y + a12 * y2 + a13 * y3) * x +
    (a20 + a21 * y + a22 * y2 + a23 * y3) * x2 +
    (a30 + a31 * y + a32 * y2 + a33 * y3) * x3
  }

  /** The patch also passes through the other three samples at the corners
      of its cell, so neighbouring cells meet at the samples. */
  lemma BicubicCorners(p00: real, p01: real, p02: real, p03: real,
                       p10: real, p11: real, p12: real, p13: real,
                       p20: real, p21: real, p22: real, p23: real,
                       p30: real, p31: real, p32: real, p33: real)
    ensures Bicubic(1.0, 0.0, p00, p01, p02, p03, p10, p11, p12, p13, p20, p21, p22, p23, p30, p31, p32, p33) == p21
    ensures Bicubic(0.0, 1.0, p00, p01, p02, p03, p10, p11, p12, p13, p20, p21, p22, p23, p30, p31, p32, p33) == p12
    ensures Bicubic(1.0, 1.0, p00, p01, p02, p03, p10, p11, p12, p13, p20, p21, p22, p23, p30, p31, p32, p33) == p22
  {
  }

  /** A flat neighbourhood gives a flat patch: if all sixteen samples equal
      c, every coefficient except the constant one cancels. */
  lemma {:induction false} BicubicFlat(x: real, y: real, c: real)
    ensures Bicubic(x, y, c, c, c, c, c, c, c, c, c, c, c, c, c, c, c, c) == c
  {
    var y2 := y * y;
    var y3 := y2 * y;
    var row := c + 0.0 * y + 0.0 * y2 + 0.0 * y3;
    assert row == c;
    assert (0.0 + 0.0 * y + 0.0 * y2 + 0.0 * y3) == 0.0;
  }

  /** The four columns (or rows) `c-1, c, c+1, c+2` read around c, with the
      outer ones clamped to the buffer. */
  function Taps(c: int, n: int): (t: seq<int>)
    ensures |t| == 4
    ensures 0 <= c < n ==> forall i :: 0 <= i < 4 ==> 0 <= t[i] < n && t[i] == Clamp(c - 1 + i, 0, n - 1)
  {
    [Max(c - 1, 0), c, Min(c + 1, n - 1), Min(c + 2, n - 1)]
  }

  function Max(a: int, b: int): int { if a >= b then a else b }
  function Min(a: int, b: int): int { if a <= b then a else b }

  /** Clamp-to-edge: the nearest value in [lo, hi]. */
  function Clamp(v: int, lo: int, hi: int): int
    requires lo <= hi
  {
    if v < lo then lo else if v > hi then hi else v
  }

  /** Channel k of the bicubic sample at source coordinate (x, y). It reads
      only columns and rows inside the source, and at a whole-numbered
      coordinate it is channel k of the source pixel there. */
  function BicubicChannel(src: Raster, x: real, y: real, k: int): (r: real)
    requires src.WellFormed() && 0 <= k < 4
    requires 0.0 <= x < src.width as real && 0.0 <= y < src.height as real
    ensures 0 <= Trunc(x) < src.width && 0 <= Trunc(y) < src.height
    ensures x == Trunc(x) as real && y == Trunc(y) as real ==> r == src.Channel(Trunc(x), Trunc(y), k)
  {
    var xs := Taps(Trunc(x), src.width);
    var ys := Taps(Trunc(y), src.height);
    Bicubic(ModOne(x), ModOne(y),
      src.Channel(xs[0], ys[0], k), src.Channel(xs[0], ys[1], k), src.Channel(xs[0], ys[2], k), src.Channel(xs[0], ys[3], k),
      src.Channel(xs[1], ys[0], k), src.Channel(xs[1], ys[1], k), src.Channel(xs[1], ys[2], k), src.Channel(xs[1], ys[3], k),
      src.Channel(xs[2], ys[0], k), src.Channel(xs[2], ys[1], k), src.Channel(xs[2], ys[2], k), src.Channel(xs[2], ys[3], k),
      src.Channel(xs[3], ys[0], k), src.Channel(xs[3], ys[1], k), src.Channel(xs[3], ys[2], k), src.Channel(xs[3], ys[3], k))
  }

  /** The bicubic sample at source coordinate (x, y), one patch per channel;
      at a whole-numbered coordinate, the source pixel there. */
  function BicubicPixel(src: Raster, x: real, y: real): (p: Pixel)
    requires src.WellFormed()
    requires 0.0 <= x < src.width as real && 0.0 <= y < src.height as real
    ensures 0 <= Trunc(x) < src.width && 0 <= Trunc(y) < src.height
    ensures x == Trunc(x) as real && y == Trunc(y) as real ==> p == src.PixelAt(Trunc(x), Trunc(y))
  {
    seq(4, k requires 0 <= k < 4 => BicubicChannel(src, x, y, k))
  }

  /** The inner `getPixel` of the bicubic sampler: gathers the clamped 4x4
      neighbourhood and pushes one patch value per channel. Every read index
      lies inside the source buffer. */
  method GetPixel(imageData: ImageData, x: real, y: real) returns (pixel: seq<real>)
    requires imageData.WellFormed()
    requires 0.0 <= x < imageData.width as real && 0.0 <= y < imageData.height as real
    ensures pixel == BicubicPixel(imageData.Snapshot(), x, y)
  {
    var x1 := Trunc(x);
    var y1 := Trunc(y);
    var width := imageData.width;
    var height := imageData.height;
    pixel := [];
    var x0 := Max(x1 - 1, 0);
    var x2 := Min(x1 + 1, width - 1);
    var x3 := Min(x1 + 2, width - 1);
    var y0 := Max(y1 - 1, 0);
    var y2 := Min(y1 + 1, height - 1);
    var y3 := Min(y1 + 2, height - 1);
    assert [x0, x1, x2, x3] == Taps(x1, width);
    assert [y0, y1, y2, y3] == Taps(y1, height);
    for offset := 0 to 4
      invariant |pixel| == offset
      invariant forall k :: 0 <= k < offset ==> pixel[k] == BicubicChannel(imageData.Snapshot(), x, y, k)
    {
      var newVal := PatchValue(imageData, x, y, offset, x0, x1, x2, x3, y0, y1, y2, y3);
      pixel := pixel + [newVal];
    }
  }

  /** One pass of the loop in `getPixel`: the sixteen reads for channel
      `offset`, each inside the source array, fed to the cubic patch. */
  method PatchValue(imageData: ImageData, x: real, y: real, offset: int,
                    x0: int, x1: int, x2: int, x3: int, y0: int, y1: int, y2: int, y3: int)
    returns (newVal: real)
    requires imageData.WellFormed() && 0 <= offset < 4
    requires 0.0 <= x < imageData.width as real && 0.0 <= y < imageData.height as real
    requires [x0, x1, x2, x3] == Taps(Trunc(x), imageData.width)
    requires [y0, y1, y2, y3] == Taps(Trunc(y), imageData.height)
    ensures newVal == BicubicChannel(imageData.Snapshot(), x, y, offset)
  {
    ReadAgrees(imageData, x0, y0, offset);
    ReadAgrees(imageData, x0, y1, offset);
    ReadAgrees(imageData, x0, y2, offset);
    ReadAgrees(imageData, x0, y3, offset);
    ReadAgrees(imageData, x1, y0, offset);
    ReadAgrees(imageData, x1, y1, offset);
    ReadAgrees(imageData, x1, y2, offset);
    ReadAgrees(imageData, x1, y3, offset);
    ReadAgrees(imageData, x2, y0, offset);
    ReadAgrees(imageData, x2, y1, offset);
    ReadAgrees(imageData, x2, y2, offset);
    ReadAgrees(imageData, x2, y3, offset);
    ReadAgrees(imageData, x3, y0, offset);
    ReadAgrees(imageData, x3, y1, offset);
    ReadAgrees(imageData, x3, y2, offset);
    ReadAgrees(imageData, x3, y3, offset);
    newVal := Bicubic(ModOne(x), ModOne(y),
      imageData.data[(y0 * imageData.width + x0) * 4 + offset],
      imageData.data[(y1 * imageData.width + x0) * 4 + offset],
      imageData.data[(y2 * imageData.width + x0) * 4 + offset],
      imageData.data[(y3 * imageData.width + x0) * 4 + offset],
      imageData.data[(y0 * imageData.width + x1) * 4 + offset],
      imageData.data[(y1 * imageData.width + x1) * 4 + offset],
      imageData.data[(y2 * imageData.width + x1) * 4 + offset],
      imageData.data[(y3 * imageData.width + x1) * 4 + offset],
      imageData.data[(y0 * imageData.width + x2) * 4 + offset],
      imageData.data[(y1 * imageData.width + x2) * 4 + offset],
      imageData.data[(y2 * imageData.width + x2) * 4 + offset],
      imageData.data[(y3 * imageData.width + x2) * 4 + offset],
      imageData.data[(y0 * imageData.width + x3) * 4 + offset],
      imageData.data[(y1 * imageData.width + x3) * 4 + offset],
      imageData.data[(y2 * imageData.width + x3) * 4 + offset],
      imageData.data[(y3 * imageData.width + x3) * 4 + offset]);
  }

  /** At an integer source coordinate the patch is evaluated at (0, 0), so
      the sample is the source pixel itself. */
  lemma BicubicAtSample(src: Raster, x: int, y: int)
    requires src.WellFormed() && 0 <= x < src.width && 0 <= y < src.height
    ensures BicubicPixel(src, x as real, y as real) == src.PixelAt(x, y)
  {
    TruncOfInt(x);
    TruncOfInt(y);
  }

  /** A source whose channel k is c everywhere yields c in channel k at
      every coordinate: clamping only ever reads more copies of c. */
  lemma BicubicUniform(src: Raster, x: real, y: real, k: int, c: real)
    requires src.WellFormed() && 0 <= k < 4 && src.Uniform(k, c)
    requires 0.0 <= x < src.width as real && 0.0 <= y < src.height as real
    ensures BicubicPixel(src, x, y)[k] == c
  {
    var xs := Taps(Trunc(x), src.width);
    var ys := Taps(Trunc(y), src.height);
    forall i, j | 0 <= i < 4 && 0 <= j < 4
      ensures src.Channel(xs[i], ys[j], k) == c
    {
    }
    BicubicFlat(ModOne(x), ModOne(y), c);
    assert BicubicPixel(src, x, y)[k] == BicubicChannel(src, x, y, k);
  }

  /** The destination pixel (dx, dy) of a dw x dh resize. */
  function DestPixel(src: Raster, dw: nat, dh: nat, dx: int, dy: int): Pixel
    requires src.WellFormed() && src.width > 0 && src.height > 0
    requires 0 <= dx < dw && 0 <= dy < dh
  {
    BicubicPixel(src, MapCoord(dx, src.width, dw), MapCoord(dy, src.height, dh))
  }

  /** The destination pixels of a dw x dh resize, row-major. */
  function DestPixels(src: Raster, dw: nat, dh: nat): (ps: seq<Pixel>)
    requires src.WellFormed() && src.width > 0 && src.height > 0
    ensures |ps| == dw * dh
  {
    Tabulate(p requires 0 <= p < dw * dh =>
               RowMajorBounds(p, dw, dh);
               DestPixel(src, dw, dh, p % dw, p / dw),
             0, dw * dh)
  }

  /** Destination pixel (dx, dy) is pixel number dy * dw + dx of the list. */
  lemma DestPixelsAt(src: Raster, dw: nat, dh: nat, dx: int, dy: int)
    requires src.WellFormed() && src.width > 0 && src.height > 0
    requires 0 <= dx < dw && 0 <= dy < dh
    ensures |DestPixels(src, dw, dh)| == dw * dh
    ensures 0 <= dy * dw + dx < dw * dh
    ensures DestPixels(src, dw, dh)[dy * dw + dx] == DestPixel(src, dw, dh, dx, dy)
  {
    OffsetInBounds(dw, dh, dx, dy, 0);
    RowMajor(dx, dy, dw);
    TabulateAt(p requires 0 <= p < dw * dh =>
                 RowMajorBounds(p, dw, dh);
                 DestPixel(src, dw, dh, p % dw, p / dw),
               0, dw * dh, dy * dw + dx);
  }

  /** A destination pixel whose mapped coordinate is a whole number is a
      copy of that source pixel. */
  lemma DestPixelAtSample(src: Raster, dw: nat, dh: nat, dx: nat, dy: nat)
    requires src.WellFormed() && src.width > 0 && src.height > 0
    requires dx < dw && dy < dh
    requires (dx * src.width) % dw == 0 && (dy * src.height) % dh == 0
    ensures 0 <= (dx * src.width) / dw < src.width && 0 <= (dy * src.height) / dh < src.height
    ensures DestPixel(src, dw, dh, dx, dy) == src.PixelAt((dx * src.width) / dw, (dy * src.height) / dh)
  {
    MapCoordExact(dx, src.width, dw);
    MapCoordExact(dy, src.height, dh);
    var sx, sy := (dx * src.width) / dw, (dy * src.height) / dh;
    assert MapCoord(dx, src.width, dw) == sx as real;
    assert MapCoord(dy, src.height, dh) == sy as real;
    BicubicAtSample(src, sx, sy);
  }

  /** Enlarging a 2x2 source to 4x4 reproduces each source pixel at the
      destination pixels (0,0), (2,0), (0,2) and (2,2). */
  lemma DoublingKeepsSamples(src: Raster)
    requires src.WellFormed() && src.width == 2 && src.height == 2
    ensures forall i, j :: 0 <= i < 2 && 0 <= j < 2 ==>
      DestPixel(src, 4, 4, 2 * i, 2 * j) == src.PixelAt(i, j)
  {
    forall i, j | 0 <= i < 2 && 0 <= j < 2
      ensures DestPixel(src, 4, 4, 2 * i, 2 * j) == src.PixelAt(i, j)
    {
      assert (2 * i * 2) % 4 == 0 && (2 * i * 2) / 4 == i;
      assert (2 * j * 2) % 4 == 0 && (2 * j * 2) / 4 == j;
      DestPixelAtSample(src, 4, 4, 2 * i, 2 * j);
    }
  }

  /** A resize to the size the source already has leaves every channel
      value in place: each destination pixel maps onto a whole source
      coordinate, where the patch takes the sampled value. */
  lemma SameSizeIsCopy(src: Raster)
    requires src.WellFormed() && src.width > 0 && src.height > 0
    ensures Interleave(DestPixels(src, src.width, src.height)) == src.data
  {
    SameSizeEach(src);
    InterleaveRaster(src, DestPixels(src, src.width, src.height));
  }

  /** At the source's own size, the list holds the source's pixels. */
  lemma SameSizeEach(src: Raster)
    requires src.WellFormed() && src.width > 0 && src.height > 0
    ensures Lists(src, DestPixels(src, src.width, src.height))
  {
    forall x, y | 0 <= x < src.width && 0 <= y < src.height
      ensures ListsAt(src, DestPixels(src, src.width, src.height), x, y)
    {
      SameSizePixel(src, x, y);
    }
  }

  /** At the source's own size, destination pixel (x, y) is source pixel
      (x, y). */
  lemma SameSizePixel(src: Raster, x: int, y: int)
    requires src.WellFormed() && 0 <= x < src.width && 0 <= y < src.height
    ensures ListsAt(src, DestPixels(src, src.width, src.height), x, y)
  {
    DestPixelsAt(src, src.width, src.height, x, y);
    WholeMultiple(x, src.width);
    WholeMultiple(y, src.height);
    DestPixelAtSample(src, src.width, src.height, x, y);
  }

  /** Resizing a source whose channel k is c everywhere gives c in channel k
      of every destination pixel, at the borders too. */
  lemma UniformImage(src: Raster, dw: nat, dh: nat, k: int, c: real)
    requires src.WellFormed() && src.width > 0 && src.height > 0
    requires 0 <= k < 4 && src.Uniform(k, c)
    ensures forall dx, dy :: 0 <= dx < dw && 0 <= dy < dh ==> DestPixel(src, dw, dh, dx, dy)[k] == c
  {
    forall dx, dy | 0 <= dx < dw && 0 <= dy < dh
      ensures DestPixel(src, dw, dh, dx, dy)[k] == c
    {
      BicubicUniform(src, MapCoord(dx, src.width, dw), MapCoord(dy, src.height, dh), k, c);
    }
  }

  /** The inner copy loop: row y of the destination, whose first pixel is
      pixel number n of the row-major list `ps`. */
  method CopyRow(source: ImageData, dest: ImageData, y: int,
                 ghost src: Raster, ghost ps: seq<Pixel>, ghost n: int)
    requires source.WellFormed() && dest.WellFormed()
    requires source.width > 0 && source.height > 0
    requires source.data != dest.data
    requires 0 <= y < dest.height && n == y * dest.width
    requires src == source.Snapshot() && ps == DestPixels(src, dest.width, dest.height)
    requires Written(dest.data[..], ps, n)
    modifies dest.data
    ensures Written(dest.data[..], ps, n + dest.width)
    ensures Kept(dest.data[..], old(dest.data[..]), 4 * (n + dest.width))
  {
    ghost var m := n;
    var x := 0;
    while x < dest.width
      invariant 0 <= x <= dest.width && m == n + x
      invariant Written(dest.data[..], ps, m)
      invariant Kept(dest.data[..], old(dest.data[..]), 4 * m)
    {
      ghost var before := dest.data[..];
      CopyPixel(source, dest, x, y, src, ps, m);
      KeptTrans(dest.data[..], before, old(dest.data[..]), 4 * (m + 1), 4 * m);
      m := m + 1;
      x := x + 1;
    }
  }

  /** One iteration of the copy loop: destination pixel (x, y), pixel number
      n of the row-major list, is sampled and stored right after the n
      pixels already written. */
  method CopyPixel(source: ImageData, dest: ImageData, x: int, y: int,
                   ghost src: Raster, ghost ps: seq<Pixel>, ghost n: int)
    requires source.WellFormed() && dest.WellFormed()
    requires source.width > 0 && source.height > 0
    requires source.data != dest.data
    requires 0 <= x < dest.width && 0 <= y < dest.height && n == y * dest.width + x
    requires src == source.Snapshot() && ps == DestPixels(src, dest.width, dest.height)
    requires Written(dest.data[..], ps, n)
    modifies dest.data
    ensures Written(dest.data[..], ps, n + 1)
    ensures Kept(dest.data[..], old(dest.data[..]), 4 * (n + 1))
  {
    var i := (y * dest.width + x) * 4;
    var newPixel := GetPixel(source,
                             MapCoord(x, source.width, dest.width),
                             MapCoord(y, source.height, dest.height));
    DestPixelsAt(src, dest.width, dest.height, x, y);
    OffsetInBounds(dest.width, dest.height, x, y, 3);
    assert newPixel == ps[n] && i == 4 * n;
    ghost var before := dest.data[..];
    StorePixel(dest.data, i, newPixel);
    WrittenNext(before, dest.data[..], ps, n);
  }

  /** `copyBicubic`: every destination pixel, row by row, is the bicubic
      sample at its mapped source coordinate. Every element of the
      destination buffer is written, no index falls outside it, the source
      is not modified, and the destination object itself is returned. */
  method CopyBicubic(source: ImageData, dest: ImageData) returns (result: ImageData)
    requires source.WellFormed() && dest.WellFormed()
    requires source.width > 0 && source.height > 0
    requires source.data != dest.data
    modifies dest.data
    ensures result == dest
    ensures unchanged(source.data)
    ensures dest.data[..] == Interleave(DestPixels(source.Snapshot(), dest.width, dest.height))
  {
    ghost var src := source.Snapshot();
    ghost var ps := DestPixels(src, dest.width, dest.height);
    ghost var n := 0;
    WrittenNone(dest.data[..], ps);
    var y := 0;
    while y < dest.height
      invariant 0 <= y <= dest.height && n == y * dest.width
      invariant Written(dest.data[..], ps, n)
    {
      CopyRow(source, dest, y, src, ps, n);
      NextRow(y, dest.width, n);
      n := n + dest.width;
      y := y + 1;
    }
    WrittenRows(dest.data[..], ps, dest.width, dest.height, n);
    return dest;
  }
}
