/** The bilinear sampler: each destination pixel blends the 2 x 2
    neighbourhood of its mapped source coordinate, first along x, then
    along y. Neighbours outside the source are not clamped: they read as a
    fixed transparent mid-grey. */
module Bilinear {
  import opened Pixels

  /** What an out-of-range neighbour reads as. */
  const Sentinel: Pixel := [128.0, 128.0, 128.0, 0.0]

  /** `getPixel`: the pixel at the integer coordinate (x, y), or the
      sentinel outside the buffer. The height is not read from the image but
      derived as `data.length / 4 / width`; for a buffer without columns that
      quotient is not a number and every coordinate counts as outside. */
  function GetPixel(src: Raster, x: int, y: int): (p: Pixel)
    requires src.WellFormed()
    ensures !(0 <= x < src.width && 0 <= y < src.height) ==> p == Sentinel
    ensures 0 <= x < src.width && 0 <= y < src.height ==> p == src.PixelAt(x, y)
  {
    if src.width == 0 then Sentinel
    else
      var height := (|src.data| as real / 4.0) / src.width as real;
      DerivedHeight(src);
      if x < 0 || x >= src.width || (y as real) < 0.0 || y as real >= height then Sentinel
      else
        OffsetInBounds(src.width, src.height, x, y, 3);
        var idx := (y * src.width + x) * 4;
        [src.data[idx], src.data[idx + 1], src.data[idx + 2], src.data[idx + 3]]
  }

  /** For a well-formed buffer with columns, `data.length / 4 / width` is
      its height. */
  lemma DerivedHeight(src: Raster)
    requires src.WellFormed() && src.width > 0
    ensures (|src.data| as real / 4.0) / src.width as real == src.height as real
  {
    assert |src.data| == src.height * src.width * 4;
    RealOfProduct(src.height * src.width, 4);
    RealOfProduct(src.height, src.width);
    assert |src.data| as real / 4.0 == src.height as real * src.width as real;
  }

  /** `mix`: the linear blend of n and m at i. It starts at n and ends at
      m, and blending a value with itself gives that value. */
  function Mix(n: real, m: real, i: real): (r: real)
    ensures i == 0.0 ==> r == n
    ensures i == 1.0 ==> r == m
    ensures n == m ==> r == n
  {
    assert (1.0 - i) * n + i * n == n;
    (1.0 - i) * n + i * m
  }

  /** For a blend factor in [0, 1], the blend lies between n and m. */
  lemma MixBetween(n: real, m: real, i: real, lo: real, hi: real)
    requires 0.0 <= i <= 1.0 && lo <= n <= hi && lo <= m <= hi
    ensures lo <= Mix(n, m, i) <= hi
  {
    assert Mix(n, m, i) - lo == (1.0 - i) * (n - lo) + i * (m - lo);
    assert hi - Mix(n, m, i) == (1.0 - i) * (hi - n) + i * (hi - m);
    ProductNonNegative(1.0 - i, n - lo);
    ProductNonNegative(i, m - lo);
    ProductNonNegative(1.0 - i, hi - n);
    ProductNonNegative(i, hi - m);
  }

  /** A product of non-negative numbers is non-negative. */
  lemma ProductNonNegative(a: real, b: real)
    requires a >= 0.0 && b >= 0.0
    ensures a * b >= 0.0
  {
  }

  /** `int`: the channel-wise blend of two pixels. Like `mix`, it starts
      at n, ends at m, and leaves a pixel blended with itself unchanged. */
  function MixPixel(n: Pixel, m: Pixel, i: real): (p: Pixel)
    ensures forall k :: 0 <= k < 4 ==> p[k] == Mix(n[k], m[k], i)
    ensures i == 0.0 ==> p == n
    ensures i == 1.0 ==> p == m
    ensures n == m ==> p == n
  {
    [Mix(n[0], m[0], i), Mix(n[1], m[1], i), Mix(n[2], m[2], i), Mix(n[3], m[3], i)]
  }

  /** `getPixelBi`: at a whole-numbered coordinate the pixel there; anywhere
      else the blend of the four neighbours (fx, fy), (fx + 1, fy),
      (fx, fy + 1), (fx + 1, fy + 1), by the fractional parts of x and y.
      A whole coordinate reads the source pixel, or the sentinel outside the
      source; four identical neighbours blend to that pixel. */
  function GetPixelBi(src: Raster, x: real, y: real): (p: Pixel)
    requires src.WellFormed()
    ensures var fx, fy := Trunc(x), Trunc(y);
            fx as real == x && fy as real == y ==>
              p == (if 0 <= fx < src.width && 0 <= fy < src.height then src.PixelAt(fx, fy) else Sentinel)
    ensures var fx, fy := Trunc(x), Trunc(y);
            (GetPixel(src, fx + 1, fy) == GetPixel(src, fx, fy) &&
             GetPixel(src, fx, fy + 1) == GetPixel(src, fx, fy) &&
             GetPixel(src, fx + 1, fy + 1) == GetPixel(src, fx, fy)) ==> p == GetPixel(src, fx, fy)
  {
    var fx := Trunc(x);
    var fy := Trunc(y);
    if fx as real == x && fy as real == y then GetPixel(src, fx, fy)
    else
      MixPixel(MixPixel(GetPixel(src, fx, fy), GetPixel(src, fx + 1, fy), ModOne(x)),
               MixPixel(GetPixel(src, fx, fy + 1), GetPixel(src, fx + 1, fy + 1), ModOne(x)),
               ModOne(y))
  }

  /** A whole-numbered coordinate inside the source reads the source pixel
      unchanged; one outside reads exactly the sentinel. */
  lemma BiAtSample(src: Raster, x: int, y: int)
    requires src.WellFormed()
    ensures 0 <= x < src.width && 0 <= y < src.height ==>
      GetPixelBi(src, x as real, y as real) == src.PixelAt(x, y)
    ensures !(0 <= x < src.width && 0 <= y < src.height) ==>
      GetPixelBi(src, x as real, y as real) == Sentinel
  {
    TruncOfInt(x);
    TruncOfInt(y);
  }

  /** At a non-negative coordinate, channel k of the sample lies between
      any bounds of channel k of its four neighbours. */
  lemma BiWithin(src: Raster, x: real, y: real, k: int, lo: real, hi: real)
    requires src.WellFormed() && 0.0 <= x && 0.0 <= y && 0 <= k < 4
    requires var fx, fy := Trunc(x), Trunc(y);
             lo <= GetPixel(src, fx, fy)[k] <= hi && lo <= GetPixel(src, fx + 1, fy)[k] <= hi &&
             lo <= GetPixel(src, fx, fy + 1)[k] <= hi && lo <= GetPixel(src, fx + 1, fy + 1)[k] <= hi
    ensures lo <= GetPixelBi(src, x, y)[k] <= hi
  {
    var fx, fy := Trunc(x), Trunc(y);
    if !(fx as real == x && fy as real == y) {
      var top := MixPixel(GetPixel(src, fx, fy), GetPixel(src, fx + 1, fy), ModOne(x));
      var bottom := MixPixel(GetPixel(src, fx, fy + 1), GetPixel(src, fx + 1, fy + 1), ModOne(x));
      MixBetween(GetPixel(src, fx, fy)[k], GetPixel(src, fx + 1, fy)[k], ModOne(x), lo, hi);
      MixBetween(GetPixel(src, fx, fy + 1)[k], GetPixel(src, fx + 1, fy + 1)[k], ModOne(x), lo, hi);
      MixBetween(top[k], bottom[k], ModOne(y), lo, hi);
    }
  }

  /** Away from the right and bottom edges, a source of one colour in
      channel k samples to that colour. */
  lemma BiUniformInterior(src: Raster, x: real, y: real, k: int, c: real)
    requires src.WellFormed() && 0 <= k < 4 && src.Uniform(k, c)
    requires 0.0 <= x && Trunc(x) + 1 < src.width && 0.0 <= y && Trunc(y) + 1 < src.height
    ensures GetPixelBi(src, x, y)[k] == c
  {
    var fx, fy := Trunc(x), Trunc(y);
    assert src.PixelAt(fx, fy)[k] == src.Channel(fx, fy, k);
    assert src.PixelAt(fx + 1, fy)[k] == src.Channel(fx + 1, fy, k);
    assert src.PixelAt(fx, fy + 1)[k] == src.Channel(fx, fy + 1, k);
    assert src.PixelAt(fx + 1, fy + 1)[k] == src.Channel(fx + 1, fy + 1, k);
    BiWithin(src, x, y, k, c, c);
  }

  /** The destination pixel (dx, dy) of a dw x dh resize. */
  function DestPixel(src: Raster, dw: nat, dh: nat, dx: int, dy: int): Pixel
    requires src.WellFormed() && 0 <= dx < dw && 0 <= dy < dh
  {
    GetPixelBi(src, MapCoord(dx, src.width, dw), MapCoord(dy, src.height, dh))
  }

  /** At the right edge the out-of-range neighbour is blended in: a 2 x 1
      source that is black and transparent everywhere, sampled at x = 4/3
      (destination pixel (2, 0) of a 3 x 1 copy), gives red 128/3 rather
      than 0. */
  lemma EdgeBlendsSentinel(src: Raster)
    requires src.WellFormed() && src.width == 2 && src.height == 1
    requires src.data == [0.0, 0.0, 0.0, 0.0, 0.0, 0.0, 0.0, 0.0]
    ensures GetPixelBi(src, 4.0 / 3.0, 0.0)[0] == 128.0 / 3.0
    ensures DestPixel(src, 3, 1, 2, 0)[0] == 128.0 / 3.0
  {
    assert MapCoord(2, 2, 3) == 4.0 / 3.0 && MapCoord(0, 1, 1) == 0.0;
    assert Trunc(4.0 / 3.0) == 1 && Trunc(0.0) == 0;
    assert ModOne(4.0 / 3.0) == 1.0 / 3.0 && ModOne(0.0) == 0.0;
    assert GetPixel(src, 1, 0) == src.PixelAt(1, 0) == [0.0, 0.0, 0.0, 0.0];
    assert GetPixel(src, 2, 0) == Sentinel && GetPixel(src, 1, 1) == Sentinel;
    assert GetPixel(src, 2, 1) == Sentinel;
    var top := MixPixel(GetPixel(src, 1, 0), GetPixel(src, 2, 0), 1.0 / 3.0);
    assert top[0] == 128.0 / 3.0;
  }

  /** The destination pixels of a dw x dh resize, row-major. */
  function DestPixels(src: Raster, dw: nat, dh: nat): (ps: seq<Pixel>)
    requires src.WellFormed()
    ensures |ps| == dw * dh
  {
    Tabulate(p requires 0 <= p < dw * dh =>
               RowMajorBounds(p, dw, dh);
               DestPixel(src, dw, dh, p % dw, p / dw),
             0, dw * dh)
  }

  /** Destination pixel (dx, dy) is pixel number dy * dw + dx of the list. */
  lemma DestPixelsAt(src: Raster, dw: nat, dh: nat, dx: int, dy: int)
    requires src.WellFormed() && 0 <= dx < dw && 0 <= dy < dh
    ensures 0 <= dy * dw + dx < dw * dh
    ensures DestPixels(src, dw, dh)[dy * dw + dx] == DestPixel(src, dw, dh, dx, dy)
  {
    OffsetInBounds(dw, dh, dx, dy, 0);
    RowMajor(dx, dy, dw);
    TabulateAt(p requires 0 <= p < dw * dh =>
                 RowMajorBounds(p, dw, dh);
                 DestPixel(src, dw, dh, p % dw, p / dw),
               0, dw * dh, dy * dw + dx);
  }

  /** A copy to the size the source already has leaves every channel value
      in place: every mapped coordinate is a whole number inside the source,
      where no blending happens. */
  lemma SameSizeIsCopy(src: Raster)
    requires src.WellFormed()
    ensures Interleave(DestPixels(src, src.width, src.height)) == src.data
  {
    SameSizeEach(src);
    InterleaveRaster(src, DestPixels(src, src.width, src.height));
  }

  /** At the source's own size, the list holds the source's pixels. */
  lemma SameSizeEach(src: Raster)
    requires src.WellFormed()
    ensures Lists(src, DestPixels(src, src.width, src.height))
  {
    forall x, y | 0 <= x < src.width && 0 <= y < src.height
      ensures ListsAt(src, DestPixels(src, src.width, src.height), x, y)
    {
      SameSizePixel(src, x, y);
    }
  }

  /** At the source's own size, destination pixel (x, y) is source pixel
      (x, y). */
  lemma SameSizePixel(src: Raster, x: int, y: int)
    requires src.WellFormed() && 0 <= x < src.width && 0 <= y < src.height
    ensures ListsAt(src, DestPixels(src, src.width, src.height), x, y)
  {
    DestPixelsAt(src, src.width, src.height, x, y);
    WholeMultiple(x, src.width);
    WholeMultiple(y, src.height);
    MapCoordExact(x, src.width, src.width);
    MapCoordExact(y, src.height, src.height);
    BiAtSample(src, x, y);
  }

  /** The inner copy loop: row y of the destination, whose first pixel is
      pixel number n of the row-major list `ps`. */
  method CopyRow(src: Raster, dest: ImageData, y: int, ghost ps: seq<Pixel>, ghost n: int)
    requires src.WellFormed() && dest.WellFormed()
    requires 0 <= y < dest.height && n == y * dest.width
    requires ps == DestPixels(src, dest.width, dest.height)
    requires Written(dest.data[..], ps, n)
    modifies dest.data
    ensures Written(dest.data[..], ps, n + dest.width)
    ensures Kept(dest.data[..], old(dest.data[..]), 4 * (n + dest.width))
  {
    ghost var m := n;
    var x := 0;
    while x < dest.width
      invariant 0 <= x <= dest.width && m == n + x
      invariant Written(dest.data[..], ps, m)
      invariant Kept(dest.data[..], old(dest.data[..]), 4 * m)
    {
      ghost var before := dest.data[..];
      CopyPixel(src, dest, x, y, ps, m);
      KeptTrans(dest.data[..], before, old(dest.data[..]), 4 * (m + 1), 4 * m);
      m := m + 1;
      x := x + 1;
    }
  }

  /** One iteration of the copy loop: destination pixel (x, y), pixel number
      n of the row-major list, is sampled and stored right after the n
      pixels already written. */
  method CopyPixel(src: Raster, dest: ImageData, x: int, y: int, ghost ps: seq<Pixel>, ghost n: int)
    requires src.WellFormed() && dest.WellFormed()
    requires 0 <= x < dest.width && 0 <= y < dest.height && n == y * dest.width + x
    requires ps == DestPixels(src, dest.width, dest.height)
    requires Written(dest.data[..], ps, n)
    modifies dest.data
    ensures Written(dest.data[..], ps, n + 1)
    ensures Kept(dest.data[..], old(dest.data[..]), 4 * (n + 1))
  {
    var i := (y * dest.width + x) * 4;
    var newPixel := GetPixelBi(src, MapCoord(x, src.width, dest.width),
                               MapCoord(y, src.height, dest.height));
    DestPixelsAt(src, dest.width, dest.height, x, y);
    OffsetInBounds(dest.width, dest.height, x, y, 3);
    assert newPixel == ps[n] && i == 4 * n;
    ghost var before := dest.data[..];
    StorePixel(dest.data, i, newPixel);
    WrittenNext(before, dest.data[..], ps, n);
  }

  /** The outer copy loop: every row of the destination, top to bottom. */
  method CopyRows(src: Raster, dest: ImageData)
    requires src.WellFormed() && dest.WellFormed()
    modifies dest.data
    ensures dest.data[..] == Interleave(DestPixels(src, dest.width, dest.height))
  {
    ghost var ps := DestPixels(src, dest.width, dest.height);
    ghost var n := 0;
    WrittenNone(dest.data[..], ps);
    var y := 0;
    while y < dest.height
      invariant 0 <= y <= dest.height && n == y * dest.width
      invariant Written(dest.data[..], ps, n)
    {
      CopyRow(src, dest, y, ps, n);
      NextRow(y, dest.width, n);
      n := n + dest.width;
      y := y + 1;
    }
    WrittenRows(dest.data[..], ps, dest.width, dest.height, n);
  }

  /** `copyBilinear`: every destination pixel, row by row, is the bilinear
      sample at its mapped source coordinate. Every element of the
      destination buffer is written, the source is not modified, and the
      destination object itself is returned. The sampler reads the source
      through its value, taken once: nothing writes the source meanwhile. */
  method CopyBilinear(source: ImageData, dest: ImageData) returns (result: ImageData)
    requires source.WellFormed() && dest.WellFormed() && source.data != dest.data
    modifies dest.data
    ensures result == dest
    ensures unchanged(source.data)
    ensures dest.data[..] == Interleave(DestPixels(source.Snapshot(), dest.width, dest.height))
  {
    var src := source.Snapshot();
    CopyRows(src, dest);
    return dest;
  }
}
