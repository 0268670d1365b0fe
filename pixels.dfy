/** Pixel buffers as the resampling routines see them: four interleaved
    channels (R, G, B, A) per pixel, stored row-major. Also the numeric
    helpers that stand for JavaScript's `|0` truncation and `% 1`, and the
    mapping from a destination coordinate to a source coordinate. */
module Pixels {

  /** One colour sample, channels in the order R, G, B, A. Channels are
      reals: samplers produce fractional and out-of-range values, and the
      conversion the browser performs when a value is stored into a pixel
      array is not part of the model. */
  type Pixel = p: seq<real> | |p| == 4 witness [0.0, 0.0, 0.0, 0.0]

  /** The value of a pixel buffer: its dimensions and its channel values. */
  datatype Raster = Raster(width: nat, height: nat, data: seq<real>) {

    /** The buffer holds exactly width * height pixels of four channels. */
    predicate WellFormed() {
      |data| == width * height * 4
    }

    /** Channel k of the pixel at (x, y). */
    function Channel(x: int, y: int, k: int): real
      requires WellFormed() && 0 <= x < width && 0 <= y < height && 0 <= k < 4
    {
      OffsetInBounds(width, height, x, y, k);
      data[(y * width + x) * 4 + k]
    }

    /** The four channels of the pixel at (x, y). */
    function PixelAt(x: int, y: int): Pixel
      requires WellFormed() && 0 <= x < width && 0 <= y < height
    {
      [Channel(x, y, 0), Channel(x, y, 1), Channel(x, y, 2), Channel(x, y, 3)]
    }

    /** Every pixel of the buffer has channel k equal to c. */
    predicate Uniform(k: int, c: real)
      requires WellFormed() && 0 <= k < 4
    {
      forall x, y :: 0 <= x < width && 0 <= y < height ==> Channel(x, y, k) == c
    }
  }

  /** An image object: the fields are never reassigned, only the elements
      of `data` are overwritten, and only in a destination buffer. */
  class ImageData {
    const width: nat
    const height: nat
    const data: array<real>

    constructor (width: nat, height: nat, data: array<real>)
      ensures this.width == width && this.height == height && this.data == data
    {
      this.width := width;
      this.height := height;
      this.data := data;
    }

    predicate WellFormed() {
      data.Length == width * height * 4
    }

    /** The current contents of the object as a value. */
    function Snapshot(): Raster
      reads data
    {
      Raster(width, height, data[..])
    }
  }

  /** The four channels of pixel (x, y) start at (y * w + x) * 4, and all of
      them lie inside a buffer of w * h pixels. */
  lemma OffsetInBounds(w: nat, h: nat, x: int, y: int, k: int)
    requires 0 <= x < w && 0 <= y < h && 0 <= k < 4
    ensures 0 <= y * w + x < w * h
    ensures 0 <= (y * w + x) * 4 + k < w * h * 4
  {
    assert y * w <= (h - 1) * w by {
      assert (h - 1) * w - y * w == (h - 1 - y) * w;
    }
    assert (h - 1) * w + w == w * h;
  }

  /** Row-major order is a bijection: pixel number y * w + x is in row y and
      column x. */
  lemma {:induction false} RowMajor(x: int, y: int, w: int)
    requires 0 <= x < w && 0 <= y
    ensures (y * w + x) / w == y
    ensures (y * w + x) % w == x
  {
    var n := y * w + x;
    var q, r := n / w, n % w;
    assert n == q * w + r && 0 <= r < w;
    assert (q - y) * w == x - r;
    ScaledBounds(q - y, w);
  }

  /** Pixel number p of a w x h buffer is in column p % w and row p / w. */
  lemma RowMajorBounds(p: int, w: nat, h: nat)
    requires 0 <= p < w * h
    ensures 0 <= p % w < w && 0 <= p / w < h
  {
    var y := p / w;
    assert p == y * w + p % w;
    ScaledBounds(y - h + 1, w);
    assert (y - h + 1) * w == y * w - h * w + w;
  }

  /** A non-zero multiple of w is at least w away from 0. */
  lemma ScaledBounds(a: int, w: int)
    requires w > 0
    ensures a >= 1 ==> a * w >= w
    ensures a <= -1 ==> a * w <= -w
  {
    assert a * w - w == (a - 1) * w;
    assert a * w + w == (a + 1) * w;
  }

  /** The pixels, listed row-major, written out channel by channel: this is
      the layout the copy loops produce, one pixel after the other. */
  function Interleave(pixels: seq<Pixel>): (out: seq<real>)
    ensures |out| == 4 * |pixels|
  {
    if pixels == [] then [] else Interleave(pixels[..|pixels| - 1]) + pixels[|pixels| - 1]
  }

  /** Pixel number p of the list occupies elements 4p to 4p+3. */
  lemma {:induction false} InterleaveBlock(pixels: seq<Pixel>, p: int)
    requires 0 <= p < |pixels|
    ensures Interleave(pixels)[4 * p..4 * p + 4] == pixels[p]
  {
    var n := |pixels| - 1;
    var front := pixels[..n];
    assert Interleave(pixels) == Interleave(front) + pixels[n];
    if p < n {
      InterleaveBlock(front, p);
      assert Interleave(pixels)[4 * p..4 * p + 4] == Interleave(front)[4 * p..4 * p + 4];
    } else {
      assert Interleave(pixels)[4 * p..4 * p + 4] == pixels[n];
    }
  }

  /** Element i of the interleaved buffer is channel i % 4 of pixel i / 4. */
  lemma InterleaveIndex(pixels: seq<Pixel>, i: int)
    requires 0 <= i < 4 * |pixels|
    ensures 0 <= i / 4 < |pixels|
    ensures Interleave(pixels)[i] == pixels[i / 4][i % 4]
  {
    var p := i / 4;
    InterleaveBlock(pixels, p);
    assert Interleave(pixels)[i] == Interleave(pixels)[4 * p..4 * p + 4][i - 4 * p];
  }

  /** The row-major list holds, at number y * w + x, the pixel (x, y) of
      the buffer. */
  predicate Lists(src: Raster, pixels: seq<Pixel>)
    requires src.WellFormed()
  {
    |pixels| == src.width * src.height &&
    forall x, y :: 0 <= x < src.width && 0 <= y < src.height ==> ListsAt(src, pixels, x, y)
  }

  /** Number y * w + x of the list is the pixel (x, y) of the buffer. */
  predicate ListsAt(src: Raster, pixels: seq<Pixel>, x: int, y: int)
    requires src.WellFormed() && 0 <= x < src.width && 0 <= y < src.height
  {
    y * src.width + x < |pixels| && pixels[y * src.width + x] == src.PixelAt(x, y)
  }

  /** A list of the pixels of a buffer, row-major, interleaves back to that
      buffer. */
  lemma InterleaveRaster(src: Raster, pixels: seq<Pixel>)
    requires src.WellFormed() && Lists(src, pixels)
    ensures Interleave(pixels) == src.data
  {
    forall i | 0 <= i < |src.data|
      ensures Interleave(pixels)[i] == src.data[i]
    {
      var p, k := i / 4, i % 4;
      assert i == p * 4 + k;
      RowMajorBounds(p, src.width, src.height);
      var x, y := p % src.width, p / src.width;
      RowIndex(p, src.width, x, y);
      InterleaveIndex(pixels, i);
      assert ListsAt(src, pixels, x, y);
      assert pixels[p] == src.PixelAt(x, y);
      assert src.PixelAt(x, y)[k] == src.data[(y * src.width + x) * 4 + k];
    }
  }

  /** Pixel number p is in column p % w of row p / w. */
  lemma RowIndex(p: int, w: int, x: int, y: int)
    requires w > 0 && x == p % w && y == p / w
    ensures p == y * w + x
  {
  }

  /** The list f(lo), f(lo + 1), ..., f(n - 1): the pixels a copy loop
      produces, in the order it produces them. */
  function Tabulate(f: int --> Pixel, lo: int, n: int): (ps: seq<Pixel>)
    requires forall p :: lo <= p < n ==> f.requires(p)
    ensures |ps| == if lo <= n then n - lo else 0
    decreases n - lo
  {
    if n <= lo then [] else [f(lo)] + Tabulate(f, lo + 1, n)
  }

  /** Element p of the list is f(lo + p). */
  lemma {:induction false} TabulateAt(f: int --> Pixel, lo: int, n: int, p: int)
    requires forall p :: lo <= p < n ==> f.requires(p)
    requires 0 <= p < n - lo
    ensures Tabulate(f, lo, n)[p] == f(lo + p)
    decreases n - lo
  {
    if p > 0 {
      TabulateAt(f, lo + 1, n, p - 1);
    }
  }

  /** The first n pixels of the list are written, channel by channel, at
      the start of the buffer. */
  predicate Written(data: seq<real>, pixels: seq<Pixel>, n: int) {
    0 <= n <= |pixels| && 4 * n <= |data| && data[..4 * n] == Interleave(pixels[..n])
  }

  /** Nothing is written before the first pixel. */
  lemma WrittenNone(data: seq<real>, pixels: seq<Pixel>)
    ensures Written(data, pixels, 0)
  {
    assert pixels[..0] == [];
  }

  /** Storing pixel n right after the first n pixels extends what is written
      by one pixel. */
  lemma WrittenNext(before: seq<real>, after: seq<real>, pixels: seq<Pixel>, n: int)
    requires Written(before, pixels, n) && n < |pixels| && |after| == |before|
    requires 4 * n + 4 <= |after| && after[..4 * n + 4] == before[..4 * n] + pixels[n]
    ensures Written(after, pixels, n + 1)
  {
    assert pixels[..n + 1][..n] == pixels[..n];
    assert Interleave(pixels[..n + 1]) == Interleave(pixels[..n]) + pixels[n];
  }

  /** Once every pixel is written and the buffer holds nothing else, the
      buffer is the interleaved list. */
  lemma WrittenAll(data: seq<real>, pixels: seq<Pixel>)
    requires Written(data, pixels, |pixels|) && |data| == 4 * |pixels|
    ensures data == Interleave(pixels)
  {
    assert pixels[..|pixels|] == pixels;
    assert data[..4 * |pixels|] == data;
  }

  /** Row y + 1 of a w-wide image starts w pixels after row y. */
  lemma NextRow(y: int, w: int, n: int)
    requires n == y * w
    ensures n + w == (y + 1) * w
  {
  }

  /** Once all h rows of a w x h image are written and the buffer holds
      nothing else, the buffer is the interleaved list. */
  lemma WrittenRows(data: seq<real>, pixels: seq<Pixel>, w: nat, h: nat, n: int)
    requires n == h * w && |pixels| == w * h && |data| == 4 * |pixels|
    requires Written(data, pixels, n)
    ensures data == Interleave(pixels)
  {
    assert n == |pixels|;
    WrittenAll(data, pixels);
  }

  /** Every element of the buffer from index `from` on still holds what it
      held before. */
  predicate Kept(after: seq<real>, before: seq<real>, from: int) {
    |after| == |before| && forall j :: 0 <= j < |after| && from <= j ==> after[j] == before[j]
  }

  /** Keeping the elements from g on, and then those from f >= g on, keeps
      the elements from f on. */
  lemma KeptTrans(a: seq<real>, b: seq<real>, c: seq<real>, f: int, g: int)
    requires Kept(a, b, f) && Kept(b, c, g) && g <= f
    ensures Kept(a, c, f)
  {
  }

  /** Reading channel k of pixel (x, y) straight from the array agrees with
      the value view, and the index is inside the array. */
  lemma ReadAgrees(imageData: ImageData, x: int, y: int, k: int)
    requires imageData.WellFormed()
    requires 0 <= x < imageData.width && 0 <= y < imageData.height && 0 <= k < 4
    ensures 0 <= (y * imageData.width + x) * 4 + k < imageData.data.Length
    ensures imageData.data[(y * imageData.width + x) * 4 + k] == imageData.Snapshot().Channel(x, y, k)
  {
    OffsetInBounds(imageData.width, imageData.height, x, y, k);
  }

  /** The four channels read at offset idx = (y * width + x) * 4 are the
      pixel at (x, y) of the value view. */
  lemma ReadPixelAgrees(imageData: ImageData, x: int, y: int, idx: int)
    requires imageData.WellFormed()
    requires 0 <= x < imageData.width && 0 <= y < imageData.height
    requires idx == (y * imageData.width + x) * 4
    ensures 0 <= idx && idx + 4 <= imageData.data.Length
    ensures imageData.data[idx..idx + 4] == imageData.Snapshot().PixelAt(x, y)
  {
    OffsetInBounds(imageData.width, imageData.height, x, y, 3);
  }

  /** Stores the four channels of a pixel at offsets i to i + 3, so that the
      buffer up to i + 4 is what it held up to i followed by the pixel. */
  method StorePixel(data: array<real>, i: nat, pixel: Pixel)
    requires i + 4 <= data.Length
    modifies data
    ensures data[..i + 4] == old(data[..i]) + pixel
    ensures data[i + 4..] == old(data[i + 4..])
    ensures Kept(data[..], old(data[..]), i + 4)
  {
    data[i] := pixel[0];
    data[i + 1] := pixel[1];
    data[i + 2] := pixel[2];
    data[i + 3] := pixel[3];
  }

  /** JavaScript's `v | 0` for a value in the 32-bit range: drop the
      fractional part, rounding toward zero. */
  function Trunc(v: real): (t: int)
    ensures 0.0 <= v ==> 0 <= t && t as real <= v < t as real + 1.0
    ensures v < 0.0 ==> t <= 0 && t as real - 1.0 < v <= t as real
  {
    if v >= 0.0 then v.Floor else -((-v).Floor)
  }

  /** Truncation is monotone. */
  lemma TruncMonotone(u: real, v: real)
    requires u <= v
    ensures Trunc(u) <= Trunc(v)
  {
    if 0.0 <= u {
    } else if v < 0.0 {
    } else {
    }
  }

  /** An integer-valued real truncates to itself. */
  lemma TruncOfInt(n: int)
    ensures Trunc(n as real) == n
  {
  }

  /** JavaScript's `(n / d) | 0`. A zero divisor gives NaN or an infinity,
      both of which `| 0` turns into 0. */
  function JsTruncDiv(n: real, d: real): (t: int)
    ensures d == 0.0 ==> t == 0
    // for a positive divisor, t whole multiples of d reach up to n, rounding toward zero
    ensures d > 0.0 && n >= 0.0 ==> 0 <= t && t as real * d <= n < (t + 1) as real * d
    ensures d > 0.0 && n < 0.0 ==> t <= 0 && (t - 1) as real * d < n <= t as real * d
  {
    if d == 0.0 then 0
    else
      QuotientBounds(n, d);
      Trunc(n / d)
  }

  /** The truncated quotient of n by a positive d, times d, lies within d
      of n, on the side of zero. */
  lemma QuotientBounds(n: real, d: real)
    requires d != 0.0
    ensures var t := Trunc(n / d);
            (d > 0.0 && n >= 0.0 ==> 0 <= t && t as real * d <= n < (t + 1) as real * d) &&
            (d > 0.0 && n < 0.0 ==> t <= 0 && (t - 1) as real * d < n <= t as real * d)
  {
    var q := n / d;
    var t := Trunc(q);
    assert q * d == n;
    if d > 0.0 {
      ScaleBelow(q, 0.0, d);
      ScaleBelow(0.0, q, d);
      assert n >= 0.0 <==> q >= 0.0;
      ScaleBelow(t as real, q, d);
      ScaleBelow(q, (t + 1) as real, d);
      ScaleBelow((t - 1) as real, q, d);
      ScaleBelow(q, t as real, d);
      if n >= 0.0 {
        assert 0 <= t && t as real <= q < (t + 1) as real;
        assert t as real * d <= q * d;
        assert q * d < (t + 1) as real * d;
        assert n < (t + 1) as real * d;
      }
    }
  }

  /** Multiplying by a positive number keeps a strict or non-strict order. */
  lemma ScaleBelow(a: real, b: real, d: real)
    requires d > 0.0
    ensures a <= b ==> a * d <= b * d
    ensures a < b ==> a * d < b * d
  {
    assert b * d - a * d == (b - a) * d;
  }

  /** JavaScript's `v % 1`: the remainder has the sign of v. */
  function ModOne(v: real): (f: real)
    ensures 0.0 <= v ==> 0.0 <= f < 1.0
    ensures f == 0.0 <==> v == Trunc(v) as real
  {
    v - Trunc(v) as real
  }

  /** The source coordinate `d * s / dd` that destination coordinate d maps
      to, when a dimension of size s is resized to size dd. */
  function MapCoord(d: int, s: nat, dd: nat): (c: real)
    requires dd > 0
    ensures 0 <= d < dd ==> 0.0 <= c <= s as real
    ensures 0 <= d < dd && s > 0 ==> c < s as real && 0 <= Trunc(c) < s
  {
    (d as real * s as real) / dd as real
  }

  /** Where d * s is a multiple of dd, the mapped coordinate is the integer
      d * s / dd. */
  lemma MapCoordExact(d: nat, s: nat, dd: nat)
    requires dd > 0 && (d * s) % dd == 0
    ensures MapCoord(d, s, dd) == ((d * s) / dd) as real
  {
    var q := (d * s) / dd;
    assert d * s == q * dd;
    RealOfProduct(d, s);
    RealOfProduct(q, dd);
  }

  /** d * s is a multiple of s, and the quotient is d. */
  lemma WholeMultiple(d: nat, s: nat)
    requires s > 0
    ensures (d * s) % s == 0 && (d * s) / s == d
  {
    RowMajor(0, d, s);
    assert d * s + 0 == d * s;
  }

  /** Converting a product of naturals to a real multiplies the conversions. */
  lemma {:induction false} RealOfProduct(a: nat, b: nat)
    ensures (a * b) as real == a as real * b as real
  {
    if a > 0 {
      RealOfProduct(a - 1, b);
      assert a * b == (a - 1) * b + b;
    }
  }
}
