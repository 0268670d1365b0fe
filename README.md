# canvascopy: a verified model of the resampling engine

canvascopy copies the pixels of one RGBA image buffer into another buffer
of a different size. The buffer holds four interleaved channels per pixel,
stored row-major, as in an HTML canvas `ImageData`. There are three
samplers and one dispatcher:

- `copyGaussian`, an area-weighted downsampler. Each destination pixel is
  the weighted mean of the source pixels in the rectangle it covers, and
  the mean is truncated to an integer.
- `copyBicubic`. Each destination pixel is a cubic patch through a 4 x 4
  neighbourhood of source pixels, clamped to the edges.
- `copyBilinear`. Each destination pixel blends a 2 x 2 neighbourhood.
  Neighbours outside the source read as the sentinel `(128, 128, 128, 0)`.
- `copyResized`, the dispatcher. It picks the downsampler when the image
  gets narrower, and the bicubic sampler otherwise.

The model has five modules, one per file:

- `Pixels` (pixels.dfy) holds the buffer as a value (`Raster`) and as an
  object (`ImageData`, a class whose `data` is an `array<real>` that the
  copy loops overwrite). It also holds the row-major layout lemmas and
  `Interleave`, the buffer a list of pixels is written out to. Finally it
  holds the JavaScript numerics:
  - `Trunc` for `| 0`;
  - `JsTruncDiv` for `(n / d) | 0`, including `0 / 0`;
  - `ModOne` for `% 1`;
  - `MapCoord` for the mapping `d * s / dd`.
- `Gaussian` (gaussian.dfy), `Bicubic` (bicubic.dfy) and `Bilinear`
  (bilinear.dfy) each model one sampler.
  - Each per-pixel sampler is a specification function. `getGaussianPixel`
    and the bicubic `getPixel` also appear as methods with the source's
    loops, proved equal to that function.
  - Each copy loop is a method over the destination's `data` array. It is
    proved to leave the array equal to `Interleave(DestPixels(...))`: the
    destination pixels in row-major order, written channel by channel.
  - The properties of the samplers are lemmas about those functions.
- `Resize` (resize.dfy) models the dispatcher. `Resized` is the buffer
  that results. `CopyResized` is proved to produce it, and the lemmas state
  what a resize preserves.

Channel values are reals. The exponential in the Gaussian kernel is a
parameter `powE` (see "Left out").

## Model

| member | source | states |
|---|---|---|
| Pixels.Trunc | canvascopy.js:37-40 | `v \| 0` drops the fraction toward zero: the result is the whole part of v, with v's sign |
| Pixels.JsTruncDiv | canvascopy.js:53 | `(n / d) \| 0` is 0 for a zero divisor (NaN and the infinities become 0); for a positive divisor it is the count t of whole divisors in n, rounded toward zero: t · d ≤ n < (t + 1) · d when n ≥ 0, and (t − 1) · d < n ≤ t · d when n < 0 |
| Pixels.ModOne | canvascopy.js:91 | `v % 1` lies in [0, 1) for non-negative v, and is 0 exactly when v is whole |
| Pixels.MapCoord | canvascopy.js:59-61 | destination coordinate d in [0, dd) maps to a source coordinate in [0, s), whose truncation is a valid column or row |
| Pixels.MapCoordExact | canvascopy.js:59-61 | when d * s is a multiple of dd, the mapped coordinate is the whole number d * s / dd |
| Pixels.OffsetInBounds | canvascopy.js:44 | the index (y * width + x) * 4 + k of a pixel inside the image lies inside its data array |
| Pixels.RowMajor | canvascopy.js:58 | pixel number y * w + x is in row y and column x |
| Pixels.Interleave | canvascopy.js:62-65 | writing out n pixels of four channels gives 4n values |
| Pixels.InterleaveIndex | canvascopy.js:58-65 | element i of the buffer is channel i % 4 of pixel i / 4 |
| Pixels.InterleaveRaster | canvascopy.js:58-65 | a list holding each pixel (x, y) of a buffer at number y * w + x writes out to exactly that buffer |
| Pixels.WrittenNext | canvascopy.js:62-65 | storing the next pixel right after the written ones extends the written prefix by that pixel |
| Pixels.WrittenRows | canvascopy.js:56-67 | once all h rows of w pixels are written, the buffer is the interleaved list |
| Pixels.ReadAgrees | canvascopy.js:44-49 | reading `data[idx + k]` inside the image is reading channel k of pixel (x, y), with the index in bounds |
| Pixels.StorePixel | canvascopy.js:62-65 | the four stores put the pixel at i to i + 3 and leave the rest of the array unchanged |
| Gaussian.Gauss | canvascopy.js:24-26 | the kernel `(1 / (12 tuning)) * e^((u² + v²) / (2 tuning²))`, with tuning = 10, is positive whenever the exponential is |
| Gaussian.SamplingFor | canvascopy.js:15-16 | the sample sizes `source / dest`: dw destination pixels of width sampleX span the sw source columns, each is at least one column wide when the width does not grow, and a destination without columns gives 0 (likewise for rows) |
| Gaussian.Weight | canvascopy.js:45 | the weight `gauss((x - xs) / sampleX, (y - ys) / sampleY)` of a window pixel is positive whenever the exponential is |
| Gaussian.GaussSymmetric | canvascopy.js:24-26 | the weight is unchanged by negating either offset or by swapping them |
| Gaussian.WindowAt | canvascopy.js:37-40 | the gathered window `[max(x,0), min(x+sampleX,width)) x ...`, truncated, never leaves the buffer, and has columns (rows) only for a positive sample width (height) |
| Gaussian.Gather | canvascopy.js:44-50 | one inner iteration adds pixel (xs, ys), weighted, to the four channel sums and its weight to the total |
| Gaussian.GatherColumn | canvascopy.js:43-51 | the inner loop gathers all rows y0 .. y1 - 1 of column xs on top of the running sums |
| Gaussian.GetGaussianPixel | canvascopy.js:28-54 | the nested loops compute exactly the truncated weighted means of the window (`GaussianPixel`) |
| Gaussian.GaussianPixel | canvascopy.js:28-54 | a window without columns or without rows gives [0, 0, 0, 0], since `0 / 0 \| 0` is 0 |
| Gaussian.WindowTotal | canvascopy.js:41-52 | the total weight is non-negative, and positive exactly when the window has both columns and rows |
| Gaussian.WindowBounded | canvascopy.js:42-52 | if channel k of every window pixel lies in [lo, hi], the channel sum lies between lo and hi times the total weight |
| Gaussian.GaussianPixelWithin | canvascopy.js:42-53 | for a non-empty window, channel k of the result lies between the truncated least and greatest channel-k values of the window |
| Gaussian.GaussianPixelUniform | canvascopy.js:42-53 | a region of one colour samples to that colour, truncated |
| Gaussian.ShrinkAxisNonempty | canvascopy.js:15-16 | when a dimension shrinks or keeps its size, every destination coordinate's window side has at least one pixel |
| Gaussian.ShrinkUniform | canvascopy.js:56-67 | shrinking a source whose channel k is c everywhere gives Trunc(c) in channel k of every destination pixel |
| Gaussian.ShrinkGrey | canvascopy.js:56-67 | shrinking an image of one whole grey n gives [n, n, n, n] everywhere, for example a 4 x 4 grey copied to 1 x 1 |
| Gaussian.EmptyWindowPixel | canvascopy.js:37-40 | a destination pixel whose mapped column (row) truncates to the same value as the next one's comes out [0, 0, 0, 0] |
| Gaussian.TallerRowsEmpty | canvascopy.js:15-16 | a 2 x 1 image copied to 1 x 3 has its first two rows [0, 0, 0, 0], whatever the source holds |
| Gaussian.DestPixels | canvascopy.js:56-61 | the destination list has one pixel per destination pixel, dw · dh in all; Gaussian.DestPixelsAt states each one |
| Gaussian.DestPixelsAt | canvascopy.js:58-61 | pixel number y * w + x of the destination list is the sample at the mapped coordinate of (x, y) |
| Gaussian.CopyRow | canvascopy.js:57-66 | one row of the copy loop extends the written prefix of the destination by a full row of destination pixels, and leaves the later elements of the array as they were |
| Gaussian.CopyPixel | canvascopy.js:58-65 | one iteration stores destination pixel number y · w + x right after the pixels already written and leaves the later elements of the array as they were |
| Gaussian.CopyRows | canvascopy.js:56-67 | the copy loops leave the destination holding the interleaved destination pixels |
| Gaussian.CopyGaussian | canvascopy.js:14-69 | `copyGaussian` returns dest, leaves the source unchanged, and fills dest with the downsampled pixels, row-major |
| Bilinear.GetPixel | canvascopy.js:74-83 | the pixel at (x, y) inside the buffer, and the sentinel (128, 128, 128, 0) outside it, with the height derived as `data.length / 4 / width` |
| Bilinear.DerivedHeight | canvascopy.js:76 | for a well-formed buffer, `data.length / 4 / width` is its height |
| Bilinear.Mix | canvascopy.js:104-106 | `mix` gives n at 0, m at 1, and n when blending n with itself |
| Bilinear.MixBetween | canvascopy.js:104-106 | for a factor in [0, 1], the blend lies between any bounds of n and m |
| Bilinear.MixPixel | canvascopy.js:95-102 | `int` blends the pixels channel by channel with `mix`, so it gives n at 0, m at 1, and n when both pixels are equal |
| Bilinear.GetPixelBi | canvascopy.js:85-93 | at a whole coordinate the sample is the source pixel there, or the sentinel outside the source; four identical neighbours blend to that pixel at any coordinate |
| Bilinear.BiAtSample | canvascopy.js:85-93 | at a whole coordinate the sample is the source pixel inside the buffer, and exactly the sentinel outside it |
| Bilinear.BiWithin | canvascopy.js:85-93 | at a non-negative coordinate, channel k of the sample lies between any bounds of channel k of the four neighbours |
| Bilinear.BiUniformInterior | canvascopy.js:85-93 | away from the right and bottom edges, a source of one colour samples to that colour |
| Bilinear.EdgeBlendsSentinel | canvascopy.js:76-78 | a 2 x 1 black transparent source copied to 3 x 1 gives red 128/3 at pixel (2, 0): the sentinel bleeds in at the right edge |
| Bilinear.SameSizeIsCopy | canvascopy.js:108-121 | a copy to the source's own size reproduces the source buffer exactly |
| Bilinear.DestPixels | canvascopy.js:108-113 | the destination list has one pixel per destination pixel, dw · dh in all; Bilinear.DestPixelsAt states each one |
| Bilinear.DestPixelsAt | canvascopy.js:110-113 | pixel number y * w + x of the destination list is the sample at the mapped coordinate of (x, y) |
| Bilinear.CopyRow | canvascopy.js:109-118 | one row of the copy loop extends the written prefix of the destination by a full row, and leaves the later elements of the array as they were |
| Bilinear.CopyPixel | canvascopy.js:110-117 | one iteration stores destination pixel number y · w + x right after the pixels already written and leaves the later elements of the array as they were |
| Bilinear.CopyRows | canvascopy.js:108-119 | the copy loops leave the destination holding the interleaved destination pixels |
| Bilinear.CopyBilinear | canvascopy.js:72-122 | `copyBilinear` returns dest, leaves the source unchanged, and fills dest with the bilinear samples, row-major |
| Bicubic.Bicubic | canvascopy.js:165-192 | the cubic patch takes the sampled pixel's value at offset (0, 0) |
| Bicubic.BicubicCorners | canvascopy.js:165-192 | the patch also passes through the three other samples at the corners (1, 0), (0, 1) and (1, 1) of its cell |
| Bicubic.BicubicFlat | canvascopy.js:165-192 | sixteen equal samples give a flat patch of that value |
| Bicubic.Taps | canvascopy.js:135-140 | the four columns (rows) read around a valid one are clamped to the edge and lie inside the buffer |
| Bicubic.PatchValue | canvascopy.js:140-159 | the sixteen reads for one channel are in bounds and give the patch value of the clamped neighbourhood |
| Bicubic.BicubicChannel | canvascopy.js:141-159 | channel k of the sample reads a column and row inside the source, and at a whole coordinate it is channel k of the source pixel there |
| Bicubic.BicubicPixel | canvascopy.js:141-162 | at a whole coordinate the four channels are the source pixel there |
| Bicubic.GetPixel | canvascopy.js:128-163 | `getPixel` pushes one patch value per channel: the result is the function `BicubicPixel` |
| Bicubic.BicubicAtSample | canvascopy.js:128-163 | at a whole coordinate the sample is the source pixel |
| Bicubic.BicubicUniform | canvascopy.js:128-163 | a source of one colour in channel k samples to that colour everywhere, at the borders too |
| Bicubic.DestPixelAtSample | canvascopy.js:197-199 | a destination pixel whose mapped coordinate is whole copies that source pixel |
| Bicubic.DoublingKeepsSamples | canvascopy.js:194-205 | enlarging 2 x 2 to 4 x 4 reproduces each source pixel at the even destination pixels |
| Bicubic.UniformImage | canvascopy.js:194-205 | resizing a source whose channel k is c gives c in channel k of every destination pixel |
| Bicubic.SameSizeIsCopy | canvascopy.js:194-205 | a resize to the source's own size reproduces the source buffer exactly |
| Bicubic.DestPixels | canvascopy.js:194-199 | the destination list has one pixel per destination pixel, dw · dh in all; Bicubic.DestPixelsAt states each one |
| Bicubic.DestPixelsAt | canvascopy.js:196-199 | pixel number y * w + x of the destination list is the sample at the mapped coordinate of (x, y) |
| Bicubic.CopyRow | canvascopy.js:195-204 | one row of the copy loop extends the written prefix of the destination by a full row, and leaves the later elements of the array as they were |
| Bicubic.CopyPixel | canvascopy.js:196-203 | one iteration stores destination pixel number y · w + x right after the pixels already written and leaves the later elements of the array as they were |
| Bicubic.CopyBicubic | canvascopy.js:126-208 | `copyBicubic` returns dest, leaves the source unchanged, and fills dest with the bicubic samples, row-major |
| Resize.Resized | canvascopy.js:4-10 | the buffer a resize produces has width * height * 4 values |
| Resize.CopyResized | canvascopy.js:4-10 | `copyResized` returns dest, leaves the source unchanged, and fills dest with the downsampled image when the source is wider, the bicubic image otherwise |
| Resize.SameSizeIsCopy | canvascopy.js:4-10 | resizing to the source's own size reproduces the source buffer exactly |
| Resize.GreyStaysGrey | canvascopy.js:4-10 | an image of one whole grey keeps that grey at every size, unless a narrowing resize also makes it taller |
| Resize.EnlargeGreyPixel | canvascopy.js:194-205 | every pixel of the bicubic resize of a grey image is that grey |
| Resize.ShrinkGreyList | canvascopy.js:56-67 | every pixel of a grey image's narrowing resize that does not heighten it is that grey |
| Resize.TallerWhileNarrower | canvascopy.js:5 | only the widths decide: 2 x 1 resized to 1 x 3 goes to the downsampler, and its two upper rows come out 0 |

## Left out

- The exponential `Math.pow(2.718, t)` in the kernel is a floating-point
  library call. It is the parameter `powE: real -> real`, and the lemmas
  about sampled values assume only that it is positive. The exponent's
  positive sign is kept as written: the weight grows with distance.
- Floating point is modelled by exact reals. IEEE rounding is not
  modelled.
- The buffer the browser stores into is a `Uint8ClampedArray`, which
  rounds and clamps every stored value to [0, 255]. That conversion is not
  modelled: the destination array holds the computed reals.
- `| 0` is truncation toward zero. Its 32-bit wrap-around for values
  beyond 2^31 is not modelled, since the coordinates involved are image
  sizes.
- The unused helper `hypot` (canvascopy.js:20-22) and the unused counter
  `n` (canvascopy.js:33) are not modelled.
- Reading and writing the canvas (capturing the source, rendering dest) is
  outside the engine and not modelled.
- Gaussian.CopyGaussian: for a destination without columns (rows),
  `sampleX` (`sampleY`) is an infinity or NaN. The model sets it to 0.
  This has no effect on the result: the copy loop then runs no iterations.
- Bicubic.CopyBicubic: requires a source with at least one pixel. For an
  empty source the code reads `undefined` and computes NaN, which the
  model does not represent. For the same reason, Resize.CopyResized
  requires `Routable`.
- Every copy method requires that source and destination are different
  arrays. The code's result when they alias is not modelled.
- Every method requires well-formed buffers (`data.length == width *
  height * 4`). The code assumes this and does not check it.
- The loops of `copyGaussian`, `copyBilinear` and `copyBicubic` are split
  into one method per loop (`CopyRows`, `CopyRow`), with the loop body in
  `CopyPixel`. The inner gather loop of `getGaussianPixel` is split into
  `GatherColumn` and `Gather`. The order of the stores and the reads is
  the source's.
- Three behaviours of the code that a reader might not expect are kept as
  written:
  - A destination of width or height 0 is not rejected. The code runs no
    loop iterations and returns dest unchanged.
  - The bilinear sampler does not keep a uniform colour next to the right
    and bottom edges. A neighbour outside the source reads as the sentinel,
    and it enters the blend when the mapped x has a non-zero fractional
    part and its neighbour column `Trunc(x) + 1` is past the last one, that
    is when width - 1 < x < width (likewise for y and the last row).
    Enlarging leads there: a 2 x 1 source copied to 3 x 1 maps pixel 2 to
    x = 4/3 (Bilinear.EdgeBlendsSentinel). A whole mapped coordinate copies
    the source pixel (Bilinear.BiAtSample, Bilinear.SameSizeIsCopy), and a
    coordinate whose neighbours all lie inside keeps a uniform colour
    (Bilinear.BiUniformInterior); narrowing 3 columns to 2, for instance,
    maps to x = 0 and x = 1.5, whose neighbours are inside.
  - The dispatcher compares widths only. An image that is narrowed but
    heightened goes to the downsampler, which leaves rows empty
    (Resize.TallerWhileNarrower).
