/** The entry point: a resize that makes the image narrower goes to the
    area-weighted downsampler, every other resize to the bicubic sampler.
    Only the widths decide; the heights play no part in the choice. */
module Resize {
  import opened Pixels
  import Gaussian
  import Bicubic

  /** What the bicubic sampler needs: a source with at least one pixel.
      A narrowing resize does not go there and needs nothing. */
  predicate Routable(src: Raster, dw: nat) {
    src.width > dw || (src.width > 0 && src.height > 0)
  }

  /** The buffer a dw x dh destination holds after the resize of src. */
  function Resized(powE: real -> real, src: Raster, dw: nat, dh: nat): (out: seq<real>)
    requires src.WellFormed() && Routable(src, dw)
    ensures |out| == dw * dh * 4
  {
    if src.width > dw then
      Interleave(Gaussian.DestPixels(Gaussian.SamplingFor(powE, src.width, src.height, dw, dh), src, dw, dh))
    else
      Interleave(Bicubic.DestPixels(src, dw, dh))
  }

  /** `copyResized`: resamples source into dest and returns dest. The
      source buffer is left as it was. */
  method CopyResized(powE: real -> real, source: ImageData, dest: ImageData)
    returns (result: ImageData)
    requires source.WellFormed() && dest.WellFormed() && source.data != dest.data
    requires Routable(source.Snapshot(), dest.width)
    modifies dest.data
    ensures result == dest
    ensures unchanged(source.data)
    ensures dest.data[..] == Resized(powE, old(source.Snapshot()), dest.width, dest.height)
  {
    if source.width > dest.width {
      result := Gaussian.CopyGaussian(powE, source, dest);
    } else {
      result := Bicubic.CopyBicubic(source, dest);
    }
  }

  /** A resize to the size the source already has leaves every channel
      value in place: it goes to the bicubic sampler, where each destination
      pixel maps onto a whole source coordinate. */
  lemma SameSizeIsCopy(powE: real -> real, src: Raster)
    requires src.WellFormed() && src.width > 0 && src.height > 0
    ensures Resized(powE, src, src.width, src.height) == src.data
  {
    Bicubic.SameSizeIsCopy(src);
  }

  /** A pixel whose four channels are c is the pixel [c, c, c, c]. */
  lemma GreyPixel(q: Pixel, c: real)
    requires q[0] == c && q[1] == c && q[2] == c && q[3] == c
    ensures q == [c, c, c, c]
  {
  }

  /** A destination list whose every pixel is the grey n interleaves to a
      buffer that holds n everywhere. */
  lemma GreyList(ps: seq<Pixel>, n: real)
    requires forall p :: 0 <= p < |ps| ==> ps[p] == [n, n, n, n]
    ensures forall i :: 0 <= i < |Interleave(ps)| ==> Interleave(ps)[i] == n
  {
    forall i | 0 <= i < |Interleave(ps)|
      ensures Interleave(ps)[i] == n
    {
      InterleaveIndex(ps, i);
    }
  }

  /** An image of one whole-numbered grey value n keeps that grey at every
      size, provided that a narrowing resize does not also make it taller
      (which would leave rows empty, see TallerWhileNarrower). */
  lemma GreyStaysGrey(powE: real -> real, src: Raster, dw: nat, dh: nat, n: int)
    requires src.WellFormed() && Gaussian.Positive(powE) && Routable(src, dw)
    requires src.Uniform(0, n as real) && src.Uniform(1, n as real)
    requires src.Uniform(2, n as real) && src.Uniform(3, n as real)
    requires src.width > dw ==> dh <= src.height
    ensures forall i :: 0 <= i < dw * dh * 4 ==> Resized(powE, src, dw, dh)[i] == n as real
  {
    if src.width > dw {
      var ps := Gaussian.DestPixels(Gaussian.SamplingFor(powE, src.width, src.height, dw, dh), src, dw, dh);
      ShrinkGreyList(powE, src, dw, dh, n);
      GreyList(ps, n as real);
    } else {
      var ps := Bicubic.DestPixels(src, dw, dh);
      EnlargeGreyList(src, dw, dh, n as real);
      GreyList(ps, n as real);
    }
  }

  /** Every pixel of a grey image's narrowing (and not heightening)
      resize is the grey. */
  lemma ShrinkGreyList(powE: real -> real, src: Raster, dw: nat, dh: nat, n: int)
    requires src.WellFormed() && Gaussian.Positive(powE) && dw < src.width && dh <= src.height
    requires src.Uniform(0, n as real) && src.Uniform(1, n as real)
    requires src.Uniform(2, n as real) && src.Uniform(3, n as real)
    ensures var ps := Gaussian.DestPixels(Gaussian.SamplingFor(powE, src.width, src.height, dw, dh), src, dw, dh);
            forall p :: 0 <= p < |ps| ==> ps[p] == [n as real, n as real, n as real, n as real]
  {
    var s := Gaussian.SamplingFor(powE, src.width, src.height, dw, dh);
    var ps := Gaussian.DestPixels(s, src, dw, dh);
    Gaussian.ShrinkGrey(powE, src, dw, dh, n);
    forall p | 0 <= p < |ps|
      ensures ps[p] == [n as real, n as real, n as real, n as real]
    {
      RowMajorBounds(p, dw, dh);
      RowIndex(p, dw, p % dw, p / dw);
      Gaussian.DestPixelsAt(s, src, dw, dh, p % dw, p / dw);
    }
  }

  /** Every pixel of a grey image's bicubic resize is the grey. */
  lemma EnlargeGreyList(src: Raster, dw: nat, dh: nat, c: real)
    requires src.WellFormed() && src.width > 0 && src.height > 0
    requires src.Uniform(0, c) && src.Uniform(1, c) && src.Uniform(2, c) && src.Uniform(3, c)
    ensures var ps := Bicubic.DestPixels(src, dw, dh);
            forall p :: 0 <= p < |ps| ==> ps[p] == [c, c, c, c]
  {
    var ps := Bicubic.DestPixels(src, dw, dh);
    forall p | 0 <= p < |ps|
      ensures ps[p] == [c, c, c, c]
    {
      EnlargeGreyPixel(src, dw, dh, c, p);
    }
  }

  /** Pixel number p of a grey image's bicubic resize is the grey. */
  lemma EnlargeGreyPixel(src: Raster, dw: nat, dh: nat, c: real, p: int)
    requires src.WellFormed() && src.width > 0 && src.height > 0
    requires src.Uniform(0, c) && src.Uniform(1, c) && src.Uniform(2, c) && src.Uniform(3, c)
    requires 0 <= p < dw * dh
    ensures |Bicubic.DestPixels(src, dw, dh)| == dw * dh
    ensures Bicubic.DestPixels(src, dw, dh)[p] == [c, c, c, c]
  {
    RowMajorBounds(p, dw, dh);
    var dx, dy := p % dw, p / dw;
    RowIndex(p, dw, dx, dy);
    Bicubic.DestPixelsAt(src, dw, dh, dx, dy);
    var q := Bicubic.DestPixel(src, dw, dh, dx, dy);
    Bicubic.BicubicUniform(src, MapCoord(dx, src.width, dw), MapCoord(dy, src.height, dh), 0, c);
    Bicubic.BicubicUniform(src, MapCoord(dx, src.width, dw), MapCoord(dy, src.height, dh), 1, c);
    Bicubic.BicubicUniform(src, MapCoord(dx, src.width, dw), MapCoord(dy, src.height, dh), 2, c);
    Bicubic.BicubicUniform(src, MapCoord(dx, src.width, dw), MapCoord(dy, src.height, dh), 3, c);
    GreyPixel(q, c);
  }

  /** Because only the widths decide, a 2 x 1 image made narrower but
      taller (1 x 3) goes to the downsampler, and the first eight channel
      values of the result, the two upper rows, are 0 whatever the source
      holds. */
  lemma TallerWhileNarrower(powE: real -> real, src: Raster)
    requires src.WellFormed() && src.width == 2 && src.height == 1
    ensures Resized(powE, src, 1, 3)[..8] == [0.0, 0.0, 0.0, 0.0, 0.0, 0.0, 0.0, 0.0]
  {
    var s := Gaussian.SamplingFor(powE, 2, 1, 1, 3);
    var ps := Gaussian.DestPixels(s, src, 1, 3);
    Gaussian.TallerRowsEmpty(powE, src);
    Gaussian.DestPixelsAt(s, src, 1, 3, 0, 0);
    Gaussian.DestPixelsAt(s, src, 1, 3, 0, 1);
    InterleaveBlock(ps, 0);
    InterleaveBlock(ps, 1);
    var out := Interleave(ps);
    assert out[..8] == out[0..4] + out[4..8];
  }
}
