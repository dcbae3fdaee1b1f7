/**
 * `process_image`: downsample by the pixel size, quantize the small image
 * when the palette is non-empty, then upscale by the same factor.
 */
module Pipeline {
  import opened Wrappers
  import opened Color
  import opened Raster
  import opened Quantize

  /**
   * Why no image is produced: a pixel size below 1 (division by zero or a
   * negative target size), or a source smaller than one block along some axis
   * (the resize to a zero dimension is refused).
   */
  datatype PipelineError = InvalidPixelSize | EmptyReduction

  /** The colour-mapping step: pass-through for an empty palette, otherwise quantize. */
  function MapColors(img: Image, palette: seq<RGB>): (r: Image)
    ensures |palette| == 0 ==> r == img
    ensures |palette| > 0 ==> forall c :: c in Colors(r) ==> c in palette
    ensures forall h: nat, w: nat :: IsImage(img, h, w) ==> IsImage(r, h, w)
  {
    if |palette| > 0 then QuantizeImage(img, palette) else img
  }

  /**
   * The whole conversion of a decoded RGB image `src` with pixel size `s`;
   * `pick` stands for the image library's nearest-neighbour downsample.
   */
  function Process(src: Image, s: int, palette: seq<RGB>, pick: Sampler): (r: Result<Image, PipelineError>)
    requires Rectangular(src)
    requires s >= 1 ==> SamplerFits(pick, |src| / s, Width(src) / s, |src|, Width(src))
    ensures r.Success? <==> s >= 1 && |src| / s >= 1 && Width(src) / s >= 1
    ensures r.Failure? && s < 1 ==> r.error == InvalidPixelSize
    ensures r.Success? ==> IsImage(r.value, (|src| / s) * s, (Width(src) / s) * s)
    ensures r.Success? && |palette| > 0 ==> forall c :: c in Colors(r.value) ==> c in palette
    ensures r.Success? && |palette| == 0 ==> Colors(r.value) <= Colors(src)
  {
    if s < 1 then Failure(InvalidPixelSize)
    else if |src| / s == 0 || Width(src) / s == 0 then Failure(EmptyReduction)
    else
      var reduced := Reduce(src, s, pick);
      var mapped := MapColors(reduced, palette);
      assert Width(mapped) == Width(src) / s;
      ExpandColors(mapped, s);
      Success(Expand(mapped, s))
  }

  /** The result is never larger than the source; the part past the last whole block is cropped. */
  lemma ProcessNeverLarger(src: Image, s: int, palette: seq<RGB>, pick: Sampler)
    requires Rectangular(src)
    requires s >= 1 ==> SamplerFits(pick, |src| / s, Width(src) / s, |src|, Width(src))
    requires Process(src, s, palette, pick).Success?
    ensures var out := Process(src, s, palette, pick).value;
      |src| - s < |out| <= |src| && Width(src) - s < Width(out) <= Width(src)
  {
    FloorBlock(|src|, s);
    FloorBlock(Width(src), s);
  }

  /** Quantizing happens on the reduced image, between the two resizes. */
  lemma ProcessOrder(src: Image, s: int, palette: seq<RGB>, pick: Sampler)
    requires Rectangular(src) && s >= 1 && |src| / s >= 1 && Width(src) / s >= 1
    requires SamplerFits(pick, |src| / s, Width(src) / s, |src|, Width(src))
    requires |palette| > 0
    ensures Rectangular(QuantizeImage(Reduce(src, s, pick), palette))
    ensures Process(src, s, palette, pick) == Success(Expand(QuantizeImage(Reduce(src, s, pick), palette), s))
  {
  }

  /** With an empty palette the reduced image reaches the upscale unchanged. */
  lemma EmptyPalettePassThrough(src: Image, s: int, pick: Sampler)
    requires Rectangular(src) && s >= 1 && |src| / s >= 1 && Width(src) / s >= 1
    requires SamplerFits(pick, |src| / s, Width(src) / s, |src|, Width(src))
    ensures Rectangular(Reduce(src, s, pick))
    ensures Process(src, s, [], pick) == Success(Expand(Reduce(src, s, pick), s))
  {
  }

  /**
   * A successful result is the upscale by `s` of a rectangular image, so by
   * Raster.ExpandUniformBlocks every `s` by `s` block of it is one colour.
   */
  lemma ProcessIsUpscale(src: Image, s: int, palette: seq<RGB>, pick: Sampler, out: Image) returns (mapped: Image)
    requires Rectangular(src)
    requires s >= 1 ==> SamplerFits(pick, |src| / s, Width(src) / s, |src|, Width(src))
    requires Process(src, s, palette, pick) == Success(out)
    ensures s >= 1 && Rectangular(mapped) && out == Expand(mapped, s)
  {
    mapped := MapColors(Reduce(src, s, pick), palette);
    assert Width(mapped) == Width(src) / s;
  }

  function Solid(h: nat, w: nat, c: RGB): (img: Image)
    ensures IsImage(img, h, w)
    ensures Colors(img) <= {c}
  {
    seq(h, _ => seq(w, _ => c))
  }

  /** Red is nearer black (65025) than white (130050). */
  lemma RedNearestBlack()
    ensures NearestColor([RGB(0, 0, 0), RGB(255, 255, 255)], RGB(255, 0, 0)) == RGB(0, 0, 0)
  {
  }

  /**
   * A 4 by 4 solid red image at pixel size 2 with palette [black, white]
   * becomes 4 by 4 solid black, whichever pixels the downsample reads.
   */
  lemma SolidRedExample(pick: Sampler)
    requires SamplerFits(pick, 2, 2, 4, 4)
    ensures var r := Process(Solid(4, 4, RGB(255, 0, 0)), 2, [RGB(0, 0, 0), RGB(255, 255, 255)], pick);
      r.Success? && IsImage(r.value, 4, 4) && Colors(r.value) <= {RGB(0, 0, 0)}
  {
    var src := Solid(4, 4, RGB(255, 0, 0));
    var pal := [RGB(0, 0, 0), RGB(255, 255, 255)];
    var reduced := Reduce(src, 2, pick);
    RedNearestBlack();
    var q := QuantizeImage(reduced, pal);
    forall i, j | 0 <= i < |q| && 0 <= j < |q[i]| ensures q[i][j] == RGB(0, 0, 0) {
      InColors(reduced, i, j);
    }
    assert Colors(q) <= {RGB(0, 0, 0)};
    QuantizeKeepsShape(reduced, pal, 2, 2);
    ExpandColors(q, 2);
    assert Process(src, 2, pal, pick) == Success(Expand(q, 2));
  }

  /** A 5 by 5 image at pixel size 2 comes out 4 by 4: the last row and column are cropped. */
  lemma NonDividingExample(src: Image, palette: seq<RGB>, pick: Sampler)
    requires IsImage(src, 5, 5)
    requires SamplerFits(pick, 2, 2, 5, 5)
    ensures Rectangular(src)
    ensures var r := Process(src, 2, palette, pick); r.Success? && IsImage(r.value, 4, 4)
  {
  }
}
