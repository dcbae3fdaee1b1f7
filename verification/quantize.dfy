/**
 * The palette quantizer: each pixel is replaced by the palette entry at the
 * smallest squared RGB distance, the earliest entry winning ties, as
 * Python's `min(palette, key=...)` does.
 */
module Quantize {
  import opened Wrappers
  import opened Color
  import opened ArgMin
  import opened Raster

  /** The key `min` computes for each palette entry, in palette order. */
  function Distances(palette: seq<RGB>, p: RGB): (d: seq<int>)
    ensures |d| == |palette|
    ensures forall k :: 0 <= k < |palette| ==> d[k] == SqDist(p, palette[k])
  {
    seq(|palette|, k requires 0 <= k < |palette| => SqDist(p, palette[k]))
  }

  /** `k` indexes a nearest entry, and every earlier entry is strictly farther. */
  predicate IsFirstNearest(palette: seq<RGB>, p: RGB, k: nat) {
    && k < |palette|
    && (forall j :: 0 <= j < |palette| ==> SqDist(p, palette[k]) <= SqDist(p, palette[j]))
    && (forall j :: 0 <= j < k ==> SqDist(p, palette[k]) < SqDist(p, palette[j]))
  }

  /** Position in the palette of the entry the search picks. */
  function NearestIndex(palette: seq<RGB>, p: RGB): (k: nat)
    requires |palette| > 0
    ensures IsFirstNearest(palette, p, k)
  {
    var d := Distances(palette, p);
    var k := FirstMinIndex(d);
    assert forall j :: 0 <= j < |palette| ==> d[j] == SqDist(p, palette[j]);
    k
  }

  /** The colour the search picks: a palette entry no other entry is closer than. */
  function NearestColor(palette: seq<RGB>, p: RGB): (c: RGB)
    requires |palette| > 0
    ensures c in palette
    ensures forall q :: q in palette ==> SqDist(p, c) <= SqDist(p, q)
  {
    palette[NearestIndex(palette, p)]
  }

  /** Tie-break, both directions: the search picks index `k` exactly when `k` is the first nearest entry. */
  lemma NearestIndexIff(palette: seq<RGB>, p: RGB, k: nat)
    requires |palette| > 0
    ensures k == NearestIndex(palette, p) <==> IsFirstNearest(palette, p, k)
  {
  }

  /** Among equidistant candidates the earlier palette entry is chosen. */
  lemma NearestTieBreak(palette: seq<RGB>, p: RGB, i: nat, j: nat)
    requires i < j < |palette|
    requires SqDist(p, palette[i]) == SqDist(p, palette[j])
    ensures NearestIndex(palette, p) != j
  {
  }

  /** A pixel that is itself in the palette maps to itself. */
  lemma NearestOfMember(palette: seq<RGB>, p: RGB)
    requires p in palette
    ensures NearestColor(palette, p) == p
  {
  }

  /**
   * The quantize step on a whole image: every pixel replaced by its nearest
   * palette colour, the shape unchanged.
   */
  function QuantizeImage(img: Image, palette: seq<RGB>): (r: Image)
    requires |palette| > 0
    ensures |r| == |img|
    ensures forall i :: 0 <= i < |img| ==> |r[i]| == |img[i]|
    ensures forall i, j :: 0 <= i < |img| && 0 <= j < |img[i]| ==>
      r[i][j] in palette && forall q :: q in palette ==> SqDist(img[i][j], r[i][j]) <= SqDist(img[i][j], q)
  {
    seq(|img|, i requires 0 <= i < |img| =>
      seq(|img[i]|, j requires 0 <= j < |img[i]| => NearestColor(palette, img[i][j])))
  }

  /** Quantizing keeps the image's dimensions. */
  lemma QuantizeKeepsShape(img: Image, palette: seq<RGB>, h: nat, w: nat)
    requires |palette| > 0 && IsImage(img, h, w)
    ensures IsImage(QuantizeImage(img, palette), h, w)
  {
  }

  /** After quantizing, every colour in the image is a palette entry. */
  lemma QuantizeColorsInPalette(img: Image, palette: seq<RGB>)
    requires |palette| > 0
    ensures forall c :: c in Colors(QuantizeImage(img, palette)) ==> c in palette
  {
  }

  /**
   * The source's in-place double loop over rows and columns: cell (`i`, `j`)
   * is overwritten with its nearest colour.
   */
  method ApplyPalette(img: Image, palette: seq<RGB>) returns (out: Image)
    requires |palette| > 0
    ensures |out| == |img|
    ensures forall i :: 0 <= i < |img| ==> |out[i]| == |img[i]|
    ensures forall i, j :: 0 <= i < |img| && 0 <= j < |img[i]| ==>
      out[i][j] == palette[NearestIndex(palette, img[i][j])]
  {
    out := img;
    var i := 0;
    while i < |img|
      invariant 0 <= i <= |img|
      invariant |out| == |img|
      invariant forall k :: 0 <= k < |img| ==> |out[k]| == |img[k]|
      invariant forall k, j :: 0 <= k < i && 0 <= j < |img[k]| ==>
        out[k][j] == palette[NearestIndex(palette, img[k][j])]
      invariant forall k :: i <= k < |img| ==> out[k] == img[k]
    {
      var row := out[i];
      var j := 0;
      while j < |row|
        invariant 0 <= j <= |row| == |img[i]|
        invariant forall m :: 0 <= m < j ==> row[m] == palette[NearestIndex(palette, img[i][m])]
        invariant forall m :: j <= m < |row| ==> row[m] == img[i][m]
      {
        row := row[j := NearestColor(palette, row[j])];
        j := j + 1;
      }
      out := out[i := row];
      i := i + 1;
    }
  }

  /** The loop computes exactly the quantized image. */
  lemma ApplyPaletteMatchesQuantize(img: Image, palette: seq<RGB>, out: Image)
    requires |palette| > 0
    requires |out| == |img|
    requires forall i :: 0 <= i < |img| ==> |out[i]| == |img[i]|
    requires forall i, j :: 0 <= i < |img| && 0 <= j < |img[i]| ==>
      out[i][j] == palette[NearestIndex(palette, img[i][j])]
    ensures out == QuantizeImage(img, palette)
  {
    var q := QuantizeImage(img, palette);
    forall i | 0 <= i < |img| ensures out[i] == q[i] {
    }
  }

  // The search as the source evaluates it under NumPy 2 (NEP 50 promotion
  // rules). The pixel's components are uint8 scalars and a palette component
  // is a Python int, so `p - c[i]` and its square stay uint8 and wrap: the
  // key is the distance reduced modulo 256 (Color.WrappedSqDist), and an
  // exact match can lose to a far colour. A palette component outside
  // 0..255 cannot be converted to uint8 and raises OverflowError instead.
  // Under NumPy 1.x the scalar is promoted and the key is the exact
  // distance, which is the corrected search NearestColor above.

  function WrappedDistances(palette: seq<RGB>, p: RGB): (d: seq<int>)
    ensures |d| == |palette|
    ensures forall k :: 0 <= k < |palette| ==> d[k] == WrappedSqDist(p, palette[k])
  {
    seq(|palette|, k requires 0 <= k < |palette| => WrappedSqDist(p, palette[k]))
  }

  /** Every palette component fits in a uint8, so no key computation overflows. */
  predicate AllValid(palette: seq<RGB>)
  {
    forall q :: q in palette ==> ValidRGB(q)
  }

  /**
   * The entry the source's `min` returns under NumPy 2 for a uint8 pixel:
   * None stands for the OverflowError raised when some palette component
   * lies outside 0..255; otherwise a palette entry minimising the wrapped
   * key, the earliest one on ties.
   */
  function NearestColorAsWritten(palette: seq<RGB>, p: RGB): (r: Option<RGB>)
    requires |palette| > 0
    ensures r.None? <==> exists q :: q in palette && !ValidRGB(q)
    ensures r.Some? ==> r.value in palette
    ensures r.Some? ==> forall q :: q in palette ==> WrappedSqDist(p, r.value) <= WrappedSqDist(p, q)
    ensures r.Some? ==> exists k :: (0 <= k < |palette| && palette[k] == r.value &&
      forall j :: 0 <= j < k ==> WrappedSqDist(p, r.value) < WrappedSqDist(p, palette[j]))
  {
    if !AllValid(palette) then None
    else
      var d := WrappedDistances(palette, p);
      var k := FirstMinIndex(d);
      assert forall j :: 0 <= j < |palette| ==> d[j] == WrappedSqDist(p, palette[j]);
      Some(palette[k])
  }

  /**
   * A black pixel against the palette [(16,0,0), (0,0,0)]: 16 squared is 256,
   * which wraps to 0, so the as-written search keeps the first entry although
   * the second is an exact match; the corrected search returns the match.
   */
  lemma WrappedDistanceMisorders()
    ensures NearestColorAsWritten([RGB(16, 0, 0), RGB(0, 0, 0)], RGB(0, 0, 0)) == Some(RGB(16, 0, 0))
    ensures NearestColor([RGB(16, 0, 0), RGB(0, 0, 0)], RGB(0, 0, 0)) == RGB(0, 0, 0)
  {
    var pal := [RGB(16, 0, 0), RGB(0, 0, 0)];
    var p := RGB(0, 0, 0);
    assert AllValid(pal);
    SixteenWraps();
    WrappedFirstEntry(pal, p);
    NearestOfMember(pal, p);
  }

  /** 16 squared is 256, a multiple of 256. */
  lemma SixteenWraps()
    ensures WrappedSqDist(RGB(0, 0, 0), RGB(16, 0, 0)) == 0
  {
    assert Sq(0 - 16) == 256;
    assert SqDist(RGB(0, 0, 0), RGB(16, 0, 0)) == 256;
  }

  /** The as-written search keeps the first entry whenever its wrapped key is 0. */
  lemma WrappedFirstEntry(pal: seq<RGB>, p: RGB)
    requires |pal| > 0 && AllValid(pal)
    requires WrappedSqDist(p, pal[0]) == 0
    ensures NearestColorAsWritten(pal, p) == Some(pal[0])
  {
    var d := WrappedDistances(pal, p);
    assert IsFirstMin(d, 0);
    FirstMinIndexIff(d, 0);
  }

  /** A palette entry loaded as [300, 0, 0] makes every as-written search fail. */
  lemma OutOfRangeOverflows(p: RGB)
    ensures NearestColorAsWritten([RGB(0, 0, 0), RGB(300, 0, 0)], p).None?
  {
    assert !ValidRGB(RGB(300, 0, 0));
  }

  /** A tie: (5,5,5) is 75 from both (0,0,0) and (10,10,10), and the first wins. */
  lemma TieExample()
    ensures NearestColor([RGB(0, 0, 0), RGB(10, 10, 10)], RGB(5, 5, 5)) == RGB(0, 0, 0)
  {
  }
}
