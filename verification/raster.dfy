/**
 * Images as grids of rows (the NumPy array's first axis is the row, so
 * `img[i][j]` is the pixel in row `i`, column `j`), and the two nearest-
 * neighbour resizes of the pixelation pipeline.
 */
module Raster {
  import opened Color

  type Image = seq<seq<RGB>>

  /** `img` has exactly `h` rows of `w` pixels each. */
  predicate IsImage(img: Image, h: nat, w: nat) {
    |img| == h && forall i :: 0 <= i < |img| ==> |img[i]| == w
  }

  function Width(img: Image): nat {
    if |img| == 0 then 0 else |img[0]|
  }

  /** Every row as wide as the first, as for any decoded image. */
  predicate Rectangular(img: Image) {
    IsImage(img, |img|, Width(img))
  }

  /** The colours that occur somewhere in `img`. */
  function Colors(img: Image): set<RGB> {
    set i, j | 0 <= i < |img| && 0 <= j < |img[i]| :: img[i][j]
  }

  lemma InColors(img: Image, i: nat, j: nat)
    requires i < |img| && j < |img[i]|
    ensures img[i][j] in Colors(img)
  {
  }

  /**
   * Where the library's nearest-neighbour downsample takes each reduced cell
   * from: reduced (row, column) to source (row, column). Its exact rounding
   * is the image library's and is left abstract.
   */
  type Sampler = (nat, nat) -> (nat, nat)

  /** Every cell of an `h` by `w` result is taken from inside an `H` by `W` source. */
  predicate SamplerFits(pick: Sampler, h: nat, w: nat, H: nat, W: nat) {
    forall i, j :: 0 <= i < h && 0 <= j < w ==> pick(i, j).0 < H && pick(i, j).1 < W
  }

  /**
   * The downsample step: a `Width / s` by `Height / s` image (floor division),
   * each cell a single source pixel, never an average of a block.
   */
  function Reduce(src: Image, s: nat, pick: Sampler): (r: Image)
    requires s >= 1 && Rectangular(src)
    requires SamplerFits(pick, |src| / s, Width(src) / s, |src|, Width(src))
    ensures IsImage(r, |src| / s, Width(src) / s)
    ensures Colors(r) <= Colors(src)
  {
    var r := seq(|src| / s, i requires 0 <= i < |src| / s =>
      seq(Width(src) / s, j requires 0 <= j < Width(src) / s =>
        src[pick(i, j).0][pick(i, j).1]));
    assert Colors(r) <= Colors(src) by {
      forall c | c in Colors(r) ensures c in Colors(src) {
        var i, j :| 0 <= i < |r| && 0 <= j < |r[i]| && r[i][j] == c;
        InColors(src, pick(i, j).0, pick(i, j).1);
      }
    }
    r
  }

  /** Rounding down to a whole number of blocks loses less than one block. */
  lemma FloorBlock(n: nat, s: nat)
    requires s >= 1
    ensures n - s < (n / s) * s <= n
  {
    assert n == (n / s) * s + n % s;
  }

  lemma LessFromMul(a: int, b: int, s: nat)
    requires a * s < b * s
    ensures a < b
  {
  }

  /** Row (or column) `y` of an image scaled up by `s` lies in source row `y / s`. */
  lemma DivBelow(y: nat, h: nat, s: nat)
    requires s >= 1 && y < h * s
    ensures y / s < h
  {
  }

  /** Offset `d` inside block `i` of size `s` divides back to `i`. */
  lemma BlockDiv(i: nat, d: nat, s: nat)
    requires d < s
    ensures (i * s + d) / s == i
  {
    var q := (i * s + d) / s;
    var m := (i * s + d) % s;
    assert q * s + m == i * s + d;
    assert q * s < (i + 1) * s;
    LessFromMul(q, i + 1, s);
    assert (i - 1) * s < q * s;
    LessFromMul(i - 1, q, s);
  }

  /** Cell `d` of block `i` lies inside an image of `h` blocks, in block `i`. */
  lemma BlockIndex(i: nat, d: nat, s: nat, h: nat)
    requires i < h && d < s
    ensures i * s + d < h * s
    ensures (i * s + d) / s == i
  {
    MulLe(i + 1, h, s);
    assert (i + 1) * s == i * s + s;
    BlockDiv(i, d, s);
  }

  /** One row of the upscale: each pixel repeated `s` times. */
  function ExpandRow(row: seq<RGB>, s: nat): (r: seq<RGB>)
    requires s >= 1
    ensures |r| == |row| * s
  {
    seq(|row| * s, x requires 0 <= x < |row| * s => DivBelow(x, |row|, s); row[x / s])
  }

  /**
   * The upscale step. Sampling at pixel centres maps output column `x` to
   * input column floor((x + 0.5) / s) = x / s, and likewise for rows, so each
   * pixel of `img` becomes an `s` by `s` block.
   */
  function Expand(img: Image, s: nat): (r: Image)
    requires s >= 1 && Rectangular(img)
    ensures IsImage(r, |img| * s, Width(img) * s)
  {
    var r := seq(|img| * s, y requires 0 <= y < |img| * s => DivBelow(y, |img|, s); ExpandRow(img[y / s], s));
    assert forall y :: 0 <= y < |r| ==> |r[y]| == Width(img) * s by {
      forall y | 0 <= y < |r| ensures |r[y]| == Width(img) * s {
        DivBelow(y, |img|, s);
        assert |img[y / s]| == Width(img);
      }
    }
    r
  }

  /** Pixel (`i`, `j`) of `img` fills the whole block at rows `i*s ..` and columns `j*s ..` of the upscale. */
  lemma ExpandBlock(img: Image, s: nat, i: nat, j: nat, dy: nat, dx: nat)
    requires s >= 1 && Rectangular(img)
    requires i < |img| && j < Width(img) && dy < s && dx < s
    ensures i * s + dy < |img| * s && j * s + dx < Width(img) * s
    ensures Expand(img, s)[i * s + dy][j * s + dx] == img[i][j]
  {
    BlockIndex(i, dy, s, |img|);
    BlockIndex(j, dx, s, Width(img));
  }

  /**
   * Nearest-neighbour sampling at pixel centres: output coordinate `y` has
   * its centre at `y + 0.5`, which lies in input pixel floor((y + 0.5) / s),
   * written (2y + 1) / (2s) in integers.
   */
  function CentreIndex(y: nat, s: nat): nat
    requires s >= 1
  {
    (2 * y + 1) / (2 * s)
  }

  /** The centre of output pixel `y` lies in input pixel `y / s`. */
  lemma CentreSample(y: nat, s: nat)
    requires s >= 1
    ensures CentreIndex(y, s) == y / s
  {
    var q := y / s;
    var r := y % s;
    assert 2 * y + 1 == q * (2 * s) + (2 * r + 1);
    BlockDiv(q, 2 * r + 1, 2 * s);
  }

  /**
   * Reading the upscale at (`y`, `x`) reads `img` at the pixel whose area
   * contains the output pixel's centre.
   */
  lemma ExpandAt(img: Image, s: nat, y: nat, x: nat)
    requires s >= 1 && Rectangular(img)
    requires y < |img| * s && x < Width(img) * s
    ensures y / s < |img| && x / s < Width(img)
    ensures CentreIndex(y, s) < |img| && CentreIndex(x, s) < Width(img)
    ensures Expand(img, s)[y][x] == img[CentreIndex(y, s)][CentreIndex(x, s)]
  {
    ExpandAtBlock(img, s, y, x);
    CentreSample(y, s);
    CentreSample(x, s);
  }

  /** The same read in block terms: output (`y`, `x`) lies in block (`y / s`, `x / s`). */
  lemma ExpandAtBlock(img: Image, s: nat, y: nat, x: nat)
    requires s >= 1 && Rectangular(img)
    requires y < |img| * s && x < Width(img) * s
    ensures y / s < |img| && x / s < Width(img)
    ensures Expand(img, s)[y][x] == img[y / s][x / s]
  {
    DivBelow(y, |img|, s);
    DivBelow(x, Width(img), s);
  }

  /** Every pixel of the upscale equals the top-left pixel of its block: blocks are uniform. */
  lemma ExpandUniformBlocks(img: Image, s: nat, y: nat, x: nat)
    requires s >= 1 && Rectangular(img)
    requires y < |img| * s && x < Width(img) * s
    ensures (y / s) * s < |img| * s && (x / s) * s < Width(img) * s
    ensures Expand(img, s)[y][x] == Expand(img, s)[(y / s) * s][(x / s) * s]
  {
    ExpandAt(img, s, y, x);
    ExpandBlock(img, s, y / s, x / s, 0, 0);
  }

  lemma ExpandAddsNoColor(img: Image, s: nat)
    requires s >= 1 && Rectangular(img)
    ensures Colors(Expand(img, s)) <= Colors(img)
  {
  }

  lemma ExpandLosesNoColor(img: Image, s: nat)
    requires s >= 1 && Rectangular(img)
    ensures Colors(img) <= Colors(Expand(img, s))
  {
    var r := Expand(img, s);
    forall i, j | 0 <= i < |img| && 0 <= j < |img[i]| ensures img[i][j] in Colors(r) {
      ExpandBlock(img, s, i, j, 0, 0);
      InColors(r, i * s, j * s);
    }
  }

  /** Upscaling neither introduces nor loses a colour. */
  lemma ExpandColors(img: Image, s: nat)
    requires s >= 1 && Rectangular(img)
    ensures Colors(Expand(img, s)) == Colors(img)
  {
    ExpandAddsNoColor(img, s);
    ExpandLosesNoColor(img, s);
  }

  /** The sampler that reads the top-left pixel of each `s` by `s` block. */
  function CornerSampler(s: nat): Sampler {
    (i: nat, j: nat) => (i * s, j * s)
  }

  /** Downsampling an upscale at block corners recovers the original image exactly. */
  lemma ReduceExpandRoundTrip(img: Image, s: nat)
    requires s >= 1 && Rectangular(img)
    ensures Rectangular(Expand(img, s))
    ensures |Expand(img, s)| / s == |img| && Width(Expand(img, s)) / s == Width(img)
    ensures SamplerFits(CornerSampler(s), |img|, Width(img), |img| * s, Width(img) * s)
    ensures Reduce(Expand(img, s), s, CornerSampler(s)) == img
  {
    var e := Expand(img, s);
    BlockDiv(|img|, 0, s);
    BlockDiv(Width(img), 0, s);
    assert Width(e) == Width(img) * s;
    forall i, j | 0 <= i < |img| && 0 <= j < Width(img)
      ensures CornerSampler(s)(i, j).0 < |img| * s && CornerSampler(s)(i, j).1 < Width(img) * s
    {
      ExpandBlock(img, s, i, j, 0, 0);
    }
    var r := Reduce(e, s, CornerSampler(s));
    forall i | 0 <= i < |img| ensures r[i] == img[i] {
      forall j | 0 <= j < Width(img) ensures r[i][j] == img[i][j] {
        ExpandBlock(img, s, i, j, 0, 0);
      }
    }
  }
}
