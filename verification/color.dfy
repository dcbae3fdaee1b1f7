/**
 * Colours as the application handles them: RGB triples whose components are
 * plain integers (a palette read from JSON is not range-checked), and the
 * squared Euclidean distance that the nearest-colour search minimises.
 */
module Color {

  /** One pixel or palette entry; no alpha channel (images are converted to RGB). */
  datatype RGB = RGB(r: int, g: int, b: int)

  /** Components that fit an 8-bit channel, as every decoded image pixel does. */
  predicate ValidRGB(c: RGB) {
    0 <= c.r < 256 && 0 <= c.g < 256 && 0 <= c.b < 256
  }

  function Sq(x: int): (y: nat)
    ensures y == 0 <==> x == 0
  {
    x * x
  }

  /**
   * Sum over the three channels of the squared component difference: zero
   * exactly on identical colours, and at most 3 * 255 * 255 between two
   * 8-bit colours.
   */
  function SqDist(p: RGB, c: RGB): (d: nat)
    ensures d == 0 <==> p == c
    ensures ValidRGB(p) && ValidRGB(c) ==> d <= 195075
  {
    SqBelow(p.r - c.r);
    SqBelow(p.g - c.g);
    SqBelow(p.b - c.b);
    Sq(p.r - c.r) + Sq(p.g - c.g) + Sq(p.b - c.b)
  }

  lemma MulLe(a: nat, b: nat, k: nat)
    requires a <= b
    ensures a * k <= b * k
  {
  }

  lemma SqBelow(x: int)
    ensures -255 <= x <= 255 ==> Sq(x) <= 65025
  {
    var a: nat := if x < 0 then -x else x;
    assert Sq(x) == a * a;
    if a <= 255 {
      MulLe(a, 255, a);
      MulLe(a, 255, 255);
    }
  }

  // The distance as the source evaluates it under NumPy 2 promotion rules
  // (NEP 50): the pixel's components are NumPy uint8 scalars and a Python int
  // combined with one stays uint8, so every subtraction, square and partial
  // sum of the generator is reduced modulo 256. Under NumPy 1.x the
  // arithmetic is promoted to a wider integer and the key is SqDist itself.

  function U8(x: int): nat {
    x % 256
  }

  lemma ModAddMultiple(a: int, k: int)
    ensures (a + 256 * k) % 256 == a % 256
  {
  }

  lemma ModSq(x: int)
    ensures U8(Sq(U8(x))) == U8(Sq(x))
  {
    var q := x / 256;
    var r := x % 256;
    assert x == 256 * q + r;
    assert x * x == r * r + 256 * (256 * q * q + 2 * q * r);
    ModAddMultiple(r * r, 256 * q * q + 2 * q * r);
  }

  lemma ModSum(a: int, b: int)
    ensures U8(U8(a) + b) == U8(a + b)
  {
  }

  /** Reducing each term and each partial sum of a three-term sum gives the sum reduced. */
  lemma WrappedSum(a: int, b: int, d: int)
    ensures U8(U8(U8(0 + U8(a)) + U8(b)) + U8(d)) == U8(a + b + d)
  {
    assert U8(U8(a) + U8(b)) == U8(a + b) by {
      ModSum(a, U8(b));
      ModSum(b, a);
    }
    assert U8(U8(a + b) + U8(d)) == U8(a + b + d) by {
      ModSum(a + b, U8(d));
      ModSum(d, a + b);
    }
  }

  /**
   * Channel-by-channel uint8 evaluation of the key, starting from `sum`'s
   * initial 0: it equals the exact squared distance modulo 256.
   */
  function WrappedSqDist(p: RGB, c: RGB): (d: nat)
    ensures d < 256
    ensures d == SqDist(p, c) % 256
  {
    ModSq(p.r - c.r);
    ModSq(p.g - c.g);
    ModSq(p.b - c.b);
    WrappedSum(Sq(p.r - c.r), Sq(p.g - c.g), Sq(p.b - c.b));
    var dr := U8(Sq(U8(p.r - c.r)));
    var dg := U8(Sq(U8(p.g - c.g)));
    var db := U8(Sq(U8(p.b - c.b)));
    U8(U8(U8(0 + dr) + dg) + db)
  }
}
