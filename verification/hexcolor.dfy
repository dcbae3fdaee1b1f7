/**
 * `rgb_to_hex`: a colour as `#rrggbb`, each component in Python's `02x`
 * format (lower-case hexadecimal, zero-padded to at least two characters),
 * and the parser that reads such a string back.
 */
module HexColor {
  import opened Wrappers
  import opened Color

  predicate IsLowerHex(ch: char) {
    '0' <= ch <= '9' || 'a' <= ch <= 'f'
  }

  function HexChar(d: nat): (ch: char)
    requires d < 16
    ensures IsLowerHex(ch)
  {
    if d < 10 then (48 + d) as char else (87 + d) as char
  }

  function HexValue(ch: char): (d: nat)
    requires IsLowerHex(ch)
    ensures d < 16
  {
    if ch <= '9' then ch as int - 48 else ch as int - 87
  }

  /** A digit value reads back from the character written for it. */
  lemma HexValueOfChar(d: nat)
    requires d < 16
    ensures HexValue(HexChar(d)) == d
  {
  }

  /** A lower-case hex character is the one written for its value. */
  lemma HexCharOfValue(ch: char)
    requires IsLowerHex(ch)
    ensures HexChar(HexValue(ch)) == ch
  {
  }

  /** Hexadecimal digits of `n` without leading zeros. */
  function HexDigits(n: nat): (s: string)
    ensures |s| > 0 && forall i :: 0 <= i < |s| ==> IsLowerHex(s[i])
    ensures s[0] == '0' <==> n == 0
    ensures |s| == 1 <==> n < 16
    ensures |s| >= 3 <==> n >= 256
    decreases n
  {
    if n < 16 then [HexChar(n)] else HexDigits(n / 16) + [HexChar(n % 16)]
  }

  /**
   * Python's `format(n, '02x')`: lower-case digits without leading zeros,
   * padded with one zero to width 2; a negative number gets a minus sign,
   * which counts towards the width.
   */
  function Format02x(n: int): (s: string)
    ensures |s| >= 2
    ensures n >= 0 ==> forall i :: 0 <= i < |s| ==> IsLowerHex(s[i])
    ensures n >= 0 ==> (|s| == 2 <==> n < 256)
    ensures n >= 0 ==> (s[0] == '0' <==> n < 16)
    ensures n < 0 ==> s[0] == '-' && forall i :: 1 <= i < |s| ==> IsLowerHex(s[i])
  {
    if n < 0 then "-" + HexDigits(-n)
    else
      var d := HexDigits(n);
      if |d| < 2 then "0" + d else d
  }

  /** A byte formats as exactly its two hexadecimal digits, high one first. */
  lemma Format02xByte(n: int)
    requires 0 <= n < 256
    ensures Format02x(n) == [HexChar(n / 16), HexChar(n % 16)]
  {
    if n >= 16 {
      assert HexDigits(n / 16) == [HexChar(n / 16)];
    }
  }

  /** The two digits of a byte read back as the byte. */
  lemma ByteDigits(n: int)
    ensures 0 <= n < 256 ==>
      && Format02x(n) == [HexChar(n / 16), HexChar(n % 16)]
      && HexValue(HexChar(n / 16)) * 16 + HexValue(HexChar(n % 16)) == n
  {
    if 0 <= n < 256 {
      Format02xByte(n);
      HexValueOfChar(n / 16);
      HexValueOfChar(n % 16);
    }
  }

  /** The colour string written on a palette swatch. */
  function RgbToHex(c: RGB): (s: string)
    ensures ValidRGB(c) ==> |s| == 7 && s[0] == '#'
    ensures ValidRGB(c) ==> forall i :: 1 <= i < 7 ==> IsLowerHex(s[i])
    ensures ValidRGB(c) ==>
      && HexValue(s[1]) * 16 + HexValue(s[2]) == c.r
      && HexValue(s[3]) * 16 + HexValue(s[4]) == c.g
      && HexValue(s[5]) * 16 + HexValue(s[6]) == c.b
  {
    ByteDigits(c.r);
    ByteDigits(c.g);
    ByteDigits(c.b);
    "#" + Format02x(c.r) + Format02x(c.g) + Format02x(c.b)
  }

  /** Reads `#rrggbb` in lower-case hexadecimal; anything else is rejected. */
  function ParseHexColor(s: string): (r: Option<RGB>)
    ensures r.Some? ==> ValidRGB(r.value)
  {
    if |s| == 7 && s[0] == '#' && forall i :: 1 <= i < 7 ==> IsLowerHex(s[i]) then
      Some(RGB(HexValue(s[1]) * 16 + HexValue(s[2]),
               HexValue(s[3]) * 16 + HexValue(s[4]),
               HexValue(s[5]) * 16 + HexValue(s[6])))
    else None
  }

  /** Every valid colour is read back from its swatch string. */
  lemma ParseRgbToHex(c: RGB)
    requires ValidRGB(c)
    ensures ParseHexColor(RgbToHex(c)) == Some(c)
  {
  }

  /** A pair of digits is the `02x` form of the byte it denotes. */
  lemma PairFormat(x: char, y: char)
    requires IsLowerHex(x) && IsLowerHex(y)
    ensures Format02x(HexValue(x) * 16 + HexValue(y)) == [x, y]
  {
    var n := HexValue(x) * 16 + HexValue(y);
    assert n / 16 == HexValue(x) && n % 16 == HexValue(y);
    Format02xByte(n);
    HexCharOfValue(x);
    HexCharOfValue(y);
  }

  /** Every well-formed lower-case `#rrggbb` string is the swatch string of the colour it denotes. */
  lemma RgbToHexParse(s: string)
    requires ParseHexColor(s).Some?
    ensures RgbToHex(ParseHexColor(s).value) == s
  {
    PairFormat(s[1], s[2]);
    PairFormat(s[3], s[4]);
    PairFormat(s[5], s[6]);
    assert s == "#" + [s[1], s[2]] + [s[3], s[4]] + [s[5], s[6]];
  }
}
