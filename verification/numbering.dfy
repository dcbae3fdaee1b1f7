/**
 * Choosing the next output file name in `save_palette` and `save_image`:
 * keep the directory entries that start with the prefix and end with the
 * suffix, read the integer between them, and use the largest number plus one
 * (or 1 when none parses).
 */
module Numbering {
  import opened Wrappers

  /** A numbered-file family: `palette<N>.json` or `img<N>.png`. */
  datatype Scheme = Scheme(prefix: string, suffix: string)

  const PaletteFiles := Scheme("palette", ".json")
  const ImageFiles := Scheme("img", ".png")

  // ---------------------------------------------------------------- decimal

  predicate IsDigit(ch: char) {
    '0' <= ch <= '9'
  }

  predicate AllDigits(s: string) {
    forall i :: 0 <= i < |s| ==> IsDigit(s[i])
  }

  function DigitChar(d: nat): char
    requires d < 10
  {
    (48 + d) as char
  }

  /** The value of a string of decimal digits, leading zeros allowed. */
  function DigitsValue(s: string): nat
    requires AllDigits(s)
  {
    if |s| == 0 then 0 else DigitsValue(s[..|s| - 1]) * 10 + (s[|s| - 1] as int - 48)
  }

  /** Decimal digits of `n` without leading zeros, as `str` writes them. */
  function Decimal(n: nat): (s: string)
    ensures |s| > 0 && AllDigits(s)
    ensures s[0] == '0' <==> n == 0
    ensures n == 0 ==> s == "0"
  {
    if n < 10 then [DigitChar(n)] else Decimal(n / 10) + [DigitChar(n % 10)]
  }

  lemma {:induction false} DecimalValue(n: nat)
    ensures DigitsValue(Decimal(n)) == n
  {
    if n >= 10 {
      var s := Decimal(n);
      assert s[..|s| - 1] == Decimal(n / 10);
      DecimalValue(n / 10);
    }
  }

  /** An integer written in decimal, with a minus sign when negative. */
  function FormatInt(n: int): (s: string)
    ensures n >= 0 ==> |s| > 0 && AllDigits(s) && (s[0] == '0' <==> n == 0)
    ensures n < 0 ==> |s| > 1 && s[0] == '-' && AllDigits(s[1..]) && s[1] != '0'
  {
    if n < 0 then "-" + Decimal(-n) else Decimal(n)
  }

  /**
   * The part of `int()`'s syntax this model accepts: an optional sign and at
   * least one ASCII digit; everything else is treated as the ValueError that
   * skips the file. `int()` itself also accepts surrounding whitespace, `_`
   * between digits and non-ASCII digits, which this parse rejects.
   */
  function ParseInt(s: string): (r: Option<int>)
    ensures r.Some? <==> ((|s| > 0 && AllDigits(s))
      || (|s| > 1 && (s[0] == '-' || s[0] == '+') && AllDigits(s[1..])))
    ensures r.Some? && s[0] == '-' ==> r.value <= 0
    ensures r.Some? && s[0] != '-' ==> r.value >= 0
  {
    if |s| > 0 && (s[0] == '-' || s[0] == '+') then
      var body := s[1..];
      if |body| > 0 && AllDigits(body) then
        var v: int := DigitsValue(body);
        Some(if s[0] == '-' then -v else v)
      else None
    else if |s| > 0 && AllDigits(s) then Some(DigitsValue(s))
    else None
  }

  /** Parsing reads back every integer the file name was written with. */
  lemma ParseFormat(n: int)
    ensures ParseInt(FormatInt(n)) == Some(n)
  {
    if n < 0 {
      var d := Decimal(-n);
      var s := "-" + d;
      assert s[0] == '-' && s[1..] == d;
      DecimalValue(-n);
      assert ParseInt(s) == Some(n);
    } else {
      var d := Decimal(n);
      assert IsDigit(d[0]);
      DecimalValue(n);
      assert ParseInt(d) == Some(DigitsValue(d));
    }
  }

  // ---------------------------------------------------------- file names

  predicate StartsWith(s: string, prefix: string) {
    |prefix| <= |s| && s[..|prefix|] == prefix
  }

  predicate EndsWith(s: string, suffix: string) {
    |suffix| <= |s| && s[|s| - |suffix|..] == suffix
  }

  /**
   * Python's `name[lo:-k]` for `k >= 1`: from `lo` to `k` before the end,
   * empty when the two bounds cross.
   */
  function SliceInner(name: string, lo: nat, k: nat): (m: string)
    requires k >= 1
    ensures lo + k <= |name| ==> m == name[lo..|name| - k]
    ensures lo + k > |name| ==> m == ""
  {
    var hi := if |name| >= k then |name| - k else 0;
    if lo < hi then name[lo..hi] else ""
  }

  /** The number a directory entry contributes, if it belongs to the family and its middle parses. */
  function NumberOf(name: string, sc: Scheme): (r: Option<int>)
    requires |sc.suffix| >= 1
    ensures r.Some? ==> StartsWith(name, sc.prefix) && EndsWith(name, sc.suffix)
    ensures r.Some? ==> |sc.prefix| + |sc.suffix| < |name|
    ensures StartsWith(name, sc.prefix) && EndsWith(name, sc.suffix) && |sc.prefix| + |sc.suffix| <= |name| ==>
      r == ParseInt(name[|sc.prefix|..|name| - |sc.suffix|])
  {
    if StartsWith(name, sc.prefix) && EndsWith(name, sc.suffix) then
      ParseInt(SliceInner(name, |sc.prefix|, |sc.suffix|))
    else None
  }

  /** The `numbers` list built from a directory listing, in listing order. */
  function ParsedNumbers(names: seq<string>, sc: Scheme): (r: seq<int>)
    requires |sc.suffix| >= 1
    ensures forall v :: v in r <==> exists i :: 0 <= i < |names| && NumberOf(names[i], sc) == Some(v)
  {
    if |names| == 0 then []
    else
      var rest := ParsedNumbers(names[1..], sc);
      assert forall i :: 1 <= i < |names| ==> names[i] == names[1..][i - 1];
      match NumberOf(names[0], sc)
      case Some(v) => [v] + rest
      case None => rest
  }

  /** The largest element. */
  function Max(xs: seq<int>): (m: int)
    requires |xs| > 0
    ensures m in xs
    ensures forall x :: x in xs ==> x <= m
  {
    if |xs| == 1 then xs[0]
    else
      var m := Max(xs[1..]);
      assert forall x :: x in xs ==> x == xs[0] || x in xs[1..];
      if xs[0] > m then xs[0] else m
  }

  /** `max(numbers) + 1 if numbers else 1`. */
  function NextNumber(numbers: seq<int>): (n: int)
    ensures |numbers| == 0 ==> n == 1
    ensures |numbers| > 0 ==> n - 1 in numbers
    ensures forall v :: v in numbers ==> v < n
  {
    if |numbers| > 0 then Max(numbers) + 1 else 1
  }

  /** The name the next save writes, e.g. `palette3.json`. */
  function NextFileName(names: seq<string>, sc: Scheme): (f: string)
    requires |sc.suffix| >= 1
    ensures StartsWith(f, sc.prefix) && EndsWith(f, sc.suffix)
    ensures NumberOf(f, sc) == Some(NextNumber(ParsedNumbers(names, sc)))
    ensures forall i :: 0 <= i < |names| && NumberOf(names[i], sc).Some? ==>
      NumberOf(names[i], sc).value < NumberOf(f, sc).value
    ensures (forall i :: 0 <= i < |names| ==> NumberOf(names[i], sc).None?) ==> NumberOf(f, sc) == Some(1)
  {
    var n := NextNumber(ParsedNumbers(names, sc));
    NumberOfBuilt(sc, n);
    sc.prefix + FormatInt(n) + sc.suffix
  }

  /** A name built from the family's prefix and suffix gives back the number written between them. */
  lemma NumberOfBuilt(sc: Scheme, n: int)
    requires |sc.suffix| >= 1
    ensures NumberOf(sc.prefix + FormatInt(n) + sc.suffix, sc) == Some(n)
  {
    var m := FormatInt(n);
    var name := sc.prefix + m + sc.suffix;
    assert name[..|sc.prefix|] == sc.prefix;
    assert name[|name| - |sc.suffix|..] == sc.suffix;
    assert name[|sc.prefix|..|name| - |sc.suffix|] == m;
    ParseFormat(n);
  }

  /** The next save never overwrites a file already in the directory. */
  lemma NextFileNameIsFresh(names: seq<string>, sc: Scheme)
    requires |sc.suffix| >= 1
    ensures NextFileName(names, sc) !in names
  {
    var nums := ParsedNumbers(names, sc);
    var n := NextNumber(nums);
    NumberOfBuilt(sc, n);
  }

  /** The next number exceeds the number of every matching file in the listing. */
  lemma NextNumberExceedsListing(names: seq<string>, sc: Scheme, i: nat, v: int)
    requires |sc.suffix| >= 1
    requires i < |names| && NumberOf(names[i], sc) == Some(v)
    ensures v < NextNumber(ParsedNumbers(names, sc))
  {
  }

  /** A name with nothing between prefix and suffix, such as `palette.json`, contributes no number. */
  lemma EmptyMiddleSkipped()
    ensures NumberOf("palette.json", PaletteFiles) == None
  {
  }

  /** The palette slice `[7:-5]` cuts exactly the prefix `palette` and the suffix `.json`. */
  lemma PaletteOffsets()
    ensures |PaletteFiles.prefix| == 7 && |PaletteFiles.suffix| == 5
  {
  }

  /** The image slice `[3:-4]` cuts exactly the prefix `img` and the suffix `.png`. */
  lemma ImageOffsets()
    ensures |ImageFiles.prefix| == 3 && |ImageFiles.suffix| == 4
  {
  }
}
