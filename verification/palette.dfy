/**
 * Editing the palette list: the colour chooser adds a colour only when it is
 * not already there, a click on a swatch removes the first entry equal to the
 * swatch's own, and "Clear Palette" empties the list.
 *
 * A palette holds entries of two kinds. A palette read from a JSON file holds
 * lists `[r, g, b]`; the colour chooser contributes tuples `(r, g, b)`. In
 * Python a list never equals a tuple, so the two kinds are distinct values
 * even when their components agree, exactly as the two constructors of
 * `Entry` are distinct in Dafny.
 */
module PaletteEdit {
  import opened Wrappers
  import opened Color

  datatype Entry = Loaded(rgb: RGB) | Picked(rgb: RGB)

  /** The colours of a palette, which is what the quantizer reads: `c[i]` indexes lists and tuples alike. */
  function ColorsOf(palette: seq<Entry>): (cs: seq<RGB>)
    ensures |cs| == |palette|
    ensures forall k :: 0 <= k < |palette| ==> cs[k] == palette[k].rgb
  {
    seq(|palette|, k requires 0 <= k < |palette| => palette[k].rgb)
  }

  /** No value occurs twice. Loaded palettes need not satisfy this. */
  predicate NoDup<T(==)>(s: seq<T>) {
    forall i, j :: 0 <= i < j < |s| ==> s[i] != s[j]
  }

  /** Index of the first occurrence of `x`. */
  function IndexOf<T(==)>(s: seq<T>, x: T): (k: nat)
    requires x in s
    ensures k < |s| && s[k] == x && x !in s[..k]
  {
    if s[0] == x then 0
    else
      var k := 1 + IndexOf(s[1..], x);
      assert s[..k] == [s[0]] + s[1..][..k - 1];
      k
  }

  /**
   * The "Add Color" action as the source performs it; `chosen` is the
   * chooser's answer, `None` when the dialog was cancelled. The membership
   * test compares the new tuple with the entries, so a loaded list of the
   * same colour does not count as present.
   */
  function AddColor(palette: seq<Entry>, chosen: Option<RGB>): (r: seq<Entry>)
    ensures |palette| <= |r| <= |palette| + 1
    ensures r[..|palette|] == palette
    ensures chosen.Some? ==> Picked(chosen.value) in r
    ensures forall e :: e in r ==> e in palette || chosen == Some(e.rgb)
    ensures r == palette <==> chosen.None? || Picked(chosen.value) in palette
    ensures chosen.Some? && Picked(chosen.value) !in palette ==> r == palette + [Picked(chosen.value)]
    ensures NoDup(palette) ==> NoDup(r)
  {
    match chosen
    case None => palette
    case Some(c) => if Picked(c) in palette then palette else palette + [Picked(c)]
  }

  /**
   * Choosing a colour that the palette holds only as a loaded entry puts
   * that colour into the palette a second time.
   */
  lemma AddColorDuplicates(palette: seq<Entry>, c: RGB)
    requires Loaded(c) in palette && Picked(c) !in palette
    ensures var cs := ColorsOf(AddColor(palette, Some(c)));
      exists i, j :: 0 <= i < j < |cs| && cs[i] == c && cs[j] == c
    ensures !NoDup(ColorsOf(AddColor(palette, Some(c))))
  {
    var r := AddColor(palette, Some(c));
    var i := IndexOf(palette, Loaded(c));
    var cs := ColorsOf(r);
    assert r == palette + [Picked(c)];
    assert cs[i] == c && cs[|palette|] == c;
  }

  /** The smallest instance: a loaded palette holding red, and red chosen again. */
  lemma LoadedRedAddedTwice()
    ensures AddColor([Loaded(RGB(255, 0, 0))], Some(RGB(255, 0, 0)))
      == [Loaded(RGB(255, 0, 0)), Picked(RGB(255, 0, 0))]
  {
  }

  /**
   * The "Add Color" action as intended: the chosen colour is added only when
   * no entry of either kind already has it.
   */
  function AddColorByValue(palette: seq<Entry>, chosen: Option<RGB>): (r: seq<Entry>)
    ensures |palette| <= |r| <= |palette| + 1
    ensures r[..|palette|] == palette
    ensures chosen.Some? ==> chosen.value in ColorsOf(r)
    ensures forall e :: e in r ==> e in palette || chosen == Some(e.rgb)
    ensures r == palette <==> chosen.None? || chosen.value in ColorsOf(palette)
    ensures chosen.Some? && chosen.value !in ColorsOf(palette) ==> r == palette + [Picked(chosen.value)]
    ensures NoDup(ColorsOf(palette)) ==> NoDup(ColorsOf(r))
  {
    match chosen
    case None => palette
    case Some(c) =>
      var r := if c in ColorsOf(palette) then palette else palette + [Picked(c)];
      assert ColorsOf(palette + [Picked(c)]) == ColorsOf(palette) + [c];
      r
  }

  /** On a palette built by the chooser alone, the two membership tests agree. */
  lemma AddColorAgreesOnPicked(palette: seq<Entry>, chosen: Option<RGB>)
    requires forall e :: e in palette ==> e.Picked?
    ensures AddColor(palette, chosen) == AddColorByValue(palette, chosen)
  {
    if chosen.Some? {
      var c := chosen.value;
      if c in ColorsOf(palette) {
        var k :| 0 <= k < |palette| && ColorsOf(palette)[k] == c;
        assert palette[k] in palette;
        assert palette[k] == Picked(c);
      }
    }
  }

  /** Adding the same colour twice changes nothing the second time, in either version. */
  lemma AddColorIdempotent(palette: seq<Entry>, chosen: Option<RGB>)
    ensures AddColor(AddColor(palette, chosen), chosen) == AddColor(palette, chosen)
    ensures AddColorByValue(AddColorByValue(palette, chosen), chosen) == AddColorByValue(palette, chosen)
  {
  }

  /**
   * The swatch-click action: `list.remove` deletes the first entry equal to
   * the swatch's, and raises (here `None`) when there is none.
   */
  function RemoveColor(palette: seq<Entry>, e: Entry): (r: Option<seq<Entry>>)
    ensures r.None? <==> e !in palette
    ensures r.Some? ==> |r.value| == |palette| - 1
    ensures r.Some? ==> multiset(r.value) + multiset{e} == multiset(palette)
    ensures r.Some? ==> var k := IndexOf(palette, e);
      && r.value[..k] == palette[..k]
      && r.value[k..] == palette[k + 1..]
    ensures r.Some? && NoDup(palette) ==> NoDup(r.value) && e !in r.value
  {
    if e !in palette then None
    else
      var k := IndexOf(palette, e);
      var rest := palette[..k] + palette[k + 1..];
      assert palette == palette[..k] + [e] + palette[k + 1..];
      assert multiset(palette) == multiset(palette[..k]) + multiset{e} + multiset(palette[k + 1..]);
      RemoveAtKeepsNoDup(palette, k);
      Some(rest)
  }

  /** Deleting one entry of a duplicate-free palette leaves it duplicate-free and without that entry. */
  lemma RemoveAtKeepsNoDup(palette: seq<Entry>, k: nat)
    requires k < |palette|
    ensures var rest := palette[..k] + palette[k + 1..];
      NoDup(palette) ==> NoDup(rest) && palette[k] !in rest
  {
  }

  /**
   * Each swatch removes the entry it was drawn from: with no entry repeated,
   * clicking swatch `k` deletes exactly position `k`, whatever kinds the
   * other entries are.
   */
  lemma RemoveClickedSwatch(palette: seq<Entry>, k: nat)
    requires k < |palette| && NoDup(palette)
    ensures RemoveColor(palette, palette[k]) == Some(palette[..k] + palette[k + 1..])
  {
    var i := IndexOf(palette, palette[k]);
    assert i == k;
  }

  /**
   * A loaded list and a chosen tuple of the same colour are different
   * entries: clicking the tuple's swatch deletes the tuple, not the earlier
   * list.
   */
  lemma RemovePickedKeepsLoaded()
    ensures RemoveColor([Loaded(RGB(1, 2, 3)), Picked(RGB(4, 5, 6)), Picked(RGB(1, 2, 3))], Picked(RGB(1, 2, 3)))
      == Some([Loaded(RGB(1, 2, 3)), Picked(RGB(4, 5, 6))])
  {
    var pal := [Loaded(RGB(1, 2, 3)), Picked(RGB(4, 5, 6)), Picked(RGB(1, 2, 3))];
    var e := Picked(RGB(1, 2, 3));
    assert pal[0] != e && pal[1] != e && pal[2] == e;
    assert IndexOf(pal, e) == 2;
    assert pal[..2] + pal[3..] == [Loaded(RGB(1, 2, 3)), Picked(RGB(4, 5, 6))];
  }

  /** Removing a colour that was just added gives the palette back. */
  lemma AddThenRemove(palette: seq<Entry>, c: RGB)
    requires c !in ColorsOf(palette)
    ensures RemoveColor(AddColorByValue(palette, Some(c)), Picked(c)) == Some(palette)
  {
    var p := palette + [Picked(c)];
    assert AddColorByValue(palette, Some(c)) == p;
    forall k | 0 <= k < |palette|
      ensures palette[k] != Picked(c)
    {
      assert ColorsOf(palette)[k] == palette[k].rgb;
    }
    var k := IndexOf(p, Picked(c));
    assert k == |palette|;
    assert p[..k] + p[k + 1..] == palette;
  }

  /** The "Clear Palette" action. */
  function ClearPalette(): (r: seq<Entry>)
    ensures |r| == 0
  {
    []
  }

  /** After clearing, any colour that is added is the only entry. */
  lemma ClearThenAdd(c: RGB)
    ensures AddColorByValue(ClearPalette(), Some(c)) == [Picked(c)]
    ensures AddColor(ClearPalette(), Some(c)) == [Picked(c)]
  {
  }
}
