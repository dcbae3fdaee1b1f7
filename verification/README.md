# pixeler core, modelled in Dafny

`pixeler` turns a photograph into pixel art. It shrinks the image by an
integer pixel size using nearest-neighbour resampling. If the user palette is
non-empty, it replaces every cell of the small image with the nearest palette
colour. It then enlarges the result by the same factor, so each cell becomes a
uniform block. Around this sit three small pure pieces of logic:

- editing the palette list (add if absent, remove the first equal entry, clear);
- numbering output files (`palette<N>.json`, `img<N>.png`);
- writing colours as `#rrggbb` for the palette swatches.

All of `src/pixeler.py`'s logic lives in methods of the Tkinter application
object. The model takes out the pure parts and passes them the palette, the
directory listing and the chosen pixel size as explicit arguments.

| file | module | what it holds |
|---|---|---|
| `wrappers.dfy` | `Wrappers` | `Option` and `Result`, standing in for exceptions and cancelled dialogs |
| `color.dfy` | `Color` | `RGB`, the squared distance `SqDist`, and the uint8-wrapped distance the key becomes under NumPy 2 |
| `argmin.dfy` | `ArgMin` | the index Python's `min(..., key=...)` returns: a minimum, with the first one winning ties |
| `quantize.dfy` | `Quantize` | `get_nearest_color` and `apply_palette` |
| `raster.dfy` | `Raster` | images as row grids, the downsample (`Reduce`) and the upscale (`Expand`) |
| `pipeline.dfy` | `Pipeline` | `process_image`: reduce, quantize when the palette is non-empty, expand |
| `palette.dfy` | `PaletteEdit` | `add_color`, `remove_color`, `clear_palette` |
| `numbering.dfy` | `Numbering` | the next-number logic of `save_palette` and `save_image` |
| `hexcolor.dfy` | `HexColor` | `rgb_to_hex` and the parser that inverts it |

The library's downsample picks one source pixel per reduced cell; it does
not average the block. Which pixel
it picks depends on how the library rounds, and that is not visible here. The
model therefore takes it as a `Sampler` argument: a function from reduced
(row, column) to source (row, column), required only to stay inside the
source. The library's choice need not fall inside the cell's own block when
`s` does not divide the width (for width 29 and `s` = 10, reduced column 1
reads source column 21). So no block constraint is assumed.

The upscale is modelled exactly. Nearest-neighbour sampling at pixel centres
maps output column `x` to input column `floor((x + 0.5) / s)`, which equals
`x / s` (`Raster.CentreSample`). So every cell becomes an `s` by `s` block.

A zero-size resize and a pixel size below 1 are errors in the source. The
first is refused by the image library. The second is a division by zero or a
negative target size. The model returns them as `Failure(EmptyReduction)` and
`Failure(InvalidPixelSize)`.

The distance key depends on the NumPy version. The pixel's components are
uint8 scalars and the palette's are Python ints. Under NumPy 1.x the
scalar is promoted, so the key is the exact squared distance. Under NumPy 2
(the NEP 50 promotion rules) every difference, square and partial sum stays
uint8 and wraps modulo 256. A palette component outside 0..255 then raises
OverflowError. `Quantize.NearestColorAsWritten` models the NumPy 2 key,
including that error (see Findings). `Quantize.NearestColor` is the exact
search, and the rest of the model uses it.

A palette holds entries of two kinds. `json.load` produces lists `[r, g, b]`;
the colour chooser produces tuples `(r, g, b)`. A Python list never equals a
tuple, and the model keeps them apart as `Loaded` and `Picked` entries of
`PaletteEdit.Entry`. The membership test in `add_color` and `list.remove` in
`remove_color` compare whole entries. So a loaded colour does not stop the
chooser from adding it again (see Findings).

## Model

| member | source | states |
|---|---|---|
| ArgMin.ScanFrom | src/pixeler.py:165 | `min`'s left-to-right scan, which replaces its candidate only on a strictly smaller key, ends on the first minimum of the keys |
| ArgMin.FirstMinIndex | src/pixeler.py:165 | the index `min` selects is a minimum of the keys and every earlier key is strictly larger |
| ArgMin.FirstMinIndexIff | src/pixeler.py:165 | an index is the one `min` selects if and only if it is the first minimum |
| Color.SqDist | src/pixeler.py:165 | the exact key is zero exactly when the two colours are equal, and at most 3·255² for components in 0..255 |
| Color.WrappedSqDist | src/pixeler.py:165 | the key evaluated step by step in uint8 arithmetic is below 256 and equals the exact squared distance modulo 256 |
| Quantize.NearestIndex | src/pixeler.py:164-165 | the chosen palette position has the smallest squared distance to the pixel, and every earlier entry is strictly farther |
| Quantize.NearestColor | src/pixeler.py:164-165 | the returned colour is a palette entry, and no palette entry is strictly closer to the pixel |
| Quantize.NearestIndexIff | src/pixeler.py:165 | tie-break, both directions: position `k` is chosen if and only if it is the first position attaining the minimum distance |
| Quantize.NearestTieBreak | src/pixeler.py:165 | when two entries are equally close, the later one is never chosen |
| Quantize.TieExample | src/pixeler.py:165 | (5,5,5) is 75 from both (0,0,0) and (10,10,10), and (0,0,0), listed first, is chosen |
| Quantize.NearestOfMember | src/pixeler.py:164-165 | a pixel whose colour is in the palette keeps that colour |
| Quantize.QuantizeImage | src/pixeler.py:157-162 | same number of rows and the same row lengths; every cell becomes a palette entry no other entry is closer to |
| Quantize.QuantizeKeepsShape | src/pixeler.py:157-162 | an `h` by `w` image stays `h` by `w` |
| Quantize.QuantizeColorsInPalette | src/pixeler.py:157-162 | every colour present after quantizing is a palette member |
| Quantize.ApplyPalette | src/pixeler.py:157-162 | the row and column loop leaves the shape unchanged and sets cell (i, j) to the nearest entry for input cell (i, j) |
| Quantize.ApplyPaletteMatchesQuantize | src/pixeler.py:157-162 | the loop's result is exactly the quantized image |
| Quantize.NearestColorAsWritten | src/pixeler.py:165 | under NumPy 2: an error exactly when some palette component lies outside 0..255; otherwise a palette entry minimising the uint8-wrapped key, every earlier entry having a strictly larger key |
| Quantize.WrappedDistanceMisorders | src/pixeler.py:165 | the wrapped key sends a black pixel to (16,0,0) although (0,0,0) is in the palette; the corrected search returns (0,0,0) |
| Quantize.WrappedFirstEntry | src/pixeler.py:165 | with all components in 0..255, an entry listed first whose wrapped key is 0 is the one returned |
| Quantize.OutOfRangeOverflows | src/pixeler.py:165 | a palette entry loaded as (300,0,0) makes the search fail for every pixel |
| Raster.Reduce | src/pixeler.py:148 | the reduced image is `H // s` rows by `W // s` columns, and it contains only colours present in the source |
| Raster.Expand | src/pixeler.py:153 | the upscale is `s` times taller and wider than its input |
| Raster.CentreSample | src/pixeler.py:153 | the input pixel containing the centre of output pixel `y`, floor((y + 0.5) / s), is the block index `y / s` |
| Raster.ExpandAt | src/pixeler.py:153 | output pixel (y, x) of the upscale is the input pixel containing its centre, floor((y + 0.5) / s) by floor((x + 0.5) / s) |
| Raster.ExpandBlock | src/pixeler.py:153 | input pixel (i, j) fills every cell of the `s` by `s` block at rows `i*s..` and columns `j*s..` |
| Raster.ExpandUniformBlocks | src/pixeler.py:153 | every pixel of the upscale equals the top-left pixel of its block, so each block is one colour |
| Raster.ExpandColors | src/pixeler.py:153 | the upscale has exactly the colours of its input |
| Raster.ReduceExpandRoundTrip | src/pixeler.py:148-153 | downsampling an upscale at block corners gives back the original image |
| Pipeline.MapColors | src/pixeler.py:150-151 | with an empty palette the image passes through unchanged; otherwise all its colours are palette entries, and the shape is kept either way |
| Pipeline.Process | src/pixeler.py:145-153 | succeeds exactly when `s >= 1` and both `H // s` and `W // s` are at least 1; the output is `(H // s)*s` by `(W // s)*s`; its colours are palette entries when the palette is non-empty and source colours otherwise |
| Pipeline.ProcessNeverLarger | src/pixeler.py:148-153 | the output is never larger than the source, and less than one block of each axis is cropped |
| Pipeline.ProcessOrder | src/pixeler.py:148-153 | with a non-empty palette the result is upscale(quantize(reduce(source))), in that order |
| Pipeline.EmptyPalettePassThrough | src/pixeler.py:150-153 | with an empty palette the result is upscale(reduce(source)) exactly |
| Pipeline.ProcessIsUpscale | src/pixeler.py:153 | every successful result is the `s`-fold upscale of a rectangular image, so its blocks are uniform |
| Pipeline.RedNearestBlack | src/pixeler.py:165 | red is nearer black (65025) than white (130050) |
| Pipeline.SolidRedExample | src/pixeler.py:145-153 | a 4 by 4 solid red image at pixel size 2 with palette [black, white] comes out 4 by 4 solid black, for any sampler |
| Pipeline.NonDividingExample | src/pixeler.py:148-153 | a 5 by 5 image at pixel size 2 comes out 4 by 4 |
| PaletteEdit.IndexOf | src/pixeler.py:90 | the position `list.remove` deletes at: it holds the entry, and no earlier position does |
| PaletteEdit.AddColor | src/pixeler.py:77-83 | as the source does it: the palette grows by at most one entry; earlier entries and their order are kept; the chosen tuple is present afterwards; nothing else is added; the palette is unchanged exactly when the dialog was cancelled or that tuple is already present, and otherwise the tuple is appended at the end; a palette without repeated entries keeps none |
| PaletteEdit.AddColorDuplicates | src/pixeler.py:81-82 | when the chosen colour is present only as a loaded list, it occurs twice among the palette's colours afterwards |
| PaletteEdit.LoadedRedAddedTwice | src/pixeler.py:81-82 | a loaded [255,0,0] and red chosen again give a two-entry palette |
| PaletteEdit.AddColorByValue | src/pixeler.py:77-83 | as intended: the palette grows by at most one entry and keeps its earlier entries; it is unchanged exactly when the dialog was cancelled or some entry of either kind has the chosen colour, and otherwise the chooser's tuple is appended; so a palette whose colours are distinct keeps them distinct |
| PaletteEdit.AddColorAgreesOnPicked | src/pixeler.py:77-83 | on a palette built by the chooser alone, the source's test and the by-value test give the same result |
| PaletteEdit.AddColorIdempotent | src/pixeler.py:81-82 | adding the same choice twice has the effect of adding it once, in both versions |
| PaletteEdit.RemoveColor | src/pixeler.py:89-90 | a missing entry is an error; otherwise one entry is gone, the multiset loses exactly one copy of the entry, entries before its first occurrence stay in place and later ones shift down by one, and a palette without repeated entries no longer holds it |
| PaletteEdit.RemoveAtKeepsNoDup | src/pixeler.py:90 | deleting one position of a palette without repeated entries leaves none repeated and the deleted entry gone |
| PaletteEdit.RemoveClickedSwatch | src/pixeler.py:89-107 | with no entry repeated, clicking swatch `k` deletes exactly position `k` |
| PaletteEdit.RemovePickedKeepsLoaded | src/pixeler.py:89-90 | in `[[1,2,3], (4,5,6), (1,2,3)]`, removing the tuple `(1,2,3)` deletes position 2 and keeps the list at position 0 |
| PaletteEdit.AddThenRemove | src/pixeler.py:77-90 | removing a colour that was just added restores the previous palette |
| PaletteEdit.ClearPalette | src/pixeler.py:85-86 | the palette is empty afterwards |
| PaletteEdit.ClearThenAdd | src/pixeler.py:81-86 | after a clear, an added colour is the only entry, in both versions |
| Numbering.Decimal | src/pixeler.py:122 | a non-negative number is written as decimal digits with no leading zero, and zero as "0" |
| Numbering.DecimalValue | src/pixeler.py:122 | the decimal digits written for a number read back as that number |
| Numbering.FormatInt | src/pixeler.py:122 | a non-negative number is digits without a leading zero; a negative one is a minus sign followed by such digits |
| Numbering.ParseInt | src/pixeler.py:116 | the model's parse of a fragment succeeds exactly when it is a non-empty string of ASCII digits, optionally after one `+` or `-` (a subset of what `int()` accepts); the value is never positive after `-` and never negative otherwise |
| Numbering.ParseFormat | src/pixeler.py:116-122 | `int()` of the number written into a file name gives back that number, negative numbers included |
| Numbering.SliceInner | src/pixeler.py:116 | `name[lo:-k]` is the part between the first `lo` characters and the last `k`, and empty when those overlap |
| Numbering.NumberOf | src/pixeler.py:112-119 | a name yields a number only when it has the prefix and the suffix and something between them, and then the number is the model's parse (`Numbering.ParseInt`) of that middle |
| Numbering.ParsedNumbers | src/pixeler.py:112-119 | a number is collected if and only if some listed name has the prefix and the suffix and its middle parses to that number |
| Numbering.Max | src/pixeler.py:120 | `max` returns an element that no element exceeds |
| Numbering.NextNumber | src/pixeler.py:120 | 1 when no number parsed; otherwise one more than a parsed number; always above every parsed number |
| Numbering.NextFileName | src/pixeler.py:112-122 | the new name has the prefix and suffix and yields exactly the next number (`max(numbers) + 1`, or 1 when no listed file yields one), which is above the number of every listed file |
| Numbering.NumberOfBuilt | src/pixeler.py:112-122 | a name built from prefix, number and suffix is recognised and yields that number |
| Numbering.NextFileNameIsFresh | src/pixeler.py:112-125 | the name the next save writes is not already in the directory listing |
| Numbering.NextNumberExceedsListing | src/pixeler.py:112-120 | the next number is above the number of every matching entry in the listing |
| Numbering.EmptyMiddleSkipped | src/pixeler.py:112-119 | `palette.json` has an empty middle, so its parse fails and it contributes no number |
| Numbering.PaletteOffsets | src/pixeler.py:116 | the palette slice offsets 7 and 5 are the lengths of the prefix `palette` and the suffix `.json` |
| Numbering.ImageOffsets | src/pixeler.py:188 | the image slice offsets 3 and 4 are the lengths of the prefix `img` and the suffix `.png` |
| HexColor.Format02x | src/pixeler.py:199 | `02x` gives at least two characters: for a non-negative value, lower-case hex digits, exactly two when the value is below 256, with a leading `0` exactly when it is below 16; for a negative value, a minus sign and then hex digits |
| HexColor.Format02xByte | src/pixeler.py:199 | `02x` of a value in 0..255 is its two lower-case hex digits, high digit first |
| HexColor.RgbToHex | src/pixeler.py:198-199 | for components in 0..255: seven characters, `#` then six lower-case hex digits whose pairs read back as r, g and b in that order |
| HexColor.ParseRgbToHex | src/pixeler.py:198-199 | parsing the swatch string of a valid colour gives back that colour |
| HexColor.RgbToHexParse | src/pixeler.py:198-199 | every lower-case `#rrggbb` string is the swatch string of the colour it denotes |

## Left out

- The Tkinter window, buttons, slider, colour chooser, canvas, `select_image`, `reload_image` and `update_palette_display` are user-interface plumbing. The chooser's answer is an `Option<RGB>` argument.
- `display_resized_image` scales for display with floating-point arithmetic and `int()` truncation. It does not affect the processed image.
- File and JSON I/O are not modelled: `os.makedirs`, `os.listdir`, `open`, `json.dump`, `load_palette`, `load_palette_from_default`. The directory listing is an argument. A loaded palette is a sequence of `Loaded` entries. It may contain repeated colours and out-of-range components, so nothing assumes otherwise. Entries that are not three integers are not modelled.
- Image decoding, `convert("RGB")` and saving belong to the image library. A decoded image is a rectangular `Image` argument.
- Raster.Reduce: which source pixel the library's nearest-neighbour downsample reads is abstract (`Sampler`). The contract states only the dimensions and that reduced colours come from the source.
- Pipeline.Process: the zero-size error relies on the image library refusing a resize to width or height 0. The pixel-size bounds from the configuration module, which is not part of this model, are reduced to "`s` is an integer".
- The write of a palette colour into the uint8 array (src/pixeler.py:161-162) wraps or rejects components outside 0..255. The model keeps the palette colour unchanged.
- Quantize.NearestColor: uses the exact squared distance over unbounded integers, which is the key under NumPy 1.x. Under NumPy 2 the key wraps, or raises for out-of-range components; `Quantize.NearestColorAsWritten` models that (see Findings).
- Numbering.ParseInt: accepts an optional sign and ASCII digits only. Python's `int()` also accepts surrounding whitespace, underscores between digits and non-ASCII digits, so `int(' 5')`, `int('1_0')` and `int('５')` succeed in the source and fail in the model.
- Numbering.ParsedNumbers: parses with `Numbering.ParseInt`. That function accepts an optional sign and ASCII digits only. Python's `int()` also accepts surrounding whitespace, underscores between digits and non-ASCII digits, so a name such as `palette 5.json` counts in the source and not in the model.
- HexColor.RgbToHex: its contract covers components in 0..255 only. The function itself also models `02x` for other values: a minus sign, or more than two digits.

## Findings

| source | as written | input that shows it | evidently intended | confidence | as-written member | corrected member |
|---|---|---|---|---|---|---|
| src/pixeler.py:165 | the key `sum((p - c[i])**2 ...)` is evaluated with `p` a NumPy uint8 scalar, so each difference, square and partial sum is reduced modulo 256 (`Color.WrappedSqDist`), and the key is the exact distance modulo 256 (`Color.WrappedSqDist`) | pixel (0,0,0) with palette [(16,0,0), (0,0,0)]: 16² = 256 wraps to 0, so both keys are 0 and the first entry (16,0,0) is returned (`Quantize.WrappedDistanceMisorders`) | the exact squared distance, which returns the exact match (0,0,0) | medium; not executed; holds under NumPy 2 only, where a uint8 scalar minus a Python int stays uint8 | Quantize.NearestColorAsWritten | Quantize.NearestColor |
| src/pixeler.py:81-82 | `color_tuple not in self.palette` compares the chooser's tuple with the entries, and an entry read by `json.load` is a list, which never equals a tuple (`PaletteEdit.AddColor`) | load a palette file holding `[[255, 0, 0]]`, then choose red: the palette becomes `[[255, 0, 0], (255, 0, 0)]`, red twice (`PaletteEdit.AddColorDuplicates`, `PaletteEdit.LoadedRedAddedTwice`) | a colour already present in either form is not added again | high; not executed | PaletteEdit.AddColor | PaletteEdit.AddColorByValue |
