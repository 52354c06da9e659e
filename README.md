# contrast-heatmap, modelled in Dafny

contrast-heatmap is a browser extension. It paints a translucent heatmap
over a web page that shows, text rectangle by text rectangle, whether the
text meets the WCAG 2.0 contrast thresholds. This project models its two
algorithmic parts and proves properties of them.

- **The contrast engine** (`src/utils/color.js`), modelled in `color.dfy`.
  It covers colour-string parsing (`parseColor`, `parseHex`, `parseRgb`),
  WCAG 2.0 relative luminance and contrast ratio, the tier classifier
  `getWCAGLevel` and the palette `getHeatmapColor`. The file is pure, so
  the model is datatypes, functions and lemmas.
- **The JavaScript built-ins the parser relies on**, modelled in
  `js_string.dfy`. These are `String.prototype.trim`, `toLowerCase`,
  `parseInt` with radix 10 or 16 (as ECMAScript defines it), and the
  matches of `/\d+/g`.
- **The decision logic of the content script**
  (`src/content/index.js`), with the DOM given as inputs, modelled in
  `content.dfy` and `overlay.dfy`:
  - The effective-background walk is a `while` loop over the element and
    its ancestors. It is proved equal to a recursive specification.
  - The 24px large-text threshold.
  - The strict viewport test.
  - One scan pass: nested loops over text nodes and their client rects,
    with the `drawnRects` set as a local variable. The loops are proved
    equal to a specification. That specification is proved to paint each
    rounded rectangle once, to paint exactly the visible rects, and to
    colour each one by its parent's tier at the current opacity.
  - The module-level state `isEnabled`, `opacity` and the canvas. This is
    a class whose methods are page load, `enableHeatmap`,
    `disableHeatmap`, the message listener, the debounced rescans and the
    resize handler.

`Math.pow(x, 2.4)` is a parameter `pow` of the luminance functions. The
model only assumes what `IsGammaPow` states: `pow` fixes 0 and 1 and is
monotone on non-negative numbers. A `parseInt` that yields NaN is `None`
in an `Option`. In the scan, a NaN colour makes the ratio NaN, which
`getWCAGLevel` classifies as `fail`.

Where the code departs from its own comments or from WCAG 2.0, the model
follows the code:

- `getWCAGLevel` tests `ratio >= 3` twice for large text. So large text is
  `aaa` from ratio 3 on, and `aa` never occurs for it (`LargeTextTiers`).
- A malformed hex colour does not fall back to white. `parseInt` gives NaN,
  or reads a prefix, or reads a sign: `#-f-f-f` gives channels of -15.
  So the "values 0-255" that the comment on `parseColor` promises
  (src/utils/color.js:4) do not hold on the `#` path.
- `rgb(...)` channels are not clamped to 255 either, so `rgb(300, 0, 0)`
  gives a red channel of 300.

## Model

| member | source | states |
|---|---|---|
| JsString.Trim | src/utils/color.js:7 | `String.prototype.trim`: drops the ECMAScript white space and line terminators at both ends |
| JsString.Lower | src/utils/color.js:7 | `toLowerCase` on ASCII letters; the length is kept |
| JsString.ParseInt | src/utils/color.js:39-41 | `parseInt` for radix 10 and 16: skip leading white space, read one sign, for radix 16 drop a `0x`/`0X`, then read the longest digit prefix; no digit gives NaN (`None`) |
| JsString.TrimStartDropsSpaces | src/utils/color.js:7 | `trim` keeps a suffix of the string; what it removes at the front is ECMAScript white space, and the result does not start with white space |
| JsString.TrimEndDropsSpaces | src/utils/color.js:7 | `trim` keeps a prefix of the string; what it removes at the end is white space, and the result does not end with white space |
| JsString.NormalizeKeepsHead | src/utils/color.js:7 | trim-then-lowercase keeps the first n characters, lower-cased, when the first and the n-th are not white space |
| JsString.DigitPrefixLen | src/utils/color.js:39-41 | the length of the longest prefix of radix digits: all of it is digits and the next character is not |
| JsString.Value | src/utils/color.js:39-41 | a string of k digits denotes a number below radix^k |
| JsString.ParseIntOfDigits | src/utils/color.js:58-60 | `parseInt` of a non-empty digit string is the number it denotes |
| JsString.ShortHexRange | src/utils/color.js:39-41 | `parseInt` in radix 16 of a slice of at most two characters is NaN or lies in [-15, 255] |
| JsString.DigitRuns | src/utils/color.js:52 | every match of `/\d+/g` is a non-empty run of decimal digits |
| JsString.RunsSkipNoDigits | src/utils/color.js:52 | characters that are not digits add no match |
| JsString.RunsTakeRun | src/utils/color.js:52 | a maximal run of digits is one match, followed by the matches of the rest |
| JsString.RunsAppendNoDigits | src/utils/color.js:52 | appending characters that are not digits adds no match |
| JsString.RunsIgnoreCase | src/utils/color.js:7 | lower-casing does not change the matches |
| JsString.RunsIgnoreNormalize | src/utils/color.js:7 | trimming and lower-casing do not change the matches |
| Color.Normalize | src/utils/color.js:7 | the colour string trimmed, then lower-cased |
| Color.IsHashForm | src/utils/color.js:10 | `color.startsWith('#')`: the string is non-empty and its first character is `#` |
| Color.IsRgbForm | src/utils/color.js:15 | `color.startsWith('rgb')`: the first three characters are `r`, `g`, `b`, so `rgba(...)` passes too |
| Color.ParseColor | src/utils/color.js:6-21 | NaN only on the `#` path; hex channels lie in [-15, 255]; any other input gives non-negative channels; input that, once normalised, starts with neither `#` nor `rgb` gives white |
| Color.Substring | src/utils/color.js:39-41 | `String.prototype.substring(start, end)` for start <= end: both ends are clamped to the length, so the slice has at most end - start characters |
| Color.ParseHex | src/utils/color.js:28-44 | a parsed hex colour has channels in [-15, 255] |
| Color.ReadRun | src/utils/color.js:58-60 | a match is read by `parseInt(match, 10)` to a natural number |
| Color.ParseRgb | src/utils/color.js:51-62 | the channels are non-negative |
| Color.HexPairParses | src/utils/color.js:39-41 | two hex digits parse to the byte they write |
| Color.HexByteIgnoresCase | src/utils/color.js:7-11 | lower-casing two hex digits keeps the byte they write |
| Color.ParseHexLong | src/utils/color.js:39-43 | `#` and six hex digits give the three pairs as bytes |
| Color.ParseHexShort | src/utils/color.js:32-43 | `#` and three hex digits give each digit doubled as a byte |
| Color.HexReadsFirstSixDigits | src/utils/color.js:6-44 | `#` then six hex digits, in any case and followed by anything (an alpha pair, say), gives the first three pairs as bytes 0-255 |
| Color.ShortHexValue | src/utils/color.js:32-41 | `parseColor` of `#xyz` is (xx, yy, zz) read as bytes |
| Color.ShortHexDoublesDigits | src/utils/color.js:32-37 | `#xyz` parses exactly as `#xxyyzz`, each channel 17 times its digit |
| Color.DoubledDigit | src/utils/color.js:35 | a digit written twice is the byte 17 times the digit |
| Color.LongHexValue | src/utils/color.js:39-43 | `parseColor` of `#` and six hex digits is the three pairs read as bytes |
| Color.BareHexIsWhite | src/utils/color.js:15-20 | hex digits without the `#` give white |
| Color.KeywordsAreWhite | src/utils/color.js:19-20 | input that, after leading white space, is empty or starts with neither `#` nor `r`/`R` gives white |
| Color.RgbReadsFirstThreeRuns | src/utils/color.js:51-61 | on the rgb path the result is the first three digit runs of the raw input, unclamped, or white when there are fewer than three |
| Color.RgbFunctionalNotation | src/utils/color.js:52-61 | `rgb(a, b, c)` and `rgba(a, b, c, alpha)`, with any digit-free separators, give (a, b, c); the alpha is ignored |
| Color.RunsOfThreeNumbers | src/utils/color.js:52 | three numbers set apart by digit-free separators are the first three matches |
| Color.RunsAfterSeparator | src/utils/color.js:52 | a number followed by a digit-free separator is one match |
| Color.RgbTwoNumbersIsWhite | src/utils/color.js:52-55 | an rgb colour with only two numbers gives white |
| Color.RgbPrefixSurvives | src/utils/color.js:7-15 | input that starts with `rgb` still does after trim and lowercase |
| Color.ShortHexExample | src/utils/color.js:32-43 | `#abc` and `#aabbcc` both give (170, 187, 204) |
| Color.UpperShortHexExample | src/utils/color.js:6-44 | `#ABC` gives (170, 187, 204) |
| Color.LongHexExample | src/utils/color.js:6-44 | `#3B82F6` gives (59, 130, 246) |
| Color.WhiteHexExample | src/utils/color.js:6-44 | `#ffffff` gives white |
| Color.TransparentIsWhite | src/utils/color.js:19-20 | `transparent` gives white |
| Color.EmptyIsWhite | src/utils/color.js:19-20 | the empty string gives white |
| Color.UnknownWordIsWhite | src/utils/color.js:19-20 | `bogus` gives white |
| Color.BareHexExample | src/utils/color.js:15-20 | `ffffff` without `#` gives white |
| Color.RgbaExample | src/utils/color.js:51-61 | `rgba(10, 20, 30, 0.5)` gives (10, 20, 30) |
| Color.RgbBlackExample | src/utils/color.js:51-61 | `rgb(0,0,0)` gives black |
| Color.Linearize | src/utils/color.js:70-74 | one channel divided by 255, then `c / 12.92` up to 0.03928 and `pow((c + 0.055) / 1.055)` above |
| Color.Luminance | src/utils/color.js:69-77 | 0.2126, 0.7152 and 0.0722 times the linearised red, green and blue |
| Color.LinearizeInUnit | src/utils/color.js:72-74 | the sRGB transfer function maps a byte channel into [0, 1] |
| Color.LinearizeAboveFloor | src/utils/color.js:72-74 | for any channel a parse can give (at least -15) the transfer function is at least -0.005 |
| Color.LuminanceInUnit | src/utils/color.js:69-77 | the relative luminance of a byte colour lies in [0, 1] |
| Color.LuminanceBlackWhite | src/utils/color.js:69-77 | black has luminance 0 and white has luminance 1 |
| Color.LuminanceAboveFloor | src/utils/color.js:69-77 | any parsed colour has luminance at least -0.005, so the ratio's denominator is positive |
| Color.MaxReal | src/utils/color.js:89 | `Math.max` of the two luminances |
| Color.MinReal | src/utils/color.js:90 | `Math.min` of the two luminances |
| Color.ContrastRatio | src/utils/color.js:85-93 | the ratio is at least 1 |
| Color.RatioSymmetric | src/utils/color.js:89-92 | the ratio does not depend on which colour is the foreground |
| Color.RatioAtMost21 | src/utils/color.js:85-93 | for byte colours the ratio is at most 21 |
| Color.UnitRatioAtMost21 | src/utils/color.js:89-92 | for luminances in [0, 1], (lighter + 0.05) / (darker + 0.05) is at most 21 |
| Color.BlackWhiteRatio | src/utils/color.js:85-93 | black on white and white on black both have ratio exactly 21 |
| Color.WcagLevel | src/utils/color.js:101-110 | as written: large text is `aaa` from ratio 3 (the `aa` test repeats the `aaa` test); normal text is `aaa` from 7 and `aa` from 4.5; otherwise `fail` |
| Color.LevelMonotone | src/utils/color.js:101-110 | for a fixed size a higher ratio never gives a lower tier |
| Color.LargeTextTiers | src/utils/color.js:102-104 | large text is `aaa` exactly when the ratio is at least 3, and never `aa` |
| Color.LargeNeverBelowNormal | src/utils/color.js:101-110 | at the same ratio large text never gets a lower tier than normal text |
| Color.Palette | src/utils/color.js:120-124 | the `colors` object: `fail` is (239, 68, 68), `aa` is (234, 179, 8), `aaa` is (59, 130, 246) |
| Color.HeatmapColor | src/utils/color.js:119-127 | the alpha is the given opacity; the colour is one of the three palette entries; a level other than `aa` or `aaa` gets the fail colour |
| Color.PaletteIdentifiesLevel | src/utils/color.js:120-124 | the three palette colours are distinct, so the painted colour tells the tier |
| Color.BlackOnWhiteIsBlue | src/utils/color.js:101-127 | black on white is `aaa` at either size and is painted (59, 130, 246) at the given opacity |
| Content.IsPainted | src/content/index.js:27 | a background counts when it is not empty, not `rgba(0, 0, 0, 0)` and not `transparent` |
| Content.EffectiveBackground | src/content/index.js:19-36 | the colour the walk returns, when it is a number, has every channel at least -15 |
| Content.EffectiveBackgroundColor | src/content/index.js:19-36 | the loop returns the colour the recursive specification gives |
| Content.BackgroundIsFirstPainted | src/content/index.js:22-29 | the first non-empty background that is neither `rgba(0, 0, 0, 0)` nor `transparent`, below the document element, is parsed and returned |
| Content.NoPaintedIsWhite | src/content/index.js:22-35 | reaching the document element or the top without such a background gives white; the document element's own background is not read |
| Content.BackgroundComesFromPath | src/content/index.js:19-36 | the result is white or the parse of a painted background on the path that the walk reached |
| Content.WhiteBackgroundExample | src/content/index.js:27-28 | an element painted `#ffffff` has a white effective background |
| Content.FontSizeClass | src/content/index.js:81-86 | the size is large exactly when the font size is at least 24px |
| Content.LargerFontNeverLowersTier | src/content/index.js:81-86 | at the same ratio a larger font never gets a lower tier |
| Content.InViewport | src/content/index.js:93-100 | top above the window's height, bottom below 0, left left of the window's width, right right of 0, all strict |
| Content.InViewportIffOverlap | src/content/index.js:93-100 | for sizes above zero, the test holds exactly when some point strictly inside the rect is strictly inside the window; a rect that only touches an edge is not in view |
| Content.Round | src/content/index.js:167 | `Math.round` gives the nearest integer, with halves rounded up |
| Content.Scanned | src/content/index.js:142-154 | the node filter: the text is not blank after `trim`, there is a parent element, its `display` is not `none`, and `getClientRects` did not throw (the caught throw of lines 185-187) |
| Content.Drawable | src/content/index.js:157-160 | the rect filter: width and height are not 0 and the rect is in the viewport |
| Content.RectKey | src/content/index.js:163-167 | the `rectKey` of a rect: its rounded document position and rounded size |
| Content.KeyOf | src/content/index.js:163-167 | the `rectKey` of the rect a fill covers |
| Content.NodeLevel | src/content/index.js:172-178 | the tier of the parent's text: its parsed colour against its effective background at its font size; a NaN channel gives `fail` |
| Content.PaintFor | src/content/index.js:163-183 | the fill for a rect: at its document position, with its size, in the palette colour of the parent's tier at the current opacity |
| Content.PaintRect | src/content/index.js:157-183 | one inner iteration: an empty or off-screen rect, or one whose key is drawn, changes nothing; otherwise the key is added and the fill appended |
| Content.PaintRects | src/content/index.js:156-184 | the inner loop: the iterations over a node's rects in order |
| Content.PaintNodes | src/content/index.js:140-189 | the outer loop: nodes that are blank, have no parent, are hidden or cannot be measured are skipped; the others run the inner loop |
| Content.ScanPaints | src/content/index.js:137-189 | the fills of one pass, starting from an empty `drawnRects` |
| Content.BlackTextOnWhiteIsBlue | src/content/index.js:172-181 | `rgb(0,0,0)` text whose parent is painted `#ffffff` is tier `aaa` and its rects are painted blue |
| Content.ScanPass | src/content/index.js:137-189 | the nested loops produce exactly the fills of the pass specification |
| Content.PaintNodeRects | src/content/index.js:156-184 | the loop over one node's rects produces the fills and `drawnRects` the specification gives |
| Content.Fill | src/content/index.js:172-183 | the fill of one rect is placed at its document coordinates and coloured by its parent's tier at the current opacity |
| Content.PaintRectConsistent | src/content/index.js:166-169 | one rect step keeps `drawnRects` equal to the keys of the fills, and those keys distinct |
| Content.PaintRectsConsistent | src/content/index.js:156-184 | so does the loop over one node's rects |
| Content.PaintNodesConsistent | src/content/index.js:140-189 | so does the loop over the text nodes |
| Content.ScanKeysDistinct | src/content/index.js:138-169 | within one pass no rounded rectangle is painted twice |
| Content.PaintRectsFrom | src/content/index.js:156-183 | every fill the rect loop adds comes from a drawable rect of that node |
| Content.PaintNodesFrom | src/content/index.js:140-183 | every fill the node loop adds comes from a drawable rect of a scanned node |
| Content.ScanPaintsSound | src/content/index.js:140-183 | every fill of a pass belongs to a rect that is non-empty and in view, of a text node that is not blank, has a parent that is not hidden, and was measured; it is at the rect's document position and has the colour of the parent's tier at the current opacity |
| Content.ScanUsesOpacity | src/content/index.js:181-183 | every fill of a pass uses the current opacity |
| Content.RectKeysSplit | src/content/index.js:156-169 | the keys of a node's drawable rects are those of the first rect and those of the rest |
| Content.PaintRectsKeys | src/content/index.js:156-169 | the rect loop adds to `drawnRects` exactly the keys of the node's drawable rects |
| Content.PaintNodesKeys | src/content/index.js:140-169 | the node loop adds exactly the keys of the drawable rects of the scanned nodes |
| Content.ScanCoversDrawable | src/content/index.js:137-184 | a pass paints exactly one fill for each distinct rounded key among the drawable rects of the scanned text nodes |
| Overlay.HeatmapOverlay.constructor | src/content/index.js:8-11 | page load: disabled, opacity 0.3, canvas hidden, nothing drawn |
| Overlay.HeatmapOverlay.Scan | src/content/index.js:106-128 | without a context nothing changes; otherwise the canvas shows exactly one pass at the current opacity, and no other field changes |
| Overlay.HeatmapOverlay.EnableHeatmap | src/content/index.js:195-205 | enabled, canvas shown, scroll listener attached, one pass drawn |
| Overlay.HeatmapOverlay.DisableHeatmap | src/content/index.js:223-230 | disabled, canvas hidden, listener removed; opacity and drawing kept |
| Overlay.HeatmapOverlay.OnMessage | src/content/index.js:261-277 | `ENABLE_HEATMAP` enables and replies `enabled`; `DISABLE_HEATMAP` disables and replies `disabled`; `UPDATE_OPACITY` changes only the opacity (and the drawing, if enabled) and replies `updated`; `GET_STATUS` changes nothing and replies `isEnabled`; any other type changes nothing and sends no reply |
| Overlay.HeatmapOverlay.OnRescanTimer | src/content/index.js:211-218 | the debounced rescan repaints only while enabled |
| Overlay.HeatmapOverlay.OnResize | src/content/index.js:235-256 | resizing clears the canvas and repaints only while enabled |

The class invariant `Valid` holds from page load on and is kept by every
method. It says:

- the canvas is shown, and the scroll listener is attached, exactly while
  the heatmap is enabled;
- the drawing has one fill per rounded rectangle;
- while enabled, every fill is in the current opacity;
- without a 2D context nothing is drawn.

## Left out

- Browser I/O is not modelled. This covers canvas creation and sizing
  (`createCanvasOverlay`), `TreeWalker`, `Range.getClientRects`,
  `getComputedStyle`, `addEventListener`, `MutationObserver` and
  `setTimeout`. Their results are inputs instead: text nodes with their
  parent's computed style and ancestor backgrounds, rects, the viewport,
  and one method call per message or timer that fires.
- The debouncing is not modelled: `OnRescanTimer` is the timer that fired,
  not the clearing and re-arming of timeouts.
- The initial `chrome.storage.local` read (src/content/index.js:303-310)
  is not modelled. Neither are the popup (src/popup/App.jsx), the service
  worker, `src/utils/i18n.js` with its APCA labels, or tailwind.config.js.
  These are foreign extension APIs and UI. The storage callback calls
  `enableHeatmap` before it sets the stored opacity. So right after it, an
  enabled canvas can show fills in the old opacity until the next rescan,
  and the opacity clause of `Valid` does not hold then.
- Floating point is not modelled: luminance and ratio are computed over
  real numbers. `Math.pow(x, 2.4)` is the parameter `pow`, of which only
  `IsGammaPow` is assumed.
- Very large digit runs are not modelled: `parseInt` gives an exact
  integer where JavaScript would round to a double.
- FontSizeClass: takes the font size as a real number, so `parseFloat` of
  the CSS value (and the NaN it can give, which makes the size `normal`)
  is not modelled.
- ContrastRatio: requires both colours to have channels of at least -15.
  Every parse result and white meet this. A NaN channel is handled by the
  caller, which gives the tier `fail`.
- Lower: maps only the ASCII letters A-Z. No other character lower-cases
  to `#`, `r`, `g`, `b` or a hex digit, so same-length mappings of other
  letters do not change any result. Length-changing mappings do: `İ`
  (U+0130) lower-cases to two code units, `i` and U+0307. That shifts the
  `substring` offsets of the hex slices (src/utils/color.js:29-41) and can
  turn a NaN channel into a number or the reverse. `#aİbbcc` gives
  `{r: 10, g: NaN, b: 188}` in JavaScript, while the model gives
  (10, 187, 204).
- Strings are sequences of Unicode code points, whereas JavaScript counts
  UTF-16 code units. The difference shows only in the `h.length === 3`
  test and the `substring` offsets of a hex colour that holds characters
  outside the Basic Multilingual Plane.
- HeatmapColor: returns an (rgb, opacity) value, not the CSS string. The
  JavaScript number-to-string formatting of the opacity is not modelled.
  Neither is a level naming an inherited property of the `colors` object
  (such as `constructor`), which would not fall back to the fail colour.
- Exceptions other than `getClientRects` throwing are not modelled. A
  throw there is a text node whose rects are `None`, and that node is
  skipped.
- The canvas is created at page load and never removed, so `canvas` is
  never null after load. Only a missing 2D context (`hasContext`) makes a
  scan do nothing.
- The `drawnRects` key is the tuple of the four rounded numbers, not the
  string that joins them with `-`. The string is a function of the tuple,
  and distinct tuples give distinct strings: after a digit a `-` always
  separates, and a second `-` is a sign. `Math.round` giving `-0`, which
  prints as `0`, is the integer 0 here.
