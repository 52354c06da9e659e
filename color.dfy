/** The contrast engine: colour-string parsing, WCAG 2.0 relative luminance
    and contrast ratio, the compliance tiers and the heatmap palette. */
module Color {
  import opened Wrappers
  import opened JsString

  datatype Rgb = Rgb(r: int, g: int, b: int)

  const White := Rgb(255, 255, 255)
  const Black := Rgb(0, 0, 0)

  /** Every channel is a byte, as in a colour written with two hex digits
      per channel. */
  predicate IsByteColor(c: Rgb) {
    0 <= c.r <= 255 && 0 <= c.g <= 255 && 0 <= c.b <= 255
  }

  /** No channel is below -15, the least value a channel can be parsed to
      (parseInt of "-f" in radix 16). */
  predicate AboveFloor(c: Rgb) {
    c.r >= -15 && c.g >= -15 && c.b >= -15
  }

  /** color.startsWith('#') */
  predicate IsHashForm(color: string) {
    |color| >= 1 && color[0] == '#'
  }

  /** color.startsWith('rgb'), which rgba(...) also satisfies. */
  predicate IsRgbForm(color: string) {
    |color| >= 3 && color[0] == 'r' && color[1] == 'g' && color[2] == 'b'
  }

  /** colorString.trim().toLowerCase() */
  function Normalize(s: string): string {
    Lower(Trim(s))
  }

  /** parseColor. None stands for a result whose channels are not all
      numbers: parseInt gave NaN for some pair of a malformed hex colour. */
  function ParseColor(s: string): (c: Option<Rgb>)
    ensures c.None? ==> IsHashForm(Normalize(s))
    ensures c.Some? ==> AboveFloor(c.value)
    ensures c.Some? && IsHashForm(Normalize(s)) ==>
      c.value.r <= 255 && c.value.g <= 255 && c.value.b <= 255
    ensures !IsHashForm(Normalize(s)) ==> c.Some? && c.value.r >= 0 && c.value.g >= 0 && c.value.b >= 0
    ensures !IsHashForm(Normalize(s)) && !IsRgbForm(Normalize(s)) ==> c == Some(White)
  {
    var color := Normalize(s);
    if IsHashForm(color) then ParseHex(color)
    else if IsRgbForm(color) then Some(ParseRgb(color))
    else Some(White)
  }

  function Min(a: int, b: int): int {
    if a <= b then a else b
  }

  /** String.prototype.substring for start <= end: both ends are clamped to
      the length. */
  function Substring(s: string, start: nat, end: nat): (t: string)
    requires start <= end
    ensures |t| <= end - start
  {
    s[Min(start, |s|)..Min(end, |s|)]
  }

  /** parseHex: drop the '#', double each digit of a three-digit form, then
      parseInt each two-character slice in radix 16. */
  function ParseHex(hex: string): (c: Option<Rgb>)
    requires IsHashForm(hex)
    ensures c.Some? ==> AboveFloor(c.value) && c.value.r <= 255 && c.value.g <= 255 && c.value.b <= 255
  {
    var h0 := hex[1..];
    var h := if |h0| == 3 then [h0[0], h0[0], h0[1], h0[1], h0[2], h0[2]] else h0;
    var r := ParseInt(Substring(h, 0, 2), 16);
    var g := ParseInt(Substring(h, 2, 4), 16);
    var b := ParseInt(Substring(h, 4, 6), 16);
    ShortHexRange(Substring(h, 0, 2));
    ShortHexRange(Substring(h, 2, 4));
    ShortHexRange(Substring(h, 4, 6));
    if r.Some? && g.Some? && b.Some? then Some(Rgb(r.value, g.value, b.value)) else None
  }

  /** parseInt(run, 10) of one match of /\d+/. */
  function ReadRun(run: string): (n: nat)
    requires run != [] && AllDigits(run, 10)
    ensures ParseInt(run, 10) == Some(n)
  {
    ParseIntOfDigits(run, 10);
    Value(run, 10)
  }

  /** parseRgb: the first three matches of /\d+/g, or white when there are
      fewer than three. */
  function ParseRgb(rgb: string): (c: Rgb)
    ensures c.r >= 0 && c.g >= 0 && c.b >= 0
  {
    var runs := DigitRuns(rgb);
    if |runs| < 3 then White
    else Rgb(ReadRun(runs[0]), ReadRun(runs[1]), ReadRun(runs[2]))
  }

  /** The byte written as two hex digits. */
  function HexByte(hi: char, lo: char): (n: nat)
    requires IsHexDigit(hi) && IsHexDigit(lo)
    ensures n <= 255
  {
    16 * DigitValue(hi) + DigitValue(lo)
  }

  lemma ValueOfTwo(a: char, b: char, radix: nat)
    requires radix == 10 || radix == 16
    requires IsRadixDigit(a, radix) && IsRadixDigit(b, radix)
    ensures Value([a, b], radix) == DigitValue(a) * radix + DigitValue(b)
  {
    assert [a, b][..1] == [a];
    assert [a][..0] == [];
  }

  /** Two hex digits parse to the byte they write. */
  lemma HexPairParses(a: char, b: char)
    requires IsHexDigit(a) && IsHexDigit(b)
    ensures ParseInt([a, b], 16) == Some(HexByte(a, b))
  {
    ParseIntOfDigits([a, b], 16);
    ValueOfTwo(a, b, 16);
  }

  lemma HexByteIgnoresCase(a: char, b: char)
    requires IsHexDigit(a) && IsHexDigit(b)
    ensures IsHexDigit(LowerChar(a)) && IsHexDigit(LowerChar(b))
    ensures HexByte(LowerChar(a), LowerChar(b)) == HexByte(a, b)
  {
    LowerKeepsDigit(a);
    LowerKeepsDigit(b);
  }

  /** The hex branch of parseColor. */
  lemma HashBranch(s: string)
    requires IsHashForm(Normalize(s))
    ensures ParseColor(s) == ParseHex(Normalize(s))
  {
  }

  /** The rgb branch of parseColor. */
  lemma RgbBranch(s: string)
    requires IsRgbForm(Normalize(s))
    ensures ParseColor(s) == Some(ParseRgb(Normalize(s)))
  {
  }

  /** parseHex of '#' and at least six characters of which the first six are
      hex digits. */
  lemma ParseHexLong(hex: string)
    requires IsHashForm(hex) && |hex| >= 7
    requires forall i :: 1 <= i < 7 ==> IsHexDigit(hex[i])
    ensures ParseHex(hex) == Some(Rgb(HexByte(hex[1], hex[2]), HexByte(hex[3], hex[4]), HexByte(hex[5], hex[6])))
  {
    var h := hex[1..];
    assert Substring(h, 0, 2) == [hex[1], hex[2]];
    assert Substring(h, 2, 4) == [hex[3], hex[4]];
    assert Substring(h, 4, 6) == [hex[5], hex[6]];
    HexPairParses(hex[1], hex[2]);
    HexPairParses(hex[3], hex[4]);
    HexPairParses(hex[5], hex[6]);
  }

  /** parseHex of '#' and exactly three hex digits. */
  lemma ParseHexShort(hex: string)
    requires IsHashForm(hex) && |hex| == 4
    requires forall i :: 1 <= i < 4 ==> IsHexDigit(hex[i])
    ensures ParseHex(hex) == Some(Rgb(HexByte(hex[1], hex[1]), HexByte(hex[2], hex[2]), HexByte(hex[3], hex[3])))
  {
    var h := [hex[1], hex[1], hex[2], hex[2], hex[3], hex[3]];
    assert Substring(h, 0, 2) == [hex[1], hex[1]];
    assert Substring(h, 2, 4) == [hex[2], hex[2]];
    assert Substring(h, 4, 6) == [hex[3], hex[3]];
    HexPairParses(hex[1], hex[1]);
    HexPairParses(hex[2], hex[2]);
    HexPairParses(hex[3], hex[3]);
  }

  /** '#' followed by six hex digits parses to the three digit pairs as
      bytes; whatever follows the sixth digit (an alpha pair, say) is not
      read. */
  lemma HexReadsFirstSixDigits(h: string)
    requires |h| >= 6 && forall i :: 0 <= i < 6 ==> IsHexDigit(h[i])
    ensures ParseColor("#" + h) == Some(Rgb(HexByte(h[0], h[1]), HexByte(h[2], h[3]), HexByte(h[4], h[5])))
    ensures IsByteColor(ParseColor("#" + h).value)
  {
    var x := "#" + h;
    NormalizeKeepsHead(x, 7);
    var color := Normalize(x);
    assert forall i :: 1 <= i < 7 ==> color[i] == LowerChar(h[i - 1]);
    HexByteIgnoresCase(h[0], h[1]);
    HexByteIgnoresCase(h[2], h[3]);
    HexByteIgnoresCase(h[4], h[5]);
    ParseHexLong(color);
    HashBranch(x);
    assert ParseColor(x) == ParseHex(color);
  }

  /** '#' and three hex digits: each digit is doubled, so each channel is
      17 times its digit. */
  lemma ShortHexValue(s: string)
    requires |s| == 4 && s[0] == '#'
    requires IsHexDigit(s[1]) && IsHexDigit(s[2]) && IsHexDigit(s[3])
    ensures ParseColor(s) == Some(Rgb(HexByte(s[1], s[1]), HexByte(s[2], s[2]), HexByte(s[3], s[3])))
  {
    NormalizeKeepsHead(s, 4);
    var color := Normalize(s);
    assert color == Lower(s);
    HexByteIgnoresCase(s[1], s[1]);
    HexByteIgnoresCase(s[2], s[2]);
    HexByteIgnoresCase(s[3], s[3]);
    ParseHexShort(color);
    HashBranch(s);
    assert ParseColor(s) == ParseHex(color);
  }

  /** parseHex reads a three-digit colour exactly as the six-digit colour
      that doubles each digit; each channel is 17 times its digit. */
  lemma ShortHexDoublesDigits(short: string, long: string)
    requires |short| == 4 && short[0] == '#'
    requires IsHexDigit(short[1]) && IsHexDigit(short[2]) && IsHexDigit(short[3])
    requires |long| == 7 && long[0] == '#'
    requires long[1] == long[2] == short[1] && long[3] == long[4] == short[2] && long[5] == long[6] == short[3]
    ensures ParseHex(short) == ParseHex(long)
    ensures ParseHex(short) == Some(Rgb(17 * DigitValue(short[1]), 17 * DigitValue(short[2]), 17 * DigitValue(short[3])))
  {
    assert forall i :: 1 <= i < 7 ==> IsHexDigit(long[i]);
    DoubledDigit(short[1]);
    DoubledDigit(short[2]);
    DoubledDigit(short[3]);
    ParseHexShort(short);
    ParseHexLong(long);
  }

  /** A digit written twice is the byte 17 times its value. */
  lemma DoubledDigit(c: char)
    requires IsHexDigit(c)
    ensures HexByte(c, c) == 17 * DigitValue(c)
  {
  }

  lemma LongHexValue(long: string)
    requires |long| == 7 && long[0] == '#'
    requires forall i :: 1 <= i < 7 ==> IsHexDigit(long[i])
    ensures ParseColor(long) == Some(Rgb(HexByte(long[1], long[2]), HexByte(long[3], long[4]), HexByte(long[5], long[6])))
  {
    HexReadsFirstSixDigits(long[1..]);
    assert long == "#" + long[1..];
  }

  /** A bare run of hex digits, without the '#', is not read as hex: the
      result is white. */
  lemma BareHexIsWhite(h: string)
    requires h != [] && forall i :: 0 <= i < |h| ==> IsHexDigit(h[i])
    ensures ParseColor(h) == Some(White)
  {
    NormalizeKeepsHead(h, 1);
    var color := Normalize(h);
    assert color[0] == LowerChar(h[0]);
    LowerKeepsDigit(h[0]);
  }

  /** Any input that, past its leading white space, is empty or starts with
      neither '#' nor 'r' (an empty value, "transparent", a named colour
      such as "blue" or "inherit") falls back to white. */
  lemma KeywordsAreWhite(s: string)
    requires var t := TrimStart(s); t == [] || (t[0] != '#' && LowerChar(t[0]) != 'r')
    ensures ParseColor(s) == Some(White)
  {
    var t := TrimStart(s);
    if t == [] {
      assert Normalize(s) == [];
    } else {
      assert TrimStart(t) == t;
      NormalizeKeepsHead(t, 1);
      assert Normalize(s)[0] == LowerChar(t[0]);
    }
  }

  /** A colour in the rgb branch reads the first three maximal runs of
      decimal digits of the raw input, with no clamping, and is white when
      the input holds fewer than three runs. */
  lemma RgbReadsFirstThreeRuns(s: string)
    requires IsRgbForm(Normalize(s))
    ensures var runs := DigitRuns(s);
      ParseColor(s) == if |runs| < 3 then Some(White)
                       else Some(Rgb(Value(runs[0], 10), Value(runs[1], 10), Value(runs[2], 10)))
  {
    RgbBranch(s);
    RunsIgnoreNormalize(s);
  }

  /** rgb(a, b, c) and rgba(a, b, c, alpha) give (a, b, c): whatever the
      separators are, the alpha and anything after the third number are
      ignored. */
  lemma RgbFunctionalNotation(p: string, a: string, sep1: string, b: string, sep2: string, c: string, rest: string)
    requires IsRgbForm(p) && NoDigits(p)
    requires a != [] && AllDigits(a, 10) && b != [] && AllDigits(b, 10) && c != [] && AllDigits(c, 10)
    requires sep1 != [] && NoDigits(sep1) && sep2 != [] && NoDigits(sep2)
    requires rest == [] || !IsDecimalDigit(rest[0])
    ensures ParseColor(p + a + sep1 + b + sep2 + c + rest) == Some(Rgb(Value(a, 10), Value(b, 10), Value(c, 10)))
  {
    var x := p + a + sep1 + b + sep2 + c + rest;
    RunsOfThreeNumbers(p, a, sep1, b, sep2, c, rest);
    assert IsRgbForm(x) by {
      assert x[..3] == p[..3];
    }
    RgbPrefixSurvives(x);
    RgbReadsFirstThreeRuns(x);
  }

  /** The first three runs of digits of three numbers set apart by
      digit-free separators are those numbers. */
  lemma RunsOfThreeNumbers(p: string, a: string, sep1: string, b: string, sep2: string, c: string, rest: string)
    requires NoDigits(p)
    requires a != [] && AllDigits(a, 10) && b != [] && AllDigits(b, 10) && c != [] && AllDigits(c, 10)
    requires sep1 != [] && NoDigits(sep1) && sep2 != [] && NoDigits(sep2)
    requires rest == [] || !IsDecimalDigit(rest[0])
    ensures var runs := DigitRuns(p + a + sep1 + b + sep2 + c + rest);
      |runs| >= 3 && runs[0] == a && runs[1] == b && runs[2] == c
  {
    var x := p + a + sep1 + b + sep2 + c + rest;
    var tail3 := c + rest;
    var tail2 := b + (sep2 + tail3);
    var tail1 := a + (sep1 + tail2);
    AppendAssoc(p + a + sep1 + b + sep2, c, rest);
    AppendAssoc(p + a + sep1 + b, sep2, tail3);
    AppendAssoc(p + a + sep1, b, sep2 + tail3);
    AppendAssoc(p + a, sep1, tail2);
    AppendAssoc(p, a, sep1 + tail2);
    assert x == p + tail1;
    var runs := [a] + ([b] + ([c] + DigitRuns(rest)));
    RunsOfThreeAtFront(a, sep1, b, sep2, c, rest);
    RunsSkipNoDigits(p, tail1);
    assert DigitRuns(x) == runs;
    assert runs[0] == a && runs[1] == b && runs[2] == c;
  }

  lemma AppendAssoc(u: string, v: string, w: string)
    ensures u + v + w == u + (v + w)
  {
  }

  /** The same with nothing before the first number. */
  lemma RunsOfThreeAtFront(a: string, sep1: string, b: string, sep2: string, c: string, rest: string)
    requires a != [] && AllDigits(a, 10) && b != [] && AllDigits(b, 10) && c != [] && AllDigits(c, 10)
    requires sep1 != [] && NoDigits(sep1) && sep2 != [] && NoDigits(sep2)
    requires rest == [] || !IsDecimalDigit(rest[0])
    ensures DigitRuns(a + (sep1 + (b + (sep2 + (c + rest))))) == [a] + ([b] + ([c] + DigitRuns(rest)))
  {
    RunsTakeRun(c, rest);
    RunsAfterSeparator(b, sep2, c + rest);
    RunsAfterSeparator(a, sep1, b + (sep2 + (c + rest)));
  }

  /** A number, a digit-free separator and then a number: the first number
      is one run. */
  lemma RunsAfterSeparator(a: string, sep: string, s: string)
    requires a != [] && AllDigits(a, 10)
    requires sep != [] && NoDigits(sep)
    ensures DigitRuns(a + (sep + s)) == [a] + DigitRuns(s)
  {
    RunsTakeRun(a, sep + s);
    RunsSkipNoDigits(sep, s);
  }

  /** An rgb colour with only two numbers falls back to white. */
  lemma RgbTwoNumbersIsWhite(p: string, a: string, sep: string, b: string, rest: string)
    requires IsRgbForm(p) && NoDigits(p)
    requires a != [] && AllDigits(a, 10) && b != [] && AllDigits(b, 10)
    requires sep != [] && NoDigits(sep) && NoDigits(rest)
    ensures ParseColor(p + a + sep + b + rest) == Some(White)
  {
    var x := p + a + sep + b + rest;
    assert x == p + (a + (sep + (b + rest)));
    RunsSkipNoDigits(rest, []);
    assert rest + [] == rest;
    RunsTakeRun(b, rest);
    RunsSkipNoDigits(sep, b + rest);
    RunsTakeRun(a, sep + (b + rest));
    RunsSkipNoDigits(p, a + (sep + (b + rest)));
    assert |DigitRuns(x)| == 2;
    RgbPrefixSurvives(x);
    RgbReadsFirstThreeRuns(x);
  }

  /** A raw string starting with "rgb" keeps that prefix once normalised. */
  lemma RgbPrefixSurvives(x: string)
    requires IsRgbForm(x)
    ensures IsRgbForm(Normalize(x))
  {
    NormalizeKeepsHead(x, 3);
  }

  /** #abc reads as #aabbcc, (170, 187, 204). */
  lemma ShortHexExample()
    ensures ParseHex("#abc") == ParseHex("#aabbcc") == Some(Rgb(170, 187, 204))
  {
    ShortHexDoublesDigits("#abc", "#aabbcc");
  }

  /** Case does not matter: #ABC is (170, 187, 204) too. */
  lemma UpperShortHexExample()
    ensures ParseColor("#ABC") == Some(Rgb(170, 187, 204))
  {
    ShortHexValue("#ABC");
  }

  /** #3B82F6 is (59, 130, 246). */
  lemma LongHexExample()
    ensures ParseColor("#3B82F6") == Some(Rgb(59, 130, 246))
  {
    assert "#3B82F6" == "#" + "3B82F6";
    HexReadsFirstSixDigits("3B82F6");
  }

  lemma WhiteHexExample()
    ensures ParseColor("#ffffff") == Some(White)
  {
    assert "#ffffff" == "#" + "ffffff";
    HexReadsFirstSixDigits("ffffff");
  }

  lemma TransparentIsWhite()
    ensures ParseColor("transparent") == Some(White)
  {
    KeywordsAreWhite("transparent");
  }

  lemma EmptyIsWhite()
    ensures ParseColor("") == Some(White)
  {
    KeywordsAreWhite("");
  }

  lemma UnknownWordIsWhite()
    ensures ParseColor("bogus") == Some(White)
  {
    KeywordsAreWhite("bogus");
  }

  lemma BareHexExample()
    ensures ParseColor("ffffff") == Some(White)
  {
    BareHexIsWhite("ffffff");
  }

  /** The alpha of rgba(...) is ignored. */
  lemma RgbaExample()
    ensures ParseColor("rgba(10, 20, 30, 0.5)") == Some(Rgb(10, 20, 30))
  {
    assert "rgba(10, 20, 30, 0.5)" == "rgba(" + "10" + ", " + "20" + ", " + "30" + ", 0.5)";
    assert Value("10", 10) == 10 by { ValueOfTwo('1', '0', 10); }
    assert Value("20", 10) == 20 by { ValueOfTwo('2', '0', 10); }
    assert Value("30", 10) == 30 by { ValueOfTwo('3', '0', 10); }
    RgbFunctionalNotation("rgba(", "10", ", ", "20", ", ", "30", ", 0.5)");
  }

  lemma RgbBlackExample()
    ensures ParseColor("rgb(0,0,0)") == Some(Black)
  {
    assert "rgb(0,0,0)" == "rgb(" + "0" + "," + "0" + "," + "0" + ")";
    assert Value("0", 10) == 0;
    RgbFunctionalNotation("rgb(", "0", ",", "0", ",", "0", ")");
  }

  // ---------------------------------------------------------------------
  // Relative luminance and contrast ratio (WCAG 2.0)

  /** What the model needs of x |-> Math.pow(x, 2.4) on x >= 0: it fixes 0
      and 1 and does not decrease. */
  ghost predicate IsGammaPow(pow: real -> real) {
    pow(0.0) == 0.0 && pow(1.0) == 1.0 &&
    forall x, y :: 0.0 <= x <= y ==> pow(x) <= pow(y)
  }

  /** The sRGB transfer function on one channel given on the 0-255 scale. */
  function Linearize(v: int, pow: real -> real): real {
    var c := v as real / 255.0;
    if c <= 0.03928 then c / 12.92 else pow((c + 0.055) / 1.055)
  }

  /** calculateLuminance */
  function Luminance(rgb: Rgb, pow: real -> real): real {
    0.2126 * Linearize(rgb.r, pow) + 0.7152 * Linearize(rgb.g, pow) + 0.0722 * Linearize(rgb.b, pow)
  }

  lemma LinearizeInUnit(v: int, pow: real -> real)
    requires IsGammaPow(pow) && 0 <= v <= 255
    ensures 0.0 <= Linearize(v, pow) <= 1.0
  {
    var c := v as real / 255.0;
    if c > 0.03928 {
      var base := (c + 0.055) / 1.055;
      assert 0.0 <= base <= 1.0;
      assert pow(0.0) <= pow(base) <= pow(1.0);
    }
  }

  lemma LinearizeAboveFloor(v: int, pow: real -> real)
    requires IsGammaPow(pow) && v >= -15
    ensures Linearize(v, pow) >= -0.005
  {
    var c := v as real / 255.0;
    if c > 0.03928 {
      var base := (c + 0.055) / 1.055;
      assert pow(0.0) <= pow(base);
    }
  }

  /** For byte channels the relative luminance lies in [0, 1]. */
  lemma LuminanceInUnit(rgb: Rgb, pow: real -> real)
    requires IsGammaPow(pow) && IsByteColor(rgb)
    ensures 0.0 <= Luminance(rgb, pow) <= 1.0
  {
    LinearizeInUnit(rgb.r, pow);
    LinearizeInUnit(rgb.g, pow);
    LinearizeInUnit(rgb.b, pow);
  }

  /** Black has luminance 0 and white luminance 1. */
  lemma LuminanceBlackWhite(pow: real -> real)
    requires IsGammaPow(pow)
    ensures Luminance(Black, pow) == 0.0
    ensures Luminance(White, pow) == 1.0
  {
    assert Linearize(255, pow) == pow(1.0);
  }

  /** Any parsed colour has luminance of at least -0.005, so the ratio's
      denominator is positive. */
  lemma LuminanceAboveFloor(rgb: Rgb, pow: real -> real)
    requires IsGammaPow(pow) && AboveFloor(rgb)
    ensures Luminance(rgb, pow) >= -0.005
  {
    LinearizeAboveFloor(rgb.r, pow);
    LinearizeAboveFloor(rgb.g, pow);
    LinearizeAboveFloor(rgb.b, pow);
  }

  function MaxReal(a: real, b: real): real {
    if a >= b then a else b
  }

  function MinReal(a: real, b: real): real {
    if a <= b then a else b
  }

  lemma QuotientAtLeastOne(a: real, b: real)
    requires 0.0 < b <= a
    ensures a / b >= 1.0
  {
  }

  lemma QuotientAtMost(a: real, b: real, k: real)
    requires 0.0 < b && a <= k * b
    ensures a / b <= k
  {
  }

  /** calculateContrastRatio: (lighter + 0.05) / (darker + 0.05). */
  function ContrastRatio(fg: Rgb, bg: Rgb, pow: real -> real): (ratio: real)
    requires IsGammaPow(pow) && AboveFloor(fg) && AboveFloor(bg)
    ensures ratio >= 1.0
  {
    var l1 := Luminance(fg, pow);
    var l2 := Luminance(bg, pow);
    LuminanceAboveFloor(fg, pow);
    LuminanceAboveFloor(bg, pow);
    var lighter := MaxReal(l1, l2);
    var darker := MinReal(l1, l2);
    QuotientAtLeastOne(lighter + 0.05, darker + 0.05);
    (lighter + 0.05) / (darker + 0.05)
  }

  /** The ratio does not depend on which colour is the foreground. */
  lemma RatioSymmetric(fg: Rgb, bg: Rgb, pow: real -> real)
    requires IsGammaPow(pow) && AboveFloor(fg) && AboveFloor(bg)
    ensures ContrastRatio(fg, bg, pow) == ContrastRatio(bg, fg, pow)
  {
  }

  /** For byte colours the ratio is at most 21. */
  lemma RatioAtMost21(fg: Rgb, bg: Rgb, pow: real -> real)
    requires IsGammaPow(pow) && IsByteColor(fg) && IsByteColor(bg)
    ensures ContrastRatio(fg, bg, pow) <= 21.0
  {
    LuminanceInUnit(fg, pow);
    LuminanceInUnit(bg, pow);
    UnitRatioAtMost21(Luminance(fg, pow), Luminance(bg, pow));
  }

  lemma UnitRatioAtMost21(l1: real, l2: real)
    requires 0.0 <= l1 <= 1.0 && 0.0 <= l2 <= 1.0
    ensures (MaxReal(l1, l2) + 0.05) / (MinReal(l1, l2) + 0.05) <= 21.0
  {
    QuotientAtMost(MaxReal(l1, l2) + 0.05, MinReal(l1, l2) + 0.05, 21.0);
  }

  /** Black on white, either way round, has the largest ratio, 21. */
  lemma BlackWhiteRatio(pow: real -> real)
    requires IsGammaPow(pow)
    ensures ContrastRatio(Black, White, pow) == 21.0
    ensures ContrastRatio(White, Black, pow) == 21.0
  {
    LuminanceBlackWhite(pow);
  }

  // ---------------------------------------------------------------------
  // Compliance tiers and the heatmap palette

  /** The size class getWCAGLevel distinguishes: 'large' and everything
      else (the default 'normal'). */
  datatype TextSize = Normal | Large

  datatype Level = Fail | AA | AAA

  /** The order fail < aa < aaa. */
  function Rank(l: Level): nat {
    match l
    case Fail => 0
    case AA => 1
    case AAA => 2
  }

  /** getWCAGLevel as written: for large text both tests use 3, so aa is
      never returned for it. */
  function WcagLevel(ratio: real, size: TextSize): Level {
    if size == Large then
      if ratio >= 3.0 then AAA
      else if ratio >= 3.0 then AA
      else Fail
    else
      if ratio >= 7.0 then AAA
      else if ratio >= 4.5 then AA
      else Fail
  }

  /** A higher ratio never gives a lower tier. */
  lemma LevelMonotone(r1: real, r2: real, size: TextSize)
    requires r1 <= r2
    ensures Rank(WcagLevel(r1, size)) <= Rank(WcagLevel(r2, size))
  {
  }

  /** Large text is aaa from ratio 3 on and fails below; aa never occurs. */
  lemma LargeTextTiers(ratio: real)
    ensures WcagLevel(ratio, Large) != AA
    ensures WcagLevel(ratio, Large) == AAA <==> ratio >= 3.0
  {
  }

  /** At the same ratio, large text never gets a lower tier than normal
      text. */
  lemma LargeNeverBelowNormal(ratio: real)
    ensures Rank(WcagLevel(ratio, Normal)) <= Rank(WcagLevel(ratio, Large))
  {
  }

  datatype Rgba = Rgba(rgb: Rgb, alpha: real)

  /** The default of getHeatmapColor's opacity argument. */
  const DefaultOpacity: real := 0.3

  const FailColor := Rgb(239, 68, 68)
  const AaColor := Rgb(234, 179, 8)
  const AaaColor := Rgb(59, 130, 246)

  /** The colors object of getHeatmapColor: red, yellow, blue. */
  const Palette: map<string, Rgb> := map["fail" := FailColor, "aa" := AaColor, "aaa" := AaaColor]

  /** The string getWCAGLevel returns for a tier. */
  function LevelName(l: Level): string {
    match l
    case Fail => "fail"
    case AA => "aa"
    case AAA => "aaa"
  }

  /** getHeatmapColor: the palette entry of the level with the given
      opacity, the fail colour for any other level. */
  function HeatmapColor(level: string, opacity: real): (c: Rgba)
    ensures c.alpha == opacity
    ensures c.rgb == FailColor || c.rgb == AaColor || c.rgb == AaaColor
    ensures level != "aa" && level != "aaa" ==> c.rgb == FailColor
  {
    Rgba(if level in Palette then Palette[level] else Palette["fail"], opacity)
  }

  /** Reads the tier back from a heatmap colour. */
  function LevelOfColor(rgb: Rgb): Option<Level> {
    if rgb == FailColor then Some(Fail)
    else if rgb == AaColor then Some(AA)
    else if rgb == AaaColor then Some(AAA)
    else None
  }

  /** The palette is one-to-one: the painted colour tells the tier. */
  lemma PaletteIdentifiesLevel(l: Level, opacity: real)
    ensures LevelOfColor(HeatmapColor(LevelName(l), opacity).rgb) == Some(l)
  {
  }

  /** Black text on a white background: ratio 21, tier aaa at either
      size, painted blue. */
  lemma BlackOnWhiteIsBlue(pow: real -> real, size: TextSize, opacity: real)
    requires IsGammaPow(pow)
    ensures WcagLevel(ContrastRatio(Black, White, pow), size) == AAA
    ensures HeatmapColor(LevelName(AAA), opacity) == Rgba(AaaColor, opacity)
  {
    BlackWhiteRatio(pow);
  }
}
