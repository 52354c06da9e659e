/** The JavaScript string built-ins that the colour parser relies on:
    String.prototype.trim, toLowerCase (ASCII letters), parseInt with radix
    10 or 16, and the global match of the regular expression /\d+/. */
module JsString {
  import opened Wrappers

  /** ECMAScript WhiteSpace and LineTerminator code points, which trim and
      parseInt both skip. */
  predicate IsSpace(c: char) {
    c == '\t' || c == '\n' || c == '\U{B}' || c == '\U{C}' || c == '\r' || c == ' ' ||
    c == '\U{A0}' || c == '\U{1680}' || ('\U{2000}' <= c <= '\U{200A}') ||
    c == '\U{2028}' || c == '\U{2029}' || c == '\U{202F}' || c == '\U{205F}' ||
    c == '\U{3000}' || c == '\U{FEFF}'
  }

  /** The number of leading white-space characters. */
  function LeadingSpaces(s: string): (n: nat)
    ensures n <= |s|
    ensures n < |s| ==> !IsSpace(s[n])
  {
    if s != [] && IsSpace(s[0]) then 1 + LeadingSpaces(s[1..]) else 0
  }

  /** The number of trailing white-space characters. */
  function TrailingSpaces(s: string): (n: nat)
    ensures n <= |s|
    ensures n < |s| ==> !IsSpace(s[|s| - n - 1])
  {
    if s != [] && IsSpace(s[|s| - 1]) then 1 + TrailingSpaces(s[..|s| - 1]) else 0
  }

  lemma {:induction false} LeadingAreSpaces(s: string, i: nat)
    requires i < LeadingSpaces(s)
    ensures IsSpace(s[i])
    decreases s
  {
    if i > 0 {
      LeadingAreSpaces(s[1..], i - 1);
    }
  }

  lemma {:induction false} TrailingAreSpaces(s: string, i: nat)
    requires |s| - TrailingSpaces(s) <= i < |s|
    ensures IsSpace(s[i])
    decreases s
  {
    if i < |s| - 1 {
      TrailingAreSpaces(s[..|s| - 1], i);
    }
  }

  /** Drops leading white space. */
  function TrimStart(s: string): (r: string)
    ensures |r| <= |s|
    ensures r == [] || !IsSpace(r[0])
  {
    s[LeadingSpaces(s)..]
  }

  /** Drops trailing white space. */
  function TrimEnd(s: string): (r: string)
    ensures |r| <= |s|
    ensures r == [] || !IsSpace(r[|r| - 1])
  {
    s[..|s| - TrailingSpaces(s)]
  }

  /** trimStart keeps a suffix of s, and what it removes is white space. */
  lemma TrimStartDropsSpaces(s: string)
    ensures TrimStart(s) == s[|s| - |TrimStart(s)|..]
    ensures forall i :: 0 <= i < |s| - |TrimStart(s)| ==> IsSpace(s[i])
  {
    forall i | 0 <= i < |s| - |TrimStart(s)| ensures IsSpace(s[i]) {
      LeadingAreSpaces(s, i);
    }
  }

  /** trimEnd keeps a prefix of s, and what it removes is white space. */
  lemma TrimEndDropsSpaces(s: string)
    ensures TrimEnd(s) == s[..|TrimEnd(s)|]
    ensures forall i :: |TrimEnd(s)| <= i < |s| ==> IsSpace(s[i])
  {
    forall i | |TrimEnd(s)| <= i < |s| ensures IsSpace(s[i]) {
      TrailingAreSpaces(s, i);
    }
  }

  /** String.prototype.trim. */
  function Trim(s: string): string {
    TrimEnd(TrimStart(s))
  }

  /** toLowerCase on one character; only the ASCII letters are mapped. */
  function LowerChar(c: char): (l: char)
    ensures 'A' <= c <= 'Z' ==> 'a' <= l <= 'z' && l as int - c as int == 32
    ensures !('A' <= c <= 'Z') ==> l == c
  {
    if 'A' <= c <= 'Z' then (c as int + 32) as char else c
  }

  /** String.prototype.toLowerCase, restricted to ASCII letters. */
  function Lower(s: string): (r: string)
    ensures |r| == |s|
  {
    seq(|s|, i requires 0 <= i < |s| => LowerChar(s[i]))
  }

  lemma LowerAppend(a: string, b: string)
    ensures Lower(a + b) == Lower(a) + Lower(b)
  {
    assert forall i :: 0 <= i < |a + b| ==> Lower(a + b)[i] == (Lower(a) + Lower(b))[i];
  }

  predicate IsDecimalDigit(c: char) {
    '0' <= c <= '9'
  }

  predicate IsHexDigit(c: char) {
    IsDecimalDigit(c) || 'a' <= c <= 'f' || 'A' <= c <= 'F'
  }

  /** A digit of the given radix; parseInt is only ever called with 10 or 16. */
  predicate IsRadixDigit(c: char, radix: nat) {
    if radix == 16 then IsHexDigit(c) else IsDecimalDigit(c)
  }

  /** The value of a hexadecimal digit; a decimal digit has the same value. */
  function DigitValue(c: char): (d: nat)
    requires IsHexDigit(c)
    ensures d < 16
    ensures IsDecimalDigit(c) ==> d < 10
  {
    if IsDecimalDigit(c) then c as int - '0' as int
    else if 'a' <= c <= 'f' then c as int - 'a' as int + 10
    else c as int - 'A' as int + 10
  }

  lemma LowerKeepsDigit(c: char)
    requires IsHexDigit(c)
    ensures IsHexDigit(LowerChar(c)) && DigitValue(LowerChar(c)) == DigitValue(c)
    ensures IsDecimalDigit(LowerChar(c)) == IsDecimalDigit(c)
  {
  }

  predicate AllDigits(ds: string, radix: nat) {
    forall i :: 0 <= i < |ds| ==> IsRadixDigit(ds[i], radix)
  }

  /** Length of the longest prefix of s made of digits of the radix. */
  function DigitPrefixLen(s: string, radix: nat): (k: nat)
    ensures k <= |s|
    ensures AllDigits(s[..k], radix)
    ensures k < |s| ==> !IsRadixDigit(s[k], radix)
    ensures s != [] && IsRadixDigit(s[0], radix) ==> k > 0
  {
    if s == [] || !IsRadixDigit(s[0], radix) then 0
    else
      var k := 1 + DigitPrefixLen(s[1..], radix);
      assert s[..k] == [s[0]] + s[1..][..k - 1];
      k
  }

  function Power(radix: nat, n: nat): (p: nat)
    requires radix > 0
    ensures p >= 1
  {
    if n == 0 then 1 else radix * Power(radix, n - 1)
  }

  /** The number a digit string denotes, most significant digit first. */
  function Value(ds: string, radix: nat): (v: nat)
    requires radix == 10 || radix == 16
    requires AllDigits(ds, radix)
    ensures v < Power(radix, |ds|)
  {
    if ds == [] then 0
    else
      var init := ds[..|ds| - 1];
      assert AllDigits(init, radix);
      var d := DigitValue(ds[|ds| - 1]);
      assert d < radix;
      var v := Value(init, radix);
      var p := Power(radix, |init|);
      assert v * radix + d < p * radix by {
        assert v <= p - 1;
        assert v * radix <= (p - 1) * radix;
      }
      v * radix + d
  }

  /** parseInt(s, radix) as ECMAScript defines it: skip leading white space,
      read an optional sign, for radix 16 drop an optional 0x or 0X prefix,
      then read the longest run of digits of the radix. None stands for NaN:
      no digit was found. */
  function ParseInt(s: string, radix: nat): Option<int>
    requires radix == 10 || radix == 16
  {
    var t := TrimStart(s);
    var negative := t != [] && t[0] == '-';
    var u := if t != [] && (t[0] == '-' || t[0] == '+') then t[1..] else t;
    var w := if radix == 16 && |u| >= 2 && u[0] == '0' && (u[1] == 'x' || u[1] == 'X') then u[2..] else u;
    var k := DigitPrefixLen(w, radix);
    if k == 0 then None
    else
      var m := Value(w[..k], radix);
      var n: int := if negative then -(m as int) else m;
      Some(n)
  }

  /** A string of digits parses to the number it denotes. */
  lemma ParseIntOfDigits(ds: string, radix: nat)
    requires radix == 10 || radix == 16
    requires ds != [] && AllDigits(ds, radix)
    ensures ParseInt(ds, radix) == Some(Value(ds, radix))
  {
    assert !IsSpace(ds[0]);
    assert ds[0] != '-' && ds[0] != '+';
    assert |ds| >= 2 ==> ds[1] != 'x' && ds[1] != 'X';
    var k := DigitPrefixLen(ds, radix);
    assert k == |ds| && ds[..k] == ds;
  }

  /** parseInt of at most two characters in radix 16 lies in [-15, 255]:
      a sign leaves room for one digit only. */
  lemma ShortHexRange(s: string)
    requires |s| <= 2
    ensures ParseInt(s, 16).Some? ==> -15 <= ParseInt(s, 16).value <= 255
  {
    var t := TrimStart(s);
    var negative := t != [] && t[0] == '-';
    var u := if t != [] && (t[0] == '-' || t[0] == '+') then t[1..] else t;
    var w := if |u| >= 2 && u[0] == '0' && (u[1] == 'x' || u[1] == 'X') then u[2..] else u;
    assert |w| <= |u| <= |t| <= 2;
    assert negative ==> |u| <= 1;
    var k := DigitPrefixLen(w, 16);
    if k > 0 {
      var m := Value(w[..k], 16);
      assert Power(16, 1) == 16 && Power(16, 2) == 256;
      assert m < Power(16, k);
      assert negative ==> m < 16;
      assert ParseInt(s, 16) == Some(if negative then -(m as int) else m);
    }
  }

  predicate NoDigits(s: string) {
    forall i :: 0 <= i < |s| ==> !IsDecimalDigit(s[i])
  }

  /** The matches of /\d+/g: the maximal runs of decimal digits, in order. */
  function DigitRuns(s: string): (runs: seq<string>)
    ensures forall i :: 0 <= i < |runs| ==> runs[i] != [] && AllDigits(runs[i], 10)
    decreases |s|
  {
    if s == [] then []
    else if !IsDecimalDigit(s[0]) then DigitRuns(s[1..])
    else
      var k := DigitPrefixLen(s, 10);
      var rest := DigitRuns(s[k..]);
      var runs := [s[..k]] + rest;
      assert forall i :: 1 <= i < |runs| ==> runs[i] == rest[i - 1];
      runs
  }

  /** Characters that are not digits contribute no run. */
  lemma {:induction false} RunsSkipNoDigits(p: string, s: string)
    requires NoDigits(p)
    ensures DigitRuns(p + s) == DigitRuns(s)
    decreases |p|
  {
    if p == [] {
      assert p + s == s;
    } else {
      assert (p + s)[1..] == p[1..] + s;
      RunsSkipNoDigits(p[1..], s);
    }
  }

  /** A run of digits followed by a non-digit (or the end) is one match. */
  lemma RunsTakeRun(a: string, s: string)
    requires a != [] && AllDigits(a, 10)
    requires s == [] || !IsDecimalDigit(s[0])
    ensures DigitRuns(a + s) == [a] + DigitRuns(s)
  {
    PrefixLenOfRun(a, s);
    assert (a + s)[..|a|] == a && (a + s)[|a|..] == s;
  }

  lemma {:induction false} PrefixLenOfRun(a: string, s: string)
    requires AllDigits(a, 10)
    requires s == [] || !IsDecimalDigit(s[0])
    ensures DigitPrefixLen(a + s, 10) == |a|
    decreases |a|
  {
    if a != [] {
      assert (a + s)[1..] == a[1..] + s;
      PrefixLenOfRun(a[1..], s);
    }
  }

  /** Appending characters that are not digits adds no run. */
  lemma {:induction false} RunsAppendNoDigits(s: string, q: string)
    requires NoDigits(q)
    ensures DigitRuns(s + q) == DigitRuns(s)
    decreases |s|
  {
    if s == [] {
      assert [] + q == q && q + [] == q;
      RunsSkipNoDigits(q, []);
    } else if !IsDecimalDigit(s[0]) {
      assert (s + q)[1..] == s[1..] + q;
      RunsAppendNoDigits(s[1..], q);
    } else {
      var k := DigitPrefixLen(s, 10);
      var a := s[..k];
      assert s == a + s[k..];
      assert s + q == a + (s[k..] + q);
      RunsTakeRun(a, s[k..] + q);
      RunsTakeRun(a, s[k..]);
      RunsAppendNoDigits(s[k..], q);
    }
  }

  /** Lower-casing changes no digit and turns no letter into a digit. */
  lemma {:induction false} RunsIgnoreCase(s: string)
    ensures DigitRuns(Lower(s)) == DigitRuns(s)
    decreases |s|
  {
    if s != [] {
      var l := Lower(s);
      assert IsDecimalDigit(l[0]) == IsDecimalDigit(s[0]);
      if !IsDecimalDigit(s[0]) {
        assert l[1..] == Lower(s[1..]);
        RunsIgnoreCase(s[1..]);
      } else {
        var k := DigitPrefixLen(s, 10);
        var a := s[..k];
        assert s == a + s[k..];
        LowerAppend(a, s[k..]);
        assert Lower(a) == a;
        RunsTakeRun(a, s[k..]);
        assert s[k..] == [] || !IsDecimalDigit(Lower(s[k..])[0]);
        RunsTakeRun(a, Lower(s[k..]));
        RunsIgnoreCase(s[k..]);
      }
    }
  }

  /** Trimming removes white space only, which holds no digit. */
  lemma RunsIgnoreTrim(s: string)
    ensures DigitRuns(Trim(s)) == DigitRuns(s)
  {
    RunsIgnoreTrimStart(s);
    RunsIgnoreTrimEnd(TrimStart(s));
  }

  lemma RunsIgnoreTrimStart(s: string)
    ensures DigitRuns(TrimStart(s)) == DigitRuns(s)
  {
    var t := TrimStart(s);
    var p := s[..|s| - |t|];
    assert s == p + t;
    TrimStartDropsSpaces(s);
    assert NoDigits(p) by {
      forall i | 0 <= i < |p| ensures !IsDecimalDigit(p[i]) {
        assert IsSpace(s[i]);
      }
    }
    RunsSkipNoDigits(p, t);
  }

  lemma RunsIgnoreTrimEnd(t: string)
    ensures DigitRuns(TrimEnd(t)) == DigitRuns(t)
  {
    var e := TrimEnd(t);
    var q := t[|e|..];
    TrimEndDropsSpaces(t);
    assert NoDigits(q) by {
      forall i | 0 <= i < |q| ensures !IsDecimalDigit(q[i]) {
        assert IsSpace(t[|e| + i]);
      }
    }
    assert e == t[..|e|];
    assert t == e + q;
    RunsAppendNoDigits(e, q);
  }

  /** trim().toLowerCase() keeps the runs of digits. */
  lemma RunsIgnoreNormalize(s: string)
    ensures DigitRuns(Lower(Trim(s))) == DigitRuns(s)
  {
    RunsIgnoreTrim(s);
    RunsIgnoreCase(Trim(s));
  }

  /** When x begins and its n-th character is no white space, trimming and
      lower-casing keep its first n characters (lower-cased). */
  lemma NormalizeKeepsHead(x: string, n: nat)
    requires 0 < n <= |x|
    requires !IsSpace(x[0]) && !IsSpace(x[n - 1])
    ensures |Lower(Trim(x))| >= n
    ensures Lower(Trim(x))[..n] == Lower(x[..n])
  {
    assert TrimStart(x) == x;
    var e := TrimEnd(x);
    if |e| < n {
      TrailingAreSpaces(x, n - 1);
    }
    assert e[..n] == x[..n];
  }
}
