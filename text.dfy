/**
 * The string operations the consumption-rate parser relies on, with the
 * meaning ECMAScript gives them: `\s` and `String.prototype.trim` (both use
 * the same white-space and line-terminator set), `\d` and `\w` of a pattern
 * without the `u` flag (ASCII only), the ASCII case folding of such a pattern
 * under `/i`, `toLowerCase` on Latin and Greek letters, and `parseFloat` on a
 * plain decimal numeral.
 */
module Text {

  /** White space and line terminators, as `\s` and `trim` see them. */
  predicate IsSpace(c: char) {
    c == '\t' || c == '\n' || c == '\U{000B}' || c == '\U{000C}' || c == '\r' || c == ' '
    || c == '\U{00A0}' || c == '\U{1680}' || ('\U{2000}' <= c <= '\U{200A}')
    || c == '\U{2028}' || c == '\U{2029}' || c == '\U{202F}' || c == '\U{205F}'
    || c == '\U{3000}' || c == '\U{FEFF}'
  }

  predicate IsDigit(c: char) { '0' <= c <= '9' }

  /** `\w` without the `u` flag: ASCII letters, digits and underscore. */
  predicate IsWordChar(c: char) { 'a' <= c <= 'z' || 'A' <= c <= 'Z' || IsDigit(c) || c == '_' }

  predicate AllSpace(s: string) { forall i :: 0 <= i < |s| ==> IsSpace(s[i]) }

  /** Every character of `s` is of the same class (space or not) as the first. */
  predicate Uniform(s: string) { forall i :: 0 <= i < |s| ==> IsSpace(s[i]) == IsSpace(s[0]) }

  /** Length of the longest prefix of `s` whose characters are all of class `sp`. */
  function Span(s: string, sp: bool): (n: nat)
    ensures n <= |s|
    ensures forall i :: 0 <= i < n ==> IsSpace(s[i]) == sp
    ensures n < |s| ==> IsSpace(s[n]) != sp
  {
    if s != [] && IsSpace(s[0]) == sp then 1 + Span(s[1..], sp) else 0
  }

  /** Length of the longest suffix of `s` made of white space. */
  function TrailingSpaces(s: string): (n: nat)
    ensures n <= |s|
    ensures forall i :: |s| - n <= i < |s| ==> IsSpace(s[i])
    ensures n < |s| ==> !IsSpace(s[|s| - 1 - n])
  {
    if s != [] && IsSpace(s[|s| - 1]) then 1 + TrailingSpaces(s[..|s| - 1]) else 0
  }

  /** `String.prototype.trim`. */
  function Trim(s: string): string {
    var u := s[Span(s, true)..];
    u[..|u| - TrailingSpaces(u)]
  }

  function Concat(ss: seq<string>): string {
    if ss == [] then [] else ss[0] + Concat(ss[1..])
  }

  /**
   * The maximal runs of `s`: alternately white space and non-white space.
   * A pattern of the shape `X\s+Y\s+Z` whose parts cannot contain white space
   * matches a trimmed string exactly when its runs are `X`, a gap, `Y`, a gap, `Z`.
   */
  function Segments(s: string): (segs: seq<string>)
    ensures Concat(segs) == s
    ensures forall k :: 0 <= k < |segs| ==> segs[k] != [] && Uniform(segs[k])
    ensures forall k :: 0 < k < |segs| ==> IsSpace(segs[k][0]) != IsSpace(segs[k - 1][0])
    decreases |s|
  {
    if s == [] then []
    else
      var n := Span(s, IsSpace(s[0]));
      var rest := Segments(s[n..]);
      assert rest != [] ==> rest[0][0] == s[n] by {
        if rest != [] {
          assert Concat(rest) == rest[0] + Concat(rest[1..]);
        }
      }
      assert s[..n] + s[n..] == s;
      assert ([s[..n]] + rest)[1..] == rest;
      [s[..n]] + rest
  }

  /** A uniform run followed by text of the other class is the first run. */
  lemma SegmentsCons(x: string, rest: string)
    requires x != [] && Uniform(x)
    requires rest != [] ==> IsSpace(rest[0]) != IsSpace(x[0])
    ensures Segments(x + rest) == [x] + Segments(rest)
  {
    var s := x + rest;
    var n := Span(s, IsSpace(s[0]));
    assert forall i :: 0 <= i < |x| ==> s[i] == x[i];
    assert rest != [] ==> s[|x|] == rest[0];
    assert n == |x|;
    assert s[..n] == x && s[n..] == rest;
  }

  /** Runs that alternate between white space and the rest are their own segmentation. */
  lemma {:induction false} SegmentsOfRuns(parts: seq<string>)
    requires forall k :: 0 <= k < |parts| ==> parts[k] != [] && Uniform(parts[k])
    requires forall k :: 0 < k < |parts| ==> IsSpace(parts[k][0]) != IsSpace(parts[k - 1][0])
    ensures Segments(Concat(parts)) == parts
  {
    if parts != [] {
      var tail := parts[1..];
      SegmentsOfRuns(tail);
      if tail != [] {
        assert Concat(tail) == tail[0] + Concat(tail[1..]);
        assert Concat(tail)[0] == parts[1][0];
      }
      SegmentsCons(parts[0], Concat(tail));
      assert [parts[0]] + tail == parts;
    }
  }

  /** Trimming removes exactly the surrounding white space. */
  lemma TrimSurrounded(lead: string, core: string, trail: string)
    requires AllSpace(lead) && AllSpace(trail)
    requires core != [] && !IsSpace(core[0]) && !IsSpace(core[|core| - 1])
    ensures Trim(lead + core + trail) == core
  {
    var s := lead + core + trail;
    var n := Span(s, true);
    assert forall i :: 0 <= i < |lead| ==> s[i] == lead[i];
    assert s[|lead|] == core[0];
    assert n == |lead|;
    var u := s[n..];
    assert u == core + trail;
    var m := TrailingSpaces(u);
    assert forall j :: |core| <= j < |u| ==> u[j] == trail[j - |core|];
    assert u[|u| - 1 - |trail|] == core[|core| - 1];
    assert m == |trail|;
    assert u[..|u| - m] == core;
  }

  /** The case folding of a `/i` pattern without the `u` flag, seen from the lower-case side. */
  function AsciiLowerChar(c: char): char {
    if 'A' <= c <= 'Z' then (c as int + 32) as char else c
  }

  function AsciiLower(s: string): string {
    seq(|s|, i requires 0 <= i < |s| => AsciiLowerChar(s[i]))
  }

  /**
   * `toLowerCase` on one character, for ASCII and the Greek capitals
   * (plain, with tonos and with dialytika); other characters are unchanged.
   */
  function LowerChar(c: char): char {
    if 'A' <= c <= 'Z' then (c as int + 32) as char
    else if '\U{0391}' <= c <= '\U{03AB}' && c != '\U{03A2}' then (c as int + 32) as char
    else if c == '\U{0386}' then '\U{03AC}'
    else if '\U{0388}' <= c <= '\U{038A}' then (c as int + 37) as char
    else if c == '\U{038C}' then '\U{03CC}'
    else if c == '\U{038E}' || c == '\U{038F}' then (c as int + 63) as char
    else c
  }

  function Lower(s: string): string {
    seq(|s|, i requires 0 <= i < |s| => LowerChar(s[i]))
  }

  /** Length of the longest prefix of `s` made of ASCII digits. */
  function LeadingDigits(s: string): (n: nat)
    ensures n <= |s|
    ensures forall i :: 0 <= i < n ==> IsDigit(s[i])
    ensures n < |s| ==> !IsDigit(s[n])
  {
    if s != [] && IsDigit(s[0]) then 1 + LeadingDigits(s[1..]) else 0
  }

  /** The numerals `\d+(?:\.\d+)?` of the consumption pattern. */
  predicate IsNumeral(a: string) {
    var d := LeadingDigits(a);
    d > 0 && (d == |a| || (a[d] == '.' && d + 1 < |a| && LeadingDigits(a[d + 1..]) == |a| - d - 1))
  }

  function Pow10(n: nat): (p: nat)
    ensures p >= 1
  {
    if n == 0 then 1 else 10 * Pow10(n - 1)
  }

  /** The value of a run of decimal digits, most significant first. */
  function DigitsValue(ds: string): nat {
    if ds == [] then 0
    else
      var c := ds[|ds| - 1];
      10 * DigitsValue(ds[..|ds| - 1]) + (if IsDigit(c) then c as int - '0' as int else 0)
  }

  /** `parseFloat` of a numeral, as an exact rational. */
  function NumeralValue(a: string): (v: real)
    requires IsNumeral(a)
    ensures v >= 0.0
  {
    var d := LeadingDigits(a);
    if d == |a| then DigitsValue(a) as real
    else
      var f := a[d + 1..];
      DigitsValue(a[..d]) as real + DigitsValue(f) as real / Pow10(|f|) as real
  }

  /** The decimal digits of `n`, as `String(n)` writes them. */
  function DecimalDigits(n: nat): string
    decreases n
  {
    var last := ['0' + (n % 10) as char];
    if n < 10 then last else DecimalDigits(n / 10) + last
  }

  /** A written-out whole number is a numeral whose value is that number. */
  lemma {:induction false} DecimalDigitsRoundTrip(n: nat)
    ensures LeadingDigits(DecimalDigits(n)) == |DecimalDigits(n)| > 0
    ensures DigitsValue(DecimalDigits(n)) == n
    ensures IsNumeral(DecimalDigits(n)) && NumeralValue(DecimalDigits(n)) == n as real
    decreases n
  {
    var s := DecimalDigits(n);
    if n >= 10 {
      DecimalDigitsRoundTrip(n / 10);
      var p := DecimalDigits(n / 10);
      assert s[..|s| - 1] == p;
    }
    assert forall i :: 0 <= i < |s| ==> IsDigit(s[i]) by {
      if n >= 10 {
        var p := DecimalDigits(n / 10);
        forall i | 0 <= i < |s| ensures IsDigit(s[i]) {
          if i < |p| { assert s[i] == p[i]; }
        }
      }
    }
  }
}
