/**
 * Consumption rates of catalog items on the drywall and tiling pages
 * (`parseConsumption`, `isPieceUnit` and `calcQtyFromConsumption`): a rate
 * such as "7 kg per 1 m2" turns a measured base amount into the quantity of
 * material to buy, rounded up to whole pieces when the material is counted
 * in pieces.
 */
module Consumption {
  import opened Wrappers
  import opened Text
  import opened Pages

  /** A parsed rate: `perQty perUnit` are needed for every `baseQty baseUnit`. */
  datatype Rate = Rate(perQty: real, perUnit: string, baseQty: real, baseUnit: string)

  /** `\w+`: a non-empty run of ASCII word characters. */
  predicate IsWord(w: string) {
    w != [] && forall i :: 0 <= i < |w| ==> IsWordChar(w[i])
  }

  /**
   * The runs `num gap word gap per gap num gap base` that the pattern
   * `^(\d+(?:\.\d+)?)\s+(\w+)\s+per\s+(\d+(?:\.\d+)?)\s+(<bases>)$` under `/i`
   * accepts, the bases being those of the page.
   */
  predicate RateForm(p: Page, parts: seq<string>)
    requires HasRates(p)
  {
    |parts| == 9
    && IsNumeral(parts[0]) && IsWord(parts[2]) && AsciiLower(parts[4]) == "per"
    && IsNumeral(parts[6]) && AsciiLower(parts[8]) in RateBases(p)
    && (forall k :: 0 <= k < 9 && k % 2 == 1 ==> parts[k] != [] && AllSpace(parts[k]))
  }

  /** The rate the captures of an accepted text denote. */
  function RateOf(p: Page, parts: seq<string>): Rate
    requires HasRates(p) && RateForm(p, parts)
  {
    Rate(NumeralValue(parts[0]), AsciiLower(parts[2]), NumeralValue(parts[6]), AsciiLower(parts[8]))
  }

  /**
   * `parseConsumption`: the trimmed text must consist of exactly the nine runs
   * of the pattern; anything else (including the empty text) gives no rate.
   */
  function ParseConsumption(p: Page, cons: string): (r: Option<Rate>)
    requires HasRates(p)
    ensures r.Some? ==> r.value.baseUnit in RateBases(p) && IsWord(r.value.perUnit)
    ensures r.Some? ==> r.value.perQty >= 0.0 && r.value.baseQty >= 0.0
  {
    var segs := Segments(Trim(cons));
    if |segs| == 9 && IsNumeral(segs[0]) && IsWord(segs[2]) && AsciiLower(segs[4]) == "per"
       && IsNumeral(segs[6]) && AsciiLower(segs[8]) in RateBases(p)
    then
      assert IsWord(AsciiLower(segs[2])) by {
        forall i | 0 <= i < |segs[2]| ensures IsWordChar(AsciiLower(segs[2])[i]) {
          assert IsWordChar(segs[2][i]);
        }
      }
      Some(Rate(NumeralValue(segs[0]), AsciiLower(segs[2]), NumeralValue(segs[6]), AsciiLower(segs[8])))
    else None
  }

  /** A non-white run whose lower-case form is a known word holds no white space. */
  lemma LowerKnownIsSolid(x: string, w: string)
    requires AsciiLower(x) == w && w != []
    requires forall i :: 0 <= i < |w| ==> !IsSpace(w[i])
    ensures x != [] && !IsSpace(x[0]) && !IsSpace(x[|x| - 1]) && Uniform(x)
  {
    forall i | 0 <= i < |x| ensures !IsSpace(x[i]) {
      assert w[i] == AsciiLowerChar(x[i]);
      assert !IsSpace(w[i]);
    }
  }

  lemma NumeralIsSolid(a: string)
    requires IsNumeral(a)
    ensures a != [] && !IsSpace(a[0]) && !IsSpace(a[|a| - 1]) && Uniform(a)
  {
    var d := LeadingDigits(a);
    if d < |a| {
      var f := a[d + 1..];
      assert forall i :: d + 1 <= i < |a| ==> a[i] == f[i - d - 1];
    }
  }

  lemma BaseIsSolid(p: Page, x: string)
    requires HasRates(p) && AsciiLower(x) in RateBases(p)
    ensures x != [] && !IsSpace(x[|x| - 1]) && Uniform(x)
  {
    var w := AsciiLower(x);
    assert w == "m2" || w == "m3" || w == "lm" || w == "sheet";
    LowerKnownIsSolid(x, w);
  }

  /** The nine runs of an accepted text alternate between solid text and white space. */
  lemma RateFormRuns(p: Page, parts: seq<string>)
    requires HasRates(p) && RateForm(p, parts)
    ensures forall k :: 0 <= k < |parts| ==> parts[k] != [] && Uniform(parts[k])
    ensures forall k :: 0 <= k < |parts| ==> IsSpace(parts[k][0]) == (k % 2 == 1)
    ensures !IsSpace(parts[8][|parts[8]| - 1])
  {
    NumeralIsSolid(parts[0]);
    NumeralIsSolid(parts[6]);
    LowerKnownIsSolid(parts[4], "per");
    BaseIsSolid(p, parts[8]);
    WordIsSolid(parts[2]);
  }

  lemma WordIsSolid(w: string)
    requires IsWord(w)
    ensures Uniform(w) && !IsSpace(w[0])
  {
    forall i | 0 <= i < |w| ensures !IsSpace(w[i]) {
      assert IsWordChar(w[i]);
    }
  }

  /**
   * Soundness and completeness of `parseConsumption`: text made of white
   * space, the nine runs of the pattern and white space parses to exactly the
   * rate its captures denote...
   */
  lemma ParseAcceptsForm(p: Page, lead: string, parts: seq<string>, trail: string)
    requires HasRates(p) && RateForm(p, parts)
    requires AllSpace(lead) && AllSpace(trail)
    ensures ParseConsumption(p, lead + Concat(parts) + trail) == Some(RateOf(p, parts))
  {
    RateFormRuns(p, parts);
    SegmentsOfRuns(parts);
    var core := Concat(parts);
    assert core == parts[0] + Concat(parts[1..]);
    ConcatLastPart(parts);
    TrimSurrounded(lead, core, trail);
    assert Segments(Trim(lead + core + trail)) == parts;
  }

  /** The last character of a concatenation is that of its last part, when non-empty. */
  lemma {:induction false} ConcatLastPart(parts: seq<string>)
    requires parts != [] && parts[|parts| - 1] != []
    ensures |Concat(parts)| > 0
    ensures Concat(parts)[|Concat(parts)| - 1] == parts[|parts| - 1][|parts[|parts| - 1]| - 1]
  {
    if |parts| > 1 {
      ConcatLastPart(parts[1..]);
    }
  }

  /** ...and any text that parses is of that shape. */
  lemma ParseOnlyForm(p: Page, cons: string)
    requires HasRates(p) && ParseConsumption(p, cons).Some?
    ensures exists parts :: RateForm(p, parts) && Concat(parts) == Trim(cons)
                           && ParseConsumption(p, cons) == Some(RateOf(p, parts))
  {
    var segs := Segments(Trim(cons));
    var t := Trim(cons);
    assert t != [] && !IsSpace(t[0]) by {
      var s0 := Span(cons, true);
      assert t == cons[s0..][..|cons[s0..]| - TrailingSpaces(cons[s0..])];
      assert Concat(segs) == t;
      assert t == segs[0] + Concat(segs[1..]);
    }
    assert Concat(segs) == segs[0] + Concat(segs[1..]);
    assert !IsSpace(segs[0][0]);
    assert forall k :: 0 <= k < 9 ==> IsSpace(segs[k][0]) == (k % 2 == 1) by {
      forall k | 0 <= k < 9 ensures IsSpace(segs[k][0]) == (k % 2 == 1) {
        AlternatingClass(segs, k);
      }
    }
    assert forall k :: 0 <= k < 9 && k % 2 == 1 ==> AllSpace(segs[k]);
    assert RateForm(p, segs);
  }

  /** In an alternating segmentation, the class of a run is fixed by its parity. */
  lemma {:induction false} AlternatingClass(segs: seq<string>, k: nat)
    requires k < |segs|
    requires forall j :: 0 <= j < |segs| ==> segs[j] != []
    requires forall j :: 0 < j < |segs| ==> IsSpace(segs[j][0]) != IsSpace(segs[j - 1][0])
    ensures IsSpace(segs[k][0]) == (if k % 2 == 0 then IsSpace(segs[0][0]) else !IsSpace(segs[0][0]))
  {
    if k > 0 {
      AlternatingClass(segs, k - 1);
    }
  }

  /** `isPieceUnit`: the unit, lower-cased, is one of the page's piece units. */
  predicate IsPieceUnit(p: Page, u: string)
    requires HasRates(p)
  {
    Lower(u) in PieceUnits(p)
  }

  /** The pattern's `\w` is ASCII only, so a parsed rate is counted in pieces only under an ASCII name. */
  lemma ParsedPieceUnitIsAscii(p: Page, cons: string)
    requires HasRates(p)
    requires ParseConsumption(p, cons).Some?
    requires IsPieceUnit(p, ParseConsumption(p, cons).value.perUnit)
    ensures ParseConsumption(p, cons).value.perUnit in (PieceUnits(p) - {"τεμ", "τεμάχιο", "τεμάχια"})
  {
    var u := ParseConsumption(p, cons).value.perUnit;
    assert Lower(u) == u by {
      forall i | 0 <= i < |u| ensures Lower(u)[i] == u[i] {
        assert IsWordChar(u[i]);
      }
    }
    assert IsWordChar(u[0]);
  }

  /** The tolerance by which a piece count may exceed a whole number before it is rounded up. */
  const Epsilon: real := 0.000000001

  /** `Math.ceil`. */
  function Ceil(x: real): (n: int)
    ensures x <= n as real < x + 1.0
  {
    -((-x).Floor)
  }

  /** The smallest whole number not below `x` is the only one in `[x, x + 1)`. */
  lemma CeilUnique(x: real, n: int)
    requires x <= n as real < x + 1.0
    ensures Ceil(x) == n
  {
    var c := Ceil(x);
    assert c as real < n as real + 1.0 && n as real < c as real + 1.0;
  }

  /** `Math.ceil(qty - 1e-9)`: the piece count bought for an exact need `q`. */
  function RoundUpPieces(q: real): (n: int)
    ensures q - Epsilon <= n as real < q - Epsilon + 1.0
  {
    Ceil(q - Epsilon)
  }

  /** A whole number of pieces is kept. */
  lemma RoundUpPiecesKeepsWhole(n: int)
    ensures RoundUpPieces(n as real) == n
  {
    CeilUnique(n as real - Epsilon, n);
  }

  /** Floating-point noise of at most the tolerance above a whole number is absorbed. */
  lemma RoundUpPiecesAbsorbsNoise(n: int, q: real)
    requires n as real < q <= n as real + Epsilon
    ensures RoundUpPieces(q) == n
  {
    CeilUnique(q - Epsilon, n);
  }

  /** More than the tolerance above a whole number buys one more piece. */
  lemma RoundUpPiecesBeyondTolerance(n: int, q: real)
    requires n as real + Epsilon < q <= n as real + 1.0
    ensures RoundUpPieces(q) == n + 1
  {
    CeilUnique(q - Epsilon, n + 1);
  }

  /** The tolerance is 1e-9, so 2.0000001 pieces round up to 3. */
  lemma RoundUpPiecesExample()
    ensures RoundUpPieces(2.0000001) == 3
  {
    RoundUpPiecesBeyondTolerance(2, 2.0000001);
  }

  lemma RoundUpPiecesMonotone(q1: real, q2: real)
    requires q1 <= q2
    ensures RoundUpPieces(q1) <= RoundUpPieces(q2)
  {
    var n1, n2 := RoundUpPieces(q1), RoundUpPieces(q2);
    assert n1 as real < n2 as real + 1.0;
  }

  /**
   * The outcome of `calcQtyFromConsumption`. `qty` is `None` when JavaScript
   * would produce a non-finite number (a base quantity of zero divides by zero).
   */
  datatype Derived = Derived(qty: Option<real>, unit: Option<string>, rounded: bool)

  /** The exact quantity a rate asks for on a base amount. */
  function Exact(rate: Rate, base: real): real
    requires rate.baseQty != 0.0
  {
    base * (rate.perQty / rate.baseQty)
  }

  /** `calcQtyFromConsumption`. */
  function CalcQty(p: Page, cons: Option<Rate>, base: real): (d: Derived)
    requires HasRates(p)
    ensures cons.None? ==> d == Derived(Some(base), None, false)
    ensures cons.Some? ==> d.unit == Some(cons.value.perUnit)
    ensures d.rounded <==> cons.Some? && IsPieceUnit(p, cons.value.perUnit)
    ensures d.qty.None? <==> cons.Some? && cons.value.baseQty == 0.0
    ensures d.qty.Some? && cons.Some? ==>
      (d.rounded ==> d.qty.value == RoundUpPieces(Exact(cons.value, base)) as real)
      && (!d.rounded ==> d.qty.value == Exact(cons.value, base))
  {
    match cons
    case None => Derived(Some(base), None, false)
    case Some(rate) =>
      var rounded := IsPieceUnit(p, rate.perUnit);
      if rate.baseQty == 0.0 then Derived(None, Some(rate.perUnit), rounded)
      else
        var q := Exact(rate, base);
        Derived(Some(if rounded then RoundUpPieces(q) as real else q), Some(rate.perUnit), rounded)
  }

  /** Quantities of material not counted in pieces are proportional to the base amount. */
  lemma CalcQtyAdditive(p: Page, rate: Rate, b1: real, b2: real)
    requires HasRates(p) && rate.baseQty != 0.0 && !IsPieceUnit(p, rate.perUnit)
    ensures CalcQty(p, Some(rate), b1 + b2).qty.value
         == CalcQty(p, Some(rate), b1).qty.value + CalcQty(p, Some(rate), b2).qty.value
  {
  }

  /** A larger base amount never needs fewer pieces (for a rate with a positive base). */
  lemma CalcQtyMonotone(p: Page, rate: Rate, b1: real, b2: real)
    requires HasRates(p) && rate.baseQty > 0.0 && rate.perQty >= 0.0 && b1 <= b2
    ensures CalcQty(p, Some(rate), b1).qty.value <= CalcQty(p, Some(rate), b2).qty.value
  {
    var f := rate.perQty / rate.baseQty;
    assert f >= 0.0;
    assert b1 * f <= b2 * f;
    if IsPieceUnit(p, rate.perUnit) {
      RoundUpPiecesMonotone(Exact(rate, b1), Exact(rate, b2));
    }
  }

  /** The runs of "<a> <w> per <c> <b>" with single spaces. */
  function SpacedRuns(a: string, w: string, c: string, b: string): seq<string> {
    [a, " ", w, " ", "per", " ", c, " ", b]
  }

  lemma ConcatSpacedRuns(a: string, w: string, c: string, b: string)
    ensures Concat(SpacedRuns(a, w, c, b)) == a + " " + w + " per " + c + " " + b
  {
    var parts := SpacedRuns(a, w, c, b);
    assert Concat(parts[8..]) == b by { assert parts[8..][1..] == []; }
    assert Concat(parts[7..]) == " " + b by { assert parts[7..][1..] == parts[8..]; }
    assert Concat(parts[6..]) == c + " " + b by { assert parts[6..][1..] == parts[7..]; }
    assert Concat(parts[5..]) == " " + c + " " + b by { assert parts[5..][1..] == parts[6..]; }
    assert Concat(parts[4..]) == "per" + " " + c + " " + b by { assert parts[4..][1..] == parts[5..]; }
    assert Concat(parts[3..]) == " per " + c + " " + b by { assert parts[3..][1..] == parts[4..]; }
    assert Concat(parts[2..]) == w + " per " + c + " " + b by { assert parts[2..][1..] == parts[3..]; }
    assert Concat(parts[1..]) == " " + w + " per " + c + " " + b by { assert parts[1..][1..] == parts[2..]; }
    assert parts[0..] == parts;
  }

  lemma SpacedRunsForm(p: Page, a: string, w: string, c: string, b: string)
    requires HasRates(p) && IsNumeral(a) && IsWord(w) && IsNumeral(c) && AsciiLower(b) in RateBases(p)
    ensures RateForm(p, SpacedRuns(a, w, c, b))
  {
    var parts := SpacedRuns(a, w, c, b);
    assert AsciiLower("per") == "per";
    assert forall k :: 0 <= k < 9 && k % 2 == 1 ==> parts[k] == " ";
  }

  /** A spaced rate text parses to the rate its words denote. */
  lemma ParseSpaced(p: Page, a: string, w: string, c: string, b: string)
    requires HasRates(p) && IsNumeral(a) && IsWord(w) && IsNumeral(c) && AsciiLower(b) in RateBases(p)
    ensures ParseConsumption(p, a + " " + w + " per " + c + " " + b)
         == Some(Rate(NumeralValue(a), AsciiLower(w), NumeralValue(c), AsciiLower(b)))
  {
    var parts := SpacedRuns(a, w, c, b);
    SpacedRunsForm(p, a, w, c, b);
    ConcatSpacedRuns(a, w, c, b);
    EmptyPadding(Concat(parts));
    ParseAcceptsForm(p, "", parts, "");
  }

  lemma EmptyPadding(t: string)
    ensures "" + t + "" == t
  {
  }

  lemma NumeralOfDigits(n: nat)
    ensures IsNumeral(DecimalDigits(n)) && NumeralValue(DecimalDigits(n)) == n as real
  {
    DecimalDigitsRoundTrip(n);
  }

  /** The one-digit numerals of the examples below. */
  lemma ExampleDigits()
    ensures IsNumeral("1") && NumeralValue("1") == 1.0 && IsNumeral("4") && NumeralValue("4") == 4.0
    ensures IsNumeral("7") && NumeralValue("7") == 7.0
  {
    NumeralOfDigits(1);
    NumeralOfDigits(4);
    NumeralOfDigits(7);
    assert DecimalDigits(1) == "1" && DecimalDigits(4) == "4" && DecimalDigits(7) == "7";
  }

  /** The numeral 100 of the examples below. */
  lemma ExampleHundred()
    ensures IsNumeral("100") && NumeralValue("100") == 100.0
  {
    NumeralOfDigits(100);
    assert DecimalDigits(10) == "10";
    assert DecimalDigits(100) == "100";
  }

  /** The words of the examples below. */
  lemma ExampleWords()
    ensures IsWord("kg") && IsWord("Units")
    ensures AsciiLower("kg") == "kg" && AsciiLower("Units") == "units" && AsciiLower("m2") == "m2"
  {
  }

  lemma ExampleTexts()
    ensures "7" + " " + "kg" + " per " + "1" + " " + "m2" == "7 kg per 1 m2"
    ensures "4" + " " + "Units" + " per " + "100" + " " + "m2" == "4 Units per 100 m2"
  {
  }

  /** Kilograms are not counted in pieces; units are. */
  lemma ExampleUnits()
    ensures !IsPieceUnit(Tiling, "kg") && IsPieceUnit(Drywall, "units")
  {
    assert Lower("kg") == "kg" && Lower("units") == "units";
  }

  /** "7 kg per 1 m2" parses to 7 kg for every 1 m2. */
  lemma ParseKilogramsExample()
    ensures ParseConsumption(Tiling, "7 kg per 1 m2") == Some(Rate(7.0, "kg", 1.0, "m2"))
  {
    ExampleDigits();
    ExampleWords();
    ParseSpaced(Tiling, "7", "kg", "1", "m2");
    ExampleTexts();
  }

  /** ... so 10 m2 need 70 kg, not rounded. */
  lemma KilogramsPerSquareMetreExample()
    ensures CalcQty(Tiling, ParseConsumption(Tiling, "7 kg per 1 m2"), 10.0)
         == Derived(Some(70.0), Some("kg"), false)
  {
    ParseKilogramsExample();
    ExampleUnits();
  }

  /** "4 Units per 100 m2" is case-folded to 4 units for every 100 m2. */
  lemma ParseUnitsExample()
    ensures ParseConsumption(Drywall, "4 Units per 100 m2") == Some(Rate(4.0, "units", 100.0, "m2"))
  {
    ExampleDigits();
    ExampleHundred();
    ExampleWords();
    ParseSpaced(Drywall, "4", "Units", "100", "m2");
    ExampleTexts();
  }

  /** ... so 250 m2 buy 10 whole pieces. */
  lemma PiecesPerHundredExample()
    ensures CalcQty(Drywall, ParseConsumption(Drywall, "4 Units per 100 m2"), 250.0)
         == Derived(Some(10.0), Some("units"), true)
  {
    ParseUnitsExample();
    ExampleUnits();
    RoundUpPiecesKeepsWhole(10);
  }
}
