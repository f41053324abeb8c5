/**
 * The markup slider (`clamp` and `updateMarkupUI`: value and zone) and the
 * arithmetic at the end of `recalc`: sell price, gross profit, margin and the
 * per-measurement sell prices.
 */
module Pricing {

  /** A JavaScript number: `Number(v)` of the slider's value. */
  datatype JsNumber = NaN | PosInfinity | NegInfinity | Finite(value: real)

  function Min(a: real, b: real): real { if a <= b then a else b }
  function Max(a: real, b: real): real { if a >= b then a else b }

  /** `Math.min(max, Math.max(min, Number(v) || 0))`: NaN (and 0) become 0 before the clamp. */
  function Clamp(v: JsNumber, lo: real, hi: real): (c: real)
    ensures lo <= hi ==> lo <= c <= hi
    ensures v.Finite? && lo <= v.value <= hi ==> c == v.value
    ensures v.NaN? && lo <= 0.0 <= hi ==> c == 0.0
  {
    match v
    case NaN => Min(hi, Max(lo, 0.0))
    case PosInfinity => hi
    case NegInfinity => Min(hi, lo)
    case Finite(x) => Min(hi, Max(lo, x))
  }

  /** `Math.round`: halves round up. */
  function Round(x: real): (n: int)
    ensures x - 0.5 < n as real <= x + 0.5
  {
    (x + 0.5).Floor
  }

  /** `Math.round` keeps whole numbers, so rounding a clamp between whole bounds stays within them. */
  lemma RoundWhole(n: int, x: real)
    requires n as real - 0.5 <= x < n as real + 0.5
    ensures Round(x) == n
  {
    var r := Round(x);
    assert r as real < n as real + 1.0 && n as real < r as real + 1.0;
  }

  /** The markup `updateMarkupUI` stores: the clamped value, rounded. */
  function NormalizeMarkup(v: JsNumber, lo: real, hi: real): int {
    Round(Clamp(v, lo, hi))
  }

  /** For whole bounds the markup lies within them. */
  lemma NormalizeMarkupInRange(v: JsNumber, lo: int, hi: int)
    requires lo <= hi
    ensures lo <= NormalizeMarkup(v, lo as real, hi as real) <= hi
  {
    var c := Clamp(v, lo as real, hi as real);
    var r := Round(c);
    assert lo as real - 0.5 < r as real && r as real < hi as real + 1.0;
  }

  /** A whole number already in range is kept; non-numeric input becomes 0 when 0 is in range. */
  lemma NormalizeMarkupKeeps(n: int, lo: real, hi: real)
    requires lo <= n as real <= hi
    ensures NormalizeMarkup(Finite(n as real), lo, hi) == n
    ensures lo <= 0.0 <= hi ==> NormalizeMarkup(NaN, lo, hi) == 0
  {
    RoundWhole(n, n as real);
    RoundWhole(0, 0.0);
  }

  /** Normalising the stored markup again changes nothing (whole bounds). */
  lemma NormalizeMarkupIdempotent(v: JsNumber, lo: int, hi: int)
    requires lo <= hi
    ensures var m := NormalizeMarkup(v, lo as real, hi as real);
      NormalizeMarkup(Finite(m as real), lo as real, hi as real) == m
  {
    NormalizeMarkupInRange(v, lo, hi);
    var m := NormalizeMarkup(v, lo as real, hi as real);
    NormalizeMarkupKeeps(m, lo as real, hi as real);
  }

  /** A larger slider value never gives a smaller markup. */
  lemma NormalizeMarkupMonotone(x: real, y: real, lo: real, hi: real)
    requires x <= y && lo <= hi
    ensures NormalizeMarkup(Finite(x), lo, hi) <= NormalizeMarkup(Finite(y), lo, hi)
  {
    var a, b := Clamp(Finite(x), lo, hi), Clamp(Finite(y), lo, hi);
    assert a <= b;
    assert Round(a) as real < Round(b) as real + 1.0;
  }

  /** Slider values beyond the bounds are pinned to them. */
  lemma NormalizeMarkupPins(lo: int, hi: int, x: real)
    requires lo <= hi
    ensures x >= hi as real ==> NormalizeMarkup(Finite(x), lo as real, hi as real) == hi
    ensures x <= lo as real ==> NormalizeMarkup(Finite(x), lo as real, hi as real) == lo
    ensures NormalizeMarkup(PosInfinity, lo as real, hi as real) == hi
    ensures NormalizeMarkup(NegInfinity, lo as real, hi as real) == lo
  {
    RoundWhole(hi, hi as real);
    RoundWhole(lo, lo as real);
  }

  datatype Zone = DangerouslyLow | Conservative | Balanced | Strong

  /** The zone text under the slider. */
  function ZoneOf(markup: int): (z: Zone)
    ensures z == DangerouslyLow <==> markup <= 14
    ensures z == Strong <==> markup > 60
    ensures z == Conservative <==> 14 < markup <= 30
    ensures z == Balanced <==> 30 < markup <= 60
  {
    if markup <= 14 then DangerouslyLow
    else if markup <= 30 then Conservative
    else if markup <= 60 then Balanced
    else Strong
  }

  function ZoneRank(z: Zone): nat {
    match z
    case DangerouslyLow => 0
    case Conservative => 1
    case Balanced => 2
    case Strong => 3
  }

  /** A higher markup never falls into a lower zone. */
  lemma ZoneMonotone(a: int, b: int)
    requires a <= b
    ensures ZoneRank(ZoneOf(a)) <= ZoneRank(ZoneOf(b))
  {
  }

  /** Cost, sell price, gross profit and margin percentage of a quote. */
  datatype Totals = Totals(cost: real, sell: real, gross: real, margin: real)

  /** `sell = cost·(1+markup/100)`, `gross = sell − cost`, `margin = sell > 0 ? gross/sell·100 : 0`. */
  function PriceTotals(cost: real, markup: int): (t: Totals)
    ensures t.cost == cost && t.gross == t.sell - cost
    ensures t.sell > 0.0 ==> t.margin * t.sell == t.gross * 100.0
    ensures t.sell <= 0.0 ==> t.margin == 0.0
  {
    var sell := cost * (1.0 + markup as real / 100.0);
    var gross := sell - cost;
    Totals(cost, sell, gross, if sell > 0.0 then gross / sell * 100.0 else 0.0)
  }

  /** For a positive cost and a markup above -100%, the margin depends on the markup alone: 100m/(100+m). */
  lemma MarginFromMarkup(cost: real, markup: int)
    requires cost > 0.0 && markup > -100
    ensures PriceTotals(cost, markup).margin == 100.0 * markup as real / (100.0 + markup as real)
  {
    var m := markup as real;
    var t := PriceTotals(cost, markup);
    assert t.sell == cost * (100.0 + m) / 100.0;
    assert t.sell > 0.0;
    assert t.gross == cost * m / 100.0;
    calc {
      t.margin;
      t.gross / t.sell * 100.0;
      (cost * m / 100.0) / (cost * (100.0 + m) / 100.0) * 100.0;
      { assert (cost * m / 100.0) / (cost * (100.0 + m) / 100.0) == m / (100.0 + m); }
      m / (100.0 + m) * 100.0;
    }
  }

  /** A non-negative markup never sells below cost, and a higher markup never sells for less. */
  lemma SellMonotone(cost: real, m1: int, m2: int)
    requires cost >= 0.0
    ensures m1 >= 0 ==> PriceTotals(cost, m1).sell >= cost
    ensures m1 <= m2 ==> PriceTotals(cost, m1).sell <= PriceTotals(cost, m2).sell
  {
    var a, b := 1.0 + m1 as real / 100.0, 1.0 + m2 as real / 100.0;
    assert PriceTotals(cost, m1).sell == cost * a;
    assert PriceTotals(cost, m2).sell == cost * b;
    if m1 >= 0 {
      assert 1.0 <= a;
      ScaleMonotone(cost, 1.0, a);
      assert cost * 1.0 == cost;
    }
    if m1 <= m2 {
      assert m1 as real <= m2 as real;
      assert a <= b;
      ScaleMonotone(cost, a, b);
    }
  }

  /** Scaling by a non-negative amount keeps the order. */
  lemma ScaleMonotone(c: real, x: real, y: real)
    requires c >= 0.0 && x <= y
    ensures c * x <= c * y
  {
    assert c * y - c * x == c * (y - x);
  }

  /** With nothing to charge the margin is 0, whatever the markup. */
  lemma ZeroCostZeroMargin(markup: int)
    ensures PriceTotals(0.0, markup) == Totals(0.0, 0.0, 0.0, 0.0)
  {
  }

  /** 50 m2 at 10 €/m2 with a 20% markup: cost 500, sell 600, gross 100, margin 16.66…%. */
  lemma PriceTotalsExample()
    ensures PriceTotals(500.0, 20) == Totals(500.0, 600.0, 100.0, 100.0 / 6.0)
  {
  }

  /** A per-measurement sell price as shown: absent from the page, a dash, or an amount. */
  datatype PerUnit = NotShown | Dash | Amount(value: real)

  /** `m > 0 ? sell / Math.max(m, 1e-9) : '—'`. */
  function PerUnitGuarded(sell: real, m: real): (r: PerUnit)
    ensures r.Dash? <==> m <= 0.0
    ensures m >= 0.000000001 ==> r == Amount(sell / m)
    ensures r.Amount? ==> r.value * Max(m, 0.000000001) == sell
  {
    if m > 0.0 then Amount(sell / Max(m, 0.000000001)) else Dash
  }

  /** `m > 0 ? sell / m : '—'` (the thermal-facade per-m2 price, without the lower bound). */
  function PerUnitPlain(sell: real, m: real): (r: PerUnit)
    ensures r.Dash? <==> m <= 0.0
    ensures r.Amount? ==> r.value * m == sell
  {
    if m > 0.0 then Amount(sell / m) else Dash
  }

  /** The two per-unit rules differ only for measurements below 1e-9. */
  lemma PerUnitRulesAgree(sell: real, m: real)
    requires m <= 0.0 || m >= 0.000000001
    ensures PerUnitGuarded(sell, m) == PerUnitPlain(sell, m)
  {
  }
}
