/**
 * The extras ("Επιπρόσθετα") of a quote: free-form lines with a unit, a
 * price and either a manual quantity or one taken automatically from the
 * page's measurements. This module holds the records and the pure rules of
 * `createExtra`, `supportsAutoUnit`, `unitAutoQtyValue`, the input, change and
 * remove handlers and the initial extras of `init`; the handlers themselves
 * are methods of `Calculator.Calculator`.
 */
module Extras {
  import opened Wrappers
  import opened Text
  import opened Pages
  import opened Measures
  import opened Catalog
  import opened Search

  /**
   * One extra. `key` names the catalog item it was seeded from, if any;
   * `shownQty` is the number its quantity field holds, which `recalc` reads
   * for a manual extra and which is not always the stored `qty`.
   */
  datatype Extra = Extra(id: string, desc: string, unit: string, qty: real, price: real,
                         autoQty: bool, key: Option<string>, shownQty: real)

  /** The id of the `n`-th extra created on the page: a fresh id for every extra. */
  function IdOf(n: nat): (id: string)
    ensures id != []
  {
    DecimalDigits(n)
  }

  lemma IdOfInjective(a: nat, b: nat)
    requires IdOf(a) == IdOf(b)
    ensures a == b
  {
    DecimalDigitsRoundTrip(a);
    DecimalDigitsRoundTrip(b);
  }

  /** `createExtra`: an empty key (`key || null`) is no key; the field will show the quantity. */
  function CreateExtra(id: string, desc: string, unit: string, qty: real, price: real,
                       autoQty: bool, key: string): (ex: Extra)
    ensures ex.key.Some? <==> key != []
    ensures ex.key.Some? ==> ex.key.value == key
  {
    Extra(id, desc, unit, qty, price, autoQty, if key == [] then None else Some(key), qty)
  }

  /** `unitAutoQtyValue`: the page's measurement for the unit, 0 for units without one. */
  function UnitAutoQtyValue(p: Page, unit: string, m: Measurements): real {
    if unit == "m2" then m.m2
    else if unit == "lm" && (p == Drywall || p == ThermalFacade) then m.lm
    else if unit == "m3" && p == Tiling then m.m3
    else if unit == "day" then
      if p == Painting then Days(m.days, "technitis") + Days(m.days, "voithos") else TotalDays(m.days)
    else 0.0
  }

  /** Units that cannot be automatic read 0: the automatic sources are exactly the supported units. */
  lemma UnsupportedReadsZero(p: Page, unit: string, m: Measurements)
    requires !SupportsAutoUnit(p, unit)
    ensures UnitAutoQtyValue(p, unit, m) == 0.0
  {
  }

  /** The day unit counts every booked day; when only the form's two fields book days, all pages agree. */
  lemma DayUnitAgrees(p: Page, q: Page, m: Measurements)
    requires OnlyFormKeys(m.days)
    ensures UnitAutoQtyValue(p, "day", m) == UnitAutoQtyValue(q, "day", m)
                                         == Days(m.days, "technitis") + Days(m.days, "voithos")
  {
    FormDaysTotal(m.days);
  }

  /** Whether the extra's quantity currently comes from the measurements. */
  predicate EffectiveAuto(p: Page, ex: Extra) {
    SupportsAutoUnit(p, ex.unit) && ex.autoQty
  }

  /** The quantity `recalc` charges for an extra: the automatic value, else what the field shows. */
  function ResolvedQty(p: Page, ex: Extra, m: Measurements): real {
    if EffectiveAuto(p, ex) then UnitAutoQtyValue(p, ex.unit, m) else ex.shownQty
  }

  /** An automatic extra follows the measurements; a manual one ignores them. */
  lemma ResolvedQtySource(p: Page, ex: Extra, m1: Measurements, m2: Measurements)
    ensures EffectiveAuto(p, ex) && ex.unit == "m2" ==> ResolvedQty(p, ex, m1) == m1.m2
    ensures !EffectiveAuto(p, ex) ==> ResolvedQty(p, ex, m1) == ResolvedQty(p, ex, m2) == ex.shownQty
    ensures !SupportsAutoUnit(p, ex.unit) ==> ResolvedQty(p, ex, m1) == ex.shownQty
  {
  }

  /** The field of an automatic extra shows its automatic value. */
  predicate FieldSynced(p: Page, ex: Extra, m: Measurements) {
    EffectiveAuto(p, ex) ==> ex.shownQty == UnitAutoQtyValue(p, ex.unit, m)
  }

  predicate AllSynced(p: Page, xs: seq<Extra>, m: Measurements) {
    forall i :: 0 <= i < |xs| ==> FieldSynced(p, xs[i], m)
  }

  /** `recalc` writes the automatic value into an automatic extra's field; the charge stays. */
  function SyncField(p: Page, ex: Extra, m: Measurements): (r: Extra)
    ensures FieldSynced(p, r, m)
    ensures ResolvedQty(p, r, m) == ResolvedQty(p, ex, m)
    ensures r.(shownQty := ex.shownQty) == ex
    ensures FieldSynced(p, ex, m) ==> r == ex
  {
    if EffectiveAuto(p, ex) then ex.(shownQty := UnitAutoQtyValue(p, ex.unit, m)) else ex
  }

  /** `renderExtras` writes the automatic value, else the stored quantity, into the field. */
  function RenderField(p: Page, ex: Extra, m: Measurements): (r: Extra)
    ensures FieldSynced(p, r, m)
    ensures ResolvedQty(p, r, m) == if EffectiveAuto(p, ex) then ResolvedQty(p, ex, m) else ex.qty
    ensures r.(shownQty := ex.shownQty) == ex
  {
    ex.(shownQty := if EffectiveAuto(p, ex) then UnitAutoQtyValue(p, ex.unit, m) else ex.qty)
  }

  /** The fields after `recalc`: every automatic extra's field is rewritten. */
  function SyncFields(p: Page, xs: seq<Extra>, m: Measurements): (r: seq<Extra>)
    ensures |r| == |xs| && AllSynced(p, r, m)
    ensures forall i :: 0 <= i < |xs| ==> r[i] == SyncField(p, xs[i], m)
  {
    seq(|xs|, i requires 0 <= i < |xs| => SyncField(p, xs[i], m))
  }

  /** Fields that already show their automatic values are left as they are. */
  lemma SyncFieldsFixed(p: Page, xs: seq<Extra>, m: Measurements)
    requires AllSynced(p, xs, m)
    ensures SyncFields(p, xs, m) == xs
  {
  }

  /** One more extra of the loop in `recalc`. */
  lemma SyncFieldsStep(p: Page, xs: seq<Extra>, i: nat, m: Measurements)
    requires i < |xs|
    ensures SyncFields(p, xs[..i + 1], m) == SyncFields(p, xs[..i], m) + [SyncField(p, xs[i], m)]
  {
    assert xs[..i + 1][..i] == xs[..i];
  }

  /** The fields after `renderExtras`: every card is rebuilt from its record. */
  function RenderFields(p: Page, xs: seq<Extra>, m: Measurements): (r: seq<Extra>)
    ensures |r| == |xs| && AllSynced(p, r, m)
    ensures forall i :: 0 <= i < |xs| ==> r[i] == RenderField(p, xs[i], m)
  {
    seq(|xs|, i requires 0 <= i < |xs| => RenderField(p, xs[i], m))
  }

  /** The new blank row of `addExtraRow`: `createExtra('', 'unit', 0, 0, true)`. */
  function NewRow(id: string): (ex: Extra)
    ensures ex.autoQty && !EffectiveAuto(Drywall, ex)
  {
    CreateExtra(id, "", "unit", 0.0, 0.0, true, "")
  }

  /** A blank row is charged its manual quantity, 0, on every page, although its stored flag is set. */
  lemma NewRowIsManual(p: Page, id: string, m: Measurements)
    ensures NewRow(id).autoQty && !EffectiveAuto(p, NewRow(id))
    ensures ResolvedQty(p, NewRow(id), m) == 0.0
  {
  }

  /** An `input` event on an extra: description, price or quantity typed. */
  datatype ExtraInput = DescInput(desc: string) | PriceInput(price: real) | QtyInput(qty: real)

  /** A typed quantity is both stored and what the field shows. */
  function ApplyInput(ex: Extra, e: ExtraInput): Extra {
    match e
    case DescInput(d) => ex.(desc := d)
    case PriceInput(v) => ex.(price := v)
    case QtyInput(v) => ex.(qty := v, shownQty := v)
  }

  /** An input edit changes only its own field, and never where the quantity comes from. */
  lemma InputTouchesOneField(p: Page, ex: Extra, e: ExtraInput)
    ensures var r := ApplyInput(ex, e);
      r.id == ex.id && r.unit == ex.unit && r.autoQty == ex.autoQty && r.key == ex.key
      && EffectiveAuto(p, r) == EffectiveAuto(p, ex)
      && (e.DescInput? ==> r.desc == e.desc && r.price == ex.price && r.qty == ex.qty && r.shownQty == ex.shownQty)
      && (e.PriceInput? ==> r.price == e.price && r.desc == ex.desc && r.qty == ex.qty && r.shownQty == ex.shownQty)
      && (e.QtyInput? ==> r.qty == r.shownQty == e.qty && r.desc == ex.desc && r.price == ex.price)
  {
  }

  /** A quantity typed into a manual extra is charged, and still is after the next re-render. */
  lemma TypedQtyCharged(p: Page, ex: Extra, v: real, m: Measurements)
    requires !EffectiveAuto(p, ex)
    ensures ResolvedQty(p, ApplyInput(ex, QtyInput(v)), m) == v
    ensures ResolvedQty(p, RenderField(p, ApplyInput(ex, QtyInput(v)), m), m) == v
  {
  }

  /** A `change` event on an extra: a unit chosen, or the automatic box ticked or cleared. */
  datatype ExtraChange = UnitChange(unit: string) | AutoToggle(checked: bool)

  /**
   * The change handler: choosing a unit sets `autoQty` to whether the unit can
   * be automatic; ticking the box sets it only when the unit can be. When the
   * extra ends up automatic its field shows the automatic value; otherwise the
   * field is only enabled and keeps what it showed.
   */
  function ApplyChange(p: Page, ex: Extra, c: ExtraChange, m: Measurements): (r: Extra)
    ensures r.autoQty ==> SupportsAutoUnit(p, r.unit)
    ensures EffectiveAuto(p, r) == r.autoQty
    ensures c.UnitChange? ==> r.unit == c.unit && r.autoQty == SupportsAutoUnit(p, c.unit)
    ensures c.AutoToggle? ==> r.unit == ex.unit && (r.autoQty <==> SupportsAutoUnit(p, ex.unit) && c.checked)
    ensures FieldSynced(p, r, m) && (!r.autoQty ==> r.shownQty == ex.shownQty)
    ensures r.(unit := ex.unit, autoQty := ex.autoQty, shownQty := ex.shownQty) == ex
  {
    match c
    case UnitChange(u) =>
      var on := SupportsAutoUnit(p, u);
      ex.(unit := u, autoQty := on, shownQty := if on then UnitAutoQtyValue(p, u, m) else ex.shownQty)
    case AutoToggle(checked) =>
      var on := SupportsAutoUnit(p, ex.unit) && checked;
      ex.(autoQty := on, shownQty := if on then UnitAutoQtyValue(p, ex.unit, m) else ex.shownQty)
  }

  /** Choosing a unit with an automatic source makes the extra follow that source. */
  lemma UnitChangeFollowsSource(p: Page, ex: Extra, u: string, m: Measurements)
    requires SupportsAutoUnit(p, u)
    ensures ResolvedQty(p, ApplyChange(p, ex, UnitChange(u), m), m) == UnitAutoQtyValue(p, u, m)
  {
  }

  /**
   * Clearing the box does not change the charge: the field still shows the
   * automatic value it last received. Only the next re-render of the extras
   * brings back the stored quantity.
   */
  lemma ToggleOffKeepsCharge(p: Page, ex: Extra, m: Measurements)
    requires FieldSynced(p, ex, m)
    ensures var r := ApplyChange(p, ex, AutoToggle(false), m);
      !EffectiveAuto(p, r)
      && ResolvedQty(p, r, m) == ResolvedQty(p, ex, m)
      && ResolvedQty(p, RenderField(p, r, m), m) == ex.qty
  {
  }

  /** Choosing a unit without an automatic source keeps charging what the field shows. */
  lemma ManualUnitKeepsCharge(p: Page, ex: Extra, u: string, m: Measurements)
    requires FieldSynced(p, ex, m) && !SupportsAutoUnit(p, u)
    ensures var r := ApplyChange(p, ex, UnitChange(u), m);
      !EffectiveAuto(p, r)
      && ResolvedQty(p, r, m) == ResolvedQty(p, ex, m)
      && ResolvedQty(p, RenderField(p, r, m), m) == ex.qty
  {
  }

  /** `state.extras.find(x => x.id === id)`, as an index. */
  function FindExtra(xs: seq<Extra>, id: string): (r: Option<nat>)
    ensures r.Some? ==> r.value < |xs| && xs[r.value].id == id
                        && forall j :: 0 <= j < r.value ==> xs[j].id != id
    ensures r.None? ==> forall j :: 0 <= j < |xs| ==> xs[j].id != id
  {
    FindFirst(xs, ExtraId, id)
  }

  function ExtraId(ex: Extra): string { ex.id }

  /** `state.extras.filter(x => x.id !== id)`. */
  function RemoveById(xs: seq<Extra>, id: string): (r: seq<Extra>)
    ensures |r| <= |xs|
    ensures forall e :: e in r <==> e in xs && e.id != id
  {
    if xs == [] then []
    else if xs[0].id == id then RemoveById(xs[1..], id)
    else [xs[0]] + RemoveById(xs[1..], id)
  }

  /** Removal keeps the other extras in their order: it distributes over concatenation. */
  lemma {:induction false} RemoveByIdAppend(a: seq<Extra>, b: seq<Extra>, id: string)
    ensures RemoveById(a + b, id) == RemoveById(a, id) + RemoveById(b, id)
  {
    if a != [] {
      assert (a + b)[1..] == a[1..] + b;
      RemoveByIdAppend(a[1..], b, id);
    } else {
      assert a + b == b;
    }
  }

  /** The ids of the extras, in order. */
  function Ids(xs: seq<Extra>): (ids: seq<string>)
    ensures |ids| == |xs| && forall i :: 0 <= i < |xs| ==> ids[i] == xs[i].id
  {
    seq(|xs|, i requires 0 <= i < |xs| => xs[i].id)
  }

  /** Removing one id removes exactly as many extras as carry it. */
  lemma {:induction false} RemoveByIdCount(xs: seq<Extra>, id: string)
    ensures |RemoveById(xs, id)| == |xs| - multiset(Ids(xs))[id]
  {
    if xs != [] {
      RemoveByIdCount(xs[1..], id);
      assert Ids(xs) == [xs[0].id] + Ids(xs[1..]);
    }
  }

  /** Removing twice is removing once. */
  lemma {:induction false} RemoveByIdIdempotent(xs: seq<Extra>, id: string)
    ensures RemoveById(RemoveById(xs, id), id) == RemoveById(xs, id)
  {
    if xs != [] {
      RemoveByIdIdempotent(xs[1..], id);
      if xs[0].id != id {
        assert ([xs[0]] + RemoveById(xs[1..], id))[1..] == RemoveById(xs[1..], id);
      }
    }
  }

  /** Every id was handed out before `next`. */
  predicate IdsBelow(xs: seq<Extra>, next: nat) {
    forall e :: e in xs ==> DigitsValue(e.id) < next
  }

  predicate IdsDistinct(xs: seq<Extra>) {
    forall i, j :: 0 <= i < j < |xs| ==> xs[i].id != xs[j].id
  }

  /** Ids are unique and were all handed out before the next fresh number. */
  predicate IdsValid(xs: seq<Extra>, next: nat) {
    IdsBelow(xs, next) && IdsDistinct(xs)
  }

  /** An extra with the next fresh id can be appended without clashing. */
  lemma AppendFresh(xs: seq<Extra>, next: nat, ex: Extra)
    requires IdsValid(xs, next) && ex.id == IdOf(next)
    ensures IdsValid(xs + [ex], next + 1)
  {
    DecimalDigitsRoundTrip(next);
    var ys := xs + [ex];
    forall i, j | 0 <= i < j < |ys| ensures ys[i].id != ys[j].id {
      if j == |xs| {
        assert ys[i] in xs;
        assert DigitsValue(ys[i].id) < next == DigitsValue(ys[j].id);
      }
    }
  }

  /** Removing extras keeps ids valid. */
  lemma {:induction false} RemoveKeepsIds(xs: seq<Extra>, id: string, next: nat)
    requires IdsValid(xs, next)
    ensures IdsValid(RemoveById(xs, id), next)
  {
    if xs != [] {
      var tail := xs[1..];
      assert IdsDistinct(tail) by {
        forall i, j | 0 <= i < j < |tail| ensures tail[i].id != tail[j].id {
          assert tail[i] == xs[i + 1] && tail[j] == xs[j + 1];
        }
      }
      RemoveKeepsIds(tail, id, next);
      if xs[0].id != id {
        var rt := RemoveById(tail, id);
        assert forall k :: 0 <= k < |tail| ==> tail[k].id != xs[0].id by {
          forall k | 0 <= k < |tail| ensures tail[k].id != xs[0].id {
            assert tail[k] == xs[k + 1];
          }
        }
        assert forall e :: e in rt ==> e.id != xs[0].id;
        PrependDistinct(xs[0], rt);
      }
    }
  }

  lemma PrependDistinct(x: Extra, rt: seq<Extra>)
    requires IdsDistinct(rt) && forall e :: e in rt ==> e.id != x.id
    ensures IdsDistinct([x] + rt)
  {
    var r := [x] + rt;
    forall i, j | 0 <= i < j < |r| ensures r[i].id != r[j].id {
      assert r[j] == rt[j - 1];
      if i > 0 {
        assert r[i] == rt[i - 1];
      } else {
        assert rt[j - 1] in rt;
      }
    }
  }

  /** Replacing an extra by one with the same id keeps ids valid. */
  lemma ReplaceKeepsIds(xs: seq<Extra>, next: nat, i: nat, ex: Extra)
    requires IdsValid(xs, next) && i < |xs| && ex.id == xs[i].id
    ensures IdsValid(xs[i := ex], next)
  {
    var ys := xs[i := ex];
    forall e | e in ys ensures DigitsValue(e.id) < next {
      var k :| 0 <= k < |ys| && ys[k] == e;
      assert xs[k] in xs;
    }
  }

  /** Rewriting extras one for one without touching their ids keeps ids valid. */
  lemma RewriteKeepsIds(xs: seq<Extra>, ys: seq<Extra>, next: nat)
    requires IdsValid(xs, next) && |ys| == |xs|
    requires forall i :: 0 <= i < |xs| ==> ys[i].id == xs[i].id
    ensures IdsValid(ys, next)
  {
    forall e | e in ys ensures DigitsValue(e.id) < next {
      var k :| 0 <= k < |ys| && ys[k] == e;
      assert xs[k] in xs;
    }
  }

  /** Extras numbered consecutively from `first` carry valid ids. */
  lemma ConsecutiveIds(r: seq<Extra>, first: nat)
    requires forall i :: 0 <= i < |r| ==> r[i].id == IdOf(first + i)
    ensures IdsValid(r, first + |r|)
  {
    forall e | e in r ensures DigitsValue(e.id) < first + |r| {
      var i :| 0 <= i < |r| && r[i] == e;
      DecimalDigitsRoundTrip(first + i);
    }
    forall i, j | 0 <= i < j < |r| ensures r[i].id != r[j].id {
      if r[i].id == r[j].id {
        IdOfInjective(first + i, first + j);
      }
    }
  }

  /** The position of a catalog key in `['extra_kados', 'extra_fatoura']` (`indexOf`). */
  function Rank(key: string): int {
    if key == "extra_kados" then 0 else if key == "extra_fatoura" then 1 else -1
  }

  /** The items of one rank, in their original order. */
  function OfRank(items: seq<CatalogItem>, r: int): (s: seq<CatalogItem>)
    ensures forall i :: 0 <= i < |s| ==> Rank(s[i].key) == r
    ensures multiset(s) <= multiset(items)
  {
    if items == [] then []
    else
      assert items == [items[0]] + items[1..];
      if Rank(items[0].key) == r then [items[0]] + OfRank(items[1..], r) else OfRank(items[1..], r)
  }

  /**
   * The stable sort by rank of `init`: items with other keys first, then the
   * skip (extra_kados), then the scaffolding (extra_fatoura).
   */
  function SortByRank(items: seq<CatalogItem>): seq<CatalogItem> {
    OfRank(items, -1) + OfRank(items, 0) + OfRank(items, 1)
  }

  lemma {:induction false} OfRankSplit(items: seq<CatalogItem>)
    ensures multiset(OfRank(items, -1)) + multiset(OfRank(items, 0)) + multiset(OfRank(items, 1)) == multiset(items)
  {
    if items != [] {
      var x, rest := items[0], items[1..];
      OfRankSplit(rest);
      assert items == [x] + rest;
      var a, b, c := OfRank(rest, -1), OfRank(rest, 0), OfRank(rest, 1);
      assert multiset(items) == multiset{x} + multiset(a) + multiset(b) + multiset(c);
      var k := Rank(x.key);
      if k == -1 {
        assert OfRank(items, -1) == [x] + a && OfRank(items, 0) == b && OfRank(items, 1) == c;
      } else if k == 0 {
        assert OfRank(items, -1) == a && OfRank(items, 0) == [x] + b && OfRank(items, 1) == c;
      } else {
        assert k == 1;
        assert OfRank(items, -1) == a && OfRank(items, 0) == b && OfRank(items, 1) == [x] + c;
      }
    }
  }

  /** The sort is ordered by rank and a permutation of the catalog's extras. */
  lemma SortByRankSorted(items: seq<CatalogItem>)
    ensures var s := SortByRank(items);
      (forall i, j :: 0 <= i < j < |s| ==> Rank(s[i].key) <= Rank(s[j].key))
      && multiset(s) == multiset(items)
  {
    OfRankSplit(items);
  }

  /** ... and stable: the items of each rank keep their catalog order. */
  lemma SortByRankStable(items: seq<CatalogItem>, r: int)
    ensures OfRank(SortByRank(items), r) == OfRank(items, r)
  {
    var a, b, c := OfRank(items, -1), OfRank(items, 0), OfRank(items, 1);
    OfRankAppend(a + b, c, r);
    OfRankAppend(a, b, r);
    var fa, fb, fc := OfRank(a, r), OfRank(b, r), OfRank(c, r);
    assert OfRank(SortByRank(items), r) == fa + fb + fc;
    OfRankOnly(a, -1, r);
    OfRankOnly(b, 0, r);
    OfRankOnly(c, 1, r);
    if r == -1 {
      assert fa + fb + fc == a;
    } else if r == 0 {
      assert fa + fb + fc == b;
    } else if r == 1 {
      assert fa + fb + fc == c;
    } else {
      OfRankOther(items, r);
      assert fa + fb + fc == [];
    }
  }

  /** Filtering by a rank other than -1, 0 or 1 leaves nothing. */
  lemma {:induction false} OfRankOther(items: seq<CatalogItem>, r: int)
    ensures r != -1 && r != 0 && r != 1 ==> OfRank(items, r) == []
  {
    if items != [] {
      OfRankOther(items[1..], r);
    }
  }

  lemma {:induction false} OfRankAppend(a: seq<CatalogItem>, b: seq<CatalogItem>, r: int)
    ensures OfRank(a + b, r) == OfRank(a, r) + OfRank(b, r)
  {
    if a != [] {
      assert (a + b)[1..] == a[1..] + b;
      OfRankAppend(a[1..], b, r);
    } else {
      assert a + b == b;
    }
  }

  /** Filtering items all of rank `q` by rank `r` keeps all or none. */
  lemma {:induction false} OfRankOnly(a: seq<CatalogItem>, q: int, r: int)
    requires forall i :: 0 <= i < |a| ==> Rank(a[i].key) == q
    ensures OfRank(a, r) == if q == r then a else []
  {
    if a != [] {
      OfRankOnly(a[1..], q, r);
      assert a == [a[0]] + a[1..];
    }
  }

  /** The extras made from the catalog's extras group, numbered from `first`. */
  function SeedFromCatalog(items: seq<CatalogItem>, first: nat): (r: seq<Extra>)
    ensures |r| == |items|
  {
    var s := SortByRank(items);
    SortByRankSorted(items);
    assert |s| == |multiset(s)| == |multiset(items)| == |items|;
    seq(|s|, i requires 0 <= i < |s| =>
      CreateExtra(IdOf(first + i), s[i].name, s[i].unit, 0.0, s[i].latestPrice, true, s[i].key))
  }

  /** Fixed initial extras: the painting page's five, and the fallback of the others. */
  function PaintingDefaults(first: nat): seq<Extra> {
    [ CreateExtra(IdOf(first), "Κουβάς", "unit", 0.0, 55.0, false, ""),
      CreateExtra(IdOf(first + 1), "Αστάρι", "unit", 0.0, 50.0, false, ""),
      CreateExtra(IdOf(first + 2), "Στόκος", "unit", 0.0, 15.0, false, ""),
      CreateExtra(IdOf(first + 3), "Κάδος", "unit", 0.0, 120.0, false, ""),
      CreateExtra(IdOf(first + 4), "Φατούρα", "m2", 0.0, 0.0, true, "") ]
  }

  function FallbackExtras(first: nat): seq<Extra> {
    [ CreateExtra(IdOf(first), "Κάδος", "unit", 0.0, 120.0, true, "extra_kados"),
      CreateExtra(IdOf(first + 1), "Φατούρα", "m2", 0.0, 0.0, true, "extra_fatoura") ]
  }

  /**
   * The extras `init` sets: the painting defaults, else the catalog's extras
   * group sorted by rank when it is present and not empty, else the fallback.
   */
  function InitialExtras(p: Page, catalogExtras: Option<seq<CatalogItem>>, first: nat): seq<Extra> {
    if p == Painting then PaintingDefaults(first)
    else if catalogExtras.Some? && |catalogExtras.value| > 0 then SeedFromCatalog(catalogExtras.value, first)
    else FallbackExtras(first)
  }

  /** The catalog key of an extra, empty when it has none. */
  function KeyOf(ex: Extra): string {
    if ex.key.Some? then ex.key.value else ""
  }

  /** Painting: the five fixed extras, only the scaffolding (Φατούρα, per m2) automatic. */
  lemma PaintingInitialExtras(catalogExtras: Option<seq<CatalogItem>>, first: nat)
    ensures var r := InitialExtras(Painting, catalogExtras, first);
      |r| == 5 && (forall i :: 0 <= i < 5 ==> r[i].key.None? && r[i].qty == 0.0)
      && (forall i :: 0 <= i < 4 ==> r[i].unit == "unit" && !r[i].autoQty)
      && r[4].unit == "m2" && EffectiveAuto(Painting, r[4])
      && [r[0].price, r[1].price, r[2].price, r[3].price, r[4].price] == [55.0, 50.0, 15.0, 120.0, 0.0]
  {
  }

  /**
   * Other pages with catalog extras: one automatic extra per catalog item,
   * carrying its name, unit, price and key, ordered by rank.
   */
  lemma SeededInitialExtras(p: Page, items: seq<CatalogItem>, first: nat)
    requires p != Painting && |items| > 0
    ensures var r := InitialExtras(p, Some(items), first);
      |r| == |items|
      && (forall i :: 0 <= i < |r| ==> r[i].autoQty && r[i].qty == 0.0)
      && (forall i, j :: 0 <= i < j < |r| ==> Rank(KeyOf(r[i])) <= Rank(KeyOf(r[j])))
      && (forall it :: it in items ==> exists i :: 0 <= i < |r| && Seeds(it, r[i]))
  {
    assert InitialExtras(p, Some(items), first) == SeedFromCatalog(items, first);
    SeedFromCatalogShape(items, first);
    SeedFromCatalogSorted(items, first);
    SeedFromCatalogCovers(items, first);
  }

  lemma SeedFromCatalogSorted(items: seq<CatalogItem>, first: nat)
    ensures var r := SeedFromCatalog(items, first);
      forall i, j :: 0 <= i < j < |r| ==> Rank(KeyOf(r[i])) <= Rank(KeyOf(r[j]))
  {
    var r, s := SeedFromCatalog(items, first), SortByRank(items);
    SeedFromCatalogShape(items, first);
    SortByRankSorted(items);
    forall i, j | 0 <= i < j < |r| ensures Rank(KeyOf(r[i])) <= Rank(KeyOf(r[j])) {
      assert KeyOf(r[i]) == s[i].key && KeyOf(r[j]) == s[j].key;
    }
  }

  lemma SeedFromCatalogCovers(items: seq<CatalogItem>, first: nat)
    ensures var r := SeedFromCatalog(items, first);
      forall it :: it in items ==> exists i :: 0 <= i < |r| && Seeds(it, r[i])
  {
    var r, s := SeedFromCatalog(items, first), SortByRank(items);
    SeedFromCatalogShape(items, first);
    SortByRankSorted(items);
    forall it | it in items ensures exists i :: 0 <= i < |r| && Seeds(it, r[i]) {
      assert it in multiset(s);
      var i :| 0 <= i < |s| && s[i] == it;
      assert Seeds(s[i], r[i]);
    }
  }

  /** The seeded extras follow the sorted catalog item by item. */
  lemma SeedFromCatalogShape(items: seq<CatalogItem>, first: nat)
    ensures var r, s := SeedFromCatalog(items, first), SortByRank(items);
      |r| == |s|
      && forall i :: 0 <= i < |r| ==> r[i].autoQty && r[i].qty == 0.0 && KeyOf(r[i]) == s[i].key && Seeds(s[i], r[i])
  {
    var r, s := SeedFromCatalog(items, first), SortByRank(items);
    forall i | 0 <= i < |r|
      ensures r[i].autoQty && r[i].qty == 0.0 && KeyOf(r[i]) == s[i].key && Seeds(s[i], r[i])
    {
      assert r[i] == CreateExtra(IdOf(first + i), s[i].name, s[i].unit, 0.0, s[i].latestPrice, true, s[i].key);
    }
  }

  /** The extra shows the catalog item: its name, unit, latest price and key. */
  predicate Seeds(it: CatalogItem, ex: Extra) {
    ex.desc == it.name && ex.unit == it.unit && ex.price == it.latestPrice && KeyOf(ex) == it.key
  }

  /** Other pages without catalog extras: the skip at 120 (manual, as its unit is pieces) and the automatic scaffolding. */
  lemma FallbackInitialExtras(p: Page, catalogExtras: Option<seq<CatalogItem>>, first: nat)
    requires p != Painting && (catalogExtras.None? || |catalogExtras.value| == 0)
    ensures var r := InitialExtras(p, catalogExtras, first);
      |r| == 2 && r[0].key == Some("extra_kados") && r[1].key == Some("extra_fatoura")
      && r[0].price == 120.0 && r[0].autoQty && !EffectiveAuto(p, r[0]) && EffectiveAuto(p, r[1])
  {
  }

  /** The initial extras carry fresh, distinct ids. */
  lemma InitialExtrasIds(p: Page, catalogExtras: Option<seq<CatalogItem>>, first: nat)
    ensures var r := InitialExtras(p, catalogExtras, first);
      IdsValid(r, first + |r|)
  {
    var r := InitialExtras(p, catalogExtras, first);
    if p == Painting {
      PaintingDefaultsIds(first);
    } else if catalogExtras.Some? && |catalogExtras.value| > 0 {
      SeedFromCatalogIds(catalogExtras.value, first);
    } else {
      assert r == FallbackExtras(first);
      assert r[0].id == IdOf(first) && r[1].id == IdOf(first + 1);
      ConsecutiveIds(r, first);
    }
  }

  lemma PaintingDefaultsIds(first: nat)
    ensures IdsValid(PaintingDefaults(first), first + 5)
  {
    var r := PaintingDefaults(first);
    assert r[0].id == IdOf(first) && r[1].id == IdOf(first + 1) && r[2].id == IdOf(first + 2);
    assert r[3].id == IdOf(first + 3) && r[4].id == IdOf(first + 4);
    ConsecutiveIds(r, first);
  }

  lemma SeedFromCatalogIds(items: seq<CatalogItem>, first: nat)
    ensures IdsValid(SeedFromCatalog(items, first), first + |items|)
  {
    var r := SeedFromCatalog(items, first);
    assert forall i :: 0 <= i < |r| ==> r[i].id == IdOf(first + i);
    ConsecutiveIds(r, first);
  }
}
