/**
 * What `recalc` computes: the cost of every group of price cards, the cost of
 * the extras, the totals at the page's markup and the per-measurement sell
 * prices. Quantities derived from a consumption rate with a base of 0 are not
 * finite numbers in JavaScript; such a quantity is `None` here, and so is
 * every sum it enters and the whole quote.
 */
module Quote {
  import opened Wrappers
  import opened Pages
  import opened Measures
  import opened Consumption
  import opened Pricing
  import opened Extras
  import opened Search

  /**
   * A price card: its catalog key, unit and consumption text, the price typed
   * into it, the saved price it is compared with, and whether its update
   * button shows.
   */
  datatype Card = Card(key: string, unit: string, consumption: string, price: real, original: real,
                       updateShown: bool)

  /** The lists of price cards on a page. */
  datatype Cards = Cards(areas: seq<Card>, linear: seq<Card>, volumes: seq<Card>,
                         pieces: seq<Card>, workers: seq<Card>)

  /** The groups whose cards are priced per measurement. */
  datatype Group = Areas | Linear | Volumes | Workers

  /** Whether the page lists the group: areas on all pages but painting, running metres on drywall and thermal facade, volumes on tiling, workers everywhere. */
  predicate HasGroup(p: Page, g: Group) {
    match g
    case Areas => p != Painting
    case Linear => p == Drywall || p == ThermalFacade
    case Volumes => p == Tiling
    case Workers => true
  }

  /** Whether the group's quantity goes through the card's consumption rate. */
  predicate UsesRate(p: Page, g: Group) {
    (p == Drywall && g == Linear) || (p == Tiling && (g == Areas || g == Volumes))
  }

  /** The measurement a group is priced by. */
  function Base(g: Group, m: Measurements): real {
    match g
    case Areas => m.m2
    case Linear => m.lm
    case Volumes => m.m3
    case Workers => 0.0
  }

  /** The quantity a card of the group is charged for. */
  function CardQty(p: Page, g: Group, c: Card, m: Measurements): (q: Option<real>)
    ensures g == Workers ==> q == Some(Days(m.days, c.key))
    ensures g != Workers && !UsesRate(p, g) ==> q == Some(Base(g, m))
    ensures q.None? <==> UsesRate(p, g) && RateBaseZero(p, c)
  {
    if g == Workers then Some(Days(m.days, c.key))
    else if UsesRate(p, g) then CalcQty(p, ParseConsumption(p, c.consumption), Base(g, m)).qty
    else Some(Base(g, m))
  }

  /** The card's consumption text parses to a rate per 0 base units. */
  predicate RateBaseZero(p: Page, c: Card) {
    HasRates(p) && var r := ParseConsumption(p, c.consumption); r.Some? && r.value.baseQty == 0.0
  }

  /** `price · qty` of one card. */
  function CardCost(p: Page, g: Group, c: Card, m: Measurements): Option<real> {
    var q := CardQty(p, g, c, m);
    if q.None? then None else Some(c.price * q.value)
  }

  /** The sum over a group's cards, in order; `None` once a card's cost is not finite. */
  function GroupCost(p: Page, g: Group, cs: seq<Card>, m: Measurements): Option<real> {
    if cs == [] then Some(0.0)
    else
      match GroupCost(p, g, cs[..|cs| - 1], m)
      case None => None
      case Some(s) =>
        match CardCost(p, g, cs[|cs| - 1], m)
        case None => None
        case Some(c) => Some(s + c)
  }

  /** A group's sum is finite exactly when no card of it has a rate with a base of 0. */
  lemma {:induction false} GroupCostDefined(p: Page, g: Group, cs: seq<Card>, m: Measurements)
    ensures GroupCost(p, g, cs, m).None? <==> UsesRate(p, g) && exists c :: c in cs && RateBaseZero(p, c)
  {
    if cs != [] {
      var init, last := cs[..|cs| - 1], cs[|cs| - 1];
      GroupCostDefined(p, g, init, m);
      GroupCostUnfold(p, g, cs, m);
      RateBaseZeroSnoc(p, cs);
    }
  }

  /** A card with a rate per 0 base units is among the first cards or is the last one. */
  lemma RateBaseZeroSnoc(p: Page, cs: seq<Card>)
    requires cs != []
    ensures (exists c :: c in cs && RateBaseZero(p, c))
        <==> (exists c :: c in cs[..|cs| - 1] && RateBaseZero(p, c)) || RateBaseZero(p, cs[|cs| - 1])
  {
    var init, last := cs[..|cs| - 1], cs[|cs| - 1];
    assert cs == init + [last];
    if exists c :: c in cs && RateBaseZero(p, c) {
      var c :| c in cs && RateBaseZero(p, c);
      assert c in init || c == last;
    }
  }

  /** Without rates every card is charged `price · measurement`: the group costs the sum of its prices times it. */
  lemma {:induction false} GroupCostPlain(p: Page, g: Group, cs: seq<Card>, m: Measurements)
    requires g != Workers && !UsesRate(p, g)
    ensures GroupCost(p, g, cs, m).Some? && GroupCost(p, g, cs, m).value == PriceSum(cs) * Base(g, m)
  {
    GroupCostScaled(p, g, cs, m);
    ScaledSumFactors(cs, Base(g, m));
  }

  /** Each card charged `price · b`, summed in order. */
  function ScaledSum(cs: seq<Card>, b: real): real {
    if cs == [] then 0.0 else ScaledSum(cs[..|cs| - 1], b) + cs[|cs| - 1].price * b
  }

  lemma {:induction false} GroupCostScaled(p: Page, g: Group, cs: seq<Card>, m: Measurements)
    requires g != Workers && !UsesRate(p, g)
    ensures GroupCost(p, g, cs, m).Some? && GroupCost(p, g, cs, m).value == ScaledSum(cs, Base(g, m))
  {
    if cs != [] {
      GroupCostScaled(p, g, cs[..|cs| - 1], m);
      CardCostPlain(p, g, cs[|cs| - 1], m);
      GroupCostUnfold(p, g, cs, m);
    }
  }

  /** The last card's cost is added to the sum of the ones before it. */
  lemma GroupCostUnfold(p: Page, g: Group, cs: seq<Card>, m: Measurements)
    requires cs != []
    ensures var init, last := GroupCost(p, g, cs[..|cs| - 1], m), CardCost(p, g, cs[|cs| - 1], m);
      (GroupCost(p, g, cs, m).Some? <==> init.Some? && last.Some?)
      && (GroupCost(p, g, cs, m).Some? ==> GroupCost(p, g, cs, m).value == init.value + last.value)
  {
  }

  lemma CardCostPlain(p: Page, g: Group, c: Card, m: Measurements)
    requires g != Workers && !UsesRate(p, g)
    ensures CardCost(p, g, c, m).Some? && CardCost(p, g, c, m).value == c.price * Base(g, m)
  {
  }

  lemma {:induction false} ScaledSumFactors(cs: seq<Card>, b: real)
    ensures ScaledSum(cs, b) == PriceSum(cs) * b
  {
    if cs != [] {
      ScaledSumFactors(cs[..|cs| - 1], b);
      Distributes(PriceSum(cs[..|cs| - 1]), cs[|cs| - 1].price, b);
    }
  }

  /** Adding a card at the end adds its cost, or makes the sum undefined when its cost is. */
  lemma GroupCostSnoc(p: Page, g: Group, cs: seq<Card>, c: Card, m: Measurements)
    ensures GroupCost(p, g, cs + [c], m).Some? <==> GroupCost(p, g, cs, m).Some? && CardCost(p, g, c, m).Some?
    ensures GroupCost(p, g, cs + [c], m).Some? ==>
      GroupCost(p, g, cs + [c], m).value == GroupCost(p, g, cs, m).value + CardCost(p, g, c, m).value
  {
    assert (cs + [c])[..|cs|] == cs;
  }

  /** One more card of the loop in `sumGroup`: the running sum stays the sum of the cards seen. */
  lemma GroupCostStep(p: Page, g: Group, cs: seq<Card>, i: nat, m: Measurements, s: Option<real>)
    requires i < |cs|
    requires s.Some? == GroupCost(p, g, cs[..i], m).Some?
    requires s.Some? ==> s.value == GroupCost(p, g, cs[..i], m).value
    ensures var c := CardCost(p, g, cs[i], m);
      var t := if s.Some? && c.Some? then Some(s.value + c.value) else None;
      t.Some? == GroupCost(p, g, cs[..i + 1], m).Some?
      && (t.Some? ==> t.value == GroupCost(p, g, cs[..i + 1], m).value)
  {
    assert cs[..i + 1] == cs[..i] + [cs[i]];
    GroupCostSnoc(p, g, cs[..i], cs[i], m);
  }

  /** Two results that agree on being defined and on their value are the same result. */
  lemma GroupCostCases(p: Page, g: Group, cs: seq<Card>, m: Measurements, s: Option<real>)
    requires s.Some? == GroupCost(p, g, cs, m).Some?
    requires s.Some? ==> s.value == GroupCost(p, g, cs, m).value
    ensures s == GroupCost(p, g, cs, m)
  {
  }

  lemma Distributes(x: real, y: real, b: real)
    ensures x * b + y * b == (x + y) * b
  {
  }

  /** The sum of the prices typed into the cards. */
  function PriceSum(cs: seq<Card>): real {
    if cs == [] then 0.0 else PriceSum(cs[..|cs| - 1]) + cs[|cs| - 1].price
  }

  /** The first card with the key (`[data-key="…"]`). */
  function FindCard(cs: seq<Card>, key: string): (r: Option<nat>)
    ensures r.Some? ==> r.value < |cs| && cs[r.value].key == key
                        && forall j :: 0 <= j < r.value ==> cs[j].key != key
    ensures r.None? ==> forall j :: 0 <= j < |cs| ==> cs[j].key != key
  {
    FindFirst(cs, CardKey, key)
  }

  function CardKey(c: Card): string { c.key }

  /** The first card whose key starts with the prefix (`[data-key^="…"]`). */
  function FindCardWithPrefix(cs: seq<Card>, prefix: string): (r: Option<nat>)
    ensures r.Some? ==> r.value < |cs| && prefix <= cs[r.value].key
                        && forall j :: 0 <= j < r.value ==> !(prefix <= cs[j].key)
    ensures r.None? ==> forall j :: 0 <= j < |cs| ==> !(prefix <= cs[j].key)
  {
    if cs == [] then None
    else if prefix <= cs[0].key then Some(0)
    else match FindCardWithPrefix(cs[1..], prefix)
      case None => None
      case Some(i) => Some(i + 1)
  }

  /** The cost of one selected piece card: its price times the count rounded up; nothing without a card. */
  function PieceCost(cs: seq<Card>, at: Option<nat>, count: real): real
    requires at.Some? ==> at.value < |cs|
  {
    if at.None? then 0.0 else cs[at.value].price * Ceil(count) as real
  }

  /**
   * The drywall pieces: the first card of each sheet kind, the first stud card
   * (`strotiras_…`) and the first upright card (`orthostatis_…`), each charged
   * for its count rounded up.
   */
  function PiecesCost(cs: seq<Card>, n: PieceCounts): real {
    PieceCost(cs, FindCard(cs, "sheet_gyps"), n.sheetsGyps)
    + PieceCost(cs, FindCard(cs, "sheet_ino"), n.sheetsIno)
    + PieceCost(cs, FindCard(cs, "sheet_anthygri"), n.sheetsAnth)
    + PieceCost(cs, FindCardWithPrefix(cs, "strotiras_"), n.strotiras)
    + PieceCost(cs, FindCardWithPrefix(cs, "orthostatis_"), n.orthostatis)
  }

  /** Whether every one of the five piece selectors already finds a card. */
  predicate AllPiecesFound(cs: seq<Card>) {
    FindCard(cs, "sheet_gyps").Some? && FindCard(cs, "sheet_ino").Some?
    && FindCard(cs, "sheet_anthygri").Some?
    && FindCardWithPrefix(cs, "strotiras_").Some? && FindCardWithPrefix(cs, "orthostatis_").Some?
  }

  lemma FindCardAppend(cs: seq<Card>, more: seq<Card>, key: string)
    requires FindCard(cs, key).Some?
    ensures FindCard(cs + more, key) == FindCard(cs, key)
  {
    FindFirstAppend(cs, more, CardKey, key);
  }

  lemma {:induction false} FindCardWithPrefixAppend(cs: seq<Card>, more: seq<Card>, prefix: string)
    requires FindCardWithPrefix(cs, prefix).Some?
    ensures FindCardWithPrefix(cs + more, prefix) == FindCardWithPrefix(cs, prefix)
  {
    if !(prefix <= cs[0].key) {
      assert (cs + more)[1..] == cs[1..] + more;
      FindCardWithPrefixAppend(cs[1..], more, prefix);
    }
  }

  /** A selected card keeps its cost when cards are added after it. */
  lemma PieceCostAppend(cs: seq<Card>, more: seq<Card>, at: Option<nat>, count: real)
    requires at.Some? ==> at.value < |cs|
    ensures PieceCost(cs + more, at, count) == PieceCost(cs, at, count)
  {
    if at.Some? {
      assert (cs + more)[at.value] == cs[at.value];
    }
  }

  /** Only the first card of each kind is charged: cards added after all five were found change nothing. */
  lemma FirstPieceCardsWin(cs: seq<Card>, more: seq<Card>, n: PieceCounts)
    requires AllPiecesFound(cs)
    ensures PiecesCost(cs + more, n) == PiecesCost(cs, n)
  {
    var g, i, a := FindCard(cs, "sheet_gyps"), FindCard(cs, "sheet_ino"), FindCard(cs, "sheet_anthygri");
    var s, o := FindCardWithPrefix(cs, "strotiras_"), FindCardWithPrefix(cs, "orthostatis_");
    FindCardAppend(cs, more, "sheet_gyps");
    FindCardAppend(cs, more, "sheet_ino");
    FindCardAppend(cs, more, "sheet_anthygri");
    FindCardWithPrefixAppend(cs, more, "strotiras_");
    FindCardWithPrefixAppend(cs, more, "orthostatis_");
    PieceCostAppend(cs, more, g, n.sheetsGyps);
    PieceCostAppend(cs, more, i, n.sheetsIno);
    PieceCostAppend(cs, more, a, n.sheetsAnth);
    PieceCostAppend(cs, more, s, n.strotiras);
    PieceCostAppend(cs, more, o, n.orthostatis);
  }

  lemma SheetKeyIsNoFrame()
    ensures !("strotiras_" <= "sheet_gyps") && !("orthostatis_" <= "sheet_gyps")
  {
    assert "strotiras_"[1] != "sheet_gyps"[1];
    assert "orthostatis_"[0] != "sheet_gyps"[0];
  }

  /** Counts are charged whole: a fraction of a sheet costs a whole sheet. */
  lemma PiecesChargedWhole(c: Card, n: PieceCounts)
    requires c.key == "sheet_gyps" && n.sheetsGyps > 0.0
    ensures PiecesCost([c], n) == c.price * Ceil(n.sheetsGyps) as real
    ensures n.sheetsGyps <= 1.0 ==> PiecesCost([c], n) == c.price
  {
    SheetKeyIsNoFrame();
    assert "sheet_ino" != c.key && "sheet_anthygri" != c.key;
    if n.sheetsGyps <= 1.0 {
      CeilUnique(n.sheetsGyps, 1);
    }
  }

  /** What `recalc` charges for one extra: its price times its resolved quantity. */
  function ExtraCost(p: Page, ex: Extra, m: Measurements): real {
    ex.price * ResolvedQty(p, ex, m)
  }

  /** The sum over the extras, in order. */
  function ExtrasCost(p: Page, xs: seq<Extra>, m: Measurements): real {
    if xs == [] then 0.0 else ExtrasCost(p, xs[..|xs| - 1], m) + ExtraCost(p, xs[|xs| - 1], m)
  }

  /** The sum splits over any division of the extras. */
  lemma {:induction false} ExtrasCostAppend(p: Page, a: seq<Extra>, b: seq<Extra>, m: Measurements)
    ensures ExtrasCost(p, a + b, m) == ExtrasCost(p, a, m) + ExtrasCost(p, b, m)
  {
    if b != [] {
      var init := b[..|b| - 1];
      ExtrasCostAppend(p, a, init, m);
      assert (a + b)[..|a + b| - 1] == a + init;
    } else {
      assert a + b == a;
    }
  }

  /**
   * Every extra is charged, flagged or not: its share of the sum is its own
   * cost, which is negative for a negative manual quantity at a positive price.
   */
  lemma ExtraCharged(p: Page, xs: seq<Extra>, i: nat, m: Measurements)
    requires i < |xs|
    ensures ExtrasCost(p, xs, m) == ExtrasCost(p, xs[..i] + xs[i + 1..], m) + ExtraCost(p, xs[i], m)
  {
    assert xs == xs[..i] + [xs[i]] + xs[i + 1..];
    ExtrasCostAppend(p, xs[..i] + [xs[i]], xs[i + 1..], m);
    ExtrasCostAppend(p, xs[..i], [xs[i]], m);
    ExtrasCostAppend(p, xs[..i], xs[i + 1..], m);
    assert ExtrasCost(p, [xs[i]], m) == ExtraCost(p, xs[i], m) by {
      assert [xs[i]][..0] == [];
    }
  }

  lemma {:induction false} RemoveByIdAbsent(xs: seq<Extra>, id: string)
    requires forall j :: 0 <= j < |xs| ==> xs[j].id != id
    ensures RemoveById(xs, id) == xs
  {
    if xs != [] {
      RemoveByIdAbsent(xs[1..], id);
      assert [xs[0]] + xs[1..] == xs;
    }
  }

  /** With distinct ids, removing an extra lowers the extras' sum by exactly that extra's cost. */
  lemma RemoveExtraCost(p: Page, xs: seq<Extra>, i: nat, m: Measurements)
    requires IdsDistinct(xs) && i < |xs|
    ensures RemoveById(xs, xs[i].id) == xs[..i] + xs[i + 1..]
    ensures ExtrasCost(p, RemoveById(xs, xs[i].id), m) == ExtrasCost(p, xs, m) - ExtraCost(p, xs[i], m)
  {
    var id := xs[i].id;
    var pre, post := xs[..i], xs[i + 1..];
    assert xs == pre + ([xs[i]] + post);
    RemoveByIdAppend(pre, [xs[i]] + post, id);
    RemoveByIdAppend([xs[i]], post, id);
    assert forall j :: 0 <= j < |pre| ==> pre[j].id != id by {
      forall j | 0 <= j < |pre| ensures pre[j].id != id { assert pre[j] == xs[j]; }
    }
    assert forall j :: 0 <= j < |post| ==> post[j].id != id by {
      forall j | 0 <= j < |post| ensures post[j].id != id { assert post[j] == xs[i + 1 + j]; }
    }
    RemoveByIdAbsent(pre, id);
    RemoveByIdAbsent(post, id);
    assert RemoveById([xs[i]], id) == [];
    ExtraCharged(p, xs, i, m);
  }

  /** The zero-quantity flags of the drywall and thermal-facade pages, one per extra. */
  function ZeroQtyFlags(p: Page, xs: seq<Extra>, m: Measurements): (f: seq<bool>)
    ensures |f| == |xs|
  {
    seq(|xs|, i requires 0 <= i < |xs| => FlagsZeroQty(p) && ResolvedQty(p, xs[i], m) <= 0.0)
  }

  /** One more extra of the loop in `recalc`: its cost is added and its flag appended. */
  lemma ExtrasStep(p: Page, xs: seq<Extra>, i: nat, m: Measurements)
    requires i < |xs|
    ensures ExtrasCost(p, xs[..i + 1], m) == ExtrasCost(p, xs[..i], m) + xs[i].price * ResolvedQty(p, xs[i], m)
    ensures ZeroQtyFlags(p, xs[..i + 1], m)
         == ZeroQtyFlags(p, xs[..i], m) + [FlagsZeroQty(p) && ResolvedQty(p, xs[i], m) <= 0.0]
  {
    var done := xs[..i + 1];
    assert done[..i] == xs[..i] && done[i] == xs[i];
  }

  /** An extra is flagged exactly when the page flags and its charged quantity is not positive; a blank row always is. */
  lemma ZeroQtyFlagRule(p: Page, xs: seq<Extra>, m: Measurements, i: nat)
    requires i < |xs|
    ensures ZeroQtyFlags(p, xs, m)[i] <==> FlagsZeroQty(p) && ResolvedQty(p, xs[i], m) <= 0.0
    ensures xs[i] == NewRow(xs[i].id) ==> (ZeroQtyFlags(p, xs, m)[i] <==> FlagsZeroQty(p))
  {
    if xs[i] == NewRow(xs[i].id) {
      NewRowIsManual(p, xs[i].id, m);
    }
  }

  /** The extras' sum and flags depend on each extra only through its price and charged quantity. */
  lemma {:induction false} ExtrasCostPointwise(p: Page, xs: seq<Extra>, ys: seq<Extra>, m: Measurements)
    requires |xs| == |ys|
    requires forall i :: 0 <= i < |xs| ==>
      xs[i].price == ys[i].price && ResolvedQty(p, xs[i], m) == ResolvedQty(p, ys[i], m)
    ensures ExtrasCost(p, xs, m) == ExtrasCost(p, ys, m)
    ensures ZeroQtyFlags(p, xs, m) == ZeroQtyFlags(p, ys, m)
  {
    if xs != [] {
      var n := |xs| - 1;
      ExtrasCostPointwise(p, xs[..n], ys[..n], m);
    }
  }

  /**
   * An automatic scaffolding extra at 10 per m2 on 50 m2 of drywall, its
   * stored quantity 0: once its box is cleared it is still charged 500 and
   * not flagged; only the next re-render brings it down to 0, flagged.
   */
  lemma UntickExample(m: Measurements)
    requires m.m2 == 50.0
    ensures var ex := SyncField(Drywall, CreateExtra("0", "Φατούρα", "m2", 0.0, 10.0, true, ""), m);
      var off := ApplyChange(Drywall, ex, AutoToggle(false), m);
      var again := RenderField(Drywall, off, m);
      ExtraCost(Drywall, off, m) == 500.0 && ZeroQtyFlags(Drywall, [off], m) == [false]
      && ExtraCost(Drywall, again, m) == 0.0 && ZeroQtyFlags(Drywall, [again], m) == [true]
  {
    var ex := SyncField(Drywall, CreateExtra("0", "Φατούρα", "m2", 0.0, 10.0, true, ""), m);
    assert SupportsAutoUnit(Drywall, "m2");
    assert ex.shownQty == 50.0 && ex.price == 10.0 && ex.qty == 0.0;
    var off := ApplyChange(Drywall, ex, AutoToggle(false), m);
    assert ResolvedQty(Drywall, off, m) == 50.0;
    assert ZeroQtyFlags(Drywall, [off], m)[0] == false;
    assert !EffectiveAuto(Drywall, off) && off.qty == 0.0;
    var again := RenderField(Drywall, off, m);
    assert ResolvedQty(Drywall, again, m) == 0.0;
    assert [again][0] == again;
    assert ZeroQtyFlags(Drywall, [again], m)[0];
  }

  /** Everything `recalc` shows, as numbers. */
  datatype Breakdown = Breakdown(areas: real, linear: real, volumes: real, pieces: real,
                                 workers: real, extras: real, totals: Totals,
                                 perM2: PerUnit, perLm: PerUnit, perM3: PerUnit,
                                 zeroQty: seq<bool>)

  /** A group's cost on the page: 0 for groups the page does not list. */
  function PageGroupCost(p: Page, g: Group, cs: seq<Card>, m: Measurements): Option<real> {
    if HasGroup(p, g) then GroupCost(p, g, cs, m) else Some(0.0)
  }

  /** The per-measurement prices shown: per m2 (plain division on the thermal-facade page), per running metre, per m3. */
  function PerUnits(p: Page, sell: real, m: Measurements): (PerUnit, PerUnit, PerUnit) {
    var perM2 := if p == ThermalFacade then PerUnitPlain(sell, m.m2) else PerUnitGuarded(sell, m.m2);
    var perLm := if p == Drywall || p == ThermalFacade then PerUnitGuarded(sell, m.lm) else NotShown;
    var perM3 := if p == Tiling then PerUnitGuarded(sell, m.m3) else NotShown;
    (perM2, perLm, perM3)
  }

  /**
   * Which per-measurement prices a page shows, and when each is a dash: the
   * per-m2 price on every page, per running metre on drywall and thermal
   * facade, per m3 on tiling; a dash exactly when the measurement is not positive.
   */
  lemma PerUnitsShown(p: Page, sell: real, m: Measurements)
    ensures var (perM2, perLm, perM3) := PerUnits(p, sell, m);
      (perM2.Dash? <==> m.m2 <= 0.0) && !perM2.NotShown?
      && (perLm.NotShown? <==> p != Drywall && p != ThermalFacade)
      && (!perLm.NotShown? ==> (perLm.Dash? <==> m.lm <= 0.0))
      && (perM3.NotShown? <==> p != Tiling)
      && (!perM3.NotShown? ==> (perM3.Dash? <==> m.m3 <= 0.0))
  {
    match p
    case Drywall =>
    case Tiling =>
    case ThermalFacade =>
    case Painting =>
  }

  /** The figures `recalc` shows once the group costs are known: the totals and the per-measurement prices. */
  function Summarize(p: Page, areas: real, linear: real, volumes: real, pieces: real, workers: real,
                     extras: real, markup: int, m: Measurements, zeroQty: seq<bool>): Breakdown
  {
    var t := PriceTotals(areas + linear + volumes + pieces + workers + extras, markup);
    var (perM2, perLm, perM3) := PerUnits(p, t.sell, m);
    Breakdown(areas, linear, volumes, pieces, workers, extras, t, perM2, perLm, perM3, zeroQty)
  }

  /** `recalc`: the page's quote, or `None` when a card's quantity is not a finite number. */
  function ComputeQuote(p: Page, cards: Cards, m: Measurements, n: PieceCounts, markup: int,
                        xs: seq<Extra>): Option<Breakdown>
  {
    var a := PageGroupCost(p, Areas, cards.areas, m);
    var l := PageGroupCost(p, Linear, cards.linear, m);
    var v := PageGroupCost(p, Volumes, cards.volumes, m);
    var w := PageGroupCost(p, Workers, cards.workers, m);
    if a.None? || l.None? || v.None? || w.None? then None
    else
      var pc := if p == Drywall then PiecesCost(cards.pieces, n) else 0.0;
      Some(Summarize(p, a.value, l.value, v.value, pc, w.value, ExtrasCost(p, xs, m), markup, m,
                     ZeroQtyFlags(p, xs, m)))
  }

  /** The fields `recalc` writes do not change what it shows. */
  lemma QuoteIgnoresSync(p: Page, cards: Cards, m: Measurements, n: PieceCounts, markup: int, xs: seq<Extra>)
    ensures ComputeQuote(p, cards, m, n, markup, SyncFields(p, xs, m)) == ComputeQuote(p, cards, m, n, markup, xs)
  {
    ExtrasCostPointwise(p, SyncFields(p, xs, m), xs, m);
  }

  /** A card whose quantity goes through a rate per 0 base units. */
  predicate HasRateBaseZero(p: Page, cards: Cards) {
    (UsesRate(p, Areas) && exists c :: c in cards.areas && RateBaseZero(p, c))
    || (UsesRate(p, Linear) && exists c :: c in cards.linear && RateBaseZero(p, c))
    || (UsesRate(p, Volumes) && exists c :: c in cards.volumes && RateBaseZero(p, c))
  }

  /**
   * The quote is a finite number exactly when no card of the drywall running
   * metres or the tiling areas and volumes has a consumption rate per 0 base
   * units; the thermal-facade and painting quotes always are.
   */
  lemma QuoteDefined(p: Page, cards: Cards, m: Measurements, n: PieceCounts, markup: int, xs: seq<Extra>)
    ensures ComputeQuote(p, cards, m, n, markup, xs).None? <==> HasRateBaseZero(p, cards)
    ensures p == ThermalFacade || p == Painting ==> ComputeQuote(p, cards, m, n, markup, xs).Some?
  {
    var a := PageGroupCost(p, Areas, cards.areas, m);
    var l := PageGroupCost(p, Linear, cards.linear, m);
    var v := PageGroupCost(p, Volumes, cards.volumes, m);
    var w := PageGroupCost(p, Workers, cards.workers, m);
    assert ComputeQuote(p, cards, m, n, markup, xs).None? <==> a.None? || l.None? || v.None? || w.None?;
    PageGroupCostDefined(p, Areas, cards.areas, m);
    PageGroupCostDefined(p, Linear, cards.linear, m);
    PageGroupCostDefined(p, Volumes, cards.volumes, m);
    PageGroupCostDefined(p, Workers, cards.workers, m);
  }

  /** A page's group sum is finite exactly when none of its rated cards has a rate per 0 base units. */
  lemma PageGroupCostDefined(p: Page, g: Group, cs: seq<Card>, m: Measurements)
    ensures PageGroupCost(p, g, cs, m).None? <==> UsesRate(p, g) && exists c :: c in cs && RateBaseZero(p, c)
  {
    if HasGroup(p, g) {
      GroupCostDefined(p, g, cs, m);
    }
  }

  /**
   * The cost is the sum of the page's own groups and the extras, the sell price
   * is the cost at the markup and the margin is the gross profit's share of it.
   */
  lemma QuoteDecomposes(p: Page, cards: Cards, m: Measurements, n: PieceCounts, markup: int, xs: seq<Extra>)
    requires ComputeQuote(p, cards, m, n, markup, xs).Some?
    ensures var b := ComputeQuote(p, cards, m, n, markup, xs).value;
      b.totals == PriceTotals(b.areas + b.linear + b.volumes + b.pieces + b.workers + b.extras, markup)
      && b.extras == ExtrasCost(p, xs, m)
      && (p != Drywall ==> b.pieces == 0.0)
      && (p == Painting ==> b.areas == 0.0)
      && (p != Drywall && p != ThermalFacade ==> b.linear == 0.0)
      && (p != Tiling ==> b.volumes == 0.0)
      && (b.totals.cost > 0.0 && markup > -100 ==>
            b.totals.margin == 100.0 * markup as real / (100.0 + markup as real))
  {
    var a := PageGroupCost(p, Areas, cards.areas, m);
    var l := PageGroupCost(p, Linear, cards.linear, m);
    var v := PageGroupCost(p, Volumes, cards.volumes, m);
    var w := PageGroupCost(p, Workers, cards.workers, m);
    var pc := if p == Drywall then PiecesCost(cards.pieces, n) else 0.0;
    var e := ExtrasCost(p, xs, m);
    var cost := a.value + l.value + v.value + pc + w.value + e;
    var b := ComputeQuote(p, cards, m, n, markup, xs).value;
    assert b == Summarize(p, a.value, l.value, v.value, pc, w.value, e, markup, m, ZeroQtyFlags(p, xs, m));
    assert b.areas == a.value && b.linear == l.value && b.volumes == v.value;
    assert b.pieces == pc && b.workers == w.value && b.extras == e;
    assert b.totals == PriceTotals(cost, markup);
    if cost > 0.0 && markup > -100 {
      MarginFromMarkup(cost, markup);
    }
  }

  /** The painting quote reads only the workers and the extras. */
  lemma PaintingReadsWorkersAndExtras(c1: Cards, c2: Cards, m: Measurements, n1: PieceCounts,
                                      n2: PieceCounts, markup: int, xs: seq<Extra>)
    requires c1.workers == c2.workers
    ensures ComputeQuote(Painting, c1, m, n1, markup, xs) == ComputeQuote(Painting, c2, m, n2, markup, xs)
  {
  }

  /** Without price cards and extras the quote is all zero, whatever is measured. */
  lemma EmptyQuote(p: Page, cards: Cards, m: Measurements, n: PieceCounts, markup: int)
    requires cards.areas == [] && cards.linear == [] && cards.volumes == []
    requires cards.pieces == [] && cards.workers == []
    ensures var b := ComputeQuote(p, cards, m, n, markup, []);
      b.Some? && b.value.totals == Totals(0.0, 0.0, 0.0, 0.0)
      && (b.value.perM2.Dash? <==> m.m2 <= 0.0)
      && (b.value.perM2.Amount? ==> b.value.perM2.value == 0.0)
  {
    NothingPriced(p, m, n);
    var b := ComputeQuote(p, cards, m, n, markup, []);
    assert b.Some?;
    assert b.value.totals == PriceTotals(0.0, markup);
    ZeroCostZeroMargin(markup);
    PerUnitsShown(p, 0.0, m);
  }

  lemma NothingPriced(p: Page, m: Measurements, n: PieceCounts)
    ensures forall g :: PageGroupCost(p, g, [], m).Some? && PageGroupCost(p, g, [], m).value == 0.0
    ensures PiecesCost([], n) == 0.0 && ExtrasCost(p, [], m) == 0.0
  {
  }

  /**
   * The thermal-facade page prices areas and running metres without rates:
   * each group costs its prices' sum times the measurement.
   */
  lemma ThermalGroupsArePlain(cards: Cards, m: Measurements)
    ensures PageGroupCost(ThermalFacade, Areas, cards.areas, m).Some?
    ensures PageGroupCost(ThermalFacade, Linear, cards.linear, m).Some?
    ensures PageGroupCost(ThermalFacade, Areas, cards.areas, m).value == PriceSum(cards.areas) * m.m2
    ensures PageGroupCost(ThermalFacade, Linear, cards.linear, m).value == PriceSum(cards.linear) * m.lm
  {
    GroupCostPlain(ThermalFacade, Areas, cards.areas, m);
    GroupCostPlain(ThermalFacade, Linear, cards.linear, m);
  }

  /** A higher markup never lowers the sell price of a non-negative cost. */
  lemma QuoteSellMonotone(p: Page, cards: Cards, m: Measurements, n: PieceCounts, m1: int, m2: int,
                          xs: seq<Extra>)
    requires m1 <= m2 && ComputeQuote(p, cards, m, n, m1, xs).Some?
    requires ComputeQuote(p, cards, m, n, m1, xs).value.totals.cost >= 0.0
    ensures ComputeQuote(p, cards, m, n, m2, xs).Some?
    ensures ComputeQuote(p, cards, m, n, m1, xs).value.totals.sell
         <= ComputeQuote(p, cards, m, n, m2, xs).value.totals.sell
  {
    QuoteCostIndependent(p, cards, m, n, m1, m2, xs);
    QuoteDecomposes(p, cards, m, n, m1, xs);
    QuoteDecomposes(p, cards, m, n, m2, xs);
    SellMonotone(ComputeQuote(p, cards, m, n, m1, xs).value.totals.cost, m1, m2);
  }

  /** The markup changes the price, never whether there is a quote or what it costs. */
  lemma QuoteCostIndependent(p: Page, cards: Cards, m: Measurements, n: PieceCounts, m1: int, m2: int,
                             xs: seq<Extra>)
    requires ComputeQuote(p, cards, m, n, m1, xs).Some?
    ensures ComputeQuote(p, cards, m, n, m2, xs).Some?
    ensures ComputeQuote(p, cards, m, n, m2, xs).value.totals.cost
         == ComputeQuote(p, cards, m, n, m1, xs).value.totals.cost
  {
  }
}
