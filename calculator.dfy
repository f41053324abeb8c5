/**
 * One calculator page as the object its script keeps: the catalog snapshot,
 * the price cards, the measurements, the markup and the extras, changed in
 * place by the page's event handlers, each of which ends by showing the quote
 * `recalc` computes. The loops of `recalc`, `unitAutoQtyValue` and `savePrice`
 * are methods proved against the functions of `Quote`, `Extras`, `Measures`
 * and `Catalog`.
 */
module Calculator {
  import opened Wrappers
  import opened Pages
  import opened Measures
  import opened Catalog
  import opened Pricing
  import opened Consumption
  import opened Extras
  import opened Quote

  /** The lists of price cards, by their element ids (`#areas-list`, …). */
  datatype CardList = AreasList | LinearList | VolumesList | PiecesList | WorkersList

  function ListOf(cards: Cards, l: CardList): seq<Card> {
    match l
    case AreasList => cards.areas
    case LinearList => cards.linear
    case VolumesList => cards.volumes
    case PiecesList => cards.pieces
    case WorkersList => cards.workers
  }

  function WithList(cards: Cards, l: CardList, cs: seq<Card>): (r: Cards)
    ensures ListOf(r, l) == cs
    ensures forall k :: k != l ==> ListOf(r, k) == ListOf(cards, k)
  {
    match l
    case AreasList => cards.(areas := cs)
    case LinearList => cards.(linear := cs)
    case VolumesList => cards.(volumes := cs)
    case PiecesList => cards.(pieces := cs)
    case WorkersList => cards.(workers := cs)
  }

  /** The cards after typing a price into one of them: only its price and its update button change. */
  function EditCardPrice(p: Page, cards: Cards, l: CardList, i: nat, price: real): (r: Cards)
    requires i < |ListOf(cards, l)|
    ensures var c := ListOf(cards, l)[i];
      ListOf(r, l) == ListOf(cards, l)[i := c.(price := price, updateShown := UpdateButtonShown(p, price, c.original))]
    ensures forall k :: k != l ==> ListOf(r, k) == ListOf(cards, k)
  {
    var c := ListOf(cards, l)[i];
    WithList(cards, l, ListOf(cards, l)[i := c.(price := price, updateShown := UpdateButtonShown(p, price, c.original))])
  }

  /**
   * The card of the first catalog item with the key, as `renderPiecesList`
   * builds it: the saved price typed in, the update button hidden; none when
   * the catalog has no such item. Stud and upright cards carry no consumption.
   */
  function ItemCard(items: seq<CatalogItem>, key: string, withRate: bool): (cs: seq<Card>)
    ensures |cs| <= 1 && (cs == [] <==> FindKey(items, key).None?)
    ensures cs != [] ==> var it := items[FindKey(items, key).value];
      cs[0] == Card(key, it.unit, if withRate then it.consumption else "", it.latestPrice, it.latestPrice, false)
  {
    match FindKey(items, key)
    case None => []
    case Some(i) =>
      [Card(key, items[i].unit, if withRate then items[i].consumption else "", items[i].latestPrice,
            items[i].latestPrice, false)]
  }

  /** `renderPiecesList`: the three sheet kinds, then the stud and the upright of the chosen length. */
  function PieceCards(items: seq<CatalogItem>, len: string): seq<Card> {
    ItemCard(items, "sheet_gyps", true) + ItemCard(items, "sheet_ino", true)
    + ItemCard(items, "sheet_anthygri", true)
    + ItemCard(items, "strotiras_" + len, false) + ItemCard(items, "orthostatis_" + len, false)
  }

  /** Every rebuilt piece card shows the snapshot's saved price for its key, its button hidden. */
  lemma PieceCardsSaved(items: seq<CatalogItem>, len: string)
    ensures var cs := PieceCards(items, len);
      |cs| <= 5
      && forall c :: c in cs ==>
           !c.updateShown && c.price == c.original
           && exists j :: 0 <= j < |items| && items[j].key == c.key && items[j].latestPrice == c.price
  {
    var keys := ["sheet_gyps", "sheet_ino", "sheet_anthygri", "strotiras_" + len, "orthostatis_" + len];
    var parts := [ItemCard(items, keys[0], true), ItemCard(items, keys[1], true), ItemCard(items, keys[2], true),
                  ItemCard(items, keys[3], false), ItemCard(items, keys[4], false)];
    assert PieceCards(items, len) == parts[0] + parts[1] + parts[2] + parts[3] + parts[4];
    forall c | c in PieceCards(items, len)
      ensures !c.updateShown && c.price == c.original
      ensures exists j :: 0 <= j < |items| && items[j].key == c.key && items[j].latestPrice == c.price
    {
      var k :| 0 <= k < 5 && c in parts[k];
      var j := FindKey(items, keys[k]).value;
      assert items[j].key == c.key;
    }
  }

  /**
   * After a length change the pieces are charged at the snapshot's saved
   * prices for that length: a price typed into a piece card and not saved is
   * gone from the quote.
   */
  lemma PieceCardsCost(items: seq<CatalogItem>, len: string, n: PieceCounts)
    requires AllPieceItems(items, len)
    ensures PiecesCost(PieceCards(items, len), n)
         == SavedPrice(items, "sheet_gyps") * Ceil(n.sheetsGyps) as real
          + SavedPrice(items, "sheet_ino") * Ceil(n.sheetsIno) as real
          + SavedPrice(items, "sheet_anthygri") * Ceil(n.sheetsAnth) as real
          + SavedPrice(items, "strotiras_" + len) * Ceil(n.strotiras) as real
          + SavedPrice(items, "orthostatis_" + len) * Ceil(n.orthostatis) as real
  {
    var cs := PieceCards(items, len);
    PieceCardsShape(items, len);
    FindCardAt(cs, "sheet_gyps", 0);
    FindCardAt(cs, "sheet_ino", 1);
    FindCardAt(cs, "sheet_anthygri", 2);
    FramesAfterSheets(cs, len);
  }

  /** The catalog lists every sheet kind and the stud and upright of the length. */
  predicate AllPieceItems(items: seq<CatalogItem>, len: string) {
    FindKey(items, "sheet_gyps").Some? && FindKey(items, "sheet_ino").Some?
    && FindKey(items, "sheet_anthygri").Some?
    && FindKey(items, "strotiras_" + len).Some? && FindKey(items, "orthostatis_" + len).Some?
  }

  /** With all five items in the catalog, the five cards come in their fixed order. */
  lemma PieceCardsShape(items: seq<CatalogItem>, len: string)
    requires AllPieceItems(items, len)
    ensures var cs := PieceCards(items, len);
      |cs| == 5 && cs[0].key == "sheet_gyps" && cs[1].key == "sheet_ino" && cs[2].key == "sheet_anthygri"
      && cs[3].key == "strotiras_" + len && cs[4].key == "orthostatis_" + len
      && cs[0].price == SavedPrice(items, "sheet_gyps") && cs[1].price == SavedPrice(items, "sheet_ino")
      && cs[2].price == SavedPrice(items, "sheet_anthygri")
      && cs[3].price == SavedPrice(items, "strotiras_" + len) && cs[4].price == SavedPrice(items, "orthostatis_" + len)
  {
    var a, b, c := ItemCard(items, "sheet_gyps", true), ItemCard(items, "sheet_ino", true),
                   ItemCard(items, "sheet_anthygri", true);
    var d, e := ItemCard(items, "strotiras_" + len, false), ItemCard(items, "orthostatis_" + len, false);
    assert |a| == |b| == |c| == |d| == |e| == 1;
    var cs := a + b + c + d + e;
    assert cs[0] == a[0] && cs[1] == b[0] && cs[2] == c[0] && cs[3] == d[0] && cs[4] == e[0];
  }

  lemma FindCardAt(cs: seq<Card>, key: string, j: nat)
    requires j < |cs| && cs[j].key == key && forall k :: 0 <= k < j ==> cs[k].key != key
    ensures FindCard(cs, key) == Some(j)
  {
  }

  /** The stud and upright cards follow the sheets, whose keys start with neither prefix. */
  lemma FramesAfterSheets(cs: seq<Card>, len: string)
    requires |cs| == 5 && cs[0].key == "sheet_gyps" && cs[1].key == "sheet_ino" && cs[2].key == "sheet_anthygri"
    requires cs[3].key == "strotiras_" + len && cs[4].key == "orthostatis_" + len
    ensures FindCardWithPrefix(cs, "strotiras_") == Some(3)
    ensures FindCardWithPrefix(cs, "orthostatis_") == Some(4)
  {
    assert "sheet_gyps"[1] != "strotiras_"[1] && "sheet_ino"[1] != "strotiras_"[1];
    assert "sheet_anthygri"[1] != "strotiras_"[1];
    assert "sheet_gyps"[0] != "orthostatis_"[0] && "sheet_ino"[0] != "orthostatis_"[0];
    assert "sheet_anthygri"[0] != "orthostatis_"[0] && cs[3].key[0] != "orthostatis_"[0];
    assert "strotiras_" <= cs[3].key && "orthostatis_" <= cs[4].key;
  }

  /** The saved price of the first catalog item with the key, 0 without one. */
  function SavedPrice(items: seq<CatalogItem>, key: string): real {
    match FindKey(items, key)
    case None => 0.0
    case Some(i) => items[i].latestPrice
  }

  /** A field of the measurement form, with the number typed into it. */
  datatype FormInput =
    | M2Input(v: real) | LmInput(v: real) | M3Input(v: real)
    | SheetsGypsInput(v: real) | SheetsInoInput(v: real) | SheetsAnthInput(v: real)
    | StrotirasInput(v: real) | OrthostatisInput(v: real)
    | TechnitisDaysInput(v: real) | VoithosDaysInput(v: real)

  /** The fields each page's form has. */
  predicate HasInput(p: Page, e: FormInput) {
    match e
    case M2Input(_) => true
    case LmInput(_) => p == Drywall || p == ThermalFacade
    case M3Input(_) => p == Tiling
    case TechnitisDaysInput(_) => true
    case VoithosDaysInput(_) => true
    case _ => p == Drywall
  }

  /** The worker key a day field books. */
  function DaysKey(e: FormInput): string
    requires e.TechnitisDaysInput? || e.VoithosDaysInput?
  {
    if e.TechnitisDaysInput? then "technitis" else "voithos"
  }

  /** The new measurements after typing into a field: only that field's value changes. */
  function ApplyForm(m: Measurements, n: PieceCounts, e: FormInput): (r: (Measurements, PieceCounts)) {
    match e
    case M2Input(v) => (m.(m2 := v), n)
    case LmInput(v) => (m.(lm := v), n)
    case M3Input(v) => (m.(m3 := v), n)
    case SheetsGypsInput(v) => (m, n.(sheetsGyps := v))
    case SheetsInoInput(v) => (m, n.(sheetsIno := v))
    case SheetsAnthInput(v) => (m, n.(sheetsAnth := v))
    case StrotirasInput(v) => (m, n.(strotiras := v))
    case OrthostatisInput(v) => (m, n.(orthostatis := v))
    case TechnitisDaysInput(v) => (m.(days := SetDays(m.days, "technitis", v)), n)
    case VoithosDaysInput(v) => (m.(days := SetDays(m.days, "voithos", v)), n)
  }

  /** Which field of the form an input is typed into. */
  function FieldIndex(e: FormInput): nat {
    match e
    case M2Input(_) => 0
    case LmInput(_) => 1
    case M3Input(_) => 2
    case SheetsGypsInput(_) => 3
    case SheetsInoInput(_) => 4
    case SheetsAnthInput(_) => 5
    case StrotirasInput(_) => 6
    case OrthostatisInput(_) => 7
    case TechnitisDaysInput(_) => 8
    case VoithosDaysInput(_) => 9
  }

  /** The value the model holds for the field an input is typed into. */
  function FieldValue(m: Measurements, n: PieceCounts, e: FormInput): real {
    match e
    case M2Input(_) => m.m2
    case LmInput(_) => m.lm
    case M3Input(_) => m.m3
    case SheetsGypsInput(_) => n.sheetsGyps
    case SheetsInoInput(_) => n.sheetsIno
    case SheetsAnthInput(_) => n.sheetsAnth
    case StrotirasInput(_) => n.strotiras
    case OrthostatisInput(_) => n.orthostatis
    case TechnitisDaysInput(_) => Days(m.days, "technitis")
    case VoithosDaysInput(_) => Days(m.days, "voithos")
  }

  /** Typing into a field: that field now reads the number typed, and every other field reads as before. */
  lemma FormGetSet(m: Measurements, n: PieceCounts, e: FormInput, f: FormInput)
    ensures var (m', n') := ApplyForm(m, n, e);
      FieldValue(m', n', f) == if FieldIndex(f) == FieldIndex(e) then e.v else FieldValue(m, n, f)
  {
    if (e.TechnitisDaysInput? || e.VoithosDaysInput?) && (f.TechnitisDaysInput? || f.VoithosDaysInput?) {
      assert "technitis" != "voithos";
      SetDaysReads(m.days, DaysKey(e), e.v, DaysKey(f));
    }
  }

  /** No field of the form adds or drops a worker. */
  lemma FormKeepsKeys(m: Measurements, n: PieceCounts, e: FormInput)
    requires OnlyFormKeys(m.days)
    ensures OnlyFormKeys(ApplyForm(m, n, e).0.days)
  {
    if e.TechnitisDaysInput? || e.VoithosDaysInput? {
      DayInputEffect(m, n, e);
    }
  }

  /** A day field changes that worker's days and the day total by the difference, and nothing else. */
  lemma DayInputEffect(m: Measurements, n: PieceCounts, e: FormInput)
    requires e.TechnitisDaysInput? || e.VoithosDaysInput?
    requires OnlyFormKeys(m.days)
    ensures var (m', n') := ApplyForm(m, n, e);
      n' == n && m'.m2 == m.m2 && m'.lm == m.lm && m'.m3 == m.m3
      && OnlyFormKeys(m'.days)
      && Days(m'.days, DaysKey(e)) == e.v
      && TotalDays(m'.days) == TotalDays(m.days) - Days(m.days, DaysKey(e)) + e.v
  {
    var key := DaysKey(e);
    SetFormDays(m.days, key, e.v);
    SetDaysReads(m.days, key, e.v, key);
    assert DistinctKeys(m.days) by {
      assert "technitis" != "voithos";
    }
    SetDaysTotal(m.days, key, e.v);
  }

  /** The saved price of a catalog-backed extra as its price field carries it; a missing one reads 0. */
  function OriginalOf(originals: map<string, real>, id: string): real {
    if id in originals then originals[id] else 0.0
  }

  /** Every catalog-backed extra has a saved price. */
  predicate OriginalsCover(xs: seq<Extra>, originals: map<string, real>) {
    forall i :: 0 <= i < |xs| && xs[i].key.Some? ==> xs[i].id in originals
  }

  /** The saved prices `renderExtras` writes: one per catalog-backed extra, its current price. */
  function RenderedOriginals(xs: seq<Extra>): (o: map<string, real>)
    ensures forall id :: id in o <==> exists i :: 0 <= i < |xs| && xs[i].id == id && xs[i].key.Some?
  {
    if xs == [] then map[]
    else
      var init, last := xs[..|xs| - 1], xs[|xs| - 1];
      var o := RenderedOriginals(init);
      assert forall i :: 0 <= i < |init| ==> init[i] == xs[i];
      if last.key.Some? then o[last.id := last.price] else o
  }

  /** With distinct ids, every catalog-backed extra is rendered with its own price as the saved one. */
  lemma {:induction false} RenderedOriginalsPrice(xs: seq<Extra>, i: nat)
    requires IdsDistinct(xs) && i < |xs| && xs[i].key.Some?
    ensures RenderedOriginals(xs)[xs[i].id] == xs[i].price
  {
    var init := xs[..|xs| - 1];
    if i < |xs| - 1 {
      assert IdsDistinct(init) by {
        forall a, b | 0 <= a < b < |init| ensures init[a].id != init[b].id {
          assert init[a] == xs[a] && init[b] == xs[b];
        }
      }
      assert init[i] == xs[i];
      RenderedOriginalsPrice(init, i);
    }
  }

  /** The update buttons after a price is typed: shown for this extra exactly when the price moved. */
  function ButtonsAfter(buttons: set<string>, id: string, show: bool): (r: set<string>)
    ensures id in r <==> show
    ensures forall other :: other != id ==> (other in r <==> other in buttons)
  {
    if show then buttons + {id} else buttons - {id}
  }

  /** The loop of `unitAutoQtyValue` for `day`: the sum over every booked worker. */
  method SumDays(wd: WorkerDays) returns (total: real)
    ensures total == TotalDays(wd)
  {
    total := 0.0;
    var i := 0;
    while i < |wd|
      invariant 0 <= i <= |wd|
      invariant total == TotalDays(wd[..i])
    {
      assert wd[..i + 1][..i] == wd[..i];
      total := total + wd[i].1;
      i := i + 1;
    }
    assert wd[..|wd|] == wd;
  }

  /** `unitAutoQtyValue`, whose `day` case is the loop of `SumDays`. */
  method AutoQty(p: Page, unit: string, m: Measurements) returns (q: real)
    ensures q == UnitAutoQtyValue(p, unit, m)
  {
    if unit == "m2" {
      q := m.m2;
    } else if unit == "lm" && (p == Drywall || p == ThermalFacade) {
      q := m.lm;
    } else if unit == "m3" && p == Tiling {
      q := m.m3;
    } else if unit == "day" {
      if p == Painting {
        q := Days(m.days, "technitis") + Days(m.days, "voithos");
      } else {
        q := SumDays(m.days);
      }
    } else {
      q := 0.0;
    }
  }

  /** The loop over one list of price cards in `recalc`. */
  method SumGroup(p: Page, g: Group, cs: seq<Card>, m: Measurements) returns (s: Option<real>)
    ensures s == GroupCost(p, g, cs, m)
  {
    s := Some(0.0);
    var i := 0;
    while i < |cs|
      invariant 0 <= i <= |cs|
      invariant s.Some? == GroupCost(p, g, cs[..i], m).Some?
      invariant s.Some? ==> s.value == GroupCost(p, g, cs[..i], m).value
    {
      var c := CardCost(p, g, cs[i], m);
      GroupCostStep(p, g, cs, i, m, s);
      if s.Some? && c.Some? {
        s := Some(s.value + c.value);
      } else {
        s := None;
      }
      i := i + 1;
    }
    assert cs[..|cs|] == cs;
    GroupCostCases(p, g, cs, m, s);
  }

  /**
   * The loop over the extras in `recalc`: the sum, the zero-quantity flags,
   * and the automatic value written into each automatic extra's field.
   */
  method SumExtras(p: Page, xs: seq<Extra>, m: Measurements) returns (s: real, flags: seq<bool>, synced: seq<Extra>)
    ensures s == ExtrasCost(p, xs, m)
    ensures flags == ZeroQtyFlags(p, xs, m)
    ensures synced == SyncFields(p, xs, m)
  {
    s, flags, synced := 0.0, [], [];
    var i := 0;
    while i < |xs|
      invariant 0 <= i <= |xs|
      invariant s == ExtrasCost(p, xs[..i], m)
      invariant flags == ZeroQtyFlags(p, xs[..i], m)
      invariant synced == SyncFields(p, xs[..i], m)
    {
      var ex := xs[i];
      var qty: real;
      var written: Extra;
      if EffectiveAuto(p, ex) {
        qty := AutoQty(p, ex.unit, m);
        written := ex.(shownQty := qty);
      } else {
        qty := ex.shownQty;
        written := ex;
      }
      ExtrasLoopStep(p, xs, i, m, s, flags, synced, qty, written);
      s, flags, synced := s + ex.price * qty, flags + [FlagsZeroQty(p) && qty <= 0.0], synced + [written];
      i := i + 1;
    }
    assert xs[..|xs|] == xs;
  }

  /** One more extra of the loop in `recalc`: its cost, its flag and its field. */
  lemma ExtrasLoopStep(p: Page, xs: seq<Extra>, i: nat, m: Measurements, s: real, flags: seq<bool>,
                       synced: seq<Extra>, qty: real, written: Extra)
    requires i < |xs|
    requires s == ExtrasCost(p, xs[..i], m) && flags == ZeroQtyFlags(p, xs[..i], m)
    requires synced == SyncFields(p, xs[..i], m)
    requires qty == ResolvedQty(p, xs[i], m) && written == SyncField(p, xs[i], m)
    ensures s + xs[i].price * qty == ExtrasCost(p, xs[..i + 1], m)
    ensures flags + [FlagsZeroQty(p) && qty <= 0.0] == ZeroQtyFlags(p, xs[..i + 1], m)
    ensures synced + [written] == SyncFields(p, xs[..i + 1], m)
  {
    ExtrasStep(p, xs, i, m);
    SyncFieldsStep(p, xs, i, m);
  }

  /** `recalc`: the quote of the page's current inputs, and the extras with their fields rewritten. */
  method Recalc(p: Page, cards: Cards, m: Measurements, n: PieceCounts, markup: int, xs: seq<Extra>)
    returns (q: Option<Breakdown>, synced: seq<Extra>)
    ensures q == ComputeQuote(p, cards, m, n, markup, xs)
    ensures synced == SyncFields(p, xs, m)
  {
    var a, l, v, w := Some(0.0), Some(0.0), Some(0.0), Some(0.0);
    if HasGroup(p, Areas) {
      a := SumGroup(p, Areas, cards.areas, m);
    }
    if HasGroup(p, Linear) {
      l := SumGroup(p, Linear, cards.linear, m);
    }
    if HasGroup(p, Volumes) {
      v := SumGroup(p, Volumes, cards.volumes, m);
    }
    w := SumGroup(p, Workers, cards.workers, m);
    assert a == PageGroupCost(p, Areas, cards.areas, m) && l == PageGroupCost(p, Linear, cards.linear, m);
    assert v == PageGroupCost(p, Volumes, cards.volumes, m) && w == PageGroupCost(p, Workers, cards.workers, m);
    var pc := if p == Drywall then PiecesCost(cards.pieces, n) else 0.0;
    var e, flags;
    e, flags, synced := SumExtras(p, xs, m);
    if a.None? || l.None? || v.None? || w.None? {
      q := None;
    } else {
      q := Some(Summarize(p, a.value, l.value, v.value, pc, w.value, e, markup, m, flags));
    }
  }

  /**
   * The invariant of a page: ids are fresh and distinct, every catalog-backed
   * extra has a saved price, only the two day fields book days, every
   * automatic extra's field shows its automatic value, and the page shows the
   * quote of its current inputs.
   */
  ghost predicate Consistent(p: Page, cards: Cards, m: Measurements, n: PieceCounts, markup: int,
                             xs: seq<Extra>, next: nat, originals: map<string, real>, shown: Option<Breakdown>)
  {
    IdsValid(xs, next) && OriginalsCover(xs, originals) && OnlyFormKeys(m.days) && AllSynced(p, xs, m)
    && shown == ComputeQuote(p, cards, m, n, markup, xs)
  }

  /** `recalc` restores the invariant: the quote shown and the fields it writes follow the inputs. */
  lemma RecalcKeeps(p: Page, cards: Cards, m: Measurements, n: PieceCounts, markup: int, xs: seq<Extra>,
                    next: nat, originals: map<string, real>, q: Option<Breakdown>, synced: seq<Extra>)
    requires IdsValid(xs, next) && OriginalsCover(xs, originals) && OnlyFormKeys(m.days)
    requires q == ComputeQuote(p, cards, m, n, markup, xs) && synced == SyncFields(p, xs, m)
    ensures Consistent(p, cards, m, n, markup, synced, next, originals, q)
  {
    RewriteKeepsIds(xs, synced, next);
    QuoteIgnoresSync(p, cards, m, n, markup, xs);
  }

  /** `state.catalog.extras`, absent when the server sent no such group. */
  function ServedExtras(cat: Snapshot): (r: Option<seq<CatalogItem>>)
    ensures r.Some? <==> "extras" in cat
    ensures r.Some? ==> r.value == cat["extras"]
  {
    if "extras" in cat then Some(cat["extras"]) else None
  }

  /** The end of `init`: the first extras rendered, then the first `recalc`. */
  method FirstRender(p: Page, catalogExtras: Option<seq<CatalogItem>>, cards: Cards, m: Measurements,
                     n: PieceCounts, markup: int)
    returns (xs: seq<Extra>, q: Option<Breakdown>)
    requires OnlyFormKeys(m.days)
    ensures xs == RenderFields(p, InitialExtras(p, catalogExtras, 0), m)
    ensures Consistent(p, cards, m, n, markup, xs, |xs|, RenderedOriginals(xs), q)
  {
    var init := InitialExtras(p, catalogExtras, 0);
    InitialExtrasIds(p, catalogExtras, 0);
    xs := RenderFields(p, init, m);
    RewriteKeepsIds(init, xs, |init|);
    SyncFieldsFixed(p, xs, m);
    var synced;
    q, synced := Recalc(p, cards, m, n, markup, xs);
    RecalcKeeps(p, cards, m, n, markup, xs, |xs|, RenderedOriginals(xs), q, synced);
  }

  /** The state of one calculator page and its event handlers. */
  class Calculator {
    const page: Page
    /** `state.catalog`: the groups the server sent. */
    var catalog: Snapshot
    var cards: Cards
    var meas: Measurements
    var counts: PieceCounts
    var markup: int
    var extras: seq<Extra>
    /** The number the next extra's id is made from. */
    var nextId: nat
    /** The saved prices of the catalog-backed extras, by id. */
    var extraOriginals: map<string, real>
    /** The ids of the extras whose update button shows. */
    var extraButtons: set<string>
    /** What the page last showed: the quote of `recalc`. */
    var shown: Option<Breakdown>
    /** `state.lengthOpt`: the stud and upright length of the drywall page. */
    var lengthOpt: string
    /** How many pairs of card listeners the pieces list carries. */
    var pieceBindings: nat

    /** Every field but the extras and the quote shown: what `recalc` leaves alone. */
    function Settled(): (Snapshot, Cards, Measurements, PieceCounts, int, nat, map<string, real>, set<string>,
                         string, nat)
      reads this
    {
      (catalog, cards, meas, counts, markup, nextId, extraOriginals, extraButtons, lengthOpt, pieceBindings)
    }

    /** Every field but the snapshot: what a confirmed save leaves alone until it re-renders. */
    function Local(): (Cards, Measurements, PieceCounts, int, seq<Extra>, nat, map<string, real>, set<string>,
                       Option<Breakdown>, string, nat)
      reads this
    {
      (cards, meas, counts, markup, extras, nextId, extraOriginals, extraButtons, shown, lengthOpt, pieceBindings)
    }

    /** The pairs of listeners on a card list: one, but more on the drywall pieces list. */
    function Bindings(l: CardList): nat
      reads this
    {
      if l == PiecesList then pieceBindings else 1
    }

    ghost predicate Valid()
      reads this
    {
      Consistent(page, cards, meas, counts, markup, extras, nextId, extraOriginals, shown)
    }

    /**
     * `recalc()` as every handler ends with it: the quote of the current
     * inputs is shown and each automatic extra's field receives its value.
     */
    method Refresh()
      requires IdsValid(extras, nextId) && OriginalsCover(extras, extraOriginals) && OnlyFormKeys(meas.days)
      modifies this
      ensures Valid()
      ensures extras == SyncFields(page, old(extras), meas)
      ensures AllSynced(page, old(extras), meas) ==> extras == old(extras)
      ensures Settled() == old(Settled())
    {
      if AllSynced(page, extras, meas) {
        SyncFieldsFixed(page, extras, meas);
      }
      var q, synced := Recalc(page, cards, meas, counts, markup, extras);
      RecalcKeeps(page, cards, meas, counts, markup, extras, nextId, extraOriginals, q, synced);
      shown, extras := q, synced;
    }

    /**
     * `init` once the catalog has arrived and the lists are rendered. The
     * measurements and piece counts keep their starting 0 until a field's
     * `input` event; only the two day fields and the slider are read here.
     */
    constructor (p: Page, cat: Snapshot, cs: Cards, technitis: real, voithos: real,
                 slider: JsNumber, lo: real, hi: real)
      ensures Valid()
      ensures page == p && catalog == cat && cards == cs && counts == PieceCounts(0.0, 0.0, 0.0, 0.0, 0.0)
      ensures meas == Measurements(0.0, 0.0, 0.0, FormDays(technitis, voithos))
      ensures markup == NormalizeMarkup(slider, lo, hi)
      ensures extras == RenderFields(p, InitialExtras(p, ServedExtras(cat), 0), meas)
      ensures nextId == |extras|
      ensures extraOriginals == RenderedOriginals(extras) && extraButtons == {}
      ensures lengthOpt == "500" && pieceBindings == if p == Drywall then 2 else 1
    {
      var n := PieceCounts(0.0, 0.0, 0.0, 0.0, 0.0);
      page, catalog, cards, counts := p, cat, cs, n;
      var m := Measurements(0.0, 0.0, 0.0, FormDays(technitis, voithos));
      meas := m;
      var mk := NormalizeMarkup(slider, lo, hi);
      markup := mk;
      lengthOpt := "500";
      pieceBindings := if p == Drywall then 2 else 1;
      var xs, q := FirstRender(p, ServedExtras(cat), cs, m, n, mk);
      extras, nextId := xs, |xs|;
      extraOriginals, extraButtons := RenderedOriginals(xs), {};
      shown := q;
    }

    /** Typing into a field of the form: the automatic extras' fields follow the new measurements. */
    method OnFormInput(e: FormInput)
      requires Valid() && HasInput(page, e)
      modifies this
      ensures Valid()
      ensures (meas, counts) == ApplyForm(old(meas), old(counts), e)
      ensures extras == SyncFields(page, old(extras), meas)
      ensures catalog == old(catalog) && cards == old(cards) && markup == old(markup) && nextId == old(nextId)
      ensures extraOriginals == old(extraOriginals) && extraButtons == old(extraButtons)
      ensures lengthOpt == old(lengthOpt) && pieceBindings == old(pieceBindings)
    {
      FormKeepsKeys(meas, counts, e);
      var r := ApplyForm(meas, counts, e);
      meas, counts := r.0, r.1;
      Refresh();
    }

    /** `updateMarkupUI`: the slider's value, clamped and rounded. */
    method OnMarkupInput(slider: JsNumber, lo: real, hi: real)
      requires Valid()
      modifies this
      ensures Valid()
      ensures markup == NormalizeMarkup(slider, lo, hi)
      ensures catalog == old(catalog) && cards == old(cards) && meas == old(meas) && counts == old(counts)
      ensures extras == old(extras) && nextId == old(nextId)
      ensures extraOriginals == old(extraOriginals) && extraButtons == old(extraButtons)
      ensures lengthOpt == old(lengthOpt) && pieceBindings == old(pieceBindings)
    {
      markup := NormalizeMarkup(slider, lo, hi);
      Refresh();
    }

    /** Typing a price into a card: the update button shows exactly when the price moved past the threshold. */
    method OnCardPriceInput(l: CardList, i: nat, price: real)
      requires Valid() && i < |ListOf(cards, l)|
      modifies this
      ensures Valid()
      ensures cards == EditCardPrice(page, old(cards), l, i, price)
      ensures catalog == old(catalog) && meas == old(meas) && counts == old(counts) && markup == old(markup)
      ensures extras == old(extras) && nextId == old(nextId)
      ensures extraOriginals == old(extraOriginals) && extraButtons == old(extraButtons)
      ensures lengthOpt == old(lengthOpt) && pieceBindings == old(pieceBindings)
    {
      cards := EditCardPrice(page, cards, l, i, price);
      Refresh();
    }

    /**
     * Clicking a card's update button: every pair of listeners on the list
     * sends the same request, if the page's guard lets it through.
     */
    method OnCardSaveClick(l: CardList, i: nat) returns (requests: seq<(string, real)>)
      requires i < |ListOf(cards, l)|
      ensures var c := ListOf(cards, l)[i];
        |requests| == (if CatalogSaveAttempted(page, c.price) then Bindings(l) else 0)
        && forall r :: r in requests ==> r == (c.key, c.price)
    {
      var c := ListOf(cards, l)[i];
      var n := if CatalogSaveAttempted(page, c.price) then Bindings(l) else 0;
      requests := seq(n, _ => (c.key, c.price));
    }

    /**
     * The length radio of the drywall page: the pieces list is rebuilt from
     * the snapshot for the new length, and it gains one more pair of listeners.
     */
    method OnLengthChange(len: string)
      requires Valid() && page == Drywall && "pieces" in catalog
      modifies this
      ensures Valid()
      ensures catalog == old(catalog) && meas == old(meas) && counts == old(counts) && markup == old(markup)
      ensures lengthOpt == len && pieceBindings == old(pieceBindings) + 1
      ensures cards == old(cards).(pieces := PieceCards(catalog["pieces"], len))
      ensures extras == old(extras) && nextId == old(nextId)
      ensures extraOriginals == old(extraOriginals) && extraButtons == old(extraButtons)
    {
      lengthOpt := len;
      cards := cards.(pieces := PieceCards(catalog["pieces"], len));
      pieceBindings := pieceBindings + 1;
      Refresh();
    }

    /**
     * The snapshot update of `savePrice`: the confirmed price written into
     * each of the page's groups in order, stopping with an error at the first
     * group the snapshot lacks.
     */
    method ApplyConfirmedPrice(key: string, price: real) returns (ok: bool)
      modifies this
      ensures catalog == UpdateSnapshot(old(catalog), SnapshotGroups(page), key, price).0
      ensures ok == UpdateSnapshot(old(catalog), SnapshotGroups(page), key, price).1
      ensures Local() == old(Local())
    {
      var groups := SnapshotGroups(page);
      ok := true;
      var i := 0;
      while i < |groups| && ok
        invariant 0 <= i <= |groups|
        invariant catalog == UpdateSnapshot(old(catalog), groups[..i], key, price).0
        invariant ok == UpdateSnapshot(old(catalog), groups[..i], key, price).1
        invariant Local() == old(Local())
      {
        var g := groups[i];
        UpdateSnapshotStep(old(catalog), groups, i, key, price);
        if g in catalog {
          catalog := catalog[g := SetPrice(catalog[g], key, price)];
        } else {
          ok := false;
        }
        i := i + 1;
      }
      if !ok {
        UpdateSnapshotAborts(old(catalog), groups, key, price, i);
      } else {
        assert groups[..i] == groups;
      }
    }

    /**
     * The rest of a card's save once the server has answered: nothing on a
     * refusal; otherwise the snapshot update, and when that completes the
     * sent price becomes the card's saved price and its button hides.
     */
    method CompleteCardSave(l: CardList, i: nat, sent: real, reply: Option<CatalogItem>) returns (ok: bool)
      requires Valid() && i < |ListOf(cards, l)|
      modifies this
      ensures Valid()
      ensures reply.None? ==> !ok && catalog == old(catalog) && cards == old(cards)
      ensures reply.Some? ==>
        var (c, done) := UpdateSnapshot(old(catalog), SnapshotGroups(page), reply.value.key, reply.value.latestPrice);
        catalog == c && ok == done
        && cards == if done then WithList(old(cards), l, ListOf(old(cards), l)[i := ListOf(old(cards), l)[i].(original := sent, updateShown := false)])
                    else old(cards)
      ensures meas == old(meas) && counts == old(counts) && markup == old(markup)
      ensures extras == old(extras) && nextId == old(nextId)
      ensures extraOriginals == old(extraOriginals) && extraButtons == old(extraButtons)
      ensures lengthOpt == old(lengthOpt) && pieceBindings == old(pieceBindings)
    {
      if reply.None? {
        return false;
      }
      ok := ApplyConfirmedPrice(reply.value.key, reply.value.latestPrice);
      if ok {
        var cs := ListOf(cards, l);
        cards := WithList(cards, l, cs[i := cs[i].(original := sent, updateShown := false)]);
        Refresh();
      }
    }

    /**
     * `renderExtras` as far as it keeps state: every quantity field rewritten
     * from its record, the saved prices reset to the current ones, all buttons
     * hidden.
     */
    method RenderExtras()
      modifies this
      ensures extras == RenderFields(page, old(extras), meas)
      ensures extraOriginals == RenderedOriginals(extras) && extraButtons == {}
      ensures catalog == old(catalog) && cards == old(cards) && meas == old(meas) && counts == old(counts)
      ensures markup == old(markup) && nextId == old(nextId) && shown == old(shown)
      ensures lengthOpt == old(lengthOpt) && pieceBindings == old(pieceBindings)
    {
      extras := RenderFields(page, extras, meas);
      extraOriginals, extraButtons := RenderedOriginals(extras), {};
    }

    /** `onExtrasInput`: the edit lands on the extra with the id, if there is one. */
    method OnExtrasInput(id: string, e: ExtraInput)
      requires Valid()
      modifies this
      ensures Valid()
      ensures var at := FindExtra(old(extras), id);
        (at.None? ==> extras == old(extras) && extraButtons == old(extraButtons))
        && (at.Some? ==>
              var ex := old(extras)[at.value];
              extras == SyncFields(page, old(extras)[at.value := ApplyInput(ex, e)], meas)
              && extraButtons == if e.PriceInput? && ex.key.Some?
                                 then ButtonsAfter(old(extraButtons), id,
                                                   UpdateButtonShown(page, e.price, OriginalOf(old(extraOriginals), id)))
                                 else old(extraButtons))
      ensures catalog == old(catalog) && cards == old(cards) && meas == old(meas) && counts == old(counts)
      ensures markup == old(markup) && nextId == old(nextId) && extraOriginals == old(extraOriginals)
      ensures lengthOpt == old(lengthOpt) && pieceBindings == old(pieceBindings)
    {
      var at := FindExtra(extras, id);
      if at.None? {
        return;
      }
      var ex := extras[at.value];
      ReplaceKeepsIds(extras, nextId, at.value, ApplyInput(ex, e));
      extras := extras[at.value := ApplyInput(ex, e)];
      if e.PriceInput? && ex.key.Some? {
        extraButtons := ButtonsAfter(extraButtons, id,
                                     UpdateButtonShown(page, e.price, OriginalOf(extraOriginals, id)));
      }
      Refresh();
    }

    /** `onExtrasChange`: a unit chosen or the automatic box toggled on the extra with the id. */
    method OnExtrasChange(id: string, c: ExtraChange)
      requires Valid()
      modifies this
      ensures Valid()
      ensures var at := FindExtra(old(extras), id);
        (at.None? ==> extras == old(extras))
        && (at.Some? ==> extras == old(extras)[at.value := ApplyChange(page, old(extras)[at.value], c, meas)])
      ensures catalog == old(catalog) && cards == old(cards) && meas == old(meas) && counts == old(counts)
      ensures markup == old(markup) && nextId == old(nextId)
      ensures extraOriginals == old(extraOriginals) && extraButtons == old(extraButtons)
      ensures lengthOpt == old(lengthOpt) && pieceBindings == old(pieceBindings)
    {
      var at := FindExtra(extras, id);
      if at.None? {
        return;
      }
      var ex := ApplyChange(page, extras[at.value], c, meas);
      ReplaceKeepsIds(extras, nextId, at.value, ex);
      extras := extras[at.value := ex];
      assert AllSynced(page, extras, meas);
      Refresh();
    }

    /** The remove button: every extra with the id goes, the others stay in order; an empty id does nothing. */
    method RemoveExtra(id: string)
      requires Valid()
      modifies this
      ensures Valid()
      ensures id == [] ==> extras == old(extras) && extraOriginals == old(extraOriginals)
                           && extraButtons == old(extraButtons)
      ensures id != [] ==> extras == RenderFields(page, RemoveById(old(extras), id), meas)
                           && extraOriginals == RenderedOriginals(extras) && extraButtons == {}
      ensures catalog == old(catalog) && cards == old(cards) && meas == old(meas) && counts == old(counts)
      ensures markup == old(markup) && nextId == old(nextId)
      ensures lengthOpt == old(lengthOpt) && pieceBindings == old(pieceBindings)
    {
      if id == [] {
        return;
      }
      RemoveKeepsIds(extras, id, nextId);
      var kept := RemoveById(extras, id);
      extras := kept;
      RenderExtras();
      RewriteKeepsIds(kept, extras, nextId);
      Refresh();
    }

    /** `addExtraRow`: one blank row with a fresh id at the end. */
    method AddExtraRow()
      requires Valid()
      modifies this
      ensures Valid()
      ensures extras == RenderFields(page, old(extras) + [NewRow(IdOf(old(nextId)))], meas)
      ensures nextId == old(nextId) + 1
      ensures extraOriginals == RenderedOriginals(extras) && extraButtons == {}
      ensures catalog == old(catalog) && cards == old(cards) && meas == old(meas) && counts == old(counts)
      ensures markup == old(markup)
      ensures lengthOpt == old(lengthOpt) && pieceBindings == old(pieceBindings)
    {
      AppendFresh(extras, nextId, NewRow(IdOf(nextId)));
      var grown := extras + [NewRow(IdOf(nextId))];
      extras := grown;
      nextId := nextId + 1;
      RenderExtras();
      RewriteKeepsIds(grown, extras, nextId);
      Refresh();
    }

    /** The update button of a catalog-backed extra: its key and price are sent, whatever the price. */
    method OnExtraSaveClick(id: string) returns (request: Option<(string, real)>)
      ensures var at := FindExtra(extras, id);
        (request.Some? <==> at.Some? && extras[at.value].key.Some?)
        && (request.Some? ==> request.value == (extras[at.value].key.value, extras[at.value].price))
    {
      var at := FindExtra(extras, id);
      if at.Some? && extras[at.value].key.Some? {
        request := Some((extras[at.value].key.value, extras[at.value].price));
      } else {
        request := None;
      }
    }

    /** The rest of an extra's save: the snapshot update, and on completion the sent price becomes the saved one. */
    method CompleteExtraSave(id: string, sent: real, reply: Option<CatalogItem>) returns (ok: bool)
      requires Valid()
      modifies this
      ensures Valid()
      ensures reply.None? ==> !ok && catalog == old(catalog)
      ensures reply.Some? ==>
        var (c, done) := UpdateSnapshot(old(catalog), SnapshotGroups(page), reply.value.key, reply.value.latestPrice);
        catalog == c && ok == done
        && extraOriginals == (if done then old(extraOriginals)[id := sent] else old(extraOriginals))
        && extraButtons == (if done then old(extraButtons) - {id} else old(extraButtons))
      ensures reply.None? ==> extraOriginals == old(extraOriginals) && extraButtons == old(extraButtons)
      ensures cards == old(cards) && meas == old(meas) && counts == old(counts) && markup == old(markup)
      ensures extras == old(extras) && nextId == old(nextId)
      ensures lengthOpt == old(lengthOpt) && pieceBindings == old(pieceBindings)
    {
      if reply.None? {
        return false;
      }
      ok := ApplyConfirmedPrice(reply.value.key, reply.value.latestPrice);
      if ok {
        extraOriginals := extraOriginals[id := sent];
        extraButtons := extraButtons - {id};
        Refresh();
      }
    }
  }
}
