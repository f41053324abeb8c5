/**
 * The page's local copy of the price catalog (`state.catalog`: item lists per
 * group such as "areas" or "workers") and what happens to it once the server
 * has confirmed a new price: the tail of `savePrice`. Also the two rules that
 * decide when a price card offers and attempts a save.
 */
module Catalog {
  import opened Wrappers
  import opened Pages
  import opened Search

  /** A catalog item as the server sends it; a missing `consumption` is the empty string. */
  datatype CatalogItem = CatalogItem(key: string, name: string, unit: string, latestPrice: real, consumption: string)

  /** Groups that the server did not send are absent from the map. */
  type Snapshot = map<string, seq<CatalogItem>>

  /** `items.findIndex(x => x.key === key)`, with -1 as `None`. */
  function FindKey(items: seq<CatalogItem>, key: string): (r: Option<nat>)
    ensures r.Some? ==> r.value < |items| && items[r.value].key == key
                        && forall j :: 0 <= j < r.value ==> items[j].key != key
    ensures r.None? ==> forall j :: 0 <= j < |items| ==> items[j].key != key
  {
    FindFirst(items, ItemKey, key)
  }

  function ItemKey(item: CatalogItem): string { item.key }

  /** `if (idx >= 0) items[idx].latest_price = price`. */
  function SetPrice(items: seq<CatalogItem>, key: string, price: real): seq<CatalogItem> {
    match FindKey(items, key)
    case None => items
    case Some(i) => items[i := items[i].(latestPrice := price)]
  }

  /**
   * The snapshot update over the page's groups in order. The item confirmed
   * by the server is written into each group; a group missing from the
   * snapshot makes `state.catalog[group].findIndex` throw, which ends the
   * update with the groups before it already written (`ok` is false).
   */
  function UpdateSnapshot(cat: Snapshot, groups: seq<string>, key: string, price: real): (r: (Snapshot, bool))
  {
    if groups == [] then (cat, true)
    else
      var (c, ok) := UpdateSnapshot(cat, groups[..|groups| - 1], key, price);
      var g := groups[|groups| - 1];
      if !ok || g !in c then (c, false)
      else (c[g := SetPrice(c[g], key, price)], true)
  }

  /** One more group of the loop in `savePrice`, reached while the update is still going. */
  lemma UpdateSnapshotStep(cat: Snapshot, groups: seq<string>, i: nat, key: string, price: real)
    requires i < |groups| && UpdateSnapshot(cat, groups[..i], key, price).1
    ensures var c, g := UpdateSnapshot(cat, groups[..i], key, price).0, groups[i];
      UpdateSnapshot(cat, groups[..i + 1], key, price)
        == if g in c then (c[g := SetPrice(c[g], key, price)], true) else (c, false)
  {
    assert groups[..i + 1][..i] == groups[..i];
  }

  /** The update succeeds exactly when every listed group is present, and never adds or drops a group. */
  lemma {:induction false} UpdateSnapshotOk(cat: Snapshot, groups: seq<string>, key: string, price: real)
    ensures UpdateSnapshot(cat, groups, key, price).0.Keys == cat.Keys
    ensures UpdateSnapshot(cat, groups, key, price).1 <==> forall g :: g in groups ==> g in cat
  {
    if groups != [] {
      var init := groups[..|groups| - 1];
      UpdateSnapshotOk(cat, init, key, price);
      assert groups == init + [groups[|groups| - 1]];
      assert forall g :: g in groups <==> g in init || g == groups[|groups| - 1];
    }
  }

  /** Once a group is missing the update stops: the groups after it are never written. */
  lemma {:induction false} UpdateSnapshotAborts(cat: Snapshot, groups: seq<string>, key: string, price: real, j: nat)
    requires j <= |groups| && !UpdateSnapshot(cat, groups[..j], key, price).1
    ensures UpdateSnapshot(cat, groups, key, price) == UpdateSnapshot(cat, groups[..j], key, price)
    decreases |groups| - j
  {
    if j < |groups| {
      var next := groups[..j + 1];
      assert next[..|next| - 1] == groups[..j];
      UpdateSnapshotAborts(cat, groups, key, price, j + 1);
    } else {
      assert groups[..j] == groups;
    }
  }

  /** What one group looks like after the confirmed price was written into it. */
  predicate PriceWritten(before: seq<CatalogItem>, after: seq<CatalogItem>, key: string, price: real) {
    |after| == |before|
    && forall j :: 0 <= j < |before| ==>
         after[j] == if FindKey(before, key) == Some(j) then before[j].(latestPrice := price) else before[j]
  }

  /**
   * On success, every listed group has the confirmed price in its first item
   * with that key and is otherwise unchanged; groups that are not listed do
   * not change at all.
   */
  lemma {:induction false} UpdateSnapshotEffect(cat: Snapshot, groups: seq<string>, key: string, price: real, g: string)
    requires UpdateSnapshot(cat, groups, key, price).1
    requires g in cat
    ensures var c := UpdateSnapshot(cat, groups, key, price).0;
      g in c && (if g in groups then PriceWritten(cat[g], c[g], key, price) else c[g] == cat[g])
  {
    UpdateSnapshotOk(cat, groups, key, price);
    if groups != [] {
      var init := groups[..|groups| - 1];
      var last := groups[|groups| - 1];
      UpdateSnapshotOk(cat, init, key, price);
      UpdateSnapshotEffect(cat, init, key, price, g);
      assert groups == init + [last];
      var c0 := UpdateSnapshot(cat, init, key, price).0;
      if g == last {
        SetPriceTwice(c0[g], key, price);
        if g in init {
          SetPriceAfterWritten(cat[g], c0[g], key, price);
        } else {
          SetPriceWritten(cat[g], key, price);
        }
      }
    }
  }

  lemma SetPriceWritten(items: seq<CatalogItem>, key: string, price: real)
    ensures PriceWritten(items, SetPrice(items, key, price), key, price)
  {
  }

  /** Writing into a group where the price was already written changes nothing further. */
  lemma SetPriceAfterWritten(before: seq<CatalogItem>, after: seq<CatalogItem>, key: string, price: real)
    requires PriceWritten(before, after, key, price)
    ensures PriceWritten(before, SetPrice(after, key, price), key, price)
  {
    SameKeysSameFind(before, after, key);
  }

  lemma SameKeysSameFind(a: seq<CatalogItem>, b: seq<CatalogItem>, key: string)
    requires |a| == |b| && forall j :: 0 <= j < |a| ==> a[j].key == b[j].key
    ensures FindKey(a, key) == FindKey(b, key)
  {
  }

  /** Writing the same confirmed price twice is the same as writing it once. */
  lemma SetPriceTwice(items: seq<CatalogItem>, key: string, price: real)
    ensures SetPrice(SetPrice(items, key, price), key, price) == SetPrice(items, key, price)
  {
    var once := SetPrice(items, key, price);
    SameKeysSameFind(items, once, key);
  }

  /** The catalog the thermal-facade server sends: areas, running metres and workers, no extras. */
  predicate ServedWithoutExtras(cat: Snapshot) {
    cat.Keys == {"areas", "linear", "workers"}
  }

  /**
   * On the thermal-facade page such a catalog always ends the update in the
   * error path, although areas, running metres and workers were already written.
   */
  lemma ThermalSaveEndsInError(cat: Snapshot, key: string, price: real)
    requires ServedWithoutExtras(cat)
    ensures !UpdateSnapshot(cat, SnapshotGroups(ThermalFacade), key, price).1
    ensures var c := UpdateSnapshot(cat, SnapshotGroups(ThermalFacade), key, price).0;
      forall g :: g in cat ==> g in c && PriceWritten(cat[g], c[g], key, price)
  {
    var groups := SnapshotGroups(ThermalFacade);
    UpdateSnapshotOk(cat, groups, key, price);
    assert "extras" in groups && "extras" !in cat;
    var init := groups[..3];
    assert init == ["areas", "linear", "workers"];
    assert groups == init + ["extras"];
    UpdateSnapshotOk(cat, init, key, price);
    forall g | g in cat ensures PriceWritten(cat[g], UpdateSnapshot(cat, groups, key, price).0[g], key, price) {
      UpdateSnapshotEffect(cat, init, key, price, g);
    }
  }

  /** The price-card update button: shown exactly when the price moved further than the page's threshold. */
  predicate UpdateButtonShown(p: Page, now: real, original: real) {
    (if now >= original then now - original else original - now) > DirtyThreshold(p)
  }

  /** A save is attempted for a catalog price card only for a positive price, except on the thermal-facade page. */
  predicate CatalogSaveAttempted(p: Page, newPrice: real) {
    !GuardsCatalogSave(p) || newPrice > 0.0
  }

  /** The button stays hidden while the price is back at its saved value, and shows for a one-cent change. */
  lemma UpdateButtonRule(p: Page, original: real)
    ensures !UpdateButtonShown(p, original, original)
    ensures UpdateButtonShown(p, original + 0.01, original) && UpdateButtonShown(p, original - 0.01, original)
  {
  }

  /** A change of 0.00005 shows the button on the thermal-facade page only. */
  lemma ThresholdsDiffer(original: real)
    ensures UpdateButtonShown(ThermalFacade, original + 0.00005, original)
    ensures !UpdateButtonShown(Drywall, original + 0.00005, original)
  {
  }

  /** Only the thermal-facade page sends a price of zero or less to the server. */
  lemma SaveGuardDiffers(newPrice: real)
    requires newPrice <= 0.0
    ensures CatalogSaveAttempted(ThermalFacade, newPrice)
    ensures forall p :: p != ThermalFacade ==> !CatalogSaveAttempted(p, newPrice)
  {
  }
}
