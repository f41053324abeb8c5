# Renovation quote calculators — a verified model of the quote engine

The site has four calculator pages, each a single browser script:

- drywall (`gypsosanida.js`)
- tiling (`plakakia.js`)
- thermal facade (`thermoprosopsi.js`)
- painting (`elaioxromatismoi.js`)

Each page loads a price catalog from the server and lists its items as price cards. The cards are grouped as areas, running metres, volumes, pieces and workers. Each page also has a list of free-form "extras" (επιπρόσθετα). The user types the measurements, the worker days and a markup. On every change the page recomputes a quote:

- each group's cost;
- the total cost, the selling price, the gross profit and the margin;
- the price per m², per running metre and per m³;
- a flag on each extra whose quantity is not positive.

A changed card price can be saved back to the catalog.

The four scripts are near copies of one another. The model is one engine parameterised by the page (`Pages.Page`). Every place where the scripts differ is a per-page setting:

- which measurements exist;
- which units a quantity can be derived from;
- which catalog groups a saved price is written into;
- the threshold that shows an update button;
- whether a save requires a positive price;
- whether zero quantities are flagged;
- whether the extras carry catalog keys.

Modules:

- `Text`: the character classes and the trimming and segmentation that `parseConsumption`'s regular expression relies on.
- `Search`: the first-match search the scripts run over a catalog group, the extras and the piece cards.
- `Pages`: the per-page settings.
- `Consumption`: `parseConsumption`, `calcQtyFromConsumption`, `isPieceUnit`, and the rounding up of piece quantities.
- `Measures`: the worker-days object and the measurement form.
- `Catalog`: the catalog snapshot and `savePrice`'s update of it; the update-button and save-guard rules.
- `Pricing`: markup normalisation and zones, the totals, and the per-measurement prices.
- `Extras`: the extra records, their automatic quantities, the edits made by the extras handlers, and removal.
  - Also the initial extras: seeded from the catalog, the fallback rows, and the painting page's fixed rows.
- `Quote`: `recalc` as a function of the page's state, with its properties.
- `Calculator`: the page as an object (class `Calculator.Calculator`) whose event handlers change its state in place.
  - Each handler ends by showing the quote of its new state.
  - The loops of `recalc`, `unitAutoQtyValue` and `savePrice` are methods proved against the functions above.

Numbers are mathematical reals. A division by zero in a consumption rate ("4 units per 0 m2") gives a non-finite quantity in the scripts. The model makes that quantity `None`, and the whole quote is then `None` ("not a finite number").

The rounding of piece quantities subtracts 10⁻⁹ before taking the ceiling. So a quantity of 2.0000001 is rounded up to 3, not 2: it is more than 10⁻⁹ above 2 (`Consumption.RoundUpPiecesExample`). Only excess of up to 10⁻⁹ is absorbed.

On the thermal-facade page, `savePrice` writes the confirmed price into the groups areas, linear, workers and extras (`thermoprosopsi.js:466-469`). If the served catalog has no `extras` group, the loop throws after updating the other three. The button then reports an error although the server stored the price (`Catalog.ThermalSaveEndsInError`). The model keeps this behaviour as written.

## Model

| member | source | states |
|---|---|---|
| Consumption.ParseConsumption | static/gypsosanida.js:499-508 | an accepted rate has one of the page's base units (m2, m3, lm, plus sheet on drywall), an ASCII word as its unit and non-negative numbers |
| Consumption.ParseAcceptsForm | static/plakakia.js:454-464 | every text "number word per number base" is accepted, with any white space around or between the parts and the base in any letter case; the result holds those numbers and the lower-cased unit and base |
| Consumption.ParseOnlyForm | static/gypsosanida.js:499-508 | nothing else is accepted: an accepted text is, once trimmed, exactly such a sequence of parts, and the rate is read from them |
| Consumption.ParsedPieceUnitIsAscii | static/plakakia.js:77-80 | the Greek piece units (τεμ, τεμάχιο, τεμάχια) can never be a parsed unit, because `\w` matches only ASCII; only the ASCII piece units can make a rate round up |
| Consumption.Ceil | static/gypsosanida.js:522-526 | `Math.ceil`: the least integer not below its argument |
| Consumption.CeilUnique | static/gypsosanida.js:522-526 | that integer is unique |
| Consumption.RoundUpPieces | static/gypsosanida.js:515 | piece quantities are rounded up after subtracting the 10⁻⁹ tolerance |
| Consumption.RoundUpPiecesKeepsWhole | static/gypsosanida.js:515 | a whole quantity is kept as it is |
| Consumption.RoundUpPiecesAbsorbsNoise | static/gypsosanida.js:515 | an excess of at most 10⁻⁹ over a whole number is dropped |
| Consumption.RoundUpPiecesBeyondTolerance | static/gypsosanida.js:515 | any larger excess, up to one, costs a whole extra piece |
| Consumption.RoundUpPiecesExample | static/gypsosanida.js:515 | 2.0000001 rounds up to 3 |
| Consumption.RoundUpPiecesMonotone | static/gypsosanida.js:515 | rounding up never reverses the order of two quantities |
| Consumption.CalcQty | static/gypsosanida.js:510-517 | no rate: the base amount is the quantity; a rate with base 0: no finite quantity; otherwise the rate's exact quantity, rounded up for piece units; the unit shown is the rate's |
| Consumption.CalcQtyAdditive | static/plakakia.js:466-473 | for non-piece units the derived quantity of a sum of base amounts is the sum of the quantities |
| Consumption.CalcQtyMonotone | static/plakakia.js:466-473 | a larger base amount never gives a smaller quantity |
| Consumption.ParseKilogramsExample | static/plakakia.js:456 | "7 kg per 1 m2" is the rate 7 kg per 1 m2 |
| Consumption.KilogramsPerSquareMetreExample | static/plakakia.js:466-473 | that rate over 10 m² is 70 kg, not rounded |
| Consumption.ParseUnitsExample | static/plakakia.js:456 | "4 Units per 100 m2" is read with the unit lower-cased |
| Consumption.PiecesPerHundredExample | static/gypsosanida.js:510-517 | 4 units per 100 m² over 250 m² is 10 pieces, rounded |
| Measures.Days | static/gypsosanida.js:610 | a worker without booked days has 0 days |
| Measures.DaysAt | static/gypsosanida.js:610 | with distinct keys, a worker's days are the ones stored under its key |
| Measures.SetDays | static/gypsosanida.js:739-740 | assigning a key replaces that key's value in place, or appends the key at the end; other entries and their order are unchanged |
| Measures.SetDaysReads | static/gypsosanida.js:739-740 | after the assignment, the key reads the new value and every other key reads as before |
| Measures.SetDaysDistinct | static/gypsosanida.js:739-740 | the assignment keeps the keys distinct |
| Measures.SetDaysTotal | static/gypsosanida.js:142-143 | the day total changes by exactly the difference between the new and the old value |
| Measures.FormDaysTotal | static/elaioxromatismoi.js:104-110 | when only the two form fields book days, the sum over all keys is technitis plus voithos |
| Measures.SetFormDays | static/gypsosanida.js:737-740 | the day fields keep the booked keys to technitis and voithos |
| Search.FindFirst | static/gypsosanida.js:493 | the first-match search shared by the lists: the index found holds the key and no earlier element does, and none means no element holds it |
| Search.FindFirstAppend | static/gypsosanida.js:574 | elements added after a match do not change which element is found |
| Catalog.FindKey | static/gypsosanida.js:493 | `findIndex`: the first item with the key, or none exists |
| Catalog.UpdateSnapshotOk | static/gypsosanida.js:492-495 | the update keeps the set of groups, and completes exactly when every group it names exists |
| Catalog.UpdateSnapshotAborts | static/thermoprosopsi.js:466-469 | once a group is missing, the groups after it are not touched |
| Catalog.UpdateSnapshotEffect | static/plakakia.js:447-450 | after a completed update, each listed group has the confirmed price on its first item with the key, with nothing else changed; unlisted groups are unchanged |
| Catalog.SetPriceWritten | static/gypsosanida.js:493-494 | writing a price changes only the first matching item's price |
| Catalog.SetPriceAfterWritten | static/gypsosanida.js:493-494 | writing the same price again keeps that description |
| Catalog.SameKeysSameFind | static/gypsosanida.js:493 | items with the same keys are found at the same index |
| Catalog.SetPriceTwice | static/gypsosanida.js:492-495 | saving the same price twice leaves the snapshot as one save does |
| Catalog.ThermalSaveEndsInError | static/thermoprosopsi.js:466-469 | on the thermal-facade page, a catalog served without extras makes every save end in an error, with the price already written into areas, linear and workers |
| Catalog.UpdateButtonRule | static/gypsosanida.js:450-454 | an unchanged price hides the update button; a change of one cent either way shows it |
| Catalog.ThresholdsDiffer | static/thermoprosopsi.js:426 | the thermal-facade page shows the button for a change of 0.00005, the other pages do not (thresholds 10⁻⁹ and 10⁻⁴) |
| Catalog.SaveGuardDiffers | static/thermoprosopsi.js:430-437 | a price that is not positive is sent only on the thermal-facade page; the others require it to be positive |
| Pricing.Clamp | static/gypsosanida.js:780 | the slider value lies within its bounds; a value inside them is kept; a non-number reads 0 |
| Pricing.Round | static/gypsosanida.js:786 | `Math.round`: the nearest integer, with halves rounded up |
| Pricing.RoundWhole | static/gypsosanida.js:786 | that integer is unique |
| Pricing.NormalizeMarkupInRange | static/gypsosanida.js:781-789 | the markup stored is within the slider's bounds |
| Pricing.NormalizeMarkupKeeps | static/gypsosanida.js:781-789 | a whole value within the bounds is stored unchanged; a non-number becomes 0 |
| Pricing.NormalizeMarkupIdempotent | static/gypsosanida.js:781-789 | normalising the stored value again changes nothing |
| Pricing.NormalizeMarkupMonotone | static/gypsosanida.js:781-789 | moving the slider up never lowers the markup |
| Pricing.NormalizeMarkupPins | static/gypsosanida.js:781-789 | values beyond a bound, infinities included, stop at that bound |
| Pricing.ZoneOf | static/gypsosanida.js:810-813 | the zone is dangerously low up to 14, conservative up to 30, balanced up to 60, strong above |
| Pricing.ZoneMonotone | static/gypsosanida.js:810-813 | a higher markup never gets a lower zone |
| Pricing.PriceTotals | static/gypsosanida.js:650-654 | gross profit is sell minus cost; the margin is gross as a percentage of sell when sell is positive, and 0 otherwise |
| Pricing.MarginFromMarkup | static/gypsosanida.js:652-654 | for a positive cost the margin is 100·m/(100+m), whatever the cost |
| Pricing.SellMonotone | static/gypsosanida.js:652 | a non-negative markup never sells below cost; a higher markup never sells lower |
| Pricing.ZeroCostZeroMargin | static/gypsosanida.js:650-654 | a zero cost shows all totals as 0 |
| Pricing.PriceTotalsExample | static/gypsosanida.js:650-654 | a cost of 500 at a markup of 20% sells for 600, a gross of 100 and a margin of 16.67% |
| Pricing.PerUnitGuarded | static/gypsosanida.js:668-669 | a dash exactly when the measurement is not positive; otherwise the selling price divided by the measurement, with the divisor at least 10⁻⁹ |
| Pricing.PerUnitPlain | static/thermoprosopsi.js:561 | a dash exactly when the measurement is not positive; otherwise the selling price divided by it |
| Pricing.PerUnitRulesAgree | static/thermoprosopsi.js:561-562 | the two rules differ only for measurements strictly between 0 and 10⁻⁹ |
| Extras.IdOf | static/gypsosanida.js:128 | an extra's id is never empty |
| Extras.IdOfInjective | static/gypsosanida.js:128 | different counters give different ids |
| Extras.CreateExtra | static/gypsosanida.js:126-136 | an extra is catalog-backed exactly when it is created with a non-empty key, and then carries that key |
| Extras.UnsupportedReadsZero | static/gypsosanida.js:138-148 | a unit without an automatic source on the page reads 0 |
| Extras.DayUnitAgrees | static/elaioxromatismoi.js:104-110 | while only the two form fields book days, the painting page's technitis-plus-voithos equals the other pages' sum over every worker |
| Extras.ResolvedQtySource | static/gypsosanida.js:624-631 | an automatic m² extra follows the measured area; a manual one keeps its own quantity whatever the measurements; an unsupported unit is always manual |
| Extras.NewRow | static/gypsosanida.js:294 | the added row is marked automatic but its unit ("unit") has no source, so it is manual |
| Extras.NewRowIsManual | static/elaioxromatismoi.js:217 | on every page the added row counts as manual and its quantity is 0 |
| Extras.InputTouchesOneField | static/gypsosanida.js:206-224 | typing a description, price or quantity changes that one field and not whether the extra is automatic |
| Extras.ApplyChange | static/gypsosanida.js:226-260 | choosing a unit makes the extra automatic exactly when the unit has a source; toggling sets automatic only if the unit allows it; the quantity field receives the automatic value exactly when the extra becomes automatic and otherwise keeps what it showed; nothing else changes |
| Extras.UnitChangeFollowsSource | static/gypsosanida.js:232-245 | after a unit with a source is chosen, the extra's quantity is that source's value |
| Extras.ToggleOffKeepsCharge | static/gypsosanida.js:248-259 | after the box is unticked the extra is manual, but it is still charged the automatic value its field kept; only the next re-render makes it charge its own recorded quantity |
| Extras.ManualUnitKeepsCharge | static/gypsosanida.js:232-245 | choosing a unit without a source makes the extra manual, but it is still charged the value its field showed, until a re-render puts back its recorded quantity |
| Extras.TypedQtyCharged | static/gypsosanida.js:222 | a quantity typed into a manual extra is what it is charged, before and after a re-render |
| Extras.SyncField | static/gypsosanida.js:628-630 | `recalc` writes an automatic extra's value into its quantity field: the field then shows that value, the charge does not change, nothing else changes, and an extra whose field already shows it is left as it is |
| Extras.SyncFields | static/gypsosanida.js:621-646 | over the list, one written extra per extra, each as `SyncField` says, so every automatic field shows its value |
| Extras.SyncFieldsFixed | static/gypsosanida.js:628-630 | writing the values back is idempotent: a list whose automatic fields already show their values is unchanged |
| Extras.RenderField | static/gypsosanida.js:160-162 | `renderExtras` fills the field with the automatic value when the extra is effectively automatic and with its recorded quantity otherwise, so a rendered manual extra is charged its recorded quantity |
| Extras.RenderFields | static/gypsosanida.js:150-204 | one rendered extra per extra, each as `RenderField` says |
| Extras.FindExtra | static/gypsosanida.js:210 | `find`: the first extra with the id, or none exists |
| Extras.RemoveById | static/gypsosanida.js:266 | the remaining extras are exactly those without the id |
| Extras.RemoveByIdAppend | static/gypsosanida.js:266 | removing from a concatenation removes from each part, so order is kept |
| Extras.RemoveByIdCount | static/gypsosanida.js:266 | the list shrinks by the number of extras carrying the id |
| Extras.RemoveByIdIdempotent | static/plakakia.js:266 | removing twice is removing once |
| Extras.AppendFresh | static/gypsosanida.js:294 | appending a row whose id comes from the counter keeps every id distinct |
| Extras.RemoveKeepsIds | static/gypsosanida.js:266 | removal keeps the ids distinct and below the counter |
| Extras.ReplaceKeepsIds | static/gypsosanida.js:206-260 | editing an extra in place keeps the ids distinct |
| Extras.ConsecutiveIds | static/gypsosanida.js:858 | rows created one after another have distinct ids |
| Extras.OfRankSplit | static/gypsosanida.js:856-857 | the catalog extras split into the ranks of the sort with nothing lost or gained |
| Extras.SortByRankSorted | static/gypsosanida.js:856-857 | the sort is a permutation of the catalog extras, ordered by their position in the order list (unknown keys first) |
| Extras.SortByRankStable | static/gypsosanida.js:857 | the sort is stable: extras of the same rank keep their catalog order |
| Extras.SeedFromCatalog | static/gypsosanida.js:858 | one extra per catalog item |
| Extras.PaintingInitialExtras | static/elaioxromatismoi.js:462-469 | the painting page starts with four manual piece rows at 55, 50, 15 and 120, then an automatic m² row at 0 |
| Extras.SeededInitialExtras | static/gypsosanida.js:855-858 | a non-empty catalog list seeds the extras: each one automatic with quantity 0, ordered by rank, and each catalog item seeding one with its name, unit, price and key |
| Extras.FallbackInitialExtras | static/gypsosanida.js:859-864 | without catalog extras the page starts with a skip at 120, which is manual since its unit has no source, and an automatic m² row |
| Extras.InitialExtrasIds | static/gypsosanida.js:842-866 | the initial extras have distinct ids below the counter |
| Quote.CardQty | static/gypsosanida.js:542-566 | a worker card's quantity is its booked days; a card without a rate uses the measurement; a rate with base 0 gives no finite quantity |
| Quote.GroupCostDefined | static/plakakia.js:480-529 | a group's cost is undefined exactly when it uses rates and some card's rate has base 0 |
| Quote.GroupCostPlain | static/thermoprosopsi.js:478-498 | a group without rates costs the sum of its prices times the measurement |
| Quote.FindCard | static/gypsosanida.js:574 | the first pieces card with the key, or none exists |
| Quote.FindCardWithPrefix | static/gypsosanida.js:585 | the first pieces card whose key starts with the prefix, or none exists |
| Quote.FirstPieceCardsWin | static/gypsosanida.js:568-605 | once all five piece cards are present, later cards never change the pieces cost |
| Quote.SheetKeyIsNoFrame | static/gypsosanida.js:585-595 | a sheet key never matches the stud or track prefix |
| Quote.PiecesChargedWhole | static/gypsosanida.js:522 | sheets are charged in whole numbers, rounded up: any positive count up to one costs one sheet |
| Quote.ExtrasCostAppend | static/gypsosanida.js:619-648 | the extras' cost is additive over concatenation |
| Quote.ExtrasCostPointwise | static/gypsosanida.js:619-648 | the extras' cost and flags depend only on each extra's price and charged quantity |
| Quote.QuoteIgnoresSync | static/gypsosanida.js:628-630 | writing the automatic values into the fields does not change the quote |
| Quote.UntickExample | static/gypsosanida.js:248-259 | on the drywall page with 50 m², an automatic m² extra at 10 € with recorded quantity 0 is unticked: it is still charged 500 and not flagged; after a re-render it is charged 0 and flagged |
| Quote.ExtraCharged | static/gypsosanida.js:619-648 | each extra contributes its own cost, wherever it stands |
| Quote.RemoveByIdAbsent | static/gypsosanida.js:266 | removing an id nobody has changes nothing |
| Quote.RemoveExtraCost | static/gypsosanida.js:262-268 | with distinct ids, removing an extra takes out exactly that row, and the extras total drops by exactly its cost |
| Quote.ZeroQtyFlags | static/gypsosanida.js:637-646 | one flag per extra |
| Quote.ZeroQtyFlagRule | static/thermoprosopsi.js:531-540 | an extra is flagged exactly when the page flags and its quantity is not positive; a new row is flagged on those pages |
| Quote.PerUnitsShown | static/plakakia.js:581-582 | each page shows per m², drywall and thermal facade per running metre, tiling per m³; each is a dash exactly when its measurement is not positive |
| Quote.QuoteDefined | static/gypsosanida.js:519-679 | the quote is undefined exactly when a rate with base 0 is used; on the thermal-facade and painting pages it is always defined |
| Quote.QuoteDecomposes | static/gypsosanida.js:650-654 | the totals are taken over the sum of the group costs; groups the page lacks cost 0; the margin follows from the markup alone |
| Quote.PaintingReadsWorkersAndExtras | static/elaioxromatismoi.js:310-352 | the painting quote depends only on the worker cards, the extras and the measurements |
| Quote.EmptyQuote | static/gypsosanida.js:519-679 | with no cards and no extras, every total is 0, and the per-m² price is a dash exactly when no area is given |
| Quote.NothingPriced | static/gypsosanida.js:519-679 | empty lists cost 0 |
| Quote.ThermalGroupsArePlain | static/thermoprosopsi.js:478-498 | thermal facade: areas cost the price sum times m², linear times lm, always defined |
| Quote.QuoteSellMonotone | static/gypsosanida.js:650-654 | with a non-negative cost, raising the markup never lowers the selling price |
| Calculator.DayInputEffect | static/gypsosanida.js:739-740 | a day field sets that worker's days and shifts the total by the difference; nothing else changes |
| Calculator.RenderedOriginals | static/gypsosanida.js:172 | a saved price is rendered exactly for the catalog-backed extras |
| Calculator.RenderedOriginalsPrice | static/gypsosanida.js:172 | each rendered saved price is that extra's current price |
| Calculator.ButtonsAfter | static/gypsosanida.js:215-220 | after typing, the extra's button shows exactly when the page's rule says so; other buttons are untouched |
| Calculator.SumDays | static/gypsosanida.js:142-143 | the loop's total is the sum of all booked days |
| Calculator.AutoQty | static/gypsosanida.js:138-148 | the switch returns the automatic quantity of the unit |
| Calculator.SumGroup | static/gypsosanida.js:542-566 | the loop over a card list gives the group's cost, undefined if any card's is |
| Calculator.SumExtras | static/gypsosanida.js:619-648 | the loop gives the extras' cost, their zero-quantity flags, and the extras with the automatic values written into their fields |
| Calculator.Recalc | static/gypsosanida.js:519-679 | `recalc` computes the page's quote, or none when a group's cost is not finite, and always writes the extras' fields back |
| Calculator.RecalcKeeps | static/gypsosanida.js:519-679 | after `recalc` the page's invariant holds: ids distinct and below the counter, a saved price for every catalog-backed extra, only the form's workers, every automatic field showing its value, and the quote shown is the quote of the state |
| Calculator.FirstRender | static/gypsosanida.js:855-866 | the end of `init`: the initial extras are rendered and the first quote establishes the invariant |
| Calculator.FormGetSet | static/gypsosanida.js:735-746 | typing into a form field: that field reads the number typed, every other field reads as before |
| Calculator.ItemCard | static/gypsosanida.js:370-389 | a piece card exists exactly when the snapshot has an item with the key; it shows that item's unit, its consumption (none on studs and uprights), its saved price as both price and original, and a hidden button |
| Calculator.PieceCardsSaved | static/gypsosanida.js:365-440 | the rebuilt pieces list has at most five cards, each priced at a price the snapshot holds for its key, equal to its saved price, with its button hidden |
| Calculator.PieceCardsCost | static/gypsosanida.js:567-603 | when the snapshot has all five items, the pieces cost of the rebuilt list is each item's saved price times its count rounded up, summed |
| Calculator.Calculator.constructor | static/gypsosanida.js:842-866 | after `init` the page holds the catalog; m², lm, m³ and the piece counts are 0, whatever the fields show, and the worker days are the two day fields' values; the markup is the slider's, normalised; the extras are the initial ones as rendered, with their saved prices and no button shown; the length is 500 and the drywall pieces list carries two pairs of listeners; the invariant holds, so the quote shown is that of this state |
| Calculator.Calculator.Refresh | static/gypsosanida.js:519-679 | `recalc` as every handler ends: the invariant holds, each automatic field shows its value, a list already in that state is unchanged, and nothing but the extras and the quote shown changes |
| Calculator.Calculator.OnFormInput | static/gypsosanida.js:735-746 | a form field changes its one value; the automatic extras' fields follow the new measurements; the invariant holds, so the quote shown is that of the new state |
| Calculator.Calculator.OnMarkupInput | static/gypsosanida.js:781-829 | the slider stores the normalised markup and re-shows the quote |
| Calculator.EditCardPrice | static/gypsosanida.js:445-456 | typing a price changes only that card's price and update button, in its own list; every other list is unchanged |
| Calculator.Calculator.OnCardPriceInput | static/gypsosanida.js:445-456 | a card's price changes, and its button shows exactly when the price differs from the saved one by more than the page's threshold |
| Calculator.Calculator.OnCardSaveClick | static/gypsosanida.js:457-477 | a click sends the card's key and price once per pair of listeners bound to its list, when the page's guard lets it through, and nothing otherwise |
| Calculator.Calculator.OnLengthChange | static/gypsosanida.js:753-758 | choosing a length stores it, rebuilds the pieces cards from the snapshot for that length, binds one more pair of listeners to the list and re-shows the quote; nothing else changes |
| Calculator.Calculator.ApplyConfirmedPrice | static/gypsosanida.js:492-495 | the loop writes the confirmed price into the page's groups in order, stopping with an error at the first group missing |
| Calculator.Calculator.CompleteCardSave | static/gypsosanida.js:466-477 | a refused request changes nothing; after a completed update the sent price becomes the card's saved price and its button hides; a failed one leaves the card as it was |
| Calculator.Calculator.RenderExtras | static/gypsosanida.js:150-204 | rendering resets each quantity field (automatic value or recorded quantity), resets the saved prices to the current ones and hides every button |
| Calculator.Calculator.OnExtrasInput | static/gypsosanida.js:206-224 | the edit lands on the first extra with the id, if any, and the automatic fields are written back; a price typed into a catalog-backed extra shows its button exactly when the price moved |
| Calculator.Calculator.OnExtrasChange | static/gypsosanida.js:226-260 | a unit choice or toggle lands on the first extra with the id, if any; the fields are not re-rendered, so a field the handler leaves alone keeps its value |
| Calculator.Calculator.RemoveExtra | static/gypsosanida.js:262-268 | an empty id does nothing; otherwise every extra with the id goes, the list re-renders its fields and the quote is re-shown |
| Calculator.Calculator.AddExtraRow | static/gypsosanida.js:294 | a blank manual row with a fresh id is appended and the list re-renders its fields |
| Calculator.Calculator.OnExtraSaveClick | static/gypsosanida.js:269-276 | a click sends the extra's key and price, whatever the price, exactly when the extra is catalog-backed |
| Calculator.Calculator.CompleteExtraSave | static/gypsosanida.js:278-289 | after a completed update the sent price becomes the extra's saved price and its button hides; otherwise nothing but the partial snapshot changes |

Functions that only compute carry no contract of their own; the lemmas and methods in the rows above state what they mean:

- `Extras.UnitAutoQtyValue` (`static/gypsosanida.js:138-148`): `Extras.UnsupportedReadsZero`, `Extras.DayUnitAgrees`, `Calculator.AutoQty`.
- `Extras.EffectiveAuto` and `Extras.ResolvedQty` (`static/gypsosanida.js:160-162`, `628-633`): `Extras.ResolvedQtySource`, `Extras.ToggleOffKeepsCharge`, `Extras.ManualUnitKeepsCharge`, `Extras.TypedQtyCharged`.
- `Consumption.IsPieceUnit` (`static/plakakia.js:77-80`): `Consumption.ParsedPieceUnitIsAscii`, `Consumption.CalcQty`.
- `Pricing.NormalizeMarkup` (`static/gypsosanida.js:780-788`): the `Pricing.NormalizeMarkup…` lemmas.
- `Catalog.UpdateSnapshot` and `Catalog.SetPrice` (`static/gypsosanida.js:492-495`): `Catalog.UpdateSnapshotOk`, `Catalog.UpdateSnapshotAborts`, `Catalog.UpdateSnapshotEffect`, `Catalog.SetPriceWritten`, `Catalog.SetPriceTwice`.
- `Extras.ApplyInput` (`static/gypsosanida.js:212-222`): `Extras.InputTouchesOneField`, `Extras.TypedQtyCharged`.
- `Extras.SortByRank` (`static/gypsosanida.js:856-857`): `Extras.SortByRankSorted`, `Extras.SortByRankStable`.
- `Extras.InitialExtras`, `Extras.FallbackExtras`, `Extras.PaintingDefaults` (`static/gypsosanida.js:855-864`, `static/elaioxromatismoi.js:462-469`): `Extras.SeededInitialExtras`, `Extras.FallbackInitialExtras`, `Extras.PaintingInitialExtras`, `Extras.InitialExtrasIds`.
- `Quote.ComputeQuote` (`static/gypsosanida.js:519-679`): `Quote.QuoteDefined`, `Quote.QuoteDecomposes`, `Quote.EmptyQuote`, `Calculator.Recalc`.
- `Quote.GroupCost` (`static/gypsosanida.js:529-617`): `Quote.GroupCostDefined`, `Quote.GroupCostPlain`, `Calculator.SumGroup`.
- `Quote.PiecesCost` (`static/gypsosanida.js:567-603`): `Quote.FirstPieceCardsWin`, `Quote.PiecesChargedWhole`, `Calculator.PieceCardsCost`.
- `Quote.ExtrasCost` (`static/gypsosanida.js:619-648`): `Quote.ExtrasCostAppend`, `Quote.ExtraCharged`, `Quote.ExtrasCostPointwise`, `Calculator.SumExtras`.
- `Quote.PerUnits` (`static/gypsosanida.js:668-669`): `Quote.PerUnitsShown`.
- `Calculator.ApplyForm` (`static/gypsosanida.js:735-746`): `Calculator.FormGetSet`, `Calculator.DayInputEffect`.
- `Calculator.PieceCards` (`static/gypsosanida.js:365-440`): `Calculator.PieceCardsSaved`, `Calculator.PieceCardsCost`.

## Left out

- Quote.QuoteDefined: a zero base makes the whole quote `None`. The page instead still shows the other groups' finite sums and the zero-quantity flags, and `fmtEUR` renders every non-finite amount as 0.
- The HTML that rendering produces is not modelled. This covers the DOM, the cards' markup, `formatConsumption` and `unitNice`, and currency formatting (`fmtEUR`, `parseCurrency`). It also covers the count animation, the slider's fill and bubble geometry, and the theme, spark and rotator scripts. None of these affects the quote. What rendering does to the state is modelled: `renderExtras` resets the quantity fields, the saved prices and the buttons, and `renderPiecesList` rebuilds the piece cards from the snapshot.
- The card lists that `init` renders from the catalog are inputs of the constructor. Only the drywall pieces list's rebuild on a length change is computed from the snapshot (`Calculator.PieceCards`).
- Calculator.Calculator.OnLengthChange: requires the snapshot to have a `pieces` group. Without one, `init` throws at its first `renderPiecesList`, before the length handler is bound.
- The repeated listeners on the drywall pieces list also run the price-input handler several times per keystroke. Each run sets the same button state and repeats `recalc`, which is idempotent (`Extras.SyncFieldsFixed`), so the state after a keystroke is the one modelled.
- The network and dialogs are not modelled. `fetch` and the server's reply are parameters: the loaded catalog, and the reply to a save (`None` for a refused request). Alerts and the button's transient `disabled` state are not modelled.
- The server (`main.py`) is not part of this model. That includes its rounding of saved prices to cents and its rejection of prices that are not positive.
- `parseNum` is not modelled. Every input arrives as the number it parses to.
- JavaScript numbers are modelled as mathematical reals. Floating-point rounding and overflow are not modelled, except where a rule depends on non-finite values: a division by a zero base (`None`) and the slider's NaN and infinities (`JsNumber`).
- Extra ids are modelled as strings drawn from a counter (`Extras.IdOf`), where the scripts use `Math.random`. The model therefore has distinct ids, which the scripts only have with high probability.
- Extras.ResolvedQty: charges the quantity field's value unrounded. The scripts write every value into the field rounded to cents (`toFixed(2)`), so a manual extra whose field was last written by the script is charged the rounded value.
- Letter-case folding covers ASCII and the lower-casing of Greek letters. Other scripts' case mappings are not modelled.
- Calculator.Calculator.CompleteCardSave: stores the sent price unrounded as the card's saved price. The scripts store it rounded to cents (`toFixed(2)`).
- Calculator.Calculator.CompleteExtraSave: stores the sent price unrounded as the extra's saved price. The scripts store it rounded to cents (`toFixed(2)`).
- Calculator.RenderedOriginals: keeps each catalog-backed extra's price unrounded, where `renderExtras` writes it rounded to cents.
