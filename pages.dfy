/**
 * The four calculator pages share one quote engine; this module holds what
 * differs between them. Each function cites the page scripts it comes from:
 * drywall (gypsosanida.js), tiling (plakakia.js), thermal facade
 * (thermoprosopsi.js) and painting (elaioxromatismoi.js).
 */
module Pages {

  datatype Page = Drywall | Tiling | ThermalFacade | Painting

  /** Only the drywall and tiling pages parse consumption rates and round pieces. */
  predicate HasRates(p: Page) { p == Drywall || p == Tiling }

  /** The vocabulary of `isPieceUnit`, already lower-cased. */
  function PieceUnits(p: Page): set<string>
    requires HasRates(p)
  {
    if p == Drywall then {"unit", "units", "sheet", "τεμ", "τεμάχιο", "τεμάχια"}
    else {"unit", "units", "bag", "bags", "τεμ", "τεμάχιο", "τεμάχια"}
  }

  /** The base units the consumption pattern accepts, lower-cased. */
  function RateBases(p: Page): set<string>
    requires HasRates(p)
  {
    if p == Drywall then {"m2", "m3", "lm", "sheet"} else {"m2", "m3", "lm"}
  }

  /** The units for which an extra can take its quantity from the page's measurements. */
  function AutoUnits(p: Page): set<string> {
    match p
    case Drywall => {"m2", "lm", "day"}
    case Tiling => {"m2", "m3", "day"}
    case ThermalFacade => {"m2", "lm", "day"}
    case Painting => {"m2", "day"}
  }

  /** `supportsAutoUnit`. */
  predicate SupportsAutoUnit(p: Page, unit: string) { unit in AutoUnits(p) }

  /** The catalog groups whose snapshot a confirmed price save updates, in order. */
  function SnapshotGroups(p: Page): seq<string> {
    match p
    case Drywall => ["areas", "linear", "pieces", "workers", "extras"]
    case Tiling => ["areas", "volumes", "workers", "extras"]
    case ThermalFacade => ["areas", "linear", "workers", "extras"]
    case Painting => ["workers"]
  }

  /** The difference from the saved price above which the update button shows. */
  function DirtyThreshold(p: Page): real {
    if p == ThermalFacade then 0.000000001 else 0.0001
  }

  /** Whether a catalog card's save is attempted only for a positive price. */
  predicate GuardsCatalogSave(p: Page) { p != ThermalFacade }

  /** Whether an extra whose quantity is not positive is flagged. */
  predicate FlagsZeroQty(p: Page) { p == Drywall || p == ThermalFacade }

  /** Whether the extras of the page carry a catalog key (and an update button). */
  predicate ExtrasHaveKeys(p: Page) { p != Painting }
}
