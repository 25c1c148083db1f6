/**
 * The coin catalog: an ordered table of coins (a Python dict keeps insertion
 * order) and the first-match search over it by name or by name and symbol.
 */
module Catalog {
  import opened Wrappers
  import opened Text

  /** `price_trend`; `OtherTrend` stands for a missing or unrecognised value. */
  datatype Trend = Rising | Stable | Falling | OtherTrend

  /** `market_cap` and `energy_use`; `OtherLevel` stands for a missing or unrecognised value. */
  datatype Level = Low | Medium | High | OtherLevel

  /** The attributes of one coin; `fraction` is the `sustainability_score` in [0, 1], absent when missing. */
  datatype Info = Info(symbol: string, trend: Trend, cap: Level, energy: Level, fraction: Option<real>)

  datatype Entry = Entry(name: string, info: Info)

  type Catalog = seq<Entry>

  /** Dictionary keys are unique. */
  predicate NamesDistinct(catalog: Catalog) {
    forall i, j :: 0 <= i < j < |catalog| ==> catalog[i].name != catalog[j].name
  }

  /** Every sustainability fraction present lies in [0, 1]. */
  predicate FractionsInRange(catalog: Catalog) {
    forall i :: 0 <= i < |catalog| ==> FractionInRange(catalog[i].info)
  }

  predicate FractionInRange(info: Info) {
    info.fraction.Some? ==> 0.0 <= info.fraction.value <= 1.0
  }

  /** The five coins of `crypto_db`, in insertion order. */
  const ReferenceCatalog: Catalog := [
    Entry("Bitcoin", Info("BTC", Rising, High, High, Some(0.3))),
    Entry("Ethereum", Info("ETH", Stable, High, Medium, Some(0.6))),
    Entry("Cardano", Info("ADA", Rising, Medium, Low, Some(0.8))),
    Entry("Polkadot", Info("DOT", Falling, Medium, Low, Some(0.7))),
    Entry("Algorand", Info("ALGO", Stable, Low, Low, Some(0.9)))
  ]

  lemma ReferenceCatalogWellFormed()
    ensures NamesDistinct(ReferenceCatalog) && FractionsInRange(ReferenceCatalog)
  {
  }

  /** The lower-cased names and symbols of the reference catalog, as the coin search compares them. */
  lemma ReferenceLowered()
    ensures Lower(ReferenceCatalog[0].name) == "bitcoin" && Lower(ReferenceCatalog[0].info.symbol) == "btc"
    ensures Lower(ReferenceCatalog[1].name) == "ethereum" && Lower(ReferenceCatalog[1].info.symbol) == "eth"
    ensures Lower(ReferenceCatalog[2].name) == "cardano" && Lower(ReferenceCatalog[2].info.symbol) == "ada"
    ensures Lower(ReferenceCatalog[3].name) == "polkadot" && Lower(ReferenceCatalog[3].info.symbol) == "dot"
    ensures Lower(ReferenceCatalog[4].name) == "algorand" && Lower(ReferenceCatalog[4].info.symbol) == "algo"
  {
  }

  /** `crypto_db.get(name)`: the attributes stored under exactly this name. */
  function Lookup(catalog: Catalog, name: string): (r: Option<Info>)
    ensures r.None? <==> forall i :: 0 <= i < |catalog| ==> catalog[i].name != name
    ensures r.Some? ==> exists i :: 0 <= i < |catalog| && catalog[i] == Entry(name, r.value)
  {
    if catalog == [] then None
    else if catalog[0].name == name then Some(catalog[0].info)
    else
      var r := Lookup(catalog[1..], name);
      assert r.Some? ==> exists i :: 0 <= i < |catalog[1..]| && catalog[1..][i] == Entry(name, r.value);
      r
  }

  /** With unique names, the stored attributes are those of the one matching entry. */
  lemma LookupFindsEntry(catalog: Catalog, i: nat)
    requires NamesDistinct(catalog) && i < |catalog|
    ensures Lookup(catalog, catalog[i].name) == Some(catalog[i].info)
  {
  }

  /** Which catalog fields a query may mention to select a coin. */
  datatype MatchOn = NamesOnly | NamesAndSymbols

  /** The lower-cased query `q` contains the lower-cased name (or, if allowed, symbol) of `e`. */
  predicate Mentions(q: string, e: Entry, on: MatchOn) {
    Contains(q, Lower(e.name)) || (on == NamesAndSymbols && Contains(q, Lower(e.info.symbol)))
  }

  /**
   * The index of the first catalog entry that `q` mentions, or `|catalog|`
   * when there is none: a `for coin in crypto_db` loop that stops at the first hit.
   */
  function FirstMention(q: string, catalog: Catalog, on: MatchOn): (k: nat)
    ensures k <= |catalog|
    ensures forall j :: 0 <= j < k ==> !Mentions(q, catalog[j], on)
    ensures k < |catalog| ==> Mentions(q, catalog[k], on)
  {
    if catalog == [] then 0
    else if Mentions(q, catalog[0], on) then 0
    else 1 + FirstMention(q, catalog[1..], on)
  }

  /** Symbols can only make a coin be found earlier, never later. */
  lemma SymbolsOnlyWiden(q: string, catalog: Catalog)
    ensures FirstMention(q, catalog, NamesAndSymbols) <= FirstMention(q, catalog, NamesOnly)
  {
  }
}
