/**
 * The parts of the chat loop that consume the classifier and the catalog:
 * `explain_coin` and the coin-name extraction of the explain branch.
 */
module Advisor {
  import opened Wrappers
  import opened Text
  import opened Catalog
  import opened Scoring
  import opened Classifier

  /**
   * What `explain_coin` gives: the "no data" message, the coin's attributes
   * and both scores, or the `TypeError` raised when the report formats a
   * missing `sustainability_score` (`None`) with `.1f`.
   */
  datatype Explanation =
    | NoData(message: string)
    | CoinReport(name: string, info: Info, profitability: real, sustainability: real)
    | MissingScoreError(name: string)

  /** `explain_coin(coin_name)`: an exact, case-sensitive lookup of the name in the catalog. */
  function ExplainCoin(coinName: string, catalog: Catalog): (r: Explanation)
    ensures r.NoData? <==> forall i :: 0 <= i < |catalog| ==> catalog[i].name != coinName
    ensures r.NoData? ==> r.message == "I don't have data for " + coinName + "."
    ensures r.MissingScoreError? <==> Lookup(catalog, coinName).Some? && Lookup(catalog, coinName).value.fraction.None?
    ensures r.MissingScoreError? ==> r.name == coinName
    ensures r.CoinReport? ==> r.name == coinName && exists i :: 0 <= i < |catalog| && catalog[i] == Entry(coinName, r.info)
    ensures r.CoinReport? ==> r.info.fraction.Some?
    ensures r.CoinReport? ==>
      r.profitability == ProfitabilityScore(r.info) && r.sustainability == SustainabilityScore(r.info)
  {
    match Lookup(catalog, coinName)
    case None => NoData("I don't have data for " + coinName + ".")
    case Some(info) =>
      if info.fraction.None? then MissingScoreError(coinName)
      else CoinReport(coinName, info, ProfitabilityScore(info), SustainabilityScore(info))
  }

  /**
   * The explain branch of the chat loop: the first catalog coin, in catalog
   * order, whose lower-cased name occurs in the lower-cased input. Symbols are
   * not consulted.
   */
  method FindNamedCoin(user: string, catalog: Catalog) returns (found: Option<string>)
    ensures var k := FirstMention(Lower(user), catalog, NamesOnly);
      found == if k < |catalog| then Some(catalog[k].name) else None
  {
    var q := Lower(user);
    var i := 0;
    while i < |catalog|
      invariant 0 <= i <= |catalog|
      invariant forall j :: 0 <= j < i ==> !Mentions(q, catalog[j], NamesOnly)
    {
      if Contains(q, Lower(catalog[i].name)) {
        found := Some(catalog[i].name);
        return;
      }
      i := i + 1;
    }
    found := None;
  }

  /** Every entry of `catalog` has a sustainability fraction. */
  predicate FractionsPresent(catalog: Catalog) {
    forall i :: 0 <= i < |catalog| ==> catalog[i].info.fraction.Some?
  }

  /**
   * A coin the classifier names is always in the catalog, so explaining it
   * never reports missing data; when every entry has its fraction, it is a
   * full report.
   */
  lemma CoinQueryHasData(userQuery: string, catalog: Catalog)
    requires InterpretIntent(userQuery, catalog).CoinQuery?
    ensures !ExplainCoin(InterpretIntent(userQuery, catalog).coin, catalog).NoData?
    ensures FractionsPresent(catalog) ==> ExplainCoin(InterpretIntent(userQuery, catalog).coin, catalog).CoinReport?
  {
  }

  /** The same holds for the coin the explain branch finds by name. */
  lemma NamedCoinHasData(q: string, catalog: Catalog)
    requires FirstMention(q, catalog, NamesOnly) < |catalog|
    ensures !ExplainCoin(catalog[FirstMention(q, catalog, NamesOnly)].name, catalog).NoData?
    ensures FractionsPresent(catalog) ==> ExplainCoin(catalog[FirstMention(q, catalog, NamesOnly)].name, catalog).CoinReport?
  {
  }

  /** An entry without a sustainability fraction makes the report fail rather than show a score. */
  lemma ExplainMissingScore()
    ensures ExplainCoin("Dogecoin", [Entry("Dogecoin", Info("DOGE", Rising, High, Low, None))]) == MissingScoreError("Dogecoin")
  {
  }

  /** Explaining Cardano reports profitability 3 + 1 + 1.2 = 5.2 and sustainability 8 + 2 = 10. */
  lemma ExplainCardano()
    ensures ExplainCoin("Cardano", ReferenceCatalog) == CoinReport("Cardano", ReferenceCatalog[2].info, 5.2, 10.0)
  {
    ReferenceCatalogWellFormed();
    LookupFindsEntry(ReferenceCatalog, 2);
  }

  /** A coin outside the catalog gets the "no data" message. */
  lemma ExplainUnknownCoin()
    ensures ExplainCoin("Dogecoin", ReferenceCatalog) == NoData("I don't have data for Dogecoin.")
  {
    assert forall i :: 0 <= i < |ReferenceCatalog| ==> ReferenceCatalog[i].name != "Dogecoin";
  }

  /** The lookup is exact: a lower-cased name is not found. */
  lemma ExplainIsCaseSensitive()
    ensures ExplainCoin("cardano", ReferenceCatalog).NoData?
  {
    assert forall i :: 0 <= i < |ReferenceCatalog| ==> ReferenceCatalog[i].name != "cardano";
  }

  /** The letters of "explain ada" that the example below relies on. */
  lemma ExplainAdaLetters(q: string)
    requires q == "explain ada"
    ensures forall c :: c in "sgcrovtbwh" ==> c !in q
    ensures OccursAt(q, "explain", 0) && OccursAt(q, "ada", 8)
  {
  }

  /** A query that starts with "explain" and lacks these letters is an explain request. */
  lemma ExplainAdaIsExplain(q: string)
    requires forall c :: c in "sgcrovtbw" ==> c !in q
    requires OccursAt(q, "explain", 0)
    ensures FirstRule(q, Rules) == 4
  {
    // One letter per keyword of the first four lists that the query lacks:
    //   sustainab s, green g, eco c, energy r, low energy o, environment v;
    //   trend t, trending t, rising r, buy for long b, long-term o, growth g;
    //   compare c, vs v, which is better w, best of b;
    //   list s, show s, available v, what coins w.
    RulesMissed(q, Rules[..4], ["sgcrov", "ttrbog", "cvwb", "ssvw"]);
    assert forall j :: 0 <= j < 4 ==> Rules[..4][j] == Rules[j];
    OccursAtContained(q, "explain", 0);
    assert Rules[4].words[0] == "explain";
  }

  /** A query that lacks these letters (one from each reference coin name) names no reference coin by name. */
  lemma ExplainAdaNamesNoCoin(q: string)
    requires forall c :: c in "btcog" ==> c !in q
    ensures FirstMention(q, ReferenceCatalog, NamesOnly) == |ReferenceCatalog|
  {
    ReferenceLowered();
    MissingCharNotContained(q, "bitcoin", 'b');
    MissingCharNotContained(q, "ethereum", 't');
    MissingCharNotContained(q, "cardano", 'c');
    MissingCharNotContained(q, "polkadot", 'o');
    MissingCharNotContained(q, "algorand", 'g');
  }

  /**
   * "explain ADA" is an explain request; the explain branch finds no coin in
   * it, because it matches names only, although the symbol fallback of the
   * classifier would have found Cardano.
   */
  lemma ExplainBranchIgnoresSymbols()
    ensures InterpretIntent("explain ADA", ReferenceCatalog) == Explain
    ensures FirstMention(Lower("explain ADA"), ReferenceCatalog, NamesOnly) == |ReferenceCatalog|
    ensures FirstMention(Lower("explain ADA"), ReferenceCatalog, NamesAndSymbols) == 2
  {
    var q := "explain ada";
    assert Lower("explain ADA") == q;
    ExplainAdaLetters(q);
    ExplainAdaIsExplain(q);
    ExplainAdaNamesNoCoin(q);
    AdaNamesCardano(q, 8);
  }
}
