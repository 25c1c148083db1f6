/** The two scoring rubrics of the advisor, over one coin's attributes. */
module Scoring {
  import opened Wrappers
  import opened Catalog

  /** Contribution of `price_trend` to profitability. */
  function TrendTerm(t: Trend): (term: int) {
    match t
    case Rising => 3
    case Stable => 1
    case Falling => -2
    case OtherTrend => 0
  }

  /** Contribution of `market_cap` to profitability. */
  function CapTerm(c: Level): (term: int) {
    match c
    case High => 2
    case Medium => 1
    case Low => -1
    case OtherLevel => 0
  }

  /** Contribution of `energy_use` to sustainability. */
  function EnergyTerm(e: Level): (term: int) {
    match e
    case Low => 2
    case Medium => 0
    case High => -2
    case OtherLevel => 0
  }

  /** `info.get("sustainability_score", 0)`. */
  function Fraction(info: Info): (f: real) {
    match info.fraction
    case Some(f) => f
    case None => 0.0
  }

  /** `score_profitability`: trend term + market-cap term + 1.5 times the fraction. */
  function ProfitabilityScore(info: Info): (score: real) {
    TrendTerm(info.trend) as real + CapTerm(info.cap) as real + Fraction(info) * 1.5
  }

  /** `score_sustainability`: 10 times the fraction + energy term. */
  function SustainabilityScore(info: Info): (score: real) {
    Fraction(info) * 10.0 + EnergyTerm(info.energy) as real
  }

  /** An unrecognised or missing attribute is neutral: the score is what the other attributes give. */
  lemma UnknownAttributesNeutral(info: Info)
    ensures ProfitabilityScore(info.(trend := OtherTrend)) == ProfitabilityScore(info) - TrendTerm(info.trend) as real
    ensures ProfitabilityScore(info.(cap := OtherLevel)) == ProfitabilityScore(info) - CapTerm(info.cap) as real
    ensures ProfitabilityScore(info.(fraction := None)) == ProfitabilityScore(info) - Fraction(info) * 1.5
    ensures SustainabilityScore(info.(energy := OtherLevel)) == SustainabilityScore(info) - EnergyTerm(info.energy) as real
    ensures SustainabilityScore(info.(fraction := None)) == SustainabilityScore(info) - Fraction(info) * 10.0
    ensures ProfitabilityScore(Info(info.symbol, OtherTrend, OtherLevel, OtherLevel, None)) == 0.0
    ensures SustainabilityScore(Info(info.symbol, OtherTrend, OtherLevel, OtherLevel, None)) == 0.0
  {
  }

  /** With the fraction in [0, 1], profitability lies in [-3, 6.5]. */
  lemma ProfitabilityBounds(info: Info)
    requires FractionInRange(info)
    ensures -3.0 <= ProfitabilityScore(info) <= 6.5
  {
  }

  /** With the fraction in [0, 1], sustainability lies in [-2, 12]. */
  lemma SustainabilityBounds(info: Info)
    requires FractionInRange(info)
    ensures -2.0 <= SustainabilityScore(info) <= 12.0
  {
  }

  /** A better trend or a larger market cap strictly raises profitability; an unknown value ranks just above the worst one. */
  lemma ProfitabilityOrdering(info: Info)
    ensures ProfitabilityScore(info.(trend := Rising)) > ProfitabilityScore(info.(trend := Stable))
              > ProfitabilityScore(info.(trend := OtherTrend)) > ProfitabilityScore(info.(trend := Falling))
    ensures ProfitabilityScore(info.(cap := High)) > ProfitabilityScore(info.(cap := Medium))
              > ProfitabilityScore(info.(cap := OtherLevel)) > ProfitabilityScore(info.(cap := Low))
  {
  }

  /** Cardano: profitability 3 + 1 + 1.2 = 5.2, sustainability 8 + 2 = 10. */
  lemma CardanoScores()
    ensures ReferenceCatalog[2].name == "Cardano"
    ensures ProfitabilityScore(ReferenceCatalog[2].info) == 5.2
    ensures SustainabilityScore(ReferenceCatalog[2].info) == 10.0
  {
  }
}
