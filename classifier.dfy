/**
 * `interpret_intent`: lower-case the query, test six keyword lists in a fixed
 * priority order (any substring hit wins), then fall back to the first
 * catalog coin whose lower-cased name or symbol occurs in the query.
 */
module Classifier {
  import opened Text
  import opened Catalog

  datatype Intent =
    | Sustainability
    | Profitability
    | Compare
    | List
    | Explain
    | Quit
    | CoinQuery(coin: string)
    | Unknown

  /** One keyword list and the intent it selects. */
  datatype Rule = Rule(words: seq<string>, intent: Intent)

  /** The keyword lists, in the order they are tested. */
  const Rules: seq<Rule> := [
    Rule(["sustainab", "green", "eco", "energy", "low energy", "environment"], Sustainability),
    Rule(["trend", "trending", "rising", "buy for long", "long-term", "growth"], Profitability),
    Rule(["compare", "vs", "which is better", "best of"], Compare),
    Rule(["list", "show", "available", "what coins"], List),
    Rule(["explain", "how", "why"], Explain),
    Rule(["quit", "exit", "bye"], Quit)
  ]

  /** The index of the first rule with a keyword in `q`, or `|rules|` when none has one. */
  function FirstRule(q: string, rules: seq<Rule>): (k: nat)
    ensures k <= |rules|
    ensures forall j :: 0 <= j < k ==> !ContainsAny(q, rules[j].words)
    ensures k < |rules| ==> ContainsAny(q, rules[k].words)
  {
    if rules == [] then 0
    else if ContainsAny(q, rules[0].words) then 0
    else 1 + FirstRule(q, rules[1..])
  }

  /** `interpret_intent(user_query)` against `catalog`. */
  function InterpretIntent(userQuery: string, catalog: Catalog): (r: Intent)
    ensures r.CoinQuery? ==> exists i :: 0 <= i < |catalog| && catalog[i].name == r.coin
    ensures r == Unknown <==>
      (forall k :: 0 <= k < |Rules| ==> !ContainsAny(Lower(userQuery), Rules[k].words)) &&
      (forall i :: 0 <= i < |catalog| ==> !Mentions(Lower(userQuery), catalog[i], NamesAndSymbols))
  {
    var q := Lower(userQuery);
    var k := FirstRule(q, Rules);
    if k < |Rules| then Rules[k].intent
    else
      var c := FirstMention(q, catalog, NamesAndSymbols);
      if c < |catalog| then CoinQuery(catalog[c].name) else Unknown
  }

  /**
   * Priority: when rule `k` is the first whose keywords occur in the
   * lower-cased query, its intent is the answer and later rules are never
   * consulted.
   */
  lemma FirstMatchingRuleWins(userQuery: string, catalog: Catalog, k: nat)
    requires k < |Rules| && ContainsAny(Lower(userQuery), Rules[k].words)
    requires forall j :: 0 <= j < k ==> !ContainsAny(Lower(userQuery), Rules[j].words)
    ensures InterpretIntent(userQuery, catalog) == Rules[k].intent
  {
  }

  /**
   * Fallback: when no keyword occurs, the answer is a query about the first
   * catalog coin whose lower-cased name or symbol occurs in the query.
   */
  lemma FirstMentionedCoinWins(userQuery: string, catalog: Catalog, c: nat)
    requires forall k :: 0 <= k < |Rules| ==> !ContainsAny(Lower(userQuery), Rules[k].words)
    requires c < |catalog| && Mentions(Lower(userQuery), catalog[c], NamesAndSymbols)
    requires forall j :: 0 <= j < c ==> !Mentions(Lower(userQuery), catalog[j], NamesAndSymbols)
    ensures InterpretIntent(userQuery, catalog) == CoinQuery(catalog[c].name)
  {
  }

  /** Classification ignores case: a query and its lower-cased form get the same intent. */
  lemma CaseInsensitive(userQuery: string, catalog: Catalog)
    ensures InterpretIntent(Lower(userQuery), catalog) == InterpretIntent(userQuery, catalog)
  {
    LowerIdempotent(userQuery);
  }

  /** Where "green" sits in the first example query below. */
  lemma GreenAt(q: string)
    requires q == "why is cardano green"
    ensures OccursAt(q, "green", 15)
  {
  }

  /** Where "sustainab" sits in the second example query below. */
  lemma SustainabAt(q: string)
    requires q == "explain why cardano is sustainable"
    ensures OccursAt(q, "sustainab", 23)
  {
  }

  /** "why is Cardano green" asks about sustainability, not for an explanation: the green list is tested first. */
  lemma SustainabilityBeforeExplain()
    ensures InterpretIntent("why is Cardano green", ReferenceCatalog) == Sustainability
  {
    var q := "why is cardano green";
    assert Lower("why is Cardano green") == q;
    GreenAt(q);
    OccursAtContained(q, Rules[0].words[1], 15);
  }

  /** "explain why Cardano is sustainable" is a sustainability question for the same reason. */
  lemma SustainableBeforeExplain()
    ensures InterpretIntent("explain why Cardano is sustainable", ReferenceCatalog) == Sustainability
  {
    var q := "explain why cardano is sustainable";
    assert Lower("explain why Cardano is sustainable") == q;
    SustainabAt(q);
    OccursAtContained(q, Rules[0].words[0], 23);
  }

  /**
   * No rule fires when, for every word of every rule, `missing` names one of
   * the word's characters that the query lacks.
   */
  lemma {:induction false} RulesMissed(q: string, rules: seq<Rule>, missing: seq<string>)
    requires |missing| == |rules|
    requires forall k :: 0 <= k < |rules| ==> |missing[k]| == |rules[k].words|
    requires forall k, j :: 0 <= k < |rules| && 0 <= j < |missing[k]| ==>
      missing[k][j] in rules[k].words[j] && missing[k][j] !in q
    ensures FirstRule(q, rules) == |rules|
  {
    if rules != [] {
      NoneContained(q, rules[0].words, missing[0]);
      RulesMissed(q, rules[1..], missing[1..]);
    }
  }

  /** "tell me about ada" has "ada" at 14 and lacks the letters that the next lemma shows cover every keyword. */
  lemma TellMeAboutAdaLetters(q: string)
    requires q == "tell me about ada"
    ensures forall c :: c in "sgcnwvryixhq" ==> c !in q
    ensures OccursAt(q, "ada", 14)
  {
  }

  /**
   * For the j-th word of list k, `missing[k][j]` is a letter of that word and
   * one of the letters in `absent`.
   */
  predicate KeywordsCovered(absent: string, missing: seq<string>) {
    && |missing| == |Rules|
    && (forall k :: 0 <= k < |Rules| ==> |missing[k]| == |Rules[k].words|)
    && (forall k, j :: 0 <= k < |Rules| && 0 <= j < |missing[k]| ==>
          missing[k][j] in Rules[k].words[j] && missing[k][j] in absent)
  }

  /** A query that lacks every letter of `absent` has no keyword when those letters cover every keyword. */
  lemma NoKeyword(q: string, absent: string, missing: seq<string>)
    requires forall c :: c in absent ==> c !in q
    requires KeywordsCovered(absent, missing)
    ensures FirstRule(q, Rules) == |Rules|
  {
    RulesMissed(q, Rules, missing);
  }

  /**
   * One letter per keyword, all among "sgcnwvryixhq":
   *   sustainab s, green g, eco c, energy n, low energy w, environment v;
   *   trend r, trending r, rising r, buy for long y, long-term n, growth g;
   *   compare c, vs v, which is better w, best of s;
   *   list i, show s, available v, what coins w;
   *   explain x, how h, why w;
   *   quit q, exit x, bye y.
   */
  lemma TellMeAboutAdaCover()
    ensures KeywordsCovered("sgcnwvryixhq", ["sgcnwv", "rrryng", "cvws", "isvw", "xhw", "qxy"])
  {
  }

  /** A query with "ada" at `i` and with neither 'c' nor 'h' names Cardano by its symbol and no earlier coin. */
  lemma AdaNamesCardano(q: string, i: int)
    requires 'c' !in q && 'h' !in q && OccursAt(q, "ada", i)
    ensures FirstMention(q, ReferenceCatalog, NamesAndSymbols) == 2
  {
    ReferenceLowered();
    var c := ReferenceCatalog;
    assert !Mentions(q, c[0], NamesAndSymbols) by {
      MissingCharNotContained(q, "bitcoin", 'c');
      MissingCharNotContained(q, "btc", 'c');
    }
    assert !Mentions(q, c[1], NamesAndSymbols) by {
      MissingCharNotContained(q, "ethereum", 'h');
      MissingCharNotContained(q, "eth", 'h');
    }
    assert Mentions(q, c[2], NamesAndSymbols) by {
      OccursAtContained(q, "ada", i);
    }
  }

  /** "tell me about ADA" has no keyword and names Cardano by its symbol. */
  lemma SymbolFallback()
    ensures InterpretIntent("tell me about ADA", ReferenceCatalog) == CoinQuery("Cardano")
  {
    var q := "tell me about ada";
    assert Lower("tell me about ADA") == q;
    TellMeAboutAdaLetters(q);
    TellMeAboutAdaCover();
    NoKeyword(q, "sgcnwvryixhq", ["sgcnwv", "rrryng", "cvws", "isvw", "xhw", "qxy"]);
    AdaNamesCardano(q, 14);
  }

  /** "ada" does not occur in "asdkjhasd": its only 'a's are followed by 's'. */
  lemma AdaNotInGibberish(q: string)
    requires q == "asdkjhasd"
    ensures !Contains(q, "ada")
  {
    ContainsIffOccurs(q, "ada");
    forall i | 0 <= i <= |q| - 3 ensures !OccursAt(q, "ada", i) {
      assert q[i..i + 3][0] == q[i] && q[i..i + 3][2] == q[i + 2];
      assert q[i] == 'a' ==> i == 0 || i == 6;
    }
  }

  /**
   * "asdkjhasd" lacks these letters: the next lemma shows they cover every
   * keyword, and with 'p' they cover every coin name and symbol except "ada".
   */
  lemma GibberishLetters(q: string)
    requires q == "asdkjhasd"
    ensures forall c :: c in "ugeltrbcvwoqp" ==> c !in q
  {
  }

  /**
   * One letter per keyword, all among "ugeltrbcvwoqp":
   *   sustainab u, green g, eco e, energy e, low energy l, environment e;
   *   trend t, trending t, rising r, buy for long b, long-term l, growth g;
   *   compare c, vs v, which is better w, best of b;
   *   list l, show o, available v, what coins w;
   *   explain e, how o, why w;
   *   quit q, exit e, bye b.
   */
  lemma GibberishCover()
    ensures KeywordsCovered("ugeltrbcvwoqp", ["ugeele", "ttrblg", "cvwb", "lovw", "eow", "qeb"])
  {
  }

  /** A query that lacks "ada" and these letters (one from each other coin name and symbol) names no reference coin. */
  lemma GibberishNamesNoCoin(q: string)
    requires forall c :: c in "bceplo" ==> c !in q
    requires !Contains(q, "ada")
    ensures FirstMention(q, ReferenceCatalog, NamesAndSymbols) == |ReferenceCatalog|
  {
    ReferenceLowered();
    var c := ReferenceCatalog;
    assert !Mentions(q, c[0], NamesAndSymbols) by {
      MissingCharNotContained(q, "bitcoin", 'b');
      MissingCharNotContained(q, "btc", 'b');
    }
    assert !Mentions(q, c[1], NamesAndSymbols) by {
      MissingCharNotContained(q, "ethereum", 'e');
      MissingCharNotContained(q, "eth", 'e');
    }
    assert !Mentions(q, c[2], NamesAndSymbols) by {
      MissingCharNotContained(q, "cardano", 'c');
    }
    assert !Mentions(q, c[3], NamesAndSymbols) by {
      MissingCharNotContained(q, "polkadot", 'p');
      MissingCharNotContained(q, "dot", 'o');
    }
    assert !Mentions(q, c[4], NamesAndSymbols) by {
      MissingCharNotContained(q, "algorand", 'l');
      MissingCharNotContained(q, "algo", 'l');
    }
  }

  /** Gibberish matches nothing and is `unknown`. */
  lemma GibberishIsUnknown()
    ensures InterpretIntent("asdkjhasd", ReferenceCatalog) == Unknown
  {
    var q := "asdkjhasd";
    assert Lower(q) == q;
    GibberishLetters(q);
    AdaNotInGibberish(q);
    GibberishCover();
    NoKeyword(q, "ugeltrbcvwoqp", ["ugeele", "ttrblg", "cvwb", "lovw", "eow", "qeb"]);
    GibberishNamesNoCoin(q);
  }
}
