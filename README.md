# CryptoBuddy, modelled in Dafny

CryptoBuddy is a small rule-based chatbot that gives advice about a fixed
table of five cryptocurrencies. The logic behind its replies is modelled
here, together with the properties that logic guarantees:

- **Catalog** (`catalog.dfy`): the coin table `crypto_db`. A Python dict
  keeps insertion order, so the table is an ordered sequence of
  `Entry(name, Info(...))`. It covers these operations:
  - an exact, case-sensitive lookup (`crypto_db.get`);
  - the first-match search for a coin mentioned in a query, either by
    name only or by name or symbol.
- **Scoring** (`scoring.dfy`): `score_profitability` and
  `score_sustainability`. Attribute values that are missing or not
  recognised are the `OtherTrend` / `OtherLevel` variants, and a missing
  sustainability fraction is `None`. Each of these adds 0, exactly as the
  `.get(key, default)` defaults do.
- **Ranking** (`ranking.dfy`): `recommend_most_profitable` and
  `recommend_most_sustainable`. They score every coin in table order and
  sort with Python's stable `sorted(..., reverse=True)`. The model's sort
  is an insertion sort that puts each item ahead of equal scores further
  down the input. Its contract is that the result is descending, is a
  permutation, and keeps the items of each score in input order. A lemma
  shows that these three facts determine the result uniquely. Taking
  `best[0]` of an empty ranking raises in the source; the model returns
  `Failure(EmptyCatalog)` instead.
- **Classifier** (`classifier.dfy`): `interpret_intent`. The query is
  lower-cased and the six keyword lists are tried in priority order. A
  list fires when one of its words is a substring of the query. If no list
  fires, the fallback is the first coin, in table order, whose lower-cased
  name or symbol occurs in the query.
- **Advisor** (`advisor.dfy`):
  - `explain_coin`: the "no data" reply, the report of a known coin with
    its two scores, and the error raised when that coin has no
    sustainability score to format;
  - the coin-name search of the chat loop's explain branch. It is a loop
    with an early exit, modelled as a method, and it matches names only,
    never symbols.
- **Text** (`text.dfy`): `str.lower()` and the substring test `part in
  text`.

All numbers are exact reals. `3 / 10 * 1.5` is `0.45` here, with no
binary floating-point rounding.

## Model

| member | source | states |
|---|---|---|
| Text.Lower | cryptobuddy.py:82 | lower-casing keeps the length; each character is lower-cased in place and no upper-case letter remains |
| Text.Contains | cryptobuddy.py:98 | the definition of `part in text` as a scan from the left: `text` starts with `part`, or its remainder after the first character contains it; Text.ContainsIffOccurs states what it means |
| Text.ContainsAny | cryptobuddy.py:84 | the definition of `any(w in q for w in words)` over the list in order; Text.ContainsAnyIffSome states what it means |
| Text.LowerIdempotent | cryptobuddy.py:82 | lower-casing an already lower-cased string changes nothing |
| Text.ContainsIffOccurs | cryptobuddy.py:84 | the substring scan `w in q` succeeds exactly when `w` occurs in `q` at some index |
| Text.ContainsAnyIffSome | cryptobuddy.py:84 | `any(w in q for w in words)` holds exactly when some word of the list is a substring of `q` |
| Catalog.ReferenceCatalog | cryptobuddy.py:6-42 | the five coins of `crypto_db` in insertion order, with each one's symbol, trend, market cap, energy use and sustainability fraction; Catalog.ReferenceCatalogWellFormed states its invariants |
| Catalog.ReferenceCatalogWellFormed | cryptobuddy.py:6-42 | the five reference coins have distinct names and every sustainability fraction lies in [0, 1] |
| Catalog.Lookup | cryptobuddy.py:117 | `crypto_db.get(name)` is None exactly when no entry has that name; otherwise it is the info of an entry with that exact name |
| Catalog.LookupFindsEntry | cryptobuddy.py:117 | with distinct names, looking up the name of entry i returns entry i's info |
| Catalog.FirstMention | cryptobuddy.py:97-99 | the index of the first coin in table order whose lower-cased name (or symbol, when symbols count) occurs in the query; no earlier coin is mentioned; the table length when none is |
| Catalog.SymbolsOnlyWiden | cryptobuddy.py:97-99 | the classifier's name-or-symbol search (97-99) never finds a later coin than the names-only search of the explain branch (206-210): counting symbols can only move the first mention earlier |
| Scoring.ProfitabilityScore | cryptobuddy.py:45-66 | the definition: trend term (rising 3, stable 1, falling -2, other 0) plus market-cap term (high 2, medium 1, low -1, other 0) plus 1.5 times the fraction, 0 when missing; its properties are Scoring.UnknownAttributesNeutral, Scoring.ProfitabilityBounds and Scoring.ProfitabilityOrdering |
| Scoring.SustainabilityScore | cryptobuddy.py:68-78 | the definition: 10 times the fraction, 0 when missing, plus the energy term (low 2, medium 0, high -2, other 0); its properties are Scoring.UnknownAttributesNeutral and Scoring.SustainabilityBounds |
| Scoring.UnknownAttributesNeutral | cryptobuddy.py:45-78 | a missing or unrecognised trend, cap or energy value, or a missing fraction, contributes 0 to the score |
| Scoring.ProfitabilityBounds | cryptobuddy.py:45-66 | with a fraction in [0, 1], the profitability score lies in [-3, 6.5] |
| Scoring.SustainabilityBounds | cryptobuddy.py:68-78 | with a fraction in [0, 1], the sustainability score lies in [-2, 12] |
| Scoring.ProfitabilityOrdering | cryptobuddy.py:50-62 | with everything else equal, rising beats stable, stable beats an unknown trend and an unknown trend beats falling; high cap beats medium, medium beats unknown and unknown beats low |
| Scoring.CardanoScores | cryptobuddy.py:21-78 | Cardano scores 3 + 1 + 0.8 * 1.5 = 5.2 for profitability and 8 + 2 = 10 for sustainability |
| Ranking.Scores | cryptobuddy.py:104 | one (coin, score) item per catalog entry, in catalog order, carrying that entry's name and score |
| Ranking.Insert | cryptobuddy.py:106 | inserting into a descending ranking keeps it descending, adds exactly that item, and puts it ahead of the items with its own score |
| Ranking.SortDesc | cryptobuddy.py:106 | the sorted ranking is descending by score, is a permutation of its input, and lists the items of each score in input order |
| Ranking.StableSortUnique | cryptobuddy.py:106 | any descending sequence that lists the items of each score as the input does equals the model's sort, so the sort is exactly the stable `sorted(reverse=True)` |
| Ranking.SameTiesSameOrder | cryptobuddy.py:106 | two descending sequences with the same items in the same order at every score are equal |
| Ranking.Rank | cryptobuddy.py:104-106 | the `sorted(...)` ranking of a catalog has one item per coin, is descending by score, is a permutation of the scored catalog and keeps equal scores in catalog order |
| Ranking.Recommend | cryptobuddy.py:103-114 | on an empty catalog `best[0]` fails; otherwise the ranking is the stable descending sort of the scores, the top pick is its first item, and no coin scores above the top score |
| Ranking.TopIsFirstBest | cryptobuddy.py:106-107 | the top pick is the earliest catalog coin among those with the highest score |
| Ranking.EachCoinOnce | cryptobuddy.py:104-106 | with distinct names, the ranking has one item per coin and each coin appears exactly once with its own score |
| Ranking.ReferenceTopProfitability | cryptobuddy.py:103-108 | on the reference catalog the most profitable coin is Bitcoin, scoring 5.45 |
| Ranking.ReferenceTopSustainability | cryptobuddy.py:110-114 | on the reference catalog the most sustainable coin is Algorand, scoring 11 |
| Classifier.Rules | cryptobuddy.py:84-95 | the six keyword lists, word for word, with the intent each selects, in the order they are tested |
| Classifier.FirstRule | cryptobuddy.py:84-95 | the index of the first keyword list with a word in the query; no earlier list has one; the number of lists when none does |
| Classifier.InterpretIntent | cryptobuddy.py:81-100 | a coin query always names a catalog coin; the answer is `unknown` exactly when no keyword of any list and no coin name or symbol occurs in the lower-cased query |
| Classifier.FirstMatchingRuleWins | cryptobuddy.py:84-95 | when list k is the first with a word in the lower-cased query, the intent is list k's intent |
| Classifier.FirstMentionedCoinWins | cryptobuddy.py:96-99 | with no keyword present, the intent is a query about the first coin mentioned by name or symbol |
| Classifier.CaseInsensitive | cryptobuddy.py:82 | a query and its lower-cased form get the same intent |
| Classifier.SustainabilityBeforeExplain | cryptobuddy.py:84-93 | "why is Cardano green" is classified as sustainability, not explain, because the sustainability list is tested first |
| Classifier.SustainableBeforeExplain | cryptobuddy.py:84-93 | "explain why Cardano is sustainable" is classified as sustainability |
| Classifier.SymbolFallback | cryptobuddy.py:96-99 | "tell me about ADA" has no keyword and is a query about Cardano, found by its symbol |
| Classifier.GibberishIsUnknown | cryptobuddy.py:96-100 | "asdkjhasd" matches no keyword and no coin and is unknown |
| Advisor.ExplainCoin | cryptobuddy.py:116-126 | "I don't have data for <name>." exactly when no entry has that exact name; the `TypeError` of formatting a missing `sustainability_score` with `.1f` exactly when the entry lacks one; otherwise a report of that entry's info with its profitability and sustainability scores |
| Advisor.FindNamedCoin | cryptobuddy.py:206-210 | the loop finds the first coin in catalog order whose lower-cased name occurs in the lower-cased input, or nothing when none does |
| Advisor.CoinQueryHasData | cryptobuddy.py:177-179 | a coin named by the classifier always has data, so its explanation is never the "no data" reply; when every entry has a sustainability fraction it is a full report |
| Advisor.NamedCoinHasData | cryptobuddy.py:211-212 | a coin found by the explain branch always has data; when every entry has a sustainability fraction its explanation is a full report |
| Advisor.ExplainMissingScore | cryptobuddy.py:118-125 | explaining a coin whose entry has no `sustainability_score` fails with the formatting error instead of giving a report |
| Advisor.ExplainCardano | cryptobuddy.py:116-126 | explaining Cardano reports profitability 5.2 and sustainability 10 |
| Advisor.ExplainUnknownCoin | cryptobuddy.py:117-119 | explaining "Dogecoin" gives "I don't have data for Dogecoin." |
| Advisor.ExplainIsCaseSensitive | cryptobuddy.py:117-119 | explaining "cardano" in lower case gives the "no data" reply |
| Advisor.ExplainBranchIgnoresSymbols | cryptobuddy.py:204-210 | "explain ADA" is an explain request whose coin search finds nothing, although the classifier's fallback would have found Cardano by its symbol |

## Left out

- The chat loop's console I/O is not modelled: reading input, EOF and
  Ctrl-C, the empty-input prompt and the dispatch of each intent to a
  printed reply (cryptobuddy.py:148-218). Only the computations those
  replies are built from are modelled.
- `run_demo`, the command-line switch and the `WELCOME` / `DISCLAIMER`
  texts are not modelled. They are fixed console output.
- Advisor.ExplainCoin: it returns a structured report (name, attributes,
  both scores) instead of the `textwrap.dedent` text. The `.1f` / `.2f`
  rounding of that text is not modelled. A missing `sustainability_score`
  makes that formatting raise `TypeError` (cryptobuddy.py:125); that
  failure is modelled, as `MissingScoreError`.
- Scores are exact reals, not IEEE doubles. Binary rounding (such as
  `0.3 * 1.5` not being exactly `0.45`) is not modelled. None of the
  reference catalog's rankings depends on it, because its scores differ
  by far more than rounding.
- Text.Lower lower-cases ASCII letters only. Python's Unicode case mapping
  of other characters is not modelled.
- `if not info` is also true for an empty attribute dict, but an entry
  here always carries its attributes, so that case does not arise.
- An entry without a `symbol` makes the classifier's fallback raise a
  `KeyError`, but only when that coin's lower-cased name does not occur in
  the query: the `or` at cryptobuddy.py:98 tests the name first. It is not
  modelled because every entry here has a symbol.
- `if found:` treats a coin named by the empty string as not found.
  Advisor.FindNamedCoin returns it as found. No catalog here has such a
  name.
- `crypto_db` is a global in the source. Here it is the `catalog`
  parameter, and `ReferenceCatalog` is its value. Distinct keys are
  automatic for a Python dict; here `NamesDistinct` states them, and only
  the members that need it require it.
- The comment at cryptobuddy.py:83 lists a `help` intent, but no code path
  returns one, so the model has none. `interpret_intent` returns a bare
  `explain`, and the chat loop searches for the coin separately
  (cryptobuddy.py:206-210).
- `scripts/scripts.js` (the web page's script) is not part of this model.
