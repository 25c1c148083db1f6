/**
 * `recommend_most_profitable` and `recommend_most_sustainable`: score every
 * coin in catalog order, sort by score, highest first, with a stable sort
 * (Python's `sorted(..., reverse=True)` keeps equal scores in their original
 * order), and report the first entry as the top pick.
 */
module Ranking {
  import opened Wrappers
  import opened Catalog
  import opened Scoring

  datatype Rubric = ByProfitability | BySustainability

  /** One `(coin, score)` item of the ranking. */
  datatype Scored = Scored(name: string, score: real)

  function Score(rubric: Rubric, info: Info): (score: real) {
    match rubric
    case ByProfitability => ProfitabilityScore(info)
    case BySustainability => SustainabilityScore(info)
  }

  /** The dict comprehension `{coin: score(info) for coin, info in crypto_db.items()}`, in catalog order. */
  function Scores(catalog: Catalog, rubric: Rubric): (r: seq<Scored>)
    ensures |r| == |catalog|
    ensures forall i :: 0 <= i < |r| ==> r[i] == Scored(catalog[i].name, Score(rubric, catalog[i].info))
  {
    if catalog == [] then []
    else [Scored(catalog[0].name, Score(rubric, catalog[0].info))] + Scores(catalog[1..], rubric)
  }

  /** Scores never increase along `s`. */
  predicate SortedDesc(s: seq<Scored>) {
    forall i, j :: 0 <= i < j < |s| ==> s[i].score >= s[j].score
  }

  /** The items of `s` whose score is `v`, in their order in `s`. */
  function Tied(s: seq<Scored>, v: real): (tied: seq<Scored>) {
    if s == [] then []
    else (if s[0].score == v then [s[0]] else []) + Tied(s[1..], v)
  }

  /** Puts `x` into the descending sequence `s`, ahead of every item whose score equals its own. */
  function Insert(x: Scored, s: seq<Scored>): (r: seq<Scored>)
    requires SortedDesc(s)
    ensures SortedDesc(r)
    ensures multiset(r) == multiset(s) + multiset{x}
    ensures forall v :: Tied(r, v) == (if x.score == v then [x] else []) + Tied(s, v)
  {
    if s == [] || s[0].score <= x.score then
      var r := [x] + s;
      assert r[1..] == s;
      r
    else
      var rest := Insert(x, s[1..]);
      HeadDominates(x, s, rest);
      forall v ensures Tied([s[0]] + rest, v) == (if x.score == v then [x] else []) + Tied(s, v) {
        TiedAfterHead(x, s, rest, v);
      }
      [s[0]] + rest
  }

  /** The head of `s` outranks `x` and everything after it, so it may stay in front. */
  lemma HeadDominates(x: Scored, s: seq<Scored>, rest: seq<Scored>)
    requires SortedDesc(s) && s != [] && s[0].score > x.score
    requires SortedDesc(rest) && multiset(rest) == multiset(s[1..]) + multiset{x}
    ensures SortedDesc([s[0]] + rest)
    ensures multiset([s[0]] + rest) == multiset(s) + multiset{x}
  {
    assert s == [s[0]] + s[1..];
    forall j | 0 <= j < |rest| ensures s[0].score >= rest[j].score {
      assert rest[j] in multiset(rest);
      if rest[j] != x {
        var i :| 0 <= i < |s[1..]| && s[1..][i] == rest[j];
        assert s[i + 1] == rest[j];
      }
    }
  }

  /** Keeping the head of `s` in front keeps the items tied at `v` in order. */
  lemma TiedAfterHead(x: Scored, s: seq<Scored>, rest: seq<Scored>, v: real)
    requires s != [] && s[0].score > x.score
    requires Tied(rest, v) == (if x.score == v then [x] else []) + Tied(s[1..], v)
    ensures Tied([s[0]] + rest, v) == (if x.score == v then [x] else []) + Tied(s, v)
  {
    var r := [s[0]] + rest;
    var head := if s[0].score == v then [s[0]] else [];
    assert r[0] == s[0] && r[1..] == rest;
    assert Tied(r, v) == head + Tied(rest, v);
    assert Tied(s, v) == head + Tied(s[1..], v);
    if x.score == v {
      assert head == [];
    } else {
      assert Tied(rest, v) == Tied(s[1..], v);
    }
  }

  /**
   * The stable descending sort: insertion sort that inserts each item ahead
   * of the equal-scored items that follow it in the input.
   */
  function SortDesc(s: seq<Scored>): (r: seq<Scored>)
    ensures SortedDesc(r)
    ensures multiset(r) == multiset(s)
    ensures forall v :: Tied(r, v) == Tied(s, v)
  {
    if s == [] then []
    else
      assert s == [s[0]] + s[1..];
      Insert(s[0], SortDesc(s[1..]))
  }

  /** Every item tied at `v` is an item of `s` with score `v`. */
  lemma {:induction false} TiedItems(s: seq<Scored>, v: real)
    ensures forall x :: x in Tied(s, v) ==> x in s && x.score == v
  {
    if s != [] {
      TiedItems(s[1..], v);
      assert s == [s[0]] + s[1..];
    }
  }

  /** The head of `s` is among the items tied at its own score. */
  lemma HeadTied(s: seq<Scored>)
    requires s != []
    ensures s[0] in Tied(s, s[0].score)
  {
  }

  /** The head of a descending sequence has the highest score in it. */
  lemma HeadIsMax(s: seq<Scored>, x: Scored)
    requires SortedDesc(s) && x in s
    ensures s[0].score >= x.score
  {
    var i :| 0 <= i < |s| && s[i] == x;
  }

  /**
   * Two descending sequences that list the same items, in the same order, at
   * every score are the same sequence.
   */
  lemma {:induction false} SameTiesSameOrder(a: seq<Scored>, b: seq<Scored>)
    requires SortedDesc(a) && SortedDesc(b)
    requires forall v :: Tied(a, v) == Tied(b, v)
    ensures a == b
    decreases |a|
  {
    if a == [] || b == [] {
      if a != [] {
        var v := a[0].score;
        HeadTied(a);
        TiedItems(b, v);
      }
      if b != [] {
        var v := b[0].score;
        HeadTied(b);
        TiedItems(a, v);
      }
    } else {
      var m, n := a[0].score, b[0].score;
      TiedItems(a, n);
      TiedItems(b, m);
      assert Tied(b, n)[0] == b[0] && Tied(a, m)[0] == a[0];
      HeadIsMax(a, b[0]);
      HeadIsMax(b, a[0]);
      assert a[0] == b[0];
      forall v ensures Tied(a[1..], v) == Tied(b[1..], v) {
        var head := if a[0].score == v then [a[0]] else [];
        assert Tied(a, v) == head + Tied(a[1..], v);
        assert Tied(b, v) == head + Tied(b[1..], v);
        assert Tied(a[1..], v) == Tied(a, v)[|head|..] && Tied(b[1..], v) == Tied(b, v)[|head|..];
      }
      SameTiesSameOrder(a[1..], b[1..]);
      assert a == [a[0]] + a[1..] && b == [b[0]] + b[1..];
    }
  }

  /**
   * `SortDesc` is the only descending arrangement of `s` that keeps equal
   * scores in input order, so it is exactly what a stable sort with
   * `reverse=True` returns.
   */
  lemma StableSortUnique(s: seq<Scored>, r: seq<Scored>)
    requires SortedDesc(r)
    requires forall v :: Tied(r, v) == Tied(s, v)
    ensures r == SortDesc(s)
  {
    SameTiesSameOrder(r, SortDesc(s));
  }

  /** The full ranking of a catalog under one rubric. */
  function Rank(catalog: Catalog, rubric: Rubric): (ranking: seq<Scored>)
    ensures |ranking| == |catalog|
    ensures SortedDesc(ranking)
    ensures multiset(ranking) == multiset(Scores(catalog, rubric))
    ensures forall v :: Tied(ranking, v) == Tied(Scores(catalog, rubric), v)
  {
    var scores := Scores(catalog, rubric);
    var sorted := SortDesc(scores);
    assert |multiset(sorted)| == |multiset(scores)|;
    sorted
  }

  /** `(top_name, top_score, best)` as the recommenders return it. */
  datatype Recommendation = Recommendation(topName: string, topScore: real, ranking: seq<Scored>)

  /** `best[0]` on an empty ranking raises instead of returning a default. */
  datatype RankError = EmptyCatalog

  /** `recommend_most_profitable()` (ByProfitability) and `recommend_most_sustainable()` (BySustainability). */
  function Recommend(catalog: Catalog, rubric: Rubric): (r: Result<Recommendation, RankError>)
    ensures r.Failure? <==> |catalog| == 0
    ensures r.Success? ==> r.value.ranking == Rank(catalog, rubric)
    ensures r.Success? ==> r.value.ranking[0] == Scored(r.value.topName, r.value.topScore)
    ensures r.Success? ==> forall i :: 0 <= i < |catalog| ==> Score(rubric, catalog[i].info) <= r.value.topScore
  {
    var best := Rank(catalog, rubric);
    if |best| == 0 then
      assert |multiset(Scores(catalog, rubric))| == 0;
      Failure(EmptyCatalog)
    else
      forall i | 0 <= i < |catalog| ensures Score(rubric, catalog[i].info) <= best[0].score {
        var s := Scores(catalog, rubric);
        assert s[i] in multiset(best);
        var j :| 0 <= j < |best| && best[j] == s[i];
      }
      Success(Recommendation(best[0].name, best[0].score, best))
  }

  /** If `s[k]` is the first item with score `v`, it heads the items tied at `v`. */
  lemma {:induction false} TiedHead(s: seq<Scored>, v: real, k: nat)
    requires k < |s| && s[k].score == v
    requires forall i :: 0 <= i < k ==> s[i].score != v
    ensures Tied(s, v) != [] && Tied(s, v)[0] == s[k]
  {
    if k > 0 {
      TiedHead(s[1..], v, k - 1);
    }
  }

  /**
   * The top pick is the first coin in catalog order whose score is the
   * maximum: the highest score wins, and among equal highest scores the
   * earliest catalog entry does.
   */
  lemma TopIsFirstBest(catalog: Catalog, rubric: Rubric, k: nat)
    requires k < |catalog|
    requires forall i :: 0 <= i < |catalog| ==> Score(rubric, catalog[i].info) <= Score(rubric, catalog[k].info)
    requires forall i :: 0 <= i < k ==> Score(rubric, catalog[i].info) < Score(rubric, catalog[k].info)
    ensures Recommend(catalog, rubric).Success?
    ensures Recommend(catalog, rubric).value.topName == catalog[k].name
    ensures Recommend(catalog, rubric).value.topScore == Score(rubric, catalog[k].info)
  {
    var s := Scores(catalog, rubric);
    var best := Rank(catalog, rubric);
    var m := s[k].score;
    var top := Recommend(catalog, rubric).value;
    assert best[0] in multiset(s);
    var j :| 0 <= j < |s| && s[j] == best[0];
    assert best[0].score == m;
    TiedHead(s, m, k);
    TiedHead(best, m, 0);
    assert Tied(best, m) == Tied(s, m);
  }

  /** With unique names, every coin appears in the ranking exactly once, with its score. */
  lemma EachCoinOnce(catalog: Catalog, rubric: Rubric)
    requires NamesDistinct(catalog)
    ensures |Rank(catalog, rubric)| == |catalog|
    ensures forall i :: 0 <= i < |catalog| ==>
      multiset(Rank(catalog, rubric))[Scored(catalog[i].name, Score(rubric, catalog[i].info))] == 1
  {
    var s := Scores(catalog, rubric);
    assert |multiset(Rank(catalog, rubric))| == |multiset(s)|;
    forall i | 0 <= i < |catalog|
      ensures multiset(s)[Scored(catalog[i].name, Score(rubric, catalog[i].info))] == 1
    {
      ScoresCountOne(catalog, rubric, i);
    }
  }

  lemma {:induction false} ScoresCountOne(catalog: Catalog, rubric: Rubric, i: nat)
    requires NamesDistinct(catalog) && i < |catalog|
    ensures multiset(Scores(catalog, rubric))[Scored(catalog[i].name, Score(rubric, catalog[i].info))] == 1
  {
    var x := Scored(catalog[i].name, Score(rubric, catalog[i].info));
    var s := Scores(catalog, rubric);
    var tail := Scores(catalog[1..], rubric);
    assert s == [s[0]] + tail;
    if i == 0 {
      assert x !in tail;
    } else {
      ScoresCountOne(catalog[1..], rubric, i - 1);
      assert s[0] != x by {
        assert catalog[0].name != catalog[i].name;
      }
    }
  }

  /** On the reference catalog Bitcoin tops profitability, with 3 + 2 + 0.45 = 5.45. */
  lemma ReferenceTopProfitability()
    ensures Recommend(ReferenceCatalog, ByProfitability).Success?
    ensures Recommend(ReferenceCatalog, ByProfitability).value.topName == "Bitcoin"
    ensures Recommend(ReferenceCatalog, ByProfitability).value.topScore == 5.45
  {
    var c := ReferenceCatalog;
    assert Score(ByProfitability, c[0].info) == 5.45;
    assert Score(ByProfitability, c[1].info) == 3.9;
    assert Score(ByProfitability, c[2].info) == 5.2;
    assert Score(ByProfitability, c[3].info) == 0.05;
    assert Score(ByProfitability, c[4].info) == 1.35;
    TopIsFirstBest(c, ByProfitability, 0);
  }

  /** On the reference catalog Algorand tops sustainability, with 9 + 2 = 11. */
  lemma ReferenceTopSustainability()
    ensures Recommend(ReferenceCatalog, BySustainability).Success?
    ensures Recommend(ReferenceCatalog, BySustainability).value.topName == "Algorand"
    ensures Recommend(ReferenceCatalog, BySustainability).value.topScore == 11.0
  {
    var c := ReferenceCatalog;
    assert Score(BySustainability, c[0].info) == 1.0;
    assert Score(BySustainability, c[1].info) == 6.0;
    assert Score(BySustainability, c[2].info) == 10.0;
    assert Score(BySustainability, c[3].info) == 9.0;
    assert Score(BySustainability, c[4].info) == 11.0;
    TopIsFirstBest(c, BySustainability, 4);
  }
}
