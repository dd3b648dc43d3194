/** `executeConsultarRede`: score every catalog entry, sort by descending score (stable), and
    return the first three. The catalog is a parameter; `Catalog.LOCATIONS` is the shipped one. */
module Matcher {
  import Strings
  import opened Catalog
  import opened Scoring
  import opened StableSort

  /** How many entries the matcher returns (`slice(0, 3)`). */
  const TOP_K: nat := 3

  function Min(a: int, b: int): int
  {
    if a <= b then a else b
  }

  /** `catalog.map(loc => ({ ...loc, score }))`: each entry paired with its score, in catalog order. */
  function ScoreAll(q: Args, catalog: seq<Location>): seq<Scored>
  {
    seq(|catalog|, i requires 0 <= i < |catalog| => Scored(catalog[i], Score(q, catalog[i])))
  }

  /** What the matcher returns: the first `TOP_K` entries of the stably sorted scored catalog. */
  function TopMatches(q: Args, catalog: seq<Location>): seq<Scored>
  {
    var sorted := SortedByScore(ScoreAll(q, catalog));
    sorted[..Min(TOP_K, |sorted|)]
  }

  /** The matcher: the search string is built once, each location is scored into a fresh array,
      the array is sorted in place and its first three entries are returned. */
  method ExecuteConsultarRede(q: Args, catalog: seq<Location>) returns (results: seq<Scored>)
    ensures results == TopMatches(q, catalog)
  {
    var terms := SearchTerms(q);
    var scored := new Scored[|catalog|];
    for i := 0 to |catalog|
      invariant scored[..i] == ScoreAll(q, catalog)[..i]
    {
      var score := ScoreLocation(q, terms, catalog[i]);
      scored[i] := Scored(catalog[i], score);
    }
    assert scored[..] == ScoreAll(q, catalog);
    SortByScore(scored);
    results := scored[..Min(TOP_K, scored.Length)];
  }

  /** The result has min(3, catalog size) entries, each a catalog record, unchanged, paired with
      the score the query gives it; no record is returned more often than the catalog lists it. */
  lemma TopMatchesAreScoredEntries(q: Args, catalog: seq<Location>)
    ensures |TopMatches(q, catalog)| == Min(TOP_K, |catalog|)
    ensures forall x :: x in TopMatches(q, catalog) ==> x.location in catalog && x.score == Score(q, x.location)
    ensures multiset(TopMatches(q, catalog)) <= multiset(ScoreAll(q, catalog))
  {
    var all := ScoreAll(q, catalog);
    var sorted := SortedByScore(all);
    SortedByScorePermutes(all);
    var k := Min(TOP_K, |sorted|);
    assert sorted == sorted[..k] + sorted[k..];
    assert multiset(sorted) == multiset(sorted[..k]) + multiset(sorted[k..]);
    forall x | x in TopMatches(q, catalog)
      ensures x.location in catalog && x.score == Score(q, x.location)
    {
      assert x in multiset(all);
      var i :| 0 <= i < |all| && all[i] == x;
    }
  }

  /** The result is ordered by non-increasing score. */
  lemma TopMatchesOrdered(q: Args, catalog: seq<Location>)
    ensures NonIncreasing(TopMatches(q, catalog))
  {
    SortedByScoreIsSorted(ScoreAll(q, catalog));
  }

  /** No catalog entry scoring higher than the last entry returned is left out. */
  lemma NothingBetterLeftOut(q: Args, catalog: seq<Location>, j: int)
    requires 0 <= j < |catalog|
    ensures var r := TopMatches(q, catalog);
            |r| > 0 && (Score(q, catalog[j]) > r[|r| - 1].score ==> Scored(catalog[j], Score(q, catalog[j])) in r)
  {
    var all := ScoreAll(q, catalog);
    var sorted := SortedByScore(all);
    SortedByScorePermutes(all);
    SortedByScoreIsSorted(all);
    var k := Min(TOP_K, |sorted|);
    var r := sorted[..k];
    assert all[j] in multiset(sorted);
    var m :| 0 <= m < |sorted| && sorted[m] == all[j];
    if m >= k {
      assert sorted[k - 1].score >= sorted[m].score;
    }
  }

  /** Ties keep catalog order: for every score, the returned entries with that score are the
      first entries of the catalog with that score, in catalog order. */
  lemma TiesInCatalogOrder(q: Args, catalog: seq<Location>, v: int)
    ensures WithScore(TopMatches(q, catalog), v) <= WithScore(ScoreAll(q, catalog), v)
  {
    var all := ScoreAll(q, catalog);
    var sorted := SortedByScore(all);
    SortedByScorePermutes(all);
    var k := Min(TOP_K, |sorted|);
    assert sorted == sorted[..k] + sorted[k..];
    WithScoreConcat(sorted[..k], sorted[k..], v);
    SortedByScoreIsStable(all, v);
  }

  /** With no arguments at all every entry scores 0 and the first three catalog entries come
      back in catalog order. */
  lemma EmptyQueryKeepsCatalogOrder(catalog: seq<Location>)
    ensures var r := TopMatches(Args(None, None, None), catalog);
            |r| == Min(TOP_K, |catalog|) && forall i :: 0 <= i < |r| ==> r[i] == Scored(catalog[i], 0)
  {
    var q := Args(None, None, None);
    assert QueryParts(q) == [];
    assert SearchTerms(q) == "";
    forall loc: Location
      ensures Score(q, loc) == 0
    {
      ScoreSplit(q, loc);
      assert !Strings.StartsWith("", "animal");
    }
    var all := ScoreAll(q, catalog);
    SortedInputUnchanged(all);
  }

  /** An empty `demanda` scores the whole directory 2 higher than an absent one. */
  lemma EmptyDemandaScoresShifted(q: Args, catalog: seq<Location>)
    ensures ScoreAll(q.(demanda := Some("")), catalog) == Shift(ScoreAll(q.(demanda := None), catalog), 2)
  {
    var qe, qn := q.(demanda := Some("")), q.(demanda := None);
    forall i | 0 <= i < |catalog|
      ensures ScoreAll(qe, catalog)[i] == Shift(ScoreAll(qn, catalog), 2)[i]
    {
      EmptyDemandaShift(q, catalog[i]);
    }
  }

  /** An empty `demanda` gives every entry 2 more points than an absent one and returns the
      same entries in the same order. */
  lemma EmptyDemandaKeepsRanking(q: Args, catalog: seq<Location>)
    ensures TopMatches(q.(demanda := Some("")), catalog) == Shift(TopMatches(q.(demanda := None), catalog), 2)
  {
    var all := ScoreAll(q.(demanda := None), catalog);
    EmptyDemandaScoresShifted(q, catalog);
    var sorted := SortedByScore(all);
    SortedByScoreShift(all, 2);
    SortedByScorePermutes(all);
    var k := Min(TOP_K, |sorted|);
    assert Shift(sorted, 2)[..k] == Shift(sorted[..k], 2);
  }

  /** The scored directory with the bonus of line 100 as written. */
  function ScoreAllAsWritten(q: Args, catalog: seq<Location>): seq<Scored>
  {
    seq(|catalog|, i requires 0 <= i < |catalog| => Scored(catalog[i], ScoreAsWritten(q, catalog[i])))
  }

  /** What the matcher returns with the bonus of line 100 as written. */
  function TopMatchesAsWritten(q: Args, catalog: seq<Location>): seq<Scored>
  {
    var sorted := SortedByScore(ScoreAllAsWritten(q, catalog));
    sorted[..Min(TOP_K, |sorted|)]
  }

  /** Where the two bonuses agree on every entry, the matcher as written returns exactly what
      the modelled matcher returns. */
  lemma AsWrittenRankingAgrees(q: Args, catalog: seq<Location>)
    requires forall i :: 0 <= i < |catalog| ==> DemandaBonusAsWritten(q, catalog[i]) == Contribution(DemandMatch, q, catalog[i])
    ensures TopMatchesAsWritten(q, catalog) == TopMatches(q, catalog)
  {
    forall i | 0 <= i < |catalog|
      ensures ScoreAllAsWritten(q, catalog)[i] == ScoreAll(q, catalog)[i]
    {
      ScoreAsWrittenDiffers(q, catalog[i]);
    }
    assert ScoreAllAsWritten(q, catalog) == ScoreAll(q, catalog);
  }

  /** With no arguments, a directory entry named "Undefined" overtakes the one before it in the
      matcher as written, while the modelled matcher keeps directory order with 0 points each. */
  lemma AsWrittenMatcherPromotesUndefined()
    ensures var a, u := Location("A", "", "", []), Location("Undefined", "", "", []);
            TopMatchesAsWritten(Args(None, None, None), [a, u]) == [Scored(u, 2), Scored(a, 0)]
            && TopMatches(Args(None, None, None), [a, u]) == [Scored(a, 0), Scored(u, 0)]
  {
    var q := Args(None, None, None);
    var a, u := Location("A", "", "", []), Location("Undefined", "", "", []);
    AbsentDemandaMatchesUndefined(q);
    assert LocString(a) == "a ";
    Strings.ContainsIff(LocString(a), "undefined");
    assert SearchTerms(q) == "";
    assert !Strings.StartsWith("", "animal");
    assert ScoreAsWritten(q, u) == 2 && ScoreAsWritten(q, a) == 0;
    var all := [Scored(a, 0), Scored(u, 2)];
    assert ScoreAllAsWritten(q, [a, u]) == all;
    assert all[..1] == [Scored(a, 0)] && all[..1][..0] == [];
    assert SortedByScore(all[..1]) == [Scored(a, 0)];
    var p := [Scored(a, 0)];
    assert p[..0] == [];
    assert Insert(p, Scored(u, 2)) == Insert([], Scored(u, 2)) + [Scored(a, 0)];
    assert SortedByScore(all) == Insert(p, Scored(u, 2));
    EmptyQueryKeepsCatalogOrder([a, u]);
  }
}
