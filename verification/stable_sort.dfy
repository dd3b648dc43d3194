/** `scored.sort((a, b) => b.score - a.score)`: a stable sort by descending score. Since
    ECMAScript 2019 `Array.prototype.sort` must be stable, so entries with equal scores keep
    their relative order. The specification is insertion from the back, which is also what the
    in-place method does. */
module StableSort {
  import opened Catalog

  /** Scores never increase from left to right. */
  predicate NonIncreasing(s: seq<Scored>)
  {
    forall i, j :: 0 <= i < j < |s| ==> s[i].score >= s[j].score
  }

  /** The entries of `s` whose score is `v`, in their order in `s`. */
  function WithScore(s: seq<Scored>, v: int): seq<Scored>
  {
    if s == [] then []
    else WithScore(s[..|s| - 1], v) + (if s[|s| - 1].score == v then [s[|s| - 1]] else [])
  }

  /** Insert `x` into `p` after every entry scoring at least as much as `x` at the back of `p`:
      the entries scoring less move one place to the right, as the inner loop shifts them. */
  function Insert(p: seq<Scored>, x: Scored): seq<Scored>
    decreases |p|
  {
    if p == [] then [x]
    else if p[|p| - 1].score >= x.score then p + [x]
    else Insert(p[..|p| - 1], x) + [p[|p| - 1]]
  }

  /** The stable descending sort of `s`: its entries inserted one after the other. */
  function SortedByScore(s: seq<Scored>): seq<Scored>
  {
    if s == [] then [] else Insert(SortedByScore(s[..|s| - 1]), s[|s| - 1])
  }

  /** Filtering by score distributes over concatenation. */
  lemma {:induction false} WithScoreConcat(a: seq<Scored>, b: seq<Scored>, v: int)
    ensures WithScore(a + b, v) == WithScore(a, v) + WithScore(b, v)
    decreases |b|
  {
    if b == [] {
      assert a + b == a;
    } else {
      assert (a + b)[..|a + b| - 1] == a + b[..|b| - 1];
      WithScoreConcat(a, b[..|b| - 1], v);
    }
  }

  /** Filtering a list with one more entry at the back. */
  lemma WithScoreSnoc(s: seq<Scored>, z: Scored, v: int)
    ensures WithScore(s + [z], v) == WithScore(s, v) + (if z.score == v then [z] else [])
  {
    assert (s + [z])[..|s|] == s;
  }

  /** Inserting keeps every entry and adds `x`. */
  lemma {:induction false} InsertPermutes(p: seq<Scored>, x: Scored)
    ensures |Insert(p, x)| == |p| + 1
    ensures multiset(Insert(p, x)) == multiset(p) + multiset{x}
    decreases |p|
  {
    if p != [] && p[|p| - 1].score < x.score {
      var q, y := p[..|p| - 1], p[|p| - 1];
      InsertPermutes(q, x);
      assert p == q + [y];
    }
  }

  /** Inserting puts `x` after the entries of its own score: filtered by any score, the result
      is the input with `x` appended. */
  lemma {:induction false} InsertKeepsTies(p: seq<Scored>, x: Scored, v: int)
    ensures WithScore(Insert(p, x), v) == WithScore(p + [x], v)
    decreases |p|
  {
    if p != [] && p[|p| - 1].score < x.score {
      var q, y := p[..|p| - 1], p[|p| - 1];
      InsertKeepsTies(q, x, v);
      assert p == q + [y];
      WithScoreSnoc(Insert(q, x), y, v);
      WithScoreSnoc(q, x, v);
      WithScoreSnoc(q, y, v);
      WithScoreSnoc(p, x, v);
    }
  }

  /** Inserting into a list sorted by descending score keeps it sorted. */
  lemma {:induction false} InsertSorted(p: seq<Scored>, x: Scored)
    requires NonIncreasing(p)
    ensures NonIncreasing(Insert(p, x))
    decreases |p|
  {
    if p != [] && p[|p| - 1].score < x.score {
      var q, y := p[..|p| - 1], p[|p| - 1];
      InsertSorted(q, x);
      InsertPermutes(q, x);
      var r := Insert(q, x);
      forall i | 0 <= i < |r|
        ensures r[i].score >= y.score
      {
        assert r[i] in multiset(r);
        assert r[i] in multiset(q) || r[i] == x;
      }
    }
  }

  /** The sort returns a permutation of its input. */
  lemma {:induction false} SortedByScorePermutes(s: seq<Scored>)
    ensures |SortedByScore(s)| == |s|
    ensures multiset(SortedByScore(s)) == multiset(s)
    decreases |s|
  {
    if s != [] {
      SortedByScorePermutes(s[..|s| - 1]);
      InsertPermutes(SortedByScore(s[..|s| - 1]), s[|s| - 1]);
      assert s == s[..|s| - 1] + [s[|s| - 1]];
    }
  }

  /** The sort returns its input ordered by descending score. */
  lemma {:induction false} SortedByScoreIsSorted(s: seq<Scored>)
    ensures NonIncreasing(SortedByScore(s))
    decreases |s|
  {
    if s != [] {
      SortedByScoreIsSorted(s[..|s| - 1]);
      InsertSorted(SortedByScore(s[..|s| - 1]), s[|s| - 1]);
    }
  }

  /** Stability: for every score, the entries with that score come out in the order they went in. */
  lemma {:induction false} SortedByScoreIsStable(s: seq<Scored>, v: int)
    ensures WithScore(SortedByScore(s), v) == WithScore(s, v)
    decreases |s|
  {
    if s != [] {
      var init, last := s[..|s| - 1], s[|s| - 1];
      SortedByScoreIsStable(init, v);
      InsertKeepsTies(SortedByScore(init), last, v);
      WithScoreConcat(SortedByScore(init), [last], v);
      WithScoreConcat(init, [last], v);
      assert s == init + [last];
    }
  }

  /** An input already in descending score order comes out unchanged. */
  lemma {:induction false} SortedInputUnchanged(s: seq<Scored>)
    requires NonIncreasing(s)
    ensures SortedByScore(s) == s
    decreases |s|
  {
    if s != [] {
      var init := s[..|s| - 1];
      assert NonIncreasing(init);
      SortedInputUnchanged(init);
      if |init| > 0 {
        assert init[|init| - 1].score >= s[|s| - 1].score;
      }
      assert s == init + [s[|s| - 1]];
    }
  }

  /** The first entry of the sorted list is an entry of the input with the highest score. */
  lemma SortedHeadIsBest(s: seq<Scored>)
    requires s != []
    ensures SortedByScore(s)[0] in s
    ensures forall i :: 0 <= i < |s| ==> s[i].score <= SortedByScore(s)[0].score
  {
    var r := SortedByScore(s);
    SortedByScorePermutes(s);
    SortedByScoreIsSorted(s);
    assert r[0] in multiset(r);
    forall i | 0 <= i < |s|
      ensures s[i].score <= r[0].score
    {
      assert s[i] in multiset(s);
      var j :| 0 <= j < |r| && r[j] == s[i];
    }
  }

  /** An entry scoring strictly more than every other entry comes out first. */
  lemma SortedHeadIsUniqueBest(s: seq<Scored>, k: int)
    requires 0 <= k < |s|
    requires forall i :: 0 <= i < |s| && i != k ==> s[i].score < s[k].score
    ensures SortedByScore(s)[0] == s[k]
  {
    SortedHeadIsBest(s);
    var head := SortedByScore(s)[0];
    var m :| 0 <= m < |s| && s[m] == head;
    assert head.score >= s[k].score;
  }

  /** Every score moved by the same amount `d`. */
  function Shift(s: seq<Scored>, d: int): (r: seq<Scored>)
    ensures |r| == |s|
  {
    seq(|s|, i requires 0 <= i < |s| => Scored(s[i].location, s[i].score + d))
  }

  lemma {:induction false} InsertShift(p: seq<Scored>, x: Scored, d: int)
    ensures Insert(Shift(p, d), Scored(x.location, x.score + d)) == Shift(Insert(p, x), d)
    decreases |p|
  {
    if p != [] {
      var q, y := p[..|p| - 1], p[|p| - 1];
      assert Shift(p, d)[..|p| - 1] == Shift(q, d);
      if y.score >= x.score {
        assert Shift(p + [x], d) == Shift(p, d) + [Scored(x.location, x.score + d)];
      } else {
        InsertShift(q, x, d);
        InsertPermutes(q, x);
        assert Shift(Insert(q, x) + [y], d) == Shift(Insert(q, x), d) + [Shift(p, d)[|p| - 1]];
      }
    }
  }

  /** Adding the same amount to every score does not change the order the sort produces. */
  lemma {:induction false} SortedByScoreShift(s: seq<Scored>, d: int)
    ensures SortedByScore(Shift(s, d)) == Shift(SortedByScore(s), d)
    decreases |s|
  {
    if s != [] {
      var init := s[..|s| - 1];
      assert Shift(s, d)[..|s| - 1] == Shift(init, d);
      SortedByScoreShift(init, d);
      InsertShift(SortedByScore(init), s[|s| - 1], d);
    }
  }

  /** Where the inner loop stops: `x` goes after the entries at indices below `j` and before
      the shifted ones, all of which score less than `x`. */
  lemma {:induction false} InsertAt(p: seq<Scored>, x: Scored, j: int)
    requires 0 <= j <= |p|
    requires j == 0 || p[j - 1].score >= x.score
    requires forall k :: j <= k < |p| ==> p[k].score < x.score
    ensures Insert(p, x) == p[..j] + [x] + p[j..]
    decreases |p|
  {
    if p == [] {
    } else if p[|p| - 1].score >= x.score {
      assert j == |p|;
    } else {
      var q := p[..|p| - 1];
      InsertAt(q, x, j);
      assert q[..j] == p[..j];
      assert q[j..] + [p[|p| - 1]] == p[j..];
    }
  }

  /** One pass of the sort: the entry at index `i` is moved left past the entries before it
      that score less, each of which shifts one place to the right. */
  method InsertLast(a: array<Scored>, i: int)
    requires 0 <= i < a.Length
    modifies a
    ensures a[..i + 1] == Insert(old(a[..i]), old(a[i]))
    ensures forall k :: i < k < a.Length ==> a[k] == old(a[k])
  {
    ghost var sorted := a[..i];
    var x := a[i];
    var j := i;
    while j > 0 && a[j - 1].score < x.score
      invariant 0 <= j <= i
      invariant forall k :: 0 <= k < j ==> a[k] == sorted[k]
      invariant forall k :: j < k <= i ==> a[k] == sorted[k - 1]
      invariant forall k :: j <= k < i ==> sorted[k].score < x.score
      invariant forall k :: i < k < a.Length ==> a[k] == old(a[k])
    {
      a[j] := a[j - 1];
      j := j - 1;
    }
    a[j] := x;
    InsertAt(sorted, x, j);
    ghost var expected := sorted[..j] + [x] + sorted[j..];
    assert forall k :: 0 <= k <= i ==> a[k] == expected[k];
    assert a[..i + 1] == expected;
  }

  /** Sorts `a` in place by descending score; ties keep their order. */
  method SortByScore(a: array<Scored>)
    modifies a
    ensures a[..] == SortedByScore(old(a[..]))
  {
    ghost var input := a[..];
    var i := 0;
    while i < a.Length
      invariant 0 <= i <= a.Length
      invariant a[..i] == SortedByScore(input[..i])
      invariant forall k :: i <= k < a.Length ==> a[k] == input[k]
    {
      assert input[..i + 1][..i] == input[..i];
      InsertLast(a, i);
      i := i + 1;
    }
    assert input[..a.Length] == input;
    assert a[..] == a[..a.Length];
  }
}
