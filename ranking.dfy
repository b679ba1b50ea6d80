/**
 * The last step of the engine (app/ml/recommendations.py, lines 254-262): every candidate with
 * its overall score and subscores, sorted by score from high to low with missing scores last,
 * cut to the first `top_n` rows.
 */
module Ranking {
  import opened Options

  /** One result row: the candidate's position among the candidates, its overall score and its subscores by bucket. */
  datatype Ranked = Ranked(row: nat, score: Option<real>, subscores: map<string, Option<real>>)

  /** Score `a` may be listed before score `b` in a descending sort that puts missing scores last. */
  predicate Outranks(a: Option<real>, b: Option<real>)
  {
    b.None? || (a.Some? && a.value >= b.value)
  }

  lemma OutranksTotal(a: Option<real>, b: Option<real>)
    ensures Outranks(a, b) || Outranks(b, a)
  {
  }

  lemma OutranksTransitive(a: Option<real>, b: Option<real>, c: Option<real>)
    requires Outranks(a, b) && Outranks(b, c)
    ensures Outranks(a, c)
  {
  }

  /** Scores never increase along the list, and every missing score comes after every present one. */
  predicate Descending(s: seq<Ranked>)
  {
    forall i, j :: 0 <= i < j < |s| ==> Outranks(s[i].score, s[j].score)
  }

  lemma DescendingCons(a: Ranked, rest: seq<Ranked>)
    requires Descending(rest)
    requires forall k :: 0 <= k < |rest| ==> Outranks(a.score, rest[k].score)
    ensures Descending([a] + rest)
  {
    var r := [a] + rest;
    forall i, j | 0 <= i < j < |r| ensures Outranks(r[i].score, r[j].score) {
      assert r[j] == rest[j - 1];
      if i > 0 {
        assert r[i] == rest[i - 1];
      }
    }
  }

  /** A row that outranks `x` and every row of `tail` outranks every row of a rearrangement of both. */
  lemma OutranksAll(top: Ranked, x: Ranked, tail: seq<Ranked>, rest: seq<Ranked>)
    requires Outranks(top.score, x.score)
    requires forall k :: 0 <= k < |tail| ==> Outranks(top.score, tail[k].score)
    requires multiset(rest) == multiset(tail) + multiset{x}
    ensures forall k :: 0 <= k < |rest| ==> Outranks(top.score, rest[k].score)
  {
    forall k | 0 <= k < |rest| ensures Outranks(top.score, rest[k].score) {
      assert rest[k] in multiset(rest);
      if rest[k] != x {
        assert rest[k] in multiset(tail);
        var m :| 0 <= m < |tail| && tail[m] == rest[k];
      }
    }
  }

  /** `x` placed before the first row it outranks: the rows stay in order and none is lost. */
  function InsertRanked(x: Ranked, s: seq<Ranked>): (r: seq<Ranked>)
    requires Descending(s)
    ensures |r| == |s| + 1
    ensures multiset(r) == multiset(s) + multiset{x}
    ensures Descending(r)
  {
    if s == [] || Outranks(x.score, s[0].score) then
      assert forall k :: 0 <= k < |s| ==> Outranks(x.score, s[k].score) by {
        forall k | 0 <= k < |s| ensures Outranks(x.score, s[k].score) {
          if k > 0 {
            OutranksTransitive(x.score, s[0].score, s[k].score);
          }
        }
      }
      DescendingCons(x, s);
      [x] + s
    else
      var rest := InsertRanked(x, s[1..]);
      assert s == [s[0]] + s[1..];
      OutranksTotal(x.score, s[0].score);
      OutranksAll(s[0], x, s[1..], rest);
      DescendingCons(s[0], rest);
      [s[0]] + rest
  }

  /** `sort_values('score', ascending=False)`: the rows rearranged by descending score, missing scores last. */
  function SortRanked(s: seq<Ranked>): (r: seq<Ranked>)
    ensures |r| == |s|
    ensures multiset(r) == multiset(s)
    ensures Descending(r)
  {
    if s == [] then []
    else
      assert s == [s[0]] + s[1..];
      InsertRanked(s[0], SortRanked(s[1..]))
  }

  /** The first row of the sorted list has a score no other row beats. */
  lemma SortedFirstIsBest(s: seq<Ranked>, x: Ranked)
    requires x in s
    ensures Outranks(SortRanked(s)[0].score, x.score)
  {
    var r := SortRanked(s);
    assert x in multiset(s);
    assert x in r;
    var k :| 0 <= k < |r| && r[k] == x;
    if k > 0 {
      assert Outranks(r[0].score, r[k].score);
    }
  }

  function Min(a: int, b: int): int
  {
    if a <= b then a else b
  }

  function Max(a: int, b: int): int
  {
    if a >= b then a else b
  }

  /** `head(n)`: the first `n` rows, or for a negative `n` all rows but the last `-n`. */
  function Head<T>(s: seq<T>, n: int): (r: seq<T>)
    ensures |r| == if n >= 0 then Min(n, |s|) else Max(|s| + n, 0)
    ensures r == s[..|r|]
  {
    if n >= 0 then s[..Min(n, |s|)] else s[..Max(|s| + n, 0)]
  }

  /** The head is empty exactly when there are no rows, `n` is 0, or `n` drops every row. */
  lemma HeadEmptyIff<T>(s: seq<T>, n: int)
    ensures Head(s, n) == [] <==> s == [] || n == 0 || n <= -|s|
  {
    if Head(s, n) == [] {
      assert |Head(s, n)| == 0;
    }
  }

  /** Sorting and cutting keep only rows of the original list. */
  lemma HeadOfSorted(s: seq<Ranked>, n: int, x: Ranked)
    requires x in Head(SortRanked(s), n)
    ensures x in s
  {
    assert x in SortRanked(s);
    assert x in multiset(SortRanked(s));
  }

  /** A head of a descending list is descending, and keeps only rows of the list. */
  lemma HeadOfDescending(s: seq<Ranked>, n: int)
    requires Descending(s)
    ensures Descending(Head(s, n))
    ensures forall x :: x in Head(s, n) ==> x in s
  {
  }

  /** `r` is some of the rows of `s`, and every row of `s` left out is outranked by every row of `r`. */
  predicate TopOf(r: seq<Ranked>, s: seq<Ranked>)
  {
    && multiset(r) <= multiset(s)
    && forall x, y :: x in r && y in multiset(s) - multiset(r) ==> Outranks(x.score, y.score)
  }

  /** A head keeps rows of the list, and every row it leaves out is outranked by every row it keeps. */
  lemma HeadIsTop(s: seq<Ranked>, n: int)
    requires Descending(s)
    ensures TopOf(Head(s, n), s)
  {
    var h := Head(s, n);
    var rest := s[|h|..];
    assert s == h + rest;
    assert multiset(s) == multiset(h) + multiset(rest);
    forall x, y | x in h && y in multiset(s) - multiset(h) ensures Outranks(x.score, y.score) {
      assert y in multiset(rest);
      assert y in rest;
      var p :| 0 <= p < |h| && h[p] == x;
      var q :| 0 <= q < |rest| && rest[q] == y;
      assert s[p] == x && s[|h| + q] == y;
    }
  }

  /** No two rows stand for the same candidate. */
  predicate DistinctRows(s: seq<Ranked>)
  {
    forall a, b :: 0 <= a < b < |s| ==> s[a].row != s[b].row
  }

  lemma {:induction false} DistinctRowsCount(s: seq<Ranked>, x: Ranked)
    requires DistinctRows(s)
    ensures multiset(s)[x] <= 1
  {
    if s != [] {
      assert s == [s[0]] + s[1..];
      assert DistinctRows(s[1..]) by {
        forall a, b | 0 <= a < b < |s[1..]| ensures s[1..][a].row != s[1..][b].row {
          assert s[1..][a] == s[a + 1] && s[1..][b] == s[b + 1];
        }
      }
      DistinctRowsCount(s[1..], x);
      if s[0] == x {
        assert x !in s[1..] by {
          forall q | 0 <= q < |s[1..]| ensures s[1..][q] != x {
            assert s[1..][q] == s[q + 1];
          }
        }
      }
    }
  }

  /** Some of the rows of a list without repeated candidates repeat no candidate either. */
  lemma SubMultisetDistinct(r: seq<Ranked>, s: seq<Ranked>)
    requires multiset(r) <= multiset(s) && DistinctRows(s)
    ensures DistinctRows(r)
  {
    forall a, b | 0 <= a < b < |r| ensures r[a].row != r[b].row {
      if r[a] == r[b] {
        assert r == r[..b] + r[b..];
        assert r[a] in multiset(r[..b]) && r[b] in multiset(r[b..]);
        assert multiset(r) == multiset(r[..b]) + multiset(r[b..]);
        DistinctRowsCount(s, r[a]);
      } else {
        assert r[a] in multiset(s) && r[b] in multiset(s);
        var p :| 0 <= p < |s| && s[p] == r[a];
        var q :| 0 <= q < |s| && s[q] == r[b];
        assert p != q;
      }
    }
  }
}
