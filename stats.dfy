/**
 * Column statistics the engine relies on: skipping missing cells, minimum and maximum,
 * sorting, the linearly interpolated quantile that pandas uses by default, means and clipping.
 */
module Stats {
  import opened Options

  /** The present entries of a column, in order (pandas `dropna`). */
  function Present(col: seq<Option<real>>): (r: seq<real>)
    ensures |r| <= |col|
    ensures r == [] <==> forall i :: 0 <= i < |col| ==> col[i].None?
  {
    if col == [] then []
    else if col[0].Some? then [col[0].value] + Present(col[1..])
    else Present(col[1..])
  }

  /** The present values are exactly the values of the `Some` cells. */
  lemma {:induction false} PresentMembers(col: seq<Option<real>>)
    ensures forall x :: x in Present(col) <==> Some(x) in col
  {
    if col != [] {
      PresentMembers(col[1..]);
      assert col == [col[0]] + col[1..];
    }
  }

  /** The present values of two columns one after the other. */
  lemma {:induction false} PresentAppend(a: seq<Option<real>>, b: seq<Option<real>>)
    ensures Present(a + b) == Present(a) + Present(b)
  {
    if a == [] {
      assert a + b == b;
    } else {
      assert (a + b)[1..] == a[1..] + b;
      PresentAppend(a[1..], b);
    }
  }

  /** The value of every `Some` cell is among the present values. */
  lemma {:induction false} PresentHas(col: seq<Option<real>>, i: nat)
    requires i < |col| && col[i].Some?
    ensures col[i].value in Present(col)
  {
    if i > 0 {
      PresentHas(col[1..], i - 1);
    }
  }

  function MinOf(s: seq<real>): (m: real)
    requires |s| > 0
    ensures m in s
    ensures forall x :: x in s ==> m <= x
  {
    if |s| == 1 then s[0]
    else
      assert s == [s[0]] + s[1..];
      var rest := MinOf(s[1..]);
      if s[0] <= rest then s[0] else rest
  }

  function MaxOf(s: seq<real>): (m: real)
    requires |s| > 0
    ensures m in s
    ensures forall x :: x in s ==> x <= m
  {
    if |s| == 1 then s[0]
    else
      assert s == [s[0]] + s[1..];
      var rest := MaxOf(s[1..]);
      if s[0] >= rest then s[0] else rest
  }

  predicate Sorted(s: seq<real>)
  {
    forall i, j :: 0 <= i < j < |s| ==> s[i] <= s[j]
  }

  function Insert(x: real, s: seq<real>): (r: seq<real>)
    requires Sorted(s)
    ensures |r| == |s| + 1
    ensures multiset(r) == multiset(s) + multiset{x}
    ensures Sorted(r)
  {
    if s == [] || x <= s[0] then [x] + s
    else
      var rest := Insert(x, s[1..]);
      assert s == [s[0]] + s[1..];
      HeadBelow(s[0], x, s[1..], rest);
      SortedCons(s[0], rest);
      [s[0]] + rest
  }

  lemma SortedCons(a: real, rest: seq<real>)
    requires Sorted(rest)
    requires forall k :: 0 <= k < |rest| ==> a <= rest[k]
    ensures Sorted([a] + rest)
  {
    var r := [a] + rest;
    forall i, j | 0 <= i < j < |r| ensures r[i] <= r[j] {
      assert r[j] == rest[j - 1];
      if i > 0 {
        assert r[i] == rest[i - 1];
      }
    }
  }

  /** `lo` below `x` and below a sorted tail stays below every entry of an arrangement of both. */
  lemma HeadBelow(lo: real, x: real, tail: seq<real>, rest: seq<real>)
    requires lo <= x
    requires forall k :: 0 <= k < |tail| ==> lo <= tail[k]
    requires multiset(rest) == multiset(tail) + multiset{x}
    ensures forall k :: 0 <= k < |rest| ==> lo <= rest[k]
  {
    forall k | 0 <= k < |rest| ensures lo <= rest[k] {
      assert rest[k] in multiset(rest);
      if rest[k] != x {
        assert rest[k] in multiset(tail);
        var m :| 0 <= m < |tail| && tail[m] == rest[k];
      }
    }
  }

  /** An ascending copy of `s` (insertion sort): a sorted permutation. */
  function SortAsc(s: seq<real>): (r: seq<real>)
    ensures |r| == |s|
    ensures multiset(r) == multiset(s)
    ensures Sorted(r)
  {
    if s == [] then []
    else
      assert s == [s[0]] + s[1..];
      Insert(s[0], SortAsc(s[1..]))
  }

  /** The first entry of a sorted permutation of `s` is the minimum of `s`. */
  lemma SortedMin(t: seq<real>, s: seq<real>)
    requires |s| > 0 && Sorted(t) && multiset(t) == multiset(s)
    ensures |t| == |s| && t[0] == MinOf(s)
  {
    assert |t| == |multiset(t)| == |multiset(s)| == |s|;
    var lo := MinOf(s);
    assert t[0] in multiset(t);
    assert t[0] in s;
    assert lo in multiset(s);
    assert lo in t;
    var a :| 0 <= a < |t| && t[a] == lo;
    assert t[0] <= t[a];
  }

  /** The last entry of a sorted permutation of `s` is the maximum of `s`. */
  lemma SortedMax(t: seq<real>, s: seq<real>)
    requires |s| > 0 && Sorted(t) && multiset(t) == multiset(s)
    ensures |t| == |s| && t[|t| - 1] == MaxOf(s)
  {
    assert |t| == |multiset(t)| == |multiset(s)| == |s|;
    var hi := MaxOf(s);
    assert t[|t| - 1] in multiset(t);
    assert t[|t| - 1] in s;
    assert hi in multiset(s);
    assert hi in t;
    var b :| 0 <= b < |t| && t[b] == hi;
    assert t[b] <= t[|t| - 1];
  }

  /** Fractional rank of the `p` quantile among `n` sorted values (numpy's linear method). */
  function Position(n: nat, p: real): (h: real)
    requires n > 0 && 0.0 <= p <= 1.0
    ensures 0.0 <= h <= (n - 1) as real
  {
    var m := (n - 1) as real;
    MulNonneg(m, p);
    MulNonneg(m, 1.0 - p);
    assert m * (1.0 - p) == m - m * p;
    m * p
  }

  lemma MulNonneg(a: real, b: real)
    requires a >= 0.0 && b >= 0.0
    ensures a * b >= 0.0
  {
  }

  /** A product with a positive factor is non-negative only when the other factor is. */
  lemma SignFromProduct(x: real, d: real)
    requires d > 0.0 && x * d >= 0.0
    ensures x >= 0.0
  {
  }

  lemma MulMonotone(a: real, x: real, y: real)
    requires a >= 0.0 && x <= y
    ensures a * x <= a * y
  {
    MulNonneg(a, y - x);
    assert a * (y - x) == a * y - a * x;
  }

  /** The value at fractional rank `h` of sorted data, interpolated linearly between neighbours. */
  function Interpolate(t: seq<real>, h: real): real
    requires |t| > 0 && 0.0 <= h <= (|t| - 1) as real
  {
    var i := h.Floor;
    if i + 1 < |t| then Lerp(t[i], t[i + 1], h - i as real) else t[i]
  }

  /** The point a fraction `f` of the way from `a` to `b`. */
  function Lerp(a: real, b: real, f: real): real
  {
    a + f * (b - a)
  }

  /**
   * pandas `Series.quantile(p)` with its default linear interpolation: the value at
   * fractional rank (n - 1) * p of the sorted data.
   */
  function Quantile(s: seq<real>, p: real): real
    requires |s| > 0 && 0.0 <= p <= 1.0
  {
    Interpolate(SortAsc(s), Position(|s|, p))
  }

  /** pandas `Series.median()`: the 0.5 quantile. */
  function Median(s: seq<real>): real
    requires |s| > 0
  {
    Quantile(s, 0.5)
  }

  lemma LerpBetween(a: real, b: real, f: real)
    requires a <= b && 0.0 <= f <= 1.0
    ensures a <= Lerp(a, b, f) <= b
  {
    MulNonneg(f, b - a);
    MulNonneg(1.0 - f, b - a);
    assert (1.0 - f) * (b - a) == (b - a) - f * (b - a);
  }

  lemma LerpMonotone(a: real, b: real, f1: real, f2: real)
    requires a <= b && f1 <= f2
    ensures Lerp(a, b, f1) <= Lerp(a, b, f2)
  {
    MulNonneg(f2 - f1, b - a);
    assert f2 * (b - a) - f1 * (b - a) == (f2 - f1) * (b - a);
  }

  lemma InterpolateBounds(t: seq<real>, h: real)
    requires |t| > 0 && 0.0 <= h <= (|t| - 1) as real && Sorted(t)
    ensures t[0] <= Interpolate(t, h) <= t[|t| - 1]
  {
    var i := h.Floor;
    assert t[0] <= t[i] <= t[|t| - 1];
    if i + 1 < |t| {
      assert t[i + 1] <= t[|t| - 1];
      LerpBetween(t[i], t[i + 1], h - i as real);
    }
  }

  lemma InterpolateMonotone(t: seq<real>, h1: real, h2: real)
    requires |t| > 0 && 0.0 <= h1 <= h2 <= (|t| - 1) as real && Sorted(t)
    ensures Interpolate(t, h1) <= Interpolate(t, h2)
  {
    var n := |t|;
    var i1, i2 := h1.Floor, h2.Floor;
    var f1, f2 := h1 - i1 as real, h2 - i2 as real;
    assert i1 <= i2;
    if i1 == i2 {
      if i1 + 1 < n {
        LerpMonotone(t[i1], t[i1 + 1], f1, f2);
      }
    } else {
      LerpBetween(t[i1], t[i1 + 1], f1);
      assert t[i1 + 1] <= t[i2];
      if i2 + 1 < n {
        LerpBetween(t[i2], t[i2 + 1], f2);
      }
    }
  }

  lemma PositionMonotone(n: nat, p1: real, p2: real)
    requires n > 0 && 0.0 <= p1 <= p2 <= 1.0
    ensures Position(n, p1) <= Position(n, p2)
  {
    MulMonotone((n - 1) as real, p1, p2);
  }

  /** A quantile lies between the smallest and the largest value. */
  lemma QuantileBounds(s: seq<real>, p: real)
    requires |s| > 0 && 0.0 <= p <= 1.0
    ensures MinOf(s) <= Quantile(s, p) <= MaxOf(s)
  {
    var t := SortAsc(s);
    SortedMin(t, s);
    SortedMax(t, s);
    InterpolateBounds(t, Position(|s|, p));
  }

  /** A higher quantile level never gives a lower value. */
  lemma QuantileMonotone(s: seq<real>, p1: real, p2: real)
    requires |s| > 0 && 0.0 <= p1 <= p2 <= 1.0
    ensures Quantile(s, p1) <= Quantile(s, p2)
  {
    var h1, h2 := Position(|s|, p1), Position(|s|, p2);
    PositionMonotone(|s|, p1, p2);
    var t := SortAsc(s);
    assert |t| == |s|;
    InterpolateMonotone(t, h1, h2);
  }

  function Sum(s: seq<real>): real
  {
    if s == [] then 0.0 else s[0] + Sum(s[1..])
  }

  function Mean(s: seq<real>): real
    requires |s| > 0
  {
    Sum(s) / |s| as real
  }

  lemma {:induction false} SumBounds(s: seq<real>, lo: real, hi: real)
    requires forall x :: x in s ==> lo <= x <= hi
    ensures |s| as real * lo <= Sum(s) <= |s| as real * hi
  {
    if s != [] {
      assert s[0] in s;
      forall x | x in s[1..] ensures lo <= x <= hi {
        assert x in s;
      }
      SumBounds(s[1..], lo, hi);
      var m := (|s| - 1) as real;
      assert |s[1..]| as real == m;
      assert |s| as real * lo == m * lo + lo;
      assert |s| as real * hi == m * hi + hi;
    }
  }

  lemma DivBounds(a: real, n: real, lo: real, hi: real)
    requires n > 0.0 && n * lo <= a <= n * hi
    ensures lo <= a / n <= hi
  {
    var q := a / n;
    assert n * q == a;
    assert n * (q - lo) >= 0.0;
    assert n * (hi - q) >= 0.0;
  }

  /** A positive amount shared out over a positive count stays positive. */
  lemma DivPos(a: real, d: real)
    requires a > 0.0 && d > 0.0
    ensures a / d > 0.0
  {
    var q := a / d;
    assert q * d == a;
    SignFromProduct(q, d);
  }

  /** Dividing by a positive number keeps order. */
  lemma DivMonotone(a: real, b: real, d: real)
    requires a <= b && d > 0.0
    ensures a / d <= b / d
  {
    var p, q := a / d, b / d;
    assert p * d == a && q * d == b;
    assert (q - p) * d == q * d - p * d;
    SignFromProduct(q - p, d);
  }

  /** A mean of values in [lo, hi] lies in [lo, hi]. */
  lemma MeanBounds(s: seq<real>, lo: real, hi: real)
    requires |s| > 0
    requires forall x :: x in s ==> lo <= x <= hi
    ensures lo <= Mean(s) <= hi
  {
    SumBounds(s, lo, hi);
    DivBounds(Sum(s), |s| as real, lo, hi);
  }

  /** The defined values of three cells, cell by cell. */
  lemma PresentOfThree(x1: Option<real>, x2: Option<real>, x3: Option<real>)
    ensures Present([x1, x2, x3]) == Present([x1]) + Present([x2]) + Present([x3])
  {
    assert [x1, x2, x3] == [x1] + [x2] + [x3];
    PresentAppend([x1], [x2]);
    PresentAppend([x1] + [x2], [x3]);
  }

  lemma {:induction false} SumMonotone(a: seq<real>, b: seq<real>)
    requires |a| == |b|
    requires forall m :: 0 <= m < |a| ==> a[m] <= b[m]
    ensures Sum(a) <= Sum(b)
  {
    if a != [] {
      SumMonotone(a[1..], b[1..]);
    }
  }

  /** Pointwise smaller values have a smaller mean. */
  lemma MeanMonotone(a: seq<real>, b: seq<real>)
    requires |a| == |b| > 0
    requires forall m :: 0 <= m < |a| ==> a[m] <= b[m]
    ensures Mean(a) <= Mean(b)
  {
    SumMonotone(a, b);
    DivMonotone(Sum(a), Sum(b), |a| as real);
  }

  /** Row-wise `mean(skipna=True)`: the mean of the present entries, missing when none is present. */
  function SkipMean(xs: seq<Option<real>>): (r: Option<real>)
    ensures r.Some? <==> exists i :: 0 <= i < |xs| && xs[i].Some?
  {
    var p := Present(xs);
    if p == [] then None else Some(Mean(p))
  }

  lemma SkipMeanBounds(xs: seq<Option<real>>, lo: real, hi: real)
    requires forall i :: 0 <= i < |xs| && xs[i].Some? ==> lo <= xs[i].value <= hi
    ensures SkipMean(xs).Some? ==> lo <= SkipMean(xs).value <= hi
  {
    var p := Present(xs);
    PresentMembers(xs);
    if p != [] {
      forall x | x in p ensures lo <= x <= hi {
        var i :| 0 <= i < |xs| && xs[i] == Some(x);
      }
      MeanBounds(p, lo, hi);
    }
  }

  /** `clip(lower=lo, upper=hi)` of one value. */
  function Clamp(x: real, lo: real, hi: real): (r: real)
    requires lo <= hi
    ensures lo <= r <= hi
    ensures lo <= x <= hi ==> r == x
  {
    if x < lo then lo else if x > hi then hi else x
  }

  lemma ClampMonotone(x: real, y: real, lo: real, hi: real)
    requires x <= y && lo <= hi
    ensures Clamp(x, lo, hi) <= Clamp(y, lo, hi)
  {
  }
}
