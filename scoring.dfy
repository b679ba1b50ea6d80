/**
 * Per-priority buckets and the weighted overall score (app/ml/recommendations.py, lines 149-233):
 * each category becomes the row mean of its normalised attributes, the user's priorities become
 * bucket weights, and each school's score is the weighted mean of the buckets it has a value for.
 */
module Scoring {
  import opened Options
  import opened StringOrder
  import opened Stats
  import opened Schema
  import opened Normalize

  /** A named score column: one cell per candidate, missing where the bucket has no value. */
  type Bucket = Named<Option<real>>

  /** `norm[c]` for the first column of `norm` called `c`. */
  function Lookup(norm: NumFrame, c: string): (r: Option<seq<real>>)
    ensures r.Some? ==> Named(c, r.value) in norm
    ensures r.None? ==> forall j :: 0 <= j < |norm| ==> norm[j].name != c
  {
    if norm == [] then None
    else if norm[0].name == c then Some(norm[0].values)
    else Lookup(norm[1..], c)
  }

  /** `norm.columns`, as a set of names. */
  function ColumnSet(norm: NumFrame): (s: set<string>)
    ensures forall c :: c in s <==> Lookup(norm, c).Some?
  {
    var s := set j | 0 <= j < |norm| :: norm[j].name;
    assert forall c :: Lookup(norm, c).Some? ==> c in s by {
      forall c | Lookup(norm, c).Some? ensures c in s {
        var j :| 0 <= j < |norm| && norm[j] == Named(c, Lookup(norm, c).value);
      }
    }
    s
  }

  /**
   * `norm[[c for c in cols if c in norm.columns]]`: one column for each listed attribute that is
   * in the frame, in `cols` order, each the frame's column of that name.
   */
  function ColumnsFor(norm: NumFrame, cols: seq<string>): (r: seq<seq<real>>)
    ensures var kept := KeepIn(cols, ColumnSet(norm));
      |r| == |kept| && forall m :: 0 <= m < |r| ==> Lookup(norm, kept[m]) == Some(r[m])
    ensures r == [] <==> forall c :: c in cols ==> Lookup(norm, c).None?
  {
    if cols == [] then []
    else
      var here := Lookup(norm, cols[0]);
      var rest := ColumnsFor(norm, cols[1..]);
      assert forall c :: c in cols[1..] ==> c in cols;
      assert forall c :: c in cols ==> c == cols[0] || c in cols[1..];
      if here.Some? then [here.value] + rest else rest
  }

  /** Each column read for the list `cols` is a column of the frame named by one of `cols`. */
  lemma ColumnsForSource(norm: NumFrame, cols: seq<string>, m: nat)
    requires m < |ColumnsFor(norm, cols)|
    ensures var kept := KeepIn(cols, ColumnSet(norm));
      m < |kept| && kept[m] in cols && Named(kept[m], ColumnsFor(norm, cols)[m]) in norm
  {
    var kept := KeepIn(cols, ColumnSet(norm));
    assert kept[m] in kept;
  }

  /** Every column of `norm` has `n` values, all in [0, 1]. */
  predicate UnitFrame(norm: NumFrame, n: nat)
  {
    Rect(norm, n) && forall k, i :: 0 <= k < |norm| && 0 <= i < |norm[k].values| ==> 0.0 <= norm[k].values[i] <= 1.0
  }

  /** Candidate `i`'s values across the given columns. */
  function Across(cols: seq<seq<real>>, i: nat): (r: seq<real>)
    requires forall m :: 0 <= m < |cols| ==> i < |cols[m]|
    ensures |r| == |cols|
    ensures forall m :: 0 <= m < |cols| ==> r[m] == cols[m][i]
  {
    seq(|cols|, m requires 0 <= m < |cols| => cols[m][i])
  }

  /** `norm[cols].mean(axis=1)` when the category has a column in the data, and no bucket otherwise. */
  function CategoryBucket(norm: NumFrame, k: string, n: nat): (b: seq<Bucket>)
    requires Rect(norm, n)
    ensures |b| <= 1
    ensures b != [] <==> HasColumns(norm, k)
    ensures b != [] ==> b[0].name == k && |b[0].values| == n && forall i :: 0 <= i < n ==> b[0].values[i].Some?
  {
    var cols := ColumnsFor(norm, FeatureMap(k));
    if cols == [] then []
    else
      assert forall m :: 0 <= m < |cols| ==> |cols[m]| == n by {
        forall m | 0 <= m < |cols| ensures |cols[m]| == n {
          ColumnsForSource(norm, FeatureMap(k), m);
        }
      }
      [Named(k, seq(n, i requires 0 <= i < n => Some(Mean(Across(cols, i)))))]
  }

  /** Some attribute of category `k` is a column of `norm`. */
  predicate HasColumns(norm: NumFrame, k: string)
  {
    exists c :: c in FeatureMap(k) && Lookup(norm, c).Some?
  }

  /** The buckets of the categories `ks`, in their order. */
  function CategoryBuckets(norm: NumFrame, ks: seq<string>, n: nat): (bs: seq<Bucket>)
    requires Rect(norm, n)
    ensures Rect(bs, n)
    ensures forall j :: 0 <= j < |bs| ==> bs[j].name in ks
    decreases |ks|
  {
    if ks == [] then []
    else
      var prev := CategoryBuckets(norm, ks[..|ks| - 1], n);
      var last := CategoryBucket(norm, ks[|ks| - 1], n);
      assert forall j :: 0 <= j < |prev| ==> prev[j].name in ks;
      assert forall j :: 0 <= j < |last| ==> last[j].name in ks && |last[j].values| == n;
      prev + last
  }

  lemma KeepInPair(a: string, b: string, s: set<string>)
    ensures KeepIn([a, b], s) == (if a in s then [a] else []) + (if b in s then [b] else [])
  {
    assert [a, b][1..] == [b];
    assert [b][1..] == [];
  }

  lemma KeepInOne(a: string, s: set<string>)
    ensures KeepIn([a], s) == if a in s then [a] else []
  {
    assert [a][1..] == [];
  }

  /** Every category lists one or two attributes. */
  lemma FeatureMapSize(k: string)
    ensures FeatureMap(k) == [] || |FeatureMap(k)| == 1 || |FeatureMap(k)| == 2
  {
  }

  /**
   * The value of a category's bucket for candidate `i`: with one attribute in the frame, that
   * attribute's normalised value; with two, the mean of the two.
   */
  lemma CategoryBucketCell(norm: NumFrame, k: string, n: nat, i: nat)
    requires Rect(norm, n) && i < n && HasColumns(norm, k)
    ensures var fm, cell := FeatureMap(k), CategoryBucket(norm, k, n)[0].values[i];
      && (|fm| == 1 || |fm| == 2)
      && (|fm| == 1 ==> cell == Some(Lookup(norm, fm[0]).value[i]))
      && (|fm| == 2 && Lookup(norm, fm[0]).Some? && Lookup(norm, fm[1]).Some? ==>
            cell == Some((Lookup(norm, fm[0]).value[i] + Lookup(norm, fm[1]).value[i]) / 2.0))
      && (|fm| == 2 && Lookup(norm, fm[0]).Some? && Lookup(norm, fm[1]).None? ==>
            cell == Some(Lookup(norm, fm[0]).value[i]))
      && (|fm| == 2 && Lookup(norm, fm[0]).None? && Lookup(norm, fm[1]).Some? ==>
            cell == Some(Lookup(norm, fm[1]).value[i]))
  {
    var fm := FeatureMap(k);
    var c :| c in fm && Lookup(norm, c).Some?;
    assert ColumnsFor(norm, fm) != [];
    FeatureMapSize(k);
    ColumnsLength(norm, fm, n);
    CategoryBucketIs(norm, k, n, i);
    ColumnsMean(norm, fm, n, i);
  }

  lemma ColumnsLength(norm: NumFrame, cols: seq<string>, n: nat)
    requires Rect(norm, n)
    ensures forall m :: 0 <= m < |ColumnsFor(norm, cols)| ==> |ColumnsFor(norm, cols)[m]| == n
  {
    forall m | 0 <= m < |ColumnsFor(norm, cols)| ensures |ColumnsFor(norm, cols)[m]| == n {
      ColumnsForSource(norm, cols, m);
    }
  }

  lemma CategoryBucketIs(norm: NumFrame, k: string, n: nat, i: nat)
    requires Rect(norm, n) && i < n && HasColumns(norm, k)
    requires forall m :: 0 <= m < |ColumnsFor(norm, FeatureMap(k))| ==> |ColumnsFor(norm, FeatureMap(k))[m]| == n
    ensures CategoryBucket(norm, k, n)[0].values[i] == Some(Mean(Across(ColumnsFor(norm, FeatureMap(k)), i)))
  {
  }

  /** The mean at row `i` of the frame's columns named by a list of one or two names. */
  lemma ColumnsMean(norm: NumFrame, fm: seq<string>, n: nat, i: nat)
    requires Rect(norm, n) && i < n && (|fm| == 1 || |fm| == 2) && ColumnsFor(norm, fm) != []
    requires forall m :: 0 <= m < |ColumnsFor(norm, fm)| ==> |ColumnsFor(norm, fm)[m]| == n
    ensures var mean := Mean(Across(ColumnsFor(norm, fm), i));
      && (|fm| == 1 ==> mean == Lookup(norm, fm[0]).value[i])
      && (|fm| == 2 && Lookup(norm, fm[0]).Some? && Lookup(norm, fm[1]).Some? ==>
            mean == (Lookup(norm, fm[0]).value[i] + Lookup(norm, fm[1]).value[i]) / 2.0)
      && (|fm| == 2 && Lookup(norm, fm[0]).Some? && Lookup(norm, fm[1]).None? ==> mean == Lookup(norm, fm[0]).value[i])
      && (|fm| == 2 && Lookup(norm, fm[0]).None? && Lookup(norm, fm[1]).Some? ==> mean == Lookup(norm, fm[1]).value[i])
  {
    var cs := ColumnSet(norm);
    var xs := Across(ColumnsFor(norm, fm), i);
    if |fm| == 1 {
      KeepInOne(fm[0], cs);
      assert fm == [fm[0]];
      MeanOne(xs);
    } else {
      assert fm == [fm[0], fm[1]];
      KeepInPair(fm[0], fm[1], cs);
      if |xs| == 2 {
        MeanPair(xs);
      } else {
        MeanOne(xs);
      }
    }
  }

  lemma MeanOne(xs: seq<real>)
    requires |xs| == 1
    ensures Mean(xs) == xs[0]
  {
    assert Sum(xs) == xs[0] + Sum(xs[1..]);
  }

  lemma MeanPair(xs: seq<real>)
    requires |xs| == 2
    ensures Mean(xs) == (xs[0] + xs[1]) / 2.0
  {
    assert Sum(xs) == xs[0] + Sum(xs[1..]);
    assert Sum(xs[1..]) == xs[1] + Sum(xs[1..][1..]);
  }

  /**
   * A candidate at least as high as another on every column of a category is at least as high on
   * that category's bucket.
   */
  lemma CategoryBucketMonotone(norm: NumFrame, k: string, n: nat, i: nat, j: nat)
    requires Rect(norm, n) && i < n && j < n
    requires forall c, v :: Named(c, v) in norm && c in FeatureMap(k) ==> i < |v| && j < |v| && v[j] <= v[i]
    ensures forall b :: b in CategoryBucket(norm, k, n) ==> b.values[j].value <= b.values[i].value
  {
    var cols := ColumnsFor(norm, FeatureMap(k));
    if cols != [] {
      forall m | 0 <= m < |cols| ensures |cols[m]| == n && cols[m][j] <= cols[m][i] {
        ColumnsForSource(norm, FeatureMap(k), m);
      }
      MeanMonotone(Across(cols, j), Across(cols, i));
    }
  }

  /** A category's bucket holds, per candidate, the mean of its attributes, so it stays in [0, 1]. */
  lemma CategoryBucketInRange(norm: NumFrame, k: string, n: nat)
    requires UnitFrame(norm, n)
    ensures forall b, i :: b in CategoryBucket(norm, k, n) && 0 <= i < |b.values| ==>
      b.values[i].Some? && 0.0 <= b.values[i].value <= 1.0
  {
    var cols := ColumnsFor(norm, FeatureMap(k));
    if cols != [] {
      forall m | 0 <= m < |cols| ensures |cols[m]| == n && forall i :: 0 <= i < n ==> 0.0 <= cols[m][i] <= 1.0 {
        ColumnsForSource(norm, FeatureMap(k), m);
        var kept := KeepIn(FeatureMap(k), ColumnSet(norm));
        var q :| 0 <= q < |norm| && norm[q] == Named(kept[m], cols[m]);
      }
      forall i | 0 <= i < n ensures 0.0 <= Mean(Across(cols, i)) <= 1.0 {
        MeanBounds(Across(cols, i), 0.0, 1.0);
      }
    }
  }

  /** Every category bucket is defined for every candidate and lies in [0, 1]. */
  lemma {:induction false} CategoryBucketsInRange(norm: NumFrame, ks: seq<string>, n: nat)
    requires UnitFrame(norm, n)
    ensures forall b, i :: b in CategoryBuckets(norm, ks, n) && 0 <= i < |b.values| ==>
      b.values[i].Some? && 0.0 <= b.values[i].value <= 1.0
    decreases |ks|
  {
    if ks != [] {
      CategoryBucketsInRange(norm, ks[..|ks| - 1], n);
      CategoryBucketInRange(norm, ks[|ks| - 1], n);
    }
  }

  lemma NamesAppend<T>(x: seq<Named<T>>, y: seq<Named<T>>)
    ensures Names(x + y) == Names(x) + Names(y)
  {
  }

  /** A category has a bucket exactly when one of its attributes survived normalisation. */
  lemma {:induction false} CategoryBucketsNames(norm: NumFrame, ks: seq<string>, n: nat)
    requires Rect(norm, n)
    ensures forall k :: k in Names(CategoryBuckets(norm, ks, n)) <==> k in ks && HasColumns(norm, k)
    decreases |ks|
  {
    if ks != [] {
      var init, last := ks[..|ks| - 1], ks[|ks| - 1];
      assert ks == init + [last];
      var b := CategoryBucket(norm, last, n);
      CategoryBucketsNames(norm, init, n);
      NamesAppend(CategoryBuckets(norm, init, n), b);
      assert Names(b) == if HasColumns(norm, last) then [last] else [];
      assert CategoryBuckets(norm, ks, n) == CategoryBuckets(norm, init, n) + b;
    }
  }

  /** The loop of lines 150-156 over `feature_map`, in its order. */
  method BuildBuckets(norm: NumFrame, n: nat) returns (bs: seq<Bucket>)
    requires Rect(norm, n)
    ensures bs == CategoryBuckets(norm, Categories, n)
  {
    bs := [];
    var j := 0;
    while j < |Categories|
      invariant 0 <= j <= |Categories|
      invariant bs == CategoryBuckets(norm, Categories[..j], n)
    {
      bs := bs + CategoryBucket(norm, Categories[j], n);
      assert Categories[..j + 1][..j] == Categories[..j];
      j := j + 1;
    }
    assert Categories[..|Categories|] == Categories;
  }

  /** Every bucket gets weight 1. */
  function EqualWeights(keys: set<string>): (w: map<string, real>)
    ensures w.Keys == keys
    ensures forall k :: k in w ==> w[k] == 1.0
  {
    map k | k in keys :: 1.0
  }

  /** The positive priorities that name a bucket, pass-through keys aside. */
  function Explicit(prio: map<string, real>, keys: set<string>): (w: map<string, real>)
    ensures forall k :: k in w <==> k in prio && !PassThrough(k) && prio[k] > 0.0 && k in keys
    ensures forall k :: k in w ==> w[k] == prio[k]
  {
    map k | k in prio && !PassThrough(k) && prio[k] > 0.0 && k in keys :: prio[k]
  }

  /** `user_priorities.get('admissions', 1.0)`. */
  function FitDefault(prio: map<string, real>): real
  {
    if "admissions" in prio then prio["admissions"] else 1.0
  }

  /**
   * Lines 215-227: no priorities give every bucket weight 1; otherwise the explicit weights, the
   * fit bucket taking the admissions priority (or 1) when it has none, and equal weights when
   * that leaves nothing.
   */
  function ResolveWeights(prio: map<string, real>, keys: set<string>): (w: map<string, real>)
    ensures w.Keys <= keys
  {
    if prio == map[] then EqualWeights(keys)
    else
      var explicit := Explicit(prio, keys);
      var withFit := if "fit" in keys && "fit" !in explicit then explicit["fit" := FitDefault(prio)] else explicit;
      if withFit == map[] then EqualWeights(keys) else withFit
  }

  /** `w_series.reindex(...).fillna(0.0)`: a bucket without a weight counts with weight 0. */
  function Weight(w: map<string, real>, k: string): real
  {
    if k in w then w[k] else 0.0
  }

  /** A positive priority naming a bucket is used as that bucket's weight. */
  lemma ExplicitWeightHonoured(prio: map<string, real>, keys: set<string>, k: string)
    requires k in keys && k in prio && !PassThrough(k) && prio[k] > 0.0
    ensures Weight(ResolveWeights(prio, keys), k) == prio[k]
  {
    var e := Explicit(prio, keys);
    assert k in e && e[k] == prio[k];
    assert prio != map[] by { assert k in prio; }
    if "fit" in keys && "fit" !in e {
      var wf := e["fit" := FitDefault(prio)];
      assert k in wf && wf[k] == prio[k];
    }
  }

  /** With priorities given, a fit bucket without its own positive weight takes the admissions priority, or 1. */
  lemma FitWeight(prio: map<string, real>, keys: set<string>)
    requires prio != map[] && "fit" in keys
    requires "fit" !in prio || prio["fit"] <= 0.0
    ensures Weight(ResolveWeights(prio, keys), "fit") == FitDefault(prio)
  {
    var e := Explicit(prio, keys);
    assert "fit" !in e;
    var wf := e["fit" := FitDefault(prio)];
    assert "fit" in wf && wf["fit"] == FitDefault(prio);
  }

  /** Equal weights when no priorities are given, or none is positive and there is no fit bucket. */
  lemma EqualWeightsWhen(prio: map<string, real>, keys: set<string>)
    requires prio == map[] || (Explicit(prio, keys) == map[] && "fit" !in keys)
    ensures ResolveWeights(prio, keys) == EqualWeights(keys)
  {
  }

  /** Otherwise the weighted buckets are the positively prioritised ones, plus the fit bucket when there is one. */
  lemma WeightedBuckets(prio: map<string, real>, keys: set<string>)
    requires prio != map[] && (Explicit(prio, keys) != map[] || "fit" in keys)
    ensures forall k :: k in ResolveWeights(prio, keys) <==>
      (k in keys && k in prio && !PassThrough(k) && prio[k] > 0.0) || (k == "fit" && "fit" in keys)
  {
    var e := Explicit(prio, keys);
    if "fit" in keys && "fit" !in e {
      var wf := e["fit" := FitDefault(prio)];
      assert "fit" in wf;
      assert ResolveWeights(prio, keys) == wf;
    } else {
      assert ResolveWeights(prio, keys) == e;
    }
  }

  /** A priority that names no bucket and is not `admissions` leaves the weights alone, whatever its value. */
  lemma UnbucketedKeyIgnored(prio: map<string, real>, keys: set<string>, k: string, a: real, b: real)
    requires k !in keys && k != "admissions"
    ensures ResolveWeights(prio[k := a], keys) == ResolveWeights(prio[k := b], keys)
  {
    var pa, pb := prio[k := a], prio[k := b];
    assert k in pa && k in pb;
    assert Explicit(pa, keys) == Explicit(pb, keys);
    assert FitDefault(pa) == FitDefault(pb);
  }

  /** No weight is negative unless the admissions priority is. */
  lemma WeightsNonnegative(prio: map<string, real>, keys: set<string>)
    requires "admissions" !in prio || prio["admissions"] >= 0.0
    ensures forall k :: k in ResolveWeights(prio, keys) ==> ResolveWeights(prio, keys)[k] >= 0.0
  {
  }

  /** One candidate's row of `score_df`: each bucket's name with its cell. */
  type Row = seq<(string, Option<real>)>

  function RowAt(bs: seq<Bucket>, i: nat): (row: Row)
    requires forall j :: 0 <= j < |bs| ==> i < |bs[j].values|
    ensures |row| == |bs|
    ensures forall j :: 0 <= j < |bs| ==> row[j] == (bs[j].name, bs[j].values[i])
  {
    seq(|bs|, j requires 0 <= j < |bs| && i < |bs[j].values| => (bs[j].name, bs[j].values[i]))
  }

  /** `row_den`: the weights of the buckets with a value. */
  function Den(row: Row, w: map<string, real>): real
  {
    if row == [] then 0.0 else Part(row[0], w) + Den(row[1..], w)
  }

  /** A bucket's weight when it has a value, and 0 otherwise (`valid_mask * w_series`). */
  function Part(cell: (string, Option<real>), w: map<string, real>): real
  {
    if cell.1.Some? then Weight(w, cell.0) else 0.0
  }

  /** A bucket's weighted value, a missing value counting as 0 (`fillna(0.0) * w_series`). */
  function Contribution(cell: (string, Option<real>), w: map<string, real>): real
  {
    if cell.1.Some? then Weight(w, cell.0) * cell.1.value else 0.0
  }

  /** `row_num`: the weighted sum of the values present, a missing value counting as 0. */
  function Num(row: Row, w: map<string, real>): real
  {
    if row == [] then 0.0 else Contribution(row[0], w) + Num(row[1..], w)
  }

  /** `row_num / row_den.replace(0, nan)`: missing when the weights of the buckets present sum to 0. */
  function Overall(row: Row, w: map<string, real>): Option<real>
  {
    var d := Den(row, w);
    if d == 0.0 then None else Some(Num(row, w) / d)
  }

  predicate NonnegWeights(w: map<string, real>)
  {
    forall k :: k in w ==> w[k] >= 0.0
  }

  /** Every bucket value present in the row lies in [0, 1]. */
  predicate UnitCells(row: Row)
  {
    forall j :: 0 <= j < |row| && row[j].1.Some? ==> 0.0 <= row[j].1.value <= 1.0
  }

  /** With non-negative weights and values in [0, 1], the weighted sum lies between 0 and the total weight. */
  lemma {:induction false} NumBetween(row: Row, w: map<string, real>)
    requires NonnegWeights(w) && UnitCells(row)
    ensures 0.0 <= Num(row, w) <= Den(row, w)
  {
    if row != [] {
      assert UnitCells(row[1..]) by {
        assert forall j :: 1 <= j < |row| ==> row[1..][j - 1] == row[j];
      }
      NumBetween(row[1..], w);
      PartBetween(row[0], w);
    }
  }

  lemma PartBetween(cell: (string, Option<real>), w: map<string, real>)
    requires NonnegWeights(w)
    requires cell.1.Some? ==> 0.0 <= cell.1.value <= 1.0
    ensures 0.0 <= Contribution(cell, w) <= Part(cell, w)
  {
    if cell.1.Some? {
      var c := Weight(w, cell.0);
      assert c >= 0.0;
      MulMonotone(c, 0.0, cell.1.value);
      MulMonotone(c, cell.1.value, 1.0);
    }
  }

  /** With non-negative weights and bucket values in [0, 1], every score is in [0, 1]. */
  lemma OverallInUnitRange(row: Row, w: map<string, real>)
    requires NonnegWeights(w) && UnitCells(row)
    ensures Overall(row, w).Some? ==> 0.0 <= Overall(row, w).value <= 1.0
  {
    NumBetween(row, w);
    DenZeroIff(row, w);
    if Den(row, w) != 0.0 {
      assert Den(row, w) * 0.0 <= Num(row, w) <= Den(row, w) * 1.0;
      DivBounds(Num(row, w), Den(row, w), 0.0, 1.0);
    }
  }

  /** With non-negative weights, a total weight of 0 means no bucket with a positive weight has a value. */
  lemma {:induction false} DenZeroIff(row: Row, w: map<string, real>)
    requires NonnegWeights(w)
    ensures Den(row, w) >= 0.0
    ensures Den(row, w) == 0.0 <==> forall j :: 0 <= j < |row| && row[j].1.Some? ==> Weight(w, row[j].0) == 0.0
  {
    if row != [] {
      DenZeroIff(row[1..], w);
      assert forall j :: 1 <= j < |row| ==> row[j] == row[1..][j - 1];
    }
  }

  /** With non-negative weights, a school has a score exactly when a bucket with a positive weight has a value for it. */
  lemma OverallDefinedIff(row: Row, w: map<string, real>)
    requires NonnegWeights(w)
    ensures Overall(row, w).Some? <==> exists j :: 0 <= j < |row| && row[j].1.Some? && Weight(w, row[j].0) > 0.0
  {
    DenZeroIff(row, w);
  }

  function Cells(row: Row): (cs: seq<Option<real>>)
    ensures |cs| == |row|
    ensures forall j :: 0 <= j < |row| ==> cs[j] == row[j].1
  {
    seq(|row|, j requires 0 <= j < |row| => row[j].1)
  }

  /** With every bucket weighted 1, the total weight counts the values present and the sum adds them. */
  lemma {:induction false} UnitWeightSums(row: Row, w: map<string, real>)
    requires forall j :: 0 <= j < |row| ==> Weight(w, row[j].0) == 1.0
    ensures Den(row, w) == |Present(Cells(row))| as real
    ensures Num(row, w) == Sum(Present(Cells(row)))
  {
    if row != [] {
      assert forall j :: 1 <= j < |row| ==> row[1..][j - 1] == row[j];
      UnitWeightSums(row[1..], w);
      assert Cells(row)[1..] == Cells(row[1..]);
    }
  }

  /** Equal weights make the score the plain mean of the buckets present (`mean(skipna=True)`). */
  lemma EqualWeightsMean(row: Row, keys: set<string>)
    requires forall j :: 0 <= j < |row| ==> row[j].0 in keys
    ensures Overall(row, EqualWeights(keys)) == SkipMean(Cells(row))
  {
    UnitWeightSums(row, EqualWeights(keys));
  }

  /** Changing the weight of a bucket that has no value for this school leaves its score unchanged. */
  lemma {:induction false} MissingBucketIgnored(row: Row, w: map<string, real>, k: string, x: real)
    requires forall j :: 0 <= j < |row| && row[j].0 == k ==> row[j].1.None?
    ensures Overall(row, w[k := x]) == Overall(row, w)
  {
    SameSums(row, w, k, x);
  }

  lemma {:induction false} SameSums(row: Row, w: map<string, real>, k: string, x: real)
    requires forall j :: 0 <= j < |row| && row[j].0 == k ==> row[j].1.None?
    ensures Den(row, w[k := x]) == Den(row, w) && Num(row, w[k := x]) == Num(row, w)
  {
    if row != [] {
      assert forall j :: 1 <= j < |row| ==> row[1..][j - 1] == row[j];
      SameSums(row[1..], w, k, x);
    }
  }

  /**
   * Priorities that give no bucket a positive weight, with an admissions priority of 0 and a fit
   * bucket present, weight the fit bucket 0 and nothing else: then no school gets a score.
   */
  lemma ZeroAdmissionsQuirk(prio: map<string, real>, keys: set<string>, row: Row)
    requires "fit" in keys && "admissions" in prio && prio["admissions"] == 0.0
    requires forall k :: k in prio && !PassThrough(k) && k in keys ==> prio[k] <= 0.0
    ensures ResolveWeights(prio, keys) == map["fit" := 0.0]
    ensures Overall(row, ResolveWeights(prio, keys)) == None
  {
    assert Explicit(prio, keys) == map[];
    var w := ResolveWeights(prio, keys);
    DenZeroIff(row, w);
  }
}
