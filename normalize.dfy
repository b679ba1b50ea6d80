/**
 * The robust normaliser and the directional corrector (app/ml/recommendations.py,
 * lines 58-60 and 113-147): winsorize each kept column to its 1st-99th percentiles,
 * fill the gaps with the column median, drop columns that are still empty, scale each
 * column to [0, 1], and flip the "lower is better" columns.
 */
module Normalize {
  import opened Options
  import opened StringOrder
  import opened Stats
  import opened Schema

  type RawFrame = seq<Named<Option<real>>>
  type NumFrame = seq<Named<real>>

  /** `num_df[keep_feats]`: the kept attributes' columns, in order. */
  function Extract(t: Table, keep: seq<string>): (f: RawFrame)
    ensures |f| == |keep| && Rect(f, |t.rows|)
    ensures Names(f) == keep
    ensures forall j :: 0 <= j < |keep| ==> f[j].values == ColumnOf(t, keep[j])
    ensures FromTable(f, t)
  {
    var f := seq(|keep|, j requires 0 <= j < |keep| => Named(keep[j], ColumnOf(t, keep[j])));
    assert Names(f) == keep;
    f
  }

  const WinsorLow: real := 0.01
  const WinsorHigh: real := 0.99

  /** The clipping band of a column with data: its 1st and 99th percentiles. */
  function WinsorBounds(p: seq<real>): (b: (real, real))
    requires |p| > 0
    ensures MinOf(p) <= b.0 <= b.1 <= MaxOf(p)
  {
    QuantileMonotone(p, WinsorLow, WinsorHigh);
    QuantileBounds(p, WinsorLow);
    QuantileBounds(p, WinsorHigh);
    (Quantile(p, WinsorLow), Quantile(p, WinsorHigh))
  }

  /** Every present value clamped to [ql, qu]; missing cells stay missing. */
  function Clip(col: seq<Option<real>>, ql: real, qu: real): (r: seq<Option<real>>)
    requires ql <= qu
    ensures |r| == |col|
    ensures forall i :: 0 <= i < |col| ==> (r[i].Some? <==> col[i].Some?)
    ensures forall i :: 0 <= i < |col| && col[i].Some? ==> r[i].value == Clamp(col[i].value, ql, qu)
  {
    seq(|col|, i requires 0 <= i < |col| => if col[i].Some? then Some(Clamp(col[i].value, ql, qu)) else None)
  }

  /**
   * `winsorize_series`: a column without data is returned as it is; otherwise every present
   * value is clipped to the band and missing cells stay missing.
   */
  function Winsorize(col: seq<Option<real>>): (r: seq<Option<real>>)
    ensures |r| == |col|
    ensures forall i :: 0 <= i < |col| ==> (r[i].Some? <==> col[i].Some?)
    ensures Present(col) == [] ==> r == col
  {
    var p := Present(col);
    if p == [] then col
    else
      var b := WinsorBounds(p);
      Clip(col, b.0, b.1)
  }

  /** A present value is clamped to the band of its column. */
  lemma WinsorizeAt(col: seq<Option<real>>, i: nat)
    requires i < |col| && col[i].Some?
    ensures Present(col) != []
    ensures var b := WinsorBounds(Present(col));
      Winsorize(col)[i] == Some(Clamp(col[i].value, b.0, b.1))
  {
    assert Some(col[i].value) in col;
    WinsorizeIsClip(col);
  }

  /** Every present value ends up inside the band, and a value already inside it is unchanged. */
  lemma WinsorizeClips(col: seq<Option<real>>)
    requires Present(col) != []
    ensures var b := WinsorBounds(Present(col));
      var r := Winsorize(col);
      && MinOf(Present(col)) <= b.0 <= b.1 <= MaxOf(Present(col))
      && (forall i :: 0 <= i < |col| && col[i].Some? ==> b.0 <= r[i].value <= b.1)
      && (forall i :: 0 <= i < |col| && col[i].Some? && b.0 <= col[i].value <= b.1 ==> r[i] == col[i])
  {
    var b := WinsorBounds(Present(col));
    WinsorizeIsClip(col);
    ClipBounds(col, b.0, b.1);
  }

  lemma WinsorizeIsClip(col: seq<Option<real>>)
    requires Present(col) != []
    ensures var b := WinsorBounds(Present(col));
      Winsorize(col) == Clip(col, b.0, b.1)
  {
  }

  lemma ClipBounds(col: seq<Option<real>>, ql: real, qu: real)
    requires ql <= qu
    ensures var r := Clip(col, ql, qu);
      && (forall i :: 0 <= i < |col| && col[i].Some? ==> ql <= r[i].value <= qu)
      && (forall i :: 0 <= i < |col| && col[i].Some? && ql <= col[i].value <= qu ==> r[i] == col[i])
  {
  }

  /** Winsorizing neither creates nor removes data. */
  lemma WinsorizePresence(col: seq<Option<real>>)
    ensures Present(Winsorize(col)) == [] <==> Present(col) == []
  {
  }

  /** Winsorizing keeps the order of any two present values. */
  lemma WinsorizeMonotone(col: seq<Option<real>>, i: nat, j: nat)
    requires i < |col| && j < |col| && col[i].Some? && col[j].Some? && col[i].value <= col[j].value
    ensures Winsorize(col)[i].value <= Winsorize(col)[j].value
  {
    WinsorizeAt(col, i);
    WinsorizeAt(col, j);
  }

  /** Applies `g` to every column's values, keeping names and order. */
  function MapColumns(f: RawFrame, g: seq<Option<real>> -> seq<Option<real>>): (r: RawFrame)
    ensures |r| == |f|
    ensures forall k :: 0 <= k < |f| ==> r[k] == Named(f[k].name, g(f[k].values))
  {
    seq(|f|, k requires 0 <= k < |f| => Named(f[k].name, g(f[k].values)))
  }

  function WinsorizeFrame(f: RawFrame): (r: RawFrame)
    ensures |r| == |f| && Names(r) == Names(f)
  {
    var r := MapColumns(f, Winsorize);
    assert Names(r) == Names(f);
    r
  }

  /** The loop of lines 123-124: each column replaced in place by its winsorized copy. */
  method WinsorizeColumns(f: RawFrame) returns (g: RawFrame)
    ensures g == WinsorizeFrame(f)
  {
    g := f;
    var j := 0;
    while j < |g|
      invariant 0 <= j <= |g| == |f|
      invariant forall k :: 0 <= k < j ==> g[k] == Named(f[k].name, Winsorize(f[k].values))
      invariant forall k :: j <= k < |g| ==> g[k] == f[k]
    {
      g := g[j := Named(g[j].name, Winsorize(g[j].values))];
      j := j + 1;
    }
  }

  /** `fillna(median)`: present values kept, every gap filled with the one median of the present values. */
  function Impute(col: seq<Option<real>>): (r: seq<real>)
    requires Present(col) != []
    ensures |r| == |col|
    ensures forall i :: 0 <= i < |col| && col[i].Some? ==> r[i] == col[i].value
    ensures forall i :: 0 <= i < |col| && col[i].None? ==> r[i] == Median(Present(col))
  {
    var m := Median(Present(col));
    seq(|col|, i requires 0 <= i < |col| => if col[i].Some? then col[i].value else m)
  }

  /** The fill value lies between the smallest and the largest present value. */
  lemma ImputeWithinRange(col: seq<Option<real>>)
    requires Present(col) != []
    ensures forall i :: 0 <= i < |col| ==> MinOf(Present(col)) <= Impute(col)[i] <= MaxOf(Present(col))
  {
    var p := Present(col);
    QuantileBounds(p, 0.5);
    forall i | 0 <= i < |col| ensures MinOf(p) <= Impute(col)[i] <= MaxOf(p) {
      if col[i].Some? {
        PresentHas(col, i);
      }
    }
  }

  /** Every column of the frame is the table's column of the same name. */
  predicate FromTable(f: RawFrame, t: Table)
  {
    forall c :: c in f ==> c.values == ColumnOf(t, c.name)
  }

  /** Has at least one present value, so survives imputation. */
  predicate HasData(c: Named<Option<real>>)
  {
    Present(c.values) != []
  }

  /** The columns with at least one present value, in their order: `dropna(axis=1, how="all")`. */
  function WithData(f: RawFrame): (r: RawFrame)
    ensures |r| <= |f|
    ensures forall c :: c in r <==> c in f && HasData(c)
    ensures forall k :: 0 <= k < |r| ==> HasData(r[k])
    ensures IsSubsequence(r, f)
    ensures forall c :: HasData(c) ==> multiset(r)[c] == multiset(f)[c]
  {
    if f == [] then []
    else
      var rest := WithData(f[1..]);
      assert f == [f[0]] + f[1..];
      if HasData(f[0]) then
        assert ([f[0]] + rest)[1..] == rest;
        [f[0]] + rest
      else rest
  }

  /** Median imputation of every column. */
  function Fill(f: RawFrame): (r: NumFrame)
    requires forall k :: 0 <= k < |f| ==> HasData(f[k])
    ensures |r| == |f|
  {
    seq(|f|, k requires 0 <= k < |f| && HasData(f[k]) => Named(f[k].name, Impute(f[k].values)))
  }

  /** The scaled value of `v` on the range [lo, hi]. */
  function Rescale(v: real, lo: real, hi: real): real
    requires lo < hi
  {
    (v - lo) / (hi - lo)
  }

  lemma RescaleBounds(v: real, lo: real, hi: real)
    requires lo <= v <= hi && lo < hi
    ensures 0.0 <= Rescale(v, lo, hi) <= 1.0
  {
    DivBounds(v - lo, hi - lo, 0.0, 1.0);
  }

  /** The ends of the range scale to 0 and 1. */
  lemma RescaleEnds(lo: real, hi: real)
    requires lo < hi
    ensures Rescale(lo, lo, hi) == 0.0 && Rescale(hi, lo, hi) == 1.0
  {
    DivBounds(hi - lo, hi - lo, 1.0, 1.0);
  }

  lemma RescaleMonotone(v: real, w: real, lo: real, hi: real)
    requires v <= w && lo < hi
    ensures Rescale(v, lo, hi) <= Rescale(w, lo, hi)
  {
    var d := hi - lo;
    var a, b := (v - lo) / d, (w - lo) / d;
    assert a * d == v - lo && b * d == w - lo;
    assert (b - a) * d == b * d - a * d;
    SignFromProduct(b - a, d);
  }

  /**
   * `MinMaxScaler` on one column: (v - min) / (max - min), and 0 everywhere when the column
   * is constant; every value lands in [0, 1] and the order of values is kept.
   */
  function MinMax(col: seq<real>): (r: seq<real>)
    requires |col| > 0
    ensures |r| == |col|
    ensures forall i :: 0 <= i < |r| ==> 0.0 <= r[i] <= 1.0
    ensures (forall i :: 0 <= i < |col| ==> col[i] == col[0]) ==> forall i :: 0 <= i < |r| ==> r[i] == 0.0
    ensures forall i :: 0 <= i < |col| && col[i] == MinOf(col) ==> r[i] == 0.0
    ensures MinOf(col) < MaxOf(col) ==> forall i :: 0 <= i < |col| && col[i] == MaxOf(col) ==> r[i] == 1.0
  {
    var lo, hi := MinOf(col), MaxOf(col);
    assert forall i :: 0 <= i < |col| ==> lo <= col[i] <= hi by {
      forall i | 0 <= i < |col| ensures lo <= col[i] <= hi {
        assert col[i] in col;
      }
    }
    var r := seq(|col|, i requires 0 <= i < |col| => if lo < hi then Rescale(col[i], lo, hi) else 0.0);
    assert forall i :: 0 <= i < |col| ==> 0.0 <= r[i] <= 1.0 by {
      forall i | 0 <= i < |col| ensures 0.0 <= r[i] <= 1.0 {
        if lo < hi {
          RescaleBounds(col[i], lo, hi);
        }
      }
    }
    assert lo < hi ==> Rescale(lo, lo, hi) == 0.0 && Rescale(hi, lo, hi) == 1.0 by {
      if lo < hi {
        RescaleEnds(lo, hi);
      }
    }
    r
  }

  /** Scaling keeps the order of any two values. */
  lemma MinMaxMonotone(col: seq<real>, i: nat, j: nat)
    requires i < |col| && j < |col| && col[i] <= col[j]
    ensures MinMax(col)[i] <= MinMax(col)[j]
  {
    var lo, hi := MinOf(col), MaxOf(col);
    if lo < hi {
      RescaleMonotone(col[i], col[j], lo, hi);
    }
  }

  function ScaleFrame(f: NumFrame): (r: NumFrame)
    requires forall j :: 0 <= j < |f| ==> |f[j].values| > 0
    ensures |r| == |f|
  {
    seq(|f|, j requires 0 <= j < |f| => Named(f[j].name, MinMax(f[j].values)))
  }

  /** `invert_after_norm`: the cost columns always, the admission rate when selectivity is preferred. */
  function InvertSet(preferSelectivity: bool): (s: set<string>)
    ensures CostCol in s && "median_debt" in s
    ensures "admission_rate" in s <==> preferSelectivity
    ensures forall c :: c in s ==> c == CostCol || c == "median_debt" || c == "admission_rate"
  {
    {CostCol, "median_debt"} + (if preferSelectivity then {"admission_rate"} else {})
  }

  /** `1 - norm[feat]`: reverses the order of a column, and keeps a column in [0, 1] in [0, 1]. */
  function Flip(vs: seq<real>): (r: seq<real>)
    ensures |r| == |vs|
    ensures forall i :: 0 <= i < |vs| ==> r[i] == 1.0 - vs[i]
    ensures (forall i :: 0 <= i < |vs| ==> 0.0 <= vs[i] <= 1.0) ==> forall i :: 0 <= i < |r| ==> 0.0 <= r[i] <= 1.0
  {
    seq(|vs|, i requires 0 <= i < |vs| => 1.0 - vs[i])
  }

  /** Every column whose name is in `inv` is flipped; every other column is left as it is. */
  function InvertFrame(f: NumFrame, inv: set<string>): (r: NumFrame)
    ensures |r| == |f|
  {
    seq(|f|, j requires 0 <= j < |f| => if f[j].name in inv then Named(f[j].name, Flip(f[j].values)) else f[j])
  }

  /** The loop of lines 145-147: each "lower is better" column replaced in place by 1 - v. */
  method InvertColumns(f: NumFrame, inv: set<string>) returns (g: NumFrame)
    ensures g == InvertFrame(f, inv)
  {
    g := f;
    var j := 0;
    while j < |g|
      invariant 0 <= j <= |g| == |f|
      invariant forall k :: 0 <= k < j ==> g[k] == InvertFrame(f, inv)[k]
      invariant forall k :: j <= k < |g| ==> g[k] == f[k]
    {
      if g[j].name in inv {
        g := g[j := Named(g[j].name, Flip(g[j].values))];
      }
      j := j + 1;
    }
  }

  /** Steps 116-147 on the kept columns; NoUsableNumericFeatures when no column has any data. */
  function NormalizeFrame(raw: RawFrame, preferSelectivity: bool): (r: Result<NumFrame, EngineError>)
    ensures r.Err? ==> r.error == NoUsableNumericFeatures
  {
    var kept := WithData(WinsorizeFrame(raw));
    if kept == [] then Err(NoUsableNumericFeatures)
    else Ok(ScaleInvert(kept, InvertSet(preferSelectivity)))
  }

  /** Lines 127-147 on the columns that have data: fill each with its median, scale it, flip it if it is in `inv`. */
  function ScaleInvert(w: RawFrame, inv: set<string>): (r: NumFrame)
    requires forall k :: 0 <= k < |w| ==> HasData(w[k])
    ensures |r| == |w|
    ensures forall k :: 0 <= k < |w| && HasData(w[k]) ==>
      var m := MinMax(Impute(w[k].values));
      r[k] == Named(w[k].name, if w[k].name in inv then Flip(m) else m)
  {
    InvertFrame(ScaleFrame(Fill(w)), inv)
  }

  /** A column with data winsorized, filled and scaled. */
  function ScaledColumn(col: seq<Option<real>>): (r: seq<real>)
    requires Present(col) != []
    ensures |r| == |col|
    ensures forall i :: 0 <= i < |r| ==> 0.0 <= r[i] <= 1.0
  {
    WinsorizePresence(col);
    MinMax(Impute(Winsorize(col)))
  }

  /** Winsorizing, filling and scaling keep the order of any two present values. */
  lemma ScaledColumnMonotone(col: seq<Option<real>>, i: nat, j: nat)
    requires Present(col) != []
    requires i < |col| && j < |col| && col[i].Some? && col[j].Some? && col[i].value <= col[j].value
    ensures ScaledColumn(col)[i] <= ScaledColumn(col)[j]
  {
    WinsorizePresence(col);
    WinsorizeMonotone(col, i, j);
    var w := Winsorize(col);
    var filled := Impute(w);
    assert filled[i] == w[i].value && filled[j] == w[j].value;
    MinMaxMonotone(filled, i, j);
  }

  /** What the normaliser does to one column with data: winsorize, fill, scale, and flip when `inverted`. */
  function NormalizeColumn(col: seq<Option<real>>, inverted: bool): (r: seq<real>)
    requires Present(col) != []
    ensures |r| == |col|
    ensures forall i :: 0 <= i < |r| ==> 0.0 <= r[i] <= 1.0
  {
    Orient(ScaledColumn(col), inverted)
  }

  /** A scaled column, flipped when it is one of the "lower is better" columns; stays in [0, 1]. */
  function Orient(scaled: seq<real>, inverted: bool): (r: seq<real>)
    requires forall i :: 0 <= i < |scaled| ==> 0.0 <= scaled[i] <= 1.0
    ensures |r| == |scaled|
    ensures forall i :: 0 <= i < |r| ==> 0.0 <= r[i] <= 1.0
  {
    if inverted then Flip(scaled) else scaled
  }

  /** Directional correctness: a lower raw value never scores lower on an inverted column, never higher on another. */
  lemma NormalizeColumnDirection(col: seq<Option<real>>, inverted: bool, i: nat, j: nat)
    requires Present(col) != []
    requires i < |col| && j < |col| && col[i].Some? && col[j].Some? && col[i].value <= col[j].value
    ensures inverted ==> NormalizeColumn(col, inverted)[j] <= NormalizeColumn(col, inverted)[i]
    ensures !inverted ==> NormalizeColumn(col, inverted)[i] <= NormalizeColumn(col, inverted)[j]
  {
    ScaledColumnMonotone(col, i, j);
  }

  /**
   * Candidate `i` is at least as good as candidate `j` on attribute `c` of the table: both
   * values are present, and `i`'s is the lower one on an inverted attribute, the higher one on
   * any other.
   */
  predicate AtLeastAsGood(t: Table, c: string, inv: set<string>, i: nat, j: nat)
  {
    var col := ColumnOf(t, c);
    && i < |col| && j < |col| && col[i].Some? && col[j].Some?
    && if c in inv then col[i].value <= col[j].value else col[j].value <= col[i].value
  }

  /**
   * Directional correctness of a whole normalised frame: a candidate at least as good as
   * another on an attribute never gets the lower normalised value for it.
   */
  lemma NormalizedAtLeastAsGood(d: RawFrame, t: Table, inv: set<string>, c: string, v: seq<real>, i: nat, j: nat)
    requires FromTable(d, t) && forall k :: 0 <= k < |d| ==> HasData(d[k])
    requires Named(c, v) in NormalizeEach(d, inv)
    requires AtLeastAsGood(t, c, inv, i, j)
    ensures i < |v| && j < |v| && v[j] <= v[i]
  {
    var e := NormalizeEach(d, inv);
    var k :| 0 <= k < |e| && e[k] == Named(c, v);
    assert d[k] in d;
    if c in inv {
      NormalizeColumnDirection(d[k].values, true, i, j);
    } else {
      NormalizeColumnDirection(d[k].values, false, j, i);
    }
  }

  /** One normalised column, under its own name. */
  function NormalizeNamed(c: Named<Option<real>>, inv: set<string>): Named<real>
    requires HasData(c)
  {
    Named(c.name, NormalizeColumn(c.values, c.name in inv))
  }

  /** Dropping the empty columns before or after a map that keeps emptiness gives the same columns. */
  lemma {:induction false} WithDataMap(f: RawFrame, g: seq<Option<real>> -> seq<Option<real>>)
    requires forall col {:trigger g(col)} :: Present(g(col)) == [] <==> Present(col) == []
    ensures WithData(MapColumns(f, g)) == MapColumns(WithData(f), g)
  {
    if f != [] {
      WithDataMap(f[1..], g);
      var w := MapColumns(f, g);
      assert w[1..] == MapColumns(f[1..], g);
      assert w[0] == Named(f[0].name, g(f[0].values));
      var head: RawFrame := if HasData(f[0]) then [f[0]] else [];
      var whead: RawFrame := if HasData(w[0]) then [w[0]] else [];
      assert HasData(w[0]) == HasData(f[0]);
      assert MapColumns(head, g) == whead;
      WithDataCons(w);
      WithDataCons(f);
      MapColumnsAppend(head, WithData(f[1..]), g);
    }
  }

  lemma WithDataCons(f: RawFrame)
    requires f != []
    ensures WithData(f) == (if HasData(f[0]) then [f[0]] else []) + WithData(f[1..])
  {
  }

  lemma MapColumnsAppend(a: RawFrame, b: RawFrame, g: seq<Option<real>> -> seq<Option<real>>)
    ensures MapColumns(a + b, g) == MapColumns(a, g) + MapColumns(b, g)
  {
    var l, r := MapColumns(a + b, g), MapColumns(a, g) + MapColumns(b, g);
    forall k | 0 <= k < |l| ensures l[k] == r[k] {
      if k >= |a| {
        assert (a + b)[k] == b[k - |a|];
      }
    }
  }

  lemma WinsorizeWithData(f: RawFrame)
    ensures WithData(WinsorizeFrame(f)) == WinsorizeFrame(WithData(f))
  {
    forall col ensures Present(Winsorize(col)) == [] <==> Present(col) == [] {
      WinsorizePresence(col);
    }
    WithDataMap(f, Winsorize);
  }

  /** Every column normalised on its own. */
  function NormalizeEach(d: RawFrame, inv: set<string>): (r: NumFrame)
    requires forall k :: 0 <= k < |d| ==> HasData(d[k])
    ensures |r| == |d|
    ensures forall k :: 0 <= k < |d| && HasData(d[k]) ==> r[k] == NormalizeNamed(d[k], inv)
  {
    seq(|d|, k requires 0 <= k < |d| && HasData(d[k]) => NormalizeNamed(d[k], inv))
  }

  /** On columns that all have data, the frame pipeline normalises each column on its own. */
  lemma NormalizeWithData(d: RawFrame, inv: set<string>)
    requires forall k :: 0 <= k < |d| ==> HasData(d[k])
    ensures var w := WinsorizeFrame(d);
      && (forall k :: 0 <= k < |w| ==> HasData(w[k]))
      && ScaleInvert(w, inv) == NormalizeEach(d, inv)
  {
    var w := WinsorizeFrame(d);
    forall k | 0 <= k < |w| ensures w[k] == Named(d[k].name, Winsorize(d[k].values)) && HasData(w[k]) {
      WinsorizePresence(d[k].values);
    }
    var f, e := ScaleInvert(w, inv), NormalizeEach(d, inv);
    forall k | 0 <= k < |d| ensures f[k] == e[k] {
      assert HasData(w[k]) && HasData(d[k]);
    }
  }

  /**
   * The whole normaliser: NoUsableNumericFeatures when no kept column has data, otherwise the
   * columns with data, in their order, each normalised on its own.
   */
  lemma NormalizeFrameExact(raw: RawFrame, preferSelectivity: bool)
    ensures var d := WithData(raw);
      NormalizeFrame(raw, preferSelectivity) ==
        if d == [] then Err(NoUsableNumericFeatures) else Ok(NormalizeEach(d, InvertSet(preferSelectivity)))
  {
    WinsorizeWithData(raw);
    NormalizeWithData(WithData(raw), InvertSet(preferSelectivity));
  }

  /** NoUsableNumericFeatures is raised exactly when every kept column is entirely missing. */
  lemma NormalizeErrorIff(raw: RawFrame, preferSelectivity: bool)
    ensures NormalizeFrame(raw, preferSelectivity).Err? <==> forall j :: 0 <= j < |raw| ==> !HasData(raw[j])
    ensures NormalizeFrame(raw, preferSelectivity).Err? ==> NormalizeFrame(raw, preferSelectivity).error == NoUsableNumericFeatures
  {
    NormalizeFrameExact(raw, preferSelectivity);
    WithDataEmpty(raw);
  }

  lemma {:induction false} WithDataEmpty(f: RawFrame)
    ensures WithData(f) == [] <==> forall j :: 0 <= j < |f| ==> !HasData(f[j])
  {
    if f != [] {
      WithDataEmpty(f[1..]);
      assert forall j :: 1 <= j < |f| ==> f[j] == f[1..][j - 1];
    }
  }

  /** Every normalised value lies in [0, 1], and each column keeps one value per candidate. */
  lemma NormalizedUnitRange(raw: RawFrame, n: nat, preferSelectivity: bool)
    requires Rect(raw, n) && NormalizeFrame(raw, preferSelectivity).Ok?
    ensures var f := NormalizeFrame(raw, preferSelectivity).value;
      && Rect(f, n)
      && forall k, i :: 0 <= k < |f| && 0 <= i < |f[k].values| ==> 0.0 <= f[k].values[i] <= 1.0
  {
    NormalizeFrameExact(raw, preferSelectivity);
    var d := WithData(raw);
    var f := NormalizeEach(d, InvertSet(preferSelectivity));
    forall k | 0 <= k < |d| ensures |f[k].values| == n {
      assert d[k] in raw;
    }
  }

  lemma InsertFront(x: real, s: seq<real>)
    requires Sorted(s) && (s == [] || x <= s[0])
    ensures Insert(x, s) == [x] + s
  {
  }

  lemma SortAscCons(x: real, s: seq<real>)
    ensures SortAsc([x] + s) == Insert(x, SortAsc(s))
  {
    assert ([x] + s)[1..] == s;
  }

  /** Three values already in order sort to themselves. */
  lemma SortThree(a: real, b: real, c: real)
    requires a <= b <= c
    ensures SortAsc([a, b, c]) == [a, b, c]
  {
    SortTwo(b, c);
    SortAscCons(a, [b, c]);
    InsertFront(a, [b, c]);
  }

  lemma SortTwo(b: real, c: real)
    requires b <= c
    ensures SortAsc([b, c]) == [b, c]
  {
    SortAscCons(c, []);
    InsertFront(c, []);
    assert SortAsc([c]) == [c];
    SortAscCons(b, [c]);
    InsertFront(b, [c]);
  }

  /** The winsorizing band of three ordered values: 2% and 98% of the way along the two gaps. */
  lemma BandOfThree(a: real, b: real, c: real)
    requires a <= b <= c
    ensures WinsorBounds([a, b, c]) == (Lerp(a, b, 0.02), Lerp(b, c, 0.98))
  {
    SortThree(a, b, c);
    assert Position(3, WinsorLow) == 0.02;
    assert (0.02).Floor == 0;
    assert Position(3, WinsorHigh) == 1.98;
    assert (1.98).Floor == 1;
  }

  lemma PresentThree(col: seq<Option<real>>)
    requires |col| == 3 && col[0].Some? && col[1].Some? && col[2].Some?
    ensures Present(col) == [col[0].value, col[1].value, col[2].value]
  {
    assert col[1..][1..][1..] == [];
    assert Present(col[1..][1..]) == [col[2].value];
    assert Present(col[1..]) == [col[1].value, col[2].value];
  }

  /** Three present values in order, the smallest below the middle one. */
  predicate GapAtBottom(col: seq<Option<real>>)
  {
    && |col| == 3 && col[0].Some? && col[1].Some? && col[2].Some?
    && col[0].value < col[1].value <= col[2].value
  }

  /** One pass on such a column lifts the smallest value to 2% of the gap above it and keeps the shape. */
  lemma WinsorizeThreeOnce(col: seq<Option<real>>)
    requires GapAtBottom(col)
    ensures var r := Winsorize(col);
      && GapAtBottom(r)
      && r[0].value == Lerp(col[0].value, col[1].value, 0.02) > col[0].value
  {
    var a, b, c := col[0].value, col[1].value, col[2].value;
    PresentThree(col);
    BandOfThree(a, b, c);
    LerpBetween(b, c, 0.98);
    WinsorizeAt(col, 0);
    WinsorizeAt(col, 1);
    WinsorizeAt(col, 2);
  }

  /**
   * Winsorizing is not idempotent: with interpolated percentiles a second pass moves the band
   * again, so the smallest of three values with a gap above it is raised once more.
   */
  lemma WinsorizeTwiceMoves(col: seq<Option<real>>)
    requires GapAtBottom(col)
    ensures Winsorize(col)[0].value < Winsorize(Winsorize(col))[0].value
  {
    WinsorizeThreeOnce(col);
    WinsorizeThreeOnce(Winsorize(col));
  }
}
