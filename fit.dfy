/**
 * The academic fit bucket (app/ml/recommendations.py, lines 157-212): how well the user's SAT,
 * ACT and GPA sit inside each school's 25th-75th percentile band, averaged over the tests the
 * user gave and the school reports.
 */
module AcademicFit {
  import opened Options
  import opened Stats
  import opened Schema

  /** The guard added to a band's width before dividing by it. */
  const Eps: real := 0.000001

  /** The fit at distance `d` outside a band of width `w`: 1 - d / (w + Eps), clipped to [0, 1]. */
  function Falloff(d: real, w: real): (r: real)
    requires d > 0.0 && w > 0.0
    ensures 0.0 <= r < 1.0
  {
    DivPos(d, w + Eps);
    Clamp(1.0 - d / (w + Eps), 0.0, 1.0)
  }

  /** Farther from the band never fits better. */
  lemma FalloffMonotone(d1: real, d2: real, w: real)
    requires 0.0 < d1 <= d2 && w > 0.0
    ensures Falloff(d2, w) <= Falloff(d1, w)
  {
    DivMonotone(d1, d2, w + Eps);
    ClampMonotone(1.0 - d2 / (w + Eps), 1.0 - d1 / (w + Eps), 0.0, 1.0);
  }

  /**
   * `band_fit_series` for one school: 1 inside [lo, hi] (a band of zero width included); below
   * or above a band of positive width, a fit that falls off with the distance; otherwise missing.
   */
  function BandFit(u: real, lo: Option<real>, hi: Option<real>): (r: Option<real>)
    ensures r.Some? ==> 0.0 <= r.value <= 1.0
    ensures r.Some? <==> lo.Some? && hi.Some? && (lo.value <= u <= hi.value || hi.value - lo.value > 0.0)
    ensures r == Some(1.0) <==> lo.Some? && hi.Some? && lo.value <= u <= hi.value
  {
    if lo.None? || hi.None? then None
    else if lo.value <= u <= hi.value then Some(1.0)
    else if hi.value - lo.value > 0.0 then
      var w := hi.value - lo.value;
      if u < lo.value then Some(Falloff(lo.value - u, w)) else Some(Falloff(u - hi.value, w))
    else None
  }

  /** Below a band, a score farther below fits no better; above it, a score farther above fits no better. */
  lemma BandFitByDistance(u1: real, u2: real, lo: real, hi: real)
    requires lo < hi
    ensures u2 <= u1 < lo ==> BandFit(u2, Some(lo), Some(hi)).value <= BandFit(u1, Some(lo), Some(hi)).value
    ensures hi < u1 <= u2 ==> BandFit(u2, Some(lo), Some(hi)).value <= BandFit(u1, Some(lo), Some(hi)).value
  {
    if u2 <= u1 < lo {
      FalloffMonotone(lo - u1, lo - u2, hi - lo);
    }
    if hi < u1 <= u2 {
      FalloffMonotone(u1 - hi, u2 - hi, hi - lo);
    }
  }

  /** A band of zero width fits only the score it names, and says nothing about any other. */
  lemma ZeroWidthBand(u: real, v: real)
    ensures BandFit(u, Some(v), Some(v)) == if u == v then Some(1.0) else None
  {
  }

  /** pandas addition of two cells: missing when either is. */
  function AddOpt(a: Option<real>, b: Option<real>): (r: Option<real>)
    ensures r.Some? <==> a.Some? && b.Some?
    ensures r.Some? ==> r.value == a.value + b.value
  {
    if a.Some? && b.Some? then Some(a.value + b.value) else None
  }

  /** Where a school's band for one test comes from. */
  datatype BandSource =
    | SumOf(lo1: string, lo2: string, hi1: string, hi2: string)  // section 25th/75th percentiles, summed
    | Span(lo: string, hi: string)                               // 25th and 75th percentile columns
    | Around(mid: string, half: real)                            // a midpoint column plus or minus `half`
    | Absent                                                     // the data has no band for this test

  /** SAT: the verbal and math bands summed when all four columns exist, else the average plus or minus 100. */
  function SatSource(columns: set<string>): BandSource
  {
    if {"sat_verbal_25", "sat_verbal_75", "sat_math_25", "sat_math_75"} <= columns then
      SumOf("sat_verbal_25", "sat_math_25", "sat_verbal_75", "sat_math_75")
    else if "sat_avg" in columns then Around("sat_avg", 100.0)
    else Absent
  }

  /** ACT: the lower-case composite band, then the upper-case one, then the midpoint plus or minus 2. */
  function ActSource(columns: set<string>): BandSource
  {
    if {"act_composite_25", "act_composite_75"} <= columns then Span("act_composite_25", "act_composite_75")
    else if {"ACTCM25", "ACTCM75"} <= columns then Span("ACTCM25", "ACTCM75")
    else if "ACTCMMID" in columns then Around("ACTCMMID", 2.0)
    else Absent
  }

  /** GPA: the lower-case band, then the upper-case one. */
  function GpaSource(columns: set<string>): BandSource
  {
    if {"gpa25", "gpa75"} <= columns then Span("gpa25", "gpa75")
    else if {"GPA25", "GPA75"} <= columns then Span("GPA25", "GPA75")
    else Absent
  }

  /** One school's band from a source. */
  function Band(s: BandSource, r: Record): (Option<real>, Option<real>)
    requires !s.Absent?
  {
    match s
    case SumOf(lo1, lo2, hi1, hi2) => (AddOpt(Cell(r, lo1), Cell(r, lo2)), AddOpt(Cell(r, hi1), Cell(r, hi2)))
    case Span(lo, hi) => (Cell(r, lo), Cell(r, hi))
    case Around(mid, half) =>
      var m := Cell(r, mid);
      (if m.Some? then Some(m.value - half) else None, if m.Some? then Some(m.value + half) else None)
  }

  /** A midpoint band of positive half-width: a full fit exactly within `half` of the midpoint. */
  lemma AroundFit(u: real, r: Record, mid: string, half: real)
    requires half > 0.0
    ensures var (lo, hi) := Band(Around(mid, half), r);
      && (BandFit(u, lo, hi).Some? <==> Cell(r, mid).Some?)
      && (BandFit(u, lo, hi) == Some(1.0) <==> Cell(r, mid).Some? && -half <= u - Cell(r, mid).value <= half)
  {
  }

  /** One fit component: the user's score against every school's band. */
  function BandSeries(u: real, s: BandSource, t: Table): (c: seq<Option<real>>)
    requires !s.Absent?
    ensures |c| == |t.rows|
    ensures forall i :: 0 <= i < |c| ==> c[i] == BandFit(u, Band(s, t.rows[i]).0, Band(s, t.rows[i]).1)
  {
    seq(|t.rows|, i requires 0 <= i < |t.rows| => BandFit(u, Band(s, t.rows[i]).0, Band(s, t.rows[i]).1))
  }

  /** A test counts when the user gave a score and the data has a band for it. */
  predicate Applies<T>(score: Option<T>, s: BandSource)
  {
    score.Some? && !s.Absent?
  }

  function Count(b: bool): nat
  {
    if b then 1 else 0
  }

  /** A test score as a real number. */
  function AsReal(x: Option<int>): (r: Option<real>)
    ensures r.Some? <==> x.Some?
    ensures r.Some? ==> r.value == x.value as real
  {
    if x.Some? then Some(x.value as real) else None
  }

  /** The component for one test: present when the user gave a score and the data has a band for it. */
  function Component(score: Option<real>, s: BandSource, t: Table): seq<seq<Option<real>>>
  {
    if Applies(score, s) then [BandSeries(score.value, s, t)] else []
  }

  /** `fit_components`: at most one component per test, none exactly when no test counts. */
  function FitComponents(t: Table, sat: Option<int>, act: Option<int>, gpa: Option<real>): (cs: seq<seq<Option<real>>>)
    ensures |cs| <= 3
    ensures forall k :: 0 <= k < |cs| ==> |cs[k]| == |t.rows|
    ensures cs == [] <==>
      && (sat.None? || SatSource(t.columns).Absent?)
      && (act.None? || ActSource(t.columns).Absent?)
      && (gpa.None? || GpaSource(t.columns).Absent?)
  {
    ThreeComponents(t, sat, act, gpa, SatSource(t.columns), ActSource(t.columns), GpaSource(t.columns));
    Component(AsReal(sat), SatSource(t.columns), t) + Component(AsReal(act), ActSource(t.columns), t)
      + Component(gpa, GpaSource(t.columns), t)
  }

  /**
   * The components in order: the SAT one first, then the ACT one, then the GPA one, each present
   * exactly when its test counts and each the user's score against that test's band.
   */
  lemma FitComponentsOrder(t: Table, sat: Option<int>, act: Option<int>, gpa: Option<real>)
    ensures var cs := FitComponents(t, sat, act, gpa);
      var s, a, g := Applies(sat, SatSource(t.columns)), Applies(act, ActSource(t.columns)), Applies(gpa, GpaSource(t.columns));
      && |cs| == Count(s) + Count(a) + Count(g)
      && (s ==> cs[0] == BandSeries(sat.value as real, SatSource(t.columns), t))
      && (a ==> cs[Count(s)] == BandSeries(act.value as real, ActSource(t.columns), t))
      && (g ==> cs[|cs| - 1] == BandSeries(gpa.value, GpaSource(t.columns), t))
  {
    ThreeComponents(t, sat, act, gpa, SatSource(t.columns), ActSource(t.columns), GpaSource(t.columns));
  }

  /** `FitComponents`' contract for any three band sources. */
  lemma ThreeComponents(t: Table, sat: Option<int>, act: Option<int>, gpa: Option<real>,
                        ss: BandSource, as_: BandSource, gs: BandSource)
    ensures var cs := Component(AsReal(sat), ss, t) + Component(AsReal(act), as_, t) + Component(gpa, gs, t);
      && |cs| <= 3
      && (forall k :: 0 <= k < |cs| ==> |cs[k]| == |t.rows|)
      && (cs == [] <==> (sat.None? || ss.Absent?) && (act.None? || as_.Absent?) && (gpa.None? || gs.Absent?))
      && var s, a, g := Applies(sat, ss), Applies(act, as_), Applies(gpa, gs);
      && |cs| == Count(s) + Count(a) + Count(g)
      && (s ==> cs[0] == BandSeries(sat.value as real, ss, t))
      && (a ==> cs[Count(s)] == BandSeries(act.value as real, as_, t))
      && (g ==> cs[|cs| - 1] == BandSeries(gpa.value, gs, t))
  {
    var c1 := Component(AsReal(sat), ss, t);
    var c2 := Component(AsReal(act), as_, t);
    var c3 := Component(gpa, gs, t);
    ComponentShape(AsReal(sat), ss, t);
    ComponentShape(AsReal(act), as_, t);
    ComponentShape(gpa, gs, t);
    ConcatThree(c1, c2, c3);
  }

  /** Where the single element of each of three optional parts lands in their concatenation. */
  lemma ConcatThree<T>(c1: seq<T>, c2: seq<T>, c3: seq<T>)
    requires |c1| <= 1 && |c2| <= 1 && |c3| <= 1
    ensures var cs := c1 + c2 + c3;
      && (c1 != [] ==> cs[0] == c1[0])
      && (c2 != [] ==> cs[|c1|] == c2[0])
      && (c3 != [] ==> cs[|cs| - 1] == c3[0])
  {
  }

  lemma ComponentShape(score: Option<real>, s: BandSource, t: Table)
    ensures var c := Component(score, s, t);
      && |c| == Count(Applies(score, s))
      && (Applies(score, s) ==> c == [BandSeries(score.value, s, t)])
      && forall k :: 0 <= k < |c| ==> |c[k]| == |t.rows|
  {
  }

  /** The components' cells for school `i`. */
  function RowOf(cs: seq<seq<Option<real>>>, i: nat): (row: seq<Option<real>>)
    requires forall k :: 0 <= k < |cs| ==> i < |cs[k]|
    ensures |row| == |cs|
    ensures forall k :: 0 <= k < |cs| ==> row[k] == cs[k][i]
  {
    seq(|cs|, k requires 0 <= k < |cs| => cs[k][i])
  }

  /** `mean(axis=1, skipna=True)`: per school, the mean of its defined components. */
  function FitScores(cs: seq<seq<Option<real>>>, n: nat): (f: seq<Option<real>>)
    requires forall k :: 0 <= k < |cs| ==> |cs[k]| == n
    ensures |f| == n
  {
    seq(n, i requires 0 <= i < n => SkipMean(RowOf(cs, i)))
  }

  /** Per school, the fit is defined exactly when some component is, and lies in [0, 1]. */
  lemma FitScoresMeaning(t: Table, sat: Option<int>, act: Option<int>, gpa: Option<real>)
    ensures var cs := FitComponents(t, sat, act, gpa);
      var f := FitScores(cs, |t.rows|);
      forall i :: 0 <= i < |f| ==>
        && (f[i].Some? <==> exists k :: 0 <= k < |cs| && cs[k][i].Some?)
        && (f[i].Some? ==> 0.0 <= f[i].value <= 1.0)
  {
    var cs := FitComponents(t, sat, act, gpa);
    var f := FitScores(cs, |t.rows|);
    forall k | 0 <= k < |cs| ensures forall i :: 0 <= i < |cs[k]| && cs[k][i].Some? ==> 0.0 <= cs[k][i].value <= 1.0 {
      ComponentsInRange(t, sat, act, gpa, k);
    }
    forall i | 0 <= i < |f|
      ensures f[i].Some? <==> exists k :: 0 <= k < |cs| && cs[k][i].Some?
      ensures f[i].Some? ==> 0.0 <= f[i].value <= 1.0
    {
      var row := RowOf(cs, i);
      SkipMeanBounds(row, 0.0, 1.0);
      if exists k :: 0 <= k < |cs| && cs[k][i].Some? {
        var k :| 0 <= k < |cs| && cs[k][i].Some?;
        assert row[k].Some?;
      }
    }
  }

  /** Every component cell is a band fit, so in [0, 1] when defined. */
  lemma ComponentsInRange(t: Table, sat: Option<int>, act: Option<int>, gpa: Option<real>, k: nat)
    requires k < |FitComponents(t, sat, act, gpa)|
    ensures var c := FitComponents(t, sat, act, gpa)[k];
      forall i :: 0 <= i < |c| && c[i].Some? ==> 0.0 <= c[i].value <= 1.0
  {
  }

  /** School `i`'s fit on one test: its band fit when the test counts, and missing otherwise. */
  function TestFit(score: Option<real>, s: BandSource, t: Table, i: nat): Option<real>
    requires i < |t.rows|
  {
    if Applies(score, s) then BandFit(score.value, Band(s, t.rows[i]).0, Band(s, t.rows[i]).1) else None
  }

  /** School `i`'s academic fit: the mean of its defined SAT, ACT and GPA fits. */
  function FitCell(t: Table, sat: Option<int>, act: Option<int>, gpa: Option<real>, i: nat): Option<real>
    requires i < |t.rows|
  {
    SkipMean([TestFit(AsReal(sat), SatSource(t.columns), t, i),
              TestFit(AsReal(act), ActSource(t.columns), t, i),
              TestFit(gpa, GpaSource(t.columns), t, i)])
  }

  lemma RowOfAppend(x: seq<seq<Option<real>>>, y: seq<seq<Option<real>>>, i: nat)
    requires forall k :: 0 <= k < |x| ==> i < |x[k]|
    requires forall k :: 0 <= k < |y| ==> i < |y[k]|
    ensures RowOf(x + y, i) == RowOf(x, i) + RowOf(y, i)
  {
  }

  /** A component's cell at school `i` carries the same present value as the test's fit there. */
  lemma ComponentRow(score: Option<real>, s: BandSource, t: Table, i: nat)
    requires i < |t.rows|
    ensures forall k :: 0 <= k < |Component(score, s, t)| ==> i < |Component(score, s, t)[k]|
    ensures Present(RowOf(Component(score, s, t), i)) == Present([TestFit(score, s, t, i)])
  {
    ComponentShape(score, s, t);
    if !Applies(score, s) {
      assert Present([TestFit(score, s, t, i)]) == Present([TestFit(score, s, t, i)][1..]);
    }
  }

  /** The skip-missing mean of the components at a school is the mean of its defined test fits. */
  lemma FitScoresCell(t: Table, sat: Option<int>, act: Option<int>, gpa: Option<real>, i: nat)
    requires i < |t.rows|
    ensures FitScores(FitComponents(t, sat, act, gpa), |t.rows|)[i] == FitCell(t, sat, act, gpa, i)
  {
    var c1 := Component(AsReal(sat), SatSource(t.columns), t);
    var c2 := Component(AsReal(act), ActSource(t.columns), t);
    var c3 := Component(gpa, GpaSource(t.columns), t);
    var x1 := TestFit(AsReal(sat), SatSource(t.columns), t, i);
    var x2 := TestFit(AsReal(act), ActSource(t.columns), t, i);
    var x3 := TestFit(gpa, GpaSource(t.columns), t, i);
    ComponentRow(AsReal(sat), SatSource(t.columns), t, i);
    ComponentRow(AsReal(act), ActSource(t.columns), t, i);
    ComponentRow(gpa, GpaSource(t.columns), t, i);
    assert FitComponents(t, sat, act, gpa) == c1 + c2 + c3;
    PresentRowOfThree(c1, c2, c3, i);
    PresentOfThree(x1, x2, x3);
  }

  /** The defined cells of a school's row over three groups of components, group by group. */
  lemma PresentRowOfThree(c1: seq<seq<Option<real>>>, c2: seq<seq<Option<real>>>, c3: seq<seq<Option<real>>>, i: nat)
    requires forall k :: 0 <= k < |c1| ==> i < |c1[k]|
    requires forall k :: 0 <= k < |c2| ==> i < |c2[k]|
    requires forall k :: 0 <= k < |c3| ==> i < |c3[k]|
    ensures Present(RowOf(c1 + c2 + c3, i)) == Present(RowOf(c1, i)) + Present(RowOf(c2, i)) + Present(RowOf(c3, i))
  {
    RowOfAppend(c1, c2, i);
    RowOfAppend(c1 + c2, c3, i);
    PresentAppend(RowOf(c1, i), RowOf(c2, i));
    PresentAppend(RowOf(c1, i) + RowOf(c2, i), RowOf(c3, i));
  }

  /**
   * The fit bucket: added only when some school has a defined fit, and then each school's cell is
   * the mean of the school's defined SAT, ACT and GPA fits.
   */
  function FitBucket(t: Table, sat: Option<int>, act: Option<int>, gpa: Option<real>): (b: Option<seq<Option<real>>>)
    ensures b.Some? ==> |b.value| == |t.rows| && exists i :: 0 <= i < |b.value| && b.value[i].Some?
    ensures b.Some? ==> forall i :: 0 <= i < |t.rows| ==> b.value[i] == FitCell(t, sat, act, gpa, i)
  {
    var cs := FitComponents(t, sat, act, gpa);
    if cs == [] then None
    else
      var f := FitScores(cs, |t.rows|);
      assert forall i :: 0 <= i < |t.rows| ==> f[i] == FitCell(t, sat, act, gpa, i) by {
        forall i | 0 <= i < |t.rows| ensures f[i] == FitCell(t, sat, act, gpa, i) {
          FitScoresCell(t, sat, act, gpa, i);
        }
      }
      if exists i :: 0 <= i < |f| && f[i].Some? then Some(f) else None
  }

  /** When the SAT is the only test that counts, a school's fit is its SAT band fit. */
  lemma SatOnlyFit(t: Table, sat: Option<int>, act: Option<int>, gpa: Option<real>, i: nat)
    requires i < |t.rows|
    requires !Applies(act, ActSource(t.columns)) && !Applies(gpa, GpaSource(t.columns))
    ensures FitCell(t, sat, act, gpa, i) == TestFit(AsReal(sat), SatSource(t.columns), t, i)
  {
    var x := TestFit(AsReal(sat), SatSource(t.columns), t, i);
    var xs := [x, None, None];
    assert xs[1..][1..][1..] == [];
    assert Present(xs) == Present(xs[1..][1..][1..]) + (if x.Some? then [x.value] else []) by {
      assert Present(xs[1..][1..]) == [];
      assert Present(xs[1..]) == [];
    }
    if x.Some? {
      assert Present(xs) == [x.value];
      assert Sum([x.value]) == x.value + Sum([x.value][1..]);
    }
  }

  /** Without any test score from the user there is no fit bucket. */
  lemma NoScoresNoFit(t: Table)
    ensures FitBucket(t, None, None, None).None?
  {
  }

  /** The fit bucket exists exactly when some school has a band for a test the user gave. */
  lemma FitBucketIff(t: Table, sat: Option<int>, act: Option<int>, gpa: Option<real>)
    ensures FitBucket(t, sat, act, gpa).Some? <==>
      exists k, i :: 0 <= k < |FitComponents(t, sat, act, gpa)| && 0 <= i < |t.rows| && FitComponents(t, sat, act, gpa)[k][i].Some?
  {
    var cs := FitComponents(t, sat, act, gpa);
    var f := FitScores(cs, |t.rows|);
    FitScoresMeaning(t, sat, act, gpa);
    FitBucketOf(t, sat, act, gpa);
    if exists k, i :: 0 <= k < |cs| && 0 <= i < |t.rows| && cs[k][i].Some? {
      var k, i :| 0 <= k < |cs| && 0 <= i < |t.rows| && cs[k][i].Some?;
      assert f[i].Some?;
    }
  }

  lemma FitBucketOf(t: Table, sat: Option<int>, act: Option<int>, gpa: Option<real>)
    ensures var cs := FitComponents(t, sat, act, gpa);
      var f := FitScores(cs, |t.rows|);
      FitBucket(t, sat, act, gpa) == if cs != [] && exists i :: 0 <= i < |f| && f[i].Some? then Some(f) else None
  {
  }
}
