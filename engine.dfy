/**
 * `recommend_colleges_filtered` end to end (app/ml/recommendations.py, lines 9-262): filter the
 * schools, select and clean the attributes, build the buckets, weight them, rank the candidates.
 */
module Engine {
  import opened Options
  import opened Stats
  import opened Schema
  import opened Selection
  import opened Normalize
  import opened AcademicFit
  import opened Scoring
  import opened Ranking

  /** A school as the database holds it: its state and its numeric attributes by column. */
  datatype School = School(state: Option<string>, attrs: Record)

  /**
   * The query's filters: the state among `states` when that list is non-empty, and the cost of
   * attendance at most the user's budget when one is given; a missing state or cost fails a filter.
   */
  predicate Passes(s: School, states: seq<string>, userCost: Option<int>)
  {
    && (states == [] || (s.state.Some? && s.state.value in states))
    && (userCost.None? || (Cell(s.attrs, CostCol).Some? && Cell(s.attrs, CostCol).value <= userCost.value as real))
  }

  /** `query.all()` after the filters. */
  function FilterSchools(all: seq<School>, states: seq<string>, userCost: Option<int>): (r: seq<School>)
    ensures |r| <= |all|
    ensures forall s :: s in r <==> s in all && Passes(s, states, userCost)
  {
    if all == [] then []
    else
      assert all == [all[0]] + all[1..];
      (if Passes(all[0], states, userCost) then [all[0]] else []) + FilterSchools(all[1..], states, userCost)
  }

  /** With no state list and no budget, every school is a candidate. */
  lemma {:induction false} NoFiltersKeepAll(all: seq<School>)
    ensures FilterSchools(all, [], None) == all
  {
    if all != [] {
      NoFiltersKeepAll(all[1..]);
      assert all == [all[0]] + all[1..];
    }
  }

  /** The candidates' table: the data's columns and one record per candidate. */
  function CandidateTable(cands: seq<School>, columns: set<string>): (t: Table)
    ensures t.columns == columns && |t.rows| == |cands|
    ensures forall i :: 0 <= i < |cands| ==> t.rows[i] == cands[i].attrs
  {
    Table(columns, seq(|cands|, i requires 0 <= i < |cands| => cands[i].attrs))
  }

  /** The category buckets followed by the fit bucket when there is one (`score_df`). */
  function AllBuckets(t: Table, norm: NumFrame, sat: Option<int>, act: Option<int>, gpa: Option<real>): (bs: seq<Bucket>)
    requires Rect(norm, |t.rows|)
    ensures Rect(bs, |t.rows|)
  {
    var fit := FitBucket(t, sat, act, gpa);
    CategoryBuckets(norm, Categories, |t.rows|) + (if fit.Some? then [Named("fit", fit.value)] else [])
  }

  /** Given normalised attributes in [0, 1], every bucket value is in [0, 1]. */
  lemma AllBucketsInRange(t: Table, norm: NumFrame, sat: Option<int>, act: Option<int>, gpa: Option<real>)
    requires UnitFrame(norm, |t.rows|)
    ensures forall b, i :: b in AllBuckets(t, norm, sat, act, gpa) && 0 <= i < |b.values| && b.values[i].Some? ==>
      0.0 <= b.values[i].value <= 1.0
  {
    CategoryBucketsInRange(norm, Categories, |t.rows|);
    FitScoresMeaning(t, sat, act, gpa);
  }

  /** The buckets' names, the keys the weights are resolved against. */
  function BucketKeys(bs: seq<Bucket>): (keys: set<string>)
    ensures forall k :: k in keys <==> k in Names(bs)
  {
    set k | k in Names(bs)
  }

  /** `out[f"score_{k}"]` for one candidate: each bucket's cell under the bucket's name. */
  function Subscores(row: Row): (m: map<string, Option<real>>)
    ensures forall j :: 0 <= j < |row| ==> row[j].0 in m
    ensures forall k :: k in m ==> exists j :: 0 <= j < |row| && row[j] == (k, m[k])
  {
    if row == [] then map[]
    else
      var init := Subscores(row[..|row| - 1]);
      assert forall j :: 0 <= j < |row| - 1 ==> row[..|row| - 1][j] == row[j];
      init[row[|row| - 1].0 := row[|row| - 1].1]
  }

  /** Every candidate, in candidate order, with its overall score and subscores. */
  function ScoreRows(bs: seq<Bucket>, w: map<string, real>, n: nat): (rs: seq<Ranked>)
    requires Rect(bs, n)
    ensures |rs| == n
    ensures forall i :: 0 <= i < n ==> rs[i].row == i
    ensures forall i :: 0 <= i < n ==> rs[i].score == Overall(RowAt(bs, i), w)
  {
    seq(n, i requires 0 <= i < n => Ranked(i, Overall(RowAt(bs, i), w), Subscores(RowAt(bs, i))))
  }

  /** Without priorities every bucket weighs the same: each score is the plain mean of the candidate's bucket values. */
  lemma NoPrioritiesPlainMean(bs: seq<Bucket>, n: nat)
    requires Rect(bs, n)
    ensures var rows := ScoreRows(bs, ResolveWeights(map[], BucketKeys(bs)), n);
      forall i :: 0 <= i < n ==> rows[i].score == SkipMean(Cells(RowAt(bs, i)))
  {
    forall i | 0 <= i < n ensures Overall(RowAt(bs, i), EqualWeights(BucketKeys(bs))) == SkipMean(Cells(RowAt(bs, i))) {
      EqualWeightsMean(RowAt(bs, i), BucketKeys(bs));
    }
  }

  /** With non-negative weights and bucket values in [0, 1], every candidate's score is in [0, 1]. */
  lemma ScoreRowsInRange(bs: seq<Bucket>, w: map<string, real>, n: nat)
    requires Rect(bs, n) && NonnegWeights(w)
    requires forall b, i :: b in bs && 0 <= i < |b.values| && b.values[i].Some? ==> 0.0 <= b.values[i].value <= 1.0
    ensures forall x :: x in ScoreRows(bs, w, n) && x.score.Some? ==> 0.0 <= x.score.value <= 1.0
  {
    var rows := ScoreRows(bs, w, n);
    forall i | 0 <= i < n ensures rows[i].score.Some? ==> 0.0 <= rows[i].score.value <= 1.0 {
      var row := RowAt(bs, i);
      assert UnitCells(row) by {
        forall j | 0 <= j < |row| && row[j].1.Some? ensures 0.0 <= row[j].1.value <= 1.0 {
          assert bs[j] in bs;
        }
      }
      OverallInUnitRange(row, w);
    }
  }

  /** With normalised attributes in [0, 1] and no negative admissions priority, every candidate's score is in [0, 1]. */
  lemma CandidateScoresInRange(t: Table, norm: NumFrame, sat: Option<int>, act: Option<int>, gpa: Option<real>,
                               prio: map<string, real>)
    requires UnitFrame(norm, |t.rows|)
    requires "admissions" !in prio || prio["admissions"] >= 0.0
    ensures var bs := AllBuckets(t, norm, sat, act, gpa);
      forall x :: x in ScoreRows(bs, ResolveWeights(prio, BucketKeys(bs)), |t.rows|) && x.score.Some? ==>
        0.0 <= x.score.value <= 1.0
  {
    var bs := AllBuckets(t, norm, sat, act, gpa);
    AllBucketsInRange(t, norm, sat, act, gpa);
    WeightsNonnegative(prio, BucketKeys(bs));
    ScoreRowsInRange(bs, ResolveWeights(prio, BucketKeys(bs)), |t.rows|);
  }

  /** Lines 255-262: sort the scored candidates, keep the first `top_n`, fail when none is left. */
  function RankRows(rows: seq<Ranked>, n: nat, topN: int): (r: Result<seq<Ranked>, EngineError>)
    requires forall i :: 0 <= i < |rows| ==> rows[i].row < n
    ensures r.Err? ==> r.error == NoCandidatesRanked
    ensures r.Err? <==> rows == [] || topN == 0 || topN <= -|rows|
    ensures r.Ok? ==> Descending(r.value) && (topN >= 0 ==> |r.value| == Min(topN, |rows|))
    ensures r.Ok? ==> forall x :: x in r.value ==> x in rows && x.row < n
  {
    var sorted := SortRanked(rows);
    HeadOfDescending(sorted, topN);
    HeadEmptyIff(sorted, topN);
    var top := Head(sorted, topN);
    forall x | x in top ensures x in rows {
      HeadOfSorted(rows, topN, x);
    }
    if top == [] then Err(NoCandidatesRanked) else Ok(top)
  }

  /**
   * The rows kept are the `top_n` best: they come from `rows`, and every row left out is
   * outranked by every row kept.
   */
  lemma RankRowsTop(rows: seq<Ranked>, n: nat, topN: int, r: seq<Ranked>)
    requires forall i :: 0 <= i < |rows| ==> rows[i].row < n
    requires RankRows(rows, n, topN) == Ok(r)
    ensures TopOf(r, rows)
    ensures DistinctRows(rows) ==> DistinctRows(r)
  {
    HeadIsTop(SortRanked(rows), topN);
    if DistinctRows(rows) {
      SubMultisetDistinct(r, rows);
    }
  }

  /** Lines 149-233: every candidate with its overall score, in candidate order. */
  function Scored(t: Table, norm: NumFrame, sat: Option<int>, act: Option<int>, gpa: Option<real>,
                  prio: map<string, real>): (rows: seq<Ranked>)
    requires Rect(norm, |t.rows|)
    ensures |rows| == |t.rows|
    ensures forall i :: 0 <= i < |rows| ==> rows[i].row == i
    ensures DistinctRows(rows)
    ensures UnitFrame(norm, |t.rows|) && ("admissions" !in prio || prio["admissions"] >= 0.0) ==>
      forall x :: x in rows && x.score.Some? ==> 0.0 <= x.score.value <= 1.0
  {
    var bs := AllBuckets(t, norm, sat, act, gpa);
    assert UnitFrame(norm, |t.rows|) && ("admissions" !in prio || prio["admissions"] >= 0.0) ==>
      forall x :: x in ScoreRows(bs, ResolveWeights(prio, BucketKeys(bs)), |t.rows|) && x.score.Some? ==>
        0.0 <= x.score.value <= 1.0 by {
      if UnitFrame(norm, |t.rows|) && ("admissions" !in prio || prio["admissions"] >= 0.0) {
        CandidateScoresInRange(t, norm, sat, act, gpa, prio);
      }
    }
    ScoreRows(bs, ResolveWeights(prio, BucketKeys(bs)), |t.rows|)
  }

  /** Lines 149-262 once the attributes are normalised: buckets, weights, scores, sort, head. */
  function RankCandidates(t: Table, norm: NumFrame, sat: Option<int>, act: Option<int>, gpa: Option<real>,
                          prio: map<string, real>, topN: int): (r: Result<seq<Ranked>, EngineError>)
    requires Rect(norm, |t.rows|)
    ensures r.Err? ==> r.error == NoCandidatesRanked
    ensures r.Err? <==> |t.rows| == 0 || topN == 0 || topN <= -|t.rows|
    ensures r.Ok? ==> Descending(r.value) && (topN >= 0 ==> |r.value| == Min(topN, |t.rows|))
    ensures r.Ok? ==> forall x :: x in r.value ==> x.row < |t.rows|
    ensures r.Ok? && UnitFrame(norm, |t.rows|) && ("admissions" !in prio || prio["admissions"] >= 0.0) ==>
      forall x :: x in r.value && x.score.Some? ==> 0.0 <= x.score.value <= 1.0
  {
    RankRows(Scored(t, norm, sat, act, gpa, prio), |t.rows|, topN)
  }

  /**
   * Lines 64-147: the candidates' table and their normalised attributes, or the error that
   * stops the engine first.
   */
  function Prepare(all: seq<School>, columns: set<string>, states: seq<string>, prio: map<string, real>,
                   userCost: Option<int>, preferSelectivity: bool): (r: Result<(Table, NumFrame), EngineError>)
    ensures r.Err? ==> r.error != NoCandidatesRanked
    ensures r == Err(NoCandidates) <==> FilterSchools(all, states, userCost) == []
    ensures r.Ok? ==> |r.value.0.rows| == |FilterSchools(all, states, userCost)| && UnitFrame(r.value.1, |r.value.0.rows|)
  {
    var cands := FilterSchools(all, states, userCost);
    if cands == [] then Err(NoCandidates)
    else
      var t := CandidateTable(cands, columns);
      var feats := SelectFeatures(prio, columns);
      if feats.Err? then Err(feats.error)
      else
        var raw := Extract(t, CoverageFilter(t, feats.value));
        var norm := NormalizeFrame(raw, preferSelectivity);
        if norm.Err? then Err(norm.error)
        else
          NormalizedUnitRange(raw, |t.rows|, preferSelectivity);
          Ok((t, norm.value))
  }

  /**
   * Directional correctness of a category bucket: a candidate at least as good as another on
   * every attribute of the category never gets the lower bucket score.
   */
  lemma BucketDirection(all: seq<School>, columns: set<string>, states: seq<string>, prio: map<string, real>,
                        userCost: Option<int>, preferSelectivity: bool, k: string, i: nat, j: nat)
    requires Prepare(all, columns, states, prio, userCost, preferSelectivity).Ok?
    requires var t := Prepare(all, columns, states, prio, userCost, preferSelectivity).value.0;
      && i < |t.rows| && j < |t.rows|
      && forall c :: c in FeatureMap(k) ==> AtLeastAsGood(t, c, InvertSet(preferSelectivity), i, j)
    ensures var p := Prepare(all, columns, states, prio, userCost, preferSelectivity).value;
      forall b :: b in CategoryBucket(p.1, k, |p.0.rows|) ==> b.values[j].value <= b.values[i].value
  {
    var p := Prepare(all, columns, states, prio, userCost, preferSelectivity).value;
    var t := CandidateTable(FilterSchools(all, states, userCost), columns);
    var feats := SelectFeatures(prio, columns);
    var raw := Extract(t, CoverageFilter(t, feats.value));
    assert p == (t, NormalizeFrame(raw, preferSelectivity).value);
    FrameDirection(raw, t, preferSelectivity, k, i, j);
  }

  /** `BucketDirection` for any frame read from the table and normalised. */
  lemma FrameDirection(raw: RawFrame, t: Table, preferSelectivity: bool, k: string, i: nat, j: nat)
    requires FromTable(raw, t) && i < |t.rows| && j < |t.rows|
    requires NormalizeFrame(raw, preferSelectivity).Ok? && Rect(NormalizeFrame(raw, preferSelectivity).value, |t.rows|)
    requires forall c :: c in FeatureMap(k) ==> AtLeastAsGood(t, c, InvertSet(preferSelectivity), i, j)
    ensures var norm := NormalizeFrame(raw, preferSelectivity).value;
      forall b :: b in CategoryBucket(norm, k, |t.rows|) ==> b.values[j].value <= b.values[i].value
  {
    var inv := InvertSet(preferSelectivity);
    var d := WithData(raw);
    NormalizeFrameExact(raw, preferSelectivity);
    var norm := NormalizeEach(d, inv);
    forall c, v | Named(c, v) in norm && c in FeatureMap(k) ensures i < |v| && j < |v| && v[j] <= v[i] {
      NormalizedAtLeastAsGood(d, t, inv, c, v, i, j);
    }
    CategoryBucketMonotone(norm, k, |t.rows|, i, j);
  }

  /**
   * `recommend_colleges_filtered(states, user_sat, user_act, user_gpa, user_priorities, user_cost,
   * top_n, prefer_selectivity)` over the schools `all` of a database whose columns are `columns`.
   */
  function Recommend(all: seq<School>, columns: set<string>, states: seq<string>,
                     sat: Option<int>, act: Option<int>, gpa: Option<real>, prio: map<string, real>,
                     userCost: Option<int>, topN: int, preferSelectivity: bool): (r: Result<seq<Ranked>, EngineError>)
    ensures r == Err(NoCandidates) <==> FilterSchools(all, states, userCost) == []
    ensures r.Ok? ==> Descending(r.value) && (topN >= 0 ==> |r.value| == Min(topN, |FilterSchools(all, states, userCost)|))
    ensures r.Ok? ==> forall x :: x in r.value ==> x.row < |FilterSchools(all, states, userCost)|
    ensures r == Err(NoCandidatesRanked) ==> topN == 0 || topN <= -|FilterSchools(all, states, userCost)|
    ensures topN == 0 || topN <= -|FilterSchools(all, states, userCost)| ==> r.Err?
    ensures r.Ok? && ("admissions" !in prio || prio["admissions"] >= 0.0) ==>
      forall x :: x in r.value && x.score.Some? ==> 0.0 <= x.score.value <= 1.0
  {
    var p := Prepare(all, columns, states, prio, userCost, preferSelectivity);
    if p.Err? then Err(p.error)
    else RankCandidates(p.value.0, p.value.1, sat, act, gpa, prio, topN)
  }

  /** NoCandidates exactly when no school passes the filters. */
  lemma NoCandidatesIff(all: seq<School>, columns: set<string>, states: seq<string>,
                        sat: Option<int>, act: Option<int>, gpa: Option<real>, prio: map<string, real>,
                        userCost: Option<int>, topN: int, preferSelectivity: bool)
    ensures Recommend(all, columns, states, sat, act, gpa, prio, userCost, topN, preferSelectivity) == Err(NoCandidates)
      <==> forall s :: s in all ==> !Passes(s, states, userCost)
  {
    var cands := FilterSchools(all, states, userCost);
    if cands != [] {
      assert cands[0] in cands;
    }
  }

  /**
   * A result lists candidates from the best score down, missing scores last, at most `top_n`
   * of them, each a school that passed the filters.
   */
  lemma RecommendRanked(all: seq<School>, columns: set<string>, states: seq<string>,
                        sat: Option<int>, act: Option<int>, gpa: Option<real>, prio: map<string, real>,
                        userCost: Option<int>, topN: int, preferSelectivity: bool)
    requires Recommend(all, columns, states, sat, act, gpa, prio, userCost, topN, preferSelectivity).Ok?
    ensures var r := Recommend(all, columns, states, sat, act, gpa, prio, userCost, topN, preferSelectivity).value;
      var cands := FilterSchools(all, states, userCost);
      && Descending(r)
      && (topN >= 0 ==> |r| <= topN)
      && forall x :: x in r ==> x.row < |cands| && cands[x.row] in all && Passes(cands[x.row], states, userCost)
  {
    RowsAreCandidates(all, states, userCost, Recommend(all, columns, states, sat, act, gpa, prio, userCost, topN, preferSelectivity).value);
  }

  lemma RowsAreCandidates(all: seq<School>, states: seq<string>, userCost: Option<int>, r: seq<Ranked>)
    requires forall x :: x in r ==> x.row < |FilterSchools(all, states, userCost)|
    ensures var cands := FilterSchools(all, states, userCost);
      forall x :: x in r ==> cands[x.row] in all && Passes(cands[x.row], states, userCost)
  {
    var cands := FilterSchools(all, states, userCost);
    forall x | x in r ensures cands[x.row] in all && Passes(cands[x.row], states, userCost) {
      assert cands[x.row] in cands;
    }
  }

  /**
   * The candidates ranked are the `top_n` best: every row returned is a scored candidate, no
   * candidate appears twice, and every candidate left out is outranked by every one returned.
   */
  lemma RankCandidatesTop(t: Table, norm: NumFrame, sat: Option<int>, act: Option<int>, gpa: Option<real>,
                          prio: map<string, real>, topN: int)
    requires Rect(norm, |t.rows|)
    requires RankCandidates(t, norm, sat, act, gpa, prio, topN).Ok?
    ensures var r := RankCandidates(t, norm, sat, act, gpa, prio, topN).value;
      TopOf(r, Scored(t, norm, sat, act, gpa, prio)) && DistinctRows(r)
  {
    var rows := Scored(t, norm, sat, act, gpa, prio);
    var r := RankCandidates(t, norm, sat, act, gpa, prio, topN).value;
    RankCandidatesRows(t, norm, sat, act, gpa, prio, topN);
    RankRowsTop(rows, |t.rows|, topN, r);
  }

  /** What `RankRowsTop` needs to know about the scored candidates. */
  lemma RankCandidatesRows(t: Table, norm: NumFrame, sat: Option<int>, act: Option<int>, gpa: Option<real>,
                           prio: map<string, real>, topN: int)
    requires Rect(norm, |t.rows|)
    ensures var rows := Scored(t, norm, sat, act, gpa, prio);
      && (forall i :: 0 <= i < |rows| ==> rows[i].row < |t.rows|)
      && DistinctRows(rows)
      && RankRows(rows, |t.rows|, topN) == RankCandidates(t, norm, sat, act, gpa, prio, topN)
  {
  }

  /**
   * A result holds the best `top_n` candidates that passed the filters, each once: every candidate
   * left out is outranked by every candidate returned.
   */
  lemma RecommendTopN(all: seq<School>, columns: set<string>, states: seq<string>,
                      sat: Option<int>, act: Option<int>, gpa: Option<real>, prio: map<string, real>,
                      userCost: Option<int>, topN: int, preferSelectivity: bool)
    requires Recommend(all, columns, states, sat, act, gpa, prio, userCost, topN, preferSelectivity).Ok?
    ensures var p := Prepare(all, columns, states, prio, userCost, preferSelectivity);
      && p.Ok?
      && var rows := Scored(p.value.0, p.value.1, sat, act, gpa, prio);
      var r := Recommend(all, columns, states, sat, act, gpa, prio, userCost, topN, preferSelectivity).value;
      && |rows| == |FilterSchools(all, states, userCost)|
      && TopOf(r, rows)
      && DistinctRows(r)
  {
    var p := Prepare(all, columns, states, prio, userCost, preferSelectivity);
    RankCandidatesTop(p.value.0, p.value.1, sat, act, gpa, prio, topN);
  }

  /** The buckets are named after categories, or `fit`. */
  lemma AllBucketsNames(t: Table, norm: NumFrame, sat: Option<int>, act: Option<int>, gpa: Option<real>)
    requires Rect(norm, |t.rows|)
    ensures forall k :: k in BucketKeys(AllBuckets(t, norm, sat, act, gpa)) ==> k in Categories || k == "fit"
  {
    var fit := FitBucket(t, sat, act, gpa);
    var cats := CategoryBuckets(norm, Categories, |t.rows|);
    CategoryBucketsNames(norm, Categories, |t.rows|);
    NamesAppend(cats, if fit.Some? then [Named("fit", fit.value)] else []);
  }

  /** A key that is a pass-through marker or names no category does not change the preparation. */
  lemma PrepareDeadKey(all: seq<School>, columns: set<string>, states: seq<string>, prio: map<string, real>,
                       userCost: Option<int>, preferSelectivity: bool, k: string, a: real, b: real)
    requires PassThrough(k) || FeatureMap(k) == []
    ensures Prepare(all, columns, states, prio[k := a], userCost, preferSelectivity)
         == Prepare(all, columns, states, prio[k := b], userCost, preferSelectivity)
  {
    DeadKeyIgnored(prio, columns, k, a);
    DeadKeyIgnored(prio, columns, k, b);
  }

  /** Every category selects attributes, so a key that selects none is not a category. */
  lemma DeadKeyNoBucket(k: string)
    requires PassThrough(k) || (FeatureMap(k) == [] && k != "fit")
    ensures k !in Categories && k != "fit"
  {
  }

  /** A key that names no bucket and is not `admissions` does not change the ranking. */
  lemma RankDeadKey(t: Table, norm: NumFrame, sat: Option<int>, act: Option<int>, gpa: Option<real>,
                    prio: map<string, real>, topN: int, k: string, a: real, b: real)
    requires Rect(norm, |t.rows|)
    requires k !in Categories && k != "fit"
    ensures RankCandidates(t, norm, sat, act, gpa, prio[k := a], topN)
         == RankCandidates(t, norm, sat, act, gpa, prio[k := b], topN)
  {
    var bs := AllBuckets(t, norm, sat, act, gpa);
    AllBucketsNames(t, norm, sat, act, gpa);
    UnbucketedKeyIgnored(prio, BucketKeys(bs), k, a, b);
    assert Scored(t, norm, sat, act, gpa, prio[k := a]) == Scored(t, norm, sat, act, gpa, prio[k := b]);
  }

  /**
   * A priority key that selects no attribute and names no bucket (`value`, `campus`, or any key
   * outside the categories other than `fit`) has no effect on the recommendation, whatever its value.
   */
  lemma DeadPriorityIgnored(all: seq<School>, columns: set<string>, states: seq<string>,
                            sat: Option<int>, act: Option<int>, gpa: Option<real>, prio: map<string, real>,
                            userCost: Option<int>, topN: int, preferSelectivity: bool, k: string, a: real, b: real)
    requires PassThrough(k) || (FeatureMap(k) == [] && k != "fit")
    ensures Recommend(all, columns, states, sat, act, gpa, prio[k := a], userCost, topN, preferSelectivity)
         == Recommend(all, columns, states, sat, act, gpa, prio[k := b], userCost, topN, preferSelectivity)
  {
    PrepareDeadKey(all, columns, states, prio, userCost, preferSelectivity, k, a, b);
    var p := Prepare(all, columns, states, prio[k := a], userCost, preferSelectivity);
    if p.Ok? {
      DeadKeyNoBucket(k);
      RankDeadKey(p.value.0, p.value.1, sat, act, gpa, prio, topN, k, a, b);
    }
  }

  /** `Prepare` with the loops of lines 78-85, 123-124 and 145-147 as loops. */
  method PrepareFrame(all: seq<School>, columns: set<string>, states: seq<string>, prio: map<string, real>,
                      userCost: Option<int>, preferSelectivity: bool) returns (r: Result<(Table, NumFrame), EngineError>)
    ensures r == Prepare(all, columns, states, prio, userCost, preferSelectivity)
  {
    var cands := FilterSchools(all, states, userCost);
    if cands == [] {
      return Err(NoCandidates);
    }
    var t := CandidateTable(cands, columns);
    var feats := CollectFeatures(prio, columns);
    if feats.Err? {
      return Err(feats.error);
    }
    var raw := Extract(t, CoverageFilter(t, feats.value));
    var clipped := WinsorizeColumns(raw);
    var kept := WithData(clipped);
    if kept == [] {
      return Err(NoUsableNumericFeatures);
    }
    var norm := InvertColumns(ScaleFrame(Fill(kept)), InvertSet(preferSelectivity));
    assert NormalizeFrame(raw, preferSelectivity) == Ok(norm);
    r := Ok((t, norm));
  }

  /** `RankCandidates` with the bucket loop of lines 151-156 as a loop. */
  method RankFrame(t: Table, norm: NumFrame, sat: Option<int>, act: Option<int>, gpa: Option<real>,
                   prio: map<string, real>, topN: int) returns (r: Result<seq<Ranked>, EngineError>)
    requires Rect(norm, |t.rows|)
    ensures r == RankCandidates(t, norm, sat, act, gpa, prio, topN)
  {
    var cats := BuildBuckets(norm, |t.rows|);
    var fit := FitBucket(t, sat, act, gpa);
    var bs := cats + (if fit.Some? then [Named("fit", fit.value)] else []);
    assert bs == AllBuckets(t, norm, sat, act, gpa);
    var rows := ScoreRows(bs, ResolveWeights(prio, BucketKeys(bs)), |t.rows|);
    assert rows == Scored(t, norm, sat, act, gpa, prio);
    RankCandidatesRows(t, norm, sat, act, gpa, prio, topN);
    r := RankRows(rows, |t.rows|, topN);
  }

  /** The engine as the source runs it, with its loops as loops; it computes exactly `Recommend`. */
  method RecommendCollegesFiltered(all: seq<School>, columns: set<string>, states: seq<string>,
                                   sat: Option<int>, act: Option<int>, gpa: Option<real>, prio: map<string, real>,
                                   userCost: Option<int>, topN: int, preferSelectivity: bool)
    returns (r: Result<seq<Ranked>, EngineError>)
    ensures r == Recommend(all, columns, states, sat, act, gpa, prio, userCost, topN, preferSelectivity)
  {
    var p := PrepareFrame(all, columns, states, prio, userCost, preferSelectivity);
    if p.Err? {
      return Err(p.error);
    }
    r := RankFrame(p.value.0, p.value.1, sat, act, gpa, prio, topN);
  }
}
