# College recommender: a verified model

This project models the recommendation engine of a college search website, together with the
route that feeds it from a web form.

**The engine.** `recommend_colleges_filtered` does the following:
- It filters the schools by state and by budget.
- It picks the numeric attributes that the user's priorities ask for. It drops attributes that
  too few candidates report.
- It cleans each attribute column: it clips outliers to the 1st and 99th percentiles, fills gaps
  with the median, scales to [0, 1], and flips the "lower is better" columns.
- It averages the columns of each priority category into a bucket.
- It adds an academic-fit bucket built from the user's SAT, ACT and GPA against each school's
  25th–75th percentile bands.
- It combines the buckets with a weighted mean that skips missing values.
- It returns the best `top_n` candidates.

**The route.** It reads the state list and seven priority sliders from the posted form, then
calls the engine with `top_n = 12`.

**Modules, in pipeline order:**
- `Stats`: missing-value handling, pandas' interpolated quantile and median, means and clamping.
- `Schema`: the candidate table and the category-to-attribute map.
- `Selection`: attribute selection and the coverage filter.
- `Normalize`: winsorizing, imputation, min-max scaling and inversion.
- `AcademicFit`: the band fit and the fit bucket.
- `Scoring`: category buckets, weight resolution and the weighted score.
- `Ranking`: the sort and the head.
- `Engine`: the whole function.
- `RouteForm` and `Route`: the form and the route.

Where the source updates variables in loops, the model has a method with loop invariants, proved
equal to the function that specifies that step:
- `CollectFeatures` (lines 78-85);
- `WinsorizeColumns` (lines 123-124);
- `InvertColumns` (lines 145-147);
- `BuildBuckets` (lines 150-156);
- `PrepareFrame`, `RankFrame` and `RecommendCollegesFiltered`, which chain the others.

`Recommend` is the function the whole engine is proved against.

Some behaviours of the code differ from what such an engine is usually taken to do. The model follows the code:

- **Winsorizing is not idempotent.** The band comes from linearly interpolated percentiles, so a
  second pass moves the band again. `WinsorizeTwiceMoves` proves this for every column of three
  values with a gap at the bottom.
- **Schools without a score are not dropped.** A candidate with no usable bucket keeps a missing
  score. The sort puts it last and the head may still return it (`Outranks`, `RankRows`).
- **The fit weight can block the equal-weight fallback.** The fit bucket takes the admissions
  priority whenever it has no weight of its own. An admissions priority of 0 with nothing else
  weighted gives the weights `{fit: 0}`. That map is not empty, so there is no fallback, and
  every score is missing (`ZeroAdmissionsQuirk`).
- **All sliders at 0 weighs only the fit bucket.** The route sends no admissions key. With every
  slider at 0 and a fit bucket present, the weights are `{fit: 1}`. The overall score is then the
  academic fit alone (`ZeroSlidersFitOnly`).

## Model

| member | source | states |
|---|---|---|
| Stats.Present | app/ml/recommendations.py:117 | the present values of a column: none exactly when every cell is missing, never more than the cells |
| Stats.PresentMembers | app/ml/recommendations.py:117 | a value is present exactly when some cell holds it |
| Stats.QuantileBounds | app/ml/recommendations.py:120 | an interpolated quantile lies between the column's minimum and maximum |
| Stats.QuantileMonotone | app/ml/recommendations.py:120 | a lower quantile level never gives a larger value, so the 1% bound is at most the 99% bound |
| Stats.SortAsc | app/ml/recommendations.py:120 | the sorted copy used by the quantile is ordered and a permutation of the values |
| Stats.MeanBounds | app/ml/recommendations.py:156 | the mean of values in [lo, hi] is in [lo, hi] |
| Stats.SkipMean | app/ml/recommendations.py:209 | `mean(skipna=True)` is defined exactly when some cell is present |
| Stats.SkipMeanBounds | app/ml/recommendations.py:209 | the skipping mean of cells in [lo, hi] is in [lo, hi] |
| Stats.Clamp | app/ml/recommendations.py:121 | clipping returns a value in the band, and the value itself when already inside |
| Stats.ClampMonotone | app/ml/recommendations.py:121 | clipping keeps the order of two values |
| StringOrder.KeepIn | app/ml/recommendations.py:85 | filtering keeps exactly the elements in the allowed set |
| StringOrder.KeepInSorted | app/ml/recommendations.py:85 | filtering a strictly sorted list leaves it strictly sorted |
| Schema.ColumnOf | app/ml/recommendations.py:106 | one cell per candidate, the candidate's value for the attribute |
| Schema.MappedFeaturesSorted | app/ml/recommendations.py:34-42 | the attributes the category map mentions, listed in strictly ascending order |
| Schema.MappedFeaturesExact | app/ml/recommendations.py:34-42 | an attribute is in the mapped list exactly when some category of the map lists it |
| Schema.DefaultsAreMapped | app/ml/recommendations.py:87-94 | the default attribute list holds exactly the attributes the category map mentions |
| Selection.SelectFeatures | app/ml/recommendations.py:78-97 | a selection is non-empty and inside the data's columns; the only error is NoUsableFeatures |
| Selection.SelectionFromPriorities | app/ml/recommendations.py:78-85 | when a positive priority asks for an attribute in the data, the selection is `sorted(set(...))`: strictly ascending |
| Selection.SelectionFallback | app/ml/recommendations.py:88-94 | with nothing requested in the data, the default list in its order, restricted to the data |
| Selection.NoUsableFeaturesIff | app/ml/recommendations.py:96-97 | NoUsableFeatures exactly when the data has none of the mapped attributes |
| Selection.DeadKeyIgnored | app/ml/recommendations.py:81-84 | a pass-through key (`value`, `campus`) or a key outside the map never changes the selection |
| Selection.CollectFeatures | app/ml/recommendations.py:78-97 | the loop over the priorities computes exactly `SelectFeatures` |
| Selection.Coverage | app/ml/recommendations.py:107 | coverage lies in [0, 1] and is 0 exactly when every cell is missing |
| Selection.CoverageFilter | app/ml/recommendations.py:108-112 | the kept attributes are the selection's attributes with at least 60% coverage, in order, or the whole selection when none qualifies; never empty when the selection is not |
| Normalize.Extract | app/ml/recommendations.py:104-113 | one column per kept attribute, in order, each the table's column of that attribute with one cell per candidate |
| Normalize.WinsorBounds | app/ml/recommendations.py:120 | the 1%/99% band lies within the column's minimum and maximum, lower bound first |
| Normalize.Winsorize | app/ml/recommendations.py:116-121 | winsorizing keeps the length and which cells are missing, and leaves an all-missing column unchanged |
| Normalize.WinsorizeClips | app/ml/recommendations.py:120-121 | every present value ends inside the band, and a value already inside is unchanged |
| Normalize.WinsorizePresence | app/ml/recommendations.py:116-121 | winsorizing neither creates nor removes data |
| Normalize.WinsorizeMonotone | app/ml/recommendations.py:120-121 | winsorizing keeps the order of two present values |
| Normalize.WinsorizeColumns | app/ml/recommendations.py:123-124 | the in-place loop over the columns computes `WinsorizeFrame` |
| Normalize.WinsorizeTwiceMoves | app/ml/recommendations.py:116-124 | a second pass raises the smallest of three values with a gap above it again: winsorizing is not idempotent |
| Normalize.Impute | app/ml/recommendations.py:128 | present values are kept, and every gap gets the median of the present values |
| Normalize.ImputeWithinRange | app/ml/recommendations.py:128 | the fill value lies between the column's minimum and maximum |
| Normalize.WithData | app/ml/recommendations.py:131-132 | the kept columns are exactly those with a present value, in their original order (a subsequence of the input), each as often as in the input |
| Normalize.MinMax | app/ml/recommendations.py:137-142 | scaled values lie in [0, 1]; the column's minimum scales to 0, its maximum to 1 when the column is not constant, and a constant column scales to 0 |
| Normalize.MinMaxMonotone | app/ml/recommendations.py:137-142 | scaling keeps the order of two values |
| Normalize.InvertSet | app/ml/recommendations.py:58-60 | the cost columns are always inverted; the admission rate is inverted exactly when selectivity is preferred |
| Normalize.Flip | app/ml/recommendations.py:147 | each value becomes 1 - v, so values in [0, 1] stay in [0, 1] |
| Normalize.InvertColumns | app/ml/recommendations.py:145-147 | the in-place loop computes `InvertFrame`: listed columns flipped, the rest untouched |
| Normalize.NormalizeFrame | app/ml/recommendations.py:116-147 | the only error is NoUsableNumericFeatures |
| Normalize.NormalizeErrorIff | app/ml/recommendations.py:131-134 | NoUsableNumericFeatures exactly when every kept column is entirely missing |
| Normalize.NormalizeFrameExact | app/ml/recommendations.py:116-147 | the frame pipeline equals normalising each column with data on its own |
| Normalize.NormalizeColumnDirection | app/ml/recommendations.py:144-147 | a lower raw value never scores lower on an inverted column, and never higher on another |
| Normalize.NormalizedAtLeastAsGood | app/ml/recommendations.py:116-147 | in a frame read from the table and normalised, a candidate at least as good as another on an attribute (lower on an inverted one, higher on any other) never gets the lower normalised value |
| Normalize.NormalizedUnitRange | app/ml/recommendations.py:116-147 | every normalised value lies in [0, 1], one value per candidate |
| AcademicFit.Falloff | app/ml/recommendations.py:165-167 | outside the band the fit lies in [0, 1), never a full fit |
| AcademicFit.BandFit | app/ml/recommendations.py:159-168 | the fit is in [0, 1]; it is defined exactly when both bounds exist and the score is inside or the band has positive width; it is 1 exactly inside the band |
| AcademicFit.BandFitByDistance | app/ml/recommendations.py:164-167 | farther below or farther above the band never fits better |
| AcademicFit.ZeroWidthBand | app/ml/recommendations.py:161-163 | a zero-width band fits only its own score, and is missing for any other |
| AcademicFit.AroundFit | app/ml/recommendations.py:179-181 | a midpoint band is defined exactly when the midpoint is, and fits fully within the half-width |
| AcademicFit.AddOpt | app/ml/recommendations.py:176-177 | the summed band bound is missing when either section bound is |
| AcademicFit.FitComponents | app/ml/recommendations.py:170-206 | at most three components, one cell per school each; none exactly when no given test has a band in the data |
| AcademicFit.FitComponentsOrder | app/ml/recommendations.py:170-206 | the SAT component comes first, then the ACT one, then the GPA one; each is present exactly when the user gave that score and the data has a band for it, and is the score against that band at every school |
| AcademicFit.FitScoresMeaning | app/ml/recommendations.py:208-209 | a school's fit is defined exactly when some component is, and lies in [0, 1] |
| AcademicFit.FitBucket | app/ml/recommendations.py:208-211 | a fit bucket has one cell per school, at least one of them defined, and each cell is the mean of that school's defined SAT, ACT and GPA fits |
| AcademicFit.FitScoresCell | app/ml/recommendations.py:208-209 | the skip-missing row mean of the components at a school is the mean of the school's defined test fits |
| AcademicFit.SatOnlyFit | app/ml/recommendations.py:173-209 | when only the SAT counts, a school's fit is its SAT band fit |
| AcademicFit.FitBucketIff | app/ml/recommendations.py:208-211 | the fit bucket exists exactly when some school has a defined component |
| AcademicFit.NoScoresNoFit | app/ml/recommendations.py:173-211 | without any test score there is no fit bucket |
| Scoring.Lookup | app/ml/recommendations.py:154 | a found column has that name in the frame; not found means no column has it |
| Scoring.ColumnsFor | app/ml/recommendations.py:154 | one column for each listed attribute that is in the frame, in list order, each the frame's column of that name; none exactly when no listed attribute is there |
| Scoring.CategoryBucket | app/ml/recommendations.py:154-156 | a bucket exists exactly when one of the category's attributes survived, and it is defined for every candidate |
| Scoring.CategoryBucketCell | app/ml/recommendations.py:154-156 | a candidate's bucket value is the value of the category's one attribute in the frame, or the mean of its two attributes when both are there |
| Scoring.CategoryBucketMonotone | app/ml/recommendations.py:154-156 | a candidate with values at least as high on every attribute of the category never gets the lower bucket value |
| Scoring.CategoryBucketsInRange | app/ml/recommendations.py:149-156 | with normalised values in [0, 1], every bucket value is defined and in [0, 1] |
| Scoring.CategoryBucketsNames | app/ml/recommendations.py:151-156 | a category has a bucket exactly when it has a column in the frame |
| Scoring.BuildBuckets | app/ml/recommendations.py:150-156 | the loop over the category map computes `CategoryBuckets` in map order |
| Scoring.Explicit | app/ml/recommendations.py:215-219 | the explicit weights are the positive priorities that name a bucket, pass-through keys aside |
| Scoring.ResolveWeights | app/ml/recommendations.py:214-227 | weights are only given to buckets that exist |
| Scoring.ExplicitWeightHonoured | app/ml/recommendations.py:215-219 | a positive priority naming a bucket is that bucket's weight |
| Scoring.FitWeight | app/ml/recommendations.py:221-222 | a fit bucket without its own positive weight takes the admissions priority, or 1 |
| Scoring.EqualWeightsWhen | app/ml/recommendations.py:214-227 | equal weights when there are no priorities, or when none is positive and there is no fit bucket |
| Scoring.WeightedBuckets | app/ml/recommendations.py:215-224 | otherwise the weighted buckets are exactly the positively prioritised ones, plus the fit bucket |
| Scoring.UnbucketedKeyIgnored | app/ml/recommendations.py:215-222 | a priority that names no bucket and is not admissions never changes the weights |
| Scoring.WeightsNonnegative | app/ml/recommendations.py:215-227 | no weight is negative unless the admissions priority is |
| Scoring.OverallInUnitRange | app/ml/recommendations.py:229-233 | with non-negative weights and bucket values in [0, 1], the score is in [0, 1] |
| Scoring.DenZeroIff | app/ml/recommendations.py:231 | the denominator is 0 exactly when every present bucket has weight 0 |
| Scoring.OverallDefinedIff | app/ml/recommendations.py:229-233 | a score exists exactly when some present bucket has a positive weight |
| Scoring.EqualWeightsMean | app/ml/recommendations.py:227-233 | with equal weights the score is the plain mean of the present bucket values |
| Scoring.MissingBucketIgnored | app/ml/recommendations.py:229-233 | the weight of a bucket missing for a candidate does not affect its score |
| Scoring.ZeroAdmissionsQuirk | app/ml/recommendations.py:221-227 | an admissions priority of 0 with a fit bucket and nothing else weighted gives weights `{fit: 0}` and no score |
| Ranking.InsertRanked | app/ml/recommendations.py:260 | insertion keeps the rows descending and adds exactly one row |
| Ranking.SortRanked | app/ml/recommendations.py:260 | the sort is descending by score with missing scores last, and a permutation of the rows |
| Ranking.SortedFirstIsBest | app/ml/recommendations.py:260 | no row outranks the first row of the sort |
| Ranking.Head | app/ml/recommendations.py:260 | `head(n)` is a prefix: the first n rows, or all but the last -n rows for negative n |
| Ranking.HeadEmptyIff | app/ml/recommendations.py:260-262 | the head is empty exactly when there are no rows, n is 0, or n drops every row |
| Ranking.HeadOfDescending | app/ml/recommendations.py:260 | a head of a descending list is descending and holds only rows of the list |
| Ranking.HeadIsTop | app/ml/recommendations.py:260 | the head of a descending list is part of the list, and every row left out is outranked by every row kept |
| Ranking.SubMultisetDistinct | app/ml/recommendations.py:260 | rows drawn from a list that repeats no candidate repeat none either |
| Engine.FilterSchools | app/ml/recommendations.py:63-69 | the candidates are exactly the schools in an allowed state (when states are given) within the budget (when given) |
| Engine.NoFiltersKeepAll | app/ml/recommendations.py:63-69 | no states and no budget keep every school |
| Engine.ScoreRows | app/ml/recommendations.py:229-257 | one row per candidate, in candidate order, with its weighted score |
| Engine.Subscores | app/ml/recommendations.py:255-256 | the subscores hold one entry per bucket, each a bucket's cell for that candidate |
| Engine.NoPrioritiesPlainMean | app/ml/recommendations.py:225-233 | without priorities each score is the plain mean of the candidate's bucket values |
| Engine.CandidateScoresInRange | app/ml/recommendations.py:149-233 | with values in [0, 1] and no negative admissions priority, every score is in [0, 1] |
| Engine.RankRows | app/ml/recommendations.py:259-262 | NoCandidatesRanked exactly when the head is empty; otherwise descending, exactly min(top_n, rows) rows for non-negative top_n, each an input row |
| Engine.RankRowsTop | app/ml/recommendations.py:259-262 | the rows kept are drawn from the input, every input row left out is outranked by every row kept, and no candidate appears twice when none does in the input |
| Engine.RankCandidates | app/ml/recommendations.py:149-262 | from the normalised frame: the error cases, descending order, the result size and the score range |
| Engine.RankCandidatesTop | app/ml/recommendations.py:149-262 | the result is the best `top_n` of the scored candidates, none twice |
| Engine.Prepare | app/ml/recommendations.py:63-147 | NoCandidates exactly when no school passes; otherwise a table of the candidates and a frame in [0, 1] |
| Engine.Recommend | app/ml/recommendations.py:9-262 | NoCandidates exactly when no school passes the filters; results descending, exactly min(top_n, candidates) rows for non-negative top_n, scores in [0, 1] unless the admissions priority is negative; NoCandidatesRanked only when top_n drops every row |
| Engine.NoCandidatesIff | app/ml/recommendations.py:69-71 | NoCandidates exactly when every school fails a filter |
| Engine.RecommendRanked | app/ml/recommendations.py:9-262 | every result row is a school from the database that passes the filters |
| Engine.RecommendTopN | app/ml/recommendations.py:9-262 | a result holds the best `top_n` of the scored candidates, one scored row per candidate that passed the filters, none twice; every candidate left out is outranked by every one returned |
| Engine.BucketDirection | app/ml/recommendations.py:144-156 | a candidate at least as good as another on every attribute of a category (lower on an inverted one, higher on any other) never gets the lower bucket value |
| Engine.FrameDirection | app/ml/recommendations.py:116-156 | the same for any frame read from the candidates' table and normalised |
| Engine.DeadPriorityIgnored | app/ml/recommendations.py:78-85 | a priority key that selects no attribute and names no bucket never changes the result, whatever its value |
| Engine.PrepareFrame | app/ml/recommendations.py:63-147 | the steps with their loops compute exactly `Prepare` |
| Engine.RankFrame | app/ml/recommendations.py:149-262 | the steps with the bucket loop compute exactly `RankCandidates` |
| Engine.RecommendCollegesFiltered | app/ml/recommendations.py:9-262 | the engine with its loops computes exactly `Recommend` |
| RouteForm.Strip | app/routes/recommendations.py:17 | a stripped string starts and ends with a non-space character, or is empty |
| RouteForm.StripIdempotent | app/routes/recommendations.py:17 | stripping twice is stripping once |
| RouteForm.StripEmptyIff | app/routes/recommendations.py:17 | a piece strips to nothing exactly when it is all spaces |
| RouteForm.UpperIdempotent | app/routes/recommendations.py:17 | upper-casing leaves no lower-case letter |
| RouteForm.Split | app/routes/recommendations.py:17 | splitting gives at least one piece, none containing a comma |
| RouteForm.JoinSplit | app/routes/recommendations.py:17 | joining the pieces with commas gives back the string |
| RouteForm.SplitJoin | app/routes/recommendations.py:17 | splitting comma-joined comma-free pieces gives back the pieces |
| RouteForm.ParseStates | app/routes/recommendations.py:17 | each parsed state is non-empty, stripped, upper-case and comma-free, at most one per piece |
| RouteForm.ParseStatesPiece | app/routes/recommendations.py:17 | a comma-free field gives nothing when blank, and its stripped, upper-cased text otherwise |
| RouteForm.ParseStatesAppend | app/routes/recommendations.py:17 | the text on either side of a comma is parsed independently, in order |
| RouteForm.ParseStatesJoin | app/routes/recommendations.py:17 | typing clean state codes separated by commas gives back exactly those codes |
| RouteForm.BlankStates | app/routes/recommendations.py:16-17 | a field of only spaces and commas gives no states |
| RouteForm.Slider | app/routes/recommendations.py:23-29 | an absent or empty slider reads as 0; any other text is converted by `float` |
| RouteForm.ReadSliders | app/routes/recommendations.py:22-30 | it succeeds exactly when every slider converts, with one key per slider; otherwise the error names the first slider that fails |
| RouteForm.ReadSlidersValues | app/routes/recommendations.py:22-30 | each priority is its slider's value |
| RouteForm.Priorities | app/routes/recommendations.py:22-30 | the priorities have exactly the seven slider keys |
| RouteForm.NoSlidersAllZero | app/routes/recommendations.py:22-30 | a form without sliders gives every priority 0 |
| RouteForm.Typed | app/routes/recommendations.py:18-21 | an absent typed field is `None`; a present one is its conversion |
| Route.FormQuery | app/routes/recommendations.py:15-30 | a form is rejected exactly when a priority is not a number; an accepted one gives the seven priorities and clean states |
| Route.RouteOutcome | app/routes/recommendations.py:32-34 | NoCandidates exactly when no school passes; never NoCandidatesRanked; when it succeeds, min(12, candidates) rows, best first, scores in [0, 1] |
| Route.RouteBest | app/routes/recommendations.py:32-34 | a successful request lists the best min(12, candidates) scored candidates, none twice; every candidate left out is outranked by every one listed |
| Route.RouteSelectingKeys | app/routes/recommendations.py:22-30 | of the route's sliders only academics, diversity and prestige can select attributes |
| Route.RouteFitWeight | app/routes/recommendations.py:22-30 | the route sends no admissions priority, so the fit bucket always weighs 1 |
| Route.ZeroSlidersFitOnly | app/routes/recommendations.py:22-30 | with every slider at 0 and a fit bucket, only the fit bucket is weighed |
| Route.DeadSliders | app/routes/recommendations.py:25-28 | the professors, urbanicity, value and campus sliders never change the results |
| Route.NoStatesNoFilter | app/routes/recommendations.py:16-17 | a blank or absent states field applies no state filter |

## Left out

- The database is a parameter. The schools and the names of their columns are inputs; the SQL query is the filter predicate `Passes`.
- Attribute values are `real` numbers or missing. `pd.to_numeric(errors='coerce')` would turn text into missing values; the model assumes it has already done so.
- Floating point is not modelled. All arithmetic is exact, so the rounding of floats and the `1e-6` guard are exact too. The 60% coverage threshold is compared as an exact fraction.
- NaN and infinity as attribute values are not modelled.
- The `file_path` argument is not modelled; the engine never uses it.
- The meta columns, their aliases and the database `id` are not modelled: name, city, state, unitid, INSTNM, CITY, STABBR, UNITID, id. Result rows carry the candidate's position instead.
- `sat_act_gpa_cols` is not modelled. It only chooses which columns are copied along; the fit code tests the same names against the data's columns itself.
- Ranking.SortRanked: the order among equal scores is not stated. pandas' default sort is not stable and the source does not fix it, so only the descending order and the permutation are proved.
- The bucket loop's `value`/`campus` skip (lines 152-153) is not modelled as a branch. The category map has no such keys, so the skip never fires.
- RouteForm.Upper: only the letters a-z are upper-cased. Python's full Unicode case mapping, which can change a string's length, is not modelled.
- Python's `int` and `float` conversions on form text are parameters (`toInt`, `toFloat`). Their parsing rules are not modelled.
- The GET branch of the route is not modelled. Neither are the login check, the user's lists, the template rendering and the configured data path. The route's unhandled exceptions surface as the `Err` results of `ReadForm` and `Recommend`.
- Scoring.OverallInUnitRange: the weighted mean is bounded for bucket values in [0, 1] only, not for a general range [lo, hi]. [0, 1] is the range the normalised values and fit scores actually take.
