/**
 * The engine's fixed vocabulary: the candidate table, named columns, the category to
 * attribute map, the default attribute list, and the errors the engine raises.
 */
module Schema {
  import opened Options
  import opened StringOrder

  /** The four terminal conditions, in the order the pipeline can reach them. */
  datatype EngineError =
    | NoCandidates             // no school passed the query's filters
    | NoUsableFeatures         // neither the requested nor the default attributes are in the data
    | NoUsableNumericFeatures  // every kept attribute is entirely missing
    | NoCandidatesRanked       // the ranked result is empty

  /** One candidate school: numeric attribute values by column name; a missing key reads as missing. */
  type Record = map<string, Option<real>>

  /** The candidates the query returned, with the set of columns the data frame has. */
  datatype Table = Table(columns: set<string>, rows: seq<Record>)

  function Cell(r: Record, c: string): Option<real>
  {
    if c in r then r[c] else None
  }

  /** Column `c` of the table, one cell per candidate. */
  function ColumnOf(t: Table, c: string): (col: seq<Option<real>>)
    ensures |col| == |t.rows|
    ensures forall i :: 0 <= i < |col| ==> col[i] == Cell(t.rows[i], c)
  {
    seq(|t.rows|, i requires 0 <= i < |t.rows| => Cell(t.rows[i], c))
  }

  /** A named column of a derived frame. */
  datatype Named<T> = Named(name: string, values: seq<T>)

  function Names<T>(f: seq<Named<T>>): (r: seq<string>)
    ensures |r| == |f|
    ensures forall j :: 0 <= j < |f| ==> r[j] == f[j].name
  {
    if f == [] then [] else [f[0].name] + Names(f[1..])
  }

  /** Every column of the frame has one value per candidate. */
  predicate Rect<T>(f: seq<Named<T>>, n: nat)
  {
    forall j :: 0 <= j < |f| ==> |f[j].values| == n
  }

  const CostCol: string := "cost_of_attendance"

  /** The keys of `feature_map`, in its order. */
  const Categories: seq<string> :=
    ["academics", "admissions", "cost", "faculty", "diversity", "location", "prestige"]

  /** `feature_map.get(k, [])`: the attributes behind a priority category. */
  function FeatureMap(k: string): seq<string>
  {
    if k == "academics" then ["retention_rate_ft", "graduation_rate_150"]
    else if k == "admissions" then ["admission_rate"]
    else if k == "cost" then [CostCol, "median_debt"]
    else if k == "faculty" then ["avg_faculty_salary"]
    else if k == "diversity" then ["diversity_score"]
    else if k == "location" then ["urbanicity_score"]
    else if k == "prestige" then ["admission_rate"]
    else []
  }

  /** Priority keys reserved for other meanings: never expanded into attributes or weighted. */
  predicate PassThrough(k: string)
  {
    k == "value" || k == "campus"
  }

  /** The attributes used when no priority selects any. */
  const DefaultFeatures: seq<string> :=
    ["retention_rate_ft", "graduation_rate_150", "admission_rate", CostCol,
     "median_debt", "avg_faculty_salary", "diversity_score", "urbanicity_score"]

  /** Every attribute that `feature_map` mentions, in ascending string order. */
  const MappedFeatures: seq<string> :=
    ["admission_rate", "avg_faculty_salary", CostCol, "diversity_score",
     "graduation_rate_150", "median_debt", "retention_rate_ft", "urbanicity_score"]

  lemma MappedFeaturesSorted()
    ensures StrictlySorted(MappedFeatures)
  {
    var m := MappedFeatures;
    assert LexLess(m[0], m[1]) by {
      assert m[0][0] == m[1][0] && m[0][1..] == "dmission_rate" && m[1][1..] == "vg_faculty_salary";
    }
    ChainStrictlySorted(m);
  }

  /** Every attribute behind a category is one of the mapped attributes. */
  lemma FeatureMapMapped(k: string)
    ensures forall f :: f in FeatureMap(k) ==> f in MappedFeatures
  {
  }

  /** The mapped attributes are exactly those behind some category of `feature_map`. */
  lemma MappedFeaturesExact()
    ensures forall f :: f in MappedFeatures <==> exists k :: k in Categories && f in FeatureMap(k)
  {
    forall f | f in MappedFeatures ensures exists k :: k in Categories && f in FeatureMap(k) {
      var k := if f == "admission_rate" then "admissions"
        else if f == "avg_faculty_salary" then "faculty"
        else if f == CostCol || f == "median_debt" then "cost"
        else if f == "diversity_score" then "diversity"
        else if f == "urbanicity_score" then "location"
        else "academics";
      assert k in Categories && f in FeatureMap(k);
    }
    forall k, f | k in Categories && f in FeatureMap(k) ensures f in MappedFeatures {
      FeatureMapMapped(k);
    }
  }

  /** The default list holds exactly the mapped attributes, in another order. */
  lemma DefaultsAreMapped()
    ensures forall f :: f in DefaultFeatures <==> f in MappedFeatures
  {
  }
}
