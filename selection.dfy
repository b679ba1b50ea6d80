/**
 * Feature selection from the user's priorities, with the default fallback, and the
 * 60% coverage filter (app/ml/recommendations.py, lines 78-113).
 */
module Selection {
  import opened Options
  import opened StringOrder
  import opened Stats
  import opened Schema

  /** Some non-pass-through category with a positive weight maps to attribute `f`. */
  predicate Requested(prio: map<string, real>, f: string)
  {
    exists k :: k in prio && !PassThrough(k) && prio[k] > 0.0 && f in FeatureMap(k)
  }

  /** The requested attributes that the data has, as a set. */
  function RequestedPresent(prio: map<string, real>, columns: set<string>): set<string>
  {
    set f | f in MappedFeatures && f in columns && Requested(prio, f)
  }

  /**
   * `sorted(set(...))` of the requested attributes present in the data; when that is empty,
   * the default list filtered to the data; when that is empty too, NoUsableFeatures.
   */
  function SelectFeatures(prio: map<string, real>, columns: set<string>): (r: Result<seq<string>, EngineError>)
    ensures r.Ok? ==> r.value != [] && forall f :: f in r.value ==> f in columns
    ensures r.Err? ==> r.error == NoUsableFeatures
  {
    var chosen := KeepIn(MappedFeatures, RequestedPresent(prio, columns));
    if chosen != [] then Ok(chosen)
    else
      var fallback := KeepIn(DefaultFeatures, columns);
      if fallback == [] then Err(NoUsableFeatures) else Ok(fallback)
  }

  /** With a requested attribute in the data: exactly the requested attributes in the data, sorted, no duplicates. */
  lemma SelectionFromPriorities(prio: map<string, real>, columns: set<string>)
    requires exists f :: f in columns && Requested(prio, f)
    ensures SelectFeatures(prio, columns).Ok?
    ensures StrictlySorted(SelectFeatures(prio, columns).value)
    ensures forall f :: f in SelectFeatures(prio, columns).value <==> f in columns && Requested(prio, f)
  {
    var f :| f in columns && Requested(prio, f);
    var k :| k in prio && !PassThrough(k) && prio[k] > 0.0 && f in FeatureMap(k);
    FeatureMapMapped(k);
    assert f in KeepIn(MappedFeatures, RequestedPresent(prio, columns));
    MappedFeaturesSorted();
    KeepInSorted(MappedFeatures, RequestedPresent(prio, columns));
    forall g | g in columns && Requested(prio, g) ensures g in MappedFeatures {
      var kg :| kg in prio && !PassThrough(kg) && prio[kg] > 0.0 && g in FeatureMap(kg);
      FeatureMapMapped(kg);
    }
  }

  lemma {:induction false} EmptyKeep(s: seq<string>, allowed: set<string>)
    requires forall x :: x in s ==> x !in allowed
    ensures KeepIn(s, allowed) == []
  {
    if s != [] {
      EmptyKeep(s[1..], allowed);
    }
  }

  /** With no requested attribute in the data: the default list, in its order, restricted to the data. */
  lemma SelectionFallback(prio: map<string, real>, columns: set<string>)
    requires forall f :: f in columns ==> !Requested(prio, f)
    ensures SelectFeatures(prio, columns).Ok? <==> exists f :: f in DefaultFeatures && f in columns
    ensures SelectFeatures(prio, columns).Ok? ==>
      && IsSubsequence(SelectFeatures(prio, columns).value, DefaultFeatures)
      && forall f :: f in SelectFeatures(prio, columns).value <==> f in DefaultFeatures && f in columns
  {
    assert RequestedPresent(prio, columns) == {};
    EmptyKeep(MappedFeatures, RequestedPresent(prio, columns));
    KeepInSubsequence(DefaultFeatures, columns);
    var fallback := KeepIn(DefaultFeatures, columns);
    if exists f :: f in DefaultFeatures && f in columns {
      var f :| f in DefaultFeatures && f in columns;
      assert f in fallback;
    }
    if fallback != [] {
      assert fallback[0] in fallback;
    }
  }

  /** NoUsableFeatures is raised exactly when the data has none of the mapped attributes. */
  lemma NoUsableFeaturesIff(prio: map<string, real>, columns: set<string>)
    ensures SelectFeatures(prio, columns).Err? <==> forall f :: f in MappedFeatures ==> f !in columns
  {
    DefaultsAreMapped();
    if forall f :: f in MappedFeatures ==> f !in columns {
      assert RequestedPresent(prio, columns) == {};
      EmptyKeep(MappedFeatures, RequestedPresent(prio, columns));
      EmptyKeep(DefaultFeatures, columns);
    }
    if exists f :: f in MappedFeatures && f in columns {
      var f :| f in MappedFeatures && f in columns;
      assert f in DefaultFeatures;
      assert f in KeepIn(DefaultFeatures, columns);
    }
  }

  /** A key that is a pass-through marker or names no category changes nothing about the selection. */
  lemma DeadKeyIgnored(prio: map<string, real>, columns: set<string>, k: string, w: real)
    requires PassThrough(k) || FeatureMap(k) == []
    ensures SelectFeatures(prio[k := w], columns) == SelectFeatures(prio - {k}, columns)
  {
    forall f ensures Requested(prio[k := w], f) <==> Requested(prio - {k}, f) {
      if Requested(prio[k := w], f) {
        var j :| j in prio[k := w] && !PassThrough(j) && prio[k := w][j] > 0.0 && f in FeatureMap(j);
        assert j != k;
        assert j in prio - {k} && (prio - {k})[j] == prio[k := w][j];
      }
      if Requested(prio - {k}, f) {
        var j :| j in prio - {k} && !PassThrough(j) && (prio - {k})[j] > 0.0 && f in FeatureMap(j);
        assert j in prio[k := w] && prio[k := w][j] == (prio - {k})[j];
      }
    }
    assert RequestedPresent(prio[k := w], columns) == RequestedPresent(prio - {k}, columns);
  }

  /**
   * The loop of lines 78-85: extend `feats` with the attributes of every active priority, then
   * keep those in the data as `sorted(set(...))`, falling back to the defaults.
   */
  method CollectFeatures(prio: map<string, real>, columns: set<string>) returns (r: Result<seq<string>, EngineError>)
    ensures r == SelectFeatures(prio, columns)
  {
    var feats: seq<string> := [];
    var todo := prio.Keys;
    while todo != {}
      invariant todo <= prio.Keys
      invariant forall f :: f in feats <==>
        exists k :: k in prio && k !in todo && !PassThrough(k) && prio[k] > 0.0 && f in FeatureMap(k)
      decreases todo
    {
      var k :| k in todo;
      if !PassThrough(k) && prio[k] > 0.0 {
        feats := feats + FeatureMap(k);
      }
      todo := todo - {k};
    }
    var present := set f | f in feats && f in columns;
    forall f | f in present ensures f in MappedFeatures {
      var k :| k in prio && !PassThrough(k) && prio[k] > 0.0 && f in FeatureMap(k);
      FeatureMapMapped(k);
    }
    assert present == RequestedPresent(prio, columns);
    var chosen := KeepIn(MappedFeatures, present);
    if chosen != [] {
      r := Ok(chosen);
    } else {
      var fallback := KeepIn(DefaultFeatures, columns);
      if fallback == [] {
        r := Err(NoUsableFeatures);
      } else {
        r := Ok(fallback);
      }
    }
  }

  const MinCoverage: real := 0.6

  /** `notna().mean()` of a column: the fraction of candidates with a value. */
  function Coverage(col: seq<Option<real>>): (c: real)
    requires |col| > 0
    ensures 0.0 <= c <= 1.0
    ensures c == 0.0 <==> forall i :: 0 <= i < |col| ==> col[i].None?
  {
    DivBounds(|Present(col)| as real, |col| as real, 0.0, 1.0);
    |Present(col)| as real / |col| as real
  }

  predicate WellCovered(t: Table, f: string)
    requires |t.rows| > 0
  {
    Coverage(ColumnOf(t, f)) >= MinCoverage
  }

  /** The selected attributes that reach the coverage threshold. */
  function WellCoveredSet(t: Table, feats: seq<string>): (s: set<string>)
    requires |t.rows| > 0
    ensures forall f :: f in s <==> f in feats && WellCovered(t, f)
  {
    set f | f in feats && WellCovered(t, f)
  }

  /** `keep_feats`: the selected attributes with at least 60% coverage, or all of them when none has. */
  function CoverageFilter(t: Table, feats: seq<string>): (keep: seq<string>)
    requires |t.rows| > 0
    ensures IsSubsequence(keep, feats)
    ensures feats != [] ==> keep != []
    ensures (exists f :: f in feats && WellCovered(t, f)) ==>
      forall f :: f in keep <==> f in feats && WellCovered(t, f)
    ensures (forall f :: f in feats ==> !WellCovered(t, f)) ==> keep == feats
  {
    var covered := KeepIn(feats, WellCoveredSet(t, feats));
    assert (exists f :: f in feats && WellCovered(t, f)) ==> covered != [] by {
      if exists f :: f in feats && WellCovered(t, f) {
        var f :| f in feats && WellCovered(t, f);
        assert f in covered;
      }
    }
    assert covered != [] ==> covered[0] in covered;
    KeepInSubsequence(feats, WellCoveredSet(t, feats));
    SubsequenceOfSelf(feats);
    if covered == [] then feats else covered
  }
}
