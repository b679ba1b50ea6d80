/**
 * The POST branch of the recommendations route (app/routes/recommendations.py, lines 15-34):
 * read the form, call the engine with `top_n=12` and the default `prefer_selectivity`.
 */
module Route {
  import opened Options
  import opened Schema
  import opened Selection
  import opened Scoring
  import opened Ranking
  import opened Engine
  import opened RouteForm

  /** The number of results the route asks for. */
  const RouteTopN: int := 12

  /** What the route reads from the form (lines 16-30). */
  datatype Query = Query(states: seq<string>, sat: Option<int>, act: Option<int>, gpa: Option<real>,
                         prio: map<string, real>, cost: Option<int>)

  /** The route's priorities never carry an `admissions` or `fit` key. */
  predicate RoutePriorities(prio: map<string, real>)
  {
    prio.Keys == {"academics", "value", "professors", "diversity", "urbanicity", "campus", "prestige"}
  }

  /**
   * Lines 16-30: the states, the three test scores and the budget (each `None` when absent or
   * unreadable), and the priorities; the form is rejected when a priority is not a number.
   * `toInt` and `toFloat` stand for Python's `int` and `float` on a string.
   */
  function ReadForm(form: Form, toInt: string -> Option<int>, toFloat: string -> Option<real>): Result<Query, string>
  {
    var prio := Priorities(form, toFloat);
    if prio.Err? then Err(prio.error)
    else
      Ok(Query(States(form), Typed(form, "sat", toInt), Typed(form, "act", toInt), Typed(form, "gpa", toFloat),
               prio.value, Typed(form, "cost", toInt)))
  }

  /**
   * The route rejects a form exactly when a priority is not a number; an accepted form gives the
   * seven priorities, clean state codes, and no test score or budget for a field left out.
   */
  lemma FormQuery(form: Form, toInt: string -> Option<int>, toFloat: string -> Option<real>)
    ensures var r := ReadForm(form, toInt, toFloat);
      && (r.Err? <==> Priorities(form, toFloat).Err?)
      && (r.Ok? ==> RoutePriorities(r.value.prio))
      && (r.Ok? ==> forall e :: e in r.value.states ==> CleanState(e))
      && (r.Ok? && "sat" !in form ==> r.value.sat.None?)
      && (r.Ok? && "cost" !in form ==> r.value.cost.None?)
  {
  }

  /** Lines 32-34: the engine over the schools `all`, with twelve results and selectivity preferred. */
  function Results(all: seq<School>, columns: set<string>, q: Query): Result<seq<Ranked>, EngineError>
  {
    Recommend(all, columns, q.states, q.sat, q.act, q.gpa, q.prio, q.cost, RouteTopN, true)
  }

  /**
   * A route request ends in `NoCandidates` exactly when no school passes the filters, and never
   * in `NoCandidatesRanked` (it can still end in `NoUsableFeatures` or `NoUsableNumericFeatures`);
   * when it succeeds it lists twelve candidates (all of them when fewer), best first, each score
   * in [0, 1].
   */
  lemma RouteOutcome(all: seq<School>, columns: set<string>, q: Query)
    requires RoutePriorities(q.prio)
    ensures var r := Results(all, columns, q);
      var n := |FilterSchools(all, q.states, q.cost)|;
      && (r == Err(NoCandidates) <==> n == 0)
      && r != Err(NoCandidatesRanked)
      && (r.Ok? ==> Descending(r.value) && |r.value| == Min(12, n))
      && (r.Ok? ==> forall x :: x in r.value && x.score.Some? ==> 0.0 <= x.score.value <= 1.0)
  {
    assert "admissions" !in q.prio;
    var r := Recommend(all, columns, q.states, q.sat, q.act, q.gpa, q.prio, q.cost, 12, true);
    assert r == Results(all, columns, q);
  }

  /**
   * The twelve candidates a successful request lists are the best twelve: each is a scored
   * candidate, none twice, and every candidate left out is outranked by every one listed.
   */
  lemma RouteBest(all: seq<School>, columns: set<string>, q: Query)
    requires Results(all, columns, q).Ok?
    ensures var p := Prepare(all, columns, q.states, q.prio, q.cost, true);
      && p.Ok?
      && var rows := Scored(p.value.0, p.value.1, q.sat, q.act, q.gpa, q.prio);
      && |Results(all, columns, q).value| == Min(12, |rows|)
      && TopOf(Results(all, columns, q).value, rows)
      && DistinctRows(Results(all, columns, q).value)
  {
    RecommendTopN(all, columns, q.states, q.sat, q.act, q.gpa, q.prio, q.cost, RouteTopN, true);
  }

  /** Of the route's sliders, only academics, diversity and prestige can select attributes. */
  lemma RouteSelectingKeys(prio: map<string, real>)
    requires RoutePriorities(prio)
    ensures forall k :: k in prio && !PassThrough(k) && FeatureMap(k) != [] <==> k in {"academics", "diversity", "prestige"}
  {
  }

  /** The route sends no `admissions` priority, so a fit bucket always weighs 1. */
  lemma RouteFitWeight(prio: map<string, real>, keys: set<string>)
    requires RoutePriorities(prio) && "fit" in keys
    ensures Weight(ResolveWeights(prio, keys), "fit") == 1.0
  {
    assert "academics" in prio;
    FitWeight(prio, keys);
  }

  /**
   * With every slider at 0 and a fit bucket, the fit bucket is the only one weighed: the overall
   * score is the academic fit alone.
   */
  lemma ZeroSlidersFitOnly(prio: map<string, real>, keys: set<string>)
    requires RoutePriorities(prio) && "fit" in keys
    requires forall k :: k in prio ==> prio[k] == 0.0
    ensures ResolveWeights(prio, keys) == map["fit" := 1.0]
  {
    assert "academics" in prio;
    assert Explicit(prio, keys) == map[];
  }

  /** The professors and urbanicity sliders, like value and campus, never change the results. */
  lemma DeadSliders(all: seq<School>, columns: set<string>, q: Query, k: string, a: real, b: real)
    requires k in {"professors", "urbanicity", "value", "campus"}
    ensures Results(all, columns, q.(prio := q.prio[k := a])) == Results(all, columns, q.(prio := q.prio[k := b]))
  {
    DeadPriorityIgnored(all, columns, q.states, q.sat, q.act, q.gpa, q.prio, q.cost, RouteTopN, true, k, a, b);
  }

  /** A blank or missing states field applies no state filter. */
  lemma NoStatesNoFilter(all: seq<School>, form: Form)
    requires "states" !in form || forall k :: 0 <= k < |form["states"]| ==> form["states"][k] == ',' || IsSpace(form["states"][k])
    ensures States(form) == []
    ensures FilterSchools(all, States(form), None) == all
  {
    if "states" in form {
      BlankStates(form["states"]);
    } else {
      BlankStates("");
    }
    NoFiltersKeepAll(all);
  }
}
