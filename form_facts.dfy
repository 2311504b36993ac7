/** Properties of the form translation over a whole form. */
module FormFacts {
  import opened Wrappers
  import opened PyStr
  import opened PyDict
  import opened Typing
  import opened FormConfig

  /** Once an iteration raises, the rest of the loop never runs: the error is final. */
  lemma {:induction false} ApplyKeysErrPersists(p: ExpParams, entries: Form, n: nat, toOptimize: seq<string>, loads: Loads)
    requires AllNonEmpty(entries) && n <= |entries|
    requires ApplyKeys(p, entries[..n], toOptimize, loads).Err?
    ensures ApplyKeys(p, entries, toOptimize, loads) == ApplyKeys(p, entries[..n], toOptimize, loads)
    decreases |entries|
  {
    if n < |entries| {
      var init := entries[..|entries| - 1];
      assert init[..n] == entries[..n];
      ApplyKeysErrPersists(p, init, n, toOptimize, loads);
    } else {
      assert entries[..n] == entries;
    }
  }

  /** The first value that does not decode is the one the error names. */
  lemma DecodeAllFirstFailure(key: string, values: seq<string>, v: nat, loads: Loads)
    requires v < |values| && loads(values[v]).None?
    requires DecodeAll(key, values[..v], loads).Ok?
    ensures DecodeAll(key, values, loads) == Err(BadMetricValue(key, values[v]))
  {
    var prefix := values[..v];
    assert forall j :: 0 <= j < v ==> loads(values[j]).Some? by {
      forall j | 0 <= j < v ensures loads(values[j]).Some? {
        assert prefix[j] == values[j];
      }
    }
  }

  /** Decoding one more value extends the decoded prefix by that value. */
  lemma DecodeAllSnoc(key: string, values: seq<string>, v: nat, loads: Loads, decoded: seq<Fields>, fields: Fields)
    requires v < |values| && DecodeAll(key, values[..v], loads) == Ok(decoded) && loads(values[v]) == Some(fields)
    ensures DecodeAll(key, values[..v + 1], loads) == Ok(decoded + [fields])
  {
    assert values[..v + 1][..v] == values[..v];
  }

  /** The parameters after one more value are those before, updated by that value's items. */
  lemma CollectParametersSnoc(decoded: seq<Fields>, fields: Fields)
    ensures CollectParameters(decoded + [fields]) == FieldsParameters(CollectParameters(decoded), fields)
  {
    assert (decoded + [fields])[..|decoded|] == decoded;
  }

  /** One more value goes to `optimize_metrics` only when all before it did and it holds no `"type": "track"`. */
  lemma OptimizeCountSnoc(decoded: seq<Fields>, fields: Fields)
    ensures OptimizeCount(decoded + [fields]) ==
            if OptimizeCount(decoded) == |decoded| && !HasTrack(fields) then |decoded| + 1 else OptimizeCount(decoded)
  {
    assert (decoded + [fields])[..|decoded|] == decoded;
  }

  /** The metric a field produces once all its values are decoded. */
  lemma MetricOfDecoded(key: string, values: seq<string>, loads: Loads, decoded: seq<Fields>)
    requires DecodeAll(key, values, loads) == Ok(decoded)
    ensures MetricOf(key, values, loads) ==
            Ok((Metric(RemoveAll(key, "metric."), CollectParameters(decoded)), OptimizeCount(decoded),
                |decoded| - OptimizeCount(decoded)))
  {
  }

  /** The parameters to optimise are exactly the `_check` field names with `_check` removed. */
  lemma {:induction false} ParamsToOptimizeMembers(form: Form, name: string)
    ensures name in ParamsToOptimize(form) <==>
              exists i :: 0 <= i < |form| && Contains(form[i].0, "_check") && name == RemoveAll(form[i].0, "_check")
    decreases |form|
  {
    if form != [] {
      var init := form[..|form| - 1];
      assert forall i :: 0 <= i < |init| ==> init[i] == form[i];
      ParamsToOptimizeMembers(init, name);
    }
  }

  /** The settings read before the loop: nothing in the loop writes them. */
  predicate SameSettings(p: ExpParams, q: ExpParams) {
    && q.partitioning == p.partitioning && q.path == p.path && q.dataset == p.dataset
    && q.optimization.(searchSpaces := []) == p.optimization.(searchSpaces := [])
  }

  /** How many metric entries the fields in `entries` append: one per value of a `metric.` field. */
  function MetricValueCount(entries: Form): nat
    decreases |entries|
  {
    if entries == [] then 0
    else
      var (key, values) := entries[|entries| - 1];
      MetricValueCount(entries[..|entries| - 1]) + if Contains(key, "metric.") then |values| else 0
  }

  /** `name` is a `metric.` field name of `entries` with `metric.` removed. */
  ghost predicate FromMetricKey(entries: Form, name: string) {
    exists i :: 0 <= i < |entries| && Contains(entries[i].0, "metric.") && name == RemoveAll(entries[i].0, "metric.")
  }

  /** `n` is the search-space name that field `key` writes when it names an optimised parameter. */
  ghost predicate SpaceNameFrom(key: string, toOptimize: seq<string>, n: string) {
    && Contains(key, "model.") && Matches(key, toOptimize)
    && ((Contains(key, "_xminx") && n == BoundName(key, "_xminx")) ||
        (!Contains(key, "_xminx") && Contains(key, "_xmaxx") && n == BoundName(key, "_xmaxx")) ||
        (!Contains(key, "_xminx") && !Contains(key, "_xmaxx") && !Contains(key, "_check") && n == RemoveAll(key, "model.")))
  }

  /** What one iteration of the loop may change. */
  lemma StepFacts(p: ExpParams, key: string, values: seq<string>, toOptimize: seq<string>, loads: Loads)
    requires |values| > 0 && Step(p, key, values, toOptimize, loads).Ok?
    ensures var q := Step(p, key, values, toOptimize, loads).value;
      && SameSettings(p, q)
      && |q.optimizeMetrics| + |q.trackMetrics| ==
         |p.optimizeMetrics| + |p.trackMetrics| + (if Contains(key, "metric.") then |values| else 0)
      && (forall i :: |p.optimizeMetrics| <= i < |q.optimizeMetrics| ==>
            Contains(key, "metric.") && q.optimizeMetrics[i].name == RemoveAll(key, "metric."))
      && (forall i :: |p.trackMetrics| <= i < |q.trackMetrics| ==>
            Contains(key, "metric.") && q.trackMetrics[i].name == RemoveAll(key, "metric."))
      && (forall n :: HasKey(q.optimization.searchSpaces, n) ==>
            HasKey(p.optimization.searchSpaces, n) || SpaceNameFrom(key, toOptimize, n))
  {
    var m := if Contains(key, "model.") then ModelKeyStep(p, key, values, toOptimize) else Ok(p);
    if Contains(key, "model.") {
      ModelKeyStepFacts(p, key, values, toOptimize, m);
    }
    if Contains(key, "metric.") {
      MetricKeyStepFacts(m.value, key, values, loads, MetricKeyStep(m.value, key, values, loads));
    }
    var q := m.value;
    var spaces, spaces' := p.optimization.searchSpaces, q.optimization.searchSpaces;
    forall n | HasKey(spaces', n) ensures HasKey(spaces, n) || SpaceNameFrom(key, toOptimize, n) {
      if Contains(key, "model.") && Matches(key, toOptimize) && !HasKey(spaces, n) {
        if Contains(key, "_xminx") {
          assert n == BoundName(key, "_xminx");
        } else if Contains(key, "_xmaxx") {
          assert n == BoundName(key, "_xmaxx");
        }
      }
    }
  }

  /** The loop from `p` over `entries` keeps the settings read before it. */
  lemma {:induction false} ApplyKeysSettings(p: ExpParams, entries: Form, toOptimize: seq<string>, loads: Loads)
    requires AllNonEmpty(entries) && ApplyKeys(p, entries, toOptimize, loads).Ok?
    ensures SameSettings(p, ApplyKeys(p, entries, toOptimize, loads).value)
    decreases |entries|
  {
    if entries != [] {
      var init := entries[..|entries| - 1];
      var (key, values) := entries[|entries| - 1];
      assert forall i :: 0 <= i < |init| ==> init[i] == entries[i];
      ApplyKeysSettings(p, init, toOptimize, loads);
      StepFacts(ApplyKeys(p, init, toOptimize, loads).value, key, values, toOptimize, loads);
    }
  }

  /** The loop from `p` over `entries` appends one metric per `metric.` value, named after its field. */
  lemma {:induction false} ApplyKeysMetrics(p: ExpParams, entries: Form, toOptimize: seq<string>, loads: Loads)
    requires AllNonEmpty(entries) && ApplyKeys(p, entries, toOptimize, loads).Ok?
    ensures var q := ApplyKeys(p, entries, toOptimize, loads).value;
      && |q.optimizeMetrics| + |q.trackMetrics| == |p.optimizeMetrics| + |p.trackMetrics| + MetricValueCount(entries)
      && (forall i :: |p.optimizeMetrics| <= i < |q.optimizeMetrics| ==> FromMetricKey(entries, q.optimizeMetrics[i].name))
      && (forall i :: |p.trackMetrics| <= i < |q.trackMetrics| ==> FromMetricKey(entries, q.trackMetrics[i].name))
    decreases |entries|
  {
    if entries != [] {
      var init := entries[..|entries| - 1];
      var (key, values) := entries[|entries| - 1];
      assert forall i :: 0 <= i < |init| ==> init[i] == entries[i];
      ApplyKeysMetrics(p, init, toOptimize, loads);
      var mid := ApplyKeys(p, init, toOptimize, loads).value;
      StepFacts(mid, key, values, toOptimize, loads);
      var q := ApplyKeys(p, entries, toOptimize, loads).value;
      forall i | |p.optimizeMetrics| <= i < |q.optimizeMetrics|
        ensures FromMetricKey(entries, q.optimizeMetrics[i].name)
      {
        if i >= |mid.optimizeMetrics| {
          assert entries[|entries| - 1].0 == key;
        } else {
          assert q.optimizeMetrics[i] == mid.optimizeMetrics[i];
        }
      }
      forall i | |p.trackMetrics| <= i < |q.trackMetrics|
        ensures FromMetricKey(entries, q.trackMetrics[i].name)
      {
        if i >= |mid.trackMetrics| {
          assert entries[|entries| - 1].0 == key;
        } else {
          assert q.trackMetrics[i] == mid.trackMetrics[i];
        }
      }
    }
  }

  /** The loop from `p` over `entries` creates search spaces only for names some optimised `model.` field gives. */
  lemma {:induction false} ApplyKeysSpaces(p: ExpParams, entries: Form, toOptimize: seq<string>, loads: Loads)
    requires AllNonEmpty(entries) && ApplyKeys(p, entries, toOptimize, loads).Ok?
    ensures var q := ApplyKeys(p, entries, toOptimize, loads).value;
      forall n :: HasKey(q.optimization.searchSpaces, n) ==>
        HasKey(p.optimization.searchSpaces, n) ||
        exists i :: 0 <= i < |entries| && SpaceNameFrom(entries[i].0, toOptimize, n)
    decreases |entries|
  {
    if entries != [] {
      var init := entries[..|entries| - 1];
      var (key, values) := entries[|entries| - 1];
      assert forall i :: 0 <= i < |init| ==> init[i] == entries[i];
      ApplyKeysSpaces(p, init, toOptimize, loads);
      var mid := ApplyKeys(p, init, toOptimize, loads).value;
      StepFacts(mid, key, values, toOptimize, loads);
      var q := ApplyKeys(p, entries, toOptimize, loads).value;
      forall n | HasKey(q.optimization.searchSpaces, n) && !HasKey(p.optimization.searchSpaces, n)
        ensures exists i :: 0 <= i < |entries| && SpaceNameFrom(entries[i].0, toOptimize, n)
      {
        if !HasKey(mid.optimization.searchSpaces, n) {
          assert SpaceNameFrom(entries[|entries| - 1].0, toOptimize, n);
        }
      }
    }
  }

  /** Nothing is queued, without an error, exactly when the queue manager already has the batch and experiment ids. */
  lemma SubmitAlreadyExists(form: Form, existing: set<(string, string)>, loads: Loads)
    requires AllNonEmpty(form)
    ensures var r := Submit(form, existing, loads);
      (r.Ok? && r.value.AlreadyExists?) <==>
      (FirstValue(form, "batchId").Ok? && FirstValue(form, "expId").Ok? &&
       (FirstValue(form, "batchId").value, FirstValue(form, "expId").value) in existing)
  {
  }

  /** The settings `expParams` starts with are the first values of their fields, typed where the source types them. */
  lemma InitialSettings(form: Form)
    requires AllNonEmpty(form) && Initial(form).Ok?
    ensures var p := Initial(form).value;
      && p.path == FirstValue(form, "path").value
      && p.dataset == FirstValue(form, "dataset").value
      && p.optimization.iterations == TypedOf(FirstValue(form, "iterations").value)
      && p.optimization.modelRuns == TypedOf(FirstValue(form, "runs").value)
      && p.optimization.surrogateModel == FirstValue(form, "surrogateModel").value
      && p.optimization.nRandomStarts == TypedOf(FirstValue(form, "n_random_starts").value)
      && p.optimization.acquisitionFunction == FirstValue(form, "acquisitionFunction").value
  {
    var fs := RequiredFields;
    assert fs[0] == "path" && fs[1] == "dataset" && fs[3] == "iterations" && fs[4] == "runs";
    assert fs[5] == "surrogateModel" && fs[6] == "n_random_starts" && fs[7] == "acquisitionFunction";
  }

  /**
   * What `add_experiment` receives when the form is queued: `partitioning` is
   * whether that field is present, the settings are the first values of their
   * fields, typed where the source types them, there is one metric per value of
   * a `metric.` field, named after such a field, and every search space comes
   * from a `model.` field that names an optimised parameter.
   */
  lemma SubmitQueued(form: Form, existing: set<(string, string)>, loads: Loads)
    requires AllNonEmpty(form)
    requires Submit(form, existing, loads).Ok? && Submit(form, existing, loads).value.Queued?
    ensures var p := Submit(form, existing, loads).value.params;
      && (p.partitioning <==> HasKey(form, "partitioning"))
      && p.path == FirstValue(form, "path").value
      && p.dataset == FirstValue(form, "dataset").value
      && p.optimization.iterations == TypedOf(FirstValue(form, "iterations").value)
      && p.optimization.modelRuns == TypedOf(FirstValue(form, "runs").value)
      && p.optimization.surrogateModel == FirstValue(form, "surrogateModel").value
      && p.optimization.nRandomStarts == TypedOf(FirstValue(form, "n_random_starts").value)
      && p.optimization.acquisitionFunction == FirstValue(form, "acquisitionFunction").value
      && |p.optimizeMetrics| + |p.trackMetrics| == MetricValueCount(form)
      && (forall m :: m in p.optimizeMetrics ==> FromMetricKey(form, m.name))
      && (forall m :: m in p.trackMetrics ==> FromMetricKey(form, m.name))
      && (forall n :: HasKey(p.optimization.searchSpaces, n) ==>
            exists i :: 0 <= i < |form| && SpaceNameFrom(form[i].0, ParamsToOptimize(form), n))
  {
    assert BuildParams(form, loads) == Ok(Submit(form, existing, loads).value.params);
    BuildParamsSettings(form, loads);
    BuildParamsMetrics(form, loads);
    BuildParamsSpaces(form, loads);
  }

  /** The settings `add_experiment` receives: whether `partitioning` is present, and the first values of their fields, typed where the source types them. */
  lemma BuildParamsSettings(form: Form, loads: Loads)
    requires AllNonEmpty(form) && BuildParams(form, loads).Ok?
    ensures var p := BuildParams(form, loads).value;
      && (p.partitioning <==> HasKey(form, "partitioning"))
      && p.path == FirstValue(form, "path").value
      && p.dataset == FirstValue(form, "dataset").value
      && p.optimization.iterations == TypedOf(FirstValue(form, "iterations").value)
      && p.optimization.modelRuns == TypedOf(FirstValue(form, "runs").value)
      && p.optimization.surrogateModel == FirstValue(form, "surrogateModel").value
      && p.optimization.nRandomStarts == TypedOf(FirstValue(form, "n_random_starts").value)
      && p.optimization.acquisitionFunction == FirstValue(form, "acquisitionFunction").value
  {
    InitialShape(form);
    InitialSettings(form);
    ApplyKeysSettings(Initial(form).value, form, ParamsToOptimize(form), loads);
  }

  /** The metrics `add_experiment` receives: one per value of a `metric.` field, each named after such a field. */
  lemma BuildParamsMetrics(form: Form, loads: Loads)
    requires AllNonEmpty(form) && BuildParams(form, loads).Ok?
    ensures var p := BuildParams(form, loads).value;
      && |p.optimizeMetrics| + |p.trackMetrics| == MetricValueCount(form)
      && (forall m :: m in p.optimizeMetrics ==> FromMetricKey(form, m.name))
      && (forall m :: m in p.trackMetrics ==> FromMetricKey(form, m.name))
  {
    var built := BuildParams(form, loads).value;
    InitialShape(form);
    ApplyKeysMetrics(Initial(form).value, form, ParamsToOptimize(form), loads);
    forall m | m in built.optimizeMetrics ensures FromMetricKey(form, m.name) {
      var i :| 0 <= i < |built.optimizeMetrics| && built.optimizeMetrics[i] == m;
    }
    forall m | m in built.trackMetrics ensures FromMetricKey(form, m.name) {
      var i :| 0 <= i < |built.trackMetrics| && built.trackMetrics[i] == m;
    }
  }

  /** Every search space `add_experiment` receives is named by a `model.` field that names an optimised parameter. */
  lemma BuildParamsSpaces(form: Form, loads: Loads)
    requires AllNonEmpty(form) && BuildParams(form, loads).Ok?
    ensures var p := BuildParams(form, loads).value;
      forall n :: HasKey(p.optimization.searchSpaces, n) ==>
        exists i :: 0 <= i < |form| && SpaceNameFrom(form[i].0, ParamsToOptimize(form), n)
  {
    var initial := Initial(form).value;
    var spaces := BuildParams(form, loads).value.optimization.searchSpaces;
    InitialShape(form);
    ApplyKeysSpaces(initial, form, ParamsToOptimize(form), loads);
    forall n | HasKey(spaces, n) ensures exists i :: 0 <= i < |form| && SpaceNameFrom(form[i].0, ParamsToOptimize(form), n) {
      assert !HasKey(initial.optimization.searchSpaces, n);
    }
  }

  /** Without any `_check` field there is no parameter to optimise. */
  lemma {:induction false} NoCheckNothingToOptimize(form: Form)
    requires forall i :: 0 <= i < |form| ==> !Contains(form[i].0, "_check")
    ensures ParamsToOptimize(form) == []
    decreases |form|
  {
    if form != [] {
      var init := form[..|form| - 1];
      assert forall i :: 0 <= i < |init| ==> init[i] == form[i];
      NoCheckNothingToOptimize(init);
    }
  }

  /** Without any `_check` field the search spaces stay empty. */
  lemma NoCheckNoSearchSpaces(form: Form, loads: Loads)
    requires AllNonEmpty(form) && BuildParams(form, loads).Ok?
    requires forall i :: 0 <= i < |form| ==> !Contains(form[i].0, "_check")
    ensures BuildParams(form, loads).value.optimization.searchSpaces == []
  {
    NoCheckNothingToOptimize(form);
    InitialShape(form);
    ApplyKeysSpaces(Initial(form).value, form, [], loads);
    var spaces := BuildParams(form, loads).value.optimization.searchSpaces;
    if spaces != [] {
      assert HasKey(spaces, spaces[0].0);
    }
  }
}
