/**
 * The request handlers of the dashboard server that hold logic of their own:
 * `startExperiment`, which turns the submitted form into the parameters of a
 * new experiment, and the guards of `startExp` and `deleteExp`.
 */
module Server {
  import opened Wrappers
  import opened PyStr
  import opened PyDict
  import opened Typing
  import opened FormConfig
  import opened FormFacts

  /** The first loop of `startExperiment`: the names of the parameters to optimise. */
  method CollectParamsToOptimize(form: Form) returns (toOptimize: seq<string>)
    ensures toOptimize == ParamsToOptimize(form)
  {
    toOptimize := [];
    for i := 0 to |form|
      invariant toOptimize == ParamsToOptimize(form[..i])
    {
      var key := form[i].0;
      assert form[..i + 1][..i] == form[..i];
      if Contains(key, "_check") {
        toOptimize := toOptimize + [RemoveAll(key, "_check")];
      }
    }
    assert form[..|form|] == form;
  }

  /** The handling of one field whose name contains `model.`. */
  method ApplyModelKey(p: ExpParams, key: string, values: seq<string>, toOptimize: seq<string>)
    returns (r: Result<ExpParams, FormError>)
    requires |values| > 0
    ensures r == ModelKeyStep(p, key, values, toOptimize)
  {
    if Matches(key, toOptimize) {
      if Contains(key, "_xminx") || Contains(key, "_xmaxx") {
        var isLow := Contains(key, "_xminx");
        var name := if isLow then RemoveAll(RemoveAll(key, "_xminx"), "model.")
                    else RemoveAll(RemoveAll(key, "_xmaxx"), "model.");
        var spaces := p.optimization.searchSpaces;
        if !HasKey(spaces, name) {
          spaces := Put(spaces, name, Bounds([]));
        }
        match Get(spaces, name).value {
          case Choices(_) =>
            return Err(NotADict(name));
          case Bounds(b) =>
            spaces := Put(spaces, name, Bounds(Put(b, if isLow then "low" else "high", TypedOf(values[0]))));
        }
        r := Ok(WithSpaces(p, spaces));
      } else if !Contains(key, "_check") {
        r := Ok(WithSpaces(p, Put(p.optimization.searchSpaces, RemoveAll(key, "model."), Choices(values))));
      } else {
        r := Ok(p);
      }
    } else if Contains(key, "name") {
      r := Ok(p.(model := Put(p.model, RemoveAll(key, "model."), Text(values[0]))));
    } else {
      var model := p.model;
      if !HasKey(model, "parameters") {
        model := Put(model, "parameters", Params([]));
      }
      match Get(model, "parameters").value {
        case Text(_) =>
          return Err(NotADict("parameters"));
        case Params(ps) =>
          model := Put(model, "parameters", Params(Put(ps, RemoveAll(key, "model."), TypedOf(values[0]))));
      }
      r := Ok(p.(model := model));
    }
  }

  /**
   * The loop over the items of one decoded metric value: every item but
   * `metric` and `type` becomes a parameter; `"type": "track"` clears the flag.
   */
  method ReadItems(parameters: Dict<Typed>, fields: Fields, optimize: bool)
    returns (updated: Dict<Typed>, stillOptimize: bool)
    ensures updated == FieldsParameters(parameters, fields)
    ensures stillOptimize <==> optimize && !HasTrack(fields)
  {
    updated, stillOptimize := parameters, optimize;
    for f := 0 to |fields|
      invariant updated == FieldsParameters(parameters, fields[..f])
      invariant stillOptimize <==> optimize && !HasTrack(fields[..f])
    {
      assert fields[..f + 1][..f] == fields[..f];
      var (name, content) := fields[f];
      if name != "metric" && name != "type" {
        updated := Put(updated, name, TypedOf(content));
      }
      if name == "type" && content == "track" {
        stillOptimize := false;
      }
    }
    assert fields[..|fields|] == fields;
  }

  /**
   * The loop over the values of one `metric.` field: the metric, and how many
   * values are appended to `optimize_metrics` and to `track_metrics`.
   */
  method CollectMetric(key: string, values: seq<string>, loads: Loads)
    returns (r: Result<(Metric, nat, nat), FormError>)
    ensures r == MetricOf(key, values, loads)
  {
    var optimize := true;
    var parameters: Dict<Typed> := [];
    var toOptimize, toTrack := 0, 0;
    ghost var decoded: seq<Fields> := [];
    for v := 0 to |values|
      invariant DecodeAll(key, values[..v], loads) == Ok(decoded)
      invariant parameters == CollectParameters(decoded)
      invariant toOptimize == OptimizeCount(decoded) && toTrack == v - toOptimize
      invariant optimize <==> toOptimize == v
    {
      var items := loads(values[v]);
      if items.None? {
        DecodeAllFirstFailure(key, values, v, loads);
        return Err(BadMetricValue(key, values[v]));
      }
      var fields := items.value;
      DecodeAllSnoc(key, values, v, loads, decoded, fields);
      CollectParametersSnoc(decoded, fields);
      OptimizeCountSnoc(decoded, fields);
      parameters, optimize := ReadItems(parameters, fields, optimize);
      if optimize {
        toOptimize := toOptimize + 1;
      } else {
        toTrack := toTrack + 1;
      }
      decoded := decoded + [fields];
    }
    assert values[..|values|] == values;
    MetricOfDecoded(key, values, loads, decoded);
    r := Ok((Metric(RemoveAll(key, "metric."), parameters), toOptimize, toTrack));
  }

  /** One iteration of the loop over `data.items()`: the `model.` test, then the `metric.` test. */
  method ApplyField(p: ExpParams, key: string, values: seq<string>, toOptimize: seq<string>, loads: Loads)
    returns (r: Result<ExpParams, FormError>)
    requires |values| > 0
    ensures r == Step(p, key, values, toOptimize, loads)
  {
    var q := p;
    if Contains(key, "model.") {
      var next := ApplyModelKey(q, key, values, toOptimize);
      if next.Err? {
        return Err(next.error);
      }
      q := next.value;
    }
    if Contains(key, "metric.") {
      var collected := CollectMetric(key, values, loads);
      if collected.Err? {
        return Err(collected.error);
      }
      var (metric, toOptimizeCount, toTrackCount) := collected.value;
      q := q.(optimizeMetrics := q.optimizeMetrics + Repeat(metric, toOptimizeCount),
              trackMetrics := q.trackMetrics + Repeat(metric, toTrackCount));
    }
    r := Ok(q);
  }

  /** The loop over `data.items()` from `initial`; the first exception ends it. */
  method ApplyFields(initial: ExpParams, form: Form, toOptimize: seq<string>, loads: Loads)
    returns (r: Result<ExpParams, FormError>)
    requires AllNonEmpty(form)
    ensures r == ApplyKeys(initial, form, toOptimize, loads)
  {
    var p := initial;
    for i := 0 to |form|
      invariant ApplyKeys(initial, form[..i], toOptimize, loads) == Ok(p)
    {
      assert form[..i + 1][..i] == form[..i];
      var next := ApplyField(p, form[i].0, form[i].1, toOptimize, loads);
      if next.Err? {
        ApplyKeysErrPersists(initial, form, i + 1, toOptimize, loads);
        return Err(next.error);
      }
      p := next.value;
    }
    assert form[..|form|] == form;
    r := Ok(p);
  }

  /** Builds `expParams`: the initial settings, the parameters to optimise, then the loop over `data.items()`. */
  method BuildExpParams(form: Form, loads: Loads) returns (r: Result<ExpParams, FormError>)
    requires AllNonEmpty(form)
    ensures r == BuildParams(form, loads)
  {
    var initial :- Initial(form);
    var toOptimize := CollectParamsToOptimize(form);
    r := ApplyFields(initial, form, toOptimize, loads);
  }

  /**
   * `startExperiment`: reads the batch and experiment ids, stops if the queue
   * manager already has that experiment, else builds `expParams` and queues it.
   * `existing` holds the pairs for which `getExperiment` returns a record.
   */
  method StartExperiment(form: Form, existing: set<(string, string)>, loads: Loads)
    returns (r: Result<Reply, FormError>)
    requires AllNonEmpty(form)
    ensures r == Submit(form, existing, loads)
  {
    var batch :- FirstValue(form, "batchId");
    var id :- FirstValue(form, "expId");
    if (batch, id) in existing {
      return Ok(AlreadyExists(batch, id));
    }
    var p :- BuildExpParams(form, loads);
    r := Ok(Queued(batch, id, p));
  }

  /** The queue manager commands the control routes issue. */
  datatype Command<Id> = Next | Pause | DeleteFromOrder(target: Id)

  /** `startExp`: the next experiment is started only when nothing is running. */
  function StartExp<Id(==)>(running: Option<Id>): (commands: seq<Command<Id>>)
    ensures Next in commands <==> running.None?
    ensures forall i :: 0 <= i < |commands| ==> commands[i] == Next && i == 0
  {
    if running == None then [Next] else []
  }

  /**
   * `deleteExp`: the target is removed from the order exactly once, as the
   * last command, and paused first exactly when it is the running experiment.
   */
  function DeleteExp<Id(==)>(running: Option<Id>, target: Id): (commands: seq<Command<Id>>)
    ensures |commands| == if running == Some(target) then 2 else 1
    ensures commands[|commands| - 1] == DeleteFromOrder(target)
    ensures forall i :: 0 <= i < |commands| - 1 ==> commands[i] == Pause
    ensures forall i :: 0 <= i < |commands| && commands[i].DeleteFromOrder? ==> i == |commands| - 1
    ensures Pause in commands <==> running == Some(target)
    ensures Next !in commands
  {
    if running != None && running == Some(target) then [Pause, DeleteFromOrder(target)]
    else [DeleteFromOrder(target)]
  }
}
