/**
 * The translation of a submitted experiment form into the experiment
 * parameters handed to the queue manager, stated as functions. The method
 * `Server.StartExperiment` is proved to compute exactly `Submit`.
 */
module FormConfig {
  import opened Wrappers
  import opened PyStr
  import opened PyDict
  import opened Typing

  /** `request.form.to_dict(flat=False)`: every field name with all its values, in form order. */
  type Form = Dict<seq<string>>

  /** The items of the JSON object one metric value decodes to. */
  type Fields = seq<(string, string)>

  /** `json.loads` followed by `.items()`: `None` where it raises or gives no object. */
  type Loads = string -> Option<Fields>

  /** Every field of a parsed form carries at least one value. */
  predicate AllNonEmpty(form: Form) {
    forall i :: 0 <= i < |form| ==> |form[i].1| > 0
  }

  /** One entry of `search_spaces`: a `{"low", "high"}` dict or the list of submitted choices. */
  datatype SpaceEntry = Bounds(bounds: Dict<Typed>) | Choices(choices: seq<string>)

  /** A value of the `model` dict: a string, or the `parameters` dict. */
  datatype ModelValue = Text(text: string) | Params(params: Dict<Typed>)

  datatype Metric = Metric(name: string, parameters: Dict<Typed>)

  datatype Optimization = Optimization(
    iterations: Typed,
    modelRuns: Typed,
    surrogateModel: string,
    nRandomStarts: Typed,
    acquisitionFunction: string,
    searchSpaces: Dict<SpaceEntry>)

  /** `expParams`. */
  datatype ExpParams = ExpParams(
    partitioning: bool,
    path: string,
    dataset: string,
    model: Dict<ModelValue>,
    optimization: Optimization,
    optimizeMetrics: seq<Metric>,
    trackMetrics: seq<Metric>)

  /** The exceptions that abort the request before anything is queued. */
  datatype FormError =
    | MissingField(field: string)                 // KeyError on data[field]
    | NotADict(entry: string)                     // TypeError: item assignment into a list or a string
    | BadMetricValue(key: string, value: string)  // json.loads raised, or gave something without .items()

  /** What the request leads to: no call to the queue manager, or one `add_experiment` call. */
  datatype Reply =
    | AlreadyExists(batch: string, id: string)
    | Queued(batch: string, id: string, params: ExpParams)

  const RequiredFields: seq<string> :=
    ["path", "dataset", "model", "iterations", "runs", "surrogateModel", "n_random_starts", "acquisitionFunction"]

  /** `data[field][0]`. */
  function FirstValue(form: Form, field: string): (r: Result<string, FormError>)
    requires AllNonEmpty(form)
    ensures r.Err? <==> !HasKey(form, field)
    ensures r.Err? ==> r.error == MissingField(field)
    ensures r.Ok? ==> exists i :: 0 <= i < |form| && form[i].0 == field && r.value == form[i].1[0]
  {
    match Get(form, field)
    case None => Err(MissingField(field))
    case Some(values) => Ok(values[0])
  }

  /**
   * `data[f][0]` for each of `fields`, looked up in order: the first absent
   * field raises KeyError, so the error names the first field the form lacks.
   */
  function FirstValues(form: Form, fields: seq<string>): (r: Result<seq<string>, FormError>)
    requires AllNonEmpty(form)
    ensures r.Ok? <==> forall i :: 0 <= i < |fields| ==> HasKey(form, fields[i])
    ensures r.Ok? ==> |r.value| == |fields| && forall i :: 0 <= i < |fields| ==> FirstValue(form, fields[i]) == Ok(r.value[i])
    ensures r.Err? ==> exists i :: 0 <= i < |fields| && r.error == MissingField(fields[i]) && !HasKey(form, fields[i]) &&
                                   forall j :: 0 <= j < i ==> HasKey(form, fields[j])
    decreases |fields|
  {
    if fields == [] then Ok([])
    else
      var first :- FirstValue(form, fields[0]);
      var rest :- FirstValues(form, fields[1..]);
      assert forall i :: 0 < i < |fields| ==> fields[i] == fields[1..][i - 1];
      Ok([first] + rest)
  }

  /** `expParams` as built before the loops over the form. */
  function Initial(form: Form): Result<ExpParams, FormError>
    requires AllNonEmpty(form)
  {
    var v :- FirstValues(form, RequiredFields);
    Ok(ExpParams(
         HasKey(form, "partitioning"), v[0], v[1], [("name", Text(v[2]))],
         Optimization(TypedOf(v[3]), TypedOf(v[4]), v[5], TypedOf(v[6]), v[7], []),
         [], []))
  }

  /**
   * The initial `expParams` is built exactly when every required field is present,
   * and otherwise fails with the KeyError of the first one missing. `partitioning` is
   * whether that field is present, `model` holds only the name, and the search spaces
   * and both metric lists start empty.
   */
  lemma InitialShape(form: Form)
    requires AllNonEmpty(form)
    ensures Initial(form).Ok? <==> forall i :: 0 <= i < |RequiredFields| ==> HasKey(form, RequiredFields[i])
    ensures Initial(form).Err? ==> Initial(form) == Err(FirstValues(form, RequiredFields).error)
    ensures Initial(form).Ok? ==>
      var p := Initial(form).value;
      && p.partitioning == HasKey(form, "partitioning")
      && p.model == [("name", Text(FirstValue(form, "model").value))]
      && p.optimization.searchSpaces == [] && p.optimizeMetrics == [] && p.trackMetrics == []
  {
    if Initial(form).Ok? {
      assert RequiredFields[2] == "model";
    }
  }

  /** The parameters to optimise: every field name containing `_check`, with `_check` removed, in form order. */
  function ParamsToOptimize(form: Form): seq<string>
    decreases |form|
  {
    if form == [] then []
    else
      var previous := ParamsToOptimize(form[..|form| - 1]);
      var key := form[|form| - 1].0;
      if Contains(key, "_check") then previous + [RemoveAll(key, "_check")] else previous
  }

  /** `any(par in key for par in toOptimize)`. */
  predicate Matches(key: string, toOptimize: seq<string>) {
    exists j :: 0 <= j < |toOptimize| && Contains(key, toOptimize[j])
  }

  /** `key.replace(suffix, '').replace("model.", '')`. */
  function BoundName(key: string, suffix: string): string
    requires |suffix| > 0
  {
    RemoveAll(RemoveAll(key, suffix), "model.")
  }

  /** The bounds held in a search-space entry; none when it is absent or a list. */
  function BoundsOf(entry: Option<SpaceEntry>): Dict<Typed> {
    if entry.Some? && entry.value.Bounds? then entry.value.bounds else []
  }

  /** The `parameters` dict of a model dict; empty when absent or not a dict. */
  function ParamsOf(model: Dict<ModelValue>): Dict<Typed> {
    var entry := Get(model, "parameters");
    if entry.Some? && entry.value.Params? then entry.value.params else []
  }

  /** The bound `bound` of `spaces[name]` is `v`; its other bound and every other entry are as in `before`. */
  ghost predicate BoundSet(before: Dict<SpaceEntry>, after: Dict<SpaceEntry>, name: string, bound: string, v: Typed) {
    && Get(after, name).Some? && Get(after, name).value.Bounds?
    && Get(Get(after, name).value.bounds, bound) == Some(v)
    && (forall b :: b != bound ==> Get(BoundsOf(Get(after, name)), b) == Get(BoundsOf(Get(before, name)), b))
    && (forall n :: n != name ==> Get(after, n) == Get(before, n))
  }

  /** `spaces[name] = {}` if absent, then `spaces[name][bound] = v`; a list there cannot take a string index. */
  function SetBound(spaces: Dict<SpaceEntry>, name: string, bound: string, v: Typed): (r: Result<Dict<SpaceEntry>, FormError>)
    ensures r.Err? <==> HasKey(spaces, name) && Get(spaces, name).value.Choices?
    ensures r.Err? ==> r.error == NotADict(name)
    ensures r.Ok? ==> BoundSet(spaces, r.value, name, bound, v)
  {
    var created := if HasKey(spaces, name) then spaces else Put(spaces, name, Bounds([]));
    match Get(created, name).value
    case Choices(_) => Err(NotADict(name))
    case Bounds(b) => Ok(Put(created, name, Bounds(Put(b, bound, v))))
  }

  /** `model["parameters"][name]` is `v`; every other parameter and every other model entry are as in `before`. */
  ghost predicate ParameterSet(before: Dict<ModelValue>, after: Dict<ModelValue>, name: string, v: Typed) {
    && Get(after, "parameters").Some? && Get(after, "parameters").value.Params?
    && Get(Get(after, "parameters").value.params, name) == Some(v)
    && (forall n :: n != name ==> Get(ParamsOf(after), n) == Get(ParamsOf(before), n))
    && (forall k :: k != "parameters" ==> Get(after, k) == Get(before, k))
  }

  /** `model["parameters"] = {}` if absent, then `model["parameters"][name] = v`. */
  function SetModelParameter(model: Dict<ModelValue>, name: string, v: Typed): (r: Result<Dict<ModelValue>, FormError>)
    ensures r.Err? <==> HasKey(model, "parameters") && Get(model, "parameters").value.Text?
    ensures r.Err? ==> r.error == NotADict("parameters")
    ensures r.Ok? ==> ParameterSet(model, r.value, name, v)
  {
    var created := if HasKey(model, "parameters") then model else Put(model, "parameters", Params([]));
    match Get(created, "parameters").value
    case Text(_) => Err(NotADict("parameters"))
    case Params(ps) => Ok(Put(created, "parameters", Params(Put(ps, name, v))))
  }

  function WithSpaces(p: ExpParams, spaces: Dict<SpaceEntry>): ExpParams {
    p.(optimization := p.optimization.(searchSpaces := spaces))
  }

  /** Everything but the `model` dict and the search spaces is as in `p`. */
  predicate SameOutsideModelAndSpaces(p: ExpParams, q: ExpParams) {
    && q.partitioning == p.partitioning && q.path == p.path && q.dataset == p.dataset
    && q.optimization.(searchSpaces := []) == p.optimization.(searchSpaces := [])
    && q.optimizeMetrics == p.optimizeMetrics && q.trackMetrics == p.trackMetrics
  }

  /**
   * What a field whose name contains `model.` does to `expParams`: it changes
   * the `model` dict or the search spaces, never both, and nothing else.
   */
  function ModelKeyStep(p: ExpParams, key: string, values: seq<string>, toOptimize: seq<string>): (r: Result<ExpParams, FormError>)
    requires |values| > 0
    ensures r.Ok? ==> SameOutsideModelAndSpaces(p, r.value)
    ensures r.Ok? ==> r.value.model == p.model || r.value.optimization == p.optimization
  {
    var spaces := p.optimization.searchSpaces;
    if Matches(key, toOptimize) then
      if Contains(key, "_xminx") then
        var updated :- SetBound(spaces, BoundName(key, "_xminx"), "low", TypedOf(values[0]));
        Ok(WithSpaces(p, updated))
      else if Contains(key, "_xmaxx") then
        var updated :- SetBound(spaces, BoundName(key, "_xmaxx"), "high", TypedOf(values[0]));
        Ok(WithSpaces(p, updated))
      else if !Contains(key, "_check") then
        Ok(WithSpaces(p, Put(spaces, RemoveAll(key, "model."), Choices(values))))
      else
        Ok(p)
    else if Contains(key, "name") then
      Ok(p.(model := Put(p.model, RemoveAll(key, "model."), Text(values[0]))))
    else
      var model :- SetModelParameter(p.model, RemoveAll(key, "model."), TypedOf(values[0]));
      Ok(p.(model := model))
  }

  /**
   * What a field whose name contains `model.` does to `expParams`: a field naming an
   * optimised parameter only touches the search spaces, `_xminx` winning over `_xmaxx`;
   * any other field only touches the `model` dict.
   */
  lemma ModelKeyStepFacts(p: ExpParams, key: string, values: seq<string>, toOptimize: seq<string>, r: Result<ExpParams, FormError>)
    requires |values| > 0 && r == ModelKeyStep(p, key, values, toOptimize)
    // a key naming an optimised parameter only touches the search spaces
    ensures r.Ok? && Matches(key, toOptimize) ==> r.value.model == p.model
    ensures r.Ok? && Matches(key, toOptimize) && Contains(key, "_xminx") ==>
              BoundSet(p.optimization.searchSpaces, r.value.optimization.searchSpaces,
                       BoundName(key, "_xminx"), "low", TypedOf(values[0]))
    ensures r.Ok? && Matches(key, toOptimize) && !Contains(key, "_xminx") && Contains(key, "_xmaxx") ==>
              BoundSet(p.optimization.searchSpaces, r.value.optimization.searchSpaces,
                       BoundName(key, "_xmaxx"), "high", TypedOf(values[0]))
    ensures Matches(key, toOptimize) && !Contains(key, "_xminx") && !Contains(key, "_xmaxx") && !Contains(key, "_check") ==>
              r.Ok? && Get(r.value.optimization.searchSpaces, RemoveAll(key, "model.")) == Some(Choices(values)) &&
              forall n :: n != RemoveAll(key, "model.") ==>
                Get(r.value.optimization.searchSpaces, n) == Get(p.optimization.searchSpaces, n)
    ensures Matches(key, toOptimize) && !Contains(key, "_xminx") && !Contains(key, "_xmaxx") && Contains(key, "_check") ==>
              r == Ok(p)
    // any other key never touches the search spaces
    ensures r.Ok? && !Matches(key, toOptimize) ==> r.value.optimization == p.optimization
    ensures !Matches(key, toOptimize) && Contains(key, "name") ==>
              r.Ok? && Get(r.value.model, RemoveAll(key, "model.")) == Some(Text(values[0])) &&
              forall k :: k != RemoveAll(key, "model.") ==> Get(r.value.model, k) == Get(p.model, k)
    ensures r.Ok? && !Matches(key, toOptimize) && !Contains(key, "name") ==>
              ParameterSet(p.model, r.value.model, RemoveAll(key, "model."), TypedOf(values[0]))
    ensures r.Err? <==>
              if Matches(key, toOptimize) then
                var name := if Contains(key, "_xminx") then BoundName(key, "_xminx") else BoundName(key, "_xmaxx");
                (Contains(key, "_xminx") || Contains(key, "_xmaxx")) &&
                HasKey(p.optimization.searchSpaces, name) && Get(p.optimization.searchSpaces, name).value.Choices?
              else
                !Contains(key, "name") && HasKey(p.model, "parameters") && Get(p.model, "parameters").value.Text?
  {
  }

  /** Decodes every value of a metric field in order; the first value that does not decode aborts. */
  function DecodeAll(key: string, values: seq<string>, loads: Loads): (r: Result<seq<Fields>, FormError>)
    ensures r.Ok? <==> forall i :: 0 <= i < |values| ==> loads(values[i]).Some?
    ensures r.Ok? ==> |r.value| == |values| && forall i :: 0 <= i < |values| ==> loads(values[i]) == Some(r.value[i])
    ensures r.Err? ==> exists i :: 0 <= i < |values| && loads(values[i]).None? &&
                                   r.error == BadMetricValue(key, values[i]) &&
                                   forall j :: 0 <= j < i ==> loads(values[j]).Some?
    decreases |values|
  {
    if values == [] then Ok([])
    else
      var init := values[..|values| - 1];
      var last := values[|values| - 1];
      assert forall i :: 0 <= i < |init| ==> init[i] == values[i];
      var decoded :- DecodeAll(key, init, loads);
      match loads(last)
      case None => Err(BadMetricValue(key, last))
      case Some(fields) => Ok(decoded + [fields])
  }

  /** Some item of the value is `"type": "track"`. */
  predicate HasTrack(fields: Fields): (b: bool)
    ensures b <==> exists l :: 0 <= l < |fields| && fields[l] == ("type", "track")
    decreases |fields|
  {
    |fields| > 0 && (HasTrack(fields[..|fields| - 1]) || fields[|fields| - 1] == ("type", "track"))
  }

  /**
   * How many of a metric field's values go to `optimize_metrics`: the flag
   * starts true and turns false for good at the first value holding `"type": "track"`.
   */
  function OptimizeCount(decoded: seq<Fields>): (k: nat)
    ensures k <= |decoded|
    ensures forall i :: 0 <= i < k ==> !HasTrack(decoded[i])
    ensures k < |decoded| ==> HasTrack(decoded[k])
    decreases |decoded|
  {
    if decoded == [] then 0
    else
      var k := OptimizeCount(decoded[..|decoded| - 1]);
      if k == |decoded| - 1 && !HasTrack(decoded[|decoded| - 1]) then |decoded| else k
  }

  predicate IsReserved(name: string) {
    name == "metric" || name == "type"
  }

  /** The content of the last item of `fields` named `f`, if any. */
  function LastContent(fields: Fields, f: string): Option<string>
    decreases |fields|
  {
    if fields == [] then None
    else if fields[|fields| - 1].0 == f then Some(fields[|fields| - 1].1)
    else LastContent(fields[..|fields| - 1], f)
  }

  /** `LastContent` finds nothing exactly when no item has the name, and otherwise the content of the last one that does. */
  lemma {:induction false} LastContentFacts(fields: Fields, f: string)
    ensures LastContent(fields, f).None? <==> forall l :: 0 <= l < |fields| ==> fields[l].0 != f
    ensures LastContent(fields, f).Some? ==>
              exists l :: 0 <= l < |fields| && fields[l] == (f, LastContent(fields, f).value) &&
                          forall m :: l < m < |fields| ==> fields[m].0 != f
    decreases |fields|
  {
    if fields != [] {
      var n := |fields| - 1;
      var init := fields[..n];
      assert forall l :: 0 <= l < n ==> init[l] == fields[l];
      if fields[n].0 == f {
        assert fields[n] == (f, LastContent(fields, f).value);
      } else {
        LastContentFacts(init, f);
        if LastContent(init, f).Some? {
          var l :| 0 <= l < n && init[l] == (f, LastContent(init, f).value) &&
                   forall m :: l < m < n ==> init[m].0 != f;
          assert fields[l] == (f, LastContent(fields, f).value);
        }
      }
    }
  }

  /**
   * `metric["parameters"]` after the items of one value: every item except
   * `metric` and `type` stores `typed` of its content, and a later item
   * overwrites an earlier one of the same name.
   */
  function FieldsParameters(ps: Dict<Typed>, fields: Fields): (r: Dict<Typed>)
    ensures forall f :: Get(r, f) == (if IsReserved(f) || LastContent(fields, f).None? then Get(ps, f)
                                      else Some(TypedOf(LastContent(fields, f).value)))
    decreases |fields|
  {
    if fields == [] then ps
    else
      var q := FieldsParameters(ps, fields[..|fields| - 1]);
      var (name, content) := fields[|fields| - 1];
      if !IsReserved(name) then Put(q, name, TypedOf(content)) else q
  }

  /** An item name becomes a parameter exactly when some item carries it and it is not reserved. */
  lemma FieldsParametersKeys(ps: Dict<Typed>, fields: Fields, f: string)
    ensures HasKey(FieldsParameters(ps, fields), f) <==>
              HasKey(ps, f) || exists l :: 0 <= l < |fields| && fields[l].0 == f && !IsReserved(f)
  {
    LastContentFacts(fields, f);
    if LastContent(fields, f).Some? {
      var l :| 0 <= l < |fields| && fields[l] == (f, LastContent(fields, f).value) &&
               forall m :: l < m < |fields| ==> fields[m].0 != f;
      assert fields[l].0 == f;
    }
  }

  /** The content of the last item named `f` over all the decoded values of a metric. */
  function LastContentIn(decoded: seq<Fields>, f: string): Option<string>
    decreases |decoded|
  {
    if decoded == [] then None
    else if LastContent(decoded[|decoded| - 1], f).Some? then LastContent(decoded[|decoded| - 1], f)
    else LastContentIn(decoded[..|decoded| - 1], f)
  }

  /** `LastContentIn` finds nothing exactly when no value has an item with the name. */
  lemma {:induction false} LastContentInNone(decoded: seq<Fields>, f: string)
    ensures LastContentIn(decoded, f).None? <==> forall j :: 0 <= j < |decoded| ==> LastContent(decoded[j], f).None?
    decreases |decoded|
  {
    if decoded != [] {
      var n := |decoded| - 1;
      var init := decoded[..n];
      assert forall j :: 0 <= j < n ==> init[j] == decoded[j];
      LastContentInNone(init, f);
    }
  }

  /** Otherwise it finds what the last value that has such an item finds. */
  lemma {:induction false} LastContentInSome(decoded: seq<Fields>, f: string)
    requires LastContentIn(decoded, f).Some?
    ensures exists j :: 0 <= j < |decoded| && LastContent(decoded[j], f) == LastContentIn(decoded, f) &&
                        forall m :: j < m < |decoded| ==> LastContent(decoded[m], f).None?
    decreases |decoded|
  {
    var n := |decoded| - 1;
    if LastContent(decoded[n], f).Some? {
      assert LastContent(decoded[n], f) == LastContentIn(decoded, f);
    } else {
      var init := decoded[..n];
      assert LastContentIn(decoded, f) == LastContentIn(init, f);
      LastContentInSome(init, f);
      var j :| 0 <= j < n && LastContent(init[j], f) == LastContentIn(init, f) &&
               forall m :: j < m < n ==> LastContent(init[m], f).None?;
      assert forall m :: j < m < n ==> init[m] == decoded[m];
      assert LastContent(decoded[j], f) == LastContentIn(decoded, f);
    }
  }

  /**
   * The parameters of a metric after all its values: the parameter `f` is
   * `typed` of the content of the last item named `f` in any value, and
   * `metric` and `type` are never parameters.
   */
  function CollectParameters(decoded: seq<Fields>): (r: Dict<Typed>)
    ensures forall f :: Get(r, f) == (if IsReserved(f) || LastContentIn(decoded, f).None? then None
                                      else Some(TypedOf(LastContentIn(decoded, f).value)))
    decreases |decoded|
  {
    if decoded == [] then []
    else FieldsParameters(CollectParameters(decoded[..|decoded| - 1]), decoded[|decoded| - 1])
  }

  /** A metric has a parameter exactly when some item of one of its values carries that name and it is not reserved. */
  lemma {:induction false} CollectParametersKeys(decoded: seq<Fields>, f: string)
    ensures HasKey(CollectParameters(decoded), f) <==>
              exists j, l :: 0 <= j < |decoded| && 0 <= l < |decoded[j]| && decoded[j][l].0 == f && !IsReserved(f)
    decreases |decoded|
  {
    if decoded != [] {
      var init := decoded[..|decoded| - 1];
      var last := decoded[|decoded| - 1];
      CollectParametersKeys(init, f);
      FieldsParametersKeys(CollectParameters(init), last, f);
      if j, l :| 0 <= j < |decoded| && 0 <= l < |decoded[j]| && decoded[j][l].0 == f && !IsReserved(f) {
        if j < |init| {
          assert init[j] == decoded[j];
        }
      }
      if HasKey(CollectParameters(decoded), f) {
        if HasKey(CollectParameters(init), f) {
          var j, l :| 0 <= j < |init| && 0 <= l < |init[j]| && init[j][l].0 == f && !IsReserved(f);
          assert decoded[j] == init[j];
        } else {
          var l :| 0 <= l < |last| && last[l].0 == f && !IsReserved(f);
          assert decoded[|decoded| - 1][l].0 == f;
        }
      }
    }
  }

  function Repeat<T>(x: T, n: nat): (r: seq<T>)
    ensures |r| == n && forall i :: 0 <= i < n ==> r[i] == x
  {
    seq(n, _ => x)
  }

  /** None of the values up to and including the i-th decodes to an object with `"type": "track"`. */
  predicate NoTrackUpTo(values: seq<string>, loads: Loads, i: int) {
    forall j :: 0 <= j <= i && j < |values| ==> loads(values[j]).None? || !HasTrack(loads(values[j]).value)
  }

  /**
   * The metric a `metric.` field produces and how many of its values go to
   * `optimize_metrics` and to `track_metrics`. The source appends one and the
   * same dict once per value and keeps filling it afterwards, so every copy
   * carries the parameters gathered from all of the field's values.
   */
  function MetricOf(key: string, values: seq<string>, loads: Loads): (r: Result<(Metric, nat, nat), FormError>)
    ensures r.Ok? <==> forall i :: 0 <= i < |values| ==> loads(values[i]).Some?
    ensures r.Ok? ==> r.value.1 + r.value.2 == |values| && r.value.0.name == RemoveAll(key, "metric.")
  {
    match DecodeAll(key, values, loads)
    case Err(e) => Err(e)
    case Ok(decoded) =>
      var k := OptimizeCount(decoded);
      Ok((Metric(RemoveAll(key, "metric."), CollectParameters(decoded)), k, |decoded| - k))
  }

  /**
   * The i-th value of a metric field goes to `optimize_metrics` exactly when no
   * value up to and including it holds `"type": "track"`; the metric's parameters
   * are the item names of all its values except `metric` and `type`, each holding
   * `typed` of the content of the last item with that name.
   */
  lemma MetricRouting(key: string, values: seq<string>, loads: Loads)
    requires MetricOf(key, values, loads).Ok?
    ensures var r := MetricOf(key, values, loads).value;
      forall i :: 0 <= i < |values| ==> (i < r.1 <==> NoTrackUpTo(values, loads, i))
    ensures var r := MetricOf(key, values, loads).value;
      forall f :: HasKey(r.0.parameters, f) <==>
        exists j, l :: 0 <= j < |values| && 0 <= l < |loads(values[j]).value| &&
                       loads(values[j]).value[l].0 == f && !IsReserved(f)
    ensures var r := MetricOf(key, values, loads).value;
      var decoded := DecodeAll(key, values, loads).value;
      forall f :: Get(r.0.parameters, f) == (if IsReserved(f) || LastContentIn(decoded, f).None? then None
                                             else Some(TypedOf(LastContentIn(decoded, f).value)))
  {
    var decoded := DecodeAll(key, values, loads).value;
    assert forall j :: 0 <= j < |values| ==> loads(values[j]).value == decoded[j];
    forall f {
      CollectParametersKeys(decoded, f);
    }
  }

  /** What a field whose name contains `metric.` does to `expParams`: it only appends to the metric lists. */
  function MetricKeyStep(p: ExpParams, key: string, values: seq<string>, loads: Loads): (r: Result<ExpParams, FormError>)
    ensures r.Ok? ==> p.optimizeMetrics <= r.value.optimizeMetrics && p.trackMetrics <= r.value.trackMetrics
    ensures r.Ok? ==> r.value.(optimizeMetrics := [], trackMetrics := []) == p.(optimizeMetrics := [], trackMetrics := [])
  {
    var collected :- MetricOf(key, values, loads);
    var (metric, toOptimize, toTrack) := collected;
    Ok(p.(optimizeMetrics := p.optimizeMetrics + Repeat(metric, toOptimize),
          trackMetrics := p.trackMetrics + Repeat(metric, toTrack)))
  }

  /**
   * A `metric.` field succeeds exactly when all its values decode, and then only
   * appends to the metric lists: one entry per value, each named after the field.
   */
  lemma MetricKeyStepFacts(p: ExpParams, key: string, values: seq<string>, loads: Loads, r: Result<ExpParams, FormError>)
    requires r == MetricKeyStep(p, key, values, loads)
    ensures r.Ok? <==> forall i :: 0 <= i < |values| ==> loads(values[i]).Some?
    ensures r.Ok? ==> |r.value.optimizeMetrics| + |r.value.trackMetrics| == |p.optimizeMetrics| + |p.trackMetrics| + |values|
    ensures r.Ok? ==> forall i :: |p.optimizeMetrics| <= i < |r.value.optimizeMetrics| ==>
              r.value.optimizeMetrics[i].name == RemoveAll(key, "metric.")
    ensures r.Ok? ==> forall i :: |p.trackMetrics| <= i < |r.value.trackMetrics| ==>
              r.value.trackMetrics[i].name == RemoveAll(key, "metric.")
  {
  }

  /**
   * One iteration of the loop over `data.items()`: the `model.` test, then the
   * `metric.` test. The metric lists only grow.
   */
  function Step(p: ExpParams, key: string, values: seq<string>, toOptimize: seq<string>, loads: Loads): (r: Result<ExpParams, FormError>)
    requires |values| > 0
    ensures r.Ok? ==> p.optimizeMetrics <= r.value.optimizeMetrics && p.trackMetrics <= r.value.trackMetrics
  {
    var q :- if Contains(key, "model.") then ModelKeyStep(p, key, values, toOptimize) else Ok(p);
    if Contains(key, "metric.") then MetricKeyStep(q, key, values, loads) else Ok(q)
  }

  /**
   * The loop over `data.items()` run on `entries` from `p`; the first exception
   * ends it. The metric lists only grow.
   */
  function ApplyKeys(p: ExpParams, entries: Form, toOptimize: seq<string>, loads: Loads): (r: Result<ExpParams, FormError>)
    requires AllNonEmpty(entries)
    ensures r.Ok? ==> p.optimizeMetrics <= r.value.optimizeMetrics && p.trackMetrics <= r.value.trackMetrics
    decreases |entries|
  {
    if entries == [] then Ok(p)
    else
      var init := entries[..|entries| - 1];
      assert forall i :: 0 <= i < |init| ==> init[i] == entries[i];
      var q :- ApplyKeys(p, init, toOptimize, loads);
      Step(q, entries[|entries| - 1].0, entries[|entries| - 1].1, toOptimize, loads)
  }

  /** `expParams` when the loops finish. */
  function BuildParams(form: Form, loads: Loads): Result<ExpParams, FormError>
    requires AllNonEmpty(form)
  {
    var p :- Initial(form);
    ApplyKeys(p, form, ParamsToOptimize(form), loads)
  }

  /**
   * The whole of `startExperiment`, given the experiments the queue manager
   * already knows: the ids are the first `batchId` and `expId` values, and an
   * experiment is queued only under ids the queue manager does not know.
   */
  function Submit(form: Form, existing: set<(string, string)>, loads: Loads): (r: Result<Reply, FormError>)
    requires AllNonEmpty(form)
    ensures r.Ok? ==> FirstValue(form, "batchId") == Ok(r.value.batch) && FirstValue(form, "expId") == Ok(r.value.id)
    ensures r.Ok? ==> (r.value.AlreadyExists? <==> (r.value.batch, r.value.id) in existing)
  {
    var batch :- FirstValue(form, "batchId");
    var id :- FirstValue(form, "expId");
    if (batch, id) in existing then Ok(AlreadyExists(batch, id))
    else
      var p :- BuildParams(form, loads);
      Ok(Queued(batch, id, p))
  }
}
