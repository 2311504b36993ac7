# OCTIS dashboard: experiment submission and queue controls

This project models part of the OCTIS dashboard server (`octis/dashboard/server.py`).

The main piece is `startExperiment`. It receives the "create experiment" form as an ordered dictionary from field names to lists of values. It turns the form into the `expParams` configuration and hands that to the queue manager, unless the queue manager already knows the batch and experiment ids. The translation works by substring tests on field names:

- A field containing `_check` marks a model parameter for optimisation.
- A `model.` field whose name contains an optimised parameter's name works on the search spaces.
  - With `_xminx` it sets that search space's lower bound; otherwise, with `_xmaxx`, its upper bound.
  - Without either, a field whose name contains `_check` does nothing. Any other such field sets the list of choices.
- Any other `model.` field works on the `model` dict.
  - If its name contains `name`, its first value is stored verbatim under the field name with `model.` removed.
  - Otherwise `typed` of its first value goes into `model["parameters"]` under that name.
- A `metric.` field becomes one metric entry per value, appended to `optimize_metrics` or `track_metrics`.

The first values of `iterations`, `runs` and `n_random_starts`, the search-space bounds, the model parameters and the metric parameters pass through `typed`. It tries `int()`, then `float()`, and otherwise keeps the string. Every other value is kept as submitted: the path, dataset, surrogate model and acquisition function, a `model.` field whose name contains `name`, and the list of choices of a search space.

The project also models the two control routes `startExp` and `deleteExp`. Each is a function from the experiment that is running to the commands sent to the queue manager.

Modules:

- `Wrappers`: `Option` and `Result`.
- `PyStr`: Python's substring test `pat in s` and `s.replace(pat, '')`.
- `PyDict`: an insertion-ordered Python `dict` with string keys, as a sequence of pairs.
- `Typing`: the strings CPython's `int()` and `float()` accept, and `typed`.
- `FormConfig`: the translation, written as functions.
  - The form is a `seq<(string, seq<string>)>`.
  - An exception becomes an `Err` that names its cause.
- `FormFacts`: properties of the whole translation.
- `Server`: `startExperiment`, written with the source's loops and proved equal to `FormConfig.Submit`; `startExp` and `deleteExp`.

## Model

| member | source | states |
|---|---|---|
| Typing.ParseInt | octis/dashboard/server.py:277 | `int(s)` for a string: optional surrounding whitespace (the ASCII whitespace of the C locale and the Unicode spaces), an optional sign, and ASCII digits with single underscores only between digits; it succeeds only on a string holding a digit |
| Typing.IsFloatLiteral | octis/dashboard/server.py:281 | `float(s)` for a string: the same whitespace and sign, then `inf`, `infinity` or `nan` in any case, or digits with an optional point and an optional exponent; every literal it accepts holds a digit or the letter n |
| Typing.IntIsFloat | octis/dashboard/server.py:276-282 | every string `int()` accepts is also accepted by `float()` |
| Typing.TypedOf | octis/dashboard/server.py:272-284 | `typed` gives an int exactly when `int()` accepts the string, with that value; it gives the string itself exactly when `float()` rejects it; otherwise it gives the float read from that very string |
| Typing.ParseIntShow | octis/dashboard/server.py:277 | `int(str(n)) == n` for every integer `n` |
| Typing.TypedShow | octis/dashboard/server.py:276-278 | typing the decimal form of an integer gives that integer |
| PyStr.ContainsIffOccurs | octis/dashboard/server.py:70 | `pat in s` holds exactly when `pat` occurs at some index of `s` |
| PyStr.RemoveAll | octis/dashboard/server.py:71 | `s.replace(pat, '')` scans left to right and drops each non-overlapping occurrence; the result never has a character `s` lacks, nor more copies of one |
| PyStr.RemoveAllShrinks | octis/dashboard/server.py:71 | when `pat` occurs in `s`, `s.replace(pat, '')` is at least `len(pat)` shorter |
| PyStr.RemoveAllUnchangedIff | octis/dashboard/server.py:71 | `s.replace(pat, '')` leaves `s` unchanged exactly when `pat` does not occur in it |
| PyDict.Get | octis/dashboard/server.py:78 | a lookup finds nothing exactly when no entry has the key; otherwise it returns the value of an entry with that key |
| PyDict.Put | octis/dashboard/server.py:79-80 | after `d[k] = v`, `k` maps to `v` and every other key keeps its value |
| PyDict.PutKeys | octis/dashboard/server.py:79 | after `d[k] = v` the keys are those of `d` plus `k` |
| PyDict.PutAppends | octis/dashboard/server.py:79 | assigning to an absent key appends the new entry at the end |
| PyDict.PutKeepsPositions | octis/dashboard/server.py:80 | assigning to a present key keeps every key in its position |
| FormConfig.FirstValue | octis/dashboard/server.py:46-61 | `data[field][0]` raises KeyError exactly when the field is absent, and otherwise returns the first value of that field |
| FormConfig.FirstValues | octis/dashboard/server.py:53-61 | looking the fields up in order succeeds exactly when all are present, giving each field's first value; otherwise the KeyError names the first field, in order, that the form lacks |
| FormConfig.InitialShape | octis/dashboard/server.py:51-65 | the initial `expParams` is built exactly when every required field is present, else fails with the KeyError of the first one missing; `partitioning` is whether that field is present; `model` holds only the name; search spaces and both metric lists start empty |
| FormFacts.InitialSettings | octis/dashboard/server.py:53-61 | path, dataset, surrogate model and acquisition function are first values taken verbatim; iterations, runs and random starts are the first values passed through `typed` |
| FormFacts.ParamsToOptimizeMembers | octis/dashboard/server.py:67-71 | a name is to be optimised exactly when it is some field name containing `_check` with every `_check` removed |
| Server.CollectParamsToOptimize | octis/dashboard/server.py:67-71 | the first loop collects exactly the parameters to optimise, in form order |
| FormConfig.SetBound | octis/dashboard/server.py:78-87 | creates the search space if absent and sets one bound, leaving the other bound and every other search space untouched; raises TypeError exactly when that search space already holds a list of choices |
| FormConfig.SetModelParameter | octis/dashboard/server.py:95-98 | creates `model["parameters"]` if absent and sets one parameter; every other parameter and every other model entry are untouched |
| FormConfig.ModelKeyStepFacts | octis/dashboard/server.py:74-98 | for a `model.` field: an optimised name with `_xminx` sets `low`, and `_xminx` wins over `_xmaxx`; with `_xmaxx` alone it sets `high`; with neither and no `_check` its whole value list replaces the search space; other fields never touch the search spaces and store the name verbatim or a typed parameter; the step fails exactly when the target entry has the wrong kind |
| FormConfig.ModelKeyStep | octis/dashboard/server.py:74-98 | a `model.` field changes the `model` dict or the search spaces, never both, and nothing else in `expParams` |
| Server.ApplyModelKey | octis/dashboard/server.py:74-98 | the in-place update of `expParams` for a `model.` field equals `ModelKeyStep` |
| FormConfig.DecodeAll | octis/dashboard/server.py:103-105 | every value of a metric field is decoded in order, and the first value that is not a JSON object is the one reported |
| FormFacts.DecodeAllFirstFailure | octis/dashboard/server.py:103-105 | when every earlier value decodes, the first value that does not decode is the one the error names |
| FormConfig.HasTrack | octis/dashboard/server.py:108 | a decoded value switches to tracking exactly when one of its items is `"type": "track"` |
| FormConfig.OptimizeCount | octis/dashboard/server.py:101-113 | the values before the first one holding `"type": "track"` go to `optimize_metrics`, and that value and all later ones go to `track_metrics` |
| FormConfig.FieldsParameters | octis/dashboard/server.py:105-107 | after the items of one value, each parameter named by an item other than `metric` and `type` holds `typed` of the content of the last item with that name; every other parameter keeps its value |
| FormConfig.FieldsParametersKeys | octis/dashboard/server.py:105-107 | after one value, a parameter exists exactly when it existed before or some item of the value has that name and is neither `metric` nor `type` |
| FormConfig.CollectParameters | octis/dashboard/server.py:102-107 | after all the values of a metric field, the parameter `f` holds `typed` of the content of the last item named `f` in any value; `metric`, `type` and names no item carries are absent |
| FormConfig.CollectParametersKeys | octis/dashboard/server.py:102-107 | the metric's parameters are exactly the item names, over all its values, other than `metric` and `type` |
| FormConfig.MetricOf | octis/dashboard/server.py:100-113 | a metric field succeeds exactly when all its values decode; the metric is named after the field with `metric.` removed; one entry is appended per value |
| FormConfig.MetricRouting | octis/dashboard/server.py:101-113 | the i-th value is appended to `optimize_metrics` exactly when no value up to and including it holds `"type": "track"`; the parameters are the item names other than `metric` and `type`, each holding `typed` of the content of the last item with that name |
| FormConfig.MetricKeyStep | octis/dashboard/server.py:100-113 | a `metric.` field only appends to the two metric lists and changes nothing else in `expParams` |
| Server.ReadItems | octis/dashboard/server.py:105-109 | the loop over one value's items updates the parameters as `FieldsParameters` does, and the flag stays true exactly when it was true and no item is `"type": "track"` |
| Server.CollectMetric | octis/dashboard/server.py:101-113 | the loop over a metric field's values computes exactly `MetricOf` |
| FormConfig.MetricKeyStepFacts | octis/dashboard/server.py:100-113 | a `metric.` field succeeds exactly when all its values decode, and then appends one entry per value, each named after the field |
| FormConfig.Step | octis/dashboard/server.py:73-113 | one iteration of the loop over `data.items()` never removes or changes a metric already appended |
| Server.ApplyField | octis/dashboard/server.py:73-113 | one iteration of the loop over `data.items()`, with its in-place updates, equals `Step`: the `model.` handling, then the `metric.` handling |
| FormFacts.ApplyKeysErrPersists | octis/dashboard/server.py:73-113 | an exception in one iteration ends the loop: the result of the whole loop is that error |
| FormConfig.ApplyKeys | octis/dashboard/server.py:73-113 | the whole loop never removes or changes a metric already appended |
| Server.ApplyFields | octis/dashboard/server.py:73-113 | the loop over `data.items()` computes exactly `ApplyKeys`, stopping at the first exception |
| FormFacts.StepFacts | octis/dashboard/server.py:73-113 | one iteration keeps the settings read before the loop, appends one metric per value of a `metric.` field, each named after it, and only creates search spaces named by that field |
| FormFacts.ApplyKeysSettings | octis/dashboard/server.py:73-113 | the whole loop never changes the settings read before it |
| FormFacts.ApplyKeysMetrics | octis/dashboard/server.py:100-113 | the whole loop appends one metric per `metric.` value and names every appended metric after a `metric.` field |
| FormFacts.ApplyKeysSpaces | octis/dashboard/server.py:74-90 | the whole loop creates search spaces only for names that some optimised `model.` field gives |
| Server.BuildExpParams | octis/dashboard/server.py:51-113 | building `expParams` computes exactly `BuildParams` |
| FormFacts.BuildParamsSettings | octis/dashboard/server.py:52-61 | in the finished `expParams`, `partitioning` is whether that field is present and the settings are the typed or verbatim first values |
| FormFacts.BuildParamsMetrics | octis/dashboard/server.py:100-113 | the finished `expParams` holds one metric per `metric.` value, each named after a `metric.` field |
| FormFacts.BuildParamsSpaces | octis/dashboard/server.py:74-90 | every search space in the finished `expParams` comes from a `model.` field that names an optimised parameter |
| FormFacts.NoCheckNothingToOptimize | octis/dashboard/server.py:67-71 | without any `_check` field there is no parameter to optimise |
| FormFacts.NoCheckNoSearchSpaces | octis/dashboard/server.py:67-90 | without any `_check` field the search spaces stay empty |
| FormFacts.SubmitAlreadyExists | octis/dashboard/server.py:46-49 | nothing is queued, and no error is raised, exactly when both ids are present and the queue manager already has that experiment |
| FormFacts.SubmitQueued | octis/dashboard/server.py:51-117 | when the experiment is queued, `add_experiment` receives parameters in which `partitioning` is whether that field is present, the settings are the first values of their fields, typed where the source types them, there is one metric per `metric.` value, named after a `metric.` field, and every search space comes from a `model.` field that names an optimised parameter |
| FormConfig.Submit | octis/dashboard/server.py:45-117 | the reply carries the first `batchId` and `expId` values, and, when no exception is raised, nothing is queued exactly when the queue manager already knows that pair |
| Server.StartExperiment | octis/dashboard/server.py:45-117 | the route, with its loops and in-place updates, returns exactly `Submit`: the reply, or the exception that ends it |
| Server.StartExp | octis/dashboard/server.py:197-198 | `next()` is issued exactly when nothing is running, and nothing else is issued |
| Server.DeleteExp | octis/dashboard/server.py:209-213 | two commands, `pause()` then `deleteFromOrder(target)`, when the running experiment is the target, and otherwise the single command `deleteFromOrder(target)`; `next()` is never issued |

## Left out

- The web layer is not modelled: Flask routing, `request`, `render_template`, the redirect pages returned, and `print`.
- The queue manager is not part of this model.
  - `getExperiment` is a set of known `(batch, id)` pairs.
  - `getRunning` is one `Option` read once per request. Concurrent changes between its two reads in `deleteExp` are not modelled.
  - `add_experiment`, `next`, `pause` and `deleteFromOrder` are the reply or command they produce.
- `json.loads` is a parameter of type string to optional list of items. A value that is not valid JSON, or not an object, raises, and the model reports `BadMetricValue`.
- JSON item contents that are not strings are not modelled, and neither is the comparison `content == "track"` on such contents.
- A float value is kept as its literal text. IEEE rounding and the float's value are not modelled.
- `int()` and `float()` accept only ASCII digits here. Other Unicode decimal digits, and CPython's limit on the number of digits `int()` converts, are not modelled.
- FormConfig.SetModelParameter: its TypeError branch, where `model["parameters"]` is a plain string, is kept. It can only be reached through a `model.` field whose name contains `name` and also yields the key `parameters`, and that cannot happen. This is not proved.
- Distinct keys are not modelled. The form's field names are not required to be distinct, although `to_dict` guarantees it. A lookup returns the first entry with the key, which for such a form is the only one.
- `json.loads` may return items with a repeated name in this model, which a decoded JSON object never has. No contract depends on names being distinct. With repeated names, `HasTrack` sees every item, whereas Python's dict keeps only the last value for a name.
- FormConfig.MetricOf: the source appends one shared dict once per value and keeps filling it afterwards. The model appends a finished copy per value, so aliasing is represented by equal values, not by one shared object.
- The other routes of the file are not modelled: `pauseExp`, `updateOrder`, `getDocPreview`, the display pages, `shutdown_server` and the command-line start-up. They forward to the queue manager or to other modules, which are not part of this model.
