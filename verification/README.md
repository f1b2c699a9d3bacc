# arestocats job engine, modelled in Dafny

arestocats runs test scenarios against web services. A scenario is a tree of *items*. Each item has a `type` that names a *plugin*, such as `request`, `hal`, `load`, `assign` or `suite`. The *loader* preprocesses every item:
- it gives the item a unique `$id` and a default name;
- it merges the item's context;
- it hands the item to its plugin's `pre` hook.

The *runner* then runs the items of a *job* one after another:
- each item becomes a result with one of four outcomes, SUCCESS, SKIPPED, FAILURE or ERROR;
- each result is stored under the item's name in `$results`;
- the job's *state hub* is told about it;
- the job ends with one META notification carrying the worst outcome.

The state hub keeps, per job, its items, meta record, progress map, results log and typed subscribers. The CSV and JUnit reporters count outcomes over result trees. The HTTP plugins validate responses, group headers, parse cookies and track load-test violations.

The browser frontend has several helpers:
- it encodes view state into URL parameters (string sets, JSON maps, hex/base64 bit sets);
- it formats durations;
- it reads the server's JSON text sequences, the RFC 7464 format, back into records;
- it publishes a value only when it changed.

Modelling choices:
- JavaScript values are the datatype `Values.Value`. Objects keep their keys in insertion order, because several operations depend on that order.
- A thrown error or rejected promise is `Threw(error)`. Promises are modelled by what they settle to, and asynchronous steps run one after another.
- Plugins, expression evaluation (`interpret`), `JSON.parse`, loose equality, the fetch response and the load generator's random payload are all parameters.
- Objects the source updates in place are classes whose methods keep the same invariants as the functions that specify them:
  - the state hub's jobs and store, the runner, the loader's counter;
  - the progress timer, the metric publisher, the load tracker, the stream writers, the preemptable promise proxy;
  - the json-seq reader, the `ifModified` wrapper, the `zip`/`tabulate` tables.
- Pure code is datatypes, functions and lemmas.
- Where the code has a bug (see "## Findings"), the affected operation takes an `Editions.Edition`: the interpreter, the state hub's jobs, the runner's environment (the suite's `stopAfter` default and child names), the request plugin's `processResponse` and the HAL plugin's `processResult`. `AsWritten` is the code as it stands, and the shipped program is the instance where every edition is `AsWritten`. `Corrected` is the evidently intended behaviour, and the findings' lemmas compare the two.

Modules, one file each: `Values`, `Strings`, `Base64`, `Outcomes`, `GeneralHelpers`, `ItemHelpers`, `AsyncHelpers`, `PluginLoader`, `Loader`, `State`, `Runner` (runner and suite plugin), `ProgressHelpers`, `MetricHelpers`, `ResultHelpers`, `HttpHelpers`, `RequestPlugin`, `HalPlugin`, `LoadPlugin`, `AssignPlugin`, `CsvReporter`, `JunitReporter`, `Navigation`, `Format`, `JsonSeqStream`, `CurrentJob`.

## Model

| member | source | states |
|---|---|---|
| Outcomes.Severity | src/outcomes.js:32 | each outcome has its index in the severity list SUCCESS, SKIPPED, FAILURE, ERROR |
| Outcomes.SeverityOrder | src/outcomes.js:32 | SUCCESS < SKIPPED < FAILURE < ERROR, and distinct outcomes have distinct severities |
| Outcomes.LowerName | src/outcomes.js:18-30 | the lower-case outcome name, character by character |
| Outcomes.ParseName | src/outcomes.js:18-30 | reading an outcome's name gives the outcome back |
| Outcomes.MaxFoldIsMax | src/outcomes.js:50-51 | the `reduce(max, acc)` fold is at least acc and every severity, and equals acc or one of them |
| Outcomes.WorstOfEmpty | src/outcomes.js:51-52 | `worstOf([])` is SUCCESS, since the fold starts at index 0 |
| Outcomes.WorstOfIsWorst | src/outcomes.js:48-53 | no element is more severe than `worstOf`, and on a non-empty list it is one of the elements |
| Outcomes.WorstOf | src/outcomes.js:48-53 | `worstOf` is one of the listed outcomes or SUCCESS, and SUCCESS for the empty list |
| Outcomes.WorstOfSetOf | src/outcomes.js:50-51 | two lists with the same outcomes, in any order or multiplicity, have the same `worstOf` |
| Outcomes.WorstOfMonotone | src/outcomes.js:50-51 | appending outcomes never lowers the severity of `worstOf` |
| GeneralHelpers.Table.Zip | src/util/general-helpers.js:30-34 | `zip` sets `acc[k] = v`, keeps every other key and value, and returns the same object; the frontend copy, frontend/lib/util/functional.js lines 7-10, behaves the same |
| GeneralHelpers.Table.Tabulate | src/util/general-helpers.js:23-26 | after `tabulate` every listed key holds `f(k)`, every other key is unchanged, no key is duplicated, and the same object is returned |
| GeneralHelpers.Table.CollectIndex | frontend/lib/util/functional.js:21-24 | `collectIndex` sets `acc[i] = true` and returns the same object |
| GeneralHelpers.CollectAll | frontend/lib/util/functional.js:21-24 | reducing a list with `collectIndex` from `{}` gives the marked object of the list |
| GeneralHelpers.MarkedKeys | frontend/lib/util/functional.js:21-24 | the marked object has exactly the list's elements as keys, each once, all `true` |
| GeneralHelpers.IsEmpty | src/util/general-helpers.js:38-45 | `isEmpty` is true iff no key of the `for ... in` enumeration is an own property; the frontend copy, frontend/lib/util/functional.js lines 12-19, behaves the same |
| GeneralHelpers.IsEmptyOwn | src/util/general-helpers.js:38-45 | an object is empty iff it has no own property, whatever it inherits |
| GeneralHelpers.ForIn | src/util/general-helpers.js:39-40 | the enumeration visits the own keys in order, then the inherited ones |
| GeneralHelpers.PrefixedLines | src/util/general-helpers.js:16-19 | the printed text is the input with a two-character prefix, a vertical bar and a space, before the first line and after every newline |
| ItemHelpers.MergeContextLookup | src/util/item-helpers.js:127-129 | every key of the merged context comes from the overrides, else the inherited context, else the defaults, and is absent when none has it |
| ItemHelpers.MergeContextIdempotent | src/util/item-helpers.js:127-129 | merging the same item's defaults and overrides twice resolves every key as merging once |
| ItemHelpers.MergeContextExample | src/util/item-helpers.js:127-129 | a suite context `{ paramA: 42 }` reaches a child as 42, wins over the child's default and loses to its override |
| ItemHelpers.Bindings | src/util/item-helpers.js:115-116 | the bound context properties are exactly those whose keys pass the name test, in key order |
| ItemHelpers.Interpret | src/util/item-helpers.js:114-123 | the expression text is evaluated against exactly the context properties whose keys are identifiers |
| ItemHelpers.InterpretAsWritten | src/util/item-helpers.js:114-123 | as written: if some context key passes the unanchored `isValidIdentifier` without being an identifier, the generated function is a syntax error and every expression throws; otherwise the text is evaluated against the keys that pass the test |
| ItemHelpers.InterpretIn | src/util/item-helpers.js:114-123 | an interpreter of the `AsWritten` edition (the shipped program) interprets as written, one of the `Corrected` edition with anchored identifiers |
| ItemHelpers.MergeContext | src/util/item-helpers.js:127-129 | `{ ...context, ...item.context, $fileName }` is an object with no key twice |
| ItemHelpers.InterpretAsWrittenRejectsDashedKey | src/util/item-helpers.js:133-135 | the unanchored `isValidIdentifier` accepts `a-b`, which is not an identifier, so `interpret` as written throws for a context holding that key |
| ItemHelpers.PropValue | src/util/item-helpers.js:84-96 | `prop(key)` is the `:key` expression interpreted by the interpreter's edition (as written in the shipped program), else the literal key, else the default, else the "Key ... is missing" error |
| ItemHelpers.ExtractFromOk | src/util/item-helpers.js:79-82 | a successful reduce has exactly the keys built so far plus the remaining ones, each with its `prop` value, and no duplicate |
| ItemHelpers.ExtractFromThrew | src/util/item-helpers.js:79-82 | the reduce throws iff some key's `prop` throws, and then with the error of the first such key |
| ItemHelpers.ExtractProps | src/util/item-helpers.js:78-97 | `extractProps` succeeds iff the `prop` of every extracted key succeeds, and then gives an object |
| ItemHelpers.ExtractPropsOk | src/util/item-helpers.js:78-97 | the extracted object has exactly the keys `$id`, `type`, `name` and those of `toExtract`, each with its `prop` value under the interpreter's edition |
| ItemHelpers.ExtractPropsMissing | src/util/item-helpers.js:79-94 | an item without `$id`, `:$id` or a default for it throws `Key "$id" is missing ...` |
| ItemHelpers.PropText | src/util/item-helpers.js:101-110 | `propText` is the raw `:key` text, else the literal, else the fallback; it never throws |
| ItemHelpers.ToBeTruthy | src/util/item-helpers.js:24-26 | no message iff the value is truthy, otherwise exactly the "expected ... to be truthy" message |
| ItemHelpers.ToBe | src/util/item-helpers.js:49-55 | the TRUTHY sentinel delegates to `toBeTruthy`; otherwise no message iff strictly equal, else exactly one |
| ItemHelpers.ToBeSelf | src/util/item-helpers.js:53 | a primitive is `toBe` itself |
| ItemHelpers.ToEqual | src/util/item-helpers.js:41-48 | the TRUTHY sentinel delegates to `toBeTruthy`; otherwise no message iff loosely equal, else exactly one |
| ItemHelpers.ToSatisfy | src/util/item-helpers.js:66-70 | no message iff the built predicate holds, else exactly the "to satisfy" message |
| ItemHelpers.ToDeepEqual | src/util/item-helpers.js:27-40 | two primitives are compared loosely, anything else by its `JSON.stringify` text (an `Error` is written `{}`); no message iff equal, else exactly the "to be equal to" message |
| ItemHelpers.DeepEqualsEmpty | src/util/item-helpers.js:27-40 | an object without `undefined` values deep-equals `{}` iff it has no property |
| ItemHelpers.ToBeAtMost | src/util/item-helpers.js:56-60 | no message iff the actual number is strictly below the expected one (so `NaN` always fails), else exactly one |
| ItemHelpers.ToBeAtLeast | src/util/item-helpers.js:61-65 | no message iff the actual number is strictly above the expected one, else exactly one |
| ItemHelpers.ItemError | src/util/item-helpers.js:139-142 | a nullish context or item throws on destructuring; otherwise the error reads `[<$loader> ]item error: <message> (item: <name>, file: <$fileName>)` |
| AsyncHelpers.SequenceOrder | src/util/async-helpers.js:65-71 | the first action gets the initial accumulator, each later one its predecessor's result, and `shouldCancel` was false on every accumulator an action got |
| AsyncHelpers.SequenceResult | src/util/async-helpers.js:65-71 | with no action run the result is the initial accumulator; a rejection is the last run action's; a stop before the end is on an accumulator `shouldCancel` accepts; otherwise the result is the last action's |
| AsyncHelpers.SequenceRunsAll | src/util/async-helpers.js:65 | with the default `shouldCancel` and no rejection every action runs exactly once |
| AsyncHelpers.SequenceAppend | src/util/async-helpers.js:65-71 | running a concatenation of actions is running the first part, then the second from its result |
| AsyncHelpers.Inputs | src/util/async-helpers.js:66-68 | no more actions run than were given |
| AsyncHelpers.Proxy.Settle | src/util/async-helpers.js:18-22 | the outer promise settles at most once: only the first settlement takes effect |
| AsyncHelpers.Proxy.Preempt | src/util/async-helpers.js:23-30 | an outside `resolve`/`reject` sets `preempted` and settles the outer promise unless it already was |
| AsyncHelpers.Proxy.Forward | src/util/async-helpers.js:33-39 | the wrapped promise's settlement is forwarded iff the proxy was not preempted |
| AsyncHelpers.ForwardUnpreempted | src/util/async-helpers.js:18-22 | without preemption the proxy settles exactly as the wrapped promise |
| AsyncHelpers.PreemptThenForward | src/util/async-helpers.js:23-39 | after an outside settlement the wrapped promise's later settlement is ignored |
| PluginLoader.StripSuffix | src/services/plugin-loader.js:27-33 | removing the `.js` or `.json` suffix leaves the name that, with the suffix, is the file name; other names are kept |
| PluginLoader.FsPlugins | src/services/plugin-loader.js:29-33 | at most one built-in plugin per directory entry |
| PluginLoader.RegistryHas | src/services/plugin-loader.js:38-40 | a name is in the registry iff some plugin entry carries it |
| PluginLoader.RegistryLast | src/services/plugin-loader.js:38-40 | a registered name maps to the module of the last entry with that name |
| PluginLoader.UserPluginWins | src/services/plugin-loader.js:35-40 | a user plugin replaces a built-in plugin of the same name |
| PluginLoader.Select | src/services/plugin-loader.js:43-55 | a plugin is selected iff the item and its type are truthy and the type is registered, and then it is the registered module; a missing item or type throws the matching item error |
| PluginLoader.Raise | src/services/plugin-loader.js:45-52 | `throw itemError(...)` always throws |
| PluginLoader.SelectMissingItem | src/services/plugin-loader.js:44-45 | for a missing item the error thrown is `itemError`'s own destructuring failure |
| Loader.NamedLookup | src/services/loader.js:88-92 | the named item has the new `$id`, its own name if it has one and `$<type>-<id>` otherwise, and every other property unchanged |
| Loader.NamedHas | src/services/loader.js:91 | the named item has exactly the item's keys plus `name` and `$id` |
| Loader.NamedUnique | src/services/loader.js:91 | the named item has no key twice |
| Loader.ChildrenStep | src/plugins/suite.js:22-24 | one child of a suite's `pre`: a synchronous throw ends the whole `pre` with it, otherwise the others follow with the counter the child left |
| Loader.PreRejectsContext | src/services/loader.js:72-75 | an item that sets its own `context` throws the item error before it is named, so no id is used |
| Loader.PreCounter | src/services/loader.js:73-89 | the item counter never goes back, and every item past `select` and the context rule takes an id |
| Loader.PluginPreCounter | src/services/loader.js:81-82 | a plugin's `pre` never moves the counter back |
| Loader.ChildrenCounter | src/plugins/suite.js:22-24 | preprocessing a suite's children never moves the counter back |
| Loader.PreSpec | src/services/loader.js:56-92 | `pre` never moves the item counter back, and every item that does not throw synchronously takes at least one id |
| Loader.PluginPreSpec | src/services/loader.js:81-82 | a plugin's `pre` never moves the counter back |
| Loader.SuitePreSpec | src/plugins/suite.js:20-26 | a suite's `pre` never moves the counter back |
| Loader.ChildrenSpec | src/plugins/suite.js:22-25 | preprocessing the children never moves the counter back, and resolves only when no child rejected |
| Loader.LoadSpec | src/services/loader.js:36-43 | `loadScenarios` never moves the counter back and, once a rejection is recorded, rejects with it |
| Loader.ExtractedNamed | src/services/loader.js:76-80 | extracting a named item's own keys gives back its `$id` and name, and has `context` iff the item has |
| Loader.ExtractedIdName | src/util/item-helpers.js:78-91 | the extracted props of a named item carry its `$id` and its name |
| Loader.ExtractedId | src/util/item-helpers.js:79-90 | without a `:$id` key the extracted `$id` is the id `ensureNamed` assigned |
| Loader.ExtractedName | src/util/item-helpers.js:79-90 | without a `:name` key the extracted name is the named item's name |
| Loader.ExtractedContext | src/util/item-helpers.js:79-80 | the extracted props have no key twice, and have `context` iff the item has |
| Loader.ExtractedUnique | src/util/item-helpers.js:79-82 | `extractProps` builds an object without duplicate keys |
| Loader.ExtractFromUnique | src/util/item-helpers.js:79-82 | each step of the `reduce` keeps the keys unique |
| Loader.PropsItemNamed | src/services/loader.js:77-80 | for a plugin without `preProps`, the item handed to `pre` keeps the named item's `$id` and name and has `context` iff the item has |
| Loader.PreDefaultShape | src/services/loader.js:70-82 | for a plugin without a `pre` hook, a resolved result is `{ context, ...propsItem }` |
| Loader.PreDefaultResult | src/services/loader.js:67-92 | for a plugin without hooks, the preprocessed item has the next id, its own name or `$<type>-<id>`, and the merged context |
| Loader.LoadKeepsLoadable | src/services/loader.js:36-43 | a batch that is not rejected keeps exactly one preprocessed item per request whose file loads |
| Loader.LoadRejects | src/services/loader.js:39-41 | once a preprocessing rejection is recorded, `Promise.all` rejects with it |
| Loader.ItemLoader.constructor | src/services/loader.js:33 | a new loader starts its item counter at 0 |
| Loader.ItemLoader.EnsureNamed | src/services/loader.js:88-92 | `ensureNamed` takes the next id; ids are never handed out twice |
| Loader.ItemLoader.Pre | src/services/loader.js:56-84 | `pre` returns what `PreSpec` describes and leaves the counter where it says |
| Loader.ItemLoader.PluginPre | src/services/loader.js:81-82 | the plugin's `pre`, with a falsy result replaced by the default item |
| Loader.ItemLoader.SuitePre | src/plugins/suite.js:20-26 | the suite's `pre`: its children under the suite context, then `{ ...item, context, items }` |
| Loader.ItemLoader.PreChildren | src/plugins/suite.js:22-25 | the children are preprocessed in order, as `ChildrenSpec` describes |
| Loader.ItemLoader.PreChild | src/plugins/suite.js:22-24 | one child is preprocessed under `mergeContext(parentContext, child)` |
| Loader.ItemLoader.LoadScenarios | src/services/loader.js:36-43 | `loadScenarios` skips requests whose file does not load and preprocesses the others, as `LoadSpec` describes |
| ProgressHelpers.OrDefault | src/util/progress-helpers.js:11 | a destructured option takes its default only when it is absent |
| ProgressHelpers.ProbeValue | src/util/progress-helpers.js:11-30 | the default probe reports no work done |
| ProgressHelpers.TimeFraction | src/util/progress-helpers.js:31 | the elapsed fraction is 0 without a positive duration, never above 1, never negative while the elapsed time is not, and exactly elapsed/duration below the duration |
| ProgressHelpers.Reported | src/util/progress-helpers.js:30-32 | the reported progress is the larger of the work estimate and the time fraction, within [0, 1] when the estimate is |
| ProgressHelpers.ProgressTimer.constructor | src/util/progress-helpers.js:11-13 | a new timer has the defaults 0 and 250 ms, no elapsed time and is not done |
| ProgressHelpers.ProgressTimer.Update | src/util/progress-helpers.js:24-33 | a tick of a stopped timer changes nothing; otherwise it adds the interval to the elapsed time and sends one report with the reported progress |
| ProgressHelpers.ProgressTimer.Report | src/util/progress-helpers.js:35-37 | one `PROGRESS` notification with the item's `$id` |
| ProgressHelpers.ProgressTimer.Stop | src/util/progress-helpers.js:18-21 | `stop` marks the timer done and sends nothing |
| ProgressHelpers.ElapsedNonNegative | src/util/progress-helpers.js:29 | with a non-negative interval the elapsed time is never negative |
| ProgressHelpers.TimeFractionMonotone | src/util/progress-helpers.js:29-31 | the time fraction never goes back as the elapsed time grows |
| ProgressHelpers.StoppedTimerIsSilent | src/util/progress-helpers.js:18-28 | after `stop`, any number of ticks sends nothing and does not advance the time |
| MetricHelpers.FirstMatch | src/util/metric-helpers.js:50-57 | the first position whose element has the attribute with a strictly equal value, or -1 exactly when none has |
| MetricHelpers.MetricsIndex | src/util/metric-helpers.js:50-57 | the loop returns the first matching index, or -1 |
| MetricHelpers.Entry | src/util/metric-helpers.js:24-44 | the metric entry has exactly the keys name, color, id, label, metricType, value, with the item's `$id` and `metricData[label]` |
| MetricHelpers.NewGroup | src/util/metric-helpers.js:35-45 | a new group has the item's category and the entry as its only metric |
| MetricHelpers.Pushed | src/util/metric-helpers.js:23-31 | pushing appends the entry to the group's metrics and keeps every other key and value |
| MetricHelpers.PublishSpec | src/util/metric-helpers.js:11-48 | a new category leaves the groups as they are and notifies a new group; an existing one gets the entry appended and is the group notified, the others unchanged; it throws iff the metric data is missing or the matching group has no metrics list |
| MetricHelpers.Publisher.constructor | src/util/metric-helpers.js:20 | the publisher starts from the job's metric groups with nothing sent |
| MetricHelpers.Publisher.Publish | src/util/metric-helpers.js:11-48 | `metricsPublish` updates the groups and sends the one `METRIC` payload `PublishSpec` describes; a throw changes nothing |
| MetricHelpers.FirstMatchKept | src/util/metric-helpers.js:21-24 | the pushed group still matches first, so a later publish of the category finds the same group |
| MetricHelpers.PublishExisting | src/util/metric-helpers.js:21-32 | publishing into an existing category replaces that group by the pushed one |
| MetricHelpers.PublishTwice | src/util/metric-helpers.js:21-32 | publishing the same category twice appends both entries to its group, in order |
| ResultHelpers.ById | src/util/result-helpers.js:12-38 | the map is built iff every result has a subject; reading through a missing subject throws a TypeError |
| ResultHelpers.MapBy | src/util/result-helpers.js:32-38 | the `forEach` loop builds the map `ById` describes, or throws at the first result without a subject |
| ResultHelpers.Branch | src/util/result-helpers.js:17-28 | a branch is an object holding the item's result fields, plus `nested` exactly for an item with children, which must be a list |
| ResultHelpers.Branches | src/util/result-helpers.js:13-20 | one branch per item |
| ResultHelpers.ResultTrees | src/util/result-helpers.js:11-14 | one tree per item, and only when the results map could be built |
| ResultHelpers.ByIdKeys | src/util/result-helpers.js:32-38 | the map has a key exactly when some result is filed under it |
| ResultHelpers.ByIdLastWins | src/util/result-helpers.js:34-36 | under every key the map keeps the last result filed under it |
| ResultHelpers.BranchesAt | src/util/result-helpers.js:13-20 | `items.map(resultBranch)` succeeds iff every branch does, and its i-th element is the i-th item's branch |
| ResultHelpers.TreesPerItem | src/util/result-helpers.js:11-14 | tree i is the branch of item i built from the latest results |
| ResultHelpers.NestedIffItems | src/util/result-helpers.js:18-21 | a branch has `nested` exactly when its item has children, and `nested` holds their branches |
| ResultHelpers.NoResultOnlyNested | src/util/result-helpers.js:19-28 | an item without a result yields a branch holding only `nested`, or nothing |
| ResultHelpers.BranchCarriesLatest | src/util/result-helpers.js:19-35 | the branch of an item holds every field of the last result filed under its `$id` |
| State.SubscribeFresh | src/services/state.js:347-350 | a new subscription is appended last, with an id from the job's sequence that no earlier subscriber has, and the list stays ordered (with lines 439-442) |
| State.SubscribeSpec | src/services/state.js:347-350 | a subscription takes the next id of the job's sequence and is appended last; nothing else changes |
| State.IndexOf | src/services/state.js:352 | `indexOf` is the first position holding the subscriber, or -1 exactly when it is absent |
| State.UnsubscribeOwn | src/services/state.js:351-354 | unsubscribing removes exactly its own entry and keeps the others in order; once it is gone, `splice(-1, 1)` removes the last subscriber instead; nothing else changes |
| State.RemovedOrdered | src/services/state.js:352-353 | removing one subscriber keeps the list ordered, and the removed one, having a unique id, is gone |
| State.DroppedOrdered | src/services/state.js:352-353 | dropping the last subscriber keeps the list ordered |
| State.OfType | src/services/state.js:415 | the subscribers kept are exactly those of the notification type |
| State.Broadcast | src/services/state.js:413-417 | every subscriber of the type gets the payload, in subscription order |
| State.OfTypeAppend | src/services/state.js:415 | filtering a list split in two is filtering each part |
| State.BroadcastOne | src/services/state.js:413-417 | a single subscriber gets the payload iff it has the type |
| State.BroadcastAppend | src/services/state.js:413-417 | broadcasting to a list split in two is broadcasting to each part in turn |
| State.NotifySpec | src/services/state.js:359-409 | `notify` throws iff the job is unfinished, the type has a handler other than CANCEL's and the payload is nullish; it never adds subscribers and appends at most one result to the log |
| State.NotifyFinished | src/services/state.js:360-363 | a finished job ignores every notification |
| State.NotifyUnhandled | src/services/state.js:364-373 | a type without handler, METRIC among them, changes nothing and reaches nobody |
| State.NotifyCancel | src/services/state.js:365-377 | CANCEL changes no state and only reaches the CANCEL subscribers |
| State.NotifyMeta | src/services/state.js:366-423 | META records outcome and finished and reaches the META subscribers; a truthy `finished` clears the subscribers, and the job ignores every later notification |
| State.NotifyResult | src/services/state.js:367-409 | RESULT appends the result to the log, removes the progress entry under the edition's key (`result.$id` as written, `result.subject.$id` corrected), keeps every other entry and reaches the RESULT subscribers |
| State.NotifyProgress | src/services/state.js:368-402 | PROGRESS stores `{ ...previous, ...update }`, starting from a fresh entry at progress 0, and broadcasts the stored entry |
| State.LastGetPair | src/services/state.js:398 | the fresh progress entry's keys each have one value |
| State.ProgressSurvivesResult | src/services/state.js:407 | as written, a runner result, whose id sits under `subject`, leaves its item's progress entry in place |
| State.ResultClearsSubject | src/services/state.js:406-409 | corrected, a runner result removes the progress entry of its subject's `$id` |
| State.CancelWaits | src/services/state.js:427-434 | `cancel` subscribes a META listener and sends CANCEL; the listener is notified once the job's META has a truthy `finished` |
| State.CancelSpec | src/services/state.js:427-434 | `cancel` leaves the job with one more META subscriber, the waiting listener, and succeeds |
| State.JobData.constructor | src/services/state.js:319-328 | a new job has no outcome, is not finished, and has no progress, results or subscribers |
| State.JobData.Meta | src/services/state.js:322-338 | `meta()` holds the job id, its outcome and finished time, and `started` equal to `created` |
| State.JobData.Subscribe | src/services/state.js:347-355 | `subscribe` changes the job as `SubscribeSpec` says and returns the new subscriber |
| State.JobData.Unsubscribe | src/services/state.js:351-354 | the returned function changes the job as `UnsubscribeSpec` says |
| State.JobData.Notify | src/services/state.js:359-383 | `notify` changes the job and delivers as `NotifySpec` says for the job's edition (as written in the shipped program); a throwing handler changes nothing |
| State.JobData.RunHandler | src/services/state.js:364-409 | the handler's change, and its return value or else the payload as what is broadcast |
| State.JobData.Send | src/services/state.js:413-417 | the deliveries are those `Broadcast` describes |
| State.JobData.Cancel | src/services/state.js:427-434 | `cancel` changes the job and delivers as `CancelSpec` says for the job's edition |
| State.Without | src/services/state.js:272 | `delete currentSet[id]` keeps exactly the other ids |
| State.WithoutTwice | src/services/state.js:272 | deleting the same id twice is deleting it once |
| State.Insert | src/services/state.js:286-308 | insertion keeps every job and adds the new one |
| State.ConsNewestFirst | src/services/state.js:312-314 | a job no older than a newest-first list may go in front of it |
| State.InsertNewestFirst | src/services/state.js:312-314 | insertion keeps the list newest first |
| State.SliceEnd | src/services/state.js:309 | `slice(0, limit)` keeps at most all the jobs |
| State.Store.constructor | src/services/state.js:241-247 | a new store has no jobs and no current jobs |
| State.Store.FreshId | src/services/state.js:439-442 | the next id from the job sequence is not yet taken (with line 266) |
| State.Store.CreateJob | src/services/state.js:258-275 | without concurrency and with a job ongoing it throws naming the ongoing job and changes nothing; otherwise the new job gets a fresh id and the store's META listener, and becomes current |
| State.Store.Notify | src/services/state.js:359-383 | a job's `notify` under its edition, as `NotifySpec` says; the store's ids are unchanged, and the job leaves the current set iff the store's META listener sees a truthy `finished` (with lines 271-273) |
| State.Store.Deliver | src/services/state.js:271-273 | the store's META listener removes the job from the current set iff it sees a truthy `finished` |
| State.Store.CurrentJobs | src/services/state.js:298-302 | one job per current id, in order |
| State.Store.JobById | src/services/state.js:292-294 | a job exactly for a known id, and it is that job |
| State.Store.SortNewestFirst | src/services/state.js:286-314 | the sorted list is newest first and a permutation of the input |
| State.Store.IdsDistinct | src/services/state.js:439-442 | no two jobs share an id (with line 266) |
| State.Store.Filtered | src/services/state.js:283-285 | exactly the jobs of the keys that pass the `created` filter |
| State.Store.MatchingJobs | src/services/state.js:279-288 | exactly the jobs matching the id and creation filters, each once, newest first; an unknown id gives none |
| State.Store.MostRecentJobs | src/services/state.js:306-310 | the newest `limit` jobs, newest first, each stored under its id and none twice; no job left out is newer than one kept |
| State.DistinctCount | src/services/state.js:286 | sorting does not duplicate jobs |
| State.DistinctOnce | src/services/state.js:286 | a job occurs at most once in a list without repetitions |
| Runner.LastThree | src/services/runner.js:99 | `slice(-3)` keeps the last three parts, or all of them when there are fewer |
| Runner.SourceFileShort | src/services/runner.js:99 | a file name of at most three path segments is kept whole as `sourceFile` |
| Runner.Subject | src/services/runner.js:98-101 | the subject carries the item's `$id`, `name` and `type`, the context's role (`test` when falsy) and the last three segments of the file name |
| Runner.BaseResult | src/services/runner.js:96-112 | the base result exists iff the context has a string `$fileName` (else `split` throws); it holds the subject, the outcome, its lower-case message and empty failures and errors |
| Runner.Caught | src/services/runner.js:79 | a resolved result passes through; a rejection becomes `{ outcome: ERROR, errors: [error] }` |
| Runner.MergeLookup | src/services/runner.js:80-83 | in `{ ...base, ...result }` every property of the plugin's result wins and the others come from the base result |
| Runner.Finish | src/services/runner.js:79-88 | the handler's last steps reject exactly when the base result cannot be built, and then change nothing |
| Runner.RunItemSpec | src/services/runner.js:31-34 | `runner.run(item)` reads the cancel flag at the moment of the call and counts one more run |
| Runner.RunSpec | src/services/runner.js:63-90 | the type handler never lowers the run count, and a skipping handler starts no run |
| Runner.HookSpec | src/services/runner.js:74-78 | a hook never lowers the run count, and a skipped item's hook starts no run |
| Runner.SkipAllSpec | src/plugins/suite.js:57-64 | skipping the remaining children starts no run |
| Runner.MeasuredSpec | src/services/runner.js:72-88 | the handler past its synchronous checks never lowers the run count, and when skipping starts no run |
| Runner.Attempt | src/services/runner.js:74-79 | preparing and running the hook never lowers the run count, and when skipping starts no run |
| Runner.SuiteSkipSpec | src/plugins/suite.js:62-65 | the suite's `skip` starts no run |
| Runner.SuiteRunSpec | src/plugins/suite.js:27-60 | the suite's `run` never lowers the run count; after each child that resolves it reports its progress, relayed by every suite it runs inside (see `SuiteProgressMarks`); its `stopAfter` default and the names in its summary follow the environment's edition, `AsWritten` in the shipped program |
| Runner.SkippedOutcome | src/services/runner.js:74-83 | a skipped item whose plugin has no `skip` hook of its own ends SKIPPED |
| Runner.StartedAfterCancel | src/services/runner.js:31-52 | an item started once CANCEL has arrived, and whose plugin has no `skip` hook, ends SKIPPED |
| Runner.FinishRecords | src/services/runner.js:84-88 | a resolved handler stores its result as `$results[item.name]`, leaves every other entry alone and sends one RESULT notification with it |
| Runner.FinishError | src/services/runner.js:79-83 | an error from preparing or running the item gives an ERROR result carrying that error |
| Runner.FinishOutcome | src/services/runner.js:80-83 | a plugin result without `outcome` keeps the base outcome: SKIPPED when skipping, else SUCCESS |
| Runner.RunMissingContext | src/services/runner.js:69-71 | an item without a context throws synchronously, before any measurement or notification |
| Runner.SkipEvalFree | src/services/runner.js:74-78 | a skipped item is handed to `skip` through raw `runProps`, so skipping evaluates no expression |
| Runner.HookSkipEvalFree | src/services/runner.js:78 | the `skip` hook evaluates no expression |
| Runner.SuiteSkipEvalFree | src/plugins/suite.js:62-65 | skipping a suite skips its children and evaluates no expression |
| Runner.SkipAllEvalFree | src/plugins/suite.js:62-65 | `items.map(runner.skip)` evaluates no expression |
| Runner.CancelledJobEvalFree | src/services/runner.js:29-52 | once the job has been cancelled, the rest of the job settles the same whatever the expression evaluator, the edition and the cancel point, so it evaluates no expression |
| Runner.ShouldStopCases | src/plugins/suite.js:79-90 | as written a suite without `stopAfter` never stops, since `outcomes.ERROR` is `undefined` on the severity array; corrected it stops after an ERROR and only then; a falsy `stopAfter` never stops it; `stopAfter: FAILURE` stops on FAILURE or ERROR |
| Runner.StopAfter | src/plugins/suite.js:79 | a given `stopAfter` is kept; without one it is `undefined` as written and ERROR corrected |
| Runner.StopsAtErrorOnly | src/plugins/suite.js:88-90 | with ERROR as `stopAfter`, exactly an ERROR result stops the sequence |
| Runner.DefaultNeverStops | src/plugins/suite.js:79-90 | as written, a suite without `stopAfter` that completes its sequence has run every child, after an ERROR one too |
| Runner.DefaultStopsAfterError | src/plugins/suite.js:74-90 | corrected, a suite without `stopAfter` goes on past every non-ERROR child and stops early only after an ERROR child |
| Runner.UnknownStopAfterStopsAtOnce | src/plugins/suite.js:88-90 | a `stopAfter` that is no outcome name has index -1, so the suite stops after its first child |
| Runner.ChildrenSpec | src/plugins/suite.js:45-91 | the sequence reaches the children in order, at most one per child, and stops early only after a result whose outcome reaches `stopAfter`; each child's `runner.run` re-reads the cancel flag and runs inside the suite; the run count never goes back |
| Runner.ChildrenNext | src/plugins/suite.js:79-91 | the first reached result is the first child's `runner.run`, and the others are the sequence over the rest from the state it left |
| Runner.ChildrenCancelled | src/plugins/suite.js:79-91 | every child started at or after the cancellation, whose plugin has no `skip` hook, ends SKIPPED |
| Runner.AfterChild | src/plugins/suite.js:46-52 | after the first child settles the suite reports it done, and the sequence goes on with the others, keeping the same promise about the results reached |
| Runner.Pendings | src/plugins/suite.js:44-58 | the placeholders for children not reached, one per child |
| Runner.PendingCountsNowhere | src/plugins/suite.js:57-112 | the pending promises stored for skipped children count in `results.length` but match no outcome |
| Runner.PendingMatchingFrom | src/plugins/suite.js:108-112 | appending pending promises changes no `matching` list |
| Runner.Matching | src/plugins/suite.js:108-112 | `matching(outcome)` is exactly the indices of the results with that outcome, in increasing order |
| Runner.Listed | src/plugins/suite.js:102-105 | one `item <index> (<name>) <verb>` line per matching index, in order |
| Runner.SummaryFields | src/plugins/suite.js:95-106 | the summary is ERROR when a child errored, else SUCCESS when all succeeded, else FAILURE; the message counts successes over all results; an error suppresses the export; failures and errors list the matching children |
| Runner.SummaryObject | src/plugins/suite.js:95-106 | the summary object holds exactly the given outcome, message, export, failures and errors, each key once |
| Runner.SummaryNamesUndefined | src/plugins/suite.js:102-105 | as written (`NameOf(AsWritten)`, used by the shipped program), a failed child is listed as `item 0 (undefined) failed`, since a runner result keeps the name under `subject` |
| Runner.FailedLoginMatches | src/plugins/suite.js:108-112 | the failed child is the one index matching FAILURE |
| Runner.SummaryNamesSubject | src/plugins/suite.js:102-105 | corrected (`NameOf(Corrected)`), naming each child by its subject lists `item 0 (login) failed` |
| Runner.ChildDone | src/plugins/suite.js:48 | the progress after child i of n is in (0, 1], and 1 after the last child |
| Runner.ChildProgress | src/plugins/suite.js:36-42 | the progress while child i reports its own progress lies between that before child i and that after it, and is the first when the child reports 0 and the second when it reports 1 |
| Runner.ChildrenStep | src/plugins/suite.js:45-52 | the sequence is the first child's run inside the suite; a resolved child is followed by the suite's report and the relays of the suites around it, and then by the rest of the sequence unless its outcome stops it |
| Runner.FirstChild | src/plugins/suite.js:45-46 | the first child runs inside the suite and counts one more run; the running suites are restored afterwards |
| Runner.ProgressChain | src/plugins/suite.js:36-49 | one report of a suite sets off one PROGRESS notification per running suite: its own first, carrying its `$id` and progress, then one relay per enclosing suite, each progress in [0, 1] |
| Runner.ProgressChainRelays | src/plugins/suite.js:36-41 | each relay comes from the next enclosing suite, innermost first, carries that suite's `$id`, and lies between its marks before and after the running child |
| Runner.TopChain | src/plugins/suite.js:36-41 | a suite inside no other suite sends its report alone |
| Runner.LeafSends | src/services/runner.js:84-88 | an item that is not a suite and resolves sends one RESULT notification with its result and nothing else |
| Runner.Trail | src/plugins/suite.js:45-52 | two notifications per child reached |
| Runner.ChildrenTrail | src/plugins/suite.js:45-52 | a suite inside no other suite, over children that are not suites, sends each child's RESULT followed by its own PROGRESS report of that child done |
| Runner.AfterChildTrail | src/plugins/suite.js:46-52 | once the first child has resolved, the suite's report of it comes first and the trail over the others follows |
| Runner.SuiteProgressMarks | src/plugins/suite.js:44-54 | a suite inside no other suite whose children are not suites sends, for each child i reached, in order, the child's RESULT and then PROGRESS `{ $id, progress: (i + 1) / n }`, and nothing else |
| Runner.TrailAt | src/plugins/suite.js:46-49 | in the trail, child j's RESULT is at 2j and the suite's report `(index + j + 1) / n` at 2j + 1 |
| Runner.SuiteTimerReports | src/util/progress-helpers.js:24-37 | with the suite's timer, of no expected duration, an update reports the probe, the suite's current progress, unchanged |
| Runner.SeverityFoldNames | src/outcomes.js:49-51 | on outcome names the runner's severity fold is the outcome lattice's maximum |
| Runner.WorstOfNames | src/services/runner.js:56 | on outcome names `worstOf` over the results' outcomes is the lattice's worst outcome |
| Runner.WorstOfUnknownLast | src/services/runner.js:56 | a result whose outcome is not an outcome name makes the job's outcome `undefined` |
| Runner.JobSpec | src/services/runner.js:46-54 | a job that completes has exactly one result per item, after the ones already done |
| Runner.JobNext | src/services/runner.js:46-54 | the next result is the next item's `runner.run`, and the job goes on from the state it left |
| Runner.JobCancelled | src/services/runner.js:31-52 | every item started at or after the cancellation, whose plugin has no `skip` hook, ends SKIPPED |
| Runner.OutcomeFields | src/services/runner.js:56 | the outcome of each result, in order |
| Runner.RunJobResolves | src/services/runner.js:54-58 | the job resolves with true exactly when every result is a SUCCESS, and its last notification is META with the worst outcome and the finish time |
| Runner.JobSuccess | src/services/runner.js:56-58 | the worst outcome is SUCCESS exactly when every outcome is |
| Runner.Runner.constructor | src/services/runner.js:27-29 | a new run has empty `$results`, has sent nothing and has made no measurement |
| Runner.Runner.RunJob | src/services/runner.js:27-59 | running the job's items one after another, each reading the cancel flag when it starts, gives the result and the state of the job's specification under the environment's edition |
| Runner.Runner.RunItem | src/services/runner.js:31-34 | `run` settles and leaves the state as `RunItemSpec` says |
| Runner.Runner.Run | src/services/runner.js:31-90 | `typeHandler(item.context, item)(doSkip)` settles as its specification says and leaves the state it says |
| Runner.Runner.Measured | src/services/runner.js:72-88 | the handler past its synchronous checks measures, prepares, runs and records as specified |
| Runner.Runner.Record | src/services/runner.js:79-88 | merges, stores and sends the result as `Finish` says |
| Runner.Runner.Hook | src/services/runner.js:65-78 | runs the plugin's `skip` or `run` hook, the suite's among them, a missing hook resolving with `undefined` |
| Runner.Runner.SuiteRun | src/plugins/suite.js:27-60 | the suite runs its children in sequence, each reading the cancel flag when it starts, skips the rest and summarises, with the `stopAfter` default and child names of the environment's edition, as `SuiteRunSpec` says |
| Runner.Runner.SuiteSkip | src/plugins/suite.js:62-65 | the suite's skip skips each child |
| Runner.Runner.RunChildren | src/plugins/suite.js:79-91 | the loop over the children reaches the result and state of the sequence's specification, PROGRESS reports included |
| Runner.Runner.RunChild | src/plugins/suite.js:45-52 | one child runs inside the suite; a resolved one is followed by the suite's PROGRESS report and its relays; the loop stops with the sequence's result or goes on with the rest |
| Runner.Runner.SkipAll | src/plugins/suite.js:57-64 | skips each remaining child in order, stopping at a synchronous throw |
| HttpHelpers.FirstIgnoringCase | src/util/http-helpers.js:45-48 | `hasIgnoreCase` holds iff some key equals the search ignoring case; the position found is the first such key |
| HttpHelpers.HasIgnoreCase | src/util/http-helpers.js:45-48 | a key present as given, or in lower case, is found ignoring case |
| HttpHelpers.GetIgnoreCase | src/util/http-helpers.js:35-41 | the value of the first key, in key order, that equals the search ignoring case; the fallback when there is none |
| HttpHelpers.MatchingValues | src/util/http-helpers.js:37-39 | the filtered values are empty iff no key matches, and start with the first match's value |
| HttpHelpers.AnyStatus | src/util/http-helpers.js:52-60 | the pattern `xxx` accepts every status |
| HttpHelpers.TwoXX | src/util/http-helpers.js:52-60 | `2xx` accepts exactly the statuses whose text starts with `2` (the pattern only checks as many characters as it has) |
| HttpHelpers.TwoXXText | src/util/http-helpers.js:56-57 | one part `2xx` accepts a text iff it starts with `2` |
| HttpHelpers.StatusMatches | src/util/http-helpers.js:52-60 | a status is accepted by its own text when that text has no comma |
| HttpHelpers.ExactStatus | src/util/http-helpers.js:52-60 | a number as its own pattern accepts that number |
| HttpHelpers.Unquoted | src/util/http-helpers.js:64-68 | one surrounding pair of double quotes is removed; any other text is kept (a lone `"` counts as both ends) |
| HttpHelpers.UnquotedQuoted | src/util/http-helpers.js:64-68 | unquoting a quoted text gives the text back |
| HttpHelpers.SpreadOne | src/util/http-helpers.js:170-173 | spreading an optional one-key object adds or overrides exactly that key |
| HttpHelpers.SpreadHeaders | src/util/http-helpers.js:170 | spreading the headers keeps every key with its last value |
| HttpHelpers.WithDefaults | src/util/http-helpers.js:169-174 | the keys are the headers' plus each default added; an added default has its value, every other key keeps the headers' value |
| HttpHelpers.ComposeRequestHeaders | src/util/http-helpers.js:168-175 | `Accept` and `Content-Type` are added only when given and absent under every letter case, `Cookie` when there are cookies, joined by `; `; every other header is kept |
| HttpHelpers.ContentTypeDefault | src/util/http-helpers.js:172 | without a content type header in any case, `Content-Type` is present iff a content type is given |
| HttpHelpers.ContentTypeKey | src/util/http-helpers.js:172 | `Content-Type` is present after composing iff the headers had it under that exact name, or a content type is given and no header of that name exists in any letter case |
| HttpHelpers.Longest | src/util/http-helpers.js:153-158 | the sort by length and `pop()` pick the longest applicable path with a value, the last of equal length; none iff no path applies with a value |
| HttpHelpers.CookieText | src/util/http-helpers.js:149-162 | a plain cookie is `enc(name)=enc(value)`; a `null` cookie throws reading `byPath` |
| HttpHelpers.ComposeRequestCookies | src/util/http-helpers.js:144-164 | at most one cookie text per cookie, exactly one each when no cookie is an object |
| HttpHelpers.EachCookie | src/util/http-helpers.js:146-162 | one cookie text or error per cookie, in order |
| HttpHelpers.ComposedCookies | src/util/http-helpers.js:144-164 | the cookies compose iff every cookie's text does, and then the result is the present texts in order |
| HttpHelpers.ComposedCookiesThrow | src/util/http-helpers.js:144-164 | a failed composition throws the error of the first cookie whose text throws |
| HttpHelpers.ByPathPicksLongest | src/util/http-helpers.js:150-159 | a by-path cookie sends the unencoded value of an applicable path at least as long as every other applicable one |
| HttpHelpers.HeadHeaders | src/util/http-helpers.js:85-112 | the 200 response's headers have the writer's content type |
| HttpHelpers.SeqBodySnoc | src/util/http-helpers.js:83-94 | each write adds its JSON text and a newline and RS, the first write starting with an RS |
| HttpHelpers.SeqBody | src/util/http-helpers.js:80-100 | no records give an empty body; otherwise the body starts and ends with RS |
| HttpHelpers.SeqRecords | src/util/http-helpers.js:83-94 | the records written so far are empty or end with RS |
| HttpHelpers.JsonSeqWriter.constructor | src/util/http-helpers.js:80-81 | a new writer has sent nothing |
| HttpHelpers.JsonSeqWriter.Write | src/util/http-helpers.js:83-94 | the first write sends the 200 head with `application/json-seq`; every write appends the record's JSON text framed by RS; a record without JSON text makes the response's `write` throw |
| HttpHelpers.JsonSeqWriter.End | src/util/http-helpers.js:95-98 | ending sends 204 when nothing was written, and keeps the body |
| HttpHelpers.ArrayBodySnoc | src/util/http-helpers.js:107-120 | the first write opens the array with `[` and a newline, each later one adds a comma and a newline before its text |
| HttpHelpers.ArrayBody | src/util/http-helpers.js:104-125 | no records give an empty body; otherwise it opens with `[` and a newline, and once ended closes with a newline and `]` |
| HttpHelpers.JsonWriter.constructor | src/util/http-helpers.js:104-105 | a new writer has sent nothing |
| HttpHelpers.JsonWriter.Write | src/util/http-helpers.js:107-120 | the first write sends the 200 head with `application/json`; each record's JSON text is appended to the array |
| HttpHelpers.JsonWriter.End | src/util/http-helpers.js:121-125 | ending sends 204 when nothing was written, else closes the array |
| HttpHelpers.ArrayBodyJoin | src/util/http-helpers.js:107-123 | when every record has a JSON text, the elements are the texts joined by a comma and a newline |
| HttpHelpers.SomeAll | src/util/http-helpers.js:119 | every text present, in order |
| RequestPlugin.NamedValues | src/plugins/request.js:277-284 | the values of one lower-cased name, never more than the pairs |
| RequestPlugin.StrValues | src/plugins/request.js:280-283 | the header texts as string values, in order |
| RequestPlugin.Grouped | src/plugins/request.js:275-287 | the grouped headers have each lower-cased name once |
| RequestPlugin.Appended | src/plugins/request.js:279-284 | one step of the grouping: a new name gets `[v]`, a known one has `v` appended, every other name keeps its list |
| RequestPlugin.HeadersLists | src/plugins/request.js:275-287 | the `forEach` loop builds the grouped headers |
| RequestPlugin.GroupedGet | src/plugins/request.js:275-287 | a lower-cased name is present iff some header has it, and maps to all its values in arrival order |
| RequestPlugin.ElementTexts | src/plugins/request.js:304 | `join` writes `null` and `undefined` as the empty text and every other element as its text |
| RequestPlugin.Joined | src/plugins/request.js:303-304 | each list is joined with `, `, key by key |
| RequestPlugin.HeadersMapGet | src/plugins/request.js:302-306 | `headersMap` has the keys of the lists, each list joined with `, `, each key once |
| RequestPlugin.HeadersMap | src/plugins/request.js:302-306 | `headersMap` has no key twice |
| RequestPlugin.ElementTextsOfStrs | src/plugins/request.js:304 | joining header texts writes them unchanged |
| RequestPlugin.ResponseHeaders | src/plugins/request.js:275-306 | `response.headers` maps every lower-cased name to all its values joined with `, ` in arrival order (with lines 151-153) |
| RequestPlugin.ResponseHeaderMap | src/plugins/request.js:151-153 | `response.headers` has no key twice, and every name that occurs maps to all its values joined by `, ` |
| RequestPlugin.GroupedArrays | src/plugins/request.js:280-283 | every grouped value is a list |
| RequestPlugin.ParseResponseType | src/plugins/request.js:218-223 | `null` iff there is no truthy `content-type`; otherwise the text before its first `;` |
| RequestPlugin.ResponseTypeOk | src/plugins/request.js:218-223 | on a response's headers the content type is text or absent, so parsing it never throws (with line 154) |
| RequestPlugin.IsJson | src/plugins/request.js:227-229 | a JSON type is at least as long as `application/json` |
| RequestPlugin.FirstPart | src/plugins/request.js:221 | the first part of a split is the text before the first separator |
| RequestPlugin.JsonPrefixed | src/plugins/request.js:227-229 | every type starting with `application/json` is JSON, `application/json-seq` among them |
| RequestPlugin.SuffixIsJson | src/plugins/request.js:227-229 | a structured suffix type such as `application/hal+json` is JSON |
| RequestPlugin.JsonAtLength | src/plugins/request.js:228 | a match takes at least the sixteen characters of `application/json` |
| RequestPlugin.ShortIsNotJson | src/plugins/request.js:227-229 | a text shorter than `application/json`, `null` among them, is never JSON |
| RequestPlugin.SliceTo | src/plugins/request.js:201 | `slice(0, n)` is a prefix of length n, counted from the end when n is negative |
| RequestPlugin.ApplyLimit | src/plugins/request.js:194-202 | `undefined` gives the empty text, a `null` limit the whole text, any other limit a prefix of at most that length |
| RequestPlugin.ApplyLimitToJsonAsWritten | src/plugins/request.js:184-192 | a non-JSON type gives `null`; with a limit, a longer text gives `NOT PARSING: too long`, otherwise the parse |
| RequestPlugin.NullLimitNeverParses | src/plugins/request.js:188 | as written, with `limit: null` every non-empty JSON body is reported too long, since `null` compares as 0 |
| RequestPlugin.ApplyLimitToJson | src/plugins/request.js:184-192 | as documented, a `null` limit parses the body; any other limit as written |
| RequestPlugin.LimitToJson | src/plugins/request.js:184-192 | the `AsWritten` edition (the shipped program) applies the limit as written, `Corrected` as documented |
| RequestPlugin.ParsedMeansWholeText | src/plugins/request.js:168-202 | whenever the JSON is parsed, the `text` field holds the whole body |
| RequestPlugin.CharBytes | src/plugins/request.js:310-312 | a character takes one to four UTF-8 bytes, one exactly when it is ASCII |
| RequestPlugin.ByteLength | src/plugins/request.js:310-312 | the UTF-8 length is between the character count and four times it |
| RequestPlugin.ByteLengthAscii | src/plugins/request.js:310-312 | the byte length equals the character count iff every character is ASCII |
| RequestPlugin.ParseIntNat | src/plugins/request.js:320 | `parseInt` of a rendered natural number reads it back |
| RequestPlugin.ParseInt | src/plugins/request.js:320 | `parseInt` gives nothing on the empty text, a non-negative number for a leading digit and a non-positive one for a minus sign and a digit |
| RequestPlugin.DigitPrefix | src/plugins/request.js:320 | the longest run of leading decimal digits |
| RequestPlugin.LengthMatchesExact | src/plugins/request.js:316-321 | a decimal `Content-Length` is accepted iff it is the UTF-8 byte length of the text |
| RequestPlugin.LengthMatches | src/plugins/request.js:316-321 | a missing `Content-Length` expectation, or one that is the body's UTF-8 byte length, is accepted |
| RequestPlugin.Params | src/plugins/request.js:242-245 | the parameters object has each lower-cased name once |
| RequestPlugin.ParamsLowerCase | src/plugins/request.js:244 | every parameter name is lower-case |
| RequestPlugin.ParseSetCookie | src/plugins/request.js:240-252 | a `Set-Cookie` value throws iff its first part has no `=`; otherwise the name is the text before the first `=`, the parameters come from the other parts and the path is the text of `path` |
| RequestPlugin.PlainSetCookie | src/plugins/request.js:240-252 | `name=value` without parameters gives that name, path key `undefined`, not expired, no parameters and the value unquoted |
| RequestPlugin.EntryObject | src/plugins/request.js:248-252 | the entry holds `isExpired`, `params` and `value` |
| RequestPlugin.CookieObject | src/plugins/request.js:254-258 | the cookie is a copy of the entry with the given `byPath` |
| RequestPlugin.AddCookie | src/plugins/request.js:253-258 | one value replaces the cookie of its name, the new entry's path first and the previous `byPath` spread over it; other cookies are kept |
| RequestPlugin.LastWith | src/plugins/request.js:253-258 | the position of the last value with a name |
| RequestPlugin.FirstWith | src/plugins/request.js:255-258 | the position of the first value with a name and path |
| RequestPlugin.CookieLatest | src/plugins/request.js:239-260 | a cookie is present iff some value has its name, and carries the fields of the latest such value |
| RequestPlugin.CookieFirstPerPath | src/plugins/request.js:255-258 | `byPath` has each path once and keeps for each path the first value seen with it |
| RequestPlugin.FirstWithPrefix | src/plugins/request.js:255-258 | the first match in a list is the first match before its last value, if there is one |
| RequestPlugin.ParseAll | src/plugins/request.js:239-241 | parsing all values gives one cookie per value or the first error |
| RequestPlugin.ParseAllThrew | src/plugins/request.js:239-241 | once a prefix throws, the whole list throws with the same error |
| RequestPlugin.Texts | src/plugins/request.js:240 | the text of each element, in order |
| RequestPlugin.ResponseCookies | src/plugins/request.js:233-237 | no `set-cookie` list in any letter case gives `{}` |
| RequestPlugin.CollectCookies | src/plugins/request.js:238-260 | the `forEach` loop builds the cookies object of the values, or the error of the first that throws |
| RequestPlugin.ParseResponseCookies | src/plugins/request.js:233-261 | `parseResponseCookies` is the specified cookies object |
| RequestPlugin.StatusFailures | src/plugins/request.js:208 | one failure iff the status does not match the expected pattern |
| RequestPlugin.TypeFailures | src/plugins/request.js:209-210 | one failure iff an expected type is set and differs from the response type |
| RequestPlugin.LengthFailures | src/plugins/request.js:211-212 | one failure iff the length is checked and does not match |
| RequestPlugin.ValidateResponse | src/plugins/request.js:207-214 | no failures iff the status matches, the type matches when expected and the length matches when checked; the status failure comes first, the length failure last |
| RequestPlugin.Suffixed | src/plugins/request.js:158-159 | each failure gets ` (METHOD url)` appended |
| RequestPlugin.ResponseObject | src/plugins/request.js:161-169 | the response details hold the headers, cookies, status, length, text and JSON |
| RequestPlugin.ResultObject | src/plugins/request.js:171-175 | FAILURE iff there are failures, with the failures, message and response |
| RequestPlugin.ProcessResponse | src/plugins/request.js:148-182 | a bad `Set-Cookie` throws; otherwise FAILURE iff validation fails, the suffixed failures, the message with status, byte length and url, the limited text, the character length and the joined headers |
| RequestPlugin.ProcessResponseDetails | src/plugins/request.js:168-188 | with the edition's JSON limit (as written in the shipped program), the result throws iff parsing the JSON throws, holds the parsed JSON, and `details` holds the limited request body, the request headers and every other response field |
| RequestPlugin.DetailsObject | src/plugins/request.js:176-180 | `{ requestBody, requestHeaders, ...response }` has the two request fields and every other field of the response |
| RequestPlugin.OnFetchError | src/plugins/request.js:130-141 | a network error polls again iff the polling window is still open; otherwise it is a FAILURE naming the error, method and url |
| HalPlugin.ContentType | src/plugins/hal.js:95 | a content type is set iff the JSON body is neither `null` nor `undefined` |
| HalPlugin.RequestHeaders | src/plugins/hal.js:98 | `Accept` is `application/hal+json` unless the headers have one in any letter case; other headers are kept |
| HalPlugin.RequestHeadersAre | src/plugins/hal.js:95-98 | the plugin's headers are the shared `composeRequestHeaders` with the HAL accept type |
| HalPlugin.RequestContentType | src/plugins/hal.js:95-98 | without a content type header, `Content-Type` is present iff there is a JSON body, and is then `application/json` |
| HalPlugin.RequestOptions | src/plugins/hal.js:102 | the options carry the method and headers, the body only when truthy, and never a `jsonBody` |
| HalPlugin.RelationTexts | src/plugins/hal.js:121 | one joined text per relation |
| HalPlugin.Chain | src/plugins/hal.js:124-127 | one client call per relation (one for an empty list, whose `pop` gives `undefined`) |
| HalPlugin.Plain | src/plugins/hal.js:125-141 | the relations before the last are followed with plain `follow` and no request options |
| HalPlugin.Navigate | src/plugins/hal.js:107-128 | the checks, the `pop` and the `reduce` loop give the specified navigation |
| HalPlugin.NavigationOf | src/plugins/hal.js:107-123 | with a truthy `url` the navigation is a direct request; a walk starts at a truthy `base` with at least one relation |
| HalPlugin.UrlIsDirect | src/plugins/hal.js:108-110 | with a URL, navigation is a single request with the item's method |
| HalPlugin.NavigationChecks | src/plugins/hal.js:112-127 | without a URL: no base or no relations throws first, both `follow` and `followAll` next; navigation succeeds iff there is a base, exactly one kind of relations and no `null` relation, and walks from the base with one call per relation |
| HalPlugin.ChainSteps | src/plugins/hal.js:124-127 | every relation but the last is followed plainly; the last with `followAll` when set, carrying the method and body |
| HalPlugin.SingleRelation | src/plugins/hal.js:119-127 | a single relation that is not a list is a one-call walk |
| HalPlugin.FollowError | src/plugins/hal.js:135-138 | a missing relation rejects with `Could not find relation … at` and the representation; any other error with `Error following relation …, details:` |
| HalPlugin.Follow | src/plugins/hal.js:125-141 | a walk without calls ends at the base; a failed walk rejects with one of the plugin's `hal: ` errors |
| HalPlugin.Run | src/plugins/hal.js:104-141 | a direct navigation is the one request; a walk without relations ends at the base; a failed walk rejects with a `hal: ` error |
| HalPlugin.FollowSnoc | src/plugins/hal.js:125-131 | the chain is built left to right: one more relation is one more call from what the shorter walk found |
| HalPlugin.ValidateResponse | src/plugins/hal.js:184-189 | no failures iff the status matches and the type matches when expected; the status failure comes first |
| HalPlugin.RequestBodyAlwaysMissing | src/plugins/hal.js:175 | as written, `details.requestBody` reads a `jsonBody` the options never have, so it is always `undefined` (with line 102) |
| HalPlugin.RequestBodyShown | src/plugins/hal.js:175 | with the correction, `details` shows the body that was sent (with line 102) |
| HalPlugin.Details | src/plugins/hal.js:162-178 | the details hold the request body and headers, then the response headers, status and data |
| HalPlugin.HalResult | src/plugins/hal.js:169-179 | FAILURE iff there are failures; the status as message; the data under the key `Array.isArray` chooses; the details last |
| HalPlugin.RepresentationKeys | src/plugins/hal.js:173 | a list of data is under `representations` only, anything else under `representation` only |
| HalPlugin.Result | src/plugins/hal.js:148-180 | throws iff the response is missing; otherwise the suffixed failures of the status and type checks, the status as message and the data |
| HalPlugin.ProcessResult | src/plugins/hal.js:148-180 | throws iff the response is missing; `details.requestBody` is the options' `jsonBody` as written (the shipped program) and the body the request carried corrected |
| HalPlugin.ProcessResultBodies | src/plugins/hal.js:102-180 | on the options `run` builds, the result as written shows no request body and the corrected one shows a truthy body; outcome, failures, message and data agree |
| LoadPlugin.CreatePayload | src/plugins/load.js:181-198 | a truthy `jsonBody` wins and is sent as its JSON text typed `application/json`; otherwise a truthy `randomBody` is sent as base64 typed `text/plain`; otherwise `body` is sent untyped; a content type is set iff one of the two is truthy |
| LoadPlugin.RequestHeaders | src/plugins/load.js:271-278 | `Accept` and `Content-Type` are added only when given and absent in every letter case; every other header is kept |
| LoadPlugin.PayloadContentType | src/plugins/load.js:125-126 | without a content type header, the request declares one iff it has a JSON or random body, `application/json` for JSON |
| LoadPlugin.ComposeCookies | src/plugins/load.js:263-267 | `null` iff there are no cookies; otherwise one `name=value` per cookie in key order |
| LoadPlugin.CookieNameBack | src/plugins/load.js:265 | a cookie name without `=` is the text before the first `=` of its pair |
| LoadPlugin.Concurrency | src/plugins/load.js:141-144 | the minimum of the two parsed settings, `NaN` when either does not parse |
| LoadPlugin.ConcurrencyClamp | src/plugins/load.js:141-144 | with numeric settings the concurrency is `min(maxRequests, concurrency)` |
| LoadPlugin.Bump | src/plugins/load.js:217-225 | counting a violation under key k adds one to k, creating it at 1 when absent, and leaves every other key |
| LoadPlugin.Violations | src/plugins/load.js:207-225 | the counters have each key once and hold numbers |
| LoadPlugin.ViolationsCount | src/plugins/load.js:217-225 | each counter holds the number of violating responses with its key, and is present iff there is one |
| LoadPlugin.ViolationsEmpty | src/plugins/load.js:217-225 | the counters stay `{}` iff no response violated anything |
| LoadPlugin.TypeKey | src/plugins/load.js:213-220 | a result is counted under its content type iff a type is expected and the response's type (found ignoring case) is not strictly equal to it |
| LoadPlugin.StatusKey | src/plugins/load.js:204-227 | a result is counted under its status iff a status is expected and the status does not match it |
| LoadPlugin.TypeKeys | src/plugins/load.js:214-220 | one content-type key per tracked callback |
| LoadPlugin.StatusKeys | src/plugins/load.js:221-227 | one status key per tracked callback |
| LoadPlugin.ViolationsSnoc | src/plugins/load.js:211-228 | one more callback counts its own keys on top of the earlier counters |
| LoadPlugin.NoneCounted | src/plugins/load.js:207-237 | a counter is empty iff none of the tracked results violated its expectation |
| LoadPlugin.NoTypeExpected | src/plugins/load.js:214 | without an expected type no content-type violation is counted |
| LoadPlugin.AnyStatusNoViolation | src/plugins/load.js:204-227 | the pattern `xxx` accepts every status, so nothing is counted |
| LoadPlugin.Tracker.constructor | src/plugins/load.js:202-208 | a new tracker has counted nothing |
| LoadPlugin.Tracker.Track | src/plugins/load.js:211-228 | every callback is counted, one without a result changes no counter, and a result bumps its type and status keys when they are violated |
| LoadPlugin.Tracker.Count | src/plugins/load.js:229 | the number of callbacks so far |
| LoadPlugin.Tracker.Validate | src/plugins/load.js:230-253 | the failures are those of the validation, and there are none iff the count matches, the rate exceeds a set minimum, no result violated an expectation and the error portion is accepted |
| LoadPlugin.ErrorPortion | src/plugins/load.js:242 | errors over completed requests; `0/0` is `NaN` and a positive count over 0 is `Infinity` |
| LoadPlugin.PortionResult | src/plugins/load.js:243-245 | the portion is checked only against a positive tolerance, and fails unless below it |
| LoadPlugin.ErrorsResult | src/plugins/load.js:246-248 | once the portion reaches the tolerance, any error code fails |
| LoadPlugin.NumResult | src/plugins/load.js:232 | fails iff the completed count is not loosely equal to `maxRequests` |
| LoadPlugin.RpsResult | src/plugins/load.js:233-235 | with an expected rate, fails unless the measured rate exceeds it |
| LoadPlugin.CountersResult | src/plugins/load.js:236-237 | a violation counter fails iff it is not `{}` |
| LoadPlugin.Validation | src/plugins/load.js:250-252 | at most the six checks, in the order errors portion, errors, count, rate, status, type |
| LoadPlugin.ValidationPasses | src/plugins/load.js:230-253 | validation passes iff the count matches, the rate exceeds a set minimum, both counters are empty and the error portion is accepted |
| LoadPlugin.DefaultToleratesNoErrors | src/plugins/load.js:242-248 | with the default tolerance 0, a run that completed a request passes only without error codes |
| LoadPlugin.NothingDoneFails | src/plugins/load.js:242-245 | with a positive tolerance, a run with no completed request fails first on the errors portion |
| LoadPlugin.LoadResult | src/plugins/load.js:161-168 | FAILURE iff there are failures, the failures, `Completed <done>/<maxRequests>` and the details |
| AssignPlugin.Description | src/plugins/assign.js:12-15 | `assign <value> to $result.value` when the value's text is truthy, else `copy <properties> to $result` with `{}` by default |
| AssignPlugin.Pre | src/plugins/assign.js:11-21 | `pre` resolves with an object |
| AssignPlugin.PreLookup | src/plugins/assign.js:16-20 | the item's own keys, its description and context among them, win over the generated description and the given context |
| AssignPlugin.Run | src/plugins/assign.js:44-48 | `run` always resolves with an object |
| AssignPlugin.RunLookup | src/plugins/assign.js:44-48 | the result has outcome SUCCESS and the item's value unless a property of the same name overrides them; every property is copied |
| AssignPlugin.RunCopiesProperties | src/plugins/assign.js:44-48 | a property named `OUTCOME` is copied beside the real outcome, since keys are case-sensitive |
| CsvReporter.Build | src/reporters/csv.js:57-84 | the node keeps the result's subject and outcome; `failures` is attached iff its length is truthy and `errors` iff it is truthy; one child per nested result; a missing result, subject or failures list, or a `nested` that is not a list, throws |
| CsvReporter.BuildAll | src/reporters/csv.js:80-82 | one child node per nested result, in order |
| CsvReporter.BuildAllElems | src/reporters/csv.js:80-82 | the nested results build iff each does, and node i is the node of result i |
| CsvReporter.BuildAllFirstThrow | src/reporters/csv.js:80-82 | a failed `map` throws the error of the first nested result that throws |
| CsvReporter.BuildChildren | src/reporters/csv.js:57-84 | with a nested list, the node builds iff every nested result does, and child i is the node of nested result i |
| CsvReporter.BuildReport | src/reporters/csv.js:57-84 | `buildReport(result)` is the list holding the one top node, and throws iff building it throws |
| CsvReporter.Summarize | src/reporters/csv.js:88-100 | a summarized node gains its counters and keeps everything else, with as many children |
| CsvReporter.SummarizeAll | src/reporters/csv.js:90 | every child is summarized, in order |
| CsvReporter.SumFromShift | src/reporters/csv.js:94-98 | the `reduce` from the node's own count is that count plus the children's sum |
| CsvReporter.SummarizeCounts | src/reporters/csv.js:88-100 | after the post-order summation each counter is the number of nodes of the subtree whose outcome lower-cases to that outcome |
| CsvReporter.SummarizeAllCounts | src/reporters/csv.js:90-98 | the children's counters sum to the counts of all their subtrees |
| CsvReporter.OwnOnce | src/reporters/csv.js:98 | an outcome name matches exactly one of the four counters |
| CsvReporter.CountsSumToSize | src/reporters/csv.js:88-100 | when every outcome is known, the four counters of a node add up to its subtree size |
| CsvReporter.SumAppend | src/reporters/csv.js:46-51 | one more suite adds its counter to the sum |
| CsvReporter.AsCsv | src/reporters/csv.js:41-53 | the `+=` loop writes the header line and the four counters summed over the suites, in the order failures, successes, skipped, errors |
| CsvReporter.SummarySums | src/reporters/csv.js:28-53 | the summary CSV counts, per outcome, the nodes of every top node's subtree |
| JunitReporter.Marker | src/reporters/junit.js:72-88 | a test case whose outcome is ERROR or FAILURE gets one element named by the lower-cased outcome, without children or an outcome; a suite or a passing case gets none |
| JunitReporter.SecondsOf | src/reporters/junit.js:66 | `durationMs / 1000`: a number of milliseconds gives that many thousandths of seconds; `undefined` or an object gives NaN |
| JunitReporter.Head | src/reporters/junit.js:60-70 | the element is a `testsuite` or a `testcase`, with the time in seconds and no children yet |
| JunitReporter.HeadAttributes | src/reporters/junit.js:60-70 | `testsuite` iff the subject's type is `suite`; the name, file name and outcome attributes come from the result, the time is its duration in seconds |
| JunitReporter.Collect | src/reporters/junit.js:49-93 | the element is `testsuite` iff the subject's type is `suite`; the marker comes first among the children, then one child per nested result; a missing result or subject, or a `nested` that is not a list, throws |
| JunitReporter.CollectAll | src/reporters/junit.js:89-91 | one element per nested result, in order |
| JunitReporter.CollectAllElems | src/reporters/junit.js:89-91 | the nested results collect iff each does, and element i is the element of result i |
| JunitReporter.CollectAllFirstThrow | src/reporters/junit.js:89-91 | a failed `map` throws the error of the first nested result that throws |
| JunitReporter.CollectChildren | src/reporters/junit.js:49-93 | with a nested list, the element collects iff its children do, and its children are the marker followed by theirs |
| JunitReporter.CollectChildAt | src/reporters/junit.js:49-93 | child i after the marker is the element of nested result i |
| JunitReporter.CountAttribute | src/reporters/junit.js:35-44 | after summarizing, `errors`/`error`, `failures`/`failure`, `skipped` and `success` hold their counters, `tests` their sum, and every other attribute is unchanged |
| JunitReporter.CountsWritten | src/reporters/junit.js:35-44 | the four counters, their sum as `tests`, and `failures`/`errors` as copies are written |
| JunitReporter.OthersKept | src/reporters/junit.js:35-44 | writing the counters leaves every other attribute as it was |
| JunitReporter.Summarize | src/reporters/junit.js:31-45 | a summarized element keeps its name, text and number of children |
| JunitReporter.SummarizeAll | src/reporters/junit.js:33 | every child is summarized, in order |
| JunitReporter.SumFromShift | src/reporters/junit.js:37-39 | the `reduce` from the element's own count is that count plus the children's sum |
| JunitReporter.SummarizeCounts | src/reporters/junit.js:31-45 | after the post-order summation each counter is the number of elements of the subtree whose `outcome` attribute is that outcome, and `tests` is their sum |
| JunitReporter.SummarizeCount | src/reporters/junit.js:35-40 | one counter before it is written is the subtree's count |
| JunitReporter.SummarizeAllCounts | src/reporters/junit.js:33-39 | the children's counters sum to the counts of all their subtrees |
| JunitReporter.MarkerCountsNothing | src/reporters/junit.js:78-86 | an `error`/`failure` element has no outcome and adds nothing to any counter |
| Navigation.StringRoundTrip | frontend/lib/util/navigation.js:18-22 | the string converter decodes its encoding of a string back to the string |
| Navigation.JsonEncode | frontend/lib/util/navigation.js:23-27 | `JSON.stringify` gives no parameter exactly for `undefined`, and otherwise a text of printable characters |
| Navigation.JsonDecode | frontend/lib/util/navigation.js:25 | the JSON converter's decode is `JSON.parse` of the parameter |
| Navigation.SelectConverter | frontend/lib/util/navigation.js:121-125 | a converter object is used as it is; a name selects the converter of that name with its defaults (the string set with separator `_`), and any other name throws |
| Navigation.JsonMapEncode | frontend/lib/util/navigation.js:29 | an empty map encodes as `null`, any other as its JSON text |
| Navigation.JsonMapDecode | frontend/lib/util/navigation.js:30 | a missing or empty parameter gives the fallback, any other is parsed |
| Navigation.JsonMapEmpty | frontend/lib/util/navigation.js:28-32 | an empty map is not written to the URL, and reading it back gives the fallback |
| Navigation.StringSetEncode | frontend/lib/util/navigation.js:34-37 | `null` without keys, else the keys joined by the separator |
| Navigation.StringSetDecode | frontend/lib/util/navigation.js:38-40 | a missing or empty parameter gives the fallback; otherwise the keys are exactly the parts of the split, all `true` |
| Navigation.StringSetRoundTrip | frontend/lib/util/navigation.js:34-40 | when no key contains the separator and the encoding is not empty, decoding the encoding gives exactly the set's keys, all `true` |
| Navigation.HexValue | frontend/lib/util/navigation.js:140 | `parseInt(c, 16)` of a digit is below 16 |
| Navigation.EvenPadded | frontend/lib/util/navigation.js:138 | an odd-length text gets a leading `0`, so the length is even and the text stays hexadecimal |
| Navigation.PairBytes | frontend/lib/util/navigation.js:139-141 | one byte per digit pair |
| Navigation.Base64OfHex | frontend/lib/util/navigation.js:137-143 | `base64` throws exactly for the empty text (`match` gives `null`); otherwise it is a base64 text that `atob` decodes to the bytes of the digit pairs |
| Navigation.HexText | frontend/lib/util/navigation.js:131 | `toString(16)` of a byte has two digits exactly from 16 on, else one |
| Navigation.HexOf | frontend/lib/util/navigation.js:130-133 | two hexadecimal digits per byte |
| Navigation.Hex | frontend/lib/util/navigation.js:127-135 | the loop writes each decoded byte as two zero-padded digits and upper-cases them, giving an even-length hexadecimal text; `atob` failing throws |
| Navigation.HexOfPrefix | frontend/lib/util/navigation.js:130-133 | one more loop step appends that byte's two digits |
| Navigation.HexUpper | frontend/lib/util/navigation.js:127-135 | the text `hex` returns for any decoded bytes is hexadecimal, two digits per byte |
| Navigation.DigitBack | frontend/lib/util/navigation.js:131-140 | a digit read and written back is the same digit up to case |
| Navigation.PairBack | frontend/lib/util/navigation.js:131-140 | a digit pair read as one byte and written back gives the pair, up to case |
| Navigation.HexOfPairs | frontend/lib/util/navigation.js:130-140 | writing the bytes of the digit pairs gives the digits back, up to case |
| Navigation.HexBase64RoundTrip | frontend/lib/util/navigation.js:127-143 | for a non-empty hexadecimal text, `hex(base64(h))` is h padded to even length and upper-cased |
| Base64.SextetRoundTrip | frontend/lib/util/navigation.js:139 | every sextet of `btoa`'s alphabet reads back as itself |
| Base64.Raw | frontend/lib/util/navigation.js:139 | the unpadded characters are all of the alphabet, and never one more than a multiple of four |
| Base64.Encode | frontend/lib/util/navigation.js:139 | `btoa` writes four characters per started group of three bytes |
| Base64.ForgivingDecode | frontend/lib/util/navigation.js:128 | `atob` ignores white space and optional padding, and fails exactly on a length one more than a multiple of four or a character outside the alphabet |
| Base64.DecodeRaw | frontend/lib/util/navigation.js:128-139 | decoding the unpadded characters gives the bytes back |
| Base64.DecodeEncode | frontend/lib/util/navigation.js:128-139 | `atob(btoa(x))` is x for every byte sequence |
| Format.Round | frontend/lib/util/format.js:9-14 | `Math.round` gives the nearest integer, a half rounded up |
| Format.DurationUnits | frontend/lib/util/format.js:7-15 | the label is the rounded duration in its unit followed by the unit: `ms` below 1000, `s` below 60000, else `min` |
| Format.DurationLabel | frontend/lib/util/format.js:7-15 | `durationLabel` is the rounded scaled duration followed by the unit its unrounded value falls in |
| Format.BoundaryLabels | frontend/lib/util/format.js:8-14 | the unit is chosen before rounding, so 999.6 shows `1000ms` and 59999 shows `60s` |
| JsonSeqStream.Processor.constructor | frontend/application/widgets/results-activity/results-activity.js:67-70 | a new processor has an empty buffer and has delivered nothing |
| JsonSeqStream.Processor.Destroy | frontend/application/widgets/results-activity/results-activity.js:73 | the widget's end of life sets the flag and changes nothing else |
| JsonSeqStream.Processor.ProcessChunk | frontend/application/widgets/results-activity/results-activity.js:72-85 | after destruction a chunk is dropped and reading stops; otherwise the chunk is appended, the callback gets the non-empty parts except the last while the stream is open, which stays buffered, and reading goes on iff the chunk is not done |
| JsonSeqStream.Processor.Advance | frontend/application/widgets/metrics-activity/metrics-activity.js:66-72 | appending the chunk, splitting on RS and handing the non-empty parts to the callback |
| JsonSeqStream.Processor.ReadAll | frontend/application/widgets/results-activity/results-activity.js:65-87 | reading a whole response calls the callback once per chunk, in order, and the parts delivered are exactly the non-empty RS-separated parts of the whole text; a destroyed processor delivers nothing |
| JsonSeqStream.StepConsistent | frontend/application/widgets/results-activity/results-activity.js:75-81 | one processed chunk keeps the delivered parts equal to the non-empty parts of everything received but the buffered last one |
| JsonSeqStream.Batch | frontend/application/widgets/results-activity/results-activity.js:75-81 | the records handed on from one chunk are non-empty and hold no RS |
| JsonSeqStream.TextsSnoc | frontend/application/widgets/results-activity/results-activity.js:75 | one more chunk adds its text to what was received |
| JsonSeqStream.FlattenSnoc | frontend/application/widgets/results-activity/results-activity.js:81 | one more callback call adds its parts |
| JsonSeqStream.AppendLine | src/util/http-helpers.js:92-93 | an RS-free line followed by RS becomes one more part before an empty last part |
| JsonSeqStream.AppendRecord | src/util/http-helpers.js:83-94 | one written record adds its text and newline as one more non-empty part, and the last part stays empty |
| JsonSeqStream.AppendLineParts | src/util/http-helpers.js:92-93 | one more RS-terminated non-empty line is one more non-empty part |
| JsonSeqStream.NewlineNoRS | src/util/http-helpers.js:93 | the newline adds no RS |
| JsonSeqStream.SeqBodyParts | src/util/http-helpers.js:80-100 | the non-empty RS-separated parts of a written body are the records' texts, each with its newline |
| JsonSeqStream.JsonSeqRoundTrip | frontend/application/widgets/results-activity/results-activity.js:65-87 | whatever the chunking, reading a body the server's JSON-sequence writer wrote from values delivers each value's JSON text with its newline, in order |
| CurrentJob.ModifiedFilter.constructor | frontend/application/widgets/current-job-activity/current-job-activity.js:94-95 | the wrapper starts from the encoding `'null'` and has published nothing |
| CurrentJob.ModifiedFilter.Publish | frontend/application/widgets/current-job-activity/current-job-activity.js:96-101 | the publisher is called iff the value's JSON encoding differs from the previous one, which it then becomes; a suppressed call changes nothing |
| CurrentJob.ForwardedChanges | frontend/application/widgets/current-job-activity/current-job-activity.js:94-101 | consecutive published values have different encodings, the first is never `null`, and the last one's encoding is the one remembered |
| CurrentJob.Forwarded | frontend/application/widgets/current-job-activity/current-job-activity.js:94-101 | the published values are at most as many as the calls, and each is one of the values published to the wrapper |
| CurrentJob.RepeatSuppressed | frontend/application/widgets/current-job-activity/current-job-activity.js:98-100 | the same value twice in a row is published at most once |
| CurrentJob.LeadingNullSuppressed | frontend/application/widgets/current-job-activity/current-job-activity.js:95-98 | a leading `null` is never published and leaves the state as it was |
| AsyncHelpers.Proxy.constructor | src/util/async-helpers.js:13-16 | a new proxy starts not preempted, with its outer promise unsettled |
| Outcomes.Parse | src/outcomes.js:18-30 | a string read as an outcome is exactly that outcome's name |
| Outcomes.SeverityInjective | src/outcomes.js:32 | two outcomes with the same index in the severity list are the same outcome |
| MetricHelpers.PushedTwice | src/util/metric-helpers.js:24-31 | two pushes into one category append both entries, in order |

## Left out

- Transport and I/O are not part of this model:
  - the REST service, the command line and the HTML, metric and stdout reporters;
  - the file writes and `jsonToXml` output of the CSV and JUnit reporters. Their reports are value trees here.
- Module loading and the file system are given inputs:
  - `load`/`require.resolve` in the loader;
  - the plugin directory listing in the plugin loader;
  - the resolve helpers.
- The network is a parameter:
  - the fetch of the request and hal plugins (the response's status, header pairs and text);
  - the HAL client's link resolution;
  - the load generator of the load plugin. Its completed requests are `Track` calls, and its final summary is an argument of `Validate`.
- Timers and clocks are explicit:
  - `delay` and the progress timer's `setInterval` (ticks are `Update` calls);
  - `hrtime` durations and `Date` timestamps (start and finish times are parameters);
  - cookie expiry dates, which are not modelled.
- JavaScript evaluation is a parameter: `new Function` in `interpret` and loose `==` in `toEqual`. The `JSON.stringify` of `toDeepEqual` is not a parameter: it is the model's own `Values.Json`, which writes an `Error` as `{}`. Also parameters: `parseFloat`/`toFixed` in `toBeAtMost`/`toBeAtLeast`, `JSON.parse`, `randomBytes`, and the number rendering of non-integer numbers.
- Numbers are integers, except progress fractions, which are reals. Floating-point rounding is not modelled.
- String lengths count characters, not UTF-16 code units. The UTF-8 byte length is computed from code points.
- Object keys keep insertion order. JavaScript's ascending enumeration order for integer-like keys is not modelled.
- The frontend stream reader receives chunks already decoded by `TextDecoder`. It hands each record's text to the callback; the `JSON.parse` of each part is not modelled.
- Frontend plumbing is not part of this model:
  - the event bus, `publisherForFeature`, `handlerFor`, `parameterName` and the refresh loops;
  - the bit-set and number converters' `BitSet` and `parseFloat`. Only their hex/base64 transcoding is modelled.
- `destroyed` is the widget's flag, set through `Destroy`. Which event sets it is not modelled.
- Navigation.StringSetRoundTrip: the round trip is proved for one-character separators, which covers the source's `_`, and for keys that do not contain the separator.
- The load plugin's `expectedRps` is a number. An unset one (`null`) is written 0, which is falsy in the same way.
- The tracker's `results()` accessor is the `LoadPlugin.Tracker` class's fields `doneCount`, `statusViolations` and `typeViolations`, read directly.
- `recordStreamWriter` and `jsonValue` of the HTTP helpers serve the REST service and are not part of this model. `recordStreamWriter` chooses a writer from the request's `Accept` header, and both writers are modelled.
- MetricHelpers.PublishSpec: when both `metricData` and the group's `metrics` are missing, it does not say which of the two TypeErrors is thrown, only that the call throws.
- `metricsPublish` calls `jobState.metrics()`, which the state hub does not define. The metric groups are therefore an explicit list, and the hub's `notify` ignores METRIC.
- Recursion through suites carries a `fuel` bound that stands for the JavaScript call stack. At fuel 0 the runner and the loader give the `RangeError` of an exhausted stack; no real depth limit is modelled.
- Runner.SuiteRunSpec: unreached children are skipped through `runner.skip` and enter the summary as promises that are never awaited. The model records their results in child order before the suite's own result, and the microtask interleaving of their notifications is not modelled.
- Runner.SuiteRunSpec: the PROGRESS handler of a running suite finds the reporting child by its `$id`; the model relays by the position of the running child, which is the same when the children's `$id`s are distinct. Reports that duplicate `$id`s would also send are not modelled, nor the progress timer's ticks (`setInterval`) or the load and delay plugins' reports, which come only from ticks.
- Runner.SuiteProgressMarks: the whole sequence of notifications is stated for a suite that runs inside no other suite and whose children are not suites. For nested suites each step is stated: every resolved child is followed by its suite's report and the relays of the enclosing suites (`ChildrenStep`, `ProgressChain`, `ProgressChainRelays`).
- TypeError messages are approximations of V8's wording, for example "of undefined" where the value read is `null`, or "is not a function" where the receiver is missing. The model keeps where a TypeError is thrown and which throw comes first, not the exact text.
- The request plugin's `run` is modelled only for its network-failure branch, `OnFetchError`, and for `ProcessResponse`. The polling loop's retry timing and the fetch call itself are I/O.
- The load plugin's `run` is modelled only for its preparation: payload, headers, cookies and the concurrency clamp. Its orchestration of the load generator and the progress probe is I/O.
- `loadScenarios` rejects with the first rejection in input order. JavaScript's `Promise.all` rejects with the first one in time, which depends on I/O timing.
- Strings.Lower: `Lower` and `LowerChar` fold only the ASCII letters A to Z. `toLowerCase` also folds other Unicode letters, which header names and outcome names do not use.
- JunitReporter.SecondsOf: `durationMs / 1000` on a string or an array is NaN here, whereas JavaScript first converts it to a primitive and then to a number (a numeric string gives its number, `[]` gives 0, a one-element array its element's number). The runner always stores a number.
- JunitReporter.Head: the `time` attribute is a field of `Element` beside the other attributes. Its position, second in `{ name, time, fileName, outcome }`, is not part of the attribute list.
- Loader.ChildrenSpec: a suite's `pre` runs its children through `Promise.all` and rejects with the first rejection in input order. JavaScript rejects with the first one in time, which depends on I/O timing.
- Object lookups see own keys only. `plugins[item.type]` in the plugin loader and `resultsById[item.$id]` in the result helpers would also find `Object.prototype` members such as `constructor`; here such a type or id is simply absent.
- Values.StrictEquals: objects, arrays and errors have no identity in the model, so `===` between two of them is always false. So `toBe` of an object against the same object is a failure here.
- The trivial plugins `output`, `skip`, `debug`, `include` and `delay`, and the `expect` plugin's RegExp matching, are not part of this model. So are the `oauth2-client` and `mqtt-publish` plugins.

## Findings

| source | as written | input that shows it | evidently intended | confidence | as-written member | corrected member |
|---|---|---|---|---|---|---|
| src/util/item-helpers.js:133-135 | `isValidIdentifier` tests an unanchored pattern, so any key containing a letter or `_` is declared as a constant in the generated function | a context with the key `a-b`: the generated `const a-b = this.a-b` is a syntax error, so every expression of that item throws | only keys that are whole identifiers are declared, and the expression is evaluated | not executed | ItemHelpers.InterpretAsWrittenRejectsDashedKey | ItemHelpers.Interpret |
| src/plugins/suite.js:103-105 | the failure and error lines destructure `name` from the child's result, which has no top-level `name` (it is in `subject`) | a suite whose child `login` fails: the line reads `item 0 (undefined) failed` | the line names the child, `item 0 (login) failed` | not executed | Runner.SummaryNamesUndefined | Runner.SummaryNamesSubject |
| src/services/state.js:407 | `handleResult` deletes `progress[result.$id]`, but a runner result carries `$id` only in `subject` | a PROGRESS for item 5 followed by its RESULT: the progress entry of item 5 is still present | the finished item's progress entry is removed | not executed | State.ProgressSurvivesResult | State.ResultClearsSubject |
| src/plugins/request.js:188 | `text.length > item.limit` compares with `null` as 0 | a JSON response `{}` with `limit: null`: the JSON is reported as `NOT PARSING: too long` | `null` means no limit, as the plugin's documentation says, so the body is parsed | not executed | RequestPlugin.NullLimitNeverParses | RequestPlugin.ApplyLimitToJson |
| src/plugins/hal.js:175 | `details.requestBody` reads `requestOptions.jsonBody`, but the options object built at line 102 holds the body under `body` | any hal item with a `jsonBody`: `details.requestBody` is undefined | the request body sent is shown | not executed | HalPlugin.RequestBodyAlwaysMissing | HalPlugin.RequestBodyShown |
| src/plugins/suite.js:79 | the default `stopAfter = outcomes.ERROR` reads `ERROR` from the imported `outcomes`, which is the severity array, so the default is `undefined` and `shouldCancel` is always false | a suite without `stopAfter` whose first child ends ERROR: the second child still runs | as the parameter's documentation says, a suite stops after a child with outcome ERROR or worse | not executed | Runner.DefaultNeverStops | Runner.DefaultStopsAfterError |
