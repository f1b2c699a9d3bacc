/** The runner: it runs a job's items one after another, turning each into a result (the base
    result overlaid by what the item's plugin returns), records every result under the item's
    name in `$results`, tells the job about it, and ends the job with one META notification. The
    built-in suite plugin's `run` and `skip` are modelled here as well, since they call back into
    the runner for every child. */
module Runner {
  import opened Strings
  import opened Values
  import opened Editions
  import Outcomes
  import ItemHelpers
  import opened PluginLoader
  import AssignPlugin
  import State
  import ProgressHelpers

  /** What `measure()` gives: the start time, and the duration `ms()` reports. */
  datatype Measurement = Measurement(startTime: string, ms: int)

  /** The plugin registry; the expression evaluator behind `interpret`; the edition of the
      source the runner follows (of `interpret` and of the suite's summary); the clock, the
      measurement of the n-th handler invocation; and when the job is cancelled. The CANCEL
      notification sets a flag that only `runner.run` reads, and it is never cleared, so what
      decides a run is only which calls of `run` come after it: the notification arrives before
      the `run` call numbered `cancelAt` (counting from 0, suite children included), and never
      when fewer calls are made. */
  datatype Env = Env(registry: map<string, Plugin>, eval: ItemHelpers.Evaluator, edition: Edition,
                     clock: nat -> Measurement, cancelAt: nat)

  /** How `:key` expressions are interpreted in this environment. */
  function Interp(env: Env): ItemHelpers.Interpreter
  {
    ItemHelpers.Interpreter(env.eval, env.edition)
  }

  /** How a call of a type handler ends: a promise that resolves or rejects, or a synchronous throw
      before any promise exists. */
  datatype Settled = Done(value: Value) | Rejected(reason: Value) | ThrownSync(error: Value)

  /** A notification the runner sends to its job: a kind with its payload, or a PROGRESS report
      `{ $id, progress }`, whose fractional progress is kept as a real. */
  datatype Notice = Notice(kind: string, payload: Value) | Progress(report: ProgressHelpers.ProgressReport)

  /** A suite that is running one of its children: its `$id`, the position of the child it runs
      and the number of children after that one. Its PROGRESS subscription relays the child's
      progress as its own. */
  datatype Frame = Frame(id: Value, index: nat, following: nat)

  /** The number of the suite's children. */
  function Total(f: Frame): nat
  {
    f.index + 1 + f.following
  }

  /** What running items changes: `$results`, the notifications sent, the number of handler
      invocations measured so far, the number of `runner.run` calls made so far, and the suites
      whose children are running, outermost first. */
  datatype Book = Book(results: seq<Prop>, sent: seq<Notice>, calls: nat, runs: nat, suites: seq<Frame>)

  const FileNameError := Error("TypeError: item.context.$fileName.split is not a function")
  const EnabledError := Error("TypeError: Cannot read properties of undefined (reading 'enabled')")
  const ItemsError := Error("TypeError: items.map is not a function")
  const StopAfterError := Error("TypeError: Cannot read properties of undefined (reading 'stopAfter')")
  const CallStackExceeded := Error("RangeError: Maximum call stack size exceeded")

  /** A promise stored where a result was expected: an object without own enumerable properties. */
  const Pending := Obj([])

  function OutcomeValue(o: Outcomes.Outcome): Value
  {
    Str(Outcomes.Name(o))
  }

  // ---------------------------------------------------------------------------------------------
  // The base result

  /** `parts.slice(-3)` */
  function LastThree(parts: seq<string>): (r: seq<string>)
    ensures |r| == if |parts| < 3 then |parts| else 3
    ensures r == parts[|parts| - |r|..]
  {
    if |parts| <= 3 then parts else parts[|parts| - 3..]
  }

  /** The last three segments of the item's file name. */
  function SourceFile(fileName: string): string
  {
    Join(LastThree(Split(fileName, "/")), "/")
  }

  /** The role a result names: the context's when truthy, else `test`. */
  function Role(context: Value): Value
  {
    if Truthy(Field(context, "role")) then Field(context, "role") else Str("test")
  }

  /** The `subject` of a result: which item it is about. */
  function Subject(item: Value, fileName: string): (r: Value)
    ensures r.Obj? && UniqueKeys(r.props)
    ensures Field(r, "$id") == Field(item, "$id") && Field(r, "name") == Field(item, "name")
    ensures Field(r, "role") == Role(Field(item, "context")) && Field(r, "type") == Field(item, "type")
    ensures Field(r, "sourceFile") == Str(SourceFile(fileName))
  {
    SubjectObject(Field(item, "$id"), Field(item, "name"), Field(item, "description"),
                  Role(Field(item, "context")), Str(SourceFile(fileName)), Field(item, "type"))
  }

  function SubjectObject(id: Value, name: Value, description: Value, role: Value, sourceFile: Value, kind: Value)
    : (r: Value)
    ensures r.Obj? && UniqueKeys(r.props)
    ensures Field(r, "$id") == id && Field(r, "name") == name && Field(r, "description") == description
    ensures Field(r, "role") == role && Field(r, "sourceFile") == sourceFile && Field(r, "type") == kind
  {
    var ps := [Prop("$id", id), Prop("name", name), Prop("description", description), Prop("role", role),
               Prop("sourceFile", sourceFile), Prop("type", kind)];
    GetAt(ps, 0); GetAt(ps, 1); GetAt(ps, 2); GetAt(ps, 3); GetAt(ps, 4); GetAt(ps, 5);
    Obj(ps)
  }

  /** `baseResult(item, outcome, measurement)`: the subject, the outcome, the times, no failures,
      no errors and the lower-case outcome as message. A file name that is not a string throws. */
  function BaseResult(item: Value, outcome: Outcomes.Outcome, m: Measurement): (r: Try<Value>)
    ensures r.Ok? <==> Field(Field(item, "context"), "$fileName").Str?
    ensures r.Ok? ==> r.value.Obj? && UniqueKeys(r.value.props)
    ensures r.Ok? ==> Field(r.value, "subject") == Subject(item, Field(Field(item, "context"), "$fileName").s)
    ensures r.Ok? ==> Field(r.value, "outcome") == OutcomeValue(outcome) &&
                      Field(r.value, "message") == Str(Outcomes.LowerName(outcome))
    ensures r.Ok? ==> Field(r.value, "failures") == Arr([]) && Field(r.value, "errors") == Arr([])
  {
    var fileName := Field(Field(item, "context"), "$fileName");
    if !fileName.Str? then Threw(FileNameError)
    else Ok(BaseObject(Subject(item, fileName.s), OutcomeValue(outcome), Str(m.startTime), Num(m.ms),
                       Str(Outcomes.LowerName(outcome))))
  }

  function BaseObject(subject: Value, outcome: Value, startTime: Value, durationMs: Value, message: Value)
    : (r: Value)
    ensures r.Obj? && UniqueKeys(r.props)
    ensures Field(r, "subject") == subject && Field(r, "outcome") == outcome && Field(r, "message") == message
    ensures Field(r, "startTime") == startTime && Field(r, "durationMs") == durationMs
    ensures Field(r, "failures") == Arr([]) && Field(r, "errors") == Arr([])
  {
    var ps := [Prop("subject", subject), Prop("outcome", outcome), Prop("startTime", startTime),
               Prop("durationMs", durationMs), Prop("failures", Arr([])), Prop("errors", Arr([])),
               Prop("message", message)];
    GetAt(ps, 0); GetAt(ps, 1); GetAt(ps, 2); GetAt(ps, 3); GetAt(ps, 4); GetAt(ps, 5); GetAt(ps, 6);
    Obj(ps)
  }

  /** A file name of at most three segments is kept whole. */
  lemma SourceFileShort(fileName: string)
    requires |Split(fileName, "/")| <= 3
    ensures SourceFile(fileName) == fileName
  {
    JoinSplit(fileName, '/');
  }

  // ---------------------------------------------------------------------------------------------
  // One item

  /** `{ ...it.context, $results }` */
  function ResultsContext(context: Value, results: seq<Prop>): Value
  {
    Obj(Put(Assign([], SpreadProps(context)), "$results", Obj(results)))
  }

  /** The plugin's `runProps` applied to the item, the identity when the plugin has none. */
  function RunProps(plugin: Plugin, item: Value): Value
  {
    match plugin
    case BuiltinSuite => item
    case BuiltinAssign => Obj(AssignPlugin.RunProps)
    case Custom(h) => if h.runProps.Some? then h.runProps.value(item) else item
  }

  /** The item handed to the plugin: raw `runProps` when skipping, else the properties extracted
      with the `runProps` defaults against the context and `$results`. */
  function Prepared(env: Env, plugin: Plugin, item: Value, doSkip: bool, results: seq<Prop>): Try<Value>
  {
    if doSkip then Ok(RunProps(plugin, item))
    else ItemHelpers.ExtractProps(Interp(env), item, SpreadProps(RunProps(plugin, item)),
                                  ResultsContext(Field(item, "context"), results))
  }

  /** `doSkip || it.enabled === false` */
  predicate Skipping(it: Value, doSkip: bool)
  {
    doSkip || StrictEquals(Field(it, "enabled"), Bool(false))
  }

  /** `.catch(error => ({ outcome: ERROR, errors: [error] }))` */
  function Caught(outcome: Try<Value>): (v: Value)
    ensures outcome.Ok? ==> v == outcome.value
    ensures outcome.Threw? ==> v.Obj? && UniqueKeys(v.props) &&
                               Field(v, "outcome") == OutcomeValue(Outcomes.ERROR) &&
                               Field(v, "errors") == Arr([outcome.error])
  {
    match outcome
    case Ok(v) => v
    case Threw(e) =>
      var ps := [Prop("outcome", OutcomeValue(Outcomes.ERROR)), Prop("errors", Arr([e]))];
      GetAt(ps, 0); GetAt(ps, 1);
      Obj(ps)
  }

  /** `{ ...base, ...result }` */
  function Merge(base: Value, result: Value): Value
  {
    Obj(Assign(Assign([], SpreadProps(base)), SpreadProps(result)))
  }

  /** Every property of the plugin's result wins over the base result; the others come from it. */
  lemma MergeLookup(base: Value, result: Value, k: string)
    requires UniqueKeys(SpreadProps(base))
    ensures Get(Merge(base, result).props, k) ==
      if Has(SpreadProps(result), k) then LastGet(SpreadProps(result), k) else Get(SpreadProps(base), k)
  {
    AssignGet(Assign([], SpreadProps(base)), SpreadProps(result), k);
    AssignGet([], SpreadProps(base), k);
    if Has(SpreadProps(base), k) {
      LastGetUnique(SpreadProps(base), k);
    } else {
      GetHas(SpreadProps(base), k);
    }
  }

  /** The last step of a type handler: the base result, overlaid by the plugin's (or the error)
      result, stored under the item's name in `$results`, then sent as RESULT. A base result that
      throws rejects the handler's promise before anything is stored. */
  function Finish(item: Value, doSkip: bool, m: Measurement, outcome: Try<Value>, b: Book): (r: (Settled, Book))
    ensures r.0.Done? || r.0.Rejected?
    ensures r.0.Rejected? <==> !Field(Field(item, "context"), "$fileName").Str?
    ensures r.0.Rejected? ==> r.1 == b
  {
    match BaseResult(item, if doSkip then Outcomes.SKIPPED else Outcomes.SUCCESS, m)
    case Threw(e) => (Rejected(e), b)
    case Ok(base) =>
      var final := Merge(base, Caught(outcome));
      (Done(final), b.(results := Put(b.results, ToText(Field(item, "name")), final),
                       sent := b.sent + [Notice(State.RESULT, final)]))
  }

  /** `Finish` by the base result: a throwing one rejects and changes nothing, otherwise the merged
      result is stored and sent. */
  lemma FinishCases(item: Value, doSkip: bool, m: Measurement, outcome: Try<Value>, b: Book)
    ensures var base := BaseResult(item, if doSkip then Outcomes.SKIPPED else Outcomes.SUCCESS, m);
      Finish(item, doSkip, m, outcome, b) ==
        if base.Threw? then (Rejected(base.error), b)
        else
          var final := Merge(base.value, Caught(outcome));
          (Done(final), b.(results := Put(b.results, ToText(Field(item, "name")), final),
                           sent := b.sent + [Notice(State.RESULT, final)]))
  {
  }

  const MissingContextPrefix := "missing context, invalid preprocessor (type: "

  /** `runner.run(item)`: the cancel flag is read (set once the job's CANCEL has arrived) and the
      type handler is called with it, so every item started after the cancellation is skipped. */
  function RunItemSpec(env: Env, item: Value, fuel: nat, b: Book): (r: (Settled, Book))
    ensures r.1.runs > b.runs
    decreases fuel, 4
  {
    RunSpec(env, item, b.runs >= env.cancelAt, fuel, b.(runs := b.runs + 1))
  }

  /** `typeHandler(item.context, item)(doSkip)`: `select` and the context check throw
      synchronously; everything after them settles the handler's promise. A handler that is
      skipping calls `runner.run` no more. */
  function RunSpec(env: Env, item: Value, doSkip: bool, fuel: nat, b: Book): (r: (Settled, Book))
    ensures r.1.runs >= b.runs && (doSkip ==> r.1.runs == b.runs)
    decreases fuel, 3, 1
  {
    var context := Field(item, "context");
    match Select(env.registry, context, item)
    case Threw(e) => (ThrownSync(e), b)
    case Ok(plugin) =>
      if !Truthy(context) then (ThrownSync(MissingContext(item)), b)
      else MeasuredSpec(env, plugin, item, doSkip, fuel, b)
  }

  /** The error thrown for an item without a context. */
  function MissingContext(item: Value): Value
  {
    Raise<Value>(ItemHelpers.ItemError(MissingContextPrefix + ToText(Field(item, "type")) + ")", Obj([]), item)).error
  }

  /** A handler call past its synchronous checks: measured, then prepared, run and recorded. */
  function MeasuredSpec(env: Env, plugin: Plugin, item: Value, doSkip: bool, fuel: nat, b: Book)
    : (r: (Settled, Book))
    ensures r.1.runs >= b.runs && (doSkip ==> r.1.runs == b.runs)
    decreases fuel, 3, 0
  {
    var (o, b2) := Attempt(env, plugin, item, doSkip, fuel, b);
    Finish(item, doSkip, env.clock(b.calls), o, b2)
  }

  /** The outcome of preparing the item and running its hook, after one more measurement. */
  function Attempt(env: Env, plugin: Plugin, item: Value, doSkip: bool, fuel: nat, b: Book)
    : (r: (Try<Value>, Book))
    ensures r.1.runs >= b.runs && (doSkip ==> r.1.runs == b.runs)
    decreases fuel, 2, 1
  {
    var b1 := b.(calls := b.calls + 1);
    match Prepared(env, plugin, item, doSkip, b.results)
    case Threw(e) => (Threw(e), b1)
    case Ok(it) => HookSpec(env, plugin, it, doSkip, fuel, b1)
  }

  /** The plugin's `skip` or `run` hook on the prepared item; an absent hook resolves with
      nothing. */
  function HookSpec(env: Env, plugin: Plugin, it: Value, doSkip: bool, fuel: nat, b: Book)
    : (r: (Try<Value>, Book))
    ensures r.1.runs >= b.runs && (Skipping(it, doSkip) ==> r.1.runs == b.runs)
    decreases fuel, 2, 0
  {
    if !doSkip && IsNullish(it) then (Threw(EnabledError), b)
    else
      var skipping := Skipping(it, doSkip);
      match plugin
      case BuiltinAssign => (if skipping then Ok(Undefined) else AssignPlugin.Run(it), b)
      case Custom(h) =>
        if skipping then (if h.skip.Some? then h.skip.value(it) else Ok(Undefined), b)
        else (if h.run.Some? then h.run.value(it) else Ok(Undefined), b)
      case BuiltinSuite =>
        if fuel == 0 then (Threw(CallStackExceeded), b)
        else if skipping then SuiteSkipSpec(env, it, fuel, b)
        else SuiteRunSpec(env, it, fuel, b)
  }

  // ---------------------------------------------------------------------------------------------
  // The suite plugin

  /** `outcomes.indexOf(v)`: the severity of an outcome name, -1 for anything else. */
  function IndexOfOutcome(v: Value): int
  {
    if v.Str? && Outcomes.Parse(v.s).Some? then Outcomes.Severity(Outcomes.Parse(v.s).value) else -1
  }

  /** `stopAfter = outcomes.ERROR`: the default applies only to `undefined`. As written, `outcomes`
      is the severity array, whose `ERROR` property is `undefined`, so there is no default; the
      corrected edition defaults to the ERROR outcome the documentation describes. */
  function StopAfter(edition: Edition, context: Value): (stopAfter: Value)
    ensures !Field(context, "stopAfter").Undefined? ==> stopAfter == Field(context, "stopAfter")
    ensures Field(context, "stopAfter").Undefined? && edition.AsWritten? ==> !Truthy(stopAfter)
    ensures Field(context, "stopAfter").Undefined? && edition.Corrected? ==> stopAfter == OutcomeValue(Outcomes.ERROR)
  {
    var given := Field(context, "stopAfter");
    if given.Undefined? && edition.Corrected? then OutcomeValue(Outcomes.ERROR) else given
  }

  /** `shouldCancel({ outcome })` in the suite's `sequence`. */
  predicate ShouldStop(outcome: Value, stopAfter: Value)
  {
    Truthy(stopAfter) && IndexOfOutcome(outcome) >= IndexOfOutcome(stopAfter)
  }

  /** As written a suite without `stopAfter` never stops, corrected it stops after an ERROR and only
      then; a falsy `stopAfter` never stops it; `stopAfter: 'FAILURE'` stops it after a FAILURE or
      an ERROR. */
  lemma ShouldStopCases(outcome: Outcomes.Outcome, stopAfter: Value)
    ensures !ShouldStop(OutcomeValue(outcome), StopAfter(AsWritten, Obj([])))
    ensures ShouldStop(OutcomeValue(outcome), StopAfter(Corrected, Obj([]))) <==> outcome == Outcomes.ERROR
    ensures !Truthy(stopAfter) ==> !ShouldStop(OutcomeValue(outcome), stopAfter)
    ensures ShouldStop(OutcomeValue(outcome), OutcomeValue(Outcomes.FAILURE)) <==>
      outcome == Outcomes.FAILURE || outcome == Outcomes.ERROR
  {
    Outcomes.ParseName(outcome);
    Outcomes.ParseName(Outcomes.ERROR);
    Outcomes.ParseName(Outcomes.FAILURE);
  }

  /** `stopAfter` that names no outcome has index -1, so the suite stops after its first child. */
  lemma UnknownStopAfterStopsAtOnce(outcome: Value)
    ensures ShouldStop(outcome, Str("error"))
  {
    assert Outcomes.Parse("error").None?;
  }

  /** With the ERROR outcome as `stopAfter`, exactly an ERROR result stops the sequence. */
  lemma StopsAtErrorOnly(outcome: Value)
    ensures ShouldStop(outcome, OutcomeValue(Outcomes.ERROR)) <==> outcome == OutcomeValue(Outcomes.ERROR)
  {
    Outcomes.ParseName(Outcomes.ERROR);
    if outcome.Str? && Outcomes.Parse(outcome.s).Some? {
      Outcomes.ParseName(Outcomes.Parse(outcome.s).value);
    }
  }

  /** As written, a suite without `stopAfter` goes on after every child, an ERROR one included: a
      sequence that completes has reached all the children. */
  lemma DefaultNeverStops(env: Env, context: Value, suite: Value, index: nat, children: seq<Value>, fuel: nat, b: Book)
    requires fuel > 0 && env.edition.AsWritten? && Field(context, "stopAfter").Undefined?
    requires ChildrenSpec(env, suite, index, children, StopAfter(env.edition, context), fuel, b).0.Ok?
    ensures |ChildrenSpec(env, suite, index, children, StopAfter(env.edition, context), fuel, b).0.value| == |children|
  {
  }

  /** Corrected, a suite without `stopAfter` goes on past every child but an ERROR one, and stops
      early only after an ERROR child. */
  lemma DefaultStopsAfterError(env: Env, context: Value, suite: Value, index: nat, children: seq<Value>, fuel: nat,
                               b: Book)
    requires fuel > 0 && env.edition.Corrected? && Field(context, "stopAfter").Undefined?
    requires ChildrenSpec(env, suite, index, children, StopAfter(env.edition, context), fuel, b).0.Ok?
    ensures var done := ChildrenSpec(env, suite, index, children, StopAfter(env.edition, context), fuel, b).0.value;
      (forall i | 0 <= i < |done| - 1 :: Field(done[i], "outcome") != OutcomeValue(Outcomes.ERROR)) &&
      (|done| < |children| ==> |done| > 0 && Field(done[|done| - 1], "outcome") == OutcomeValue(Outcomes.ERROR))
  {
    var done := ChildrenSpec(env, suite, index, children, StopAfter(env.edition, context), fuel, b).0.value;
    forall i | 0 <= i < |done| ensures
      ShouldStop(Field(done[i], "outcome"), OutcomeValue(Outcomes.ERROR)) <==>
      Field(done[i], "outcome") == OutcomeValue(Outcomes.ERROR)
    {
      StopsAtErrorOnly(Field(done[i], "outcome"));
    }
  }

  /** The suite's `sequence` over its children, the first of `children` being the suite's child
      at position `index`: each child is started with `runner.run` (so it is skipped when the job
      has been cancelled by then) while the suite `suite` relays its progress, and the sequence
      ends after the first child whose outcome reaches `stopAfter`. After each child's result the
      suite reports `(i + 1) / n`, relayed by the suites around it. A child that throws or
      rejects rejects the whole suite run. The results are those of the children reached, in
      order. */
  function ChildrenSpec(env: Env, suite: Value, index: nat, children: seq<Value>, stopAfter: Value, fuel: nat,
                        b: Book): (r: (Try<seq<Value>>, Book))
    requires fuel > 0
    ensures Reached(r.0, |children|, stopAfter)
    ensures r.1.runs >= b.runs
    decreases fuel, 0, |children|, 1
  {
    if |children| == 0 then (Ok([]), b)
    else
      var (c, b1) := FirstChild(env, suite, index, children, fuel, b);
      AfterChild(env, suite, index, children, stopAfter, fuel, c, b1)
  }

  /** `runner.run` of the first of `children` while the suite relays its progress; once it has
      settled the suite's frame is gone again. */
  function FirstChild(env: Env, suite: Value, index: nat, children: seq<Value>, fuel: nat, b: Book)
    : (r: (Settled, Book))
    requires fuel > 0 && |children| > 0
    ensures r.1.runs > b.runs && r.1.suites == b.suites
    decreases fuel, 0, |children|, 0
  {
    var (c, b1) := RunItemSpec(env, children[0], fuel - 1, Inside(b, suite, index, |children|));
    (c, b1.(suites := b.suites))
  }

  /** The book while the child at `index` of a suite runs, `count` children counting from it. */
  function Inside(b: Book, suite: Value, index: nat, count: nat): Book
    requires count > 0
  {
    b.(suites := b.suites + [Frame(suite, index, count - 1)])
  }

  /** The rest of the sequence once the first child has settled as `c`: a child that resolved is
      followed by the suite's report of its new progress. */
  function AfterChild(env: Env, suite: Value, index: nat, children: seq<Value>, stopAfter: Value, fuel: nat,
                      c: Settled, b1: Book): (r: (Try<seq<Value>>, Book))
    requires fuel > 0 && |children| > 0
    ensures Reached(r.0, |children|, stopAfter)
    ensures r.1.runs >= b1.runs
    decreases fuel, 0, |children|, 0
  {
    match c
    case ThrownSync(e) => (Threw(e), b1)
    case Rejected(e) => (Threw(e), b1)
    case Done(v) =>
      var b2 := ChildReported(suite, index, |children|, b1);
      if ShouldStop(Field(v, "outcome"), stopAfter) then (Ok([v]), b2)
      else
        var (rest, b3) := ChildrenSpec(env, suite, index + 1, children[1..], stopAfter, fuel, b2);
        if rest.Ok? then
          var vs := [v] + rest.value;
          assert forall i | 1 <= i < |vs| :: vs[i] == rest.value[i - 1];
          (Ok(vs), b3)
        else (rest, b3)
  }

  /** `currentProgress = (i + 1) / items.length; progressReporter.update()` once the child at
      `index` has resolved, `count` children counting from it. */
  function ChildReported(suite: Value, index: nat, count: nat, b: Book): Book
    requires count > 0
  {
    b.(sent := b.sent + ProgressChain(b.suites, suite, ChildDone(index, index + count)))
  }

  /** What the sequence over `n` children promises about the results reached: at most one per
      child; it went on past every child but the last reached; and it stopped early only after a
      child that reached `stopAfter`. */
  predicate Reached(r: Try<seq<Value>>, n: nat, stopAfter: Value)
  {
    r.Ok? ==>
      |r.value| <= n &&
      (forall i | 0 <= i < |r.value| - 1 :: !ShouldStop(Field(r.value[i], "outcome"), stopAfter)) &&
      (|r.value| < n ==> |r.value| > 0 && ShouldStop(Field(r.value[|r.value| - 1], "outcome"), stopAfter))
  }

  /** `runner.skip` for each of the children: a synchronous throw stops the map and is the
      result; otherwise every skip has been started. The skips' own results are not awaited. */
  function SkipAllSpec(env: Env, children: seq<Value>, fuel: nat, b: Book): (r: (Option<Value>, Book))
    requires fuel > 0
    ensures r.1.runs == b.runs
    decreases fuel, 0, |children|
  {
    if |children| == 0 then (None, b)
    else
      var (c, b1) := RunSpec(env, children[0], true, fuel - 1, b);
      if c.ThrownSync? then (Some(c.error), b1)
      else SkipAllSpec(env, children[1..], fuel, b1)
  }

  /** The suite's `run(item, runner)`: the children reached, the unreached ones skipped, and the
      summary of the edition the environment names. */
  function SuiteRunSpec(env: Env, it: Value, fuel: nat, b: Book): (r: (Try<Value>, Book))
    requires fuel > 0
    ensures r.1.runs >= b.runs
    decreases fuel, 1, 0
  {
    var items := Field(it, "items");
    var context := Field(it, "context");
    if !items.Arr? then (Threw(ItemsError), b)
    else if IsNullish(context) then (Threw(StopAfterError), b)
    else
      var (c, b1) := ChildrenSpec(env, Field(it, "$id"), 0, items.elems, StopAfter(env.edition, context), fuel, b);
      match c
      case Threw(e) => (Threw(e), b1)
      case Ok(done) =>
        var (s, b2) := SkipAllSpec(env, items.elems[|done|..], fuel, b1);
        if s.Some? then (Threw(s.value), b2)
        else (SummaryWith(Interp(env), it, done + Pendings(|items.elems| - |done|), b1.results,
                          NameOf(env.edition)), b2)
  }

  /** The suite's `skip(item, runner)`: `items.map(runner.skip)`, an array of pending promises. */
  function SuiteSkipSpec(env: Env, it: Value, fuel: nat, b: Book): (r: (Try<Value>, Book))
    requires fuel > 0
    ensures r.1.runs == b.runs
    decreases fuel, 1, 0
  {
    var items := Field(it, "items");
    if !items.Arr? then (Threw(ItemsError), b)
    else
      var (s, b1) := SkipAllSpec(env, items.elems, fuel, b);
      if s.Some? then (Threw(s.value), b1) else (Ok(Arr(Pendings(|items.elems|))), b1)
  }

  function Pendings(n: nat): (r: seq<Value>)
    ensures |r| == n && forall i | 0 <= i < n :: r[i] == Pending
  {
    seq(n, _ => Pending)
  }

  // ---------------------------------------------------------------------------------------------
  // The suite's summary

  /** The indices of the item results with the given outcome, in order. */
  function Matching(results: seq<Value>, outcome: Outcomes.Outcome): (r: seq<nat>)
    ensures forall j | 0 <= j < |r| :: r[j] < |results| && Field(results[r[j]], "outcome") == OutcomeValue(outcome)
    ensures forall i | 0 <= i < |results| && Field(results[i], "outcome") == OutcomeValue(outcome) :: i in r
    ensures forall a, b | 0 <= a < b < |r| :: r[a] < r[b]
  {
    if |results| == 0 then []
    else
      var prefix := Matching(results[..|results| - 1], outcome);
      if Field(results[|results| - 1], "outcome") == OutcomeValue(outcome) then prefix + [|results| - 1]
      else prefix
  }

  /** `item <index> (<name>) <verb>` for each matching result. */
  function Listed(results: seq<Value>, indices: seq<nat>, verb: string, nameOf: Value -> Value): (r: seq<Value>)
    requires forall j | 0 <= j < |indices| :: indices[j] < |results|
    ensures |r| == |indices|
    ensures forall j | 0 <= j < |indices| ::
      r[j] == Str("item " + NatToString(indices[j]) + " (" + ToText(nameOf(results[indices[j]])) + ") " + verb)
  {
    seq(|indices|, j requires 0 <= j < |indices| =>
      Str("item " + NatToString(indices[j]) + " (" + ToText(nameOf(results[indices[j]])) + ") " + verb))
  }

  predicate HasError(results: seq<Value>)
  {
    exists i | 0 <= i < |results| :: Field(results[i], "outcome") == OutcomeValue(Outcomes.ERROR)
  }

  predicate AllSucceeded(results: seq<Value>)
  {
    forall i | 0 <= i < |results| :: Field(results[i], "outcome") == OutcomeValue(Outcomes.SUCCESS)
  }

  /** `summaryResult(results, provideExport)`, with the name shown for each listed result taken by
      `nameOf`; `provideExport` is `runner.prop(item, 'export')`, which may throw. */
  function SummaryWith(interp: ItemHelpers.Interpreter, item: Value, results: seq<Value>, runnerResults: seq<Prop>,
                       nameOf: Value -> Value): Try<Value>
  {
    var hasError := HasError(results);
    var outcome := if hasError then Outcomes.ERROR else if AllSucceeded(results) then Outcomes.SUCCESS
                   else Outcomes.FAILURE;
    var exported: Try<Value> :=
      if hasError then Ok(Null)
      else match ItemHelpers.ExtractProps(interp, item, [Prop("export", Null)],
                                          ResultsContext(Field(item, "context"), runnerResults))
           case Threw(e) => Threw(e)
           case Ok(v) => Ok(Field(v, "export"));
    match exported
    case Threw(e) => Threw(e)
    case Ok(x) =>
      Ok(SummaryObject(OutcomeValue(outcome),
                       Str(NatToString(|Matching(results, Outcomes.SUCCESS)|) + "/" + NatToString(|results|) + " successful"),
                       x,
                       Arr(Listed(results, Matching(results, Outcomes.FAILURE), "failed", nameOf)),
                       Arr(Listed(results, Matching(results, Outcomes.ERROR), "errored", nameOf))))
  }

  /** The summary's object literal. */
  function SummaryObject(outcome: Value, message: Value, exported: Value, failures: Value, errors: Value): (r: Value)
    ensures r.Obj? && UniqueKeys(r.props)
    ensures Field(r, "outcome") == outcome && Field(r, "message") == message && Field(r, "export") == exported
    ensures Field(r, "failures") == failures && Field(r, "errors") == errors
  {
    var ps := [Prop("outcome", outcome), Prop("message", message), Prop("export", exported),
               Prop("failures", failures), Prop("errors", errors)];
    GetAt(ps, 0); GetAt(ps, 1); GetAt(ps, 2); GetAt(ps, 3); GetAt(ps, 4);
    Obj(ps)
  }

  /** The name as written: `{ name }` of the result itself, where a runner result has none. */
  function TopLevelName(result: Value): Value
  {
    Field(result, "name")
  }

  /** The name of the item the result is about. */
  function SubjectName(result: Value): Value
  {
    Field(Field(result, "subject"), "name")
  }

  /** The name each listed child is shown with: as written, `{ name }` of the child's result;
      corrected, the name of the item the result is about. */
  function NameOf(edition: Edition): Value -> Value
  {
    if edition.AsWritten? then TopLevelName else SubjectName
  }

  /** The summary outcome is ERROR when a child errored, else SUCCESS when every child succeeded
      (so an empty suite succeeds), else FAILURE (a skipped child among successes makes a
      FAILURE); the message counts the successes over all entries; the export is null after an
      error; and every failed or errored child is listed, in order, by its index and name. */
  lemma SummaryFields(interp: ItemHelpers.Interpreter, item: Value, results: seq<Value>, runnerResults: seq<Prop>,
                      nameOf: Value -> Value)
    requires SummaryWith(interp, item, results, runnerResults, nameOf).Ok?
    ensures var s := SummaryWith(interp, item, results, runnerResults, nameOf).value;
      Field(s, "outcome") ==
        (if HasError(results) then OutcomeValue(Outcomes.ERROR)
         else if AllSucceeded(results) then OutcomeValue(Outcomes.SUCCESS) else OutcomeValue(Outcomes.FAILURE)) &&
      Field(s, "message") == Str(NatToString(|Matching(results, Outcomes.SUCCESS)|) + "/" +
                                 NatToString(|results|) + " successful") &&
      (HasError(results) ==> Field(s, "export") == Null) &&
      Field(s, "failures") == Arr(Listed(results, Matching(results, Outcomes.FAILURE), "failed", nameOf)) &&
      Field(s, "errors") == Arr(Listed(results, Matching(results, Outcomes.ERROR), "errored", nameOf))
  {
  }

  /** A child that was never reached is a pending promise in the summary: it counts towards the
      number of entries but towards no outcome. */
  lemma PendingCountsNowhere(results: seq<Value>, n: nat, outcome: Outcomes.Outcome)
    ensures |results + Pendings(n)| == |results| + n
    ensures Matching(results + Pendings(n), outcome) == Matching(results, outcome)
  {
    PendingMatchingFrom(results, n, outcome);
  }

  lemma {:induction false} PendingMatchingFrom(results: seq<Value>, n: nat, outcome: Outcomes.Outcome)
    ensures Matching(results + Pendings(n), outcome) == Matching(results, outcome)
    decreases n
  {
    if n > 0 {
      var all := results + Pendings(n);
      assert all[..|all| - 1] == results + Pendings(n - 1);
      assert Field(all[|all| - 1], "outcome") == Undefined;
      PendingMatchingFrom(results, n - 1, outcome);
    } else {
      assert results + Pendings(0) == results;
    }
  }

  /** A failed child named `login`, as the runner records it. */
  const FailedLogin := Obj([Prop("subject", Obj([Prop("name", Str("login"))])),
                            Prop("outcome", OutcomeValue(Outcomes.FAILURE))])

  /** As written, a failed child is listed with the name `undefined`, since results carry the
      item's name only inside `subject`. */
  lemma SummaryNamesUndefined()
    ensures Matching([FailedLogin], Outcomes.FAILURE) == [0]
    ensures Listed([FailedLogin], [0], "failed", NameOf(AsWritten)) == [Str("item 0 (undefined) failed")]
  {
    FailedLoginMatches();
    assert TopLevelName(FailedLogin) == Undefined;
    assert "item " + NatToString(0) + " (" + ToText(Undefined) + ") " + "failed" == "item 0 (undefined) failed";
  }

  /** The failed child is the only one listed as failed. */
  lemma FailedLoginMatches()
    ensures Matching([FailedLogin], Outcomes.FAILURE) == [0]
  {
    assert Field(FailedLogin, "outcome") == OutcomeValue(Outcomes.FAILURE);
    assert [FailedLogin][..0] == [];
  }

  /** Naming each listed child by its subject lists its real name. */
  lemma SummaryNamesSubject()
    ensures Listed([FailedLogin], [0], "failed", NameOf(Corrected)) == [Str("item 0 (login) failed")]
  {
    assert SubjectName(FailedLogin) == Str("login");
    assert "item " + NatToString(0) + " (" + ToText(Str("login")) + ") " + "failed" == "item 0 (login) failed";
  }

  // ---------------------------------------------------------------------------------------------
  // Suite progress

  /** The suite's progress once child `i` of `n` has finished: above 0, and 1 after the last. */
  function ChildDone(i: nat, n: nat): (p: real)
    requires i < n
    ensures 0.0 < p <= 1.0
    ensures i + 1 == n ==> p == 1.0
  {
    (i + 1) as real / n as real
  }

  /** The suite's progress while child `i` of `n` reports its own progress `p`: between the marks
      before and after that child, at the first when the child has made none and at the second
      when it is done. */
  function ChildProgress(i: nat, p: real, n: nat): (q: real)
    requires i < n && 0.0 <= p <= 1.0
    ensures i as real / n as real <= q <= ChildDone(i, n)
    ensures p == 0.0 ==> q == i as real / n as real
    ensures p == 1.0 ==> q == ChildDone(i, n)
  {
    DivLe(i as real, i as real + p, n as real);
    DivLe(i as real + p, (i + 1) as real, n as real);
    (i as real + p) / n as real
  }

  /** The PROGRESS notifications that one report `p` of the suite `id` sets off: its own, then,
      from the innermost running suite outwards, each enclosing suite's relay of it, `(j + q) / m`
      for the position `j` of the child that reported `q` among the suite's `m` children. */
  function ProgressChain(suites: seq<Frame>, id: Value, p: real): (r: seq<Notice>)
    requires 0.0 <= p <= 1.0
    ensures |r| == |suites| + 1
    ensures r[0] == Progress(ProgressHelpers.ProgressReport(id, p))
    ensures forall k | 0 <= k < |r| :: r[k].Progress? && 0.0 <= r[k].report.progress <= 1.0
    decreases |suites|
  {
    if |suites| == 0 then [Progress(ProgressHelpers.ProgressReport(id, p))]
    else
      var f := suites[|suites| - 1];
      [Progress(ProgressHelpers.ProgressReport(id, p))] +
        ProgressChain(suites[..|suites| - 1], f.id, ChildProgress(f.index, p, Total(f)))
  }

  /** A relay by the suite of frame `f`: its `$id`, with a progress between the suite's marks before
      and after the child it is running. */
  predicate RelayBy(n: Notice, f: Frame)
  {
    n.Progress? && n.report.id == f.id &&
    f.index as real / Total(f) as real <= n.report.progress <= ChildDone(f.index, Total(f))
  }

  /** Each relay in the chain comes from the enclosing suite's frame, innermost first, and its
      progress lies between that suite's marks before and after the running child. */
  lemma {:induction false} ProgressChainRelays(suites: seq<Frame>, id: Value, p: real)
    requires 0.0 <= p <= 1.0
    ensures forall k | 1 <= k <= |suites| :: RelayBy(ProgressChain(suites, id, p)[k], suites[|suites| - k])
    decreases |suites|
  {
    if |suites| > 0 {
      var f := suites[|suites| - 1];
      var q := ChildProgress(f.index, p, Total(f));
      var inner := suites[..|suites| - 1];
      ProgressChainRelays(inner, f.id, q);
      var r := ProgressChain(suites, id, p);
      var rest := ProgressChain(inner, f.id, q);
      assert r == [Progress(ProgressHelpers.ProgressReport(id, p))] + rest;
      forall k | 1 <= k <= |suites| ensures RelayBy(r[k], suites[|suites| - k]) {
        assert r[k] == rest[k - 1];
        if k > 1 {
          assert suites[|suites| - k] == inner[|inner| - (k - 1)];
        }
      }
    }
  }

  /** What a suite outside any other suite sends from the child at `index` of `total` on, once
      its children have resolved as `vs`: each child's RESULT, then the suite's PROGRESS report
      of the child done. */
  function Trail(suite: Value, index: nat, total: nat, vs: seq<Value>): (r: seq<Notice>)
    requires index + |vs| <= total
    ensures |r| == 2 * |vs|
    decreases |vs|
  {
    if |vs| == 0 then []
    else
      [Notice(State.RESULT, vs[0]), Progress(ProgressHelpers.ProgressReport(suite, ChildDone(index, total)))] +
      Trail(suite, index + 1, total, vs[1..])
  }

  /** An item whose plugin, when found, is not the suite plugin. */
  predicate Leaf(registry: map<string, Plugin>, item: Value)
  {
    var sel := Select(registry, Field(item, "context"), item);
    sel.Ok? ==> !sel.value.BuiltinSuite?
  }

  /** Running an item that is not a suite and resolves sends its result and nothing else. */
  lemma LeafSends(env: Env, item: Value, fuel: nat, b: Book)
    requires Leaf(env.registry, item)
    ensures var r := RunItemSpec(env, item, fuel, b);
      r.0.Done? ==> r.1.sent == b.sent + [Notice(State.RESULT, r.0.value)]
  {
    var b0 := b.(runs := b.runs + 1);
    var doSkip := b.runs >= env.cancelAt;
    var sel := Select(env.registry, Field(item, "context"), item);
    assert RunItemSpec(env, item, fuel, b) == RunSpec(env, item, doSkip, fuel, b0);
    if sel.Ok? && Truthy(Field(item, "context")) {
      assert RunSpec(env, item, doSkip, fuel, b0) == MeasuredSpec(env, sel.value, item, doSkip, fuel, b0);
      LeafAttempt(env, sel.value, item, doSkip, fuel, b0);
      var a := Attempt(env, sel.value, item, doSkip, fuel, b0);
      MeasuredUnfold(env, sel.value, item, doSkip, fuel, b0, a.0, a.1);
      var r := Finish(item, doSkip, env.clock(b0.calls), a.0, a.1);
      if r.0.Done? {
        FinishRecords(item, doSkip, env.clock(b0.calls), a.0, a.1);
      }
    }
  }

  /** The hook of a plugin other than the suite sends nothing. */
  lemma LeafAttempt(env: Env, plugin: Plugin, item: Value, doSkip: bool, fuel: nat, b: Book)
    requires !plugin.BuiltinSuite?
    ensures Attempt(env, plugin, item, doSkip, fuel, b).1 == b.(calls := b.calls + 1)
  {
  }

  /** Outside any other suite, the suite's one report is its own. */
  lemma TopChain(suite: Value, p: real)
    requires 0.0 <= p <= 1.0
    ensures ProgressChain([], suite, p) == [Progress(ProgressHelpers.ProgressReport(suite, p))]
  {
    var r := ProgressChain([], suite, p);
    assert |r| == 1 && r[0] == Progress(ProgressHelpers.ProgressReport(suite, p));
  }

  /** While a suite outside any other suite runs children that are not suites, what it sends is
      its trail over the children reached. */
  lemma {:induction false} ChildrenTrail(env: Env, suite: Value, index: nat, children: seq<Value>,
                                         stopAfter: Value, fuel: nat, b: Book)
    requires fuel > 0 && b.suites == []
    requires forall i | 0 <= i < |children| :: Leaf(env.registry, children[i])
    requires ChildrenSpec(env, suite, index, children, stopAfter, fuel, b).0.Ok?
    ensures var r := ChildrenSpec(env, suite, index, children, stopAfter, fuel, b);
      r.1.sent == b.sent + Trail(suite, index, index + |children|, r.0.value)
    decreases |children|, 1
  {
    if |children| == 0 {
      assert b.sent + [] == b.sent;
    } else {
      var p := FirstChild(env, suite, index, children, fuel, b);
      ChildrenUnfold(env, suite, index, children, stopAfter, fuel, b);
      FirstChildSends(env, suite, index, children, fuel, b);
      AfterChildTrail(env, suite, index, children, stopAfter, fuel, p.0, p.1);
      var r := AfterChild(env, suite, index, children, stopAfter, fuel, p.0, p.1);
      TrailHead(b.sent, suite, index, index + |children|, p.0.value, r.0.value, r.1.sent);
    }
  }

  /** The first child, not a suite, sends its result once it resolves. */
  lemma FirstChildSends(env: Env, suite: Value, index: nat, children: seq<Value>, fuel: nat, b: Book)
    requires fuel > 0 && |children| > 0 && Leaf(env.registry, children[0])
    ensures var p := FirstChild(env, suite, index, children, fuel, b);
      p.0.Done? ==> p.1.sent == b.sent + [Notice(State.RESULT, p.0.value)]
  {
    LeafSends(env, children[0], fuel - 1, Inside(b, suite, index, |children|));
  }

  /** Glues the first child's result in front of the trail sent after it. */
  lemma TrailHead(before: seq<Notice>, suite: Value, index: nat, total: nat, v: Value, vs: seq<Value>,
                  after: seq<Notice>)
    requires index + |vs| <= total && |vs| > 0 && vs[0] == v
    requires after == (before + [Notice(State.RESULT, v)]) +
      ([Progress(ProgressHelpers.ProgressReport(suite, ChildDone(index, total)))] + Trail(suite, index + 1, total, vs[1..]))
    ensures after == before + Trail(suite, index, total, vs)
  {
  }

  /** `ChildrenTrail` once the first child has settled as `c`, leaving the book at `b1`: the suite
      reports that child done, then the rest of the trail follows. */
  lemma {:induction false} AfterChildTrail(env: Env, suite: Value, index: nat, children: seq<Value>,
                                           stopAfter: Value, fuel: nat, c: Settled, b1: Book)
    requires fuel > 0 && |children| > 0 && b1.suites == []
    requires forall i | 0 <= i < |children| :: Leaf(env.registry, children[i])
    requires AfterChild(env, suite, index, children, stopAfter, fuel, c, b1).0.Ok?
    ensures c.Done?
    ensures var r := AfterChild(env, suite, index, children, stopAfter, fuel, c, b1);
      |r.0.value| > 0 && r.0.value[0] == c.value &&
      r.1.sent == b1.sent + ([Progress(ProgressHelpers.ProgressReport(suite, ChildDone(index, index + |children|)))] +
                              Trail(suite, index + 1, index + |children|, r.0.value[1..]))
    decreases |children|, 0
  {
    assert c.Done?;
    var total := index + |children|;
    var mark := Progress(ProgressHelpers.ProgressReport(suite, ChildDone(index, total)));
    var b2 := ChildReported(suite, index, |children|, b1);
    TopChain(suite, ChildDone(index, total));
    assert b2.sent == b1.sent + [mark] && b2.suites == [];
    if ShouldStop(Field(c.value, "outcome"), stopAfter) {
      assert AfterChild(env, suite, index, children, stopAfter, fuel, c, b1) == (Ok([c.value]), b2);
      assert [c.value][1..] == [];
    } else {
      AfterChildContinues(env, suite, index, children, stopAfter, fuel, c, b1);
      var rest := ChildrenSpec(env, suite, index + 1, children[1..], stopAfter, fuel, b2);
      forall i | 0 <= i < |children[1..]| ensures Leaf(env.registry, children[1..][i]) {
        assert children[1..][i] == children[i + 1];
      }
      ChildrenTrail(env, suite, index + 1, children[1..], stopAfter, fuel, b2);
      assert ([c.value] + rest.0.value)[1..] == rest.0.value;
    }
  }

  /** A resolved first child that does not stop the sequence is followed by the rest of it. */
  lemma AfterChildContinues(env: Env, suite: Value, index: nat, children: seq<Value>, stopAfter: Value, fuel: nat,
                            c: Settled, b1: Book)
    requires fuel > 0 && |children| > 0 && c.Done? && !ShouldStop(Field(c.value, "outcome"), stopAfter)
    requires AfterChild(env, suite, index, children, stopAfter, fuel, c, b1).0.Ok?
    ensures var rest := ChildrenSpec(env, suite, index + 1, children[1..], stopAfter, fuel,
                                     ChildReported(suite, index, |children|, b1));
      rest.0.Ok? && AfterChild(env, suite, index, children, stopAfter, fuel, c, b1) == (Ok([c.value] + rest.0.value), rest.1)
  {
  }

  /** A suite outside any other suite whose children are not suites sends, for each child `i` it
      reaches, in order, the child's RESULT and then its own PROGRESS report `(i + 1) / n`, and
      nothing else. */
  lemma SuiteProgressMarks(env: Env, suite: Value, children: seq<Value>, stopAfter: Value, fuel: nat, b: Book)
    requires fuel > 0 && b.suites == []
    requires forall i | 0 <= i < |children| :: Leaf(env.registry, children[i])
    requires ChildrenSpec(env, suite, 0, children, stopAfter, fuel, b).0.Ok?
    ensures var r := ChildrenSpec(env, suite, 0, children, stopAfter, fuel, b);
      var k := |r.0.value|;
      |r.1.sent| == |b.sent| + 2 * k && r.1.sent[..|b.sent|] == b.sent &&
      forall j | 0 <= j < k ::
        r.1.sent[|b.sent| + 2 * j] == Notice(State.RESULT, r.0.value[j]) &&
        r.1.sent[|b.sent| + 2 * j + 1] == Progress(ProgressHelpers.ProgressReport(suite, ChildDone(j, |children|)))
  {
    var r := ChildrenSpec(env, suite, 0, children, stopAfter, fuel, b);
    ChildrenTrail(env, suite, 0, children, stopAfter, fuel, b);
    TrailShape(b.sent, suite, |children|, r.0.value, r.1.sent);
  }

  /** Notifications that are `before` followed by the trail of a suite over the results `vs`. */
  lemma TrailShape(before: seq<Notice>, suite: Value, total: nat, vs: seq<Value>, after: seq<Notice>)
    requires |vs| <= total && after == before + Trail(suite, 0, total, vs)
    ensures |after| == |before| + 2 * |vs| && after[..|before|] == before
    ensures forall j | 0 <= j < |vs| ::
      after[|before| + 2 * j] == Notice(State.RESULT, vs[j]) &&
      after[|before| + 2 * j + 1] == Progress(ProgressHelpers.ProgressReport(suite, ChildDone(j, total)))
  {
    TrailAt(suite, 0, total, vs);
    var t := Trail(suite, 0, total, vs);
    forall j | 0 <= j < |vs|
      ensures after[|before| + 2 * j] == t[2 * j] && after[|before| + 2 * j + 1] == t[2 * j + 1]
    {
    }
  }

  /** The trail's entries: child `j`'s result at `2 j`, the suite's report of it at `2 j + 1`. */
  lemma {:induction false} TrailAt(suite: Value, index: nat, total: nat, vs: seq<Value>)
    requires index + |vs| <= total
    ensures forall j | 0 <= j < |vs| ::
      Trail(suite, index, total, vs)[2 * j] == Notice(State.RESULT, vs[j]) &&
      Trail(suite, index, total, vs)[2 * j + 1] == Progress(ProgressHelpers.ProgressReport(suite, ChildDone(index + j, total)))
    decreases |vs|
  {
    if |vs| > 0 {
      var t := Trail(suite, index, total, vs);
      var rest := Trail(suite, index + 1, total, vs[1..]);
      TrailAt(suite, index + 1, total, vs[1..]);
      forall j | 1 <= j < |vs|
        ensures t[2 * j] == Notice(State.RESULT, vs[j])
        ensures t[2 * j + 1] == Progress(ProgressHelpers.ProgressReport(suite, ChildDone(index + j, total)))
      {
        assert t[2 * j] == rest[2 * (j - 1)] && t[2 * j + 1] == rest[2 * (j - 1) + 1];
        assert vs[1..][j - 1] == vs[j];
      }
    }
  }

  /** A suite runs with a progress timer of no expected duration, so a tick reports the probe,
      the suite's current progress, unchanged. */
  lemma SuiteTimerReports(p: real, progressMs: int)
    requires 0.0 <= p
    ensures ProgressHelpers.Reported(p, progressMs, ProgressHelpers.DefaultDurationMs) == p
  {
    assert ProgressHelpers.TimeFraction(progressMs, ProgressHelpers.DefaultDurationMs) == 0.0;
  }

  lemma DivLe(a: real, b: real, d: real)
    requires 0.0 < d && a <= b
    ensures a / d <= b / d
  {
    assert b / d - a / d == (b - a) / d;
  }

  // ---------------------------------------------------------------------------------------------
  // The job

  /** `list.map(_ => severityByOutcome[_]).reduce(max, 0)`, where a name that is not an outcome
      looks up `undefined`, and `a > b ? a : b` with `undefined` on either side picks `b`. */
  function SeverityFold(acc: Option<nat>, outcomes: seq<Value>): Option<nat>
    decreases |outcomes|
  {
    if |outcomes| == 0 then acc
    else
      var v := outcomes[0];
      var s: Option<nat> := if v.Str? && Outcomes.Parse(v.s).Some? then Some(Outcomes.Severity(Outcomes.Parse(v.s).value)) else None;
      SeverityFold(if acc.Some? && s.Some? && acc.value > s.value then acc else s, outcomes[1..])
  }

  /** `worstOf` over the outcomes found on results: `bySeverity[maxIndex]`. */
  function WorstOfValues(outcomes: seq<Value>): Value
  {
    var i := SeverityFold(Some(0), outcomes);
    if i.Some? && i.value < 4 then OutcomeValue(Outcomes.BySeverity[i.value]) else Undefined
  }

  function Names(os: seq<Outcomes.Outcome>): (r: seq<Value>)
    ensures |r| == |os| && forall i | 0 <= i < |os| :: r[i] == OutcomeValue(os[i])
  {
    seq(|os|, i requires 0 <= i < |os| => OutcomeValue(os[i]))
  }

  lemma {:induction false} SeverityFoldNames(acc: nat, os: seq<Outcomes.Outcome>)
    ensures SeverityFold(Some(acc), Names(os)) == Some(Outcomes.MaxSeverityFrom(acc, os))
    decreases |os|
  {
    if |os| > 0 {
      Outcomes.ParseName(os[0]);
      var s := Outcomes.Severity(os[0]);
      assert Names(os)[1..] == Names(os[1..]);
      SeverityFoldNames(if acc > s then acc else s, os[1..]);
    }
  }

  /** On outcome names, the runner's `worstOf` is the outcome lattice's. */
  lemma WorstOfNames(os: seq<Outcomes.Outcome>)
    ensures WorstOfValues(Names(os)) == OutcomeValue(Outcomes.WorstOf(os))
  {
    SeverityFoldNames(0, os);
    Outcomes.MaxFoldBound(0, os);
  }

  /** A result whose outcome is no outcome name, last in the list, makes the job's outcome
      `undefined`. */
  lemma WorstOfUnknownLast()
    ensures WorstOfValues([Str("SUCCESS"), Str("WEIRD")]) == Undefined
  {
    assert Outcomes.Parse("WEIRD").None?;
    assert Outcomes.Parse("SUCCESS") == Some(Outcomes.SUCCESS);
  }

  /** `sequence(processActions, [])` over the job's items: each is started with `runner.run`. A
      throw or rejection ends the job's run. */
  function JobSpec(env: Env, items: seq<Value>, fuel: nat, done: seq<Value>, b: Book)
    : (r: (Try<seq<Value>>, Book))
    ensures r.0.Ok? ==> |r.0.value| == |done| + |items| && r.0.value[..|done|] == done
    decreases |items|
  {
    if |items| == 0 then (Ok(done), b)
    else
      var (c, b1) := RunItemSpec(env, items[0], fuel, b);
      match c
      case Done(v) => JobSpec(env, items[1..], fuel, done + [v], b1)
      case Rejected(e) => (Threw(e), b1)
      case ThrownSync(e) => (Threw(e), b1)
  }

  function OutcomeFields(results: seq<Value>): (r: seq<Value>)
    ensures |r| == |results| && forall i | 0 <= i < |results| :: r[i] == Field(results[i], "outcome")
  {
    seq(|results|, i requires 0 <= i < |results| => Field(results[i], "outcome"))
  }

  /** `runJob`: after the last item, one META with the worst outcome and the finish time; the run
      resolves with whether that outcome is SUCCESS. */
  function RunJobSpec(env: Env, items: seq<Value>, finished: string, fuel: nat, b: Book)
    : (Try<bool>, Book)
  {
    var (c, b1) := JobSpec(env, items, fuel, [], b);
    match c
    case Threw(e) => (Threw(e), b1)
    case Ok(results) =>
      var outcome := WorstOfValues(OutcomeFields(results));
      (Ok(outcome == OutcomeValue(Outcomes.SUCCESS)),
       b1.(sent := b1.sent + [Notice(State.META, Obj([Prop("outcome", outcome), Prop("finished", Str(finished))]))]))
  }

  /** The job's run resolves with `true` exactly when every item's result is a SUCCESS (so a job
      without items succeeds), and its last notification is the META with the worst outcome and
      the finish time. */
  lemma RunJobResolves(env: Env, items: seq<Value>, finished: string, fuel: nat, b: Book,
                       os: seq<Outcomes.Outcome>)
    requires JobSpec(env, items, fuel, [], b).0.Ok?
    requires OutcomeFields(JobSpec(env, items, fuel, [], b).0.value) == Names(os)
    ensures RunJobSpec(env, items, finished, fuel, b).0 ==
      Ok(forall i | 0 <= i < |os| :: os[i] == Outcomes.SUCCESS)
    ensures var sent := RunJobSpec(env, items, finished, fuel, b).1.sent;
      |sent| > 0 && sent[|sent| - 1] ==
        Notice(State.META, Obj([Prop("outcome", OutcomeValue(Outcomes.WorstOf(os))), Prop("finished", Str(finished))]))
  {
    WorstOfNames(os);
    JobSuccess(os);
  }

  /** The worst of a list of outcomes is SUCCESS exactly when every outcome is. */
  lemma JobSuccess(os: seq<Outcomes.Outcome>)
    ensures Outcomes.WorstOf(os) == Outcomes.SUCCESS <==> forall i | 0 <= i < |os| :: os[i] == Outcomes.SUCCESS
    ensures OutcomeValue(Outcomes.WorstOf(os)) == OutcomeValue(Outcomes.SUCCESS) <==> Outcomes.WorstOf(os) == Outcomes.SUCCESS
  {
    Outcomes.WorstOfIsWorst(os);
    Outcomes.WorstOfEmpty();
    Outcomes.SeverityOrder();
    Outcomes.ParseName(Outcomes.WorstOf(os));
    Outcomes.ParseName(Outcomes.SUCCESS);
    if forall i | 0 <= i < |os| :: os[i] == Outcomes.SUCCESS {
      if |os| > 0 {
        assert Outcomes.WorstOf(os) in os;
      }
    } else {
      var i :| 0 <= i < |os| && os[i] != Outcomes.SUCCESS;
      assert os[i] in os;
    }
  }

  // ---------------------------------------------------------------------------------------------
  // Properties of one handler call

  /** A handler that resolved stores its result as `$results[name]`, leaves every other entry
      alone, and sends it as its last notification. */
  lemma FinishRecords(item: Value, doSkip: bool, m: Measurement, outcome: Try<Value>, b: Book)
    requires Finish(item, doSkip, m, outcome, b).0.Done?
    ensures var (c, b') := Finish(item, doSkip, m, outcome, b);
      Get(b'.results, ToText(Field(item, "name"))) == c.value &&
      (forall k | k != ToText(Field(item, "name")) :: Get(b'.results, k) == Get(b.results, k)) &&
      b'.sent == b.sent + [Notice(State.RESULT, c.value)] && b'.calls == b.calls
  {
    var name := ToText(Field(item, "name"));
    var br := BaseResult(item, if doSkip then Outcomes.SKIPPED else Outcomes.SUCCESS, m);
    var v := Merge(br.value, Caught(outcome));
    assert Finish(item, doSkip, m, outcome, b) ==
      (Done(v), b.(results := Put(b.results, name, v), sent := b.sent + [Notice(State.RESULT, v)]));
    PutGetAll(b.results, name, v);
  }

  /** An error from the plugin (or from preparing its item) becomes an ERROR result that carries
      the error. */
  lemma FinishError(item: Value, doSkip: bool, m: Measurement, e: Value, b: Book)
    requires Finish(item, doSkip, m, Threw(e), b).0.Done?
    ensures var v := Finish(item, doSkip, m, Threw(e), b).0.value;
      Field(v, "outcome") == OutcomeValue(Outcomes.ERROR) && Field(v, "errors") == Arr([e])
  {
    var br := BaseResult(item, if doSkip then Outcomes.SKIPPED else Outcomes.SUCCESS, m);
    assert br.Ok?;
    assert Finish(item, doSkip, m, Threw(e), b).0 == Done(Merge(br.value, Caught(Threw(e))));
    MergedError(br.value, e);
  }

  /** The error result overlaid on a base result decides its outcome and its errors. */
  lemma MergedError(base: Value, e: Value)
    requires base.Obj? && UniqueKeys(base.props)
    ensures var v := Merge(base, Caught(Threw(e)));
      Field(v, "outcome") == OutcomeValue(Outcomes.ERROR) && Field(v, "errors") == Arr([e])
  {
    var caught := Caught(Threw(e));
    assert UniqueKeys(SpreadProps(base));
    MergeLookup(base, caught, "outcome");
    MergeLookup(base, caught, "errors");
    GetHas(caught.props, "outcome");
    GetHas(caught.props, "errors");
    LastGetUnique(caught.props, "outcome");
    LastGetUnique(caught.props, "errors");
  }

  /** A plugin result that says nothing about the outcome keeps the base one: SKIPPED when
      skipping, else SUCCESS; one that does decides it. */
  lemma FinishOutcome(item: Value, doSkip: bool, m: Measurement, v: Value, b: Book)
    requires Finish(item, doSkip, m, Ok(v), b).0.Done?
    ensures var r := Finish(item, doSkip, m, Ok(v), b).0.value;
      Field(r, "outcome") ==
        if Has(SpreadProps(v), "outcome") then LastGet(SpreadProps(v), "outcome")
        else OutcomeValue(if doSkip then Outcomes.SKIPPED else Outcomes.SUCCESS)
  {
    var br := BaseResult(item, if doSkip then Outcomes.SKIPPED else Outcomes.SUCCESS, m);
    assert br.Ok?;
    var base := br.value;
    assert Finish(item, doSkip, m, Ok(v), b).0.value == Merge(base, v);
    assert UniqueKeys(SpreadProps(base));
    MergeLookup(base, v, "outcome");
  }

  /** An item whose plugin is found but whose context is missing throws at once: nothing is
      measured, stored or sent. */
  lemma RunMissingContext(env: Env, item: Value, doSkip: bool, fuel: nat, b: Book)
    requires Select(env.registry, Field(item, "context"), item).Ok? && !Truthy(Field(item, "context"))
    ensures var (c, b') := RunSpec(env, item, doSkip, fuel, b);
      c.ThrownSync? && b' == b
  {
  }

  /** The environment with another evaluator, edition and cancel point: the same registry and
      clock. */
  function Varied(env: Env, eval: ItemHelpers.Evaluator, edition: Edition, cancelAt: nat): Env
  {
    env.(eval := eval, edition := edition, cancelAt := cancelAt)
  }

  /** A skipped item evaluates no expression, does not depend on the edition and starts no run:
      skipping runs the same whatever the evaluator, the edition and the cancel point, suites
      included, since a skipped suite skips its children. */
  lemma {:induction false} SkipEvalFree(env: Env, eval: ItemHelpers.Evaluator, edition: Edition, cancelAt: nat,
                                        item: Value, fuel: nat, b: Book)
    ensures RunSpec(env, item, true, fuel, b) == RunSpec(Varied(env, eval, edition, cancelAt), item, true, fuel, b)
    decreases fuel, 3, 0
  {
    var other := Varied(env, eval, edition, cancelAt);
    var context := Field(item, "context");
    var sel := Select(env.registry, context, item);
    if sel.Ok? && Truthy(context) {
      assert Prepared(env, sel.value, item, true, b.results) == Ok(RunProps(sel.value, item));
      assert Prepared(other, sel.value, item, true, b.results) == Ok(RunProps(sel.value, item));
      HookSkipEvalFree(env, eval, edition, cancelAt, sel.value, RunProps(sel.value, item), fuel,
                       b.(calls := b.calls + 1));
      assert Attempt(env, sel.value, item, true, fuel, b) == Attempt(other, sel.value, item, true, fuel, b);
    }
  }

  lemma {:induction false} HookSkipEvalFree(env: Env, eval: ItemHelpers.Evaluator, edition: Edition, cancelAt: nat,
                                            plugin: Plugin, it: Value, fuel: nat, b: Book)
    ensures HookSpec(env, plugin, it, true, fuel, b) ==
            HookSpec(Varied(env, eval, edition, cancelAt), plugin, it, true, fuel, b)
    decreases fuel, 2, 0
  {
    if plugin.BuiltinSuite? && fuel > 0 {
      SuiteSkipEvalFree(env, eval, edition, cancelAt, it, fuel, b);
    }
  }

  lemma {:induction false} SuiteSkipEvalFree(env: Env, eval: ItemHelpers.Evaluator, edition: Edition, cancelAt: nat,
                                             it: Value, fuel: nat, b: Book)
    requires fuel > 0
    ensures SuiteSkipSpec(env, it, fuel, b) == SuiteSkipSpec(Varied(env, eval, edition, cancelAt), it, fuel, b)
    decreases fuel, 1, 0
  {
    var items := Field(it, "items");
    if items.Arr? {
      SkipAllEvalFree(env, eval, edition, cancelAt, items.elems, fuel, b);
    }
  }

  /** Two environments whose first skip agrees, and whose remaining skips agree after it,
      agree on the whole `SkipAllSpec`. */
  lemma SkipAllSame(env1: Env, env2: Env, children: seq<Value>, fuel: nat, b: Book)
    requires fuel > 0 && |children| > 0
    requires RunSpec(env1, children[0], true, fuel - 1, b) == RunSpec(env2, children[0], true, fuel - 1, b)
    requires var p := RunSpec(env1, children[0], true, fuel - 1, b);
      !p.0.ThrownSync? ==> SkipAllSpec(env1, children[1..], fuel, p.1) == SkipAllSpec(env2, children[1..], fuel, p.1)
    ensures SkipAllSpec(env1, children, fuel, b) == SkipAllSpec(env2, children, fuel, b)
  {
    SkipStep(env1, children, fuel, b);
    SkipStep(env2, children, fuel, b);
  }

  lemma {:induction false} SkipAllEvalFree(env: Env, eval: ItemHelpers.Evaluator, edition: Edition, cancelAt: nat,
                                           children: seq<Value>, fuel: nat, b: Book)
    requires fuel > 0
    ensures SkipAllSpec(env, children, fuel, b) == SkipAllSpec(Varied(env, eval, edition, cancelAt), children, fuel, b)
    decreases fuel, 0, |children|
  {
    if |children| > 0 {
      SkipEvalFree(env, eval, edition, cancelAt, children[0], fuel - 1, b);
      var p := RunSpec(env, children[0], true, fuel - 1, b);
      if !p.0.ThrownSync? {
        SkipAllEvalFree(env, eval, edition, cancelAt, children[1..], fuel, p.1);
      }
      SkipAllSame(env, Varied(env, eval, edition, cancelAt), children, fuel, b);
    }
  }

  /** Once the job has been cancelled, the rest of it evaluates no expression and runs the same in
      either edition: every item started from then on is skipped, and skipping starts no run. */
  lemma {:induction false} CancelledJobEvalFree(env: Env, eval: ItemHelpers.Evaluator, edition: Edition,
                                                cancelAt: nat, items: seq<Value>, fuel: nat, done: seq<Value>, b: Book)
    requires b.runs >= env.cancelAt && b.runs >= cancelAt
    ensures JobSpec(env, items, fuel, done, b) == JobSpec(Varied(env, eval, edition, cancelAt), items, fuel, done, b)
    decreases |items|
  {
    if |items| > 0 {
      SkipEvalFree(env, eval, edition, cancelAt, items[0], fuel, b.(runs := b.runs + 1));
      var (c, b1) := RunItemSpec(env, items[0], fuel, b);
      if c.Done? {
        CancelledJobEvalFree(env, eval, edition, cancelAt, items[1..], fuel, done + [c.value], b1);
      }
    }
  }

  // ---------------------------------------------------------------------------------------------
  // Cancellation

  /** The item's plugin, when it is found, leaves a skipped item's outcome alone: it is the
      built-in assign plugin, or a plugin without a `skip` hook of its own. */
  predicate QuietSkip(registry: map<string, Plugin>, item: Value)
  {
    var sel := Select(registry, Field(item, "context"), item);
    sel.Ok? ==> sel.value.BuiltinAssign? || (sel.value.Custom? && sel.value.hooks.skip.None?)
  }

  /** A skipped item whose plugin leaves the outcome alone ends SKIPPED. */
  lemma SkippedOutcome(env: Env, item: Value, fuel: nat, b: Book)
    requires QuietSkip(env.registry, item)
    requires RunSpec(env, item, true, fuel, b).0.Done?
    ensures Field(RunSpec(env, item, true, fuel, b).0.value, "outcome") == OutcomeValue(Outcomes.SKIPPED)
  {
    RunMeasured(env, item, true, fuel, b);
    MeasuredQuietSkip(env, Select(env.registry, Field(item, "context"), item).value, item, fuel, b);
  }

  /** An item started with `run` once the job has been cancelled is skipped, and ends SKIPPED
      when its plugin leaves the outcome alone. */
  lemma StartedAfterCancel(env: Env, item: Value, fuel: nat, b: Book)
    requires b.runs >= env.cancelAt
    requires QuietSkip(env.registry, item) && RunItemSpec(env, item, fuel, b).0.Done?
    ensures Field(RunItemSpec(env, item, fuel, b).0.value, "outcome") == OutcomeValue(Outcomes.SKIPPED)
  {
    SkippedOutcome(env, item, fuel, b.(runs := b.runs + 1));
  }

  /** A handler call that settles gets past its synchronous checks. */
  lemma RunMeasured(env: Env, item: Value, doSkip: bool, fuel: nat, b: Book)
    requires !RunSpec(env, item, doSkip, fuel, b).0.ThrownSync?
    ensures var sel := Select(env.registry, Field(item, "context"), item);
      sel.Ok? && RunSpec(env, item, doSkip, fuel, b) == MeasuredSpec(env, sel.value, item, doSkip, fuel, b)
  {
  }

  lemma MeasuredQuietSkip(env: Env, plugin: Plugin, item: Value, fuel: nat, b: Book)
    requires plugin.BuiltinAssign? || (plugin.Custom? && plugin.hooks.skip.None?)
    requires MeasuredSpec(env, plugin, item, true, fuel, b).0.Done?
    ensures Field(MeasuredSpec(env, plugin, item, true, fuel, b).0.value, "outcome") == OutcomeValue(Outcomes.SKIPPED)
  {
    var b1 := b.(calls := b.calls + 1);
    QuietAttempt(env, plugin, item, fuel, b);
    MeasuredUnfold(env, plugin, item, true, fuel, b, Ok(Undefined), b1);
    assert SpreadProps(Undefined) == [];
    FinishOutcome(item, true, env.clock(b.calls), Undefined, b1);
  }

  /** A handler call past its checks is the record of the attempt's outcome. */
  lemma MeasuredUnfold(env: Env, plugin: Plugin, item: Value, doSkip: bool, fuel: nat, b: Book,
                       o: Try<Value>, b2: Book)
    requires Attempt(env, plugin, item, doSkip, fuel, b) == (o, b2)
    ensures MeasuredSpec(env, plugin, item, doSkip, fuel, b) == Finish(item, doSkip, env.clock(b.calls), o, b2)
  {
  }

  /** Skipping an item whose plugin has no skip hook of its own measures it and resolves with
      nothing. */
  lemma QuietAttempt(env: Env, plugin: Plugin, item: Value, fuel: nat, b: Book)
    requires plugin.BuiltinAssign? || (plugin.Custom? && plugin.hooks.skip.None?)
    ensures Attempt(env, plugin, item, true, fuel, b) == (Ok(Undefined), b.(calls := b.calls + 1))
  {
    assert Prepared(env, plugin, item, true, b.results) == Ok(RunProps(plugin, item));
    QuietHook(env, plugin, RunProps(plugin, item), fuel, b.(calls := b.calls + 1));
  }

  /** The skip hook of a plugin that has none of its own resolves with nothing. */
  lemma QuietHook(env: Env, plugin: Plugin, it: Value, fuel: nat, b: Book)
    requires plugin.BuiltinAssign? || (plugin.Custom? && plugin.hooks.skip.None?)
    ensures HookSpec(env, plugin, it, true, fuel, b) == (Ok(Undefined), b)
  {
  }

  /** Every result from position `from` on is SKIPPED when the item it is about was started by a
      `run` call at or after the cancel point, the item at `from` having been started by the call
      numbered at least `runs` and each later one by a later call. */
  predicate SkippedAfter(results: seq<Value>, from: nat, runs: nat, cancelAt: nat)
  {
    forall i | from <= i < |results| && runs + (i - from) >= cancelAt ::
      Field(results[i], "outcome") == OutcomeValue(Outcomes.SKIPPED)
  }

  /** `SkippedAfter` from one position, given the result there and `SkippedAfter` from the next,
      whose first item was started by a later call. */
  lemma SkippedAfterStep(results: seq<Value>, from: nat, runs: nat, next: nat, cancelAt: nat)
    requires from < |results| && next > runs
    requires runs >= cancelAt ==> Field(results[from], "outcome") == OutcomeValue(Outcomes.SKIPPED)
    requires SkippedAfter(results, from + 1, next, cancelAt)
    ensures SkippedAfter(results, from, runs, cancelAt)
  {
    forall i | from <= i < |results| && runs + (i - from) >= cancelAt
      ensures Field(results[i], "outcome") == OutcomeValue(Outcomes.SKIPPED)
    {
      if i > from {
        assert next + (i - (from + 1)) >= cancelAt;
      }
    }
  }

  /** `SkippedAfter` over a list after its first element is `SkippedAfter` over its tail. */
  lemma SkippedAfterTail(results: seq<Value>, runs: nat, cancelAt: nat)
    requires |results| > 0 && SkippedAfter(results[1..], 0, runs, cancelAt)
    ensures SkippedAfter(results, 1, runs, cancelAt)
  {
    forall i | 1 <= i < |results| && runs + (i - 1) >= cancelAt
      ensures Field(results[i], "outcome") == OutcomeValue(Outcomes.SKIPPED)
    {
      assert results[i] == results[1..][i - 1];
    }
  }

  /** Every child of a suite that is started once the job has been cancelled ends SKIPPED: child
      `i` is started by the `run` call numbered at least `b.runs + i`, so every child from the one
      that call reaches the cancel point on is skipped, also when the suite itself was started
      before the cancellation. */
  lemma {:induction false} ChildrenCancelled(env: Env, suite: Value, index: nat, children: seq<Value>,
                                             stopAfter: Value, fuel: nat, b: Book)
    requires fuel > 0
    requires forall i | 0 <= i < |children| :: QuietSkip(env.registry, children[i])
    requires ChildrenSpec(env, suite, index, children, stopAfter, fuel, b).0.Ok?
    ensures SkippedAfter(ChildrenSpec(env, suite, index, children, stopAfter, fuel, b).0.value, 0, b.runs, env.cancelAt)
    decreases |children|, 1
  {
    if |children| > 0 {
      var p := FirstChild(env, suite, index, children, fuel, b);
      ChildrenUnfold(env, suite, index, children, stopAfter, fuel, b);
      if b.runs >= env.cancelAt && p.0.Done? {
        StartedAfterCancel(env, children[0], fuel - 1, Inside(b, suite, index, |children|));
      }
      AfterChildCancelled(env, suite, index, children, stopAfter, fuel, p.0, p.1, b.runs);
    }
  }

  /** `ChildrenCancelled` once the first child, started by the call numbered `runs`, has
      settled as `c`. */
  lemma {:induction false} AfterChildCancelled(env: Env, suite: Value, index: nat, children: seq<Value>,
                                               stopAfter: Value, fuel: nat, c: Settled, b1: Book, runs: nat)
    requires fuel > 0 && |children| > 0 && b1.runs > runs
    requires forall i | 0 <= i < |children| :: QuietSkip(env.registry, children[i])
    requires runs >= env.cancelAt && c.Done? ==> Field(c.value, "outcome") == OutcomeValue(Outcomes.SKIPPED)
    requires AfterChild(env, suite, index, children, stopAfter, fuel, c, b1).0.Ok?
    ensures SkippedAfter(AfterChild(env, suite, index, children, stopAfter, fuel, c, b1).0.value, 0, runs, env.cancelAt)
    decreases |children|, 0
  {
    var done := AfterChild(env, suite, index, children, stopAfter, fuel, c, b1).0.value;
    if !ShouldStop(Field(c.value, "outcome"), stopAfter) {
      var b2 := ChildReported(suite, index, |children|, b1);
      var rest := ChildrenSpec(env, suite, index + 1, children[1..], stopAfter, fuel, b2).0.value;
      assert done == [c.value] + rest;
      QuietTail(env.registry, children);
      ChildrenCancelled(env, suite, index + 1, children[1..], stopAfter, fuel, b2);
      assert done[1..] == rest;
      SkippedAfterTail(done, b1.runs, env.cancelAt);
    }
    SkippedAfterStep(done, 0, runs, b1.runs, env.cancelAt);
  }

  /** The sequence over the children, when it resolves: the first child resolved, its result
      comes first followed by the suite's report, and when more follow it did not stop the
      sequence and the rest is the sequence over the other children. */
  lemma ChildrenNext(env: Env, suite: Value, index: nat, children: seq<Value>, stopAfter: Value, fuel: nat, b: Book)
    requires fuel > 0 && |children| > 0
    requires ChildrenSpec(env, suite, index, children, stopAfter, fuel, b).0.Ok?
    ensures var done := ChildrenSpec(env, suite, index, children, stopAfter, fuel, b).0.value;
      var p := FirstChild(env, suite, index, children, fuel, b);
      var b2 := ChildReported(suite, index, |children|, p.1);
      p.0.Done? && |done| > 0 && done[0] == p.0.value &&
      (|done| > 1 ==> ChildrenSpec(env, suite, index + 1, children[1..], stopAfter, fuel, b2).0.Ok? &&
                      done[1..] == ChildrenSpec(env, suite, index + 1, children[1..], stopAfter, fuel, b2).0.value)
  {
    ChildrenUnfold(env, suite, index, children, stopAfter, fuel, b);
  }

  /** Every item of a list after the first leaves skipped outcomes alone when every item does. */
  lemma QuietTail(registry: map<string, Plugin>, items: seq<Value>)
    requires |items| > 0 && forall i | 0 <= i < |items| :: QuietSkip(registry, items[i])
    ensures forall i | 0 <= i < |items[1..]| :: QuietSkip(registry, items[1..][i])
  {
    forall i | 0 <= i < |items[1..]| ensures QuietSkip(registry, items[1..][i]) {
      assert items[1..][i] == items[i + 1];
    }
  }

  /** Every item of a job that is started once the job has been cancelled ends SKIPPED: item `i`
      after the results `done` is started by the `run` call numbered at least `b.runs + i`. With
      no run made yet, every item from position `cancelAt` on is SKIPPED. */
  lemma {:induction false} JobCancelled(env: Env, items: seq<Value>, fuel: nat, done: seq<Value>, b: Book)
    requires forall i | 0 <= i < |items| :: QuietSkip(env.registry, items[i])
    requires JobSpec(env, items, fuel, done, b).0.Ok?
    ensures SkippedAfter(JobSpec(env, items, fuel, done, b).0.value, |done|, b.runs, env.cancelAt)
    decreases |items|
  {
    var all := JobSpec(env, items, fuel, done, b).0.value;
    if |items| > 0 {
      var p := RunItemSpec(env, items[0], fuel, b);
      JobNext(env, items, fuel, done, b);
      if b.runs >= env.cancelAt {
        StartedAfterCancel(env, items[0], fuel, b);
      }
      QuietTail(env.registry, items);
      JobCancelled(env, items[1..], fuel, done + [p.0.value], p.1);
      SkippedAfterStep(all, |done|, b.runs, p.1.runs, env.cancelAt);
    }
  }

  /** The job's sequence, when it resolves: the first item resolved, and the rest is the sequence
      over the other items with its result appended. */
  lemma JobNext(env: Env, items: seq<Value>, fuel: nat, done: seq<Value>, b: Book)
    requires |items| > 0 && JobSpec(env, items, fuel, done, b).0.Ok?
    ensures var p := RunItemSpec(env, items[0], fuel, b);
      p.0.Done? && JobSpec(env, items, fuel, done, b) == JobSpec(env, items[1..], fuel, done + [p.0.value], p.1) &&
      JobSpec(env, items, fuel, done, b).0.value[|done|] == p.0.value
  {
    var p := RunItemSpec(env, items[0], fuel, b);
    var all := JobSpec(env, items[1..], fuel, done + [p.0.value], p.1).0.value;
    assert all[..|done| + 1] == done + [p.0.value];
    assert all[|done|] == (done + [p.0.value])[|done|];
  }

  // ---------------------------------------------------------------------------------------------
  // Steps of the sequences, for the runner's loops

  /** The results of the children still to come, after the results `done` of those before. */
  function WithDone(done: seq<Value>, r: (Try<seq<Value>>, Book)): (Try<seq<Value>>, Book)
  {
    (if r.0.Ok? then Ok(done + r.0.value) else r.0, r.1)
  }

  /** One step of `ChildrenSpec`: the first child settled as `c`, leaving the book at `b1`. */
  lemma ChildStep(env: Env, suite: Value, index: nat, children: seq<Value>, stopAfter: Value, fuel: nat,
                  done: seq<Value>, c: Settled, b1: Book)
    requires fuel > 0 && |children| > 0
    ensures c.ThrownSync? ==>
      WithDone(done, AfterChild(env, suite, index, children, stopAfter, fuel, c, b1)) == (Threw(c.error), b1)
    ensures c.Rejected? ==>
      WithDone(done, AfterChild(env, suite, index, children, stopAfter, fuel, c, b1)) == (Threw(c.reason), b1)
    ensures c.Done? && ShouldStop(Field(c.value, "outcome"), stopAfter) ==>
      WithDone(done, AfterChild(env, suite, index, children, stopAfter, fuel, c, b1)) ==
      (Ok(done + [c.value]), ChildReported(suite, index, |children|, b1))
    ensures c.Done? && !ShouldStop(Field(c.value, "outcome"), stopAfter) ==>
      WithDone(done, AfterChild(env, suite, index, children, stopAfter, fuel, c, b1)) ==
      WithDone(done + [c.value], ChildrenSpec(env, suite, index + 1, children[1..], stopAfter, fuel,
                                             ChildReported(suite, index, |children|, b1)))
  {
    if c.Done? && !ShouldStop(Field(c.value, "outcome"), stopAfter) {
      var rest := ChildrenSpec(env, suite, index + 1, children[1..], stopAfter, fuel,
                               ChildReported(suite, index, |children|, b1));
      if rest.0.Ok? {
        assert done + ([c.value] + rest.0.value) == (done + [c.value]) + rest.0.value;
      }
    }
  }

  /** The sequence over children is the first child's run followed by the rest. */
  lemma ChildrenUnfold(env: Env, suite: Value, index: nat, children: seq<Value>, stopAfter: Value, fuel: nat, b: Book)
    requires fuel > 0 && |children| > 0
    ensures var p := FirstChild(env, suite, index, children, fuel, b);
      ChildrenSpec(env, suite, index, children, stopAfter, fuel, b) ==
        AfterChild(env, suite, index, children, stopAfter, fuel, p.0, p.1)
  {
  }

  /** The sequence over children, its results so far being `done`, after the first child. */
  lemma ChildrenStep(env: Env, suite: Value, index: nat, children: seq<Value>, stopAfter: Value, fuel: nat,
                     done: seq<Value>, b: Book)
    requires fuel > 0 && |children| > 0
    ensures var p := FirstChild(env, suite, index, children, fuel, b);
      WithDone(done, ChildrenSpec(env, suite, index, children, stopAfter, fuel, b)) ==
        match p.0
        case ThrownSync(e) => (Threw(e), p.1)
        case Rejected(e) => (Threw(e), p.1)
        case Done(v) =>
          var b2 := ChildReported(suite, index, |children|, p.1);
          if ShouldStop(Field(v, "outcome"), stopAfter) then (Ok(done + [v]), b2)
          else WithDone(done + [v], ChildrenSpec(env, suite, index + 1, children[1..], stopAfter, fuel, b2))
  {
    var p := FirstChild(env, suite, index, children, fuel, b);
    ChildrenUnfold(env, suite, index, children, stopAfter, fuel, b);
    ChildStep(env, suite, index, children, stopAfter, fuel, done, p.0, p.1);
  }

  /** One step of `SkipAllSpec`: the first child's skip, then the others unless it threw. */
  lemma SkipStep(env: Env, children: seq<Value>, fuel: nat, b: Book)
    requires fuel > 0 && |children| > 0
    ensures var p := RunSpec(env, children[0], true, fuel - 1, b);
      SkipAllSpec(env, children, fuel, b) ==
        if p.0.ThrownSync? then (Some(p.0.error), p.1) else SkipAllSpec(env, children[1..], fuel, p.1)
  {
  }

  /** `SkipStep` at position `i`, once the skip of `children[i]` has settled as `c`, leaving `b1`. */
  lemma SkipNext(env: Env, children: seq<Value>, i: nat, fuel: nat, b: Book, c: Settled, b1: Book)
    requires fuel > 0 && i < |children|
    requires RunSpec(env, children[i], true, fuel - 1, b) == (c, b1)
    ensures SkipAllSpec(env, children[i..], fuel, b) ==
              if c.ThrownSync? then (Some(c.error), b1) else SkipAllSpec(env, children[i + 1..], fuel, b1)
  {
    assert children[i..][0] == children[i] && children[i..][1..] == children[i + 1..];
    SkipStep(env, children[i..], fuel, b);
  }

  // ---------------------------------------------------------------------------------------------
  // The runner

  /** The state `runJob` keeps while it runs a job: `$results`, the notifications it has sent to
      the job, the number of measurements taken, and the number of `run` calls made (which, with
      the environment's cancel point, stands for the `cancelled` flag). */
  class Runner {
    const env: Env
    var results: seq<Prop>
    var sent: seq<Notice>
    var calls: nat
    var runs: nat
    var suites: seq<Frame>

    function Snapshot(): Book
      reads this
    {
      Book(results, sent, calls, runs, suites)
    }

    constructor (env: Env)
      ensures this.env == env && Snapshot() == Book([], [], 0, 0, [])
    {
      this.env := env;
      results := [];
      sent := [];
      calls := 0;
      runs := 0;
      suites := [];
    }

    /** `runJob(jobState)` over the job's items. */
    method RunJob(items: seq<Value>, finished: string, fuel: nat) returns (r: Try<bool>)
      modifies this
      ensures r == RunJobSpec(env, items, finished, fuel, old(Snapshot())).0
      ensures Snapshot() == RunJobSpec(env, items, finished, fuel, old(Snapshot())).1
    {
      ghost var goal := JobSpec(env, items, fuel, [], Snapshot());
      var done: seq<Value> := [];
      for i := 0 to |items|
        invariant |done| == i
        invariant JobSpec(env, items[i..], fuel, done, Snapshot()) == goal
      {
        assert items[i..][0] == items[i] && items[i..][1..] == items[i + 1..];
        var c := RunItem(items[i], fuel);
        match c
        case Done(v) =>
          done := done + [v];
        case Rejected(e) =>
          return Threw(e);
        case ThrownSync(e) =>
          return Threw(e);
      }
      assert items[|items|..] == [];
      var outcome := WorstOfValues(OutcomeFields(done));
      sent := sent + [Notice(State.META, Obj([Prop("outcome", outcome), Prop("finished", Str(finished))]))];
      r := Ok(outcome == OutcomeValue(Outcomes.SUCCESS));
    }

    /** `runner.run(item)`: the cancel flag as it stands at this call, then the type handler. */
    method RunItem(item: Value, fuel: nat) returns (c: Settled)
      modifies this
      ensures (c, Snapshot()) == RunItemSpec(env, item, fuel, old(Snapshot()))
      decreases fuel, 4
    {
      var cancelled := runs >= env.cancelAt;
      runs := runs + 1;
      c := Run(item, cancelled, fuel);
    }

    /** `typeHandler(item.context, item)(doSkip)`. */
    method Run(item: Value, doSkip: bool, fuel: nat) returns (c: Settled)
      modifies this
      ensures c == RunSpec(env, item, doSkip, fuel, old(Snapshot())).0
      ensures Snapshot() == RunSpec(env, item, doSkip, fuel, old(Snapshot())).1
      decreases fuel, 3, 1
    {
      var context := Field(item, "context");
      var selected := Select(env.registry, context, item);
      if selected.Threw? {
        return ThrownSync(selected.error);
      }
      if !Truthy(context) {
        return ThrownSync(MissingContext(item));
      }
      c := Measured(selected.value, item, doSkip, fuel);
    }

    /** The handler past its synchronous checks. */
    method Measured(plugin: Plugin, item: Value, doSkip: bool, fuel: nat) returns (c: Settled)
      modifies this
      ensures (c, Snapshot()) == MeasuredSpec(env, plugin, item, doSkip, fuel, old(Snapshot()))
      decreases fuel, 3, 0
    {
      ghost var b := Snapshot();
      var m := env.clock(calls);
      var prepared := Prepared(env, plugin, item, doSkip, results);
      calls := calls + 1;
      var outcome: Try<Value>;
      if prepared.Threw? {
        outcome := Threw(prepared.error);
      } else {
        outcome := Hook(plugin, prepared.value, doSkip, fuel);
      }
      assert (outcome, Snapshot()) == Attempt(env, plugin, item, doSkip, fuel, b);
      c := Record(item, doSkip, m, outcome);
    }

    /** The last steps of a handler: the result is merged, stored and sent. */
    method Record(item: Value, doSkip: bool, m: Measurement, outcome: Try<Value>) returns (c: Settled)
      modifies this
      ensures (c, Snapshot()) == Finish(item, doSkip, m, outcome, old(Snapshot()))
    {
      ghost var b := Snapshot();
      var base := BaseResult(item, if doSkip then Outcomes.SKIPPED else Outcomes.SUCCESS, m);
      FinishCases(item, doSkip, m, outcome, b);
      if base.Threw? {
        return Rejected(base.error);
      }
      var final := Merge(base.value, Caught(outcome));
      var name := ToText(Field(item, "name"));
      results := Put(results, name, final);
      sent := sent + [Notice(State.RESULT, final)];
      c := Done(final);
    }

    /** The plugin's `skip` or `run` hook. */
    method Hook(plugin: Plugin, it: Value, doSkip: bool, fuel: nat) returns (outcome: Try<Value>)
      modifies this
      ensures outcome == HookSpec(env, plugin, it, doSkip, fuel, old(Snapshot())).0
      ensures Snapshot() == HookSpec(env, plugin, it, doSkip, fuel, old(Snapshot())).1
      decreases fuel, 2, 0
    {
      if !doSkip && IsNullish(it) {
        return Threw(EnabledError);
      }
      var skipping := Skipping(it, doSkip);
      match plugin
      case BuiltinAssign =>
        outcome := if skipping then Ok(Undefined) else AssignPlugin.Run(it);
      case Custom(h) =>
        if skipping {
          outcome := if h.skip.Some? then h.skip.value(it) else Ok(Undefined);
        } else {
          outcome := if h.run.Some? then h.run.value(it) else Ok(Undefined);
        }
      case BuiltinSuite =>
        if fuel == 0 {
          outcome := Threw(CallStackExceeded);
        } else if skipping {
          outcome := SuiteSkip(it, fuel);
        } else {
          outcome := SuiteRun(it, fuel);
        }
    }

    /** The suite plugin's `run`. */
    method SuiteRun(it: Value, fuel: nat) returns (outcome: Try<Value>)
      requires fuel > 0
      modifies this
      ensures outcome == SuiteRunSpec(env, it, fuel, old(Snapshot())).0
      ensures Snapshot() == SuiteRunSpec(env, it, fuel, old(Snapshot())).1
      decreases fuel, 1, 0
    {
      var items := Field(it, "items");
      var context := Field(it, "context");
      if !items.Arr? {
        return Threw(ItemsError);
      }
      if IsNullish(context) {
        return Threw(StopAfterError);
      }
      var reached := RunChildren(Field(it, "$id"), items.elems, StopAfter(env.edition, context), fuel);
      if reached.Threw? {
        return Threw(reached.error);
      }
      var before := results;
      var thrown := SkipAll(items.elems[|reached.value|..], fuel);
      if thrown.Some? {
        return Threw(thrown.value);
      }
      outcome := SummaryWith(Interp(env), it, reached.value + Pendings(|items.elems| - |reached.value|), before,
                             NameOf(env.edition));
    }

    /** The suite plugin's `skip`. */
    method SuiteSkip(it: Value, fuel: nat) returns (outcome: Try<Value>)
      requires fuel > 0
      modifies this
      ensures outcome == SuiteSkipSpec(env, it, fuel, old(Snapshot())).0
      ensures Snapshot() == SuiteSkipSpec(env, it, fuel, old(Snapshot())).1
      decreases fuel, 1, 0
    {
      var items := Field(it, "items");
      if !items.Arr? {
        return Threw(ItemsError);
      }
      var thrown := SkipAll(items.elems, fuel);
      outcome := if thrown.Some? then Threw(thrown.value) else Ok(Arr(Pendings(|items.elems|)));
    }

    /** The suite's `sequence(actions, stopAfter)`, with the suite's progress reports. */
    method RunChildren(suite: Value, children: seq<Value>, stopAfter: Value, fuel: nat) returns (r: Try<seq<Value>>)
      requires fuel > 0
      modifies this
      ensures r == ChildrenSpec(env, suite, 0, children, stopAfter, fuel, old(Snapshot())).0
      ensures Snapshot() == ChildrenSpec(env, suite, 0, children, stopAfter, fuel, old(Snapshot())).1
      decreases fuel, 0, 1
    {
      ghost var goal := ChildrenSpec(env, suite, 0, children, stopAfter, fuel, Snapshot());
      assert goal.0.Ok? ==> [] + goal.0.value == goal.0.value;
      var done: seq<Value> := [];
      var rest := children;
      var index := 0;
      while |rest| > 0
        invariant WithDone(done, ChildrenSpec(env, suite, index, rest, stopAfter, fuel, Snapshot())) == goal
      {
        var stop;
        stop, r, done := RunChild(suite, index, rest, stopAfter, fuel, done);
        if stop {
          return;
        }
        rest := rest[1..];
        index := index + 1;
      }
      assert done + [] == done;
      r := Ok(done);
    }

    /** One action of the suite's sequence: the first of `children`, the suite's child at
        `index`, runs while the suite relays its progress; once it resolves the suite reports its
        new progress, and the sequence stops after a failure or an outcome that reaches
        `stopAfter`. */
    method RunChild(suite: Value, index: nat, children: seq<Value>, stopAfter: Value, fuel: nat, done: seq<Value>)
      returns (stop: bool, r: Try<seq<Value>>, done': seq<Value>)
      requires fuel > 0 && |children| > 0
      modifies this
      ensures stop ==>
        WithDone(done, ChildrenSpec(env, suite, index, children, stopAfter, fuel, old(Snapshot()))) == (r, Snapshot())
      ensures !stop ==>
        WithDone(done, ChildrenSpec(env, suite, index, children, stopAfter, fuel, old(Snapshot()))) ==
        WithDone(done', ChildrenSpec(env, suite, index + 1, children[1..], stopAfter, fuel, Snapshot()))
      decreases fuel, 0, 0
    {
      ghost var before := Snapshot();
      var outer := suites;
      suites := outer + [Frame(suite, index, |children| - 1)];
      var c := RunItem(children[0], fuel - 1);
      suites := outer;
      ChildrenStep(env, suite, index, children, stopAfter, fuel, done, before);
      ghost var p := FirstChild(env, suite, index, children, fuel, before);
      assert p == (c, Snapshot());
      done' := done;
      match c
      case ThrownSync(e) =>
        stop, r := true, Threw(e);
      case Rejected(e) =>
        stop, r := true, Threw(e);
      case Done(v) =>
        sent := sent + ProgressChain(suites, suite, ChildDone(index, index + |children|));
        done' := done + [v];
        stop, r := ShouldStop(Field(v, "outcome"), stopAfter), Ok(done');
    }

    /** `runner.skip` for each of the children, in order. */
    method SkipAll(children: seq<Value>, fuel: nat) returns (thrown: Option<Value>)
      requires fuel > 0
      modifies this
      ensures thrown == SkipAllSpec(env, children, fuel, old(Snapshot())).0
      ensures Snapshot() == SkipAllSpec(env, children, fuel, old(Snapshot())).1
      decreases fuel, 0
    {
      ghost var goal := SkipAllSpec(env, children, fuel, Snapshot());
      for i := 0 to |children|
        invariant SkipAllSpec(env, children[i..], fuel, Snapshot()) == goal
      {
        ghost var before := Snapshot();
        var c := Run(children[i], true, fuel - 1);
        ghost var p := RunSpec(env, children[i], true, fuel - 1, before);
        assert p == (c, Snapshot());
        SkipNext(env, children, i, fuel, before, c, Snapshot());
        if c.ThrownSync? {
          return Some(c.error);
        }
      }
      assert children[|children|..] == [];
      thrown := None;
    }
  }
}
