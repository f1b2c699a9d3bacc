/** The item loader: it names items with a per-loader counter, rejects items that set their own
    `context`, extracts the plugin's preprocessing properties and hands the item to the plugin's
    `pre` hook (recursively, for suites); `loadScenarios` preprocesses a batch of loaded files. */
module Loader {
  import opened Strings
  import opened Values
  import ItemHelpers
  import opened PluginLoader
  import AssignPlugin

  /** How a call to `pre` ends: a promise that resolves or rejects, or an exception thrown before
      any promise exists. The difference matters inside a suite: a thrown exception stops the
      preprocessing of the remaining children, a rejection does not. */
  datatype PreResult = Resolved(value: Value) | Rejected(reason: Value) | ThrownSync(error: Value)
  {
    function Failure(): Value
      requires !Resolved?
    {
      if Rejected? then reason else error
    }
  }

  /** What the loader works with: the plugin registry and the interpretation of `:key` expressions
      (the evaluator and the edition of `interpret`). */
  datatype Env = Env(registry: map<string, Plugin>, interp: ItemHelpers.Interpreter)

  /** The JavaScript call stack is finite; preprocessing suites nested deeper than the `fuel`
      given ends with the error an exhausted stack raises. */
  const CallStackExceeded := Error("RangeError: Maximum call stack size exceeded")

  /** `item.items.map(...)` on something that is not an array. */
  const ItemsNotArray := Error("TypeError: item.items.map is not a function")

  const ContextMessage := "items cannot set \"context\". Use \"defaults\" or \"overrides\""

  /** The value `throw itemError(...)` throws. */
  function Thrown(built: Try<Value>): Value
  {
    match built
    case Ok(e) => e
    case Threw(e) => e
  }

  /** `$<type>-<id>` */
  function DefaultName(item: Value, id: nat): string
  {
    "$" + ToText(Field(item, "type")) + "-" + NatToString(id)
  }

  /** `ensureNamed(item)` with the new id: `{ name, ...item, $id: id }`. */
  function Named(item: Value, id: nat): Value
  {
    Obj(Put(Assign([Prop("name", Str(DefaultName(item, id)))], SpreadProps(item)), "$id", Num(id)))
  }

  /** The named item has the new id, its own name if it has one and `$<type>-<id>` otherwise, and
      every other property of the item unchanged. */
  lemma NamedLookup(item: Value, id: nat, k: string)
    requires UniqueKeys(SpreadProps(item))
    ensures Get(Named(item, id).props, k) ==
      if k == "$id" then Num(id)
      else if Has(SpreadProps(item), k) then Get(SpreadProps(item), k)
      else if k == "name" then Str(DefaultName(item, id))
      else Undefined
  {
    var base := [Prop("name", Str(DefaultName(item, id)))];
    AssignLookup(base, SpreadProps(item), k);
    PutGet(Assign(base, SpreadProps(item)), "$id", Num(id), k);
  }

  /** What `extractProps` runs over when preprocessing: the plugin's `preProps(namedItem)`, or the
      named item itself when the plugin has none. */
  function ToExtract(plugin: Plugin, named: Value): Value
  {
    match plugin
    case BuiltinSuite => Obj([Prop("items", Arr([]))])
    case BuiltinAssign => named
    case Custom(h) => if h.preProps.Some? then h.preProps.value(named) else named
  }

  /** `{ ...namedItem, ...extractProps(namedItem, preProps(namedItem), {}) }` */
  function PropsItem(env: Env, plugin: Plugin, named: Value): Try<Value>
  {
    match ItemHelpers.ExtractProps(env.interp, named, SpreadProps(ToExtract(plugin, named)), Obj([]))
    case Threw(e) => Threw(e)
    case Ok(extracted) => Ok(Obj(Assign(Assign([], SpreadProps(named)), SpreadProps(extracted))))
  }

  /** `{ context, ...propsItem }`, the result when the plugin's `pre` resolves falsy. */
  function Default(context: Value, propsItem: Value): Value
  {
    Obj(Assign([Prop("context", context)], SpreadProps(propsItem)))
  }

  /** `{ ...context, $loader: 'suite' }`, the context a suite passes to its children. */
  function SuiteContext(context: Value): Value
  {
    Obj(Put(Assign([], SpreadProps(context)), "$loader", Str("suite")))
  }

  // ---------------------------------------------------------------------------------------------
  // The preprocessing pipeline as functions of the counter value

  /** `pre(context, item)` starting with counter value `index`: the outcome and the counter after.
      The counter never goes back, and an item that was not rejected synchronously took an id. */
  function PreSpec(env: Env, context: Value, item: Value, index: nat, fuel: nat): (r: (PreResult, nat))
    ensures r.1 >= index
    ensures !r.0.ThrownSync? ==> r.1 > index
    decreases fuel, 3, 0
  {
    var itemContext := ItemHelpers.MergeContext(context, item);
    match Select(env.registry, itemContext, item)
    case Threw(e) => (ThrownSync(e), index)
    case Ok(plugin) =>
      if Truthy(Field(item, "context")) then
        (ThrownSync(Thrown(ItemHelpers.ItemError(ContextMessage, itemContext, item))), index)
      else
        match PropsItem(env, plugin, Named(item, index + 1))
        case Threw(e) => (ThrownSync(e), index + 1)
        case Ok(propsItem) => PluginPreSpec(env, plugin, itemContext, propsItem, index + 1, fuel)
  }

  /** The plugin's `pre(context, propsItem)`, with a falsy result replaced by the default. */
  function PluginPreSpec(env: Env, plugin: Plugin, context: Value, propsItem: Value, index: nat, fuel: nat)
    : (r: (PreResult, nat))
    ensures r.1 >= index
    decreases fuel, 2, 0
  {
    match plugin
    case BuiltinSuite => SuitePreSpec(env, context, propsItem, index, fuel)
    case BuiltinAssign => (Resolved(AssignPlugin.Pre(context, propsItem)), index)
    case Custom(h) =>
      if h.pre.None? then (Resolved(Default(context, propsItem)), index)
      else
        match h.pre.value(context, propsItem)
        case Threw(e) => (Rejected(e), index)
        case Ok(v) => (Resolved(if Truthy(v) then v else Default(context, propsItem)), index)
  }

  /** The suite's `pre`: every child is preprocessed under the suite context merged with its own
      defaults and overrides, in order; the result is `{ ...item, context, items }`. */
  function SuitePreSpec(env: Env, context: Value, item: Value, index: nat, fuel: nat): (r: (PreResult, nat))
    ensures r.1 >= index
    decreases fuel, 1, 0
  {
    if fuel == 0 then (ThrownSync(CallStackExceeded), index)
    else
      var children := Field(item, "items");
      if !children.Arr? then (ThrownSync(ItemsNotArray), index)
      else
        var (r, next) := ChildrenSpec(env, SuiteContext(context), children.elems, index, fuel, [], None);
        match r
        case Resolved(items) =>
          (Resolved(Obj(Put(Put(Assign([], SpreadProps(item)), "context", context), "items", items))), next)
        case _ => (r, next)
  }

  /** The children still to preprocess, the results so far and the first rejection seen. A thrown
      exception ends the suite's `map` at once; a rejection only surfaces from `Promise.all`. */
  function ChildrenSpec(env: Env, parent: Value, children: seq<Value>, index: nat, fuel: nat,
                        done: seq<Value>, rejected: Option<Value>): (r: (PreResult, nat))
    requires fuel > 0
    ensures r.1 >= index
    ensures r.0.Resolved? ==> rejected.None?
    decreases fuel, 0, |children|
  {
    if |children| == 0 then
      (if rejected.Some? then Rejected(rejected.value) else Resolved(Arr(done)), index)
    else
      var child := children[0];
      var (r, next) := PreSpec(env, ItemHelpers.MergeContext(parent, child), child, index, fuel - 1);
      match r
      case ThrownSync(e) => (ThrownSync(e), next)
      case Rejected(e) =>
        ChildrenSpec(env, parent, children[1..], next, fuel, done, if rejected.Some? then rejected else Some(e))
      case Resolved(v) => ChildrenSpec(env, parent, children[1..], next, fuel, done + [v], rejected)
  }

  /** The results after one more child: a resolved child's value is appended. */
  function NextDone(done: seq<Value>, c: PreResult): seq<Value>
  {
    if c.Resolved? then done + [c.value] else done
  }

  /** The first rejection after one more child. */
  function NextRejected(rejected: Option<Value>, c: PreResult): Option<Value>
  {
    if c.Rejected? && rejected.None? then Some(c.reason) else rejected
  }

  /** One step of `ChildrenSpec`: the first child is preprocessed to `c`, leaving the counter at
      `next`, then the rest follow. */
  lemma ChildrenStep(env: Env, parent: Value, children: seq<Value>, index: nat, fuel: nat,
                     done: seq<Value>, rejected: Option<Value>, c: PreResult, next: nat)
    requires fuel > 0 && |children| > 0
    requires c == PreSpec(env, ItemHelpers.MergeContext(parent, children[0]), children[0], index, fuel - 1).0
    requires next == PreSpec(env, ItemHelpers.MergeContext(parent, children[0]), children[0], index, fuel - 1).1
    ensures c.ThrownSync? ==> ChildrenSpec(env, parent, children, index, fuel, done, rejected) == (c, next)
    ensures !c.ThrownSync? ==> (ChildrenSpec(env, parent, children, index, fuel, done, rejected) ==
      ChildrenSpec(env, parent, children[1..], next, fuel, NextDone(done, c), NextRejected(rejected, c)))
  {
  }

  // ---------------------------------------------------------------------------------------------
  // Properties of preprocessing

  /** An item that sets its own `context` is rejected before it is named: no id is used. */
  lemma PreRejectsContext(env: Env, context: Value, item: Value, index: nat, fuel: nat)
    requires Select(env.registry, ItemHelpers.MergeContext(context, item), item).Ok?
    requires Truthy(Field(item, "context"))
    ensures PreSpec(env, context, item, index, fuel) ==
      (ThrownSync(Thrown(ItemHelpers.ItemError(ContextMessage, ItemHelpers.MergeContext(context, item), item))), index)
  {
  }

  /** The counter never goes back, and every item that gets past `select` and the context rule
      uses one new id. */
  lemma {:induction false} PreCounter(env: Env, context: Value, item: Value, index: nat, fuel: nat)
    ensures PreSpec(env, context, item, index, fuel).1 >= index
    ensures (Select(env.registry, ItemHelpers.MergeContext(context, item), item).Ok? &&
             !Truthy(Field(item, "context"))) ==> PreSpec(env, context, item, index, fuel).1 > index
    decreases fuel, 3, 0
  {
    var itemContext := ItemHelpers.MergeContext(context, item);
    var sel := Select(env.registry, itemContext, item);
    if sel.Ok? && !Truthy(Field(item, "context")) {
      var pi := PropsItem(env, sel.value, Named(item, index + 1));
      if pi.Ok? {
        PluginPreCounter(env, sel.value, itemContext, pi.value, index + 1, fuel);
      }
    }
  }

  lemma {:induction false} PluginPreCounter(env: Env, plugin: Plugin, context: Value, propsItem: Value,
                                            index: nat, fuel: nat)
    ensures PluginPreSpec(env, plugin, context, propsItem, index, fuel).1 >= index
    decreases fuel, 2, 0
  {
    if plugin.BuiltinSuite? && fuel > 0 && Field(propsItem, "items").Arr? {
      ChildrenCounter(env, SuiteContext(context), Field(propsItem, "items").elems, index, fuel, [], None);
    }
  }

  lemma {:induction false} ChildrenCounter(env: Env, parent: Value, children: seq<Value>, index: nat,
                                           fuel: nat, done: seq<Value>, rejected: Option<Value>)
    requires fuel > 0
    ensures ChildrenSpec(env, parent, children, index, fuel, done, rejected).1 >= index
    decreases fuel, 0, |children|
  {
    if |children| > 0 {
      var child := children[0];
      PreCounter(env, ItemHelpers.MergeContext(parent, child), child, index, fuel - 1);
      var p := PreSpec(env, ItemHelpers.MergeContext(parent, child), child, index, fuel - 1);
      ChildrenStep(env, parent, children, index, fuel, done, rejected, p.0, p.1);
      if !p.0.ThrownSync? {
        ChildrenCounter(env, parent, children[1..], p.1, fuel, NextDone(done, p.0), NextRejected(rejected, p.0));
      }
    }
  }

  /** Extracting a named item's own keys gives back its `$id` and name (when no `:$id` or `:name`
      expression replaces them), and a `context` only if the item has one. */
  lemma ExtractedNamed(interp: ItemHelpers.Interpreter, item: Value, id: nat)
    requires UniqueKeys(SpreadProps(item))
    requires !Has(SpreadProps(item), ":$id") && !Has(SpreadProps(item), ":name")
    requires ItemHelpers.ExtractProps(interp, Named(item, id), Named(item, id).props, Obj([])).Ok?
    ensures var ex := ItemHelpers.ExtractProps(interp, Named(item, id), Named(item, id).props, Obj([])).value;
      ex.Obj? && UniqueKeys(ex.props) &&
      (Has(ex.props, "context") <==> Has(SpreadProps(item), "context")) &&
      Has(ex.props, "$id") && Has(ex.props, "name") &&
      Get(ex.props, "$id") == Num(id) &&
      Get(ex.props, "name") == Get(Named(item, id).props, "name")
  {
    ExtractedIdName(interp, item, id);
    ExtractedContext(interp, item, id);
  }

  lemma ExtractedIdName(interp: ItemHelpers.Interpreter, item: Value, id: nat)
    requires UniqueKeys(SpreadProps(item))
    requires !Has(SpreadProps(item), ":$id") && !Has(SpreadProps(item), ":name")
    requires ItemHelpers.ExtractProps(interp, Named(item, id), Named(item, id).props, Obj([])).Ok?
    ensures var ex := ItemHelpers.ExtractProps(interp, Named(item, id), Named(item, id).props, Obj([])).value;
      ex.Obj? && Has(ex.props, "$id") && Has(ex.props, "name") &&
      Get(ex.props, "$id") == Num(id) &&
      Get(ex.props, "name") == Get(Named(item, id).props, "name")
  {
    var named := Named(item, id);
    ItemHelpers.ExtractPropsOk(interp, named, named.props, Obj([]));
    var keys := ItemHelpers.ExtractKeys(named.props);
    assert keys[0] == "$id" && keys[2] == "name";
    ExtractedId(interp, item, id);
    ExtractedName(interp, item, id);
  }

  lemma ExtractedId(interp: ItemHelpers.Interpreter, item: Value, id: nat)
    requires UniqueKeys(SpreadProps(item))
    requires !Has(SpreadProps(item), ":$id")
    requires ItemHelpers.ExtractProps(interp, Named(item, id), Named(item, id).props, Obj([])).Ok?
    ensures var ex := ItemHelpers.ExtractProps(interp, Named(item, id), Named(item, id).props, Obj([])).value;
      ex.Obj? && Get(ex.props, "$id") == Num(id)
  {
    var named := Named(item, id);
    var ex := ItemHelpers.ExtractProps(interp, named, named.props, Obj([])).value;
    ItemHelpers.ExtractPropsOk(interp, named, named.props, Obj([]));
    assert ItemHelpers.ExpressionKey("$id") == ":$id";
    NamedHas(item, id, ":$id");
    NamedHas(item, id, "$id");
    NamedLookup(item, id, "$id");
    assert "$id" in ItemHelpers.ExtractKeys(named.props);
    assert Ok(Get(ex.props, "$id")) == ItemHelpers.PropValue(interp, named, named.props, Obj([]), "$id");
  }

  lemma ExtractedName(interp: ItemHelpers.Interpreter, item: Value, id: nat)
    requires !Has(SpreadProps(item), ":name")
    requires ItemHelpers.ExtractProps(interp, Named(item, id), Named(item, id).props, Obj([])).Ok?
    ensures var ex := ItemHelpers.ExtractProps(interp, Named(item, id), Named(item, id).props, Obj([])).value;
      ex.Obj? && Get(ex.props, "name") == Get(Named(item, id).props, "name")
  {
    var named := Named(item, id);
    var ex := ItemHelpers.ExtractProps(interp, named, named.props, Obj([])).value;
    ItemHelpers.ExtractPropsOk(interp, named, named.props, Obj([]));
    assert ItemHelpers.ExpressionKey("name") == ":name";
    NamedHas(item, id, ":name");
    NamedHas(item, id, "name");
    assert "name" in ItemHelpers.ExtractKeys(named.props);
    assert Ok(Get(ex.props, "name")) == ItemHelpers.PropValue(interp, named, named.props, Obj([]), "name");
  }

  lemma ExtractedContext(interp: ItemHelpers.Interpreter, item: Value, id: nat)
    requires UniqueKeys(SpreadProps(item))
    requires ItemHelpers.ExtractProps(interp, Named(item, id), Named(item, id).props, Obj([])).Ok?
    ensures var ex := ItemHelpers.ExtractProps(interp, Named(item, id), Named(item, id).props, Obj([])).value;
      ex.Obj? && UniqueKeys(ex.props) &&
      (Has(ex.props, "context") <==> Has(SpreadProps(item), "context"))
  {
    var named := Named(item, id);
    var ex := ItemHelpers.ExtractProps(interp, named, named.props, Obj([])).value;
    ItemHelpers.ExtractPropsOk(interp, named, named.props, Obj([]));
    var keys := ItemHelpers.ExtractKeys(named.props);
    NamedHas(item, id, "context");
    assert Has(ex.props, "context") <==> "context" in keys;
    assert "context" in Keys(named.props) <==> Has(named.props, "context");
    ExtractedUnique(interp, named, named.props);
  }

  /** For a plugin without `preProps`, the item handed to `pre` keeps the named item's `$id` and
      name, and has a `context` only if the item has one. */
  lemma PropsItemNamed(env: Env, item: Value, id: nat, h: Hooks)
    requires h.preProps.None? && UniqueKeys(SpreadProps(item))
    requires !Has(SpreadProps(item), ":$id") && !Has(SpreadProps(item), ":name")
    requires PropsItem(env, Custom(h), Named(item, id)).Ok?
    ensures var p := PropsItem(env, Custom(h), Named(item, id)).value;
      p.Obj? && UniqueKeys(p.props) &&
      (Has(p.props, "context") <==> Has(SpreadProps(item), "context")) &&
      Has(p.props, "$id") && Has(p.props, "name") &&
      Get(p.props, "$id") == Num(id) &&
      Get(p.props, "name") == (if Has(SpreadProps(item), "name") then Get(SpreadProps(item), "name")
                               else Str(DefaultName(item, id)))
  {
    var named := Named(item, id);
    assert ToExtract(Custom(h), named) == named && SpreadProps(named) == named.props;
    var ex := ItemHelpers.ExtractProps(env.interp, named, named.props, Obj([])).value;
    assert PropsItem(env, Custom(h), named) == Ok(Obj(Assign(Assign([], named.props), ex.props)));
    ExtractedNamed(env.interp, item, id);
    NamedLookup(item, id, "name");
    NamedHas(item, id, "context");
    NamedUnique(item, id);
    var base := Assign([], named.props);
    AssignUnique([], named.props);
    AssignUnique(base, ex.props);
    AssignLookup(base, ex.props, "$id");
    AssignLookup(base, ex.props, "name");
    AssignLookup([], named.props, "context");
    AssignLookup(base, ex.props, "context");
  }

  lemma PreDefaultShape(env: Env, context: Value, item: Value, index: nat, fuel: nat, h: Hooks)
    requires Select(env.registry, ItemHelpers.MergeContext(context, item), item) == Ok(Custom(h))
    requires h.pre.None? && !Has(SpreadProps(item), "context")
    requires PreSpec(env, context, item, index, fuel).0.Resolved?
    ensures PropsItem(env, Custom(h), Named(item, index + 1)).Ok?
    ensures PreSpec(env, context, item, index, fuel).0 ==
              Resolved(Default(ItemHelpers.MergeContext(context, item), PropsItem(env, Custom(h), Named(item, index + 1)).value))
  {
    GetHas(SpreadProps(item), "context");
    assert !Truthy(Field(item, "context"));
  }

  /** For a plugin without `preProps` or `pre` hooks, the preprocessed item is the named item with
      the merged context: it carries the new id, its own name or `$<type>-<id>`, and the context
      the loader computed. */
  lemma PreDefaultResult(env: Env, context: Value, item: Value, index: nat, fuel: nat, h: Hooks)
    requires UniqueKeys(SpreadProps(item))
    requires Select(env.registry, ItemHelpers.MergeContext(context, item), item) == Ok(Custom(h))
    requires h.preProps.None? && h.pre.None? && !Has(SpreadProps(item), "context")
    requires !Has(SpreadProps(item), ":$id") && !Has(SpreadProps(item), ":name")
    requires PreSpec(env, context, item, index, fuel).0.Resolved?
    ensures var r := PreSpec(env, context, item, index, fuel).0.value;
      r.Obj? &&
      Get(r.props, "$id") == Num(index + 1) &&
      Get(r.props, "name") == (if Has(SpreadProps(item), "name") then Get(SpreadProps(item), "name")
                               else Str(DefaultName(item, index + 1))) &&
      Get(r.props, "context") == ItemHelpers.MergeContext(context, item)
  {
    var itemContext := ItemHelpers.MergeContext(context, item);
    var p := PropsItem(env, Custom(h), Named(item, index + 1));
    PreDefaultShape(env, context, item, index, fuel, h);
    PropsItemNamed(env, item, index + 1, h);
    var base := [Prop("context", itemContext)];
    AssignLookup(base, p.value.props, "$id");
    AssignLookup(base, p.value.props, "name");
    AssignLookup(base, p.value.props, "context");
  }

  lemma NamedHas(item: Value, id: nat, k: string)
    ensures Has(Named(item, id).props, k) <==> k == "$id" || k == "name" || Has(SpreadProps(item), k)
  {
    var base := [Prop("name", Str(DefaultName(item, id)))];
    AssignGet(base, SpreadProps(item), k);
    PutGet(Assign(base, SpreadProps(item)), "$id", Num(id), k);
  }

  lemma NamedUnique(item: Value, id: nat)
    ensures UniqueKeys(Named(item, id).props)
  {
    var base := [Prop("name", Str(DefaultName(item, id)))];
    AssignUnique(base, SpreadProps(item));
    PutUnique(Assign(base, SpreadProps(item)), "$id", Num(id));
  }

  lemma ExtractedUnique(interp: ItemHelpers.Interpreter, named: Value, toExtract: seq<Prop>)
    requires ItemHelpers.ExtractProps(interp, named, toExtract, Obj([])).Ok?
    ensures UniqueKeys(ItemHelpers.ExtractProps(interp, named, toExtract, Obj([])).value.props)
  {
    ExtractFromUnique(interp, named, toExtract, Obj([]), ItemHelpers.ExtractKeys(toExtract), []);
  }

  lemma {:induction false} ExtractFromUnique(interp: ItemHelpers.Interpreter, item: Value, toExtract: seq<Prop>,
                                             context: Value, keys: seq<string>, acc: seq<Prop>)
    requires UniqueKeys(acc)
    requires ItemHelpers.ExtractFrom(interp, item, toExtract, context, keys, acc).Ok?
    ensures UniqueKeys(ItemHelpers.ExtractFrom(interp, item, toExtract, context, keys, acc).value)
    decreases |keys|
  {
    if |keys| > 0 {
      var v := ItemHelpers.PropValue(interp, item, toExtract, context, keys[0]).value;
      PutUnique(acc, keys[0], v);
      ExtractFromUnique(interp, item, toExtract, context, keys[1..], Put(acc, keys[0], v));
    }
  }

  // ---------------------------------------------------------------------------------------------
  // Loading a batch

  /** What `load(context, request)` resolves to: the file's item and its context. */
  datatype Root = Root(context: Value, item: Value)

  /** `loadScenarios` over the remaining requests, with the preprocessed items kept so far and the
      first failure seen. A load failure drops its request; a preprocessing failure does not stop
      the other requests but rejects the batch. */
  function LoadSpec(env: Env, context: Value, requests: seq<Value>, load: (Value, Value) -> Try<Root>,
                    index: nat, fuel: nat, kept: seq<Value>, failed: Option<Value>): (r: (Try<seq<Value>>, nat))
    ensures r.1 >= index
    ensures failed.Some? ==> r.0 == Threw(failed.value)
    decreases |requests|
  {
    if |requests| == 0 then (if failed.Some? then Threw(failed.value) else Ok(kept), index)
    else
      match load(context, requests[0])
      case Threw(_) => LoadSpec(env, context, requests[1..], load, index, fuel, kept, failed)
      case Ok(root) =>
        var (r, next) := PreSpec(env, root.context, root.item, index, fuel);
        if r.Resolved? then LoadSpec(env, context, requests[1..], load, next, fuel, kept + [r.value], failed)
        else LoadSpec(env, context, requests[1..], load, next, fuel, kept,
                      if failed.Some? then failed else Some(r.Failure()))
  }

  /** The number of requests whose file loads. */
  function Loadable(context: Value, requests: seq<Value>, load: (Value, Value) -> Try<Root>): nat
  {
    if |requests| == 0 then 0
    else (if load(context, requests[0]).Ok? then 1 else 0) + Loadable(context, requests[1..], load)
  }

  /** A batch that is not rejected keeps exactly one preprocessed item per loadable request. */
  lemma {:induction false} LoadKeepsLoadable(env: Env, context: Value, requests: seq<Value>,
                                             load: (Value, Value) -> Try<Root>, index: nat, fuel: nat,
                                             kept: seq<Value>, failed: Option<Value>)
    ensures var r := LoadSpec(env, context, requests, load, index, fuel, kept, failed).0;
      r.Ok? ==> failed.None? && |r.value| == |kept| + Loadable(context, requests, load)
    decreases |requests|
  {
    if |requests| > 0 {
      match load(context, requests[0])
      case Threw(_) =>
        LoadKeepsLoadable(env, context, requests[1..], load, index, fuel, kept, failed);
      case Ok(root) =>
        var p := PreSpec(env, root.context, root.item, index, fuel);
        if p.0.Resolved? {
          LoadKeepsLoadable(env, context, requests[1..], load, p.1, fuel, kept + [p.0.value], failed);
        } else {
          LoadRejects(env, context, requests[1..], load, p.1, fuel, kept,
                      if failed.Some? then failed else Some(p.0.Failure()));
        }
    } else if failed.Some? {
      LoadRejects(env, context, requests, load, index, fuel, kept, failed);
    }
  }

  /** Once a failure is recorded, the batch is rejected with it. */
  lemma {:induction false} LoadRejects(env: Env, context: Value, requests: seq<Value>,
                                       load: (Value, Value) -> Try<Root>, index: nat, fuel: nat,
                                       kept: seq<Value>, failed: Option<Value>)
    requires failed.Some?
    ensures LoadSpec(env, context, requests, load, index, fuel, kept, failed).0 == Threw(failed.value)
    decreases |requests|
  {
    if |requests| > 0 {
      match load(context, requests[0])
      case Threw(_) =>
        LoadRejects(env, context, requests[1..], load, index, fuel, kept, failed);
      case Ok(root) =>
        var (r, next) := PreSpec(env, root.context, root.item, index, fuel);
        if r.Resolved? {
          LoadRejects(env, context, requests[1..], load, next, fuel, kept + [r.value], failed);
        } else {
          LoadRejects(env, context, requests[1..], load, next, fuel, kept, failed);
        }
    }
  }

  // ---------------------------------------------------------------------------------------------
  // The loader object

  class ItemLoader {
    const env: Env
    var itemIndex: nat
    /** Every id handed out so far, in order. */
    ghost var issued: seq<nat>

    ghost predicate Valid()
      reads this
    {
      |issued| == itemIndex && forall i | 0 <= i < |issued| :: issued[i] == i + 1
    }

    constructor (env: Env)
      ensures Valid() && this.env == env && itemIndex == 0
    {
      this.env := env;
      itemIndex := 0;
      issued := [];
    }

    /** `ensureNamed(item)`: takes the next id. Ids are never handed out twice. */
    method EnsureNamed(item: Value) returns (named: Value)
      requires Valid()
      modifies this
      ensures Valid() && itemIndex == old(itemIndex) + 1 && issued == old(issued) + [itemIndex]
      ensures itemIndex !in old(issued)
      ensures named == Named(item, itemIndex)
    {
      itemIndex := itemIndex + 1;
      issued := issued + [itemIndex];
      named := Named(item, itemIndex);
    }

    /** `pre(context, item)`, with the counter advanced as the pipeline does. */
    method Pre(context: Value, item: Value, fuel: nat) returns (r: PreResult)
      requires Valid()
      modifies this
      ensures Valid()
      ensures r == PreSpec(env, context, item, old(itemIndex), fuel).0
      ensures itemIndex == PreSpec(env, context, item, old(itemIndex), fuel).1
      decreases fuel, 4, 0
    {
      var itemContext := ItemHelpers.MergeContext(context, item);
      var sel := Select(env.registry, itemContext, item);
      if sel.Threw? {
        return ThrownSync(sel.error);
      }
      if Truthy(Field(item, "context")) {
        return ThrownSync(Thrown(ItemHelpers.ItemError(ContextMessage, itemContext, item)));
      }
      var named := EnsureNamed(item);
      var propsItem := PropsItem(env, sel.value, named);
      if propsItem.Threw? {
        return ThrownSync(propsItem.error);
      }
      r := PluginPre(sel.value, itemContext, propsItem.value, fuel);
    }

    method PluginPre(plugin: Plugin, context: Value, propsItem: Value, fuel: nat) returns (r: PreResult)
      requires Valid()
      modifies this
      ensures Valid()
      ensures r == PluginPreSpec(env, plugin, context, propsItem, old(itemIndex), fuel).0
      ensures itemIndex == PluginPreSpec(env, plugin, context, propsItem, old(itemIndex), fuel).1
      decreases fuel, 3, 0
    {
      match plugin
      case BuiltinSuite =>
        r := SuitePre(context, propsItem, fuel);
      case BuiltinAssign =>
        r := Resolved(AssignPlugin.Pre(context, propsItem));
      case Custom(h) =>
        if h.pre.None? {
          r := Resolved(Default(context, propsItem));
        } else {
          match h.pre.value(context, propsItem)
          case Threw(e) => r := Rejected(e);
          case Ok(v) => r := Resolved(if Truthy(v) then v else Default(context, propsItem));
        }
    }

    /** The suite plugin's `pre`: the children, then `{ ...item, context, items }`. */
    method SuitePre(context: Value, item: Value, fuel: nat) returns (r: PreResult)
      requires Valid()
      modifies this
      ensures Valid()
      ensures r == SuitePreSpec(env, context, item, old(itemIndex), fuel).0
      ensures itemIndex == SuitePreSpec(env, context, item, old(itemIndex), fuel).1
      decreases fuel, 2, 0
    {
      if fuel == 0 {
        return ThrownSync(CallStackExceeded);
      }
      var children := Field(item, "items");
      if !children.Arr? {
        return ThrownSync(ItemsNotArray);
      }
      var c := PreChildren(SuiteContext(context), children.elems, fuel);
      if c.Resolved? {
        r := Resolved(Obj(Put(Put(Assign([], SpreadProps(item)), "context", context), "items", c.value)));
      } else {
        r := c;
      }
    }

    /** `Promise.all(item.items.map(...))`: the children one after the other. */
    method PreChildren(parent: Value, children: seq<Value>, fuel: nat) returns (r: PreResult)
      requires Valid() && fuel > 0
      modifies this
      ensures Valid()
      ensures r == ChildrenSpec(env, parent, children, old(itemIndex), fuel, [], None).0
      ensures itemIndex == ChildrenSpec(env, parent, children, old(itemIndex), fuel, [], None).1
      decreases fuel, 1, 0
    {
      var done: seq<Value> := [];
      var rejected: Option<Value> := None;
      ghost var goal := ChildrenSpec(env, parent, children, itemIndex, fuel, [], None);
      var rest := children;
      while |rest| > 0
        invariant Valid()
        invariant ChildrenSpec(env, parent, rest, itemIndex, fuel, done, rejected) == goal
      {
        var c;
        c, done, rejected := PreChild(parent, rest, fuel, done, rejected);
        if c.ThrownSync? {
          return c;
        }
        rest := rest[1..];
      }
      r := if rejected.Some? then Rejected(rejected.value) else Resolved(Arr(done));
    }

    /** The first of the remaining children, with the results and the first rejection so far. */
    method PreChild(parent: Value, children: seq<Value>, fuel: nat, done: seq<Value>, rejected: Option<Value>)
      returns (c: PreResult, done': seq<Value>, rejected': Option<Value>)
      requires Valid() && fuel > 0 && |children| > 0
      modifies this
      ensures Valid()
      ensures c.ThrownSync? ==> ChildrenSpec(env, parent, children, old(itemIndex), fuel, done, rejected) == (c, itemIndex)
      ensures !c.ThrownSync? ==>
        ChildrenSpec(env, parent, children, old(itemIndex), fuel, done, rejected)
        == ChildrenSpec(env, parent, children[1..], itemIndex, fuel, done', rejected')
      decreases fuel, 0, 0
    {
      ghost var before := itemIndex;
      c := Pre(ItemHelpers.MergeContext(parent, children[0]), children[0], fuel - 1);
      ChildrenStep(env, parent, children, before, fuel, done, rejected, c, itemIndex);
      done', rejected' := NextDone(done, c), NextRejected(rejected, c);
    }

    /** `loadScenarios(context, requests)` with `load` given. */
    method LoadScenarios(context: Value, requests: seq<Value>, load: (Value, Value) -> Try<Root>, fuel: nat)
      returns (r: Try<seq<Value>>)
      requires Valid()
      modifies this
      ensures Valid()
      ensures r == LoadSpec(env, context, requests, load, old(itemIndex), fuel, [], None).0
      ensures itemIndex == LoadSpec(env, context, requests, load, old(itemIndex), fuel, [], None).1
    {
      var kept: seq<Value> := [];
      var failed: Option<Value> := None;
      for i := 0 to |requests|
        invariant Valid()
        invariant LoadSpec(env, context, requests[i..], load, itemIndex, fuel, kept, failed)
               == LoadSpec(env, context, requests, load, old(itemIndex), fuel, [], None)
      {
        assert requests[i..][0] == requests[i] && requests[i..][1..] == requests[i + 1..];
        var root := load(context, requests[i]);
        if root.Ok? {
          var p := Pre(root.value.context, root.value.item, fuel);
          if p.Resolved? {
            kept := kept + [p.value];
          } else if failed.None? {
            failed := Some(p.Failure());
          }
        }
      }
      assert requests[|requests|..] == [];
      r := if failed.Some? then Threw(failed.value) else Ok(kept);
    }
  }
}
