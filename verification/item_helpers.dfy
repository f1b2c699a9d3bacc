/** Item helpers: context merging, prioritised property extraction, expression interpretation
    over the bindable context keys, the assertion helpers and item errors. Items, contexts and
    results are JavaScript objects (`Values.Value`). */
module ItemHelpers {
  import opened Strings
  import opened Values
  import opened Editions

  // ---------------------------------------------------------------------------------------------
  // Context merging

  /** `{ ...item.defaults, ...context, ...item.overrides }`: an object without duplicate keys. */
  function MergeContext(context: Value, item: Value): (r: Value)
    ensures r.Obj? && UniqueKeys(r.props)
  {
    AssignUnique([], SpreadProps(Field(item, "defaults")));
    AssignUnique(Assign([], SpreadProps(Field(item, "defaults"))), SpreadProps(context));
    AssignUnique(Assign(Assign([], SpreadProps(Field(item, "defaults"))), SpreadProps(context)),
                 SpreadProps(Field(item, "overrides")));
    Obj(Assign(Assign(Assign([], SpreadProps(Field(item, "defaults"))), SpreadProps(context)),
               SpreadProps(Field(item, "overrides"))))
  }

  /** A spread source whose own keys are distinct, as every JavaScript value's are. */
  predicate Spreadable(v: Value)
  {
    UniqueKeys(SpreadProps(v))
  }

  /** The merged context resolves every key with the priority overrides, then the inherited
      context, then the defaults; it has exactly the keys of the three. */
  lemma MergeContextLookup(context: Value, item: Value, k: string)
    requires Spreadable(context)
    requires Spreadable(Field(item, "defaults")) && Spreadable(Field(item, "overrides"))
    ensures var m := MergeContext(context, item).props;
      var d, o := SpreadProps(Field(item, "defaults")), SpreadProps(Field(item, "overrides"));
      var c := SpreadProps(context);
      (Has(m, k) <==> Has(o, k) || Has(c, k) || Has(d, k)) &&
      Get(m, k) == (if Has(o, k) then Get(o, k) else if Has(c, k) then Get(c, k) else Get(d, k))
  {
    var d, o := SpreadProps(Field(item, "defaults")), SpreadProps(Field(item, "overrides"));
    var c := SpreadProps(context);
    AssignLookup([], d, k);
    GetHas(d, k);
    AssignLookup(Assign([], d), c, k);
    AssignLookup(Assign(Assign([], d), c), o, k);
  }

  /** Merging the same item's defaults and overrides into an already merged context changes no
      lookup: the merge is idempotent. */
  lemma MergeContextIdempotent(context: Value, item: Value, k: string)
    requires Spreadable(context)
    requires Spreadable(Field(item, "defaults")) && Spreadable(Field(item, "overrides"))
    ensures var once := MergeContext(context, item);
      var twice := MergeContext(once, item);
      Has(twice.props, k) == Has(once.props, k) && Get(twice.props, k) == Get(once.props, k)
  {
    var once := MergeContext(context, item);
    assert SpreadProps(once) == once.props;
    MergeContextLookup(context, item, k);
    MergeContextLookup(once, item, k);
  }

  /** The suite context `{ paramA: 42 }` reaches a child as 42, is kept over the child's default
      13, and loses to the child's override 5. */
  lemma MergeContextExample()
    ensures var ctx := Obj([Prop("paramA", Num(42))]);
      var plain := Obj([Prop("type", Str("output"))]);
      var withDefaults := Obj([Prop("type", Str("output")),
        Prop("defaults", Obj([Prop("paramA", Num(13)), Prop("paramB", Str("B"))]))]);
      var withOverrides := Obj([Prop("type", Str("output")),
        Prop("overrides", Obj([Prop("paramA", Num(5)), Prop("paramB", Str("B"))]))]);
      Field(MergeContext(ctx, plain), "paramA") == Num(42) &&
      Field(MergeContext(ctx, withDefaults), "paramA") == Num(42) &&
      Field(MergeContext(ctx, withOverrides), "paramA") == Num(5)
  {
    var ctx := Obj([Prop("paramA", Num(42))]);
    var withDefaults := Obj([Prop("type", Str("output")),
      Prop("defaults", Obj([Prop("paramA", Num(13)), Prop("paramB", Str("B"))]))]);
    var withOverrides := Obj([Prop("type", Str("output")),
      Prop("overrides", Obj([Prop("paramA", Num(5)), Prop("paramB", Str("B"))]))]);
    assert Spreadable(Field(withDefaults, "defaults"));
    assert Spreadable(Field(withOverrides, "overrides"));
    MergeContextLookup(ctx, Obj([Prop("type", Str("output"))]), "paramA");
    MergeContextLookup(ctx, withDefaults, "paramA");
    MergeContextLookup(ctx, withOverrides, "paramA");
  }

  // ---------------------------------------------------------------------------------------------
  // Interpretation of `:key` expressions

  /** The JavaScript evaluation of an expression's text against the names bound to it. It is a
      parameter of the model: `new Function` evaluates arbitrary code. */
  type Evaluator = (string, seq<Prop>) -> Try<Value>

  /** The evaluator, and the edition of `interpret` that hands it the context. */
  datatype Interpreter = Interpreter(eval: Evaluator, edition: Edition)

  /** The error `new Function` raises when the generated code declares a name that is not an
      identifier (`const a-b = this.a-b`). */
  const BindingSyntaxError := Error("SyntaxError: invalid binding name in generated code")

  /** ASCII letter or underscore. */
  predicate LetterOrUnderscore(c: char)
  {
    'a' <= c <= 'z' || 'A' <= c <= 'Z' || c == '_'
  }

  predicate IdentifierPart(c: char)
  {
    LetterOrUnderscore(c) || '0' <= c <= '9' || c == '$'
  }

  /** `isValidIdentifier`: an unanchored test of `[a-zA-Z_][a-zA-Z0-9_]*`, which holds as soon as
      the string contains one letter or underscore anywhere. */
  predicate IsValidIdentifier(s: string)
  {
    exists i | 0 <= i < |s| :: LetterOrUnderscore(s[i])
  }

  /** A name `const <name> = ...` can declare (reserved words aside): `[A-Za-z_$][A-Za-z0-9_$]*`
      over the whole string. */
  predicate IsIdentifier(s: string)
  {
    |s| > 0 && (LetterOrUnderscore(s[0]) || s[0] == '$') &&
    forall i | 0 <= i < |s| :: IdentifierPart(s[i])
  }

  /** The context properties whose keys pass the given name test, in key order. */
  function Bindings(ps: seq<Prop>, bindable: string -> bool): (r: seq<Prop>)
    ensures |r| <= |ps|
    ensures forall i | 0 <= i < |r| :: bindable(r[i].key)
    ensures forall i | 0 <= i < |r| :: r[i] in ps
    ensures forall i | 0 <= i < |ps| :: bindable(ps[i].key) ==> ps[i] in r
  {
    if |ps| == 0 then []
    else if bindable(ps[0].key) then [ps[0]] + Bindings(ps[1..], bindable)
    else Bindings(ps[1..], bindable)
  }

  /** `interpret(expression, context)` with a given name test: every context key that passes the
      test is declared as a constant `const <key> = this.<key>`, so one declared key that is not
      an identifier makes the generated function a syntax error. */
  function InterpretWith(eval: Evaluator, expression: Value, context: Value, bindable: string -> bool)
    : Try<Value>
  {
    var bound := Bindings(SpreadProps(context), bindable);
    if exists i | 0 <= i < |bound| :: !IsIdentifier(bound[i].key) then Threw(BindingSyntaxError)
    else eval(ToText(expression), bound)
  }

  /** `interpret` as written, with the unanchored `isValidIdentifier`: a context key that contains
      a letter or an underscore but is not an identifier makes it throw whatever the expression;
      without one, the expression is evaluated against the keys that contain a letter or an
      underscore. */
  function InterpretAsWritten(eval: Evaluator, expression: Value, context: Value): (r: Try<Value>)
    ensures var ps := SpreadProps(context);
      (exists i | 0 <= i < |ps| :: IsValidIdentifier(ps[i].key) && !IsIdentifier(ps[i].key)) ==>
        r == Threw(BindingSyntaxError)
    ensures var ps := SpreadProps(context);
      (forall i | 0 <= i < |ps| :: IsValidIdentifier(ps[i].key) ==> IsIdentifier(ps[i].key)) ==>
        r == eval(ToText(expression), Bindings(ps, IsValidIdentifier))
  {
    var ps := SpreadProps(context);
    var bound := Bindings(ps, IsValidIdentifier);
    assert (exists i | 0 <= i < |ps| :: IsValidIdentifier(ps[i].key) && !IsIdentifier(ps[i].key)) ==>
           exists j | 0 <= j < |bound| :: !IsIdentifier(bound[j].key) by {
      if exists i | 0 <= i < |ps| :: IsValidIdentifier(ps[i].key) && !IsIdentifier(ps[i].key) {
        var i :| 0 <= i < |ps| && IsValidIdentifier(ps[i].key) && !IsIdentifier(ps[i].key);
        var j :| 0 <= j < |bound| && bound[j] == ps[i];
        assert !IsIdentifier(bound[j].key);
      }
    }

    InterpretWith(eval, expression, context, IsValidIdentifier)
  }

  /** `interpret` with the name test anchored at both ends: only identifiers are declared, so the
      expression is always evaluated, against exactly the identifier-named keys. */
  function Interpret(eval: Evaluator, expression: Value, context: Value): (r: Try<Value>)
    ensures r == eval(ToText(expression), Bindings(SpreadProps(context), IsIdentifier))
  {
    InterpretWith(eval, expression, context, IsIdentifier)
  }

  /** As written, a context key such as `a-b` (it contains a letter, so it passes the test) makes
      every expression fail, whatever it says. */
  lemma InterpretAsWrittenRejectsDashedKey(eval: Evaluator, expression: Value)
    ensures InterpretAsWritten(eval, expression, Obj([Prop("a-b", Num(1))])) == Threw(BindingSyntaxError)
    ensures !IsIdentifier("a-b") && IsValidIdentifier("a-b")
  {
    assert LetterOrUnderscore("a-b"[0]);
    var bound := Bindings([Prop("a-b", Num(1))], IsValidIdentifier);
    assert bound[0].key == "a-b" && !IdentifierPart("a-b"[1]);
  }

  /** The name test of the given edition: the unanchored `isValidIdentifier` as written, the
      anchored identifier test once corrected. */
  function NameTest(edition: Edition): string -> bool
  {
    if edition.AsWritten? then IsValidIdentifier else IsIdentifier
  }

  /** `interpret` of the given edition. */
  function InterpretIn(interp: Interpreter, expression: Value, context: Value): (r: Try<Value>)
    ensures interp.edition.AsWritten? ==> r == InterpretAsWritten(interp.eval, expression, context)
    ensures interp.edition.Corrected? ==> r == Interpret(interp.eval, expression, context)
  {
    InterpretWith(interp.eval, expression, context, NameTest(interp.edition))
  }

  // ---------------------------------------------------------------------------------------------
  // Property extraction

  /** `:key` */
  function ExpressionKey(key: string): string
  {
    ":" + key
  }

  /** The text of the error for a property that has no value. */
  function MissingKeyMessage(key: string, item: Value): string
  {
    "Key \"" + key + "\" is missing for item \"" + ToText(Field(item, "name")) +
    "\" of type \"" + ToText(Field(item, "type")) + "\""
  }

  /** `prop(key)` inside `extractProps`: the interpreted `:key` expression, else the literal `key`,
      else the default, which must not be undefined. */
  function PropValue(interp: Interpreter, item: Value, toExtract: seq<Prop>, context: Value, key: string)
    : (r: Try<Value>)
    ensures HasField(item, ExpressionKey(key)) ==>
      r == InterpretIn(interp, Field(item, ExpressionKey(key)), context)
    ensures !HasField(item, ExpressionKey(key)) && HasField(item, key) ==> r == Ok(Field(item, key))
    ensures !HasField(item, ExpressionKey(key)) && !HasField(item, key) ==>
      r == (if Get(toExtract, key).Undefined? then Threw(Error(MissingKeyMessage(key, item)))
            else Ok(Get(toExtract, key)))
  {
    if HasField(item, ExpressionKey(key)) then InterpretIn(interp, Field(item, ExpressionKey(key)), context)
    else if HasField(item, key) then Ok(Field(item, key))
    else if Get(toExtract, key).Undefined? then Threw(Error(MissingKeyMessage(key, item)))
    else Ok(Get(toExtract, key))
  }

  /** The keys `extractProps` produces, in order. */
  function ExtractKeys(toExtract: seq<Prop>): seq<string>
  {
    ["$id", "type", "name"] + Keys(toExtract)
  }

  /** The reduce of `extractProps` over the remaining keys, from the properties built so far; the
      first key whose value throws ends it with that error. */
  function ExtractFrom(interp: Interpreter, item: Value, toExtract: seq<Prop>, context: Value,
                       keys: seq<string>, acc: seq<Prop>): Try<seq<Prop>>
    decreases |keys|
  {
    if |keys| == 0 then Ok(acc)
    else
      match PropValue(interp, item, toExtract, context, keys[0])
      case Threw(e) => Threw(e)
      case Ok(v) => ExtractFrom(interp, item, toExtract, context, keys[1..], Put(acc, keys[0], v))
  }

  /** `extractProps(item, toExtract, context)`. */
  function ExtractProps(interp: Interpreter, item: Value, toExtract: seq<Prop>, context: Value)
    : (r: Try<Value>)
    ensures r.Ok? <==> forall k | k in ExtractKeys(toExtract) :: PropValue(interp, item, toExtract, context, k).Ok?
    ensures r.Ok? ==> r.value.Obj?
  {
    ExtractFromThrew(interp, item, toExtract, context, ExtractKeys(toExtract), []);
    match ExtractFrom(interp, item, toExtract, context, ExtractKeys(toExtract), [])
    case Threw(e) => Threw(e)
    case Ok(ps) => Ok(Obj(ps))
  }

  /** On success the extracted object has exactly the keys `$id`, `type`, `name` and those of
      `toExtract`, and each holds what `prop` gives for it. */
  lemma {:induction false} ExtractFromOk(interp: Interpreter, item: Value, toExtract: seq<Prop>,
                                         context: Value, keys: seq<string>, acc: seq<Prop>)
    requires ExtractFrom(interp, item, toExtract, context, keys, acc).Ok?
    ensures var ps := ExtractFrom(interp, item, toExtract, context, keys, acc).value;
      (forall k :: Has(ps, k) <==> k in keys || Has(acc, k)) &&
      (forall k | k in keys :: Ok(Get(ps, k)) == PropValue(interp, item, toExtract, context, k)) &&
      (forall k | k !in keys :: Get(ps, k) == Get(acc, k))
    decreases |keys|
  {
    if |keys| > 0 {
      var v := PropValue(interp, item, toExtract, context, keys[0]).value;
      var acc' := Put(acc, keys[0], v);
      ExtractFromOk(interp, item, toExtract, context, keys[1..], acc');
      forall k ensures Has(acc', k) <==> k == keys[0] || Has(acc, k)
        ensures Get(acc', k) == if k == keys[0] then v else Get(acc, k)
      {
        PutGet(acc, keys[0], v, k);
      }
      assert forall k :: k in keys <==> k == keys[0] || k in keys[1..];
    }
  }

  /** Extraction fails exactly when some key's `prop` throws, and then with the error of the first
      such key. */
  lemma {:induction false} ExtractFromThrew(interp: Interpreter, item: Value, toExtract: seq<Prop>,
                                            context: Value, keys: seq<string>, acc: seq<Prop>)
    ensures ExtractFrom(interp, item, toExtract, context, keys, acc).Threw? <==>
      exists i | 0 <= i < |keys| :: PropValue(interp, item, toExtract, context, keys[i]).Threw?
    ensures ExtractFrom(interp, item, toExtract, context, keys, acc).Threw? ==>
      exists i | 0 <= i < |keys| ::
        (forall j | 0 <= j < i :: PropValue(interp, item, toExtract, context, keys[j]).Ok?) &&
        PropValue(interp, item, toExtract, context, keys[i]) ==
          Threw(ExtractFrom(interp, item, toExtract, context, keys, acc).error)
    decreases |keys|
  {
    if |keys| > 0 {
      var first := PropValue(interp, item, toExtract, context, keys[0]);
      var r := ExtractFrom(interp, item, toExtract, context, keys, acc);
      if first.Ok? {
        var acc' := Put(acc, keys[0], first.value);
        ExtractFromThrew(interp, item, toExtract, context, keys[1..], acc');
        assert r == ExtractFrom(interp, item, toExtract, context, keys[1..], acc');
        if r.Threw? {
          FirstThrewShift(interp, item, toExtract, context, keys, r.error);
        } else {
          AllOkShift(interp, item, toExtract, context, keys);
        }
      } else {
        assert PropValue(interp, item, toExtract, context, keys[0]) == Threw(r.error);
      }
    }
  }

  /** A first throwing key among the later keys is a first throwing key of the whole list when the
      first key does not throw. */
  lemma FirstThrewShift(interp: Interpreter, item: Value, toExtract: seq<Prop>, context: Value, keys: seq<string>,
                        e: Value)
    requires |keys| > 0 && PropValue(interp, item, toExtract, context, keys[0]).Ok?
    requires exists i | 0 <= i < |keys[1..]| ::
      (forall j | 0 <= j < i :: PropValue(interp, item, toExtract, context, keys[1..][j]).Ok?) &&
      PropValue(interp, item, toExtract, context, keys[1..][i]) == Threw(e)
    ensures exists i | 0 <= i < |keys| ::
      (forall j | 0 <= j < i :: PropValue(interp, item, toExtract, context, keys[j]).Ok?) &&
      PropValue(interp, item, toExtract, context, keys[i]) == Threw(e)
  {
    var i :| 0 <= i < |keys[1..]| &&
      (forall j | 0 <= j < i :: PropValue(interp, item, toExtract, context, keys[1..][j]).Ok?) &&
      PropValue(interp, item, toExtract, context, keys[1..][i]) == Threw(e);
    assert PropValue(interp, item, toExtract, context, keys[i + 1]) == Threw(e);
    forall j | 0 <= j < i + 1 ensures PropValue(interp, item, toExtract, context, keys[j]).Ok? {
      if j > 0 { assert keys[j] == keys[1..][j - 1]; }
    }
  }

  /** No key throws when the first does not and none of the later keys does. */
  lemma AllOkShift(interp: Interpreter, item: Value, toExtract: seq<Prop>, context: Value, keys: seq<string>)
    requires |keys| > 0 && PropValue(interp, item, toExtract, context, keys[0]).Ok?
    requires !exists i | 0 <= i < |keys[1..]| :: PropValue(interp, item, toExtract, context, keys[1..][i]).Threw?
    ensures forall i | 0 <= i < |keys| :: PropValue(interp, item, toExtract, context, keys[i]).Ok?
  {
    forall i | 0 <= i < |keys| ensures PropValue(interp, item, toExtract, context, keys[i]).Ok? {
      if i > 0 { assert keys[i] == keys[1..][i - 1]; }
    }
  }

  /** The extracted object: exactly the listed keys, each with its prioritised value. */
  lemma ExtractPropsOk(interp: Interpreter, item: Value, toExtract: seq<Prop>, context: Value)
    requires ExtractProps(interp, item, toExtract, context).Ok?
    ensures var r := ExtractProps(interp, item, toExtract, context).value;
      r.Obj? &&
      (forall k :: Has(r.props, k) <==> k in ExtractKeys(toExtract)) &&
      (forall k | k in ExtractKeys(toExtract) ::
        Ok(Get(r.props, k)) == PropValue(interp, item, toExtract, context, k))
  {
    ExtractFromOk(interp, item, toExtract, context, ExtractKeys(toExtract), []);
  }

  /** A key without expression, literal or default makes extraction throw the "missing" error
      (when no earlier key failed), and this applies to `$id`, `type` and `name` as well. */
  lemma ExtractPropsMissing(interp: Interpreter, item: Value, toExtract: seq<Prop>, context: Value)
    requires !HasField(item, ":$id") && !HasField(item, "$id") && Get(toExtract, "$id").Undefined?
    ensures ExtractProps(interp, item, toExtract, context) == Threw(Error(MissingKeyMessage("$id", item)))
  {
    assert ExpressionKey("$id") == ":$id";
    var keys := ExtractKeys(toExtract);
    assert keys[0] == "$id";
    assert PropValue(interp, item, toExtract, context, "$id") == Threw(Error(MissingKeyMessage("$id", item)));
    assert ExtractFrom(interp, item, toExtract, context, keys, []) == Threw(Error(MissingKeyMessage("$id", item)));
  }

  /** `propText(item, key, fallback)`: the raw `:key` text, else the literal, else the fallback. */
  function PropText(item: Value, key: string, fallback: Value): (r: Value)
    ensures HasField(item, ExpressionKey(key)) ==> r == Field(item, ExpressionKey(key))
    ensures !HasField(item, ExpressionKey(key)) && HasField(item, key) ==> r == Field(item, key)
    ensures !HasField(item, ExpressionKey(key)) && !HasField(item, key) ==> r == fallback
  {
    if HasField(item, ExpressionKey(key)) then Field(item, ExpressionKey(key))
    else if HasField(item, key) then Field(item, key)
    else fallback
  }

  // ---------------------------------------------------------------------------------------------
  // Assertions

  /** `${JSON.stringify(v)}` in a message: `undefined` when there is no JSON text. */
  function Shown(v: Value): string
  {
    match Json(v)
    case Some(t) => t
    case None => "undefined"
  }

  /** What a `toBe`/`toEqual` is compared with: the TRUTHY sentinel or a plain value. */
  datatype Expected = Truthy | Exactly(value: Value)

  /** `expect(name, actual).toBeTruthy()` */
  function ToBeTruthy(name: string, actual: Value): (msgs: seq<string>)
    ensures |msgs| == 0 <==> Values.Truthy(actual)
    ensures |msgs| <= 1
    ensures |msgs| == 1 ==> msgs[0] == "expected " + name + " to be truthy but got (" + Shown(actual) + ")"
  {
    if Values.Truthy(actual) then []
    else ["expected " + name + " to be truthy but got (" + Shown(actual) + ")"]
  }

  /** `expect(name, actual).toBe(expected)`: strict equality, or truthiness for the sentinel. */
  function ToBe(name: string, actual: Value, expected: Expected): (msgs: seq<string>)
    ensures expected.Truthy? ==> msgs == ToBeTruthy(name, actual)
    ensures expected.Exactly? ==> (|msgs| == 0 <==> StrictEquals(expected.value, actual))
    ensures expected.Exactly? && !StrictEquals(expected.value, actual) ==>
      msgs == ["expected " + name + " to be (" + Shown(expected.value) + ") but got (" + Shown(actual) + ")"]
  {
    match expected
    case Truthy => ToBeTruthy(name, actual)
    case Exactly(e) =>
      if StrictEquals(e, actual) then []
      else ["expected " + name + " to be (" + Shown(e) + ") but got (" + Shown(actual) + ")"]
  }

  /** `expect(name, actual).toEqual(expected)`: JavaScript's loose equality, which is not modelled,
      is the parameter `looseEquals`; the sentinel asks for truthiness. */
  function ToEqual(name: string, actual: Value, expected: Expected, looseEquals: (Value, Value) -> bool)
    : (msgs: seq<string>)
    ensures expected.Truthy? ==> msgs == ToBeTruthy(name, actual)
    ensures expected.Exactly? ==> (|msgs| == 0 <==> looseEquals(expected.value, actual))
    ensures expected.Exactly? && !looseEquals(expected.value, actual) ==>
      msgs == ["expected " + name + " to be equal to (" + Shown(expected.value) + ") but got (" + Shown(actual) + ")"]
  {
    match expected
    case Truthy => ToBeTruthy(name, actual)
    case Exactly(e) =>
      if looseEquals(e, actual) then []
      else ["expected " + name + " to be equal to (" + Shown(e) + ") but got (" + Shown(actual) + ")"]
  }

  /** The failure message of `toSatisfy`. */
  function Unsatisfied(name: string, predicateName: string, actual: Value): string
  {
    "expected " + name + " to satisfy " + predicateName + " but got (" + Shown(actual) + ")"
  }

  /** `expect(name, actual).toSatisfy(builder, predicateName)`, with the built predicate given. */
  function ToSatisfy(name: string, actual: Value, holds: Value -> bool, predicateName: string)
    : (msgs: seq<string>)
    ensures |msgs| == 0 <==> holds(actual)
    ensures |msgs| <= 1
    ensures |msgs| == 1 ==> msgs[0] == Unsatisfied(name, predicateName, actual)
  {
    if holds(actual) then [] else [Unsatisfied(name, predicateName, actual)]
  }

  /** `typeof v !== 'object'`: `null`, arrays, objects and errors are objects. */
  predicate IsPrimitive(v: Value)
  {
    !(v.Null? || v.Arr? || v.Obj? || v.Error?)
  }

  /** `expect(name, actual).toDeepEqual(expected)`: loose equality between two primitives, otherwise
      equal JSON text. */
  function ToDeepEqual(name: string, actual: Value, expected: Value, looseEquals: (Value, Value) -> bool)
    : (msgs: seq<string>)
    ensures IsPrimitive(expected) && IsPrimitive(actual) ==> (|msgs| == 0 <==> looseEquals(expected, actual))
    ensures !(IsPrimitive(expected) && IsPrimitive(actual)) ==> (|msgs| == 0 <==> Json(expected) == Json(actual))
    ensures |msgs| <= 1
    ensures |msgs| == 1 ==>
      msgs[0] == "expected " + name + " to be equal to (" + Shown(expected) + ") but got (" + Shown(actual) + ")"
  {
    var isEqual := if IsPrimitive(expected) && IsPrimitive(actual) then looseEquals(expected, actual)
                   else Json(expected) == Json(actual);
    if isEqual then []
    else ["expected " + name + " to be equal to (" + Shown(expected) + ") but got (" + Shown(actual) + ")"]
  }

  /** An object none of whose values is `undefined` deep-equals `{}` exactly when it has no property. */
  lemma DeepEqualsEmpty(name: string, ps: seq<Prop>, looseEquals: (Value, Value) -> bool)
    ensures (forall i | 0 <= i < |ps| :: !ps[i].val.Undefined?) ==>
              (ToDeepEqual(name, Obj(ps), Obj([]), looseEquals) == [] <==> |ps| == 0)
  {
    var empty: seq<Prop> := [];
    assert JsonMembers(empty) == "";
    assert JsonText(Obj(empty)) == "{}";
    if |ps| > 0 && forall i | 0 <= i < |ps| :: !ps[i].val.Undefined? {
      assert !ps[0].val.Undefined?;
      var member := Quote(ps[0].key) + ":" + JsonText(ps[0].val);
      assert |member| > 0;
      assert JsonMembers(ps)[..|member|] == member;
      assert |JsonText(Obj(ps))| > 2;
    }
  }

  /** A JavaScript number as the comparisons below see it: finite, `NaN` (from `0 / 0`) or
      `Infinity` (from `n / 0`). */
  datatype Number = Finite(x: real) | NaN | Infinity

  /** `n.toFixed(2)`; the decimal rendering of a finite number is the parameter `fixed2`. */
  function FixedText(n: Number, fixed2: real -> string): string
  {
    match n
    case Finite(x) => fixed2(x)
    case NaN => "NaN"
    case Infinity => "Infinity"
  }

  /** `n < bound` */
  predicate Below(n: Number, bound: real)
  {
    n.Finite? && n.x < bound
  }

  /** `n > bound` */
  predicate Above(n: Number, bound: real)
  {
    n.Infinity? || (n.Finite? && n.x > bound)
  }

  /** The failure message of `toBeAtMost`. */
  function AtMostMessage(name: string, actual: Number, expected: real, fixed2: real -> string): string
  {
    "expected " + name + " to be at most " + fixed2(expected) + " but was " + FixedText(actual, fixed2)
  }

  /** `expect(name, actual).toBeAtMost(expected)`: passes only when strictly below. */
  function ToBeAtMost(name: string, actual: Number, expected: real, fixed2: real -> string): (msgs: seq<string>)
    ensures |msgs| == 0 <==> Below(actual, expected)
    ensures |msgs| <= 1
    ensures |msgs| == 1 ==>
      msgs[0] == AtMostMessage(name, actual, expected, fixed2)
  {
    if Below(actual, expected) then []
    else [AtMostMessage(name, actual, expected, fixed2)]
  }

  /** The failure message of `toBeAtLeast`. */
  function AtLeastMessage(name: string, actual: Number, expected: real, fixed2: real -> string): string
  {
    "expected " + name + " to be at least " + fixed2(expected) + " but was " + FixedText(actual, fixed2)
  }

  /** `expect(name, actual).toBeAtLeast(expected)`: passes only when strictly above. */
  function ToBeAtLeast(name: string, actual: Number, expected: real, fixed2: real -> string): (msgs: seq<string>)
    ensures |msgs| == 0 <==> Above(actual, expected)
    ensures |msgs| <= 1
    ensures |msgs| == 1 ==>
      msgs[0] == AtLeastMessage(name, actual, expected, fixed2)
  {
    if Above(actual, expected) then []
    else [AtLeastMessage(name, actual, expected, fixed2)]
  }

  /** Strict equality holds of a primitive and itself, so `toBe` accepts it. */
  lemma ToBeSelf(name: string, actual: Value)
    requires !actual.Arr? && !actual.Obj? && !actual.Error?
    ensures ToBe(name, actual, Exactly(actual)) == []
  {
  }

  // ---------------------------------------------------------------------------------------------
  // Item errors

  /** The TypeError of destructuring `undefined` or `null`; its exact wording is not modelled. */
  const DestructuringError := Error("TypeError: cannot destructure undefined or null")

  /** `itemError(message, context, item)`. */
  function ItemError(message: string, context: Value, item: Value): (r: Try<Value>)
    ensures IsNullish(context) || IsNullish(item) <==> r == Threw(DestructuringError)
    ensures r.Ok? ==> (r.value.Error? && r.value.message ==
      (if Values.Truthy(Field(context, "$loader")) then ToText(Field(context, "$loader")) + " " else "")
      + "item error: " + message
      + " (item: " + ToText(Field(item, "name")) + ", file: " + ToText(Field(context, "$fileName")) + ")")
  {
    if IsNullish(context) || IsNullish(item) then Threw(DestructuringError)
    else
      var loader := Field(context, "$loader");
      var prefix := if Values.Truthy(loader) then ToText(loader) + " " else "";
      var name := ToText(Field(item, "name"));
      var file := ToText(Field(context, "$fileName"));
      var details := "item: " + name + ", file: " + file;
      assert prefix + "item error: " + message + " (" + details + ")" ==
             prefix + "item error: " + message + " (item: " + name + ", file: " + file + ")";
      Ok(Error(prefix + "item error: " + message + " (" + details + ")"))
  }
}
