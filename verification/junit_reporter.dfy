/** The JUnit reporter: a tree of `testsuite`/`testcase` elements built from a result tree, an
    `error` or `failure` element under every failed test case, and per-outcome counts summed
    post-order over each subtree. Elements are values here; the reporter's pushes and `attrs`
    writes become functions returning the new tree. */
module JunitReporter {
  import opened Strings
  import opened Values
  import Outcomes

  /** The `time` attribute, `durationMs / 1000`: a number of seconds, or NaN. `NoTime` is the
      absence of the attribute, on `error`/`failure` elements. */
  datatype Time = NoTime | Seconds(s: real) | NaN

  /** One element `{ name, text?, attrs, children }`; an `error`/`failure` element has no children.
      The `time` attribute, a fractional number, is held beside the other attributes. */
  datatype Element = Element(name: string, text: Option<string>, attrs: seq<Prop>, time: Time, children: seq<Element>)

  /** `durationMs / 1000`, converting the operand as `/` does: `null` and `false` are 0, `true` is 1,
      and `undefined` and plain objects are NaN; strings and arrays are NaN here too (see README). */
  function SecondsOf(durationMs: Value): (t: Time)
    ensures durationMs.Num? ==> t == Seconds(durationMs.n as real / 1000.0)
    ensures durationMs.Num? && durationMs.n >= 0 ==> t.s >= 0.0 && t.s * 1000.0 == durationMs.n as real
    ensures durationMs.Undefined? || durationMs.Obj? ==> t == NaN
  {
    match durationMs
    case Num(n) => Seconds(n as real / 1000.0)
    case Null => Seconds(0.0)
    case Bool(b) => Seconds(if b then 0.001 else 0.0)
    case _ => NaN
  }

  const DestructureError := Error("TypeError: Cannot destructure property 'subject' of undefined")
  const NoForEachError := Error("TypeError: nested.forEach is not a function")

  /** `a || b` */
  function Or(a: Value, b: Value): Value
  {
    if Truthy(a) then a else b
  }

  /** The text of the element under a failed test case. */
  function FailureText(sourceFile: Value, description: Value, errors: Value, failures: Value): string
  {
    "In file " + ToText(sourceFile) + " - description: " + ToText(Or(description, Str(""))) +
    "\nStacktrace: " + ToText(Or(errors, failures)) + "\n"
  }

  /** The outcome of a test case that gets an `error` or `failure` element. */
  function FailedOutcome(outcome: Value): Option<Outcomes.Outcome>
  {
    if StrictEquals(outcome, Str("ERROR")) then Some(Outcomes.ERROR)
    else if StrictEquals(outcome, Str("FAILURE")) then Some(Outcomes.FAILURE)
    else None
  }

  /** The element `collectSuiteResults` pushes for a result, before anything is added to it. */
  function Head(result: Value): (e: Element)
    ensures e.name == "testsuite" || e.name == "testcase"
    ensures e.time == SecondsOf(Field(result, "durationMs")) && e.children == []
  {
    var subject := Field(result, "subject");
    var attrs := [Prop("name", Field(subject, "name")), Prop("fileName", Field(subject, "sourceFile")),
                  Prop("outcome", Field(result, "outcome"))];
    Element(if StrictEquals(Field(subject, "type"), Str("suite")) then "testsuite" else "testcase", None,
            attrs, SecondsOf(Field(result, "durationMs")), [])
  }

  /** The pushed element is a `testsuite` for a suite and a `testcase` otherwise, with the
      subject's name and source file, the outcome, and the duration in seconds. */
  lemma HeadAttributes(result: Value)
    ensures var e := Head(result);
      (e.name == "testsuite" <==> StrictEquals(Field(Field(result, "subject"), "type"), Str("suite"))) &&
      (e.name == "testsuite" || e.name == "testcase") &&
      Get(e.attrs, "name") == Field(Field(result, "subject"), "name") &&
      Get(e.attrs, "fileName") == Field(Field(result, "subject"), "sourceFile") &&
      Get(e.attrs, "outcome") == Field(result, "outcome") &&
      e.time == SecondsOf(Field(result, "durationMs")) && e.text.None? && e.children == []
  {
    var attrs := Head(result).attrs;
    GetAt(attrs, 0);
    GetAt(attrs, 1);
    GetAt(attrs, 2);
  }

  /** The `error`/`failure` element: none for suites and for test cases that did not fail. */
  function Marker(result: Value): (m: seq<Element>)
    ensures |m| <= 1
    ensures |m| == 1 <==> Head(result).name == "testcase" && FailedOutcome(Field(result, "outcome")).Some?
    ensures |m| == 1 ==> m[0].name == Outcomes.LowerName(FailedOutcome(Field(result, "outcome")).value) &&
                         m[0].children == [] && !Has(m[0].attrs, "outcome")
  {
    var subject := Field(result, "subject");
    var failed := FailedOutcome(Field(result, "outcome"));
    if Head(result).name == "testcase" && failed.Some? then
      var attrs := [Prop("message", Field(result, "message")), Prop("errors", Field(result, "errors")),
                    Prop("failures", Field(result, "failures"))];
      assert attrs[0].key != "outcome" && attrs[1].key != "outcome" && attrs[2].key != "outcome";
      [Element(Outcomes.LowerName(failed.value),
               Some(FailureText(Field(subject, "sourceFile"), Field(subject, "description"),
                                Field(result, "errors"), Field(result, "failures"))),
               attrs, NoTime, [])]
    else []
  }

  /** `collectSuiteResults(result)`: the element for the result, holding the marker element first
      and then the elements of the nested results, in order. */
  function Collect(result: Value): (r: Try<Element>)
    ensures r.Ok? ==> r.value.name == Head(result).name && r.value.attrs == Head(result).attrs
    ensures r.Ok? ==> (r.value.name == "testsuite" <==> StrictEquals(Field(Field(result, "subject"), "type"), Str("suite")))
    ensures r.Ok? ==> |Marker(result)| <= |r.value.children| && r.value.children[..|Marker(result)|] == Marker(result)
    ensures r.Ok? && !Truthy(Field(result, "nested")) ==> r.value.children == Marker(result)
    ensures r.Ok? && Truthy(Field(result, "nested")) ==>
              Field(result, "nested").Arr? &&
              |r.value.children| == |Marker(result)| + |Field(result, "nested").elems|
    ensures IsNullish(result) || IsNullish(Field(result, "subject")) ==> r.Threw?
    ensures Truthy(Field(result, "nested")) && !Field(result, "nested").Arr? ==> r.Threw?
    decreases Size(result), 1
  {
    var nested := Field(result, "nested");
    if IsNullish(result) || IsNullish(Field(result, "subject")) then Threw(DestructureError)
    else
      var head := Head(result);
      var marker := Marker(result);
      if !Truthy(nested) then Ok(head.(children := marker))
      else if !nested.Arr? then Threw(NoForEachError)
      else
        FieldSmaller(result, "nested");
        var kids := CollectAll(nested.elems);
        if kids.Threw? then Threw(kids.error)
        else Ok(head.(children := marker + kids.value))
  }

  function CollectAll(results: seq<Value>): (r: Try<seq<Element>>)
    ensures r.Ok? ==> |r.value| == |results|
    decreases SizeAll(results), 0
  {
    if |results| == 0 then Ok([])
    else
      SizeElem(results, 0);
      var first := Collect(results[0]);
      if first.Threw? then Threw(first.error)
      else
        var rest := CollectAll(results[1..]);
        if rest.Threw? then Threw(rest.error) else Ok([first.value] + rest.value)
  }

  /** One step of `forEach`: the first result, then the others unless the first threw. */
  lemma CollectAllStep(results: seq<Value>)
    requires |results| > 0
    ensures var first := Collect(results[0]);
      var rest := CollectAll(results[1..]);
      CollectAll(results) ==
        if first.Threw? then Threw(first.error) else if rest.Threw? then Threw(rest.error) else Ok([first.value] + rest.value)
  {
  }

  /** `forEach` collects the nested results in order: the list succeeds exactly when every nested
      result's collection does, and then holds those elements. */
  lemma {:induction false} CollectAllElems(results: seq<Value>)
    ensures CollectAll(results).Ok? <==> forall i | 0 <= i < |results| :: Collect(results[i]).Ok?
    ensures CollectAll(results).Ok? ==>
              forall i | 0 <= i < |results| :: CollectAll(results).value[i] == Collect(results[i]).value
  {
    if |results| > 0 {
      CollectAllElems(results[1..]);
      CollectAllStep(results);
      assert forall i | 1 <= i < |results| :: results[1..][i - 1] == results[i];
    }
  }

  /** Otherwise the first throw is the result. */
  lemma {:induction false} CollectAllFirstThrow(results: seq<Value>)
    requires CollectAll(results).Threw?
    ensures exists i | 0 <= i < |results| ::
              Collect(results[i]).Threw? && CollectAll(results).error == Collect(results[i]).error &&
              forall j | 0 <= j < i :: Collect(results[j]).Ok?
  {
    CollectAllStep(results);
    if Collect(results[0]).Ok? {
      CollectAllFirstThrow(results[1..]);
      var i :| 0 <= i < |results[1..]| && Collect(results[1..][i]).Threw? &&
               CollectAll(results[1..]).error == Collect(results[1..][i]).error &&
               forall j | 0 <= j < i :: Collect(results[1..][j]).Ok?;
      forall j | 0 <= j < i + 1 ensures Collect(results[j]).Ok? {
        if j > 0 { assert results[j] == results[1..][j - 1]; }
      }
      assert results[i + 1] == results[1..][i];
    }
  }

  /** After the marker element, an element's children are the elements of the result's `nested`
      entries, collected in order; a readable result fails only when collecting them fails. */
  lemma CollectChildren(result: Value)
    requires !IsNullish(result) && !IsNullish(Field(result, "subject")) && Field(result, "nested").Arr?
    ensures var kids := CollectAll(Field(result, "nested").elems);
      (Collect(result).Ok? <==> kids.Ok?) &&
      (Collect(result).Ok? ==> Collect(result).value.children == Marker(result) + kids.value)
  {
  }

  /** Child by child: the child after the marker at position i is the element of the i-th nested
      result, and the element exists exactly when every nested result's element does. */
  lemma CollectChildAt(result: Value, i: nat)
    requires !IsNullish(result) && !IsNullish(Field(result, "subject")) && Field(result, "nested").Arr?
    requires i < |Field(result, "nested").elems|
    ensures var nested := Field(result, "nested").elems;
      (Collect(result).Ok? <==> forall j | 0 <= j < |nested| :: Collect(nested[j]).Ok?) &&
      (Collect(result).Ok? ==>
        |Marker(result)| + i < |Collect(result).value.children| &&
        Collect(result).value.children[|Marker(result)| + i] == Collect(nested[i]).value)
  {
    var nested := Field(result, "nested").elems;
    CollectChildren(result);
    CollectAllElems(nested);
  }

  // ---------------------------------------------------------------------------------------------
  // summarizeSuite

  /** `(suite.attrs.outcome === outcome ? 1 : 0)` */
  function Own(attrs: seq<Prop>, o: Outcomes.Outcome): nat
  {
    if StrictEquals(Get(attrs, "outcome"), Str(Outcomes.Name(o))) then 1 else 0
  }

  function NumOf(v: Value): int
  {
    if v.Num? then v.n else 0
  }

  /** `children.map(child => child.attrs[attr]).reduce((a, b) => a + b, own)` */
  function SumFrom(own: int, children: seq<Element>, key: string): int
    decreases |children|
  {
    if |children| == 0 then own else SumFrom(own + NumOf(Get(children[0].attrs, key)), children[1..], key)
  }

  /** The attributes the reporter writes its counters to. */
  predicate IsCounterKey(k: string)
  {
    k == "success" || k == "skipped" || k == "failure" || k == "error" || k == "tests" || k == "failures" || k == "errors"
  }

  /** The counters written onto `attrs`, in the order the reporter writes them. */
  function WithCounts(attrs: seq<Prop>, success: int, skipped: int, failure: int, error: int): seq<Prop>
  {
    var a1 := Put(attrs, "success", Num(success));
    var a2 := Put(a1, "skipped", Num(skipped));
    var a3 := Put(a2, "failure", Num(failure));
    var a4 := Put(a3, "error", Num(error));
    var a5 := Put(a4, "tests", Num(success + skipped + failure + error));
    var a6 := Put(a5, "failures", Num(failure));
    Put(a6, "errors", Num(error))
  }

  /** The value of one attribute after the counters are written. */
  lemma CountAttribute(attrs: seq<Prop>, success: int, skipped: int, failure: int, error: int, k: string)
    ensures Get(WithCounts(attrs, success, skipped, failure, error), k) ==
              if k == "errors" || k == "error" then Num(error)
              else if k == "failures" || k == "failure" then Num(failure)
              else if k == "tests" then Num(success + skipped + failure + error)
              else if k == "skipped" then Num(skipped)
              else if k == "success" then Num(success)
              else Get(attrs, k)
  {
    var a1 := Put(attrs, "success", Num(success));
    var a2 := Put(a1, "skipped", Num(skipped));
    var a3 := Put(a2, "failure", Num(failure));
    var a4 := Put(a3, "error", Num(error));
    var a5 := Put(a4, "tests", Num(success + skipped + failure + error));
    var a6 := Put(a5, "failures", Num(failure));
    PutGet(a6, "errors", Num(error), k);
    PutGet(a5, "failures", Num(failure), k);
    PutGet(a4, "tests", Num(success + skipped + failure + error), k);
    PutGet(a3, "error", Num(error), k);
    PutGet(a2, "failure", Num(failure), k);
    PutGet(a1, "skipped", Num(skipped), k);
    PutGet(attrs, "success", Num(success), k);
  }

  /** The four counters, their sum as `tests`, and `failures`/`errors` as copies of two of them. */
  predicate HasCounts(r: seq<Prop>, success: int, skipped: int, failure: int, error: int)
  {
    Get(r, "success") == Num(success) && Get(r, "skipped") == Num(skipped) &&
    Get(r, "failure") == Num(failure) && Get(r, "error") == Num(error) &&
    Get(r, "tests") == Num(success + skipped + failure + error) &&
    Get(r, "failures") == Num(failure) && Get(r, "errors") == Num(error)
  }

  lemma CountsWritten(attrs: seq<Prop>, success: int, skipped: int, failure: int, error: int)
    ensures HasCounts(WithCounts(attrs, success, skipped, failure, error), success, skipped, failure, error)
  {
    CountAttribute(attrs, success, skipped, failure, error, "success");
    CountAttribute(attrs, success, skipped, failure, error, "skipped");
    CountAttribute(attrs, success, skipped, failure, error, "failure");
    CountAttribute(attrs, success, skipped, failure, error, "error");
    CountAttribute(attrs, success, skipped, failure, error, "tests");
    CountAttribute(attrs, success, skipped, failure, error, "failures");
    CountAttribute(attrs, success, skipped, failure, error, "errors");
  }

  /** Writing the counters leaves every other attribute as it was. */
  lemma OthersKept(attrs: seq<Prop>, success: int, skipped: int, failure: int, error: int)
    ensures forall k | !IsCounterKey(k) :: Get(WithCounts(attrs, success, skipped, failure, error), k) == Get(attrs, k)
  {
    forall k | !IsCounterKey(k) ensures Get(WithCounts(attrs, success, skipped, failure, error), k) == Get(attrs, k) {
      CountAttribute(attrs, success, skipped, failure, error, k);
    }
  }

  /** `summarizeSuite(suite)`: the children first (markers included), then the node's counters. */
  function Summarize(e: Element): (r: Element)
    ensures r.name == e.name && r.text == e.text && |r.children| == |e.children|
    decreases e, 1
  {
    var kids := SummarizeAll(e.children);
    var attrs := WithCounts(e.attrs,
                            SumFrom(Own(e.attrs, Outcomes.SUCCESS), kids, "success"),
                            SumFrom(Own(e.attrs, Outcomes.SKIPPED), kids, "skipped"),
                            SumFrom(Own(e.attrs, Outcomes.FAILURE), kids, "failure"),
                            SumFrom(Own(e.attrs, Outcomes.ERROR), kids, "error"));
    e.(attrs := attrs, children := kids)
  }

  function SummarizeAll(es: seq<Element>): (r: seq<Element>)
    ensures |r| == |es|
    decreases es, 0
  {
    if |es| == 0 then [] else [Summarize(es[0])] + SummarizeAll(es[1..])
  }

  /** The reference count: the elements of the subtree whose own `outcome` attribute is o. */
  function Tally(e: Element, o: Outcomes.Outcome): nat
    decreases e, 1
  {
    Own(e.attrs, o) + TallyAll(e.children, o)
  }

  function TallyAll(es: seq<Element>, o: Outcomes.Outcome): nat
    decreases es, 0
  {
    if |es| == 0 then 0 else Tally(es[0], o) + TallyAll(es[1..], o)
  }

  lemma {:induction false} SumFromShift(own: int, kids: seq<Element>, key: string)
    ensures SumFrom(own, kids, key) == own + SumFrom(0, kids, key)
    decreases |kids|
  {
    if |kids| > 0 {
      SumFromShift(own + NumOf(Get(kids[0].attrs, key)), kids[1..], key);
      SumFromShift(NumOf(Get(kids[0].attrs, key)), kids[1..], key);
    }
  }

  /** Post-order summation: every counter of a summarized element is the number of elements of its
      subtree with that outcome, `tests` is their sum, and `failures`/`errors` repeat two of them. */
  lemma {:induction false} SummarizeCounts(e: Element)
    ensures HasCounts(Summarize(e).attrs, Tally(e, Outcomes.SUCCESS), Tally(e, Outcomes.SKIPPED),
                      Tally(e, Outcomes.FAILURE), Tally(e, Outcomes.ERROR))
    decreases e, 1
  {
    var kids := SummarizeAll(e.children);
    var su := SumFrom(Own(e.attrs, Outcomes.SUCCESS), kids, "success");
    var sk := SumFrom(Own(e.attrs, Outcomes.SKIPPED), kids, "skipped");
    var fa := SumFrom(Own(e.attrs, Outcomes.FAILURE), kids, "failure");
    var er := SumFrom(Own(e.attrs, Outcomes.ERROR), kids, "error");
    assert Summarize(e).attrs == WithCounts(e.attrs, su, sk, fa, er);
    CountsWritten(e.attrs, su, sk, fa, er);
    assert Outcomes.LowerName(Outcomes.SUCCESS) == "success" && Outcomes.LowerName(Outcomes.SKIPPED) == "skipped";
    assert Outcomes.LowerName(Outcomes.FAILURE) == "failure" && Outcomes.LowerName(Outcomes.ERROR) == "error";
    SummarizeCount(e, Outcomes.SUCCESS);
    SummarizeCount(e, Outcomes.SKIPPED);
    SummarizeCount(e, Outcomes.FAILURE);
    SummarizeCount(e, Outcomes.ERROR);
  }

  /** One counter of a summarized element, before it is written onto `attrs`. */
  lemma {:induction false} SummarizeCount(e: Element, o: Outcomes.Outcome)
    ensures SumFrom(Own(e.attrs, o), SummarizeAll(e.children), Outcomes.LowerName(o)) == Tally(e, o)
    decreases e, 0
  {
    SummarizeAllCounts(e.children, o);
    SumFromShift(Own(e.attrs, o), SummarizeAll(e.children), Outcomes.LowerName(o));
  }

  lemma {:induction false} SummarizeAllCounts(es: seq<Element>, o: Outcomes.Outcome)
    ensures SumFrom(0, SummarizeAll(es), Outcomes.LowerName(o)) == TallyAll(es, o)
    decreases es, 0
  {
    if |es| > 0 {
      var all := SummarizeAll(es);
      assert all[0] == Summarize(es[0]) && all[1..] == SummarizeAll(es[1..]);
      SummarizeCounts(es[0]);
      SummarizeAllCounts(es[1..], o);
      SumFromShift(NumOf(Get(all[0].attrs, Outcomes.LowerName(o))), all[1..], Outcomes.LowerName(o));
    }
  }

  /** An `error`/`failure` element has no outcome, so it adds nothing to any counter. */
  lemma MarkerCountsNothing(result: Value, o: Outcomes.Outcome)
    requires |Marker(result)| == 1
    ensures Tally(Marker(result)[0], o) == 0
  {
    GetHas(Marker(result)[0].attrs, "outcome");
  }
}
