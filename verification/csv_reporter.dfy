/** The CSV reporter: a report tree built from a result tree, per-outcome counts summed post-order
    over each subtree, and the CSV text of the counts. The report nodes are values here; the
    reporter's in-place writes into `attrs` become functions returning the summarized tree. */
module CsvReporter {
  import opened Strings
  import opened Values
  import Outcomes

  /** The four per-outcome counters of a summarized node. */
  datatype Counts = Counts(success: nat, skipped: nat, failure: nat, error: nat)

  function CountOf(c: Counts, o: Outcomes.Outcome): nat
  {
    match o
    case SUCCESS => c.success
    case SKIPPED => c.skipped
    case FAILURE => c.failure
    case ERROR => c.error
  }

  /** One report node `{ subject, outcome, children, attrs }`. `duration` is the result's
      `durationMs` (the attribute `time` is that divided by 1000); `failures` and `errors` are the
      optional attributes; `counts` is absent until the node is summarized. */
  datatype Node = Node(subject: Value, outcome: Value, children: seq<Node>, duration: Value,
                       fileName: Value, description: Value, failures: Option<Value>,
                       errors: Option<Value>, counts: Option<Counts>)

  const DestructureError := Error("TypeError: Cannot destructure property of undefined")
  const NoLengthError := Error("TypeError: Cannot read properties of undefined (reading 'length')")
  const NoForEachError := Error("TypeError: nested.forEach is not a function")
  const NoLowerCaseError := Error("TypeError: suite.outcome.toLowerCase is not a function")

  /** `v.length` */
  function Length(v: Value): Value
  {
    match v
    case Arr(xs) => Num(|xs|)
    case Str(s) => Num(|s|)
    case Obj(ps) => Get(ps, "length")
    case _ => Undefined
  }

  // ---------------------------------------------------------------------------------------------
  // buildReport

  /** The node `buildReport(result)` pushes, with the children built from `nested`. */
  function Build(result: Value): (r: Try<Node>)
    ensures r.Ok? ==> r.value.subject == Field(result, "subject") && r.value.outcome == Field(result, "outcome")
    ensures r.Ok? ==> (r.value.failures.Some? <==> Truthy(Length(Field(result, "failures"))))
    ensures r.Ok? && r.value.failures.Some? ==> r.value.failures.value == Field(result, "failures")
    ensures r.Ok? ==> (r.value.errors.Some? <==> Truthy(Field(result, "errors")))
    ensures r.Ok? && r.value.errors.Some? ==> r.value.errors.value == Field(result, "errors")
    ensures r.Ok? ==> r.value.counts.None?
    ensures r.Ok? && !Truthy(Field(result, "nested")) ==> r.value.children == []
    ensures r.Ok? && Truthy(Field(result, "nested")) ==>
              Field(result, "nested").Arr? && |r.value.children| == |Field(result, "nested").elems|
    ensures IsNullish(result) || IsNullish(Field(result, "subject")) || IsNullish(Field(result, "failures")) ==>
              r.Threw?
    ensures Truthy(Field(result, "nested")) && !Field(result, "nested").Arr? ==> r.Threw?
    decreases Size(result), 1
  {
    var subject := Field(result, "subject");
    var failures := Field(result, "failures");
    var errors := Field(result, "errors");
    var nested := Field(result, "nested");
    if IsNullish(result) || IsNullish(subject) || IsNullish(failures) then
      Threw(if IsNullish(failures) && !IsNullish(result) && !IsNullish(subject) then NoLengthError else DestructureError)
    else
      var node := Node(subject, Field(result, "outcome"), [], Field(result, "durationMs"),
                       Field(subject, "sourceFile"), Field(subject, "description"),
                       if Truthy(Length(failures)) then Some(failures) else None,
                       if Truthy(errors) then Some(errors) else None, None);
      if !Truthy(nested) then Ok(node)
      else if !nested.Arr? then Threw(NoForEachError)
      else
        FieldSmaller(result, "nested");
        var children := BuildAll(nested.elems);
        if children.Threw? then Threw(children.error)
        else Ok(node.(children := children.value))
  }

  /** `nested.forEach(res => buildReport(res, children))`: children in order, first throw wins. */
  function BuildAll(results: seq<Value>): (r: Try<seq<Node>>)
    ensures r.Ok? ==> |r.value| == |results|
    decreases SizeAll(results), 0
  {
    if |results| == 0 then Ok([])
    else
      SizeElem(results, 0);
      var first := Build(results[0]);
      if first.Threw? then Threw(first.error)
      else
        var rest := BuildAll(results[1..]);
        if rest.Threw? then Threw(rest.error) else Ok([first.value] + rest.value)
  }

  /** One step of `forEach`: the first result, then the others unless the first threw. */
  lemma BuildAllStep(results: seq<Value>)
    requires |results| > 0
    ensures var first := Build(results[0]);
      var rest := BuildAll(results[1..]);
      BuildAll(results) ==
        if first.Threw? then Threw(first.error) else if rest.Threw? then Threw(rest.error) else Ok([first.value] + rest.value)
  {
  }

  /** `forEach` builds the children in order: the list succeeds exactly when every child's report
      does, and then holds those reports. */
  lemma {:induction false} BuildAllElems(results: seq<Value>)
    ensures BuildAll(results).Ok? <==> forall i | 0 <= i < |results| :: Build(results[i]).Ok?
    ensures BuildAll(results).Ok? ==> forall i | 0 <= i < |results| :: BuildAll(results).value[i] == Build(results[i]).value
  {
    if |results| > 0 {
      BuildAllElems(results[1..]);
      BuildAllStep(results);
      assert forall i | 1 <= i < |results| :: results[1..][i - 1] == results[i];
    }
  }

  /** Otherwise the first throw is the result. */
  lemma {:induction false} BuildAllFirstThrow(results: seq<Value>)
    requires BuildAll(results).Threw?
    ensures exists i | 0 <= i < |results| ::
              Build(results[i]).Threw? && BuildAll(results).error == Build(results[i]).error &&
              forall j | 0 <= j < i :: Build(results[j]).Ok?
  {
    BuildAllStep(results);
    if Build(results[0]).Ok? {
      BuildAllFirstThrow(results[1..]);
      var i :| 0 <= i < |results[1..]| && Build(results[1..][i]).Threw? &&
               BuildAll(results[1..]).error == Build(results[1..][i]).error &&
               forall j | 0 <= j < i :: Build(results[1..][j]).Ok?;
      forall j | 0 <= j < i + 1 ensures Build(results[j]).Ok? {
        if j > 0 { assert results[j] == results[1..][j - 1]; }
      }
      assert results[i + 1] == results[1..][i];
    }
  }

  /** A report node's children are the reports of the result's `nested` entries, one each, in
      order; a result whose own fields are readable fails only through a failing nested result. */
  lemma BuildChildren(result: Value)
    requires !IsNullish(result) && !IsNullish(Field(result, "subject")) && !IsNullish(Field(result, "failures"))
    requires Field(result, "nested").Arr?
    ensures var nested := Field(result, "nested").elems;
      (Build(result).Ok? <==> forall i | 0 <= i < |nested| :: Build(nested[i]).Ok?) &&
      (Build(result).Ok? ==> forall i | 0 <= i < |nested| :: Build(result).value.children[i] == Build(nested[i]).value)
  {
    BuildAllElems(Field(result, "nested").elems);
  }

  /** `buildReport(result)` returns the list holding the one top node. */
  function BuildReport(result: Value): (r: Try<seq<Node>>)
    ensures r.Ok? ==> |r.value| == 1 && Build(result) == Ok(r.value[0])
    ensures r.Threw? <==> Build(result).Threw?
  {
    var node := Build(result);
    if node.Threw? then Threw(node.error) else Ok([node.value])
  }

  // ---------------------------------------------------------------------------------------------
  // summarizeSuite

  /** `(suite.outcome.toLowerCase() === outcome.toLowerCase() ? 1 : 0)` for a string outcome. */
  function Own(outcome: string, o: Outcomes.Outcome): nat
  {
    if Lower(outcome) == Outcomes.LowerName(o) then 1 else 0
  }

  /** `child.attrs[attr] || 0` */
  function ChildCount(child: Node, o: Outcomes.Outcome): nat
  {
    if child.counts.Some? then CountOf(child.counts.value, o) else 0
  }

  /** `children.map(child => child.attrs[attr] || 0).reduce((a, b) => a + b, own)` */
  function SumFrom(own: nat, children: seq<Node>, o: Outcomes.Outcome): nat
    decreases |children|
  {
    if |children| == 0 then own else SumFrom(own + ChildCount(children[0], o), children[1..], o)
  }

  /** `summarizeSuite(suite)`: the children first, then the node's four counters. */
  function Summarize(n: Node): (r: Try<Node>)
    ensures r.Ok? ==> r.value.counts.Some? && |r.value.children| == |n.children|
    ensures r.Ok? ==> r.value.(children := n.children, counts := None) == n.(counts := None)
    decreases n, 1
  {
    var kids := SummarizeAll(n.children);
    if kids.Threw? then Threw(kids.error)
    else if !n.outcome.Str? then Threw(NoLowerCaseError)
    else
      var s := n.outcome.s;
      var cs := Counts(SumFrom(Own(s, Outcomes.SUCCESS), kids.value, Outcomes.SUCCESS),
                       SumFrom(Own(s, Outcomes.SKIPPED), kids.value, Outcomes.SKIPPED),
                       SumFrom(Own(s, Outcomes.FAILURE), kids.value, Outcomes.FAILURE),
                       SumFrom(Own(s, Outcomes.ERROR), kids.value, Outcomes.ERROR));
      Ok(n.(children := kids.value, counts := Some(cs)))
  }

  function SummarizeAll(ns: seq<Node>): (r: Try<seq<Node>>)
    ensures r.Ok? ==> |r.value| == |ns|
    decreases ns, 0
  {
    if |ns| == 0 then Ok([])
    else
      var first := Summarize(ns[0]);
      if first.Threw? then Threw(first.error)
      else
        var rest := SummarizeAll(ns[1..]);
        if rest.Threw? then Threw(rest.error) else Ok([first.value] + rest.value)
  }

  /** The reference count: how many nodes of the subtree have an outcome that lower-cases to o. */
  function Tally(n: Node, o: Outcomes.Outcome): nat
    decreases n, 1
  {
    (if n.outcome.Str? then Own(n.outcome.s, o) else 0) + TallyAll(n.children, o)
  }

  function TallyAll(ns: seq<Node>, o: Outcomes.Outcome): nat
    decreases ns, 0
  {
    if |ns| == 0 then 0 else Tally(ns[0], o) + TallyAll(ns[1..], o)
  }

  /** The number of nodes in the subtree. */
  function NodeCount(n: Node): nat
    decreases n, 1
  {
    1 + NodeCountAll(n.children)
  }

  function NodeCountAll(ns: seq<Node>): nat
    decreases ns, 0
  {
    if |ns| == 0 then 0 else NodeCount(ns[0]) + NodeCountAll(ns[1..])
  }

  lemma {:induction false} SumFromShift(own: nat, kids: seq<Node>, o: Outcomes.Outcome)
    ensures SumFrom(own, kids, o) == own + SumFrom(0, kids, o)
    decreases |kids|
  {
    if |kids| > 0 {
      SumFromShift(own + ChildCount(kids[0], o), kids[1..], o);
      SumFromShift(ChildCount(kids[0], o), kids[1..], o);
    }
  }

  /** Post-order summation counts, for every outcome, the nodes of the subtree with that outcome. */
  lemma {:induction false} SummarizeCounts(n: Node, o: Outcomes.Outcome)
    requires Summarize(n).Ok?
    ensures CountOf(Summarize(n).value.counts.value, o) == Tally(n, o)
    decreases n, 1
  {
    var kids := SummarizeAll(n.children);
    SummarizeAllCounts(n.children, o);
    SumFromShift(Own(n.outcome.s, o), kids.value, o);
  }

  lemma {:induction false} SummarizeAllCounts(ns: seq<Node>, o: Outcomes.Outcome)
    requires SummarizeAll(ns).Ok?
    ensures SumFrom(0, SummarizeAll(ns).value, o) == TallyAll(ns, o)
    decreases ns, 0
  {
    if |ns| > 0 {
      var first := Summarize(ns[0]);
      var rest := SummarizeAll(ns[1..]);
      SummarizeCounts(ns[0], o);
      SummarizeAllCounts(ns[1..], o);
      var all := SummarizeAll(ns).value;
      assert all == [first.value] + rest.value;
      assert all[1..] == rest.value;
      SumFromShift(ChildCount(first.value, o), rest.value, o);
    }
  }

  /** Every node of the subtree has one of the four outcomes, in any letter case. */
  predicate KnownOutcomes(n: Node)
    decreases n, 1
  {
    n.outcome.Str? && (exists o: Outcomes.Outcome :: Lower(n.outcome.s) == Outcomes.LowerName(o)) &&
    KnownOutcomesAll(n.children)
  }

  predicate KnownOutcomesAll(ns: seq<Node>)
    decreases ns, 0
  {
    |ns| == 0 || (KnownOutcomes(ns[0]) && KnownOutcomesAll(ns[1..]))
  }

  function Total(n: Node): nat
  {
    Tally(n, Outcomes.SUCCESS) + Tally(n, Outcomes.SKIPPED) + Tally(n, Outcomes.FAILURE) + Tally(n, Outcomes.ERROR)
  }

  function TotalAll(ns: seq<Node>): nat
  {
    TallyAll(ns, Outcomes.SUCCESS) + TallyAll(ns, Outcomes.SKIPPED) + TallyAll(ns, Outcomes.FAILURE) +
    TallyAll(ns, Outcomes.ERROR)
  }

  /** The four lower-cased names differ, so a string matches at most one of them. */
  lemma OwnOnce(s: string, o: Outcomes.Outcome)
    requires Lower(s) == Outcomes.LowerName(o)
    ensures Own(s, Outcomes.SUCCESS) + Own(s, Outcomes.SKIPPED) + Own(s, Outcomes.FAILURE) + Own(s, Outcomes.ERROR) == 1
  {
    var a, b, c, d := Outcomes.LowerName(Outcomes.SUCCESS), Outcomes.LowerName(Outcomes.SKIPPED),
                      Outcomes.LowerName(Outcomes.FAILURE), Outcomes.LowerName(Outcomes.ERROR);
    assert a[1] != b[1] && a[1] != c[1] && a[0] != d[0];
    assert b[0] != c[0] && b[0] != d[0] && c[0] != d[0];
  }

  /** With every outcome known, the four counts of a node add up to its subtree size. */
  lemma {:induction false} CountsSumToSize(n: Node)
    requires KnownOutcomes(n)
    ensures Total(n) == NodeCount(n)
    decreases n, 1
  {
    var o :| Lower(n.outcome.s) == Outcomes.LowerName(o);
    OwnOnce(n.outcome.s, o);
    CountsSumToSizeAll(n.children);
  }

  lemma {:induction false} CountsSumToSizeAll(ns: seq<Node>)
    requires KnownOutcomesAll(ns)
    ensures TotalAll(ns) == NodeCountAll(ns)
    decreases ns, 0
  {
    if |ns| > 0 {
      CountsSumToSize(ns[0]);
      CountsSumToSizeAll(ns[1..]);
    }
  }

  // ---------------------------------------------------------------------------------------------
  // asCsv

  /** The counter of a summarized node, 0 for one that has none. */
  function Sum(nodes: seq<Node>, o: Outcomes.Outcome): nat
  {
    if |nodes| == 0 then 0 else ChildCount(nodes[0], o) + Sum(nodes[1..], o)
  }

  function CsvText(failure: nat, success: nat, skipped: nat, error: nat): string
  {
    "failures, successes, skipped, errors\n" + NatToString(failure) + ", " + NatToString(success) + ", " +
    NatToString(skipped) + ", " + NatToString(error)
  }

  lemma {:induction false} SumAppend(nodes: seq<Node>, n: Node, o: Outcomes.Outcome)
    ensures Sum(nodes + [n], o) == Sum(nodes, o) + ChildCount(n, o)
  {
    if |nodes| > 0 {
      assert (nodes + [n])[1..] == nodes[1..] + [n];
      SumAppend(nodes[1..], n, o);
    }
  }

  /** `asCsv(suiteResults)`: the four counters summed over the given nodes, in one `+=` loop. */
  method AsCsv(suites: seq<Node>) returns (text: string)
    requires forall i | 0 <= i < |suites| :: suites[i].counts.Some?
    ensures text == CsvText(Sum(suites, Outcomes.FAILURE), Sum(suites, Outcomes.SUCCESS),
                            Sum(suites, Outcomes.SKIPPED), Sum(suites, Outcomes.ERROR))
  {
    var failure, error, skipped, success := 0, 0, 0, 0;
    for i := 0 to |suites|
      invariant failure == Sum(suites[..i], Outcomes.FAILURE) && error == Sum(suites[..i], Outcomes.ERROR)
      invariant skipped == Sum(suites[..i], Outcomes.SKIPPED) && success == Sum(suites[..i], Outcomes.SUCCESS)
    {
      var c := suites[i].counts.value;
      assert suites[..i + 1] == suites[..i] + [suites[i]];
      SumAppend(suites[..i], suites[i], Outcomes.FAILURE);
      SumAppend(suites[..i], suites[i], Outcomes.ERROR);
      SumAppend(suites[..i], suites[i], Outcomes.SKIPPED);
      SumAppend(suites[..i], suites[i], Outcomes.SUCCESS);
      failure := failure + c.failure;
      error := error + c.error;
      skipped := skipped + c.skipped;
      success := success + c.success;
    }
    assert suites[..|suites|] == suites;
    text := CsvText(failure, success, skipped, error);
  }

  /** The summary CSV of summarized top nodes counts, per outcome, the nodes of all their subtrees. */
  lemma {:induction false} SummarySums(ns: seq<Node>, o: Outcomes.Outcome)
    requires SummarizeAll(ns).Ok?
    ensures Sum(SummarizeAll(ns).value, o) == TallyAll(ns, o)
  {
    if |ns| > 0 {
      var all := SummarizeAll(ns).value;
      assert all[1..] == SummarizeAll(ns[1..]).value;
      SummarizeCounts(ns[0], o);
      SummarySums(ns[1..], o);
    }
  }
}
