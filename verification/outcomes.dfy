/** The four outcomes of an item run, ordered by severity, and `worstOf`. */
module Outcomes {
  import opened Strings
  import opened Values

  datatype Outcome = SUCCESS | SKIPPED | FAILURE | ERROR

  /** `bySeverity`: the outcomes from the least to the most severe. */
  const BySeverity: seq<Outcome> := [SUCCESS, SKIPPED, FAILURE, ERROR]

  /** Position of an outcome in `bySeverity` (what the tabulated severity table holds). */
  function Severity(o: Outcome): (s: nat)
    ensures s < |BySeverity| && BySeverity[s] == o
  {
    match o
    case SUCCESS => 0
    case SKIPPED => 1
    case FAILURE => 2
    case ERROR => 3
  }

  /** The outcome name as it appears in results (`'SUCCESS'`, ...). */
  function Name(o: Outcome): string
  {
    match o
    case SUCCESS => "SUCCESS"
    case SKIPPED => "SKIPPED"
    case FAILURE => "FAILURE"
    case ERROR => "ERROR"
  }

  /** `outcome.toLowerCase()` */
  function LowerName(outcome: Outcome): (r: string)
    ensures |r| == |Name(outcome)|
    ensures forall i | 0 <= i < |r| :: r[i] == LowerChar(Name(outcome)[i])
  {
    match outcome
    case SUCCESS => "success"
    case SKIPPED => "skipped"
    case FAILURE => "failure"
    case ERROR => "error"
  }

  /** Parsing an outcome name; anything else is not an outcome. */
  function Parse(s: string): (r: Option<Outcome>)
    ensures r.Some? ==> Name(r.value) == s
  {
    if s == "SUCCESS" then Some(SUCCESS)
    else if s == "SKIPPED" then Some(SKIPPED)
    else if s == "FAILURE" then Some(FAILURE)
    else if s == "ERROR" then Some(ERROR)
    else None
  }

  lemma ParseName(o: Outcome)
    ensures Parse(Name(o)) == Some(o)
  {
  }

  /** `list.map(severity).reduce(max, acc)`: the left fold of `max` starting from `acc`. */
  function MaxSeverityFrom(acc: nat, list: seq<Outcome>): nat
    decreases |list|
  {
    if |list| == 0 then acc
    else
      var s := Severity(list[0]);
      MaxSeverityFrom(if acc > s then acc else s, list[1..])
  }

  /** `worstOf(list)`: the reduction starts from index 0, i.e. from SUCCESS, so the result is
      SUCCESS or one of the list's outcomes. */
  function WorstOf(list: seq<Outcome>): (w: Outcome)
    ensures w == SUCCESS || w in list
    ensures |list| == 0 ==> w == SUCCESS
  {
    var i := MaxSeverityFrom(0, list);
    MaxFoldBound(0, list);
    MaxFoldIsMax(0, list);
    assert i != 0 ==> exists o | o in list :: Severity(o) == i && BySeverity[i] == o;
    BySeverity[i]
  }

  lemma {:induction false} MaxFoldBound(acc: nat, list: seq<Outcome>)
    requires acc < |BySeverity|
    ensures MaxSeverityFrom(acc, list) < |BySeverity|
    decreases |list|
  {
    if |list| > 0 {
      var s := Severity(list[0]);
      MaxFoldBound(if acc > s then acc else s, list[1..]);
    }
  }

  /** The fold is the maximum of the start value and every element's severity, and is one of them. */
  lemma {:induction false} MaxFoldIsMax(acc: nat, list: seq<Outcome>)
    ensures acc <= MaxSeverityFrom(acc, list)
    ensures forall o | o in list :: Severity(o) <= MaxSeverityFrom(acc, list)
    ensures MaxSeverityFrom(acc, list) == acc ||
            exists o | o in list :: Severity(o) == MaxSeverityFrom(acc, list)
    decreases |list|
  {
    if |list| > 0 {
      var s := Severity(list[0]);
      var acc' := if acc > s then acc else s;
      MaxFoldIsMax(acc', list[1..]);
      assert list == [list[0]] + list[1..];
      if MaxSeverityFrom(acc, list) != acc && MaxSeverityFrom(acc, list) != acc' {
        var o :| o in list[1..] && Severity(o) == MaxSeverityFrom(acc', list[1..]);
        assert o in list;
      }
    }
  }

  /** `worstOf([])` is SUCCESS. */
  lemma WorstOfEmpty()
    ensures WorstOf([]) == SUCCESS
  {
  }

  /** `worstOf` picks the most severe outcome of the list: no element is more severe, and on a
      non-empty list the result is one of its elements. */
  lemma WorstOfIsWorst(list: seq<Outcome>)
    ensures forall o | o in list :: Severity(o) <= Severity(WorstOf(list))
    ensures |list| > 0 ==> WorstOf(list) in list
  {
    MaxFoldIsMax(0, list);
    var w := WorstOf(list);
    if |list| > 0 && MaxSeverityFrom(0, list) == 0 {
      assert Severity(list[0]) == 0;
      assert list[0] == w;
    }
    if |list| > 0 && MaxSeverityFrom(0, list) != 0 {
      var o :| o in list && Severity(o) == MaxSeverityFrom(0, list);
      assert BySeverity[Severity(o)] == o;
    }
  }

  /** `worstOf` depends only on which outcomes occur: order and repetitions do not matter. */
  lemma WorstOfSetOf(a: seq<Outcome>, b: seq<Outcome>)
    requires (set o | o in a) == (set o | o in b)
    ensures WorstOf(a) == WorstOf(b)
  {
    WorstOfIsWorst(a);
    WorstOfIsWorst(b);
    var wa, wb := WorstOf(a), WorstOf(b);
    var sa, sb := set o | o in a, set o | o in b;
    if |a| > 0 { assert a[0] in sa; }
    if |b| > 0 { assert b[0] in sb; }
    if |a| > 0 {
      assert wa in sa && wb in sb;
      SeverityInjective(wa, wb);
    }
  }

  lemma SeverityInjective(a: Outcome, b: Outcome)
    requires Severity(a) == Severity(b)
    ensures a == b
  {
  }

  /** Appending outcomes never makes `worstOf` less severe. */
  lemma WorstOfMonotone(list: seq<Outcome>, more: seq<Outcome>)
    ensures Severity(WorstOf(list)) <= Severity(WorstOf(list + more))
  {
    WorstOfIsWorst(list);
    WorstOfIsWorst(list + more);
    if |list| > 0 {
      assert WorstOf(list) in list + more;
    }
  }

  /** The severity order is a total order on the four outcomes. */
  lemma SeverityOrder()
    ensures Severity(SUCCESS) < Severity(SKIPPED) < Severity(FAILURE) < Severity(ERROR)
    ensures forall a: Outcome, b: Outcome :: Severity(a) == Severity(b) ==> a == b
  {
  }
}
