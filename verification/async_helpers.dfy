/** `sequence`, the asynchronous reduce over promise-returning actions, and `proxy`, a promise
    wrapper that can be settled from outside. A promise that an action returns is modelled by
    what it settles to: `Ok` for fulfilment, `Threw` for rejection. */
module AsyncHelpers {
  import opened Values

  /** `sequence(actions, acc, shouldCancel)`: while actions remain and `shouldCancel(acc)` is false,
      run the first action on `acc` and continue with its result. */
  function Sequence<T>(actions: seq<T -> Try<T>>, acc: T, shouldCancel: T -> bool): Try<T>
  {
    if |actions| > 0 && !shouldCancel(acc) then
      match actions[0](acc)
      case Threw(e) => Threw(e)
      case Ok(result) => Sequence(actions[1..], result, shouldCancel)
    else Ok(acc)
  }

  /** The arguments the actions are invoked with, in invocation order (its length is the number of
      actions that ran). */
  function Inputs<T>(actions: seq<T -> Try<T>>, acc: T, shouldCancel: T -> bool): (r: seq<T>)
    ensures |r| <= |actions|
  {
    if |actions| > 0 && !shouldCancel(acc) then
      match actions[0](acc)
      case Threw(_) => [acc]
      case Ok(result) => [acc] + Inputs(actions[1..], result, shouldCancel)
    else []
  }

  /** The default `shouldCancel`, `() => false`. */
  function Never<T>(x: T): bool { false }

  /** Actions run strictly in order: the first gets the initial accumulator, each later one the
      result of its predecessor, and `shouldCancel` was false on every accumulator an action got. */
  lemma {:induction false} SequenceOrder<T>(actions: seq<T -> Try<T>>, acc: T, shouldCancel: T -> bool)
    ensures var ins := Inputs(actions, acc, shouldCancel);
      (|ins| > 0 ==> ins[0] == acc) &&
      (forall i | 0 <= i < |ins| :: !shouldCancel(ins[i])) &&
      (forall i | 0 <= i < |ins| - 1 :: actions[i](ins[i]) == Ok(ins[i + 1]))
    decreases |actions|
  {
    if |actions| > 0 && !shouldCancel(acc) && actions[0](acc).Ok? {
      var rest := actions[0](acc).value;
      SequenceOrder(actions[1..], rest, shouldCancel);
      var ins := Inputs(actions, acc, shouldCancel);
      var tail := Inputs(actions[1..], rest, shouldCancel);
      assert ins == [acc] + tail;
      forall i | 0 <= i < |ins| - 1 ensures actions[i](ins[i]) == Ok(ins[i + 1]) {
        if i > 0 { assert actions[i] == actions[1..][i - 1]; }
      }
    }
  }

  /** The result: a rejection of the last action that ran, or the last accumulator, which is either
      the result of the last action or, when the sequence stopped early, one `shouldCancel`
      accepted. */
  lemma {:induction false} SequenceResult<T>(actions: seq<T -> Try<T>>, acc: T, shouldCancel: T -> bool)
    ensures var ins := Inputs(actions, acc, shouldCancel);
      var r := Sequence(actions, acc, shouldCancel);
      (|ins| == 0 ==> r == Ok(acc)) &&
      (r.Threw? ==> |ins| > 0 && actions[|ins| - 1](ins[|ins| - 1]) == r) &&
      (r.Ok? && |ins| < |actions| ==> shouldCancel(r.value)) &&
      (r.Ok? && |ins| > 0 && |ins| == |actions| ==> actions[|ins| - 1](ins[|ins| - 1]) == r)
    decreases |actions|
  {
    if |actions| > 0 && !shouldCancel(acc) && actions[0](acc).Ok? {
      var rest := actions[0](acc).value;
      SequenceResult(actions[1..], rest, shouldCancel);
      var ins := Inputs(actions, acc, shouldCancel);
      var tail := Inputs(actions[1..], rest, shouldCancel);
      assert ins == [acc] + tail;
      if |tail| > 0 {
        assert ins[|ins| - 1] == tail[|tail| - 1];
        assert actions[|ins| - 1] == actions[1..][|tail| - 1];
      }
    }
  }

  /** With the default `shouldCancel` and no rejection, every action runs exactly once. */
  lemma {:induction false} SequenceRunsAll<T>(actions: seq<T -> Try<T>>, acc: T)
    requires Sequence(actions, acc, Never).Ok?
    ensures |Inputs(actions, acc, Never)| == |actions|
    decreases |actions|
  {
    if |actions| > 0 {
      SequenceRunsAll(actions[1..], actions[0](acc).value);
    }
  }

  /** Running a concatenation is running the first part, then the second from its result. */
  lemma {:induction false} SequenceAppend<T>(a: seq<T -> Try<T>>, b: seq<T -> Try<T>>, acc: T,
                                             shouldCancel: T -> bool)
    ensures Sequence(a + b, acc, shouldCancel) ==
      match Sequence(a, acc, shouldCancel)
      case Threw(e) => Threw(e)
      case Ok(x) => Sequence(b, x, shouldCancel)
    decreases |a|
  {
    if |a| == 0 {
      assert a + b == b;
    } else if !shouldCancel(acc) {
      assert (a + b)[0] == a[0];
      assert (a + b)[1..] == a[1..] + b;
      if a[0](acc).Ok? {
        SequenceAppend(a[1..], b, a[0](acc).value, shouldCancel);
      }
    } else {
      if |b| > 0 { assert |a + b| > 0; }
    }
  }

  // ---------------------------------------------------------------------------------------------
  // proxy

  datatype Settlement = Fulfilled(value: Value) | Rejected(reason: Value)

  /** The object `proxy(promise)` returns, with the state its closures share: the `preempted` flag
      and the settlement of the outer promise (a promise settles at most once). */
  class Proxy {
    var preempted: bool
    var settled: Option<Settlement>

    predicate Valid()
      reads this
    {
      preempted ==> settled.Some?
    }

    constructor ()
      ensures Valid() && !preempted && settled == None
    {
      preempted := false;
      settled := None;
    }

    /** The outer promise's resolve or reject: only the first settlement takes effect. */
    method Settle(s: Settlement)
      modifies this
      ensures preempted == old(preempted)
      ensures settled == if old(settled).None? then Some(s) else old(settled)
    {
      if settled.None? {
        settled := Some(s);
      }
    }

    /** `proxy.resolve(v)` / `proxy.reject(e)`, called from outside. */
    method Preempt(s: Settlement)
      requires Valid()
      modifies this
      ensures Valid() && preempted
      ensures settled == if old(settled).None? then Some(s) else old(settled)
    {
      preempted := true;
      Settle(s);
    }

    /** The wrapped promise settles: `checked(resolve)` / `checked(reject)` forward it unless the
        proxy was preempted. */
    method Forward(s: Settlement)
      requires Valid()
      modifies this
      ensures Valid() && preempted == old(preempted)
      ensures old(preempted) ==> settled == old(settled)
      ensures !old(preempted) ==> settled == if old(settled).None? then Some(s) else old(settled)
    {
      if !preempted {
        Settle(s);
      }
    }
  }

  /** Without preemption, the proxy settles exactly as the wrapped promise does. */
  method ForwardUnpreempted(s: Settlement) returns (p: Proxy)
    ensures p.settled == Some(s) && !p.preempted
  {
    p := new Proxy();
    p.Forward(s);
  }

  /** After an outside settlement, the wrapped promise's later settlement is ignored. */
  method PreemptThenForward(outside: Settlement, wrapped: Settlement) returns (p: Proxy)
    ensures p.settled == Some(outside) && p.preempted
  {
    p := new Proxy();
    p.Preempt(outside);
    p.Forward(wrapped);
  }
}
