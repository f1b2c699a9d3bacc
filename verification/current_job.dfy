/** The current-job activity's `ifModified` wrapper: a publisher is called only when the JSON
    encoding of the value differs from the last one it was called with. `JSON.stringify` of
    `undefined` is `undefined`, written `None` here. */
module CurrentJob {
  import opened Values

  /** The encoding the wrapper compares against after the given calls: `'null'` at first, then
      the encoding of the latest value. */
  function Previous(calls: seq<Value>): Option<string>
  {
    if |calls| == 0 then Some("null") else Json(calls[|calls| - 1])
  }

  /** The values that reach the publisher for the given sequence of calls. */
  function Forwarded(calls: seq<Value>): (published: seq<Value>)
    ensures |published| <= |calls|
    ensures forall i | 0 <= i < |published| :: published[i] in calls
  {
    if |calls| == 0 then []
    else
      var n := |calls| - 1;
      Forwarded(calls[..n]) + (if Json(calls[n]) == Previous(calls[..n]) then [] else [calls[n]])
  }

  class ModifiedFilter {
    /** `jsonPrevious`. */
    var previous: Option<string>
    /** The values the wrapped publisher has been called with. */
    var published: seq<Value>
    ghost var calls: seq<Value>

    ghost predicate Valid()
      reads this
    {
      previous == Previous(calls) && published == Forwarded(calls)
    }

    constructor()
      ensures Valid() && calls == [] && previous == Some("null") && published == []
    {
      previous := Some("null");
      published := [];
      calls := [];
    }

    /** The wrapped publisher: `forwarded` says whether the publisher was called; a suppressed call
        changes nothing. */
    method Publish(value: Value) returns (forwarded: bool)
      requires Valid()
      modifies this
      ensures Valid() && calls == old(calls) + [value]
      ensures forwarded <==> Json(value) != old(previous)
      ensures !forwarded ==> previous == old(previous) && published == old(published)
      ensures forwarded ==> previous == Json(value) && published == old(published) + [value]
    {
      calls := calls + [value];
      assert calls[..|calls| - 1] == old(calls);
      var encoded := Json(value);
      if previous == encoded {
        return false;
      }
      previous := encoded;
      published := published + [value];
      forwarded := true;
    }
  }

  /** The publisher never sees two consecutive values with the same encoding, never sees a first
      value encoded as `null`, and the latest value it saw has the encoding the wrapper remembers. */
  lemma {:induction false} ForwardedChanges(calls: seq<Value>)
    ensures var f := Forwarded(calls);
            (forall i | 0 <= i < |f| - 1 :: Json(f[i]) != Json(f[i + 1])) &&
            (|f| > 0 ==> Json(f[0]) != Some("null") && Json(f[|f| - 1]) == Previous(calls)) &&
            (|f| == 0 ==> Previous(calls) == Some("null"))
  {
    if |calls| > 0 {
      var n := |calls| - 1;
      ForwardedChanges(calls[..n]);
    }
  }

  /** Calling twice in a row with the same value publishes it at most once. */
  lemma RepeatSuppressed(calls: seq<Value>, v: Value)
    ensures Forwarded(calls + [v, v]) == Forwarded(calls + [v])
  {
    assert (calls + [v, v])[..|calls| + 1] == calls + [v];
  }

  /** The wrapper starts from `'null'`, so a leading `null` is never published. */
  lemma {:induction false} LeadingNullSuppressed(calls: seq<Value>)
    ensures Forwarded([Null] + calls) == Forwarded(calls)
    ensures Previous([Null] + calls) == Previous(calls)
  {
    if |calls| > 0 {
      var n := |calls| - 1;
      LeadingNullSuppressed(calls[..n]);
      assert ([Null] + calls)[..n + 1] == [Null] + calls[..n];
    } else {
      assert Json(Null) == Some("null");
      assert ([Null] + calls)[..0] == [];
    }
  }
}
