/** The job state hub: every job's items, meta record, progress map, results log and typed
    subscriber list, updated by notifications; and the store of all jobs with its concurrency gate
    and its listings by creation time. */
module State {
  import opened Strings
  import opened Values
  import opened Editions

  const CANCEL := "CANCEL"
  const RESULT := "RESULT"
  const PROGRESS := "PROGRESS"
  const META := "META"

  /** The notification types `notify` has a handler for; METRIC is not among them. */
  predicate Handled(kind: string)
  {
    kind == CANCEL || kind == META || kind == RESULT || kind == PROGRESS
  }

  /** A subscriber's callback: the store's own META listener, the listener `cancel` registers, or
      any other callback, told apart by name. Deliveries are recorded instead of calling them. */
  datatype Handler = StoreMeta | CancelWaiter | Listener(name: string)

  /** `{ f, kind, id }`, with the id's sequence number. */
  datatype Subscriber = Subscriber(seqNo: nat, kind: string, handler: Handler)

  /** One callback invocation made by `broadcast`. */
  datatype Delivery = Delivery(handler: Handler, payload: Value)

  /** The part of a job's data that notifications and subscriptions change. */
  datatype JobState = JobState(finished: Value, outcome: Value, progress: seq<Prop>, results: seq<Value>,
                               subscribers: seq<Subscriber>, subscriberCount: nat)

  /** `createJobData`: no outcome, not finished, nothing recorded, nobody subscribed. */
  const NewJobState := JobState(Null, Null, [], [], [], 0)

  /** Subscriber ids come from the job's own sequence, so they increase along the list. */
  predicate Ordered(subs: seq<Subscriber>, count: nat)
  {
    (forall i | 0 <= i < |subs| :: 1 <= subs[i].seqNo <= count) &&
    (forall i, j | 0 <= i < j < |subs| :: subs[i].seqNo < subs[j].seqNo)
  }

  // ---------------------------------------------------------------------------------------------
  // Subscriptions

  /** `subscribe(kind, f)`: the next id, appended at the end. */
  function SubscribeSpec(s: JobState, kind: string, handler: Handler): (r: (JobState, Subscriber))
    ensures r.1 == Subscriber(s.subscriberCount + 1, kind, handler)
    ensures r.0 == s.(subscribers := s.subscribers + [r.1], subscriberCount := s.subscriberCount + 1)
  {
    var sub := Subscriber(s.subscriberCount + 1, kind, handler);
    (s.(subscribers := s.subscribers + [sub], subscriberCount := s.subscriberCount + 1), sub)
  }

  /** A new subscription is the last one, carries a fresh id and keeps the list ordered. */
  lemma SubscribeFresh(s: JobState, kind: string, handler: Handler)
    requires Ordered(s.subscribers, s.subscriberCount)
    ensures var (t, sub) := SubscribeSpec(s, kind, handler);
      Ordered(t.subscribers, t.subscriberCount) && sub !in s.subscribers &&
      t.subscribers[|t.subscribers| - 1] == sub && t.subscribers[..|s.subscribers|] == s.subscribers
  {
  }

  /** `subscribers.indexOf(item)`: the first position, or -1. */
  function IndexOf(subs: seq<Subscriber>, sub: Subscriber): (i: int)
    ensures -1 <= i < |subs|
    ensures i >= 0 ==> subs[i] == sub && sub !in subs[..i]
    ensures i == -1 <==> sub !in subs
  {
    if |subs| == 0 then -1
    else if subs[0] == sub then 0
    else
      var j := IndexOf(subs[1..], sub);
      assert subs == [subs[0]] + subs[1..];
      if j == -1 then -1 else
        assert subs[..j + 1] == [subs[0]] + subs[1..][..j];
        j + 1
  }

  /** The unsubscribe function: `subscribers.splice(indexOf(item), 1)`. */
  function UnsubscribeSpec(s: JobState, sub: Subscriber): JobState
  {
    var i := IndexOf(s.subscribers, sub);
    if i >= 0 then s.(subscribers := s.subscribers[..i] + s.subscribers[i + 1..])
    else if |s.subscribers| > 0 then s.(subscribers := s.subscribers[..|s.subscribers| - 1])
    else s
  }

  /** Unsubscribing removes exactly its own entry, keeping the others in order; once it is gone,
      `indexOf` gives -1 and `splice(-1, 1)` removes the last subscriber instead. */
  lemma UnsubscribeOwn(s: JobState, sub: Subscriber)
    requires Ordered(s.subscribers, s.subscriberCount)
    ensures Ordered(UnsubscribeSpec(s, sub).subscribers, s.subscriberCount)
    ensures sub in s.subscribers ==> exists i | 0 <= i < |s.subscribers| ::
      s.subscribers[i] == sub && UnsubscribeSpec(s, sub).subscribers == s.subscribers[..i] + s.subscribers[i + 1..]
    ensures sub !in UnsubscribeSpec(s, sub).subscribers
    ensures sub !in s.subscribers && |s.subscribers| > 0 ==>
      UnsubscribeSpec(s, sub).subscribers == s.subscribers[..|s.subscribers| - 1]
    ensures UnsubscribeSpec(s, sub) == s.(subscribers := UnsubscribeSpec(s, sub).subscribers)
  {
    var subs := s.subscribers;
    var i := IndexOf(subs, sub);
    if i >= 0 {
      RemovedOrdered(subs, s.subscriberCount, i);
    } else if |subs| > 0 {
      DroppedOrdered(subs, s.subscriberCount, sub);
    }
  }

  /** Removing position i keeps the list ordered, and the removed subscriber, having a unique id, is
      no longer in it. */
  lemma RemovedOrdered(subs: seq<Subscriber>, count: nat, i: nat)
    requires Ordered(subs, count) && i < |subs|
    ensures Ordered(subs[..i] + subs[i + 1..], count) && subs[i] !in subs[..i] + subs[i + 1..]
  {
    var rest := subs[..i] + subs[i + 1..];
    forall a, b | 0 <= a < b < |rest| ensures rest[a].seqNo < rest[b].seqNo {
      var a' := if a < i then a else a + 1;
      var b' := if b < i then b else b + 1;
      assert rest[a] == subs[a'] && rest[b] == subs[b'];
    }
    forall a | 0 <= a < |rest| ensures 1 <= rest[a].seqNo <= count {
      assert rest[a] == subs[if a < i then a else a + 1];
    }
    forall a | 0 <= a < |rest| ensures rest[a] != subs[i] {
      if a < i {
        assert rest[a] == subs[..i][a];
      } else {
        assert rest[a] == subs[a + 1] && subs[i].seqNo < subs[a + 1].seqNo;
      }
    }
  }

  /** Dropping the last subscriber keeps the list ordered and removes nothing that was absent. */
  lemma DroppedOrdered(subs: seq<Subscriber>, count: nat, sub: Subscriber)
    requires Ordered(subs, count) && |subs| > 0 && sub !in subs
    ensures Ordered(subs[..|subs| - 1], count) && sub !in subs[..|subs| - 1]
  {
    assert forall x | x in subs[..|subs| - 1] :: x in subs;
  }

  // ---------------------------------------------------------------------------------------------
  // Broadcast

  /** The subscribers of one kind, in subscription order. */
  function OfType(subs: seq<Subscriber>, kind: string): (r: seq<Subscriber>)
    ensures forall x :: x in r <==> x in subs && x.kind == kind
  {
    if |subs| == 0 then []
    else (if subs[0].kind == kind then [subs[0]] else []) + OfType(subs[1..], kind)
  }

  /** `broadcast(kind, payload)`: every subscriber of the kind gets the payload, in order. */
  function Broadcast(subs: seq<Subscriber>, kind: string, payload: Value): (ds: seq<Delivery>)
    ensures |ds| == |OfType(subs, kind)|
    ensures forall i | 0 <= i < |ds| :: ds[i] == Delivery(OfType(subs, kind)[i].handler, payload)
  {
    var targets := OfType(subs, kind);
    seq(|targets|, i requires 0 <= i < |targets| => Delivery(targets[i].handler, payload))
  }

  /** Filtering keeps the subscription order: broadcasting to a list split in two is broadcasting
      to the first part, then to the second. */
  lemma {:induction false} OfTypeAppend(a: seq<Subscriber>, b: seq<Subscriber>, kind: string)
    ensures OfType(a + b, kind) == OfType(a, kind) + OfType(b, kind)
    decreases |a|
  {
    if |a| == 0 {
      assert a + b == b;
    } else {
      assert (a + b)[1..] == a[1..] + b;
      OfTypeAppend(a[1..], b, kind);
    }
  }

  lemma BroadcastOne(sub: Subscriber, kind: string, payload: Value)
    ensures Broadcast([sub], kind, payload) == if sub.kind == kind then [Delivery(sub.handler, payload)] else []
  {
    assert [sub][1..] == [];
    assert OfType([], kind) == [];
    assert OfType([sub], kind) == (if sub.kind == kind then [sub] else []) + OfType([], kind);
    var targets := OfType([sub], kind);
    assert targets == if sub.kind == kind then [sub] else [];
  }

  lemma BroadcastAppend(a: seq<Subscriber>, b: seq<Subscriber>, kind: string, payload: Value)
    ensures Broadcast(a + b, kind, payload) == Broadcast(a, kind, payload) + Broadcast(b, kind, payload)
  {
    OfTypeAppend(a, b, kind);
  }

  // ---------------------------------------------------------------------------------------------
  // Notifications

  /** The result of a `notify` that does not throw: the new job state and the deliveries made. */
  datatype Notified = Notified(state: JobState, deliveries: seq<Delivery>)

  /** Destructuring `null` or `undefined` in a handler; the exact message text is not modelled. */
  const PayloadError := Error("TypeError: Cannot destructure a nullish notification payload")

  /** The progress entry a PROGRESS notification starts from when its item has none. */
  function NewProgress(now: string): Value
  {
    Obj([Prop("started", Str(now)), Prop("progress", Num(0))])
  }

  /** `{ ...progress[$id], ...update }` */
  function Merged(entry: Value, update: Value): Value
  {
    Obj(Assign(Assign([], SpreadProps(entry)), SpreadProps(update)))
  }

  /** The key under which a PROGRESS notification's entry is stored: `String($id)`. */
  function ProgressKey(update: Value): string
  {
    ToText(Field(update, "$id"))
  }

  /** The handler for one notification kind, applied to the state: the new state and what is
      broadcast (`handlers[kind](payload) || payload`). `resultKey` names the progress entry a
      RESULT removes. */
  function Handle(s: JobState, kind: string, payload: Value, now: string, resultKey: Value -> string)
    : (JobState, Value)
  {
    if kind == META then
      (s.(outcome := Field(payload, "outcome"), finished := Field(payload, "finished")), payload)
    else if kind == RESULT then
      (s.(progress := Delete(s.progress, resultKey(payload)), results := s.results + [payload]), payload)
    else if kind == PROGRESS then
      var k := ProgressKey(payload);
      var started := if Has(s.progress, k) then s.progress else Put(s.progress, k, NewProgress(now));
      var entry := Merged(Get(started, k), payload);
      (s.(progress := Put(started, k, entry)), entry)
    else (s, payload)
  }

  /** `notify(kind, payload)`: nothing once the job is finished or for a kind without handler;
      otherwise the handler, the broadcast, and clearing the subscribers when the job is finished. */
  function NotifyWith(s: JobState, kind: string, payload: Value, now: string, resultKey: Value -> string)
    : Try<Notified>
  {
    if Truthy(s.finished) || !Handled(kind) then Ok(Notified(s, []))
    else if kind != CANCEL && IsNullish(payload) then Threw(PayloadError)
    else
      var (t, out) := Handle(s, kind, payload, now, resultKey);
      var ds := Broadcast(t.subscribers, kind, out);
      Ok(Notified(if Truthy(t.finished) then t.(subscribers := []) else t, ds))
  }

  /** The progress key `handleResult` deletes as written: the result's own `$id`. */
  function ResultKeyAsWritten(result: Value): string
  {
    ToText(Field(result, "$id"))
  }

  /** The key of the item a result is about: the `$id` of its subject, where runner results carry
      it, else its own `$id`. */
  function ResultKey(result: Value): string
  {
    var subject := Field(result, "subject");
    ToText(if HasField(subject, "$id") then Field(subject, "$id") else Field(result, "$id"))
  }

  /** The progress key a RESULT removes in each edition. */
  function KeyOf(edition: Edition): Value -> string
  {
    match edition
    case AsWritten => ResultKeyAsWritten
    case Corrected => ResultKey
  }

  /** `notify(kind, payload)` in an edition. It throws only for a nullish payload of a handled kind
      other than CANCEL on an unfinished job; otherwise it never adds a subscriber, and the results
      log only grows, by one result at most. */
  function NotifySpec(edition: Edition, s: JobState, kind: string, payload: Value, now: string): (r: Try<Notified>)
    ensures r.Threw? <==> !Truthy(s.finished) && Handled(kind) && kind != CANCEL && IsNullish(payload)
    ensures r.Ok? ==> r.value.state.subscriberCount == s.subscriberCount && r.value.state.subscribers <= s.subscribers
    ensures r.Ok? ==> s.results <= r.value.state.results && |r.value.state.results| <= |s.results| + 1
  {
    NotifyWith(s, kind, payload, now, KeyOf(edition))
  }

  /** A finished job ignores every notification. */
  lemma NotifyFinished(edition: Edition, s: JobState, kind: string, payload: Value, now: string)
    requires Truthy(s.finished)
    ensures NotifySpec(edition, s, kind, payload, now) == Ok(Notified(s, []))
  {
  }

  /** A kind without handler, METRIC among them, changes nothing and reaches nobody. */
  lemma NotifyUnhandled(edition: Edition, s: JobState, kind: string, payload: Value, now: string)
    requires !Handled(kind)
    ensures NotifySpec(edition, s, kind, payload, now) == Ok(Notified(s, []))
    ensures !Handled("METRIC")
  {
  }

  /** CANCEL changes no state; it only reaches the CANCEL subscribers. */
  lemma NotifyCancel(edition: Edition, s: JobState, payload: Value, now: string)
    requires !Truthy(s.finished)
    ensures NotifySpec(edition, s, CANCEL, payload, now) == Ok(Notified(s, Broadcast(s.subscribers, CANCEL, payload)))
  {
  }

  /** META records outcome and finished time and reaches the META subscribers; a truthy finished
      time then clears all subscribers and makes every later notification a no-op. */
  lemma NotifyMeta(edition: Edition, s: JobState, payload: Value, now: string, later: string, laterPayload: Value)
    requires !Truthy(s.finished) && !IsNullish(payload)
    ensures var n := NotifySpec(edition, s, META, payload, now);
      n.Ok? &&
      n.value.state.outcome == Field(payload, "outcome") &&
      n.value.state.finished == Field(payload, "finished") &&
      n.value.state.progress == s.progress && n.value.state.results == s.results &&
      n.value.deliveries == Broadcast(s.subscribers, META, payload) &&
      n.value.state.subscribers == (if Truthy(Field(payload, "finished")) then [] else s.subscribers)
    ensures Truthy(Field(payload, "finished")) ==>
      var t := NotifySpec(edition, s, META, payload, now).value.state;
      NotifySpec(edition, t, later, laterPayload, now) == Ok(Notified(t, []))
  {
  }

  /** RESULT appends the result to the log, removes the progress entry under the edition's key
      and leaves every other entry as it was. */
  lemma NotifyResult(edition: Edition, s: JobState, result: Value, now: string)
    requires !Truthy(s.finished) && !IsNullish(result)
    ensures var n := NotifySpec(edition, s, RESULT, result, now);
      n.Ok? &&
      n.value.state.results == s.results + [result] &&
      !Has(n.value.state.progress, KeyOf(edition)(result)) &&
      (forall k | k != KeyOf(edition)(result) ::
        Has(n.value.state.progress, k) == Has(s.progress, k) && Get(n.value.state.progress, k) == Get(s.progress, k)) &&
      n.value.deliveries == Broadcast(s.subscribers, RESULT, result)
  {
  }

  /** PROGRESS stores `{ ...previous, ...update }` under the item's key, starting from
      `{ started: now, progress: 0 }` the first time; the merged entry is what subscribers get. */
  lemma NotifyProgress(edition: Edition, s: JobState, update: Value, now: string, k: string)
    requires !Truthy(s.finished) && !IsNullish(update) && UniqueKeys(SpreadProps(update))
    requires UniqueKeys(SpreadProps(Get(s.progress, ProgressKey(update))))
    ensures var n := NotifySpec(edition, s, PROGRESS, update, now);
      var previous := if Has(s.progress, ProgressKey(update)) then Get(s.progress, ProgressKey(update))
                      else NewProgress(now);
      n.Ok? &&
      Get(n.value.state.progress, ProgressKey(update)) == Merged(previous, update) &&
      n.value.deliveries == Broadcast(s.subscribers, PROGRESS, Merged(previous, update)) &&
      n.value.state.results == s.results && n.value.state.subscribers == s.subscribers &&
      Get(Merged(previous, update).props, k) ==
        (if Has(SpreadProps(update), k) then Get(SpreadProps(update), k) else Get(SpreadProps(previous), k))
  {
    var key := ProgressKey(update);
    var started := if Has(s.progress, key) then s.progress else Put(s.progress, key, NewProgress(now));
    PutGet(s.progress, key, NewProgress(now), key);
    PutGet(started, key, Merged(Get(started, key), update), key);
    var previous := Get(started, key);
    AssignLookup(Assign([], SpreadProps(previous)), SpreadProps(update), k);
    AssignGet([], SpreadProps(previous), k);
    if Has(SpreadProps(previous), k) && !Has(SpreadProps(update), k) {
      if Has(s.progress, key) {
        LastGetUnique(SpreadProps(previous), k);
      } else {
        GetPair(SpreadProps(previous), k);
        LastGetPair(SpreadProps(previous), k);
      }
    } else if !Has(SpreadProps(previous), k) {
      GetHas(SpreadProps(previous), k);
    }
  }

  /** The last value of a key in a two-property literal with distinct keys is its only value. */
  lemma LastGetPair(ps: seq<Prop>, k: string)
    requires |ps| == 2 && ps[0].key != ps[1].key
    ensures LastGet(ps, k) == Get(ps, k)
  {
    LastGetUnique(ps, k);
  }

  /** In the corrected edition a runner result, which carries its item's `$id` inside `subject`,
      removes that item's progress entry. */
  lemma ResultClearsSubject(s: JobState, result: Value, now: string)
    requires !Truthy(s.finished) && !IsNullish(result) && HasField(Field(result, "subject"), "$id")
    ensures var n := NotifySpec(Corrected, s, RESULT, result, now);
      n.Ok? && n.value.state.results == s.results + [result] &&
      !Has(n.value.state.progress, ToText(Field(Field(result, "subject"), "$id")))
  {
    NotifyResult(Corrected, s, result, now);
  }

  /** `handleResult` as written deletes `progress[result.$id]`, but a runner result carries the
      item's `$id` only inside `subject`: the item's progress entry survives its result. */
  lemma ProgressSurvivesResult(now: string)
    ensures var s := JobState(Null, Null, [Prop("5", NewProgress(now))], [], [], 0);
      var result := Obj([Prop("outcome", Str("SUCCESS")), Prop("subject", Obj([Prop("$id", Num(5))]))]);
      Has(NotifySpec(AsWritten, s, RESULT, result, now).value.state.progress, "5") &&
      !Has(NotifySpec(Corrected, s, RESULT, result, now).value.state.progress, "5")
  {
    var s := JobState(Null, Null, [Prop("5", NewProgress(now))], [], [], 0);
    var result := Obj([Prop("outcome", Str("SUCCESS")), Prop("subject", Obj([Prop("$id", Num(5))]))]);
    var subject := Obj([Prop("$id", Num(5))]);
    assert Field(result, "subject") == subject;
    assert subject.props[0].key == "$id" && HasField(subject, "$id") && Field(subject, "$id") == Num(5);
    assert ToText(Num(5)) == "5";
    assert ResultKeyAsWritten(result) == "undefined";
    assert ResultKey(result) == "5";
    assert NotifySpec(AsWritten, s, RESULT, result, now).value.state.progress == Delete(s.progress, "undefined");
    assert Has(s.progress, "5");
  }

  /** `cancel()`: a META listener that resolves the returned promise once the job finishes, then
      CANCEL. On a job that is already finished the listener is added but never called. */
  function CancelSpec(edition: Edition, s: JobState, now: string): (r: Try<Notified>)
    ensures r.Ok? && r.value.state == SubscribeSpec(s, META, CancelWaiter).0
  {
    var (t, _) := SubscribeSpec(s, META, CancelWaiter);
    NotifySpec(edition, t, CANCEL, Undefined, now)
  }

  lemma CancelWaits(edition: Edition, s: JobState, now: string, finish: Value)
    requires !Truthy(s.finished) && Truthy(finish)
    ensures var c := CancelSpec(edition, s, now);
      c.Ok? && c.value.state.subscribers == s.subscribers + [Subscriber(s.subscriberCount + 1, META, CancelWaiter)] &&
      c.value.deliveries == Broadcast(s.subscribers, CANCEL, Undefined)
    ensures var t := CancelSpec(edition, s, now).value.state;
      var payload := Obj([Prop("outcome", Str("SUCCESS")), Prop("finished", finish)]);
      Delivery(CancelWaiter, payload) in NotifySpec(edition, t, META, payload, now).value.deliveries
  {
    var waiter := Subscriber(s.subscriberCount + 1, META, CancelWaiter);
    var subs := s.subscribers + [waiter];
    var t0 := SubscribeSpec(s, META, CancelWaiter).0;
    assert t0.subscribers == subs;
    OfTypeAppend(s.subscribers, [waiter], CANCEL);
    assert OfType([waiter], CANCEL) == [];
    assert NotifySpec(edition, t0, CANCEL, Undefined, now) == Ok(Notified(t0, Broadcast(subs, CANCEL, Undefined)));
    var t := CancelSpec(edition, s, now).value.state;
    assert t == t0;
    var payload := Obj([Prop("outcome", Str("SUCCESS")), Prop("finished", finish)]);
    OfTypeAppend(s.subscribers, [waiter], META);
    assert OfType([waiter], META) == [waiter];
    var targets := OfType(subs, META);
    assert targets[|targets| - 1] == waiter;
    var ds := Broadcast(subs, META, payload);
    assert ds[|targets| - 1] == Delivery(CancelWaiter, payload);
    GetPair(payload.props, "finished");
    GetPair(payload.props, "outcome");
    var t1 := t.(outcome := Str("SUCCESS"), finished := finish);
    assert Handle(t, META, payload, now, KeyOf(edition)) == (t1, payload);
    assert NotifySpec(edition, t, META, payload, now) == Ok(Notified(t1.(subscribers := []), ds));
  }

  // ---------------------------------------------------------------------------------------------
  // One job's data

  class JobData {
    /** Which `handleResult` the job runs. */
    const edition: Edition
    const items: Value
    const id: string
    const created: string
    var finished: Value
    var outcome: Value
    var progress: seq<Prop>
    var results: seq<Value>
    var subscribers: seq<Subscriber>
    var subscriberCount: nat

    function State(): JobState
      reads this
    {
      JobState(finished, outcome, progress, results, subscribers, subscriberCount)
    }

    ghost predicate Valid()
      reads this
    {
      Ordered(subscribers, subscriberCount)
    }

    /** `createJobData(items, id, created)` */
    constructor (edition: Edition, items: Value, id: string, created: string)
      ensures Valid() && State() == NewJobState
      ensures this.edition == edition && this.items == items && this.id == id && this.created == created
    {
      this.edition := edition;
      this.items := items;
      this.id := id;
      this.created := created;
      finished := Null;
      outcome := Null;
      progress := [];
      results := [];
      subscribers := [];
      subscriberCount := 0;
    }

    /** `meta()`: a fresh copy of the meta record; `started` is the creation time. */
    function Meta(): (m: Value)
      reads this
      ensures m.Obj? && UniqueKeys(m.props)
      ensures Get(m.props, "id") == Str(id) && Get(m.props, "started") == Get(m.props, "created")
      ensures Get(m.props, "finished") == finished && Get(m.props, "outcome") == outcome
    {
      var ps := [Prop("id", Str(id)), Prop("created", Str(created)), Prop("started", Str(created)),
                 Prop("finished", finished), Prop("outcome", outcome)];
      GetAt(ps, 0); GetAt(ps, 1); GetAt(ps, 2); GetAt(ps, 3); GetAt(ps, 4);
      Obj(ps)
    }

    method Subscribe(kind: string, handler: Handler) returns (sub: Subscriber)
      requires Valid()
      modifies this
      ensures Valid()
      ensures State() == SubscribeSpec(old(State()), kind, handler).0
      ensures sub == SubscribeSpec(old(State()), kind, handler).1
    {
      subscriberCount := subscriberCount + 1;
      sub := Subscriber(subscriberCount, kind, handler);
      subscribers := subscribers + [sub];
    }

    /** The function `subscribe` returns. */
    method Unsubscribe(sub: Subscriber)
      requires Valid()
      modifies this
      ensures Valid()
      ensures State() == UnsubscribeSpec(old(State()), sub)
    {
      UnsubscribeOwn(State(), sub);
      var index := IndexOf(subscribers, sub);
      if index >= 0 {
        subscribers := subscribers[..index] + subscribers[index + 1..];
      } else if |subscribers| > 0 {
        subscribers := subscribers[..|subscribers| - 1];
      }
    }

    /** `notify(kind, payload)`, with the time a first PROGRESS entry starts at. */
    method Notify(kind: string, payload: Value, now: string) returns (r: Try<seq<Delivery>>)
      requires Valid()
      modifies this
      ensures Valid()
      ensures NotifySpec(edition, old(State()), kind, payload, now).Threw? ==>
        r == Threw(NotifySpec(edition, old(State()), kind, payload, now).error) && State() == old(State())
      ensures NotifySpec(edition, old(State()), kind, payload, now).Ok? ==>
        r == Ok(NotifySpec(edition, old(State()), kind, payload, now).value.deliveries) &&
        State() == NotifySpec(edition, old(State()), kind, payload, now).value.state
    {
      if Truthy(finished) || !Handled(kind) {
        return Ok([]);
      }
      if kind != CANCEL && IsNullish(payload) {
        return Threw(PayloadError);
      }
      var out := RunHandler(kind, payload, now);
      var ds := Send(kind, out);
      if Truthy(finished) {
        subscribers := [];
      }
      r := Ok(ds);
    }

    /** `handlers[kind](payload) || payload`: the handler's change and what is broadcast. */
    method RunHandler(kind: string, payload: Value, now: string) returns (out: Value)
      requires Valid()
      modifies this
      ensures Valid()
      ensures State() == Handle(old(State()), kind, payload, now, KeyOf(edition)).0
      ensures out == Handle(old(State()), kind, payload, now, KeyOf(edition)).1
    {
      out := payload;
      if kind == META {
        outcome := Field(payload, "outcome");
        finished := Field(payload, "finished");
      } else if kind == RESULT {
        progress := Delete(progress, KeyOf(edition)(payload));
        results := results + [payload];
      } else if kind == PROGRESS {
        var k := ProgressKey(payload);
        if !Has(progress, k) {
          progress := Put(progress, k, NewProgress(now));
        }
        out := Merged(Get(progress, k), payload);
        progress := Put(progress, k, out);
      }
    }

    /** `broadcast(kind, payload)` */
    method Send(kind: string, payload: Value) returns (ds: seq<Delivery>)
      ensures ds == Broadcast(subscribers, kind, payload)
    {
      var subs := subscribers;
      ds := [];
      for i := 0 to |subs|
        invariant ds == Broadcast(subs[..i], kind, payload)
      {
        BroadcastAppend(subs[..i], [subs[i]], kind, payload);
        BroadcastOne(subs[i], kind, payload);
        assert subs[..i + 1] == subs[..i] + [subs[i]];
        if subs[i].kind == kind {
          ds := ds + [Delivery(subs[i].handler, payload)];
        }
      }
      assert subs[..|subs|] == subs;
    }

    /** `cancel()` */
    method Cancel(now: string) returns (r: Try<seq<Delivery>>)
      requires Valid()
      modifies this
      ensures Valid()
      ensures r == Ok(CancelSpec(edition, old(State()), now).value.deliveries)
      ensures State() == CancelSpec(edition, old(State()), now).value.state
    {
      var _ := Subscribe(META, CancelWaiter);
      r := Notify(CANCEL, Undefined, now);
    }
  }

  // ---------------------------------------------------------------------------------------------
  // The store of jobs

  /** `array` without the entries equal to `x`. */
  function Without(xs: seq<string>, x: string): (r: seq<string>)
    ensures forall y :: y in r <==> y in xs && y != x
  {
    if |xs| == 0 then [] else (if xs[0] == x then [] else [xs[0]]) + Without(xs[1..], x)
  }

  lemma {:induction false} WithoutTwice(xs: seq<string>, x: string)
    ensures Without(Without(xs, x), x) == Without(xs, x)
  {
    if |xs| > 0 {
      WithoutTwice(xs[1..], x);
      if xs[0] == x {
        assert Without(xs, x) == Without(xs[1..], x);
      } else {
        assert ([xs[0]] + Without(xs[1..], x))[1..] == Without(xs[1..], x);
      }
    }
  }

  /** The store's own META listener fired with a truthy `finished`. */
  predicate FinishSeen(ds: seq<Delivery>)
  {
    exists d | d in ds :: d.handler == StoreMeta && Truthy(Field(d.payload, "finished"))
  }

  function ConcurrencyMessage(id: string, started: string): string
  {
    "Concurrency off: cannot start job until job " + id + " (started " + started + ") is done"
  }

  /** Jobs in descending order of creation time. */
  predicate NewestFirst(jobs: seq<JobData>)
  {
    forall i, j | 0 <= i < j < |jobs| :: !Less(jobs[i].created, jobs[j].created)
  }

  /** Inserting a job before the first older one. */
  function Insert(sorted: seq<JobData>, job: JobData): (r: seq<JobData>)
    ensures multiset(r) == multiset(sorted) + multiset{job}
    ensures forall i | 0 <= i < |r| :: r[i] == job || r[i] in sorted
  {
    if |sorted| == 0 then [job]
    else if Less(sorted[0].created, job.created) then [job] + sorted
    else
      assert sorted == [sorted[0]] + sorted[1..];
      [sorted[0]] + Insert(sorted[1..], job)
  }

  /** A job no older than any of a sorted list may go in front of it. */
  lemma ConsNewestFirst(first: JobData, rest: seq<JobData>)
    requires NewestFirst(rest)
    requires forall i | 0 <= i < |rest| :: !Less(first.created, rest[i].created)
    ensures NewestFirst([first] + rest)
  {
    var r := [first] + rest;
    forall i, j | 0 <= i < j < |r| ensures !Less(r[i].created, r[j].created) {
      assert r[j] == rest[j - 1];
      if i > 0 {
        assert r[i] == rest[i - 1];
      }
    }
  }

  lemma {:induction false} InsertNewestFirst(sorted: seq<JobData>, job: JobData)
    requires NewestFirst(sorted)
    ensures NewestFirst(Insert(sorted, job))
    decreases |sorted|
  {
    if |sorted| > 0 {
      var first := sorted[0];
      if Less(first.created, job.created) {
        forall j | 0 <= j < |sorted| ensures !Less(job.created, sorted[j].created) {
          if Less(job.created, sorted[j].created) {
            LessTransitive(first.created, job.created, sorted[j].created);
            if j == 0 {
              LessIrreflexive(first.created);
            }
          }
        }
        ConsNewestFirst(job, sorted);
      } else {
        var tail := sorted[1..];
        assert NewestFirst(tail) by {
          forall i, j | 0 <= i < j < |tail| ensures !Less(tail[i].created, tail[j].created) {
            assert tail[i] == sorted[i + 1] && tail[j] == sorted[j + 1];
          }
        }
        InsertNewestFirst(tail, job);
        var rest := Insert(tail, job);
        forall i | 0 <= i < |rest| ensures !Less(first.created, rest[i].created) {
          if rest[i] != job {
            var j :| 0 <= j < |tail| && tail[j] == rest[i];
            assert sorted[j + 1] == rest[i];
          }
        }
        ConsNewestFirst(first, rest);
      }
    }
  }

  /** `jobs.slice(0, limit)`: how many jobs it keeps (a missing limit keeps all). */
  function SliceEnd(n: nat, limit: Option<int>): (e: nat)
    ensures e <= n
  {
    if limit.None? then n
    else if limit.value < 0 then (if n + limit.value < 0 then 0 else n + limit.value)
    else if limit.value > n then n
    else limit.value
  }

  class Store {
    const concurrent: bool
    /** The edition every job of the store runs. */
    const edition: Edition
    var counter: nat
    /** `Object.keys(byId)`: job ids in creation order. */
    var ids: seq<string>
    var byId: map<string, JobData>
    /** `Object.keys(currentSet)`: the unfinished jobs in creation order. */
    var currentSet: seq<string>

    ghost predicate Valid()
      reads this
    {
      |ids| == counter &&
      (forall i | 0 <= i < |ids| :: ids[i] == NatToString(i + 1)) &&
      (forall k :: k in byId <==> k in ids) &&
      (forall k | k in byId :: byId[k].id == k) &&
      (forall k | k in currentSet :: k in byId)
    }

    /** `createState({ concurrent })` */
    constructor (concurrent: bool, edition: Edition)
      ensures Valid() && this.concurrent == concurrent && this.edition == edition
      ensures counter == 0 && byId == map[] && currentSet == []
    {
      this.concurrent := concurrent;
      this.edition := edition;
      counter := 0;
      ids := [];
      byId := map[];
      currentSet := [];
    }

    /** The next id from the job sequence is new. */
    lemma FreshId()
      requires Valid()
      ensures NatToString(counter + 1) !in byId
    {
      if NatToString(counter + 1) in ids {
        var i :| 0 <= i < |ids| && ids[i] == NatToString(counter + 1);
        ParseNatToString(i + 1);
        ParseNatToString(counter + 1);
      }
    }

    /** `createJob(items)` at time `now`. */
    method CreateJob(items: Value, now: string) returns (r: Try<JobData>)
      requires Valid()
      modifies this
      ensures Valid()
      ensures !concurrent && |old(currentSet)| > 0 ==>
        var ongoing := old(byId)[old(currentSet)[|old(currentSet)| - 1]];
        r == Threw(Error(ConcurrencyMessage(ongoing.id, ongoing.created))) &&
        counter == old(counter) && ids == old(ids) && byId == old(byId) && currentSet == old(currentSet)
      ensures concurrent || |old(currentSet)| == 0 ==>
        var id := NatToString(old(counter) + 1);
        r.Ok? && fresh(r.value) && r.value.Valid() &&
        r.value.edition == edition && r.value.id == id && r.value.created == now && r.value.items == items &&
        r.value.State() == NewJobState.(subscribers := [Subscriber(1, META, StoreMeta)], subscriberCount := 1) &&
        id !in old(byId) && byId == old(byId)[id := r.value] && ids == old(ids) + [id] &&
        counter == old(counter) + 1 && currentSet == old(currentSet) + [id]
    {
      if !concurrent && |currentSet| > 0 {
        var ongoing := byId[currentSet[|currentSet| - 1]];
        return Threw(Error(ConcurrencyMessage(ongoing.id, ongoing.created)));
      }
      FreshId();
      counter := counter + 1;
      var id := NatToString(counter);
      var job := new JobData(edition, items, id, now);
      ids := ids + [id];
      byId := byId[id := job];
      currentSet := currentSet + [id];
      var _ := job.Subscribe(META, StoreMeta);
      r := Ok(job);
    }

    /** A job's `notify`, with the store's META listener taking the job out of the current set
        when it reports a finish. */
    method Notify(job: JobData, kind: string, payload: Value, now: string) returns (r: Try<seq<Delivery>>)
      requires Valid() && job.Valid()
      modifies this, job
      ensures Valid() && job.Valid()
      ensures counter == old(counter) && ids == old(ids) && byId == old(byId)
      ensures NotifySpec(job.edition, old(job.State()), kind, payload, now).Threw? ==>
        r == Threw(NotifySpec(job.edition, old(job.State()), kind, payload, now).error) &&
        job.State() == old(job.State()) && currentSet == old(currentSet)
      ensures NotifySpec(job.edition, old(job.State()), kind, payload, now).Ok? ==>
        var n := NotifySpec(job.edition, old(job.State()), kind, payload, now).value;
        r == Ok(n.deliveries) && job.State() == n.state &&
        currentSet == if FinishSeen(n.deliveries) then Without(old(currentSet), job.id) else old(currentSet)
    {
      r := job.Notify(kind, payload, now);
      if r.Ok? {
        Deliver(r.value, job.id);
      }
    }

    /** The store's META listener, called for each delivery made to it: a truthy `finished`
        takes the job out of the current set. */
    method Deliver(ds: seq<Delivery>, id: string)
      requires Valid()
      modifies this
      ensures Valid()
      ensures counter == old(counter) && ids == old(ids) && byId == old(byId)
      ensures currentSet == if FinishSeen(ds) then Without(old(currentSet), id) else old(currentSet)
    {
      for i := 0 to |ds|
        invariant Valid() && counter == old(counter) && ids == old(ids) && byId == old(byId)
        invariant currentSet == if FinishSeen(ds[..i]) then Without(old(currentSet), id) else old(currentSet)
      {
        assert ds[..i + 1] == ds[..i] + [ds[i]];
        if ds[i].handler == StoreMeta && Truthy(Field(ds[i].payload, "finished")) {
          WithoutTwice(old(currentSet), id);
          currentSet := Without(currentSet, id);
          assert ds[i] in ds[..i + 1];
        } else {
          assert FinishSeen(ds[..i + 1]) == FinishSeen(ds[..i]) by {
            if FinishSeen(ds[..i + 1]) {
              var d :| d in ds[..i + 1] && d.handler == StoreMeta && Truthy(Field(d.payload, "finished"));
              assert d in ds[..i];
            }
          }
        }
      }
      assert ds[..|ds|] == ds;
    }

    /** `currentJobs()` */
    function CurrentJobs(): (jobs: seq<JobData>)
      requires Valid()
      reads this
      ensures |jobs| == |currentSet|
      ensures forall i | 0 <= i < |jobs| :: jobs[i].id == currentSet[i]
    {
      seq(|currentSet|, i requires 0 <= i < |currentSet| reads this requires Valid() => byId[currentSet[i]])
    }

    /** `jobById(id)` */
    function JobById(id: string): (job: Option<JobData>)
      requires Valid()
      reads this
      ensures job.Some? <==> id in ids
      ensures job.Some? ==> job.value.id == id
    {
      if id in byId then Some(byId[id]) else None
    }

    /** Sorting by `byCreatedDesc`. */
    method SortNewestFirst(jobs: seq<JobData>) returns (sorted: seq<JobData>)
      ensures NewestFirst(sorted) && multiset(sorted) == multiset(jobs)
    {
      sorted := [];
      for i := 0 to |jobs|
        invariant NewestFirst(sorted) && multiset(sorted) == multiset(jobs[..i])
      {
        InsertNewestFirst(sorted, jobs[i]);
        sorted := Insert(sorted, jobs[i]);
        assert jobs[..i + 1] == jobs[..i] + [jobs[i]];
      }
      assert jobs[..|jobs|] == jobs;
    }

    /** Job ids come from one sequence, so no two are equal. */
    lemma IdsDistinct()
      requires Valid()
      ensures forall a, b | 0 <= a < b < |ids| :: ids[a] != ids[b]
    {
      forall a, b | 0 <= a < b < |ids| ensures ids[a] != ids[b] {
        ParseNatToString(a + 1);
        ParseNatToString(b + 1);
      }
    }

    /** `keys.filter(created ? …).map(_ => byId[_])` */
    function Filtered(keys: seq<string>, created: string): (jobs: seq<JobData>)
      requires Valid() && forall k | k in keys :: k in byId
      reads this
      ensures forall j | j in jobs :: j.id in keys && byId[j.id] == j && (|created| == 0 || j.created == created)
      ensures forall k | k in keys && (|created| == 0 || byId[k].created == created) :: byId[k] in jobs
      ensures (forall a, b | 0 <= a < b < |keys| :: keys[a] != keys[b]) ==>
        forall a, b | 0 <= a < b < |jobs| :: jobs[a] != jobs[b]
    {
      if |keys| == 0 then []
      else
        var rest := Filtered(keys[1..], created);
        var job := byId[keys[0]];
        assert forall k | k in keys :: k == keys[0] || k in keys[1..];
        assert (forall a, b | 0 <= a < b < |keys| :: keys[a] != keys[b]) ==> job !in rest by {
          if forall a, b | 0 <= a < b < |keys| :: keys[a] != keys[b] {
            forall m | 0 <= m < |keys| - 1 ensures keys[1..][m] != keys[0] {
              assert keys[1..][m] == keys[m + 1];
            }
            assert keys[0] !in keys[1..];
            forall x | x in rest ensures x != job {
              assert x.id in keys[1..];
            }
          }
        }
        if |created| == 0 || job.created == created then [job] + rest else rest
    }

    /** `matchingJobs({ created, id })`, an empty string standing for an absent filter: the jobs
        with that id and creation time, newest first. */
    method MatchingJobs(created: string, id: string) returns (jobs: seq<JobData>)
      requires Valid()
      ensures NewestFirst(jobs)
      ensures forall j :: j in jobs <==> (exists k | k in byId :: (byId[k] == j &&
        (|id| == 0 || k == id) && (|created| == 0 || j.created == created)))
      ensures forall a, b | 0 <= a < b < |jobs| :: jobs[a] != jobs[b]
    {
      if |id| > 0 && id !in byId {
        return [];
      }
      var keys := if |id| > 0 then [id] else ids;
      IdsDistinct();
      var picked := Filtered(keys, created);
      jobs := SortNewestFirst(picked);
      forall j ensures j in jobs <==> j in picked {
        assert j in jobs <==> j in multiset(jobs);
      }
      forall a, b | 0 <= a < b < |jobs| ensures jobs[a] != jobs[b] {
        DistinctCount(picked, jobs, a, b);
      }
    }

    /** `mostRecentJobs(limit)`: the jobs newest first, cut to the limit. Every job left out is no
        newer than any job returned. */
    method MostRecentJobs(limit: Option<int>) returns (jobs: seq<JobData>)
      requires Valid()
      ensures |jobs| == SliceEnd(|ids|, limit)
      ensures NewestFirst(jobs)
      ensures forall j | j in jobs :: j.id in byId && byId[j.id] == j
      ensures forall k | k in byId && byId[k] !in jobs ::
        forall i | 0 <= i < |jobs| :: !Less(jobs[i].created, byId[k].created)
      ensures forall a, b | 0 <= a < b < |jobs| :: jobs[a] != jobs[b]
    {
      var all: seq<JobData> := [];
      for i := 0 to |ids|
        invariant |all| == i && forall a | 0 <= a < i :: all[a] == byId[ids[a]]
      {
        all := all + [byId[ids[i]]];
      }
      var sorted := SortNewestFirst(all);
      assert |sorted| == |all| by {
        assert |multiset(sorted)| == |multiset(all)|;
      }
      jobs := sorted[..SliceEnd(|ids|, limit)];
      forall j | j in jobs ensures j.id in byId && byId[j.id] == j {
        assert j in multiset(all);
      }
      forall k | k in byId && byId[k] !in jobs
        ensures forall i | 0 <= i < |jobs| :: !Less(jobs[i].created, byId[k].created)
      {
        var a :| 0 <= a < |ids| && ids[a] == k;
        assert all[a] == byId[k];
        assert byId[k] in multiset(sorted);
        var b :| 0 <= b < |sorted| && sorted[b] == byId[k];
        assert b >= |jobs|;
      }
      assert forall a, b | 0 <= a < b < |all| :: all[a] != all[b] by {
        IdsDistinct();
        forall a, b | 0 <= a < b < |all| ensures all[a] != all[b] {
          assert all[a].id == ids[a] && all[b].id == ids[b];
        }
      }
      PrefixDistinct(all, sorted, |jobs|);
    }
  }

  /** A prefix of a permutation of a list without repetitions has none either. */
  lemma PrefixDistinct(xs: seq<JobData>, ys: seq<JobData>, n: nat)
    requires forall i, j | 0 <= i < j < |xs| :: xs[i] != xs[j]
    requires multiset(xs) == multiset(ys) && n <= |ys|
    ensures forall a, b | 0 <= a < b < |ys[..n]| :: ys[..n][a] != ys[..n][b]
  {
    forall a, b | 0 <= a < b < n ensures ys[a] != ys[b] {
      DistinctCount(xs, ys, a, b);
    }
  }

  /** A permutation of a list without repetitions has none either. */
  lemma DistinctCount(xs: seq<JobData>, ys: seq<JobData>, a: nat, b: nat)
    requires forall i, j | 0 <= i < j < |xs| :: xs[i] != xs[j]
    requires multiset(xs) == multiset(ys) && a < b < |ys|
    ensures ys[a] != ys[b]
  {
    if ys[a] == ys[b] {
      var x := ys[a];
      assert multiset(ys)[x] >= 2 by {
        assert ys == ys[..a] + [x] + ys[a + 1..b] + [x] + ys[b + 1..];
      }
      DistinctOnce(xs, x);
    }
  }

  lemma {:induction false} DistinctOnce(xs: seq<JobData>, x: JobData)
    requires forall i, j | 0 <= i < j < |xs| :: xs[i] != xs[j]
    ensures multiset(xs)[x] <= 1
  {
    if |xs| > 0 {
      assert xs == [xs[0]] + xs[1..];
      DistinctOnce(xs[1..], x);
      if xs[0] == x {
        assert x !in xs[1..];
      }
    }
  }
}
