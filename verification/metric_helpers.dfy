/** Publishing one metric of an item: the metric goes into the group of its category, which is then
    sent as a single `METRIC` notification. The job's metric groups are an explicit list here. */
module MetricHelpers {
  import opened Values

  const METRIC := "METRIC"

  /** `list[i].hasOwnProperty(attr) && list[i][attr] === value` */
  predicate MatchesAt(v: Value, attr: string, value: Value)
  {
    HasField(v, attr) && StrictEquals(Field(v, attr), value)
  }

  /** The index `metricsIndex` finds, defined without a loop: the first matching position, or -1. */
  function FirstMatch(list: seq<Value>, attr: string, value: Value): (r: int)
    ensures -1 <= r < |list|
    ensures r == -1 <==> forall i | 0 <= i < |list| :: !MatchesAt(list[i], attr, value)
    ensures r >= 0 ==> MatchesAt(list[r], attr, value)
    ensures r >= 0 ==> forall i | 0 <= i < r :: !MatchesAt(list[i], attr, value)
  {
    if |list| == 0 then -1
    else if MatchesAt(list[0], attr, value) then 0
    else
      var rest := FirstMatch(list[1..], attr, value);
      assert forall i | 1 <= i < |list| :: list[i] == list[1..][i - 1];
      if rest == -1 then -1 else rest + 1
  }

  /** `metricsIndex(list, attr, value)`: scans from the front and stops at the first match. */
  method MetricsIndex(list: seq<Value>, attr: string, value: Value) returns (index: int)
    ensures index == FirstMatch(list, attr, value)
  {
    var i := 0;
    while i < |list|
      invariant 0 <= i <= |list|
      invariant forall j | 0 <= j < i :: !MatchesAt(list[j], attr, value)
    {
      if MatchesAt(list[i], attr, value) {
        return i;
      }
      i := i + 1;
    }
    return -1;
  }

  /** `{ name, color, id: item.$id, label, metricType, value: metricData[label] }` */
  function Entry(item: Value): (e: Value)
    ensures e.Obj? && UniqueKeys(e.props)
    ensures Keys(e.props) == ["name", "color", "id", "label", "metricType", "value"]
    ensures Field(e, "id") == Field(item, "$id")
    ensures Field(e, "value") == Field(Field(item, "metricData"), ToText(Field(item, "label")))
  {
    var e := Obj([Prop("name", Field(item, "name")), Prop("color", Field(item, "color")),
                  Prop("id", Field(item, "$id")), Prop("label", Field(item, "label")),
                  Prop("metricType", Field(item, "metricType")),
                  Prop("value", Field(Field(item, "metricData"), ToText(Field(item, "label"))))]);
    GetAt(e.props, 2);
    GetAt(e.props, 5);
    e
  }

  /** Reading `metricData[label]` throws when the item has no metric data. */
  const NoMetricData := Error("TypeError: Cannot read properties of undefined")
  /** Pushing onto a group whose `metrics` is not an list throws. */
  const NotAList := Error("TypeError: categoryMetrics.metrics.push is not a function")

  /** A new group `{ category, metrics: [entry] }`. */
  function NewGroup(category: Value, entry: Value): (g: Value)
    ensures g.Obj? && UniqueKeys(g.props)
    ensures Field(g, "category") == category && Field(g, "metrics") == Arr([entry])
  {
    var ps := [Prop("category", category), Prop("metrics", Arr([entry]))];
    GetPair(ps, "category");
    GetPair(ps, "metrics");
    Obj(ps)
  }

  /** An existing group with the entry pushed onto its `metrics` list; every other key is kept. */
  function Pushed(group: Value, entry: Value): (g: Value)
    requires group.Obj? && Field(group, "metrics").Arr?
    ensures g.Obj? && Keys(g.props) == Keys(group.props)
    ensures Field(g, "metrics") == Arr(Field(group, "metrics").elems + [entry])
    ensures forall k | k != "metrics" :: Field(g, k) == Field(group, k)
    ensures forall k :: HasField(g, k) <==> HasField(group, k)
  {
    GetHas(group.props, "metrics");
    var ps := Put(group.props, "metrics", Arr(Field(group, "metrics").elems + [entry]));
    PutKeys(group.props, "metrics", Arr(Field(group, "metrics").elems + [entry]));
    forall k ensures (Has(ps, k) <==> Has(group.props, k)) && Get(ps, k) == if k == "metrics" then Arr(Field(group, "metrics").elems + [entry]) else Get(group.props, k) {
      PutGet(group.props, "metrics", Arr(Field(group, "metrics").elems + [entry]), k);
    }
    Obj(ps)
  }

  /** What one `metricsPublish` call does to the groups, and the group it notifies. */
  datatype Published = Published(groups: seq<Value>, notified: Value)

  function PublishSpec(groups: seq<Value>, item: Value): (r: Try<Published>)
    ensures r.Ok? ==> |r.value.groups| == |groups|
    ensures r.Ok? && FirstMatch(groups, "category", Field(item, "category")) == -1 ==>
              r.value.groups == groups && r.value.notified == NewGroup(Field(item, "category"), Entry(item))
    ensures r.Ok? && FirstMatch(groups, "category", Field(item, "category")) >= 0 ==>
              var i := FirstMatch(groups, "category", Field(item, "category"));
              r.value.notified == r.value.groups[i] &&
              Field(groups[i], "metrics").Arr? &&
              Field(r.value.notified, "metrics") == Arr(Field(groups[i], "metrics").elems + [Entry(item)]) &&
              forall j | 0 <= j < |groups| && j != i :: r.value.groups[j] == groups[j]
    ensures r.Threw? <==> (IsNullish(Field(item, "metricData")) ||
                           (FirstMatch(groups, "category", Field(item, "category")) >= 0 &&
                            !Field(groups[FirstMatch(groups, "category", Field(item, "category"))], "metrics").Arr?))
  {
    var i := FirstMatch(groups, "category", Field(item, "category"));
    if IsNullish(Field(item, "metricData")) then Threw(NoMetricData)
    else if i >= 0 then
      if !Field(groups[i], "metrics").Arr? then Threw(NotAList)
      else
        var g := Pushed(groups[i], Entry(item));
        Ok(Published(groups[i := g], g))
    else Ok(Published(groups, NewGroup(Field(item, "category"), Entry(item))))
  }

  /** The job's metric groups and the `METRIC` payloads sent so far. */
  class Publisher {
    var groups: seq<Value>
    var sent: seq<Value>

    constructor (groups: seq<Value>)
      ensures this.groups == groups && sent == []
    {
      this.groups := groups;
      sent := [];
    }

    /** `metricsPublish(jobState, item)`; a throw leaves everything as it was. */
    method Publish(item: Value) returns (r: Try<Value>)
      modifies this
      ensures PublishSpec(old(groups), item).Ok? ==>
                r == Ok(PublishSpec(old(groups), item).value.notified) &&
                groups == PublishSpec(old(groups), item).value.groups &&
                sent == old(sent) + [PublishSpec(old(groups), item).value.notified]
      ensures PublishSpec(old(groups), item).Threw? ==>
                r.Threw? && groups == old(groups) && sent == old(sent)
    {
      var category := Field(item, "category");
      var index := MetricsIndex(groups, "category", category);
      if IsNullish(Field(item, "metricData")) {
        return Threw(NoMetricData);
      }
      var entry := Entry(item);
      if index >= 0 {
        var group := groups[index];
        if !Field(group, "metrics").Arr? {
          return Threw(NotAList);
        }
        var updated := Pushed(group, entry);
        groups := groups[index := updated];
        sent := sent + [updated];
        return Ok(updated);
      } else {
        var created := NewGroup(category, entry);
        sent := sent + [created];
        return Ok(created);
      }
    }
  }

  /** Replacing the first match by another value that matches keeps the first match where it was. */
  lemma FirstMatchKept(list: seq<Value>, i: nat, g: Value, attr: string, value: Value)
    requires i < |list| && FirstMatch(list, attr, value) == i && MatchesAt(g, attr, value)
    ensures FirstMatch(list[i := g], attr, value) == i
  {
    var l := list[i := g];
    assert MatchesAt(l[i], attr, value);
    forall j | 0 <= j < i ensures !MatchesAt(l[j], attr, value) {
      assert l[j] == list[j];
    }
  }

  lemma PushedTwice(group: Value, a: Value, b: Value)
    requires group.Obj? && Field(group, "metrics").Arr?
    ensures Field(Pushed(Pushed(group, a), b), "metrics") == Arr(Field(group, "metrics").elems + [a, b])
  {
    var xs := Field(group, "metrics").elems;
    assert xs + [a] + [b] == xs + [a, b];
  }

  /** Publishing into a category that already has a group replaces that group by the pushed one. */
  lemma PublishExisting(groups: seq<Value>, item: Value)
    requires !IsNullish(Field(item, "metricData"))
    requires FirstMatch(groups, "category", Field(item, "category")) >= 0
    requires Field(groups[FirstMatch(groups, "category", Field(item, "category"))], "metrics").Arr?
    ensures var i := FirstMatch(groups, "category", Field(item, "category"));
            var g := Pushed(groups[i], Entry(item));
            PublishSpec(groups, item) == Ok(Published(groups[i := g], g)) &&
            FirstMatch(groups[i := g], "category", Field(item, "category")) == i
  {
    var c := Field(item, "category");
    var i := FirstMatch(groups, "category", c);
    var g := Pushed(groups[i], Entry(item));
    assert MatchesAt(g, "category", c) by {
      assert HasField(g, "category") && Field(g, "category") == Field(groups[i], "category");
    }
    FirstMatchKept(groups, i, g, "category", c);
  }

  /** Publishing the same category twice appends both entries to its group, in order. */
  lemma PublishTwice(groups: seq<Value>, a: Value, b: Value)
    requires Field(a, "category") == Field(b, "category")
    requires !IsNullish(Field(a, "metricData")) && !IsNullish(Field(b, "metricData"))
    requires FirstMatch(groups, "category", Field(a, "category")) >= 0
    requires Field(groups[FirstMatch(groups, "category", Field(a, "category"))], "metrics").Arr?
    ensures PublishSpec(groups, a).Ok? && PublishSpec(PublishSpec(groups, a).value.groups, b).Ok?
    ensures var i := FirstMatch(groups, "category", Field(a, "category"));
            Field(PublishSpec(PublishSpec(groups, a).value.groups, b).value.notified, "metrics") ==
              Arr(Field(groups[i], "metrics").elems + [Entry(a), Entry(b)])
  {
    var c := Field(a, "category");
    var i := FirstMatch(groups, "category", c);
    var g := Pushed(groups[i], Entry(a));
    var g1 := groups[i := g];
    PublishExisting(groups, a);
    assert FirstMatch(g1, "category", c) == i;
    assert g1[i] == g;
    assert Field(g, "metrics").Arr?;
    PublishExisting(g1, b);
    var g2 := Pushed(g, Entry(b));
    assert PublishSpec(g1, b) == Ok(Published(g1[i := g2], g2));
    PushedTwice(groups[i], Entry(a), Entry(b));
  }
}
