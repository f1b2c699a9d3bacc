/** Result trees: every item of a job gets a branch holding its latest result, and the branches of its
    children under `nested`, mirroring the item tree. */
module ResultHelpers {
  import opened Values

  const TypeErrorNoProperty := Error("TypeError: Cannot read properties of undefined")
  const TypeErrorNotAList := Error("TypeError: item.items.map is not a function")

  /** `_.subject.$id` as a property key; reading through a missing subject throws. */
  predicate HasSubject(r: Value)
  {
    !IsNullish(Field(r, "subject"))
  }

  function SubjectKey(r: Value): string
  {
    ToText(Field(Field(r, "subject"), "$id"))
  }

  /** The map `mapBy` fills, defined on the prefix processed so far: each result is written under its
      key in list order, so the last result with a key is the one kept. The first result without a
      subject throws. */
  function ById(results: seq<Value>): (r: Try<map<string, Value>>)
    ensures r.Ok? <==> forall j | 0 <= j < |results| :: HasSubject(results[j])
    ensures r.Threw? ==> r.error == TypeErrorNoProperty
    decreases |results|
  {
    if |results| == 0 then Ok(map[])
    else
      var n := |results| - 1;
      var prev := ById(results[..n]);
      assert forall j | 0 <= j < n :: results[..n][j] == results[j];
      if prev.Threw? then prev
      else if !HasSubject(results[n]) then Threw(TypeErrorNoProperty)
      else Ok(prev.value[SubjectKey(results[n]) := results[n]])
  }

  /** `mapBy(results, _ => _.subject.$id)` */
  method MapBy(results: seq<Value>) returns (r: Try<map<string, Value>>)
    ensures r == ById(results)
  {
    var m: map<string, Value> := map[];
    for i := 0 to |results|
      invariant ById(results[..i]) == Ok(m)
    {
      assert results[..i + 1][..i] == results[..i];
      if !HasSubject(results[i]) {
        return Threw(TypeErrorNoProperty);
      }
      m := m[SubjectKey(results[i]) := results[i]];
    }
    assert results[..|results|] == results;
    return Ok(m);
  }

  /** `resultsById[item.$id]`, `undefined` when the item has no result. */
  function Lookup(byId: map<string, Value>, item: Value): Value
  {
    var k := ToText(Field(item, "$id"));
    if k in byId then byId[k] else Undefined
  }

  /** `{ ...lookupResult(item), ...(item.items ? { nested: item.items.map(resultBranch) } : {}) }` */
  function Branch(byId: map<string, Value>, item: Value): (r: Try<Value>)
    ensures r.Ok? ==> r.value.Obj?
    ensures r.Ok? ==> !IsNullish(item)
    ensures r.Ok? && !Truthy(Field(item, "items")) ==>
              r.value.props == Assign([], SpreadProps(Lookup(byId, item)))
    ensures r.Ok? && Truthy(Field(item, "items")) ==>
              Field(item, "items").Arr? &&
              exists nested :: r.value.props == Put(Assign([], SpreadProps(Lookup(byId, item))), "nested", Arr(nested))
    decreases Size(item), 1
  {
    if IsNullish(item) then Threw(TypeErrorNoProperty)
    else
      var own := Assign([], SpreadProps(Lookup(byId, item)));
      var children := Field(item, "items");
      if !Truthy(children) then Ok(Obj(own))
      else if !children.Arr? then Threw(TypeErrorNotAList)
      else
        FieldSmaller(item, "items");
        var nested := Branches(byId, children.elems);
        if nested.Threw? then Threw(nested.error)
        else Ok(Obj(Put(own, "nested", Arr(nested.value))))
  }

  /** `items.map(resultBranch)`: one branch per item, in order; the first throw propagates. */
  function Branches(byId: map<string, Value>, items: seq<Value>): (r: Try<seq<Value>>)
    ensures r.Ok? ==> |r.value| == |items|
    decreases SizeAll(items), 0
  {
    if |items| == 0 then Ok([])
    else
      SizeElem(items, 0);
      var first := Branch(byId, items[0]);
      var rest := Branches(byId, items[1..]);
      assert forall i | 1 <= i < |items| :: items[i] == items[1..][i - 1];
      if first.Threw? then Threw(first.error)
      else if rest.Threw? then Threw(rest.error)
      else Ok([first.value] + rest.value)
  }

  /** `resultTrees(items, results)` */
  function ResultTrees(items: seq<Value>, results: seq<Value>): (r: Try<seq<Value>>)
    ensures r.Ok? ==> |r.value| == |items|
    ensures r.Ok? ==> ById(results).Ok?
  {
    var byId := ById(results);
    if byId.Threw? then Threw(byId.error) else Branches(byId.value, items)
  }

  /** The map has a key exactly when some result is filed under it. */
  lemma {:induction false} ByIdKeys(results: seq<Value>, k: string)
    requires ById(results).Ok?
    ensures k in ById(results).value <==> exists j | 0 <= j < |results| :: SubjectKey(results[j]) == k
  {
    if |results| > 0 {
      var n := |results| - 1;
      var prefix := results[..n];
      ByIdKeys(prefix, k);
      assert ById(results).value == ById(prefix).value[SubjectKey(results[n]) := results[n]];
      if k in ById(prefix).value {
        var j :| 0 <= j < n && SubjectKey(prefix[j]) == k;
        assert results[j] == prefix[j];
      }
      if exists j | 0 <= j < |results| :: SubjectKey(results[j]) == k {
        var j :| 0 <= j < |results| && SubjectKey(results[j]) == k;
        if j < n { assert results[j] == prefix[j]; }
      }
    }
  }

  /** Under every key the map keeps the LAST result filed under it. */
  lemma {:induction false} ByIdLastWins(results: seq<Value>, k: string)
    requires ById(results).Ok? && k in ById(results).value
    ensures exists j | 0 <= j < |results| ::
              SubjectKey(results[j]) == k && ById(results).value[k] == results[j] &&
              forall l | j < l < |results| :: SubjectKey(results[l]) != k
  {
    var n := |results| - 1;
    var prefix := results[..n];
    var m := ById(prefix).value;
    assert ById(results).value == m[SubjectKey(results[n]) := results[n]];
    if SubjectKey(results[n]) != k {
      ByIdLastWins(prefix, k);
      var j :| 0 <= j < n && SubjectKey(prefix[j]) == k && m[k] == prefix[j] &&
               forall l | j < l < n :: SubjectKey(prefix[l]) != k;
      assert results[j] == prefix[j];
      forall l | j < l < |results| ensures SubjectKey(results[l]) != k {
        if l < n { assert results[l] == prefix[l]; }
      }
    }
  }

  /** `items.map(resultBranch)` succeeds when every branch does, with one branch per item in order. */
  lemma {:induction false} BranchesAt(byId: map<string, Value>, items: seq<Value>)
    ensures Branches(byId, items).Ok? <==> forall i | 0 <= i < |items| :: Branch(byId, items[i]).Ok?
    ensures Branches(byId, items).Ok? ==>
              forall i | 0 <= i < |items| :: Branches(byId, items).value[i] == Branch(byId, items[i]).value
  {
    if |items| > 0 {
      BranchesAt(byId, items[1..]);
      assert forall i | 1 <= i < |items| :: items[i] == items[1..][i - 1];
    }
  }

  /** One tree per item, in the item order, each built from the latest results. */
  lemma TreesPerItem(items: seq<Value>, results: seq<Value>)
    requires ResultTrees(items, results).Ok?
    ensures forall i | 0 <= i < |items| :: Branch(ById(results).value, items[i]).Ok? &&
              ResultTrees(items, results).value[i] == Branch(ById(results).value, items[i]).value
  {
    BranchesAt(ById(results).value, items);
  }

  /** A branch has `nested` exactly when its item has children, as long as results themselves carry
      no `nested` key. */
  lemma {:induction false} NestedIffItems(byId: map<string, Value>, item: Value)
    requires Branch(byId, item).Ok?
    requires !Has(SpreadProps(Lookup(byId, item)), "nested")
    ensures Has(Branch(byId, item).value.props, "nested") <==> Truthy(Field(item, "items"))
    ensures Truthy(Field(item, "items")) ==>
              Get(Branch(byId, item).value.props, "nested") == Arr(Branches(byId, Field(item, "items").elems).value)
  {
    var own := Assign([], SpreadProps(Lookup(byId, item)));
    AssignGet([], SpreadProps(Lookup(byId, item)), "nested");
    assert !Has(own, "nested");
    if Truthy(Field(item, "items")) {
      PutGet(own, "nested", Arr(Branches(byId, Field(item, "items").elems).value), "nested");
    }
  }

  /** An item without a result yields a branch that holds only `nested`, or nothing at all. */
  lemma NoResultOnlyNested(byId: map<string, Value>, item: Value)
    requires Branch(byId, item).Ok?
    requires ToText(Field(item, "$id")) !in byId
    ensures |Branch(byId, item).value.props| <= 1
    ensures forall i | 0 <= i < |Branch(byId, item).value.props| :: Branch(byId, item).value.props[i].key == "nested"
  {
  }

  /** The branch of an item with a result holds every field of the latest result with its key. */
  lemma {:induction false} BranchCarriesLatest(results: seq<Value>, item: Value, k: string)
    requires ById(results).Ok? && Branch(ById(results).value, item).Ok?
    requires ToText(Field(item, "$id")) in ById(results).value
    requires k != "nested"
    ensures exists j | 0 <= j < |results| ::
              SubjectKey(results[j]) == ToText(Field(item, "$id")) &&
              (forall l | j < l < |results| :: SubjectKey(results[l]) != ToText(Field(item, "$id"))) &&
              Get(Branch(ById(results).value, item).value.props, k) == LastGet(SpreadProps(results[j]), k)
  {
    var m := ById(results).value;
    var id := ToText(Field(item, "$id"));
    ByIdLastWins(results, id);
    var j :| 0 <= j < |results| && SubjectKey(results[j]) == id && m[id] == results[j] &&
             forall l | j < l < |results| :: SubjectKey(results[l]) != id;
    var own := Assign([], SpreadProps(results[j]));
    AssignGet([], SpreadProps(results[j]), k);
    if Truthy(Field(item, "items")) {
      PutGet(own, "nested", Arr(Branches(m, Field(item, "items").elems).value), k);
    }
  }
}
