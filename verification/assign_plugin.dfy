/** The `assign` plugin: it puts a value, or a set of properties, on its own result. */
module AssignPlugin {
  import opened Values
  import ItemHelpers

  /** The description `pre` gives an item: the value's text when it is truthy, else the text of
      the properties (`{}` by default). */
  function Description(item: Value): (d: string)
    ensures Truthy(ItemHelpers.PropText(item, "value", Null)) ==>
      d == "assign " + ToText(ItemHelpers.PropText(item, "value", Null)) + " to $result.value"
    ensures !Truthy(ItemHelpers.PropText(item, "value", Null)) ==>
      d == "copy " + ToText(ItemHelpers.PropText(item, "properties", Str("{}"))) + " to $result"
  {
    var valueText := ItemHelpers.PropText(item, "value", Null);
    if Truthy(valueText) then "assign " + ToText(valueText) + " to $result.value"
    else "copy " + ToText(ItemHelpers.PropText(item, "properties", Str("{}"))) + " to $result"
  }

  /** `pre(context, item)`: `{ description, context, ...item }`. */
  function Pre(context: Value, item: Value): (r: Value)
    ensures r.Obj?
  {
    Obj(Assign([Prop("description", Str(Description(item))), Prop("context", context)], SpreadProps(item)))
  }

  /** An item's own description and context win over the generated ones. */
  lemma PreLookup(context: Value, item: Value, k: string)
    requires UniqueKeys(SpreadProps(item))
    ensures Get(Pre(context, item).props, k) ==
      if Has(SpreadProps(item), k) then Get(SpreadProps(item), k)
      else if k == "description" then Str(Description(item))
      else if k == "context" then context
      else Undefined
  {
    var base := [Prop("description", Str(Description(item))), Prop("context", context)];
    GetPair(base, k);
    AssignLookup(base, SpreadProps(item), k);
  }

  /** `runProps`: the defaults `value: ''` and `properties: {}`. */
  const RunProps := [Prop("value", Str("")), Prop("properties", Obj([]))]

  /** `run({ value, properties })`: `{ outcome: 'SUCCESS', value, ...properties }`. */
  function Run(item: Value): (r: Try<Value>)
    ensures r.Ok? && r.value.Obj?
  {
    Ok(Obj(Assign([Prop("outcome", Str("SUCCESS")), Prop("value", Field(item, "value"))],
                  SpreadProps(Field(item, "properties")))))
  }

  /** The result has outcome SUCCESS and the item's value unless a property of the same name
      replaces them; every property is copied. */
  lemma RunLookup(item: Value, k: string)
    requires UniqueKeys(SpreadProps(Field(item, "properties")))
    ensures var ps := SpreadProps(Field(item, "properties"));
      Get(Run(item).value.props, k) ==
        if Has(ps, k) then Get(ps, k)
        else if k == "outcome" then Str("SUCCESS")
        else if k == "value" then Field(item, "value")
        else Undefined
  {
    var base := [Prop("outcome", Str("SUCCESS")), Prop("value", Field(item, "value"))];
    GetPair(base, k);
    AssignLookup(base, SpreadProps(Field(item, "properties")), k);
  }

  /** A property named `OUTCOME` lands on the result next to the real outcome. */
  lemma RunCopiesProperties()
    ensures var r := Run(Obj([Prop("value", Str("")), Prop("properties", Obj([Prop("OUTCOME", Str("WEIRD"))]))]));
      Get(r.value.props, "OUTCOME") == Str("WEIRD") && Get(r.value.props, "outcome") == Str("SUCCESS")
  {
    RunLookup(Obj([Prop("value", Str("")), Prop("properties", Obj([Prop("OUTCOME", Str("WEIRD"))]))]), "OUTCOME");
    RunLookup(Obj([Prop("value", Str("")), Prop("properties", Obj([Prop("OUTCOME", Str("WEIRD"))]))]), "outcome");
  }
}
