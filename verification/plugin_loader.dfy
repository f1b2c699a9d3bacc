/** The plugin registry: built-in plugins found as `.js`/`.json` files of the plugin directory,
    then user plugins, each later registration of a name replacing the earlier one; and `select`,
    which finds the plugin for an item's `type`. */
module PluginLoader {
  import opened Strings
  import opened Values
  import ItemHelpers

  /** The hooks of a plugin module; an absent hook takes the caller's default. Every hook is a
      function of its arguments; a `Threw` result is a rejected promise. */
  datatype Hooks = Hooks(
    preProps: Option<Value -> Value>,
    pre: Option<(Value, Value) -> Try<Value>>,
    runProps: Option<Value -> Value>,
    run: Option<Value -> Try<Value>>,
    skip: Option<Value -> Try<Value>>)

  /** The built-in `suite` and `assign` plugins are modelled in full (`BuiltinSuite`, `BuiltinAssign`); every other plugin by its
      hooks. */
  datatype Plugin = BuiltinSuite | BuiltinAssign | Custom(hooks: Hooks)

  /** An entry of the plugin directory listing: the file name, whether it is a regular file, and
      the module it loads. */
  datatype DirEntry = DirEntry(name: string, isFile: bool, plugin: Plugin)

  predicate EndsWith(s: string, suffix: string)
  {
    |suffix| <= |s| && s[|s| - |suffix|..] == suffix
  }

  /** The name test `/[.](js|json)$/`. */
  predicate HasPluginSuffix(name: string)
  {
    EndsWith(name, ".js") || EndsWith(name, ".json")
  }

  /** `name.replace(/[.](js|json)$/, '')`. */
  function StripSuffix(name: string): (r: string)
    ensures EndsWith(name, ".js") ==> r + ".js" == name
    ensures EndsWith(name, ".json") ==> r + ".json" == name
    ensures !HasPluginSuffix(name) ==> r == name
  {
    if EndsWith(name, ".js") then
      assert name[|name| - 1] == ".js"[2];
      name[..|name| - 3]
    else if EndsWith(name, ".json") then name[..|name| - 5]
    else name
  }

  /** The built-in plugin modules: plugin files in listing order, named without their suffix. */
  function FsPlugins(listing: seq<DirEntry>): (r: seq<(string, Plugin)>)
    ensures |r| <= |listing|
  {
    if |listing| == 0 then []
    else
      var e := listing[0];
      if HasPluginSuffix(e.name) && e.isFile then [(StripSuffix(e.name), e.plugin)] + FsPlugins(listing[1..])
      else FsPlugins(listing[1..])
  }

  /** `entries.reduce(zip, {})`: each entry in turn sets its name. */
  function Registry(entries: seq<(string, Plugin)>): map<string, Plugin>
  {
    if |entries| == 0 then map[]
    else Registry(entries[..|entries| - 1])[entries[|entries| - 1].0 := entries[|entries| - 1].1]
  }

  /** The registry of a plugin loader: built-in plugins first, then user plugins. */
  function LoaderRegistry(listing: seq<DirEntry>, userPlugins: seq<(string, Plugin)>): map<string, Plugin>
  {
    Registry(FsPlugins(listing) + userPlugins)
  }

  /** Entry `i` is the last entry named `name`. */
  predicate LastNamed(entries: seq<(string, Plugin)>, name: string, i: int)
  {
    0 <= i < |entries| && entries[i].0 == name && forall j | i < j < |entries| :: entries[j].0 != name
  }

  /** A name is registered iff some entry has it. */
  lemma {:induction false} RegistryHas(entries: seq<(string, Plugin)>, name: string)
    ensures name in Registry(entries) <==> exists i | 0 <= i < |entries| :: entries[i].0 == name
  {
    if |entries| > 0 {
      var init := entries[..|entries| - 1];
      RegistryHas(init, name);
      if exists i | 0 <= i < |entries| :: entries[i].0 == name {
        var i :| 0 <= i < |entries| && entries[i].0 == name;
        if i < |init| {
          assert init[i].0 == name;
        }
      }
      if exists i | 0 <= i < |init| :: init[i].0 == name {
        var i :| 0 <= i < |init| && init[i].0 == name;
        assert entries[i].0 == name;
      }
    }
  }

  /** A registered name holds the module of the LAST entry with that name. */
  lemma {:induction false} RegistryLast(entries: seq<(string, Plugin)>, name: string)
    requires name in Registry(entries)
    ensures exists i :: LastNamed(entries, name, i) && Registry(entries)[name] == entries[i].1
  {
    var init := entries[..|entries| - 1];
    var last := entries[|entries| - 1];
    assert Registry(entries) == Registry(init)[last.0 := last.1];
    if last.0 == name {
      assert LastNamed(entries, name, |entries| - 1);
    } else {
      RegistryLast(init, name);
      var i :| LastNamed(init, name, i) && Registry(init)[name] == init[i].1;
      assert LastNamed(entries, name, i);
    }
  }

  /** A user plugin replaces a built-in plugin of the same name. */
  lemma UserPluginWins(listing: seq<DirEntry>, userPlugins: seq<(string, Plugin)>, i: nat)
    requires i < |userPlugins|
    requires forall j | i < j < |userPlugins| :: userPlugins[j].0 != userPlugins[i].0
    ensures userPlugins[i].0 in LoaderRegistry(listing, userPlugins)
    ensures LoaderRegistry(listing, userPlugins)[userPlugins[i].0] == userPlugins[i].1
  {
    var all := FsPlugins(listing) + userPlugins;
    var k := |FsPlugins(listing)| + i;
    assert all[k] == userPlugins[i];
    RegistryHas(all, userPlugins[i].0);
    RegistryLast(all, userPlugins[i].0);
    var m :| LastNamed(all, userPlugins[i].0, m) && Registry(all)[userPlugins[i].0] == all[m].1;
    assert m == k;
  }

  /** `select(context, item)`: the plugin registered under `item.type`, or the item error for a
      missing item, a missing type or an unknown type, checked in that order. */
  function Select(registry: map<string, Plugin>, context: Value, item: Value): (r: Try<Plugin>)
    ensures r.Ok? <==> Truthy(item) && Truthy(Field(item, "type")) && ToText(Field(item, "type")) in registry
    ensures r.Ok? ==> r.value == registry[ToText(Field(item, "type"))]
    ensures !Truthy(item) ==> r == Raise(ItemHelpers.ItemError("no item!", context, item))
    ensures Truthy(item) && !Truthy(Field(item, "type")) ==>
      r == Raise(ItemHelpers.ItemError("item needs \"type\"", context, item))
  {
    if !Truthy(item) then Raise(ItemHelpers.ItemError("no item!", context, item))
    else if !Truthy(Field(item, "type")) then Raise(ItemHelpers.ItemError("item needs \"type\"", context, item))
    else
      var key := ToText(Field(item, "type"));
      if key !in registry then
        Raise(ItemHelpers.ItemError("unknown item type \"" + key + "\"", context, item))
      else Ok(registry[key])
  }

  /** `throw itemError(...)`: the built error, or the error building it raised. */
  function Raise<T>(built: Try<Value>): (r: Try<T>)
    ensures r.Threw?
  {
    match built
    case Ok(e) => Threw(e)
    case Threw(e) => Threw(e)
  }

  /** A missing item is reported by `itemError`'s own destructuring failure, not by its message. */
  lemma SelectMissingItem(registry: map<string, Plugin>, context: Value)
    requires !IsNullish(context)
    ensures Select(registry, context, Undefined) == Threw(ItemHelpers.DestructuringError)
  {
  }
}
