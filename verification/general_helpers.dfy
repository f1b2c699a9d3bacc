/** `zip`, `tabulate`, `isEmpty` and the line prefixing of `print`. `zip` and `tabulate` write
    into the object they are given, so that object is a `Table` whose property list the methods
    reassign. */
module GeneralHelpers {
  import opened Strings
  import opened Values

  /** A plain JavaScript object that is updated in place. */
  class Table {
    var props: seq<Prop>

    constructor (init: seq<Prop>)
      ensures props == init
    {
      props := init;
    }

    /** `zip(acc, [k, v])`: sets `acc[k] = v` and returns the same object. */
    method Zip(k: string, v: Value) returns (res: Table)
      modifies this
      ensures res == this
      ensures props == Put(old(props), k, v)
      ensures forall j :: Has(props, j) <==> j == k || Has(old(props), j)
      ensures forall j :: Get(props, j) == if j == k then v else Get(old(props), j)
    {
      props := Put(props, k, v);
      forall j ensures Has(props, j) <==> j == k || Has(old(props), j)
        ensures Get(props, j) == if j == k then v else Get(old(props), j)
      {
        PutGet(old(props), k, v, j);
      }
      res := this;
    }

    /** `collectIndex(acc, i)` of the frontend helpers: sets `acc[i] = true` and returns the same
        object. */
    method CollectIndex(i: string) returns (res: Table)
      modifies this
      ensures res == this
      ensures props == Put(old(props), i, Bool(true))
    {
      props := Put(props, i, Bool(true));
      res := this;
    }

    /** `tabulate(f, keys, table)`: `table[k] = f(k)` for every key, in order. */
    method Tabulate(f: string -> Value, keys: seq<string>) returns (res: Table)
      modifies this
      ensures res == this
      ensures forall j :: Has(props, j) <==> j in keys || Has(old(props), j)
      ensures forall j :: Get(props, j) == if j in keys then f(j) else Get(old(props), j)
      ensures UniqueKeys(old(props)) ==> UniqueKeys(props)
    {
      var i := 0;
      while i < |keys|
        invariant 0 <= i <= |keys|
        invariant forall j :: Has(props, j) <==> j in keys[..i] || Has(old(props), j)
        invariant forall j :: Get(props, j) == if j in keys[..i] then f(j) else Get(old(props), j)
        invariant UniqueKeys(old(props)) ==> UniqueKeys(props)
      {
        var before := props;
        var z := Zip(keys[i], f(keys[i]));
        if UniqueKeys(before) { PutUnique(before, keys[i], f(keys[i])); }
        assert keys[..i + 1] == keys[..i] + [keys[i]];
        i := i + 1;
      }
      assert keys[..i] == keys;
      res := this;
    }
  }

  /** The properties of `{}` after every key of the list is set to `true`, in order. */
  function Marked(keys: seq<string>): seq<Prop>
  {
    if |keys| == 0 then [] else Put(Marked(keys[..|keys| - 1]), keys[|keys| - 1], Bool(true))
  }

  /** The keys of a marked object are exactly the listed ones, each once, all `true`. */
  lemma {:induction false} MarkedKeys(keys: seq<string>, k: string)
    ensures Has(Marked(keys), k) <==> k in keys
    ensures k in keys ==> Get(Marked(keys), k) == Bool(true)
    ensures UniqueKeys(Marked(keys))
  {
    if |keys| > 0 {
      var init := keys[..|keys| - 1];
      MarkedKeys(init, k);
      PutGet(Marked(init), keys[|keys| - 1], Bool(true), k);
      PutUnique(Marked(init), keys[|keys| - 1], Bool(true));
      assert keys == init + [keys[|keys| - 1]];
    }
  }

  /** `list.reduce(collectIndex, {})` */
  method CollectAll(list: seq<string>) returns (acc: Table)
    ensures fresh(acc)
    ensures acc.props == Marked(list)
  {
    acc := new Table([]);
    for i := 0 to |list|
      invariant acc.props == Marked(list[..i])
    {
      assert list[..i + 1][..i] == list[..i];
      var same := acc.CollectIndex(list[i]);
    }
    assert list[..|list|] == list;
  }

  /** One step of a `for (const p in obj)` enumeration: the key, and whether it is an own property
      (`obj.hasOwnProperty(p)`) rather than an inherited enumerable one. */
  datatype Enumerated = Enumerated(key: string, own: bool)

  /** What `for ... in` visits for an object: its own keys, then inherited enumerable keys. */
  function ForIn(own: seq<Prop>, inherited: seq<string>): (r: seq<Enumerated>)
    ensures |r| == |own| + |inherited|
    ensures forall i | 0 <= i < |own| :: r[i] == Enumerated(own[i].key, true)
    ensures forall i | |own| <= i < |r| :: r[i] == Enumerated(inherited[i - |own|], false)
  {
    if |own| > 0 then [Enumerated(own[0].key, true)] + ForIn(own[1..], inherited)
    else if |inherited| > 0 then [Enumerated(inherited[0], false)] + ForIn([], inherited[1..])
    else []
  }

  /** `isEmpty(obj)`: stops at the first own property of the enumeration. */
  method IsEmpty(visit: seq<Enumerated>) returns (empty: bool)
    ensures empty <==> forall i | 0 <= i < |visit| :: !visit[i].own
  {
    for i := 0 to |visit|
      invariant forall j | 0 <= j < i :: !visit[j].own
    {
      if visit[i].own {
        return false;
      }
    }
    return true;
  }

  /** An object is empty exactly when it has no own property, whatever it inherits. */
  lemma IsEmptyOwn(own: seq<Prop>, inherited: seq<string>)
    ensures (forall i | 0 <= i < |ForIn(own, inherited)| :: !ForIn(own, inherited)[i].own)
            <==> |own| == 0
  {
    if |own| > 0 {
      assert ForIn(own, inherited)[0].own;
    }
  }

  /** The text `print` writes: `| ` before the first line and after every newline. */
  function Prefixed(str: string): string
  {
    Join(Split("| " + str, "\n"), "\n| ")
  }

  /** Printing puts `| ` in front and turns every newline into a newline followed by `| `. */
  lemma PrefixedLines(str: string)
    ensures Prefixed(str) == "| " + ReplaceChar(str, '\n', "\n| ")
    ensures !Contains(str, '\n') ==> Prefixed(str) == "| " + str
  {
    JoinSplitReplace("| " + str, '\n', "\n| ");
    ReplaceAppend("| ", str, '\n', "\n| ");
  }

  lemma {:induction false} ReplaceAppend(a: string, b: string, c: char, r: string)
    ensures ReplaceChar(a + b, c, r) == ReplaceChar(a, c, r) + ReplaceChar(b, c, r)
  {
    if |a| > 0 {
      assert (a + b)[1..] == a[1..] + b;
      ReplaceAppend(a[1..], b, c, r);
    } else {
      assert a + b == b;
    }
  }
}
