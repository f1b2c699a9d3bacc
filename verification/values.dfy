/** JavaScript values as the engine handles them: primitives, arrays, plain objects with their
    keys in insertion order, and Error objects. Also the object operations the sources rely on
    (property lookup, assignment, object spread), truthiness, template-literal text and
    `JSON.stringify`. */
module Values {
  import opened Strings

  datatype Value =
    | Undefined
    | Null
    | Bool(b: bool)
    | Num(n: int)
    | Str(s: string)
    | Arr(elems: seq<Value>)
    | Obj(props: seq<Prop>)
    | Error(message: string)

  /** One own property of a plain object. */
  datatype Prop = Prop(key: string, val: Value)

  /** A synchronous throw or a rejected promise carries a value; otherwise a result. */
  datatype Try<T> = Ok(value: T) | Threw(error: Value)

  // ---------------------------------------------------------------------------------------------
  // Object properties

  function Keys(ps: seq<Prop>): (ks: seq<string>)
    ensures |ks| == |ps|
    ensures forall i | 0 <= i < |ps| :: ks[i] == ps[i].key
  {
    if |ps| == 0 then [] else [ps[0].key] + Keys(ps[1..])
  }

  /** `k in obj` */
  predicate Has(ps: seq<Prop>, k: string)
  {
    exists i | 0 <= i < |ps| :: ps[i].key == k
  }

  /** A key is present exactly when it is among the keys. */
  lemma KeysHas(ps: seq<Prop>, k: string)
    ensures Has(ps, k) <==> k in Keys(ps)
  {
    if k in Keys(ps) {
      var i :| 0 <= i < |ps| && Keys(ps)[i] == k;
      assert ps[i].key == k;
    }
  }

  /** `obj[k]`, `undefined` when absent. */
  function Get(ps: seq<Prop>, k: string): Value
  {
    if |ps| == 0 then Undefined
    else if ps[0].key == k then ps[0].val
    else Get(ps[1..], k)
  }

  /** `obj[k] = v`: an existing key keeps its position, a new key goes last. */
  function Put(ps: seq<Prop>, k: string, v: Value): (r: seq<Prop>)
    ensures |r| == if Has(ps, k) then |ps| else |ps| + 1
  {
    if |ps| == 0 then [Prop(k, v)]
    else if ps[0].key == k then [Prop(k, v)] + ps[1..]
    else [ps[0]] + Put(ps[1..], k, v)
  }

  /** `delete obj[k]`: every other property stays, in order. */
  function Delete(ps: seq<Prop>, k: string): (r: seq<Prop>)
    ensures forall j :: Has(r, j) <==> j != k && Has(ps, j)
    ensures forall j :: Get(r, j) == if j == k then Undefined else Get(ps, j)
  {
    if |ps| == 0 then []
    else if ps[0].key == k then
      assert forall j | j != k :: Has(ps, j) <==> Has(ps[1..], j) by {
        forall j | j != k ensures Has(ps, j) <==> Has(ps[1..], j) { HasTail(ps, j); }
      }
      Delete(ps[1..], k)
    else
      var rest := Delete(ps[1..], k);
      forall j ensures Has([ps[0]] + rest, j) <==> j != k && Has(ps, j) {
        HasTail(ps, j);
        HasTail([ps[0]] + rest, j);
        assert ([ps[0]] + rest)[1..] == rest;
      }
      [ps[0]] + rest
  }

  /** `{ ...ps, ...qs }` for an object `ps` whose keys are distinct. */
  function Assign(ps: seq<Prop>, qs: seq<Prop>): seq<Prop>
    decreases |qs|
  {
    if |qs| == 0 then ps else Assign(Put(ps, qs[0].key, qs[0].val), qs[1..])
  }

  predicate UniqueKeys(ps: seq<Prop>)
  {
    forall i, j | 0 <= i < j < |ps| :: ps[i].key != ps[j].key
  }

  /** `obj.k` for any value: only plain objects have properties here. */
  function Field(v: Value, k: string): Value
  {
    if v.Obj? then Get(v.props, k) else Undefined
  }

  predicate HasField(v: Value, k: string)
  {
    v.Obj? && Has(v.props, k)
  }

  lemma {:induction false} GetHas(ps: seq<Prop>, k: string)
    ensures !Has(ps, k) ==> Get(ps, k) == Undefined
    ensures Has(ps, k) ==> exists i | 0 <= i < |ps| :: ps[i].key == k && ps[i].val == Get(ps, k)
  {
    if |ps| > 0 && ps[0].key != k {
      GetHas(ps[1..], k);
      if Has(ps, k) {
        var i :| 0 <= i < |ps| && ps[i].key == k;
        assert ps[1..][i - 1].key == k;
        var j :| 0 <= j < |ps[1..]| && ps[1..][j].key == k && ps[1..][j].val == Get(ps[1..], k);
        assert ps[j + 1] == ps[1..][j];
      }
    }
  }

  /** Lookup in a two-property object literal. */
  lemma GetPair(base: seq<Prop>, k: string)
    requires |base| == 2
    ensures Get(base, k) == if base[0].key == k then base[0].val else if base[1].key == k then base[1].val else Undefined
  {
    assert base[1..][0] == base[1];
    assert Get(base[1..][1..], k) == Undefined;
  }

  /** In an object with distinct keys, the property at index i is what lookup finds. */
  lemma {:induction false} GetAt(ps: seq<Prop>, i: nat)
    requires UniqueKeys(ps) && i < |ps|
    ensures Has(ps, ps[i].key) && Get(ps, ps[i].key) == ps[i].val
  {
    if i > 0 {
      GetAt(ps[1..], i - 1);
    }
  }

  /** Writing a key sets that key and leaves every other key as it was. */
  lemma {:induction false} PutGet(ps: seq<Prop>, k: string, v: Value, j: string)
    ensures Has(Put(ps, k, v), j) <==> (j == k || Has(ps, j))
    ensures Get(Put(ps, k, v), j) == if j == k then v else Get(ps, j)
  {
    var r := Put(ps, k, v);
    if |ps| == 0 {
      assert r[0].key == k;
    } else if ps[0].key == k {
      assert r[1..] == ps[1..];
      HasTail(ps, j);
      HasTail(r, j);
    } else {
      PutGet(ps[1..], k, v, j);
      assert r[1..] == Put(ps[1..], k, v);
      HasTail(ps, j);
      HasTail(r, j);
    }
  }

  /** `PutGet` for every key at once. */
  lemma PutGetAll(ps: seq<Prop>, k: string, v: Value)
    ensures Get(Put(ps, k, v), k) == v
    ensures forall j | j != k :: Get(Put(ps, k, v), j) == Get(ps, j)
  {
    PutGet(ps, k, v, k);
    forall j | j != k
      ensures Get(Put(ps, k, v), j) == Get(ps, j)
    {
      PutGet(ps, k, v, j);
    }
  }

  lemma HasTail(ps: seq<Prop>, j: string)
    requires |ps| > 0
    ensures Has(ps, j) <==> (ps[0].key == j || Has(ps[1..], j))
  {
    if Has(ps, j) && ps[0].key != j {
      var i :| 0 <= i < |ps| && ps[i].key == j;
      assert ps[1..][i - 1].key == j;
    }
    if Has(ps[1..], j) {
      var i :| 0 <= i < |ps[1..]| && ps[1..][i].key == j;
      assert ps[i + 1].key == j;
    }
  }

  /** Writing a key keeps the key order: the new key, if new, goes last. */
  lemma {:induction false} PutKeys(ps: seq<Prop>, k: string, v: Value)
    ensures Keys(Put(ps, k, v)) == if Has(ps, k) then Keys(ps) else Keys(ps) + [k]
  {
    if |ps| > 0 {
      HasTail(ps, k);
      if ps[0].key != k {
        PutKeys(ps[1..], k, v);
        assert Keys(ps) == [ps[0].key] + Keys(ps[1..]);
        assert Keys(Put(ps, k, v)) == [ps[0].key] + Keys(Put(ps[1..], k, v));
      } else {
        assert Keys(Put(ps, k, v)) == [k] + Keys(ps[1..]);
      }
    }
  }

  lemma {:induction false} PutUnique(ps: seq<Prop>, k: string, v: Value)
    requires UniqueKeys(ps)
    ensures UniqueKeys(Put(ps, k, v))
  {
    var r := Put(ps, k, v);
    PutKeys(ps, k, v);
    var ks := Keys(r);
    if Has(ps, k) {
      forall i, j | 0 <= i < j < |r| ensures r[i].key != r[j].key {
        assert ks[i] == ps[i].key && ks[j] == ps[j].key;
      }
    } else {
      forall i, j | 0 <= i < j < |r| ensures r[i].key != r[j].key {
        if j == |ps| {
          assert ks[j] == k && ks[i] == ps[i].key;
        } else {
          assert ks[i] == ps[i].key && ks[j] == ps[j].key;
        }
      }
    }
  }

  /** Object spread: a key of the later object wins; keys of the earlier object keep theirs. */
  lemma {:induction false} AssignGet(ps: seq<Prop>, qs: seq<Prop>, j: string)
    ensures Has(Assign(ps, qs), j) <==> (Has(ps, j) || Has(qs, j))
    ensures Get(Assign(ps, qs), j) == if Has(qs, j) then LastGet(qs, j) else Get(ps, j)
    decreases |qs|
  {
    if |qs| > 0 {
      var ps' := Put(ps, qs[0].key, qs[0].val);
      AssignGet(ps', qs[1..], j);
      PutGet(ps, qs[0].key, qs[0].val, j);
      HasTail(qs, j);
    }
  }

  /** The value of the LAST property named k: what a sequence of assignments leaves behind. */
  function LastGet(qs: seq<Prop>, k: string): Value
  {
    if |qs| == 0 then Undefined
    else if Has(qs[1..], k) then LastGet(qs[1..], k)
    else if qs[0].key == k then qs[0].val
    else Undefined
  }

  /** For distinct keys the last and the first property named k are the same. */
  lemma {:induction false} LastGetUnique(qs: seq<Prop>, k: string)
    requires UniqueKeys(qs)
    ensures LastGet(qs, k) == Get(qs, k)
  {
    if |qs| > 0 {
      LastGetUnique(qs[1..], k);
      if qs[0].key != k && !Has(qs[1..], k) {
        GetHas(qs[1..], k);
      }
    }
  }

  lemma {:induction false} AssignUnique(ps: seq<Prop>, qs: seq<Prop>)
    requires UniqueKeys(ps)
    ensures UniqueKeys(Assign(ps, qs))
    decreases |qs|
  {
    if |qs| > 0 {
      PutUnique(ps, qs[0].key, qs[0].val);
      AssignUnique(Put(ps, qs[0].key, qs[0].val), qs[1..]);
    }
  }

  /** Spread-merge as a lookup statement, for objects whose keys are distinct. */
  lemma AssignLookup(ps: seq<Prop>, qs: seq<Prop>, j: string)
    requires UniqueKeys(qs)
    ensures Has(Assign(ps, qs), j) <==> (Has(ps, j) || Has(qs, j))
    ensures Get(Assign(ps, qs), j) == if Has(qs, j) then Get(qs, j) else Get(ps, j)
  {
    AssignGet(ps, qs, j);
    LastGetUnique(qs, j);
  }

  // ---------------------------------------------------------------------------------------------
  // Spread sources, truthiness, sizes

  /** The own enumerable properties that `{ ...v }` copies. */
  function SpreadProps(v: Value): seq<Prop>
  {
    match v
    case Obj(ps) => ps
    case Arr(xs) => IndexedProps(xs, 0)
    case Str(s) => IndexedProps(CharValues(s), 0)
    case _ => []
  }

  function CharValues(s: string): (r: seq<Value>)
    ensures |r| == |s|
  {
    if |s| == 0 then [] else [Str([s[0]])] + CharValues(s[1..])
  }

  function IndexedProps(xs: seq<Value>, from: nat): (r: seq<Prop>)
    ensures |r| == |xs|
  {
    if |xs| == 0 then [] else [Prop(NatToString(from), xs[0])] + IndexedProps(xs[1..], from + 1)
  }

  /** JavaScript truthiness (numbers are integers here, so there is no NaN). */
  predicate Truthy(v: Value)
  {
    match v
    case Undefined => false
    case Null => false
    case Bool(b) => b
    case Num(n) => n != 0
    case Str(s) => |s| > 0
    case _ => true
  }

  /** `v == null`: loose equality with null holds for null and undefined only. */
  predicate IsNullish(v: Value)
  {
    v.Undefined? || v.Null?
  }

  /** `a === b`. Arrays, objects and errors are compared by identity in JavaScript; two values of
      this model never share an identity, so they are never strictly equal. */
  predicate StrictEquals(a: Value, b: Value)
  {
    match a
    case Undefined => b.Undefined?
    case Null => b.Null?
    case Bool(x) => b.Bool? && b.b == x
    case Num(x) => b.Num? && b.n == x
    case Str(x) => b.Str? && b.s == x
    case _ => false
  }

  /** A structural size, used as a termination measure for recursion through properties. */
  function Size(v: Value): (n: nat)
    ensures n >= 1
  {
    match v
    case Arr(xs) => 1 + SizeAll(xs)
    case Obj(ps) => 1 + SizeProps(ps)
    case _ => 1
  }

  function SizeAll(xs: seq<Value>): nat
  {
    if |xs| == 0 then 0 else 1 + Size(xs[0]) + SizeAll(xs[1..])
  }

  function SizeProps(ps: seq<Prop>): nat
  {
    if |ps| == 0 then 0 else 1 + Size(ps[0].val) + SizeProps(ps[1..])
  }

  lemma {:induction false} SizeElem(xs: seq<Value>, i: nat)
    requires i < |xs|
    ensures Size(xs[i]) < SizeAll(xs)
  {
    if i > 0 { SizeElem(xs[1..], i - 1); }
  }

  lemma {:induction false} SizeGet(ps: seq<Prop>, k: string)
    ensures Size(Get(ps, k)) < SizeProps(ps) || Get(ps, k) == Undefined
  {
    if |ps| > 0 && ps[0].key != k { SizeGet(ps[1..], k); }
  }

  /** A property's value is smaller than the object holding it. */
  lemma FieldSmaller(v: Value, k: string)
    ensures Size(Field(v, k)) < Size(v) || Field(v, k) == Undefined
  {
    if v.Obj? { SizeGet(v.props, k); }
  }

  // ---------------------------------------------------------------------------------------------
  // Text

  /** `${v}` in a template literal (String(v)). */
  function ToText(v: Value): string
    decreases Size(v), 1
  {
    match v
    case Undefined => "undefined"
    case Null => "null"
    case Bool(b) => if b then "true" else "false"
    case Num(n) => IntToString(n)
    case Str(s) => s
    case Arr(xs) => JoinTexts(xs)
    case Obj(_) => "[object Object]"
    case Error(m) => if m == "" then "Error" else "Error: " + m
  }

  /** `Array.prototype.join(',')`, where null and undefined elements become empty. */
  function JoinTexts(xs: seq<Value>): string
    decreases SizeAll(xs), 0
  {
    if |xs| == 0 then ""
    else
      var head := if IsNullish(xs[0]) then "" else ToText(xs[0]);
      if |xs| == 1 then head else head + "," + JoinTexts(xs[1..])
  }

  const HexDigitsLower := "0123456789abcdef"

  /** One string character as `JSON.stringify` writes it inside quotes. */
  function EscapeChar(c: char): (r: string)
    ensures |r| >= 1
  {
    if c == '"' then "\\\""
    else if c == '\\' then "\\\\"
    else if c == '\n' then "\\n"
    else if c == '\r' then "\\r"
    else if c == '\t' then "\\t"
    else if c == '\U{0008}' then "\\b"
    else if c == '\U{000C}' then "\\f"
    else if c < ' ' then "\\u00" + [HexDigitsLower[c as int / 16], HexDigitsLower[c as int % 16]]
    else [c]
  }

  function EscapeString(s: string): string
  {
    if |s| == 0 then "" else EscapeChar(s[0]) + EscapeString(s[1..])
  }

  function Quote(s: string): string
  {
    "\"" + EscapeString(s) + "\""
  }

  /** `JSON.stringify(v)`; `None` where it returns `undefined` (for `undefined` itself). */
  function Json(v: Value): Option<string>
  {
    if v.Undefined? then None else Some(JsonText(v))
  }

  datatype Option<T> = None | Some(value: T)

  /** JSON text of a value in a position where `undefined` renders as `null`. An Error object has
      no enumerable own property (its `message` is not enumerable), so it renders as `{}`. */
  function JsonText(v: Value): string
    decreases Size(v), 1
  {
    match v
    case Undefined => "null"
    case Null => "null"
    case Bool(b) => if b then "true" else "false"
    case Num(n) => IntToString(n)
    case Str(s) => Quote(s)
    case Arr(xs) => "[" + JsonElems(xs) + "]"
    case Obj(ps) => "{" + JsonMembers(ps) + "}"
    case Error(_) => "{}"
  }

  function JsonElems(xs: seq<Value>): string
    decreases SizeAll(xs), 0
  {
    if |xs| == 0 then ""
    else if |xs| == 1 then JsonText(xs[0])
    else JsonText(xs[0]) + "," + JsonElems(xs[1..])
  }

  /** Object members; properties whose value is `undefined` are omitted. */
  function JsonMembers(ps: seq<Prop>): string
    decreases SizeProps(ps), 0
  {
    if |ps| == 0 then ""
    else if ps[0].val.Undefined? then JsonMembers(ps[1..])
    else
      var member := Quote(ps[0].key) + ":" + JsonText(ps[0].val);
      var rest := JsonMembers(ps[1..]);
      if |rest| == 0 then member else member + "," + rest
  }

  /** Text without control characters (below U+0020): JSON text never has any, so neither a
      newline nor the record separator U+001E can occur in it. */
  predicate Printable(s: string)
  {
    forall i | 0 <= i < |s| :: s[i] >= ' '
  }

  lemma PrintableAppend(a: string, b: string)
    requires Printable(a) && Printable(b)
    ensures Printable(a + b)
  {
    forall i | 0 <= i < |a + b| ensures (a + b)[i] >= ' ' {
      if i >= |a| { assert (a + b)[i] == b[i - |a|]; }
    }
  }

  lemma {:induction false} EscapePrintable(s: string)
    ensures Printable(EscapeString(s))
  {
    if |s| > 0 {
      EscapePrintable(s[1..]);
      EscapeCharPrintable(s[0]);
      PrintableAppend(EscapeChar(s[0]), EscapeString(s[1..]));
    }
  }

  /** Every escape is made of printable characters. */
  lemma EscapeCharPrintable(c: char)
    ensures Printable(EscapeChar(c))
  {
    if c < ' ' && c != '\n' && c != '\r' && c != '\t' && c != '\U{0008}' && c != '\U{000C}' {
      var d := [HexDigitsLower[c as int / 16], HexDigitsLower[c as int % 16]];
      assert d[0] >= ' ' && d[1] >= ' ';
      PrintableAppend("\\u00", d);
    }
  }

  /** `JSON.stringify` never writes a control character. */
  lemma {:induction false} JsonPrintable(v: Value)
    ensures Printable(JsonText(v))
    decreases Size(v), 1
  {
    match v
    case Str(s) =>
      EscapePrintable(s);
      PrintableAppend("\"", EscapeString(s));
      PrintableAppend("\"" + EscapeString(s), "\"");
    case Num(n) =>
    case Arr(xs) =>
      JsonElemsPrintable(xs);
      PrintableAppend("[", JsonElems(xs));
      PrintableAppend("[" + JsonElems(xs), "]");
    case Obj(ps) =>
      JsonMembersPrintable(ps);
      PrintableAppend("{", JsonMembers(ps));
      PrintableAppend("{" + JsonMembers(ps), "}");
    case _ =>
  }

  lemma {:induction false} JsonElemsPrintable(xs: seq<Value>)
    ensures Printable(JsonElems(xs))
    decreases SizeAll(xs), 0
  {
    if |xs| > 0 {
      JsonPrintable(xs[0]);
      if |xs| > 1 {
        JsonElemsPrintable(xs[1..]);
        PrintableAppend(JsonText(xs[0]), ",");
        PrintableAppend(JsonText(xs[0]) + ",", JsonElems(xs[1..]));
      }
    }
  }

  lemma {:induction false} JsonMembersPrintable(ps: seq<Prop>)
    ensures Printable(JsonMembers(ps))
    decreases SizeProps(ps), 0
  {
    if |ps| > 0 {
      JsonMembersPrintable(ps[1..]);
      if !ps[0].val.Undefined? {
        EscapePrintable(ps[0].key);
        JsonPrintable(ps[0].val);
        var q := Quote(ps[0].key);
        PrintableAppend("\"", EscapeString(ps[0].key));
        PrintableAppend("\"" + EscapeString(ps[0].key), "\"");
        PrintableAppend(q, ":");
        PrintableAppend(q + ":", JsonText(ps[0].val));
        var member := q + ":" + JsonText(ps[0].val);
        PrintableAppend(member, ",");
        PrintableAppend(member + ",", JsonMembers(ps[1..]));
      }
    }
  }
}
