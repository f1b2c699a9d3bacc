/** The HTTP request plugin: grouping of response headers, the response type, the text and JSON
    limits, the response validation, the Set-Cookie parsing and the result of a request. The fetch
    itself is I/O; its response (status, header pairs, body text) is a parameter. */
module RequestPlugin {
  import opened Strings
  import opened Values
  import opened Editions
  import ItemHelpers
  import HttpHelpers

  /** One (name, value) pair of the response headers, in arrival order. */
  datatype Header = Header(name: string, value: string)

  // ---------------------------------------------------------------------------------------------
  // headersLists, headersMap

  /** The values of the headers whose lower-cased name is `key`, in arrival order. */
  function NamedValues(pairs: seq<Header>, key: string): (vs: seq<string>)
    ensures |vs| <= |pairs|
  {
    if |pairs| == 0 then []
    else
      var n := |pairs| - 1;
      NamedValues(pairs[..n], key) + (if Lower(pairs[n].name) == key then [pairs[n].value] else [])
  }

  function StrValues(ss: seq<string>): (r: seq<Value>)
    ensures |r| == |ss| && forall i | 0 <= i < |ss| :: r[i] == Str(ss[i])
  {
    if |ss| == 0 then [] else [Str(ss[0])] + StrValues(ss[1..])
  }

  /** The object `headersLists` builds, defined on the pairs processed so far: a new lower-cased
      name gets a one-element list, a known one has the value appended to its list. */
  function Grouped(pairs: seq<Header>): (r: seq<Prop>)
    ensures UniqueKeys(r)
  {
    if |pairs| == 0 then []
    else
      var n := |pairs| - 1;
      Appended(Grouped(pairs[..n]), Lower(pairs[n].name), pairs[n].value)
  }

  /** One step of `headersLists`: a new key gets `[v]`, a known key has `v` appended. */
  function Appended(ps: seq<Prop>, key: string, v: string): (r: seq<Prop>)
    requires UniqueKeys(ps)
    ensures UniqueKeys(r)
    ensures forall j :: Has(r, j) <==> j == key || Has(ps, j)
    ensures forall j :: Get(r, j) == if j == key then Arr(Elems(Get(ps, key)) + [Str(v)]) else Get(ps, j)
  {
    var list := if Has(ps, key) then Arr(Elems(Get(ps, key)) + [Str(v)]) else Arr([Str(v)]);
    PutUnique(ps, key, list);
    GetHas(ps, key);
    forall j ensures (Has(Put(ps, key, list), j) <==> j == key || Has(ps, j)) &&
                     Get(Put(ps, key, list), j) == if j == key then list else Get(ps, j) {
      PutGet(ps, key, list, j);
    }
    Put(ps, key, list)
  }

  /** The elements of a list value. */
  function Elems(v: Value): seq<Value>
  {
    if v.Arr? then v.elems else []
  }

  /** `headersLists(headers)`: one `forEach` over the pairs, writing into `result`. */
  method HeadersLists(pairs: seq<Header>) returns (result: seq<Prop>)
    ensures result == Grouped(pairs)
  {
    result := [];
    for i := 0 to |pairs|
      invariant result == Grouped(pairs[..i])
    {
      assert pairs[..i + 1][..i] == pairs[..i];
      var key := Lower(pairs[i].name);
      if Has(result, key) {
        result := Put(result, key, Arr(Elems(Get(result, key)) + [Str(pairs[i].value)]));
      } else {
        result := Put(result, key, Arr([Str(pairs[i].value)]));
      }
    }
    assert pairs[..|pairs|] == pairs;
  }

  /** Every lower-cased name maps to the list of its values in arrival order; no other key exists. */
  lemma {:induction false} GroupedGet(pairs: seq<Header>, key: string)
    ensures Has(Grouped(pairs), key) <==> |NamedValues(pairs, key)| > 0
    ensures Get(Grouped(pairs), key) ==
              if |NamedValues(pairs, key)| > 0 then Arr(StrValues(NamedValues(pairs, key))) else Undefined
  {
    if |pairs| > 0 {
      var n := |pairs| - 1;
      var before := NamedValues(pairs[..n], key);
      GroupedGet(pairs[..n], key);
      var v := pairs[n].value;
      assert Grouped(pairs) == Appended(Grouped(pairs[..n]), Lower(pairs[n].name), v);
      if Lower(pairs[n].name) == key {
        assert NamedValues(pairs, key) == before + [v];
        StrValuesSnoc(before, v);
      } else {
        assert NamedValues(pairs, key) == before;
      }
    }
  }

  lemma StrValuesSnoc(ss: seq<string>, v: string)
    ensures StrValues(ss + [v]) == StrValues(ss) + [Str(v)]
  {
    var r := StrValues(ss + [v]);
    assert forall i | 0 <= i < |r| :: r[i] == (StrValues(ss) + [Str(v)])[i];
  }

  /** The texts `Array.prototype.join` puts between the separators: nothing for `null` and
      `undefined`. */
  function ElementTexts(xs: seq<Value>): (r: seq<string>)
    ensures |r| == |xs|
    ensures forall i | 0 <= i < |xs| :: r[i] == if IsNullish(xs[i]) then "" else ToText(xs[i])
  {
    if |xs| == 0 then [] else [if IsNullish(xs[0]) then "" else ToText(xs[0])] + ElementTexts(xs[1..])
  }

  /** Each list joined with `, `, key by key. */
  function Joined(headers: seq<Prop>): (r: seq<Prop>)
    requires forall i | 0 <= i < |headers| :: headers[i].val.Arr?
    ensures |r| == |headers|
    ensures forall i | 0 <= i < |headers| ::
              r[i] == Prop(headers[i].key, Str(Join(ElementTexts(headers[i].val.elems), ", ")))
  {
    if |headers| == 0 then []
    else [Prop(headers[0].key, Str(Join(ElementTexts(headers[0].val.elems), ", ")))] + Joined(headers[1..])
  }

  /** `headersMap(headers)`: `Object.keys(headers).map(k => [k, headers[k].join(', ')]).reduce(zip, {})`. */
  function HeadersMap(headers: seq<Prop>): (r: seq<Prop>)
    requires forall i | 0 <= i < |headers| :: headers[i].val.Arr?
    ensures UniqueKeys(r)
  {
    AssignUnique([], Joined(headers));
    Assign([], Joined(headers))
  }

  /** A joined header has the keys of the lists, each list joined with `, `. */
  lemma HeadersMapGet(headers: seq<Prop>, key: string)
    requires UniqueKeys(headers)
    requires forall i | 0 <= i < |headers| :: headers[i].val.Arr?
    ensures Has(HeadersMap(headers), key) <==> Has(headers, key)
    ensures Has(headers, key) ==>
              Get(headers, key).Arr? && Get(HeadersMap(headers), key) == Str(Join(ElementTexts(Get(headers, key).elems), ", "))
    ensures UniqueKeys(HeadersMap(headers))
  {
    var j := Joined(headers);
    assert UniqueKeys(j);
    AssignLookup([], j, key);
    AssignUnique([], j);
    if Has(headers, key) {
      GetHas(headers, key);
      var i :| 0 <= i < |headers| && headers[i].key == key && headers[i].val == Get(headers, key);
      GetAt(j, i);
    } else {
      assert !Has(j, key);
    }
  }

  lemma {:induction false} ElementTextsOfStrs(ss: seq<string>)
    ensures ElementTexts(StrValues(ss)) == ss
  {
  }

  /** `response.headers` of a request result: every lower-cased name, with all its values in
      arrival order joined by `, `. */
  lemma ResponseHeaders(pairs: seq<Header>, key: string)
    requires |NamedValues(pairs, key)| > 0
    ensures forall i | 0 <= i < |Grouped(pairs)| :: Grouped(pairs)[i].val.Arr?
    ensures Get(HeadersMap(Grouped(pairs)), key) == Str(Join(NamedValues(pairs, key), ", "))
  {
    GroupedArrays(pairs);
    GroupedGet(pairs, key);
    HeadersMapGet(Grouped(pairs), key);
    ElementTextsOfStrs(NamedValues(pairs, key));
  }

  lemma {:induction false} GroupedArrays(pairs: seq<Header>)
    ensures forall i | 0 <= i < |Grouped(pairs)| :: Grouped(pairs)[i].val.Arr?
  {
    if |pairs| > 0 {
      var n := |pairs| - 1;
      var prev := Grouped(pairs[..n]);
      GroupedArrays(pairs[..n]);
      var k := Lower(pairs[n].name);
      var list := if Has(prev, k) then Arr(Elems(Get(prev, k)) + [Str(pairs[n].value)]) else Arr([Str(pairs[n].value)]);
      assert Grouped(pairs) == Put(prev, k, list);
      PutArrays(prev, k, list);
    }
  }

  lemma {:induction false} PutArrays(ps: seq<Prop>, k: string, v: Value)
    requires v.Arr? && forall i | 0 <= i < |ps| :: ps[i].val.Arr?
    ensures forall i | 0 <= i < |Put(ps, k, v)| :: Put(ps, k, v)[i].val.Arr?
  {
    if |ps| > 0 && ps[0].key != k {
      PutArrays(ps[1..], k, v);
    }
  }

  // ---------------------------------------------------------------------------------------------
  // parseResponseType, isJson

  const SplitNotAFunction := Error("TypeError: responseTypeHeaders.split is not a function")

  /** `parseResponseType(headers)`: the `content-type` text before its first `;`, or `null`. */
  function ParseResponseType(headers: seq<Prop>): (r: Try<Value>)
    ensures r == Ok(Null) <==> !Truthy(Get(headers, "content-type"))
    ensures Get(headers, "content-type").Str? ==> r.Ok?
    ensures Truthy(Get(headers, "content-type")) && Get(headers, "content-type").Str? ==>
              var s := Get(headers, "content-type").s;
              r.value.Str? && !Contains(r.value.s, ';') && StartsWith(s, r.value.s) &&
              (|r.value.s| == |s| || s[|r.value.s|] == ';')
  {
    var v := Get(headers, "content-type");
    if !Truthy(v) then Ok(Null)
    else if v.Str? then
      FirstPart(v.s, ';');
      Ok(Str(Split(v.s, [';'])[0]))
    else Threw(SplitNotAFunction)
  }

  /** A response's `content-type` is text or absent, so `parseResponseType` never throws on it. */
  lemma ResponseTypeOk(pairs: seq<Header>)
    ensures ParseResponseType(ResponseHeaderMap(pairs)).Ok?
  {
    GroupedArrays(pairs);
    HeadersMapGet(Grouped(pairs), "content-type");
    GetHas(HeadersMap(Grouped(pairs)), "content-type");
  }

  /** The first part of a split is the text before the first separator. */
  lemma {:induction false} FirstPart(s: string, c: char)
    ensures var h := Split(s, [c])[0];
            !Contains(h, c) && StartsWith(s, h) && (|h| == |s| || s[|h|] == c)
  {
    var parts := Split(s, [c]);
    JoinSplit(s, c);
    SplitPartsFree(s, c);
    if |parts| > 1 {
      assert s == parts[0] + [c] + Join(parts[1..], [c]);
    }
  }

  /** `[a-zA-Z0-9.-]` */
  predicate TokenChar(c: char)
  {
    'a' <= c <= 'z' || 'A' <= c <= 'Z' || '0' <= c <= '9' || c == '.' || c == '-'
  }

  /** The regular expression `application[/]([a-zA-Z0-9.-]+[+])?json` matches at position i. */
  predicate JsonAt(s: string, i: nat)
  {
    i <= |s| && StartsWith(s[i..], "application/") &&
    var j := i + 12;
    StartsWith(s[j..], "json") ||
    exists k | j < k < |s| :: (forall m | j <= m < k :: TokenChar(s[m])) && s[k] == '+' && StartsWith(s[k + 1..], "json")
  }

  /** `isJson(responseType)`: the unanchored test of the regular expression against the text of the
      type (`null` becomes the text `null`). */
  predicate IsJson(responseType: Value)
    ensures IsJson(responseType) ==> |ToText(responseType)| >= 16
  {
    var s := ToText(responseType);
    assert forall i | 0 <= i <= |s| && JsonAt(s, i) :: |s| >= 16 by {
      forall i | 0 <= i <= |s| && JsonAt(s, i) ensures |s| >= 16 {
        JsonAtLength(s, i);
      }
    }
    exists i | 0 <= i <= |s| :: JsonAt(s, i)
  }

  /** Every type that starts with `application/json` is JSON, `application/json-seq` included. */
  lemma JsonPrefixed(s: string)
    requires StartsWith(s, "application/json")
    ensures IsJson(Str(s))
  {
    var p := s[..16];
    assert p == "application/json";
    assert s[..12] == p[..12];
    assert s[12..][..4] == p[12..];
    assert s[0..] == s;
    assert JsonAt(s, 0);
    assert ToText(Str(s)) == s;
  }

  /** A structured `+json` suffix type such as `application/hal+json` is JSON. */
  lemma SuffixIsJson(token: string)
    requires |token| > 0 && forall m | 0 <= m < |token| :: TokenChar(token[m])
    ensures IsJson(Str("application/" + token + "+json"))
  {
    var s := "application/" + token + "+json";
    var k := 12 + |token|;
    assert s[0..] == s && s[..12] == "application/";
    assert forall m | 12 <= m < k :: s[m] == token[m - 12];
    assert s[k] == '+' && s[k + 1..] == "json";
    assert JsonAt(s, 0);
    assert ToText(Str(s)) == s;
  }

  /** A match needs at least the sixteen characters of `application/json`. */
  lemma JsonAtLength(s: string, i: nat)
    requires JsonAt(s, i)
    ensures i + 16 <= |s|
  {
    var j := i + 12;
    if !StartsWith(s[j..], "json") {
      var k :| j < k < |s| && s[k] == '+' && StartsWith(s[k + 1..], "json");
    }
  }

  /** A text shorter than `application/json` is never JSON; a missing type (`null`) is not. */
  lemma ShortIsNotJson(t: Value)
    requires |ToText(t)| < 16
    ensures !IsJson(t)
  {
    var s := ToText(t);
    forall i | 0 <= i <= |s| && JsonAt(s, i) ensures false {
      JsonAtLength(s, i);
    }
  }

  // ---------------------------------------------------------------------------------------------
  // applyLimit, applyLimitToJson

  /** `s.slice(0, n)`: a negative end counts from the end of the text. */
  function SliceTo(s: string, n: int): (r: string)
    ensures StartsWith(s, r)
    ensures n >= 0 ==> |r| == if n < |s| then n else |s|
    ensures n < 0 ==> |r| == if |s| + n > 0 then |s| + n else 0
  {
    var end := if n >= 0 then (if n < |s| then n else |s|) else (if |s| + n > 0 then |s| + n else 0);
    s[..end]
  }

  /** `applyLimit(text)` with the item's `limit` (`None` for `null`): `undefined` gives the empty
      text, no limit keeps the text, otherwise its text is cut to the first `limit` characters. */
  function ApplyLimit(text: Value, limit: Option<int>): (r: Value)
    ensures text.Undefined? ==> r == Str("")
    ensures !text.Undefined? && limit.None? ==> r == text
    ensures !text.Undefined? && limit.Some? ==> r.Str? && StartsWith(ToText(text), r.s)
    ensures !text.Undefined? && limit.Some? && limit.value >= 0 ==>
              |r.s| == if limit.value < |ToText(text)| then limit.value else |ToText(text)|
  {
    if text.Undefined? then Str("")
    else if limit.None? then text
    else Str(SliceTo(ToText(text), limit.value))
  }

  const TooLong := Str("NOT PARSING: too long")

  /** `applyLimitToJson(text)` as written: `text.length > item.limit` compares with `null` as 0,
      so with no limit every non-empty JSON body counts as too long. `parse` is `JSON.parse`. */
  function ApplyLimitToJsonAsWritten(responseType: Value, text: string, limit: Option<int>,
                                     parse: string -> Try<Value>): (r: Try<Value>)
    ensures !IsJson(responseType) ==> r == Ok(Null)
    ensures IsJson(responseType) && limit.Some? ==>
              r == if |text| > limit.value then Ok(TooLong) else parse(text)
  {
    if !IsJson(responseType) then Ok(Null)
    else if |text| > (if limit.None? then 0 else limit.value) then Ok(TooLong)
    else parse(text)
  }

  /** With `limit: null` a JSON body is parsed only when it is empty. */
  lemma NullLimitNeverParses(responseType: Value, text: string, parse: string -> Try<Value>)
    requires IsJson(responseType) && |text| > 0
    ensures ApplyLimitToJsonAsWritten(responseType, text, None, parse) == Ok(TooLong)
  {
  }

  /** `applyLimitToJson(text)` as documented: `null` means no limit, so the body is parsed. */
  function ApplyLimitToJson(responseType: Value, text: string, limit: Option<int>,
                            parse: string -> Try<Value>): (r: Try<Value>)
    ensures !IsJson(responseType) ==> r == Ok(Null)
    ensures IsJson(responseType) && limit.None? ==> r == parse(text)
    ensures IsJson(responseType) && limit.Some? ==>
              r == if |text| > limit.value then Ok(TooLong) else parse(text)
  {
    if !IsJson(responseType) then Ok(Null)
    else if limit.Some? && |text| > limit.value then Ok(TooLong)
    else parse(text)
  }

  /** `applyLimitToJson` in an edition: as written, or with `null` meaning no limit. */
  function LimitToJson(edition: Edition, responseType: Value, text: string, limit: Option<int>,
                       parse: string -> Try<Value>): (r: Try<Value>)
    ensures edition.AsWritten? ==> r == ApplyLimitToJsonAsWritten(responseType, text, limit, parse)
    ensures edition.Corrected? ==> r == ApplyLimitToJson(responseType, text, limit, parse)
  {
    match edition
    case AsWritten => ApplyLimitToJsonAsWritten(responseType, text, limit, parse)
    case Corrected => ApplyLimitToJson(responseType, text, limit, parse)
  }

  /** The two limits agree: whenever the JSON is parsed, the `text` field holds the whole body. */
  lemma ParsedMeansWholeText(responseType: Value, text: string, limit: Option<int>, parse: string -> Try<Value>)
    requires IsJson(responseType) && ApplyLimitToJson(responseType, text, limit, parse) == parse(text)
    requires parse(text) != Ok(TooLong)
    ensures ApplyLimit(Str(text), limit) == Str(text)
  {
    if limit.Some? {
      assert |text| <= limit.value;
      assert SliceTo(text, limit.value) == text;
    }
  }

  // ---------------------------------------------------------------------------------------------
  // byteLength, lengthMatches

  /** The number of bytes of a character in UTF-8. */
  function CharBytes(c: char): (n: nat)
    ensures 1 <= n <= 4
    ensures n == 1 <==> (c as int) < 0x80
  {
    if (c as int) < 0x80 then 1 else if (c as int) < 0x800 then 2 else if (c as int) < 0x10000 then 3 else 4
  }

  /** `byteLength(text)`: the length of the UTF-8 encoding. */
  function ByteLength(s: string): (n: nat)
    ensures |s| <= n <= 4 * |s|
  {
    if |s| == 0 then 0 else CharBytes(s[0]) + ByteLength(s[1..])
  }

  /** The byte length equals the character count exactly when every character is ASCII. */
  lemma {:induction false} ByteLengthAscii(s: string)
    ensures ByteLength(s) == |s| <==> forall i | 0 <= i < |s| :: (s[i] as int) < 0x80
  {
    if |s| > 0 {
      ByteLengthAscii(s[1..]);
      assert forall i | 1 <= i < |s| :: s[i] == s[1..][i - 1];
    }
  }

  predicate Whitespace(c: char)
  {
    c == ' ' || c == '\t' || c == '\n' || c == '\r' || c == '\U{000B}' || c == '\U{000C}'
  }

  function TrimStart(s: string): (r: string)
    ensures |r| <= |s| && (|r| > 0 ==> !Whitespace(r[0]))
  {
    if |s| > 0 && Whitespace(s[0]) then TrimStart(s[1..]) else s
  }

  /** The longest prefix of decimal digits. */
  function DigitPrefix(s: string): (r: string)
    ensures |r| <= |s| && forall i | 0 <= i < |r| :: r[i] == s[i] && '0' <= r[i] <= '9'
    ensures |r| < |s| ==> !('0' <= s[|r|] <= '9')
  {
    if |s| > 0 && '0' <= s[0] <= '9' then [s[0]] + DigitPrefix(s[1..]) else ""
  }

  /** `parseInt(s, 10)`: leading white space, an optional sign and the longest run of digits;
      `None` (NaN) when there is no digit. */
  function ParseInt(s: string): (r: Option<int>)
    ensures r.Some? ==> |s| > 0
    ensures |s| > 0 && '0' <= s[0] <= '9' ==> r.Some? && r.value >= 0
    ensures |s| > 1 && s[0] == '-' && '0' <= s[1] <= '9' ==> r.Some? && r.value <= 0
  {
    var t := TrimStart(s);
    var signed := |t| > 0 && (t[0] == '-' || t[0] == '+');
    var body := if signed then t[1..] else t;
    var digits := DigitPrefix(body);
    var magnitude: int := ParseNat(digits);
    if |digits| == 0 then None
    else if signed && t[0] == '-' then Some(-magnitude)
    else Some(magnitude)
  }

  /** A rendered natural number reads back as itself. */
  lemma ParseIntNat(n: nat)
    ensures ParseInt(NatToString(n)) == Some(n)
  {
    var s := NatToString(n);
    assert TrimStart(s) == s;
    DigitsOnly(s);
    ParseNatToString(n);
  }

  lemma {:induction false} DigitsOnly(s: string)
    requires forall i | 0 <= i < |s| :: '0' <= s[i] <= '9'
    ensures DigitPrefix(s) == s
  {
    if |s| > 0 {
      assert forall i | 0 <= i < |s[1..]| :: s[1..][i] == s[i + 1];
      DigitsOnly(s[1..]);
      assert s == [s[0]] + s[1..];
    }
  }

  /** `lengthMatches(headerExpectation)(text)`: always true without a `Content-Length`, otherwise
      the parsed header must equal the UTF-8 byte length. */
  predicate LengthMatches(headerExpectation: Value, text: string)
    ensures IsNullish(headerExpectation) ==> LengthMatches(headerExpectation, text)
    ensures ToText(headerExpectation) == NatToString(ByteLength(text)) ==> LengthMatches(headerExpectation, text)
  {
    ParseIntNat(ByteLength(text));
    IsNullish(headerExpectation) || ParseInt(ToText(headerExpectation)) == Some(ByteLength(text))
  }

  /** A correct `Content-Length` header is accepted, and it is the only decimal text accepted. */
  lemma LengthMatchesExact(text: string, n: nat)
    ensures LengthMatches(Str(NatToString(n)), text) <==> n == ByteLength(text)
  {
    ParseIntNat(n);
  }

  // ---------------------------------------------------------------------------------------------
  // parseResponseCookies

  /** One `Set-Cookie` value after parsing: its name, the key of its `byPath` entry (the text of
      `params.path`), and the fields of the entry. */
  datatype SetCookie = SetCookie(key: string, path: string, isExpired: bool, params: seq<Prop>, value: string)

  /** `paramList.reduce((acc, pv) => ({ ...acc, [p.toLowerCase()]: v }), {})`, with `v` undefined
      for a parameter without `=`. */
  function Params(list: seq<string>): (r: seq<Prop>)
    ensures UniqueKeys(r)
  {
    if |list| == 0 then []
    else
      var n := |list| - 1;
      var pv := Split(list[n], "=");
      var v := if |pv| > 1 then Str(pv[1]) else Undefined;
      PutUnique(Params(list[..n]), Lower(pv[0]), v);
      Put(Params(list[..n]), Lower(pv[0]), v)
  }

  lemma {:induction false} LowerIdempotent(s: string)
    ensures Lower(Lower(s)) == Lower(s)
  {
  }

  /** Parameter names are lower-cased. */
  lemma {:induction false} ParamsLowerCase(list: seq<string>, k: string)
    requires Has(Params(list), k)
    ensures Lower(k) == k
  {
    var n := |list| - 1;
    var pv := Split(list[n], "=");
    var v := if |pv| > 1 then Str(pv[1]) else Undefined;
    PutGet(Params(list[..n]), Lower(pv[0]), v, k);
    if k == Lower(pv[0]) {
      LowerIdempotent(pv[0]);
    } else {
      ParamsLowerCase(list[..n], k);
    }
  }

  const UnquoteUndefined := Error("TypeError: Cannot read properties of undefined (reading 'charAt')")

  /** The start of the `forEach` callback: `[kv, ...paramList] = entry.split('; ')`,
      `[key, value] = kv.split('=')`, the parameters, `isExpired` (whether the `expires` date lies in
      the past is the parameter `expired`, since it reads the clock) and the unquoted value. A
      first part without `=` leaves `value` undefined, and `unquoted` then throws. */
  function ParseSetCookie(entry: string, expired: Value -> bool): (r: Try<SetCookie>)
    ensures r.Threw? <==> !Contains(Split(entry, "; ")[0], '=')
    ensures r.Ok? ==> var kv := Split(entry, "; ")[0];
              StartsWith(kv, r.value.key) && !Contains(r.value.key, '=') && kv[|r.value.key|] == '=' &&
              r.value.params == Params(Split(entry, "; ")[1..]) &&
              r.value.path == ToText(Get(r.value.params, "path"))
  {
    var parts := Split(entry, "; ");
    var kv := Split(parts[0], "=");
    var params := Params(parts[1..]);
    var expires := Get(params, "expires");
    KeyPart(parts[0]);
    if |kv| < 2 then Threw(UnquoteUndefined)
    else Ok(SetCookie(kv[0], ToText(Get(params, "path")), Truthy(expires) && expired(expires), params,
                      HttpHelpers.Unquoted(kv[1])))
  }

  /** The name of a `name=value` pair: the text before the first `=`, which exists exactly when the
      split has a second part. */
  lemma KeyPart(kv: string)
    ensures |Split(kv, "=")| < 2 <==> !Contains(kv, '=')
    ensures |Split(kv, "=")| >= 2 ==>
      var k := Split(kv, "=")[0]; StartsWith(kv, k) && !Contains(k, '=') && kv[|k|] == '='
  {
    assert "=" == ['='];
    SplitCount(kv, '=');
    FirstPart(kv, '=');
  }

  /** `name=value` without parameters: the value unquoted, the entry filed under the path key
      `undefined`, never expired. */
  lemma PlainSetCookie(name: string, value: string, expired: Value -> bool)
    requires !Contains(name, '=') && !Contains(name, ';') && !Contains(value, '=') && !Contains(value, ';')
    ensures ParseSetCookie(name + "=" + value, expired) ==
              Ok(SetCookie(name, "undefined", false, [], HttpHelpers.Unquoted(value)))
  {
    var entry := name + "=" + value;
    assert !Contains(entry, ';') by {
      forall j | 0 <= j < |entry| ensures entry[j] != ';' {
        if j < |name| { assert entry[j] == name[j]; }
        else if j > |name| { assert entry[j] == value[j - |name| - 1]; }
      }
    }
    SplitNoLead(entry, "; ");
    assert Split(entry, "; ")[1..] == [];
    SplitPrefix(name, value, '=');
    SplitFree(value, '=');
    assert Split(entry, "=") == [name, value];
  }

  /** A cookie's `byPath` entries. */
  function ByPath(cookie: Value): seq<Prop>
  {
    SpreadProps(Field(cookie, "byPath"))
  }

  /** `newEntry = { isExpired, params, value }` */
  function EntryObject(c: SetCookie): (e: Value)
    ensures e.Obj? && UniqueKeys(e.props)
    ensures Field(e, "isExpired") == Bool(c.isExpired) && Field(e, "params") == Obj(c.params) &&
            Field(e, "value") == Str(c.value)
  {
    var ps := [Prop("isExpired", Bool(c.isExpired)), Prop("params", Obj(c.params)), Prop("value", Str(c.value))];
    GetAt(ps, 0);
    GetAt(ps, 1);
    GetAt(ps, 2);
    Obj(ps)
  }

  /** `cookies[key] = { ...newEntry }` followed by `cookies[key].byPath = byPath`. */
  function CookieObject(c: SetCookie, byPath: seq<Prop>): (o: Value)
    ensures o.Obj?
    ensures Field(o, "isExpired") == Bool(c.isExpired) && Field(o, "params") == Obj(c.params) &&
            Field(o, "value") == Str(c.value)
    ensures ByPath(o) == byPath
  {
    var ps := [Prop("isExpired", Bool(c.isExpired)), Prop("params", Obj(c.params)), Prop("value", Str(c.value)),
               Prop("byPath", Obj(byPath))];
    GetAt(ps, 0);
    GetAt(ps, 1);
    GetAt(ps, 2);
    GetAt(ps, 3);
    Obj(ps)
  }

  /** The `byPath` entries a cookie's previous entry passes on: none when there is no previous entry. */
  function PriorByPath(existing: Value): seq<Prop>
  {
    if Truthy(existing) then ByPath(existing) else []
  }

  /** One step of the `forEach`: the entry under the cookie's name is replaced, and its `byPath` is
      the new entry under its path, overwritten by the entries the previous one had. */
  function AddCookie(cookies: seq<Prop>, c: SetCookie): (r: seq<Prop>)
    ensures forall j :: Has(r, j) <==> j == c.key || Has(cookies, j)
    ensures forall j :: Get(r, j) == if j == c.key then
                                       CookieObject(c, Assign([Prop(c.path, EntryObject(c))], PriorByPath(Get(cookies, c.key))))
                                     else Get(cookies, j)
  {
    var existing := Get(cookies, c.key);
    var byPath := Assign([Prop(c.path, EntryObject(c))], if Truthy(existing) then ByPath(existing) else []);
    var entry := CookieObject(c, byPath);
    forall j ensures (Has(Put(cookies, c.key, entry), j) <==> j == c.key || Has(cookies, j)) &&
                     Get(Put(cookies, c.key, entry), j) == if j == c.key then entry else Get(cookies, j) {
      PutGet(cookies, c.key, entry, j);
    }
    Put(cookies, c.key, entry)
  }

  /** The cookies object after the given `Set-Cookie` values, defined on the values processed so far. */
  function CookieMap(cs: seq<SetCookie>): seq<Prop>
  {
    if |cs| == 0 then [] else AddCookie(CookieMap(cs[..|cs| - 1]), cs[|cs| - 1])
  }

  /** The position of the last value with the given name. */
  function LastWith(cs: seq<SetCookie>, k: string): (r: Option<nat>)
    ensures r.None? <==> forall j | 0 <= j < |cs| :: cs[j].key != k
    ensures r.Some? ==> r.value < |cs| && cs[r.value].key == k && forall j | r.value < j < |cs| :: cs[j].key != k
  {
    if |cs| == 0 then None
    else if cs[|cs| - 1].key == k then Some(|cs| - 1)
    else
      var r := LastWith(cs[..|cs| - 1], k);
      assert forall j | 0 <= j < |cs| - 1 :: cs[..|cs| - 1][j] == cs[j];
      r
  }

  /** The position of the first value with the given name and path. */
  function FirstWith(cs: seq<SetCookie>, k: string, path: string): (r: Option<nat>)
    ensures r.None? <==> forall j | 0 <= j < |cs| :: !(cs[j].key == k && cs[j].path == path)
    ensures r.Some? ==> r.value < |cs| && cs[r.value].key == k && cs[r.value].path == path &&
                        forall j | 0 <= j < r.value :: !(cs[j].key == k && cs[j].path == path)
  {
    if |cs| == 0 then None
    else
      var n := |cs| - 1;
      var prev := FirstWith(cs[..n], k, path);
      assert forall j | 0 <= j < n :: cs[..n][j] == cs[j];
      if prev.Some? then prev
      else if cs[n].key == k && cs[n].path == path then Some(n)
      else None
  }

  /** A cookie is present exactly when some value has its name, and it carries the fields of the
      LAST such value. */
  lemma {:induction false} CookieLatest(cs: seq<SetCookie>, k: string)
    ensures Has(CookieMap(cs), k) <==> LastWith(cs, k).Some?
    ensures LastWith(cs, k).None? ==> Get(CookieMap(cs), k) == Undefined
    ensures LastWith(cs, k).Some? ==>
              exists byPath :: Get(CookieMap(cs), k) == CookieObject(cs[LastWith(cs, k).value], byPath)
  {
    if |cs| > 0 {
      var n := |cs| - 1;
      CookieLatest(cs[..n], k);
      if cs[n].key != k {
        assert LastWith(cs, k) == LastWith(cs[..n], k);
        if LastWith(cs, k).Some? {
          assert cs[..n][LastWith(cs, k).value] == cs[LastWith(cs, k).value];
        }
      }
    }
  }

  /** `byPath` keeps, for every path, the FIRST value of the cookie's name seen with that path. */
  lemma {:induction false} CookieFirstPerPath(cs: seq<SetCookie>, k: string, path: string)
    requires LastWith(cs, k).Some?
    ensures UniqueKeys(ByPath(Get(CookieMap(cs), k)))
    ensures Has(ByPath(Get(CookieMap(cs), k)), path) <==> FirstWith(cs, k, path).Some?
    ensures Get(ByPath(Get(CookieMap(cs), k)), path) ==
              if FirstWith(cs, k, path).Some? then EntryObject(cs[FirstWith(cs, k, path).value]) else Undefined
    decreases |cs|, 1
  {
    var n := |cs| - 1;
    if cs[n].key != k {
      FirstWithPrefix(cs, k, path);
      assert LastWith(cs, k) == LastWith(cs[..n], k);
      CookieFirstPerPath(cs[..n], k, path);
    } else {
      NewestPerPath(cs, k, path);
    }
  }

  /** The step of `CookieFirstPerPath` for a list whose last value has the cookie's name. */
  lemma {:induction false} NewestPerPath(cs: seq<SetCookie>, k: string, path: string)
    requires |cs| > 0 && cs[|cs| - 1].key == k
    ensures UniqueKeys(ByPath(Get(CookieMap(cs), k)))
    ensures Has(ByPath(Get(CookieMap(cs), k)), path) <==> FirstWith(cs, k, path).Some?
    ensures Get(ByPath(Get(CookieMap(cs), k)), path) ==
              if FirstWith(cs, k, path).Some? then EntryObject(cs[FirstWith(cs, k, path).value]) else Undefined
    decreases |cs|, 0
  {
    var n := |cs| - 1;
    var c := cs[n];
    var prior := PriorByPath(Get(CookieMap(cs[..n]), k));
    var own := [Prop(c.path, EntryObject(c))];
    assert CookieMap(cs) == AddCookie(CookieMap(cs[..n]), c);
    assert ByPath(Get(CookieMap(cs), k)) == Assign(own, prior);
    PriorPerPath(cs[..n], k, path);
    AssignLookup(own, prior, path);
    AssignUnique(own, prior);
    FirstWithPrefix(cs, k, path);
    var first := FirstWith(cs[..n], k, path);
    if first.Some? {
      assert Get(Assign(own, prior), path) == EntryObject(cs[first.value]);
    } else {
      assert Get(Assign(own, prior), path) == Get(own, path);
    }
  }

  /** What the entries under a cookie name already held, per path, before one more value. */
  lemma {:induction false} PriorPerPath(cs: seq<SetCookie>, k: string, path: string)
    ensures var prior := PriorByPath(Get(CookieMap(cs), k));
            UniqueKeys(prior) &&
            (Has(prior, path) <==> FirstWith(cs, k, path).Some?) &&
            Get(prior, path) == if FirstWith(cs, k, path).Some? then EntryObject(cs[FirstWith(cs, k, path).value]) else Undefined
    decreases |cs|, 2
  {
    CookieLatest(cs, k);
    if LastWith(cs, k).Some? {
      CookieFirstPerPath(cs, k, path);
    } else {
      assert PriorByPath(Get(CookieMap(cs), k)) == [];
      assert FirstWith(cs, k, path).None?;
    }
  }

  /** The first match in a list is the first match of the list without its last value, if any. */
  lemma FirstWithPrefix(cs: seq<SetCookie>, k: string, path: string)
    requires |cs| > 0
    ensures FirstWith(cs[..|cs| - 1], k, path).Some? ==>
              FirstWith(cs, k, path) == FirstWith(cs[..|cs| - 1], k, path) &&
              cs[..|cs| - 1][FirstWith(cs, k, path).value] == cs[FirstWith(cs, k, path).value]
    ensures FirstWith(cs[..|cs| - 1], k, path).None? ==>
              FirstWith(cs, k, path) == if cs[|cs| - 1].key == k && cs[|cs| - 1].path == path then Some(|cs| - 1) else None
  {
  }

  /** Every value of a response's `Set-Cookie` lists parsed in order; the first that throws stops
      the `forEach`. */
  function ParseAll(entries: seq<string>, expired: Value -> bool): (r: Try<seq<SetCookie>>)
    ensures r.Ok? ==> |r.value| == |entries|
  {
    if |entries| == 0 then Ok([])
    else
      var n := |entries| - 1;
      var prev := ParseAll(entries[..n], expired);
      if prev.Threw? then prev
      else
        var last := ParseSetCookie(entries[n], expired);
        if last.Threw? then Threw(last.error) else Ok(prev.value + [last.value])
  }

  /** One step of the fold: once the prefix has thrown, the last entry is never parsed. */
  lemma ParseAllStep(entries: seq<string>, expired: Value -> bool)
    requires |entries| > 0 && ParseAll(entries[..|entries| - 1], expired).Threw?
    ensures ParseAll(entries, expired) == ParseAll(entries[..|entries| - 1], expired)
  {
  }

  /** Once a prefix throws, so does the whole list, with the same error. */
  lemma {:induction false} ParseAllThrew(entries: seq<string>, i: nat, expired: Value -> bool)
    requires i <= |entries| && ParseAll(entries[..i], expired).Threw?
    ensures ParseAll(entries, expired) == ParseAll(entries[..i], expired)
  {
    if i < |entries| {
      var n := |entries| - 1;
      assert entries[..n][..i] == entries[..i];
      ParseAllThrew(entries[..n], i, expired);
      ParseAllStep(entries, expired);
    } else {
      assert entries[..i] == entries;
    }
  }

  /** The texts of a list's elements. */
  function Texts(xs: seq<Value>): (r: seq<string>)
    ensures |r| == |xs| && forall i | 0 <= i < |xs| :: r[i] == ToText(xs[i])
  {
    if |xs| == 0 then [] else [ToText(xs[0])] + Texts(xs[1..])
  }

  const ForEachNotAFunction := Error("TypeError: setCookieList.forEach is not a function")

  /** `headerLists['set-cookie']`, found ignoring case. */
  function SetCookieList(headerLists: seq<Prop>): Value
  {
    HttpHelpers.GetIgnoreCase(headerLists, "set-cookie", Undefined)
  }

  /** What `parseResponseCookies(headerLists)` returns: no `set-cookie` list gives `{}`. */
  function ResponseCookies(headerLists: seq<Prop>, expired: Value -> bool): (r: Try<seq<Prop>>)
    ensures !Truthy(SetCookieList(headerLists)) ==> r == Ok([])
  {
    var list := SetCookieList(headerLists);
    if !Truthy(list) then Ok([])
    else if !list.Arr? then Threw(ForEachNotAFunction)
    else
      CookiesOf(Texts(list.elems), expired)
  }

  /** The cookies object for the `Set-Cookie` values, or the error of the first that throws. */
  function CookiesOf(entries: seq<string>, expired: Value -> bool): Try<seq<Prop>>
  {
    var parsed := ParseAll(entries, expired);
    if parsed.Threw? then Threw(parsed.error) else Ok(CookieMap(parsed.value))
  }

  /** One more entry: its parse is appended, or its error is the first one. */
  lemma ParseAllNext(entries: seq<string>, i: nat, expired: Value -> bool)
    requires i < |entries| && ParseAll(entries[..i], expired).Ok?
    ensures var c := ParseSetCookie(entries[i], expired);
      ParseAll(entries[..i + 1], expired) ==
        if c.Threw? then Threw(c.error) else Ok(ParseAll(entries[..i], expired).value + [c.value])
  {
    assert entries[..i + 1][..i] == entries[..i];
  }

  /** The cookie map of one more value adds that value to the map. */
  lemma CookieMapSnoc(cs: seq<SetCookie>, c: SetCookie)
    ensures CookieMap(cs + [c]) == AddCookie(CookieMap(cs), c)
  {
    assert (cs + [c])[..|cs|] == cs;
  }

  /** `setCookieList.forEach(...)`: one pass over the values, writing into `cookies`. */
  method CollectCookies(entries: seq<string>, expired: Value -> bool) returns (r: Try<seq<Prop>>)
    ensures r == CookiesOf(entries, expired)
  {
    var cookies: seq<Prop> := [];
    ghost var parsed: seq<SetCookie> := [];
    for i := 0 to |entries|
      invariant ParseAll(entries[..i], expired) == Ok(parsed)
      invariant cookies == CookieMap(parsed)
    {
      var c := ParseSetCookie(entries[i], expired);
      ParseAllNext(entries, i, expired);
      if c.Threw? {
        ParseAllThrew(entries, i + 1, expired);
        return Threw(c.error);
      }
      var existing := Get(cookies, c.value.key);
      var byPath := Assign([Prop(c.value.path, EntryObject(c.value))], if Truthy(existing) then ByPath(existing) else []);
      ghost var before := cookies;
      cookies := Put(cookies, c.value.key, CookieObject(c.value, byPath));
      assert cookies == AddCookie(before, c.value);
      CookieMapSnoc(parsed, c.value);
      parsed := parsed + [c.value];
    }
    assert entries[..|entries|] == entries;
    return Ok(cookies);
  }

  /** `parseResponseCookies(headerLists)` */
  method ParseResponseCookies(headerLists: seq<Prop>, expired: Value -> bool) returns (r: Try<seq<Prop>>)
    ensures r == ResponseCookies(headerLists, expired)
  {
    var list := SetCookieList(headerLists);
    if !Truthy(list) {
      return Ok([]);
    }
    if !list.Arr? {
      return Threw(ForEachNotAFunction);
    }
    r := CollectCookies(Texts(list.elems), expired);
  }

  // ---------------------------------------------------------------------------------------------
  // validateResponse, processResponse

  /** `expect(status, 'status').toSatisfy(statusMatches(expectedStatus))` */
  function StatusFailures(expectedStatus: Value, status: Value): (f: seq<string>)
    ensures |f| <= 1 && (|f| == 0 <==> HttpHelpers.StatusMatches(expectedStatus, status))
    ensures |f| == 1 ==>
              f[0] == ItemHelpers.Unsatisfied("status", ToText(expectedStatus), status)
  {
    ItemHelpers.ToSatisfy("status", status, (a: Value) => HttpHelpers.StatusMatches(expectedStatus, a), ToText(expectedStatus))
  }

  /** `expect(type, 'content-type').toEqual(expectedType)`, only when `expectedType` is set. */
  function TypeFailures(expectedType: Value, responseType: Value, looseEquals: (Value, Value) -> bool): (f: seq<string>)
    ensures |f| <= 1 && (|f| == 0 <==> !Truthy(expectedType) || looseEquals(expectedType, responseType))
  {
    if Truthy(expectedType) then
      ItemHelpers.ToEqual("content-type", responseType, ItemHelpers.Exactly(expectedType), looseEquals)
    else []
  }

  /** `expect(text, 'content-length').toSatisfy(lengthMatches(expectedLength))`, only when
      `checkLength` is set. */
  function LengthFailures(checkLength: Value, expectedLength: Value, text: string): (f: seq<string>)
    ensures |f| <= 1 && (|f| == 0 <==> !Truthy(checkLength) || LengthMatches(expectedLength, text))
    ensures |f| == 1 ==>
              f[0] == ItemHelpers.Unsatisfied("content-length", ToText(expectedLength), Str(text))
  {
    if Truthy(checkLength) then
      ItemHelpers.ToSatisfy("content-length", Str(text), (a: Value) => LengthMatches(expectedLength, ToText(a)), ToText(expectedLength))
    else []
  }

  /** `validateResponse(item, expectedLength, { status, type, text })`: the status check, then the
      type check when `expectedType` is set (with `==`, the parameter `looseEquals`), then the
      length check when `checkLength` is set. */
  function ValidateResponse(item: Value, expectedLength: Value, status: Value, responseType: Value, text: string,
                            looseEquals: (Value, Value) -> bool): (failures: seq<string>)
    ensures |failures| <= 3
    ensures |failures| == 0 <==>
              HttpHelpers.StatusMatches(Field(item, "expectedStatus"), status) &&
              (Truthy(Field(item, "expectedType")) ==> looseEquals(Field(item, "expectedType"), responseType)) &&
              (Truthy(Field(item, "checkLength")) ==> LengthMatches(expectedLength, text))
    ensures !HttpHelpers.StatusMatches(Field(item, "expectedStatus"), status) ==>
              failures[0] == ItemHelpers.Unsatisfied("status", ToText(Field(item, "expectedStatus")), status)
    ensures Truthy(Field(item, "checkLength")) && !LengthMatches(expectedLength, text) ==>
              failures[|failures| - 1] == ItemHelpers.Unsatisfied("content-length", ToText(expectedLength), Str(text))
  {
    StatusFailures(Field(item, "expectedStatus"), status) +
    TypeFailures(Field(item, "expectedType"), responseType, looseEquals) +
    LengthFailures(Field(item, "checkLength"), expectedLength, text)
  }

  /** Each failure with ` (METHOD url)` appended. */
  function Suffixed(failures: seq<string>, verb: string, url: string): (r: seq<string>)
    ensures |r| == |failures|
    ensures forall i | 0 <= i < |failures| :: r[i] == failures[i] + " (" + verb + " " + url + ")"
  {
    if |failures| == 0 then [] else [failures[0] + " (" + verb + " " + url + ")"] + Suffixed(failures[1..], verb, url)
  }

  /** `responseDetails`: `{ headers, cookies, status, statusText, length, text, json }` */
  function ResponseObject(headers: seq<Prop>, cookies: seq<Prop>, status: Value, statusText: Value, length: nat,
                          text: Value, json: Value): (r: Value)
    ensures r.Obj?
    ensures Field(r, "headers") == Obj(headers) && Field(r, "cookies") == Obj(cookies)
    ensures Field(r, "status") == status && Field(r, "length") == Num(length)
    ensures Field(r, "text") == text && Field(r, "json") == json
  {
    var ps := [Prop("headers", Obj(headers)), Prop("cookies", Obj(cookies)), Prop("status", status),
               Prop("statusText", statusText), Prop("length", Num(length)), Prop("text", text), Prop("json", json)];
    GetAt(ps, 0);
    GetAt(ps, 1);
    GetAt(ps, 2);
    GetAt(ps, 4);
    GetAt(ps, 5);
    GetAt(ps, 6);
    Obj(ps)
  }

  /** `{ outcome, failures, message, response, details }` */
  function ResultObject(failures: seq<string>, message: string, response: Value, details: Value): (r: Value)
    ensures r.Obj?
    ensures Field(r, "outcome") == Str(if |failures| > 0 then "FAILURE" else "SUCCESS")
    ensures Field(r, "failures") == Arr(StrValues(failures))
    ensures Field(r, "message") == Str(message) && Field(r, "response") == response
    ensures Field(r, "details") == details
  {
    var ps := [Prop("outcome", Str(if |failures| > 0 then "FAILURE" else "SUCCESS")),
               Prop("failures", Arr(StrValues(failures))), Prop("message", Str(message)), Prop("response", response),
               Prop("details", details)];
    GetAt(ps, 0);
    GetAt(ps, 1);
    GetAt(ps, 2);
    GetAt(ps, 3);
    GetAt(ps, 4);
    Obj(ps)
  }

  /** `details`: `{ requestBody, requestHeaders, ...responseDetails }`. */
  function DetailsObject(requestBody: Value, requestHeaders: Value, response: Value): (d: Value)
    requires response.Obj?
    ensures Field(d, "requestBody") == requestBody && Field(d, "requestHeaders") == requestHeaders
    ensures forall k | k != "requestBody" && k != "requestHeaders" :: Field(d, k) == Field(response, k)
  {
    var ps := [Prop("requestBody", requestBody), Prop("requestHeaders", requestHeaders)] + response.props;
    assert "requestBody"[7] != "requestHeaders"[7];
    assert Get(ps, "requestHeaders") == Get(ps[1..], "requestHeaders") == requestHeaders;
    forall k | k != "requestBody" && k != "requestHeaders" ensures Get(ps, k) == Get(response.props, k) {
      assert ps[1..][1..] == response.props;
    }
    Obj(ps)
  }

  /** The response headers of a request result. */
  function ResponseHeaderMap(pairs: seq<Header>): (r: seq<Prop>)
    ensures UniqueKeys(r)
    ensures forall key | |NamedValues(pairs, key)| > 0 :: Get(r, key) == Str(Join(NamedValues(pairs, key), ", "))
  {
    GroupedArrays(pairs);
    assert forall key | |NamedValues(pairs, key)| > 0 ::
      Get(HeadersMap(Grouped(pairs)), key) == Str(Join(NamedValues(pairs, key), ", ")) by {
      forall key | |NamedValues(pairs, key)| > 0
        ensures Get(HeadersMap(Grouped(pairs)), key) == Str(Join(NamedValues(pairs, key), ", "))
      {
        ResponseHeaders(pairs, key);
      }
    }
    HeadersMap(Grouped(pairs))
  }

  /** `processResponse(item, response, requestOptions)` in an edition, for a response with the
      given status, header pairs and body text; `limit` is the item's `limit` (`None` for `null`),
      `requestBody` and `requestHeaders` the request options' `body` (`undefined` when there is
      none) and `headers`. The options object has no `jsonBody`, so `requestOptions.jsonBody ||
      applyLimit(requestOptions.body)` is always the limited body. */
  function ProcessResponse(edition: Edition, item: Value, limit: Option<int>, status: Value, statusText: Value,
                           pairs: seq<Header>, text: string, requestBody: Value, requestHeaders: Value,
                           expired: Value -> bool, looseEquals: (Value, Value) -> bool,
                           parse: string -> Try<Value>): (r: Try<Value>)
    ensures ResponseCookies(Grouped(pairs), expired).Threw? ==> r.Threw?
    ensures r.Ok? ==> ParseResponseType(ResponseHeaderMap(pairs)).Ok?
    ensures r.Ok? ==>
              var checks := ValidateResponse(item, Get(ResponseHeaderMap(pairs), "content-length"), status,
                                             ParseResponseType(ResponseHeaderMap(pairs)).value, text, looseEquals);
              Field(r.value, "outcome") == Str(if |checks| > 0 then "FAILURE" else "SUCCESS") &&
              Field(r.value, "failures") ==
                Arr(StrValues(Suffixed(checks, ToText(Field(item, "method")), ToText(Field(item, "url"))))) &&
              Field(r.value, "message") == Str(ToText(status) + ", received " + NatToString(ByteLength(text)) +
                                               " bytes from " + ToText(Field(item, "url")))
    ensures r.Ok? ==> var response := Field(r.value, "response");
              Field(response, "text") == ApplyLimit(Str(text), limit) &&
              Field(response, "length") == Num(|text|) &&
              Field(response, "headers") == Obj(ResponseHeaderMap(pairs))
  {
    var headers := ResponseHeaderMap(pairs);
    var cookies := ResponseCookies(Grouped(pairs), expired);
    var responseType := ParseResponseType(headers);
    if cookies.Threw? then Threw(cookies.error)
    else if responseType.Threw? then Threw(responseType.error)
    else
      var checks := ValidateResponse(item, Get(headers, "content-length"), status, responseType.value, text, looseEquals);
      var failures := Suffixed(checks, ToText(Field(item, "method")), ToText(Field(item, "url")));
      var json := LimitToJson(edition, responseType.value, text, limit, parse);
      if json.Threw? then Threw(json.error)
      else
        var response := ResponseObject(headers, cookies.value, status, statusText, |text|, ApplyLimit(Str(text), limit), json.value);
        var message := ToText(status) + ", received " + NatToString(ByteLength(text)) + " bytes from " + ToText(Field(item, "url"));
        var details := DetailsObject(ApplyLimit(requestBody, limit), requestHeaders, response);
        Ok(ResultObject(failures, message, response, details))
  }

  /** The parsed body is the edition's `applyLimitToJson`, whose throw is the only one left once
      cookies and content type are read; `details` holds the limited request body, the request
      headers and every field of `response`. */
  lemma ProcessResponseDetails(edition: Edition, item: Value, limit: Option<int>, status: Value, statusText: Value,
                               pairs: seq<Header>, text: string, requestBody: Value, requestHeaders: Value,
                               expired: Value -> bool, looseEquals: (Value, Value) -> bool, parse: string -> Try<Value>)
    requires ResponseCookies(Grouped(pairs), expired).Ok? && ParseResponseType(ResponseHeaderMap(pairs)).Ok?
    ensures var r := ProcessResponse(edition, item, limit, status, statusText, pairs, text, requestBody, requestHeaders,
                                     expired, looseEquals, parse);
      var json := LimitToJson(edition, ParseResponseType(ResponseHeaderMap(pairs)).value, text, limit, parse);
      (r.Threw? <==> json.Threw?) &&
      (r.Ok? ==>
        Field(Field(r.value, "response"), "json") == json.value &&
        Field(Field(r.value, "details"), "requestBody") == ApplyLimit(requestBody, limit) &&
        Field(Field(r.value, "details"), "requestHeaders") == requestHeaders &&
        forall k | k != "requestBody" && k != "requestHeaders" ::
          Field(Field(r.value, "details"), k) == Field(Field(r.value, "response"), k))
  {
  }

  // ---------------------------------------------------------------------------------------------
  // Network errors

  /** What `makeRequest` does when `fetch` rejects: poll again while the polling window is open,
      otherwise settle with a `FAILURE` result. */
  datatype Attempt = Retry | Settle(result: Value)

  function OnFetchError(err: Value, elapsedMs: int, pollForMs: int, verb: string, url: string): (a: Attempt)
    ensures a.Retry? <==> pollForMs > elapsedMs
    ensures a.Settle? ==> Field(a.result, "outcome") == Str("FAILURE")
    ensures a.Settle? ==> Field(a.result, "failures") == Arr([Str(ToText(err) + " (" + verb + " " + url + ")")])
  {
    if pollForMs > elapsedMs then Retry
    else
      var ps := [Prop("outcome", Str("FAILURE")), Prop("failures", Arr([Str(ToText(err) + " (" + verb + " " + url + ")")]))];
      GetPair(ps, "outcome");
      GetPair(ps, "failures");
      Settle(Obj(ps))
  }
}
