/** HTTP helpers shared by the request plugins and the REST service: case-insensitive header lookup,
    status patterns, cookie unquoting, request header and cookie composition, and the two record
    stream writers (a JSON array and an RFC 7464 JSON text sequence). */
module HttpHelpers {
  import opened Strings
  import opened Values

  const JSON := "application/json"
  const JSON_SEQ := "application/json-seq"
  const CONTENT_TYPE := "Content-Type"
  /** The record separator of RFC 7464, section 2. */
  const RS: char := '\U{001E}'

  // ---------------------------------------------------------------------------------------------
  // getIgnoreCase, hasIgnoreCase

  predicate SameIgnoringCase(a: string, b: string)
  {
    Lower(a) == Lower(b)
  }

  /** `hasIgnoreCase(object, key)` */
  predicate HasIgnoreCase(ps: seq<Prop>, key: string)
    ensures Has(ps, key) ==> HasIgnoreCase(ps, key)
    ensures Has(ps, Lower(key)) ==> HasIgnoreCase(ps, key)
  {
    assert Has(ps, Lower(key)) ==> exists i | 0 <= i < |ps| :: SameIgnoringCase(ps[i].key, key) by {
      if Has(ps, Lower(key)) {
        var i :| 0 <= i < |ps| && ps[i].key == Lower(key);
        assert Lower(Lower(key)) == Lower(key);
      }
    }
    exists i | 0 <= i < |ps| :: SameIgnoringCase(ps[i].key, key)
  }

  /** The position of the first key equal to `key` ignoring case. */
  function FirstIgnoringCase(ps: seq<Prop>, key: string): (r: Option<nat>)
    ensures r.None? <==> !HasIgnoreCase(ps, key)
    ensures r.Some? ==> r.value < |ps| && SameIgnoringCase(ps[r.value].key, key) &&
                        forall i | 0 <= i < r.value :: !SameIgnoringCase(ps[i].key, key)
  {
    if |ps| == 0 then None
    else if SameIgnoringCase(ps[0].key, key) then Some(0)
    else
      var rest := FirstIgnoringCase(ps[1..], key);
      assert forall i | 1 <= i < |ps| :: ps[i] == ps[1..][i - 1];
      if rest.None? then None else Some(rest.value + 1)
  }

  /** `getIgnoreCase(object, key, fallback)`: the matching keys' values in key order, then the
      fallback; the first of these. */
  function GetIgnoreCase(ps: seq<Prop>, key: string, fallback: Value): (r: Value)
    ensures !HasIgnoreCase(ps, key) ==> r == fallback
    ensures HasIgnoreCase(ps, key) ==>
              exists i | 0 <= i < |ps| ::
                SameIgnoringCase(ps[i].key, key) && r == ps[i].val && forall j | 0 <= j < i :: !SameIgnoringCase(ps[j].key, key)
  {
    var matching := MatchingValues(ps, key);
    (matching + [fallback])[0]
  }

  /** `Object.keys(object).filter(k => k.toLowerCase() === search).map(k => object[k])` */
  function MatchingValues(ps: seq<Prop>, key: string): (vs: seq<Value>)
    ensures |vs| == 0 <==> !HasIgnoreCase(ps, key)
    ensures |vs| > 0 ==> var i := FirstIgnoringCase(ps, key).value; vs[0] == ps[i].val
  {
    if |ps| == 0 then []
    else
      var rest := MatchingValues(ps[1..], key);
      assert forall i | 1 <= i < |ps| :: ps[i] == ps[1..][i - 1];
      if SameIgnoringCase(ps[0].key, key) then [ps[0].val] + rest else rest
  }

  // ---------------------------------------------------------------------------------------------
  // statusMatches

  /** One comma-separated part of the expected pattern: every character is `x` in any case or
      equals the status text's character at the same position. */
  predicate PartMatches(part: string, actual: string)
  {
    forall i | 0 <= i < |part| :: LowerChar(part[i]) == 'x' || (i < |actual| && actual[i] == part[i])
  }

  /** `statusMatches(expected)(actual)` */
  predicate StatusMatches(expected: Value, actual: Value)
    ensures ToText(expected) == ToText(actual) && !Contains(ToText(expected), ',') ==> StatusMatches(expected, actual)
  {
    var parts := Split(ToText(expected), ",");
    assert ToText(expected) == ToText(actual) && !Contains(ToText(expected), ',') ==>
           PartMatches(parts[0], ToText(actual)) by {
      if !Contains(ToText(expected), ',') {
        SplitFree(ToText(expected), ',');
      }
    }
    exists k | 0 <= k < |parts| :: PartMatches(parts[k], ToText(actual))
  }

  /** `xxx` accepts every status. */
  lemma AnyStatus(actual: Value)
    ensures StatusMatches(Str("xxx"), actual)
  {
    SplitFree("xxx", ',');
    var parts := Split("xxx", ",");
    assert parts[0] == "xxx";
    assert PartMatches(parts[0], ToText(actual));
  }

  /** `2xx` accepts exactly the statuses whose text starts with `2`. */
  lemma TwoXX(actual: Value)
    ensures StatusMatches(Str("2xx"), actual) <==> |ToText(actual)| >= 1 && ToText(actual)[0] == '2'
  {
    SplitFree("2xx", ',');
    var parts := Split("2xx", ",");
    assert parts == ["2xx"];
    TwoXXText(ToText(actual));
    assert StatusMatches(Str("2xx"), actual) <==> PartMatches(parts[0], ToText(actual));
  }

  lemma TwoXXText(a: string)
    ensures PartMatches("2xx", a) <==> |a| >= 1 && a[0] == '2'
  {
    var p := "2xx";
    assert p[0] == '2' && LowerChar('2') == '2' && LowerChar('x') == 'x' && p[1] == 'x' && p[2] == 'x';
    if |a| >= 1 && a[0] == '2' {
      assert PartMatches(p, a);
    } else {
      assert !(LowerChar(p[0]) == 'x' || (0 < |a| && a[0] == p[0]));
    }
  }

  /** A number as its own pattern accepts that number. */
  lemma ExactStatus(status: int)
    ensures StatusMatches(Num(status), Num(status))
  {
    var s := IntToString(status);
    SplitFree(s, ',');
    assert PartMatches(Split(s, ",")[0], s);
  }

  // ---------------------------------------------------------------------------------------------
  // unquoted

  /** `unquoted(cookieVal)`: one surrounding pair of double quotes is removed. */
  function Unquoted(s: string): (r: string)
    ensures |s| >= 2 && s[0] == '"' && s[|s| - 1] == '"' ==> r == s[1..|s| - 1]
    ensures !(|s| >= 1 && s[0] == '"' && s[|s| - 1] == '"') ==> r == s
  {
    if |s| >= 1 && s[0] == '"' && s[|s| - 1] == '"' then
      if |s| >= 2 then s[1..|s| - 1] else ""
    else s
  }

  lemma UnquotedQuoted(s: string)
    ensures Unquoted("\"" + s + "\"") == s
  {
    var q := "\"" + s + "\"";
    assert q[1..|q| - 1] == s;
  }

  // ---------------------------------------------------------------------------------------------
  // composeRequestHeaders

  /** `{ ...ps, ...(present ? { [key]: val } : {}) }` */
  function SpreadOne(ps: seq<Prop>, present: bool, key: string, val: Value): (r: seq<Prop>)
    ensures forall k :: Has(r, k) <==> Has(ps, k) || (present && k == key)
    ensures forall k :: Get(r, k) == if present && k == key then val else Get(ps, k)
  {
    var extra := if present then [Prop(key, val)] else [];
    forall k ensures (Has(Assign(ps, extra), k) <==> Has(ps, k) || (present && k == key)) &&
                     Get(Assign(ps, extra), k) == if present && k == key then val else Get(ps, k) {
      AssignGet(ps, extra, k);
      LastGetSingle(extra, k);
    }
    Assign(ps, extra)
  }

  /** The headers as they are spread into a fresh object: the last value of every key. */
  function SpreadHeaders(headers: seq<Prop>): (r: seq<Prop>)
    ensures forall k :: Has(r, k) <==> Has(headers, k)
    ensures forall k :: Get(r, k) == LastGet(headers, k)
  {
    forall k ensures (Has(Assign([], headers), k) <==> Has(headers, k)) && Get(Assign([], headers), k) == LastGet(headers, k) {
      AssignGet([], headers, k);
      HasEmptyGet(headers, k);
    }
    Assign([], headers)
  }

  /** The headers with `Accept`, `Content-Type` and `Cookie` added as decided. */
  function WithDefaults(headers: seq<Prop>, addAccept: bool, accept: Value, addType: bool, contentType: Value,
                        addCookie: bool, cookie: Value): (r: seq<Prop>)
    ensures forall k :: Has(r, k) <==>
              Has(headers, k) || (k == "Accept" && addAccept) || (k == "Content-Type" && addType) ||
              (k == "Cookie" && addCookie)
    ensures addAccept ==> Get(r, "Accept") == accept
    ensures addType ==> Get(r, "Content-Type") == contentType
    ensures addCookie ==> Get(r, "Cookie") == cookie
    ensures forall k | k != "Accept" && k != "Content-Type" && k != "Cookie" :: Get(r, k) == LastGet(headers, k)
    ensures !addAccept ==> Get(r, "Accept") == LastGet(headers, "Accept")
    ensures Has(r, "Content-Type") <==> Has(headers, "Content-Type") || addType
  {
    var r1 := SpreadOne(SpreadHeaders(headers), addAccept, "Accept", accept);
    var r2 := SpreadOne(r1, addType, "Content-Type", contentType);
    assert "Accept" != "Cookie" by { assert "Accept"[1] != "Cookie"[1]; }
    assert "Accept" != "Content-Type" by { assert |"Accept"| != |"Content-Type"|; }
    assert "Content-Type" != "Cookie" by { assert |"Cookie"| != |"Content-Type"|; }
    SpreadOne(r2, addCookie, "Cookie", cookie)
  }

  /** `composeRequestHeaders(headers, expectedType, contentType, cookiesList)`: `Accept` and
      `Content-Type` are added only when given and not already present under any letter case, and
      `Cookie` when there are cookies, joined by `; `. */
  function ComposeRequestHeaders(headers: seq<Prop>, expectedType: Value, contentType: Value, cookies: seq<string>)
    : (r: seq<Prop>)
    ensures forall k :: Has(r, k) <==>
              Has(headers, k) ||
              (k == "Accept" && Truthy(expectedType) && !HasIgnoreCase(headers, "accept")) ||
              (k == "Content-Type" && Truthy(contentType) && !HasIgnoreCase(headers, "content-type")) ||
              (k == "Cookie" && |cookies| > 0)
    ensures Truthy(expectedType) && !HasIgnoreCase(headers, "accept") ==> Get(r, "Accept") == expectedType
    ensures Truthy(contentType) && !HasIgnoreCase(headers, "content-type") ==> Get(r, "Content-Type") == contentType
    ensures |cookies| > 0 ==> Get(r, "Cookie") == Str(Join(cookies, "; "))
    ensures forall k | k != "Accept" && k != "Content-Type" && k != "Cookie" :: Get(r, k) == LastGet(headers, k)
    ensures !Truthy(expectedType) || HasIgnoreCase(headers, "accept") ==> Get(r, "Accept") == LastGet(headers, "Accept")
  {
    WithDefaults(headers, Truthy(expectedType) && !HasIgnoreCase(headers, "accept"), expectedType,
                 Truthy(contentType) && !HasIgnoreCase(headers, "content-type"), contentType,
                 |cookies| > 0, Str(Join(cookies, "; ")))
  }

  /** Without a `Content-Type` under any letter case, one is added exactly when a content type is given. */
  lemma ContentTypeDefault(headers: seq<Prop>, expectedType: Value, contentType: Value, cookies: seq<string>)
    requires !HasIgnoreCase(headers, "content-type")
    ensures Has(ComposeRequestHeaders(headers, expectedType, contentType, cookies), "Content-Type") <==>
              Has(headers, "Content-Type") || Truthy(contentType)
  {
    ContentTypeKey(headers, expectedType, contentType, cookies);
  }

  /** `Content-Type` is present after composing iff it was given or is added. */
  lemma ContentTypeKey(headers: seq<Prop>, expectedType: Value, contentType: Value, cookies: seq<string>)
    ensures Has(ComposeRequestHeaders(headers, expectedType, contentType, cookies), "Content-Type") <==>
              Has(headers, "Content-Type") || (Truthy(contentType) && !HasIgnoreCase(headers, "content-type"))
  {
    var addAccept := Truthy(expectedType) && !HasIgnoreCase(headers, "accept");
    var addType := Truthy(contentType) && !HasIgnoreCase(headers, "content-type");
    var w := WithDefaults(headers, addAccept, expectedType, addType, contentType, |cookies| > 0, Str(Join(cookies, "; ")));
    assert ComposeRequestHeaders(headers, expectedType, contentType, cookies) == w;
  }

  lemma LastGetSingle(ps: seq<Prop>, k: string)
    requires |ps| <= 1
    ensures LastGet(ps, k) == Get(ps, k)
    ensures Has(ps, k) <==> |ps| == 1 && ps[0].key == k
  {
    if |ps| == 1 {
      assert !Has(ps[1..], k);
    }
  }

  lemma HasEmptyGet(headers: seq<Prop>, k: string)
    ensures !Has(headers, k) ==> LastGet(headers, k) == Undefined
    decreases |headers|
  {
    if |headers| > 0 && !Has(headers, k) {
      HasTail(headers, k);
      HasEmptyGet(headers[1..], k);
    }
  }

  // ---------------------------------------------------------------------------------------------
  // composeRequestCookies

  /** `typeof v === 'object'` */
  predicate IsObjectType(v: Value)
  {
    v.Null? || v.Arr? || v.Obj? || v.Error?
  }

  const NullCookieError := Error("TypeError: Cannot read properties of null (reading 'byPath')")
  const NullByPathError := Error("TypeError: Cannot convert undefined or null to object")
  const NullEntryError := Error("TypeError: Cannot read properties of undefined (reading 'value')")

  /** `cookiesPath === ANY || cookiesPath.indexOf(path) === 0`; no URL means any path. */
  predicate PathApplies(urlPath: Option<string>, path: string)
  {
    urlPath.None? || StartsWith(urlPath.value, path)
  }

  /** `_.value !== '' && _.value != null` */
  predicate HasValue(entry: Value)
  {
    !StrictEquals(Field(entry, "value"), Str("")) && !IsNullish(Field(entry, "value"))
  }

  predicate Candidate(urlPath: Option<string>, p: Prop)
  {
    PathApplies(urlPath, p.key) && HasValue(p.val)
  }

  /** The entry the sort by path length and `pop()` select: the longest applicable path with a
      value, the later one in key order among equally long ones. */
  function Longest(urlPath: Option<string>, paths: seq<Prop>): (r: Option<nat>)
    ensures r.Some? ==> r.value < |paths| && Candidate(urlPath, paths[r.value])
    ensures r.None? <==> forall i | 0 <= i < |paths| :: !Candidate(urlPath, paths[i])
    ensures r.Some? ==> forall i | 0 <= i < |paths| && Candidate(urlPath, paths[i]) ::
              |paths[i].key| < |paths[r.value].key| || (|paths[i].key| == |paths[r.value].key| && i <= r.value)
    decreases |paths|
  {
    if |paths| == 0 then None
    else
      var n := |paths| - 1;
      var prev := Longest(urlPath, paths[..n]);
      assert forall i | 0 <= i < n :: paths[..n][i] == paths[i];
      if Candidate(urlPath, paths[n]) && (prev.None? || |paths[n].key| >= |paths[prev.value].key|) then Some(n)
      else prev
  }

  /** One cookie of `composeRequestCookies`: `None` when a by-path cookie has no applicable value. */
  function CookieText(urlPath: Option<string>, name: string, v: Value, enc: string -> string): (r: Try<Option<string>>)
    ensures !IsObjectType(v) ==> r == Ok(Some(enc(name) + "=" + enc(ToText(v))))
    ensures v.Null? ==> r.Threw?
  {
    if IsObjectType(v) then
      if v.Null? then Threw(NullCookieError)
      else
        var byPath := Field(v, "byPath");
        if !IsObjectType(byPath) then Ok(Some(enc(name) + "=" + enc(ToText(v))))
        else if byPath.Null? then Threw(NullByPathError)
        else
          var paths := SpreadProps(byPath);
          if exists i | 0 <= i < |paths| :: PathApplies(urlPath, paths[i].key) && IsNullish(paths[i].val) then
            Threw(NullEntryError)
          else
            var best := Longest(urlPath, paths);
            if best.None? then Ok(None)
            else Ok(Some(enc(name) + "=" + ToText(Field(paths[best.value].val, "value"))))
    else Ok(Some(enc(name) + "=" + enc(ToText(v))))
  }

  /** `composeRequestCookies(url, cookies)`, with the URL already reduced to its path (or absent). */
  function ComposeRequestCookies(urlPath: Option<string>, cookies: seq<Prop>, enc: string -> string)
    : (r: Try<seq<string>>)
    ensures r.Ok? ==> |r.value| <= |cookies|
    ensures (forall i | 0 <= i < |cookies| :: !IsObjectType(cookies[i].val)) ==>
              r.Ok? && |r.value| == |cookies|
  {
    if |cookies| == 0 then Ok([])
    else
      var first := CookieText(urlPath, cookies[0].key, cookies[0].val, enc);
      if first.Threw? then Threw(first.error)
      else
        var rest := ComposeRequestCookies(urlPath, cookies[1..], enc);
        if rest.Threw? then rest
        else if first.value.Some? then Ok([first.value.value] + rest.value)
        else rest
  }

  /** Each cookie's own text, in cookie order, independently of the others. */
  function EachCookie(urlPath: Option<string>, cookies: seq<Prop>, enc: string -> string): (ts: seq<Try<Option<string>>>)
    ensures |ts| == |cookies|
    ensures forall i | 0 <= i < |cookies| :: ts[i] == CookieText(urlPath, cookies[i].key, cookies[i].val, enc)
  {
    seq(|cookies|, i requires 0 <= i < |cookies| => CookieText(urlPath, cookies[i].key, cookies[i].val, enc))
  }

  /** The texts that are present, in order. */
  function Present(ts: seq<Try<Option<string>>>): seq<string>
  {
    if |ts| == 0 then []
    else (if ts[0].Ok? && ts[0].value.Some? then [ts[0].value.value] else []) + Present(ts[1..])
  }

  /** The header holds exactly the cookies that have a text, in cookie order; it is built when
      every cookie's text is. */
  lemma {:induction false} ComposedCookies(urlPath: Option<string>, cookies: seq<Prop>, enc: string -> string)
    ensures var r := ComposeRequestCookies(urlPath, cookies, enc);
      var ts := EachCookie(urlPath, cookies, enc);
      (r.Ok? <==> forall i | 0 <= i < |ts| :: ts[i].Ok?) &&
      (r.Ok? ==> r.value == Present(ts))
  {
    if |cookies| > 0 {
      ComposedCookies(urlPath, cookies[1..], enc);
      var ts := EachCookie(urlPath, cookies, enc);
      assert ts[1..] == EachCookie(urlPath, cookies[1..], enc);
    }
  }

  /** A cookie whose text throws makes the whole composition throw with the first such error. */
  lemma {:induction false} ComposedCookiesThrow(urlPath: Option<string>, cookies: seq<Prop>, enc: string -> string)
    requires ComposeRequestCookies(urlPath, cookies, enc).Threw?
    ensures var ts := EachCookie(urlPath, cookies, enc);
      exists i | 0 <= i < |ts| :: ts[i].Threw? && ComposeRequestCookies(urlPath, cookies, enc).error == ts[i].error &&
        forall j | 0 <= j < i :: ts[j].Ok?
  {
    var ts := EachCookie(urlPath, cookies, enc);
    if ts[0].Ok? {
      ComposedCookiesThrow(urlPath, cookies[1..], enc);
      var rest := EachCookie(urlPath, cookies[1..], enc);
      assert rest == ts[1..];
      var i :| 0 <= i < |rest| && rest[i].Threw? && ComposeRequestCookies(urlPath, cookies[1..], enc).error == rest[i].error &&
               forall j | 0 <= j < i :: rest[j].Ok?;
      assert ts[i + 1] == rest[i];
      assert forall j | 1 <= j < i + 1 :: ts[j] == rest[j - 1];
    }
  }

  /** A by-path cookie sends the value of its longest applicable path that has one. */
  lemma ByPathPicksLongest(urlPath: Option<string>, name: string, paths: seq<Prop>, enc: string -> string)
    requires forall i | 0 <= i < |paths| :: !IsNullish(paths[i].val)
    requires exists i | 0 <= i < |paths| :: Candidate(urlPath, paths[i])
    ensures var r := CookieText(urlPath, name, Obj([Prop("byPath", Obj(paths))]), enc);
            r.Ok? && r.value.Some? &&
            exists i | 0 <= i < |paths| :: Candidate(urlPath, paths[i]) &&
              r.value.value == enc(name) + "=" + ToText(Field(paths[i].val, "value")) &&
              forall j | 0 <= j < |paths| && Candidate(urlPath, paths[j]) :: |paths[j].key| <= |paths[i].key|
  {
    var v := Obj([Prop("byPath", Obj(paths))]);
    assert Field(v, "byPath") == Obj(paths);
  }

  // ---------------------------------------------------------------------------------------------
  // The record stream writers

  /** `{ ...headers, 'Content-Type': type }`, the headers of the 200 response. */
  function HeadHeaders(headers: seq<Prop>, contentType: string): (r: seq<Prop>)
    ensures Get(r, CONTENT_TYPE) == Str(contentType)
  {
    PutGet(Assign([], headers), CONTENT_TYPE, Str(contentType), CONTENT_TYPE);
    Put(Assign([], headers), CONTENT_TYPE, Str(contentType))
  }

  /** What `write(record)` adds after the first piece: the JSON text, or nothing when
      `JSON.stringify` gives `undefined` (the response's `write` then throws). */
  function Piece(text: Option<string>): string
  {
    if text.Some? then text.value else ""
  }

  /** The body of a JSON-sequence response after the given write calls: an RS when anything was
      written, then every JSON text followed by a newline and an RS. */
  function SeqBody(texts: seq<Option<string>>): (body: string)
    ensures |texts| == 0 <==> body == ""
    ensures |texts| > 0 ==> body[0] == RS && body[|body| - 1] == RS
  {
    if |texts| == 0 then "" else [RS] + SeqRecords(texts)
  }

  function SeqRecords(texts: seq<Option<string>>): (records: string)
    ensures records == "" || records[|records| - 1] == RS
  {
    if |texts| == 0 then ""
    else
      var n := |texts| - 1;
      SeqRecords(texts[..n]) + (if texts[n].Some? then texts[n].value + "\n" + [RS] else "")
  }

  /** A record appended after a written one leaves only the last record possibly without text. */
  lemma AllButLastSnoc(texts: seq<Option<string>>, t: Option<string>)
    requires forall i | 0 <= i < |texts| - 1 :: texts[i].Some?
    requires |texts| == 0 || texts[|texts| - 1].Some?
    ensures forall i | 0 <= i < |texts + [t]| - 1 :: (texts + [t])[i].Some?
  {
  }

  lemma SeqBodySnoc(texts: seq<Option<string>>, t: Option<string>)
    ensures SeqBody(texts + [t]) ==
              (if |texts| == 0 then [RS] else SeqBody(texts)) + (if t.Some? then t.value + "\n" + [RS] else "")
  {
    var ts := texts + [t];
    assert ts[..|texts|] == texts;
    var piece := if t.Some? then t.value + "\n" + [RS] else "";
    assert SeqRecords(ts) == SeqRecords(texts) + piece;
    if |texts| == 0 {
      assert SeqRecords(texts) == "";
    } else {
      assert [RS] + (SeqRecords(texts) + piece) == [RS] + SeqRecords(texts) + piece;
    }
  }

  /** `jsonSeqWriter(response, headers)`; the response is recorded in `status`, `sentHeaders`,
      `body` and `ended`. */
  class JsonSeqWriter {
    const headers: seq<Prop>
    var headerSent: bool
    var status: Option<int>
    var sentHeaders: seq<Prop>
    var body: string
    var ended: bool
    /** The results of `JSON.stringify` of every record written so far. */
    ghost var texts: seq<Option<string>>

    ghost predicate Valid()
      reads this
    {
      (headerSent <==> |texts| > 0) &&
      (headerSent ==> status == Some(200) && sentHeaders == HeadHeaders(headers, JSON_SEQ)) &&
      (!headerSent && !ended ==> status.None?) &&
      (forall i | 0 <= i < |texts| - 1 :: texts[i].Some?) &&
      body == SeqBody(texts)
    }

    constructor (headers: seq<Prop>)
      ensures Valid() && this.headers == headers && !ended && texts == [] && body == ""
    {
      this.headers := headers;
      headerSent := false;
      status := None;
      sentHeaders := [];
      body := "";
      ended := false;
      texts := [];
    }

    /** `write(record)`; `false` when the record has no JSON text and the response's `write` throws,
        after which the writer is not used again. */
    method Write(record: Value) returns (ok: bool)
      requires Valid() && !ended
      requires |texts| == 0 || texts[|texts| - 1].Some?
      modifies this
      ensures Valid() && !ended
      ensures ok <==> Json(record).Some?
      ensures texts == old(texts) + [Json(record)]
    {
      var text := Json(record);
      SeqBodySnoc(texts, text);
      AllButLastSnoc(texts, text);
      if !headerSent {
        status := Some(200);
        sentHeaders := HeadHeaders(headers, JSON_SEQ);
        headerSent := true;
        body := [RS];
      }
      texts := texts + [text];
      // A record without JSON text makes the response's `write` throw: nothing is appended.
      var piece := if text.Some? then text.value + "\n" + [RS] else "";
      body := body + piece;
      ok := text.Some?;
    }

    /** `end()`: 204 when nothing was written. */
    method End()
      requires Valid() && !ended
      modifies this
      ensures Valid() && ended && texts == old(texts) && body == old(body)
      ensures status == if |texts| == 0 then Some(204) else Some(200)
    {
      if !headerSent {
        status := Some(204);
      }
      ended := true;
    }
  }

  /** The body of a JSON-array response: `[` and a newline, the texts separated by a comma and a
      newline, and (once ended) a newline and `]`. */
  function ArrayBody(texts: seq<Option<string>>, ended: bool): (body: string)
    ensures |texts| == 0 <==> body == ""
    ensures |texts| > 0 ==> |body| >= 2 && body[..2] == "[\n"
    ensures |texts| > 0 && ended ==> |body| >= 4 && body[|body| - 2..] == "\n]"
  {
    if |texts| == 0 then "" else "[\n" + ArrayElems(texts) + (if ended then "\n]" else "")
  }

  function ArrayElems(texts: seq<Option<string>>): string
    requires |texts| > 0
  {
    var n := |texts| - 1;
    if n == 0 then Piece(texts[0]) else ArrayElems(texts[..n]) + ",\n" + Piece(texts[n])
  }

  lemma ArrayBodySnoc(texts: seq<Option<string>>, t: Option<string>)
    ensures ArrayBody(texts + [t], false) ==
              (if |texts| == 0 then "[\n" else ArrayBody(texts, false) + ",\n") + Piece(t)
  {
    assert (texts + [t])[..|texts|] == texts;
  }

  /** `jsonWriter(response, headers)` */
  class JsonWriter {
    const headers: seq<Prop>
    var headerSent: bool
    var status: Option<int>
    var sentHeaders: seq<Prop>
    var body: string
    var ended: bool
    ghost var texts: seq<Option<string>>

    ghost predicate Valid()
      reads this
    {
      (headerSent <==> |texts| > 0) &&
      (headerSent ==> status == Some(200) && sentHeaders == HeadHeaders(headers, JSON)) &&
      (!headerSent && !ended ==> status.None?) &&
      body == ArrayBody(texts, ended)
    }

    constructor (headers: seq<Prop>)
      ensures Valid() && this.headers == headers && !ended && texts == [] && body == ""
    {
      this.headers := headers;
      headerSent := false;
      status := None;
      sentHeaders := [];
      body := "";
      ended := false;
      texts := [];
    }

    method Write(record: Value) returns (ok: bool)
      requires Valid() && !ended
      modifies this
      ensures Valid() && !ended
      ensures ok <==> Json(record).Some?
      ensures texts == old(texts) + [Json(record)]
    {
      var text := Json(record);
      ArrayBodySnoc(texts, text);
      if !headerSent {
        status := Some(200);
        sentHeaders := HeadHeaders(headers, JSON);
        headerSent := true;
        body := "[\n";
      } else {
        body := body + ",\n";
      }
      texts := texts + [text];
      if text.None? {
        assert body + "" == body;
        return false;
      }
      body := body + text.value;
      ok := true;
    }

    method End()
      requires Valid() && !ended
      modifies this
      ensures Valid() && ended && texts == old(texts)
      ensures status == if |texts| == 0 then Some(204) else Some(200)
      ensures body == ArrayBody(texts, true)
    {
      if !headerSent {
        status := Some(204);
      } else {
        body := body + "\n]";
      }
      ended := true;
    }
  }

  /** When every record has a JSON text, the array body is the texts joined by a comma and a
      newline, between `[` and `]` lines. */
  lemma {:induction false} ArrayBodyJoin(texts: seq<string>)
    requires |texts| > 0
    ensures ArrayElems(SomeAll(texts)) == Join(texts, ",\n")
  {
    var n := |texts| - 1;
    var all := SomeAll(texts);
    if n == 0 {
      assert ArrayElems(all) == Piece(all[0]) == texts[0];
    } else {
      var init := texts[..n];
      assert all[..n] == SomeAll(init);
      assert ArrayElems(all) == ArrayElems(all[..n]) + ",\n" + Piece(all[n]);
      ArrayBodyJoin(init);
      JoinAppend(init, [texts[n]], ",\n");
      assert init + [texts[n]] == texts;
      assert Join([texts[n]], ",\n") == texts[n];
    }
  }

  function SomeAll(texts: seq<string>): (r: seq<Option<string>>)
    ensures |r| == |texts| && forall i | 0 <= i < |texts| :: r[i] == Some(texts[i])
  {
    if |texts| == 0 then [] else [Some(texts[0])] + SomeAll(texts[1..])
  }
}
