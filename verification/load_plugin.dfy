/** The `load` plugin: a load test driven by an external load generator. The generator itself is not
    part of this model; what is modelled is how the plugin prepares the request (payload, headers,
    cookies, concurrency), the tracker that counts every completed request and the responses that
    violate the expected content type or status, and the validation of the final summary. */
module LoadPlugin {
  import opened Strings
  import opened Values
  import HttpHelpers
  import ItemHelpers
  import RequestPlugin

  // ---------------------------------------------------------------------------------------------
  // createPayload

  /** The content type and request entity chosen from the item. */
  datatype Payload = Payload(contentType: Value, body: Value)

  /** `createPayload(item)`: a truthy `jsonBody` wins and is sent as JSON text; otherwise a truthy
      `randomBody` asks for that many random bytes, sent in base64 (the random source and its
      encoding are the parameter `randomBase64`); otherwise `body` is sent as it is, without a
      content type. */
  function CreatePayload(body: Value, jsonBody: Value, randomBody: Value, randomBase64: Value -> string): (p: Payload)
    ensures Truthy(jsonBody) ==> p == Payload(Str(HttpHelpers.JSON), Str(JsonText(jsonBody)))
    ensures Truthy(jsonBody) ==> Json(jsonBody) == Some(p.body.s)
    ensures !Truthy(jsonBody) && Truthy(randomBody) ==> p == Payload(Str("text/plain"), Str(randomBase64(randomBody)))
    ensures !Truthy(jsonBody) && !Truthy(randomBody) ==> p == Payload(Null, body)
    ensures Truthy(p.contentType) <==> Truthy(jsonBody) || Truthy(randomBody)
  {
    if Truthy(jsonBody) then Payload(Str(HttpHelpers.JSON), Str(JsonText(jsonBody)))
    else if Truthy(randomBody) then Payload(Str("text/plain"), Str(randomBase64(randomBody)))
    else Payload(Null, body)
  }

  // ---------------------------------------------------------------------------------------------
  // composeRequestHeaders and composeCookies

  /** `composeRequestHeaders(headers, expectedType, contentType)`: the shared header composition
      without cookies, which this plugin hands to the load generator separately. */
  function RequestHeaders(headers: seq<Prop>, expectedType: Value, contentType: Value): (r: seq<Prop>)
    ensures forall k :: Has(r, k) <==>
              Has(headers, k) ||
              (k == "Accept" && Truthy(expectedType) && !HttpHelpers.HasIgnoreCase(headers, "accept")) ||
              (k == "Content-Type" && Truthy(contentType) && !HttpHelpers.HasIgnoreCase(headers, "content-type"))
    ensures Truthy(expectedType) && !HttpHelpers.HasIgnoreCase(headers, "accept") ==> Get(r, "Accept") == expectedType
    ensures Truthy(contentType) && !HttpHelpers.HasIgnoreCase(headers, "content-type") ==>
              Get(r, "Content-Type") == contentType
    ensures forall k | k != "Accept" && k != "Content-Type" && k != "Cookie" :: Get(r, k) == LastGet(headers, k)
  {
    HttpHelpers.ComposeRequestHeaders(headers, expectedType, contentType, [])
  }

  /** With no content type of its own among the headers, the request declares one exactly when a
      JSON or random body is sent, and JSON bodies are declared as JSON. */
  lemma PayloadContentType(headers: seq<Prop>, expectedType: Value, body: Value, jsonBody: Value, randomBody: Value,
                           randomBase64: Value -> string)
    requires !HttpHelpers.HasIgnoreCase(headers, "content-type")
    ensures var p := CreatePayload(body, jsonBody, randomBody, randomBase64);
            Has(RequestHeaders(headers, expectedType, p.contentType), "Content-Type") <==>
              Has(headers, "Content-Type") || Truthy(jsonBody) || Truthy(randomBody)
    ensures Truthy(jsonBody) ==>
              var p := CreatePayload(body, jsonBody, randomBody, randomBase64);
              Get(RequestHeaders(headers, expectedType, p.contentType), "Content-Type") == Str(HttpHelpers.JSON)
  {
    var p := CreatePayload(body, jsonBody, randomBody, randomBase64);
    HttpHelpers.ContentTypeDefault(headers, expectedType, p.contentType, []);
  }

  /** One `name=value` pair of the cookie list. */
  function CookiePair(p: Prop): string
  {
    p.key + "=" + ToText(p.val)
  }

  /** `composeCookies(cookiesMap)`: one `name=value` text per cookie in key order, or `null` when
      there is none. */
  function ComposeCookies(cookies: seq<Prop>): (r: Value)
    ensures r.Null? <==> |cookies| == 0
    ensures !r.Null? ==> r.Arr? && |r.elems| == |cookies|
    ensures r.Arr? ==> forall i | 0 <= i < |cookies| :: r.elems[i] == Str(CookiePair(cookies[i]))
  {
    if |cookies| == 0 then Null
    else Arr(seq(|cookies|, i requires 0 <= i < |cookies| => Str(CookiePair(cookies[i]))))
  }

  /** A cookie name without `=` is what precedes the first `=` of its pair, so the receiver reads
      back every name. */
  lemma CookieNameBack(cookies: seq<Prop>, i: nat)
    requires i < |cookies| && !Contains(cookies[i].key, '=')
    ensures ComposeCookies(cookies).Arr?
    ensures Split(ComposeCookies(cookies).elems[i].s, "=")[0] == cookies[i].key
  {
    var p := cookies[i];
    assert CookiePair(p) == p.key + ['='] + ToText(p.val);
    SplitPrefix(p.key, ToText(p.val), '=');
  }

  // ---------------------------------------------------------------------------------------------
  // Concurrency

  /** `Math.min(parseInt(maxRequests, 10), parseInt(concurrency, 10))`; `None` is `NaN`, which
      either unparsable operand produces. */
  function Concurrency(maxRequests: Value, concurrency: Value): (r: Option<int>)
    ensures r.Some? <==> RequestPlugin.ParseInt(ToText(maxRequests)).Some? &&
                         RequestPlugin.ParseInt(ToText(concurrency)).Some?
    ensures r.Some? ==> r.value <= RequestPlugin.ParseInt(ToText(maxRequests)).value &&
                        r.value <= RequestPlugin.ParseInt(ToText(concurrency)).value
    ensures r.Some? ==> r.value == RequestPlugin.ParseInt(ToText(maxRequests)).value ||
                        r.value == RequestPlugin.ParseInt(ToText(concurrency)).value
  {
    match (RequestPlugin.ParseInt(ToText(maxRequests)), RequestPlugin.ParseInt(ToText(concurrency)))
    case (Some(m), Some(c)) => Some(if m <= c then m else c)
    case _ => None
  }

  /** With numeric settings, no more requests are in flight at once than are made in total. */
  lemma ConcurrencyClamp(maxRequests: nat, concurrency: nat)
    ensures Concurrency(Num(maxRequests), Num(concurrency)) ==
              Some(if maxRequests <= concurrency then maxRequests else concurrency)
  {
    RequestPlugin.ParseIntNat(maxRequests);
    RequestPlugin.ParseIntNat(concurrency);
  }

  // ---------------------------------------------------------------------------------------------
  // Violation counters

  /** The value that `counts[k] || 0` starts from: a stored count, else 0. */
  function Tally(v: Value): int
  {
    if v.Num? then v.n else 0
  }

  /** `counts[k] = counts[k] || 0; ++counts[k];` */
  function Bump(counts: seq<Prop>, k: string): (r: seq<Prop>)
    ensures forall j :: Has(r, j) <==> j == k || Has(counts, j)
    ensures forall j :: Get(r, j) == if j == k then Num(Tally(Get(counts, k)) + 1) else Get(counts, j)
    ensures (forall i | 0 <= i < |counts| :: counts[i].val.Num?) ==> forall i | 0 <= i < |r| :: r[i].val.Num?
    ensures UniqueKeys(counts) ==> UniqueKeys(r)
  {
    var v := Num(Tally(Get(counts, k)) + 1);
    forall j ensures (Has(Put(counts, k, v), j) <==> j == k || Has(counts, j)) &&
                     Get(Put(counts, k, v), j) == if j == k then v else Get(counts, j) {
      PutGet(counts, k, v, j);
    }
    PutNumbers(counts, k, v);
    assert UniqueKeys(counts) ==> UniqueKeys(Put(counts, k, v)) by {
      if UniqueKeys(counts) {
        PutUnique(counts, k, v);
      }
    }
    Put(counts, k, v)
  }

  lemma {:induction false} PutNumbers(ps: seq<Prop>, k: string, v: Value)
    requires v.Num?
    ensures (forall i | 0 <= i < |ps| :: ps[i].val.Num?) ==>
              forall i | 0 <= i < |Put(ps, k, v)| :: Put(ps, k, v)[i].val.Num?
  {
    if |ps| > 0 && ps[0].key != k {
      PutNumbers(ps[1..], k, v);
      assert Put(ps, k, v) == [ps[0]] + Put(ps[1..], k, v);
    }
  }

  /** A response that violates nothing leaves the counters alone; one that does bumps its key. */
  function Counted(counts: seq<Prop>, key: Option<string>): seq<Prop>
  {
    match key
    case None => counts
    case Some(k) => Bump(counts, k)
  }

  /** The counters after a sequence of per-response violation keys, counted in order. */
  function Violations(keys: seq<Option<string>>): (r: seq<Prop>)
    ensures UniqueKeys(r)
    ensures forall i | 0 <= i < |r| :: r[i].val.Num?
  {
    if |keys| == 0 then [] else Counted(Violations(keys[..|keys| - 1]), keys[|keys| - 1])
  }

  /** How many of the keys name `k`. */
  function Occurrences(keys: seq<Option<string>>, k: string): nat
  {
    if |keys| == 0 then 0
    else Occurrences(keys[..|keys| - 1], k) + if keys[|keys| - 1] == Some(k) then 1 else 0
  }

  /** Each counter holds the number of violating responses with its key, and a key is present
      exactly when at least one response had it. */
  lemma {:induction false} ViolationsCount(keys: seq<Option<string>>, k: string)
    ensures Has(Violations(keys), k) <==> Occurrences(keys, k) > 0
    ensures Get(Violations(keys), k) == if Occurrences(keys, k) > 0 then Num(Occurrences(keys, k)) else Undefined
  {
    if |keys| > 0 {
      ViolationsCount(keys[..|keys| - 1], k);
    }
    else {
      assert Get([], k) == Undefined;
    }
  }

  /** The counters stay empty exactly when no response violated anything. */
  lemma {:induction false} ViolationsEmpty(keys: seq<Option<string>>)
    ensures |Violations(keys)| == 0 <==> forall i | 0 <= i < |keys| :: keys[i].None?
  {
    if |keys| > 0 {
      var init := keys[..|keys| - 1];
      ViolationsEmpty(init);
      match keys[|keys| - 1]
      case None =>
        assert forall i | 0 <= i < |keys| :: keys[i].None? <==> (i == |keys| - 1 || init[i].None?);
      case Some(k) =>
        assert Has(Violations(keys), k);
    }
  }

  // ---------------------------------------------------------------------------------------------
  // The tracker

  /** What the load generator reports for one completed request. */
  datatype Response = Response(headers: seq<Prop>, statusCode: Value)

  /** The item settings the tracker and the validation read. `expectedRps` and `maxErrorPortion`
      are numbers; an unset `expectedRps` (`null`) is 0, which is falsy in the same way. */
  datatype LoadConfig = LoadConfig(expectedStatus: Value, expectedType: Value, expectedRps: real,
                                   maxErrorPortion: real, maxRequests: Value)

  /** `getIgnoreCase(result.headers, 'content-type')` */
  function ResponseType(r: Response): Value
  {
    HttpHelpers.GetIgnoreCase(r.headers, "content-type", Undefined)
  }

  /** The pattern the status matcher is built from: `expectedStatus || 'xxx'`. */
  function StatusPattern(expectedStatus: Value): Value
  {
    if Truthy(expectedStatus) then expectedStatus else Str("xxx")
  }

  /** The content-type counter a callback bumps, if any: only with an expected type, only for a
      result, and only when the response's type differs strictly from it. */
  function TypeKey(expectedType: Value, result: Option<Response>): (k: Option<string>)
    ensures k.Some? <==> result.Some? && Truthy(expectedType) && !StrictEquals(ResponseType(result.value), expectedType)
    ensures k.Some? ==> k.value == ToText(ResponseType(result.value))
  {
    if result.Some? && Truthy(expectedType) && !StrictEquals(ResponseType(result.value), expectedType)
    then Some(ToText(ResponseType(result.value)))
    else None
  }

  /** The status counter a callback bumps, if any: only with an expected status, only for a
      result, and only when the status does not match the pattern. */
  function StatusKey(expectedStatus: Value, result: Option<Response>): (k: Option<string>)
    ensures k.Some? <==> result.Some? && Truthy(expectedStatus) &&
                         !HttpHelpers.StatusMatches(StatusPattern(expectedStatus), result.value.statusCode)
    ensures k.Some? ==> k.value == ToText(result.value.statusCode)
  {
    if result.Some? && Truthy(expectedStatus) &&
       !HttpHelpers.StatusMatches(StatusPattern(expectedStatus), result.value.statusCode)
    then Some(ToText(result.value.statusCode))
    else None
  }

  function TypeKeys(expectedType: Value, results: seq<Option<Response>>): (ks: seq<Option<string>>)
    ensures |ks| == |results|
    ensures forall i | 0 <= i < |results| :: ks[i] == TypeKey(expectedType, results[i])
  {
    seq(|results|, i requires 0 <= i < |results| => TypeKey(expectedType, results[i]))
  }

  function StatusKeys(expectedStatus: Value, results: seq<Option<Response>>): (ks: seq<Option<string>>)
    ensures |ks| == |results|
    ensures forall i | 0 <= i < |results| :: ks[i] == StatusKey(expectedStatus, results[i])
  {
    seq(|results|, i requires 0 <= i < |results| => StatusKey(expectedStatus, results[i]))
  }

  /** Counting one more callback extends the counted keys by that callback's key. */
  lemma ViolationsSnoc(c: LoadConfig, results: seq<Option<Response>>, r: Option<Response>)
    ensures Violations(TypeKeys(c.expectedType, results + [r])) ==
              Counted(Violations(TypeKeys(c.expectedType, results)), TypeKey(c.expectedType, r))
    ensures Violations(StatusKeys(c.expectedStatus, results + [r])) ==
              Counted(Violations(StatusKeys(c.expectedStatus, results)), StatusKey(c.expectedStatus, r))
  {
    assert TypeKeys(c.expectedType, results + [r])[..|results|] == TypeKeys(c.expectedType, results);
    assert StatusKeys(c.expectedStatus, results + [r])[..|results|] == StatusKeys(c.expectedStatus, results);
  }

  /** A counter is empty exactly when none of the tracked results violated its expectation. */
  lemma NoneCounted(c: LoadConfig, results: seq<Option<Response>>)
    ensures |Violations(StatusKeys(c.expectedStatus, results))| == 0 <==>
              forall i | 0 <= i < |results| :: StatusKey(c.expectedStatus, results[i]).None?
    ensures |Violations(TypeKeys(c.expectedType, results))| == 0 <==>
              forall i | 0 <= i < |results| :: TypeKey(c.expectedType, results[i]).None?
  {
    ViolationsEmpty(StatusKeys(c.expectedStatus, results));
    ViolationsEmpty(TypeKeys(c.expectedType, results));
  }

  /** Without an expected type, no content-type violation is ever counted. */
  lemma NoTypeExpected(expectedType: Value, results: seq<Option<Response>>)
    requires !Truthy(expectedType)
    ensures Violations(TypeKeys(expectedType, results)) == []
  {
    ViolationsEmpty(TypeKeys(expectedType, results));
  }

  /** The default status pattern `xxx` accepts every status, so nothing is counted. */
  lemma AnyStatusNoViolation(results: seq<Option<Response>>)
    ensures Violations(StatusKeys(Str("xxx"), results)) == []
  {
    var ks := StatusKeys(Str("xxx"), results);
    forall i | 0 <= i < |results| ensures ks[i].None? {
      if results[i].Some? {
        HttpHelpers.AnyStatus(results[i].value.statusCode);
      }
    }
    ViolationsEmpty(ks);
  }

  /** `createTracker(item)`: a counter of completed requests and two violation counters, updated
      in place by the load generator's status callback. The ghost `tracked` records every callback's
      result; the counters are always the counts over it. */
  class Tracker {
    const config: LoadConfig
    var doneCount: nat
    var statusViolations: seq<Prop>
    var typeViolations: seq<Prop>
    ghost var tracked: seq<Option<Response>>

    ghost predicate Valid()
      reads this
    {
      doneCount == |tracked| &&
      statusViolations == Violations(StatusKeys(config.expectedStatus, tracked)) &&
      typeViolations == Violations(TypeKeys(config.expectedType, tracked))
    }

    constructor(config: LoadConfig)
      ensures this.config == config && tracked == [] && Valid()
      ensures doneCount == 0 && statusViolations == [] && typeViolations == []
    {
      this.config := config;
      doneCount := 0;
      statusViolations := [];
      typeViolations := [];
      tracked := [];
    }

    /** `track(error, result)`: every callback is counted, and a result is checked against the
        expected type and status. */
    method Track(result: Option<Response>)
      requires Valid()
      modifies this
      ensures Valid() && tracked == old(tracked) + [result]
      ensures doneCount == old(doneCount) + 1
      ensures typeViolations == Counted(old(typeViolations), TypeKey(config.expectedType, result))
      ensures statusViolations == Counted(old(statusViolations), StatusKey(config.expectedStatus, result))
    {
      ViolationsSnoc(config, tracked, result);
      doneCount := doneCount + 1;
      tracked := tracked + [result];
      if result.None? {
        return;
      }
      if Truthy(config.expectedType) {
        var responseType := ResponseType(result.value);
        if !StrictEquals(responseType, config.expectedType) {
          typeViolations := Bump(typeViolations, ToText(responseType));
        }
      }
      if Truthy(config.expectedStatus) {
        var responseStatus := result.value.statusCode;
        if !HttpHelpers.StatusMatches(StatusPattern(config.expectedStatus), responseStatus) {
          statusViolations := Bump(statusViolations, ToText(responseStatus));
        }
      }
    }

    /** `count()`: the number of callbacks so far. */
    method Count() returns (n: nat)
      requires Valid()
      ensures n == |tracked|
    {
      n := doneCount;
    }

    /** `validate(result)` over the generator's error codes and its requests per second. */
    method Validate(errorCodes: seq<Prop>, rps: real, looseEquals: (Value, Value) -> bool, fixed2: real -> string)
      returns (failures: seq<string>)
      requires Valid()
      ensures failures == Validation(config, doneCount, statusViolations, typeViolations, errorCodes, rps,
                                     looseEquals, fixed2)
      ensures (forall i | 0 <= i < |errorCodes| :: !errorCodes[i].val.Undefined?) ==>
                (|failures| == 0 <==>
                   looseEquals(config.maxRequests, Num(|tracked|)) &&
                   (config.expectedRps != 0.0 ==> rps > config.expectedRps) &&
                   (forall i | 0 <= i < |tracked| :: StatusKey(config.expectedStatus, tracked[i]).None?) &&
                   (forall i | 0 <= i < |tracked| :: TypeKey(config.expectedType, tracked[i]).None?) &&
                   PortionAccepted(config.maxErrorPortion, ErrorPortion(ErrorCount(errorCodes), |tracked|), errorCodes))
    {
      failures := Validation(config, doneCount, statusViolations, typeViolations, errorCodes, rps, looseEquals, fixed2);
      NoneCounted(config, tracked);
      if forall i | 0 <= i < |errorCodes| :: !errorCodes[i].val.Undefined? {
        ValidationPasses(config, doneCount, statusViolations, typeViolations, errorCodes, rps, looseEquals, fixed2);
      }
    }
  }

  // ---------------------------------------------------------------------------------------------
  // validate

  /** A count reported for one error code; the generator only reports non-negative numbers. */
  function ErrorCodeCount(v: Value): nat
  {
    if v.Num? && v.n >= 0 then v.n else 0
  }

  /** `Object.keys(errorCodes).map(k => errorCodes[k]).reduce((a, b) => a + b, 0)` */
  function ErrorCount(errorCodes: seq<Prop>): nat
  {
    if |errorCodes| == 0 then 0 else ErrorCodeCount(errorCodes[0].val) + ErrorCount(errorCodes[1..])
  }

  /** `numErrors / doneCount`: `0 / 0` is `NaN` and a positive count over 0 is `Infinity`. */
  function ErrorPortion(numErrors: nat, doneCount: nat): (r: ItemHelpers.Number)
    ensures doneCount > 0 ==> r.Finite? && 0.0 <= r.x && r.x * doneCount as real == numErrors as real
    ensures doneCount == 0 ==> (r.NaN? <==> numErrors == 0) && (r.Infinity? <==> numErrors > 0)
  {
    if doneCount > 0 then ItemHelpers.Finite(numErrors as real / doneCount as real)
    else if numErrors == 0 then ItemHelpers.NaN
    else ItemHelpers.Infinity
  }

  /** `errorPortion >= maxErrorPortion`, false for `NaN`. */
  predicate NotBelow(n: ItemHelpers.Number, bound: real)
  {
    n.Infinity? || (n.Finite? && n.x >= bound)
  }

  /** The two error rules: with a positive tolerance the portion must stay strictly below it, and
      whenever the portion reaches the tolerance no error code may be reported at all. */
  predicate PortionAccepted(maxErrorPortion: real, portion: ItemHelpers.Number, errorCodes: seq<Prop>)
  {
    (maxErrorPortion > 0.0 ==> ItemHelpers.Below(portion, maxErrorPortion)) &&
    (NotBelow(portion, maxErrorPortion) ==> |errorCodes| == 0)
  }

  /** `errorPortionResult`: the portion is checked only against a positive tolerance. */
  function PortionResult(maxErrorPortion: real, portion: ItemHelpers.Number, fixed2: real -> string)
    : (msgs: seq<string>)
    ensures |msgs| <= 1
    ensures |msgs| == 0 <==> (maxErrorPortion > 0.0 ==> ItemHelpers.Below(portion, maxErrorPortion))
    ensures maxErrorPortion > 0.0 ==> msgs == ItemHelpers.ToBeAtMost("errors portion", portion, maxErrorPortion, fixed2)
  {
    if maxErrorPortion > 0.0 then ItemHelpers.ToBeAtMost("errors portion", portion, maxErrorPortion, fixed2) else []
  }

  /** `errorResult`: once the portion reaches the tolerance, the error codes must be `{}`. */
  function ErrorsResult(maxErrorPortion: real, portion: ItemHelpers.Number, errorCodes: seq<Prop>,
                        looseEquals: (Value, Value) -> bool): (msgs: seq<string>)
    ensures |msgs| <= 1
    ensures (forall i | 0 <= i < |errorCodes| :: !errorCodes[i].val.Undefined?) ==>
              (|msgs| == 0 <==> (NotBelow(portion, maxErrorPortion) ==> |errorCodes| == 0))
  {
    ItemHelpers.DeepEqualsEmpty("errors", errorCodes, looseEquals);
    if NotBelow(portion, maxErrorPortion) then ItemHelpers.ToDeepEqual("errors", Obj(errorCodes), Obj([]), looseEquals)
    else []
  }

  /** `numResult`: the completed requests must loosely equal `maxRequests`. */
  function NumResult(doneCount: nat, maxRequests: Value, looseEquals: (Value, Value) -> bool): (msgs: seq<string>)
    ensures |msgs| <= 1
    ensures |msgs| == 0 <==> looseEquals(maxRequests, Num(doneCount))
  {
    ItemHelpers.ToEqual("number of requests", Num(doneCount), ItemHelpers.Exactly(maxRequests), looseEquals)
  }

  /** `rpsResult`: with an expected rate, the measured rate must exceed it. */
  function RpsResult(expectedRps: real, rps: real, fixed2: real -> string): (msgs: seq<string>)
    ensures |msgs| <= 1
    ensures |msgs| == 0 <==> (expectedRps != 0.0 ==> rps > expectedRps)
  {
    if expectedRps != 0.0 then
      ItemHelpers.ToBeAtLeast("requests per second (rps)", ItemHelpers.Finite(rps), expectedRps, fixed2)
    else []
  }

  /** `statusResult` and `typeResult`: a violation counter must be `{}`. */
  function CountersResult(name: string, counts: seq<Prop>, looseEquals: (Value, Value) -> bool): (msgs: seq<string>)
    ensures |msgs| <= 1
    ensures (forall i | 0 <= i < |counts| :: counts[i].val.Num?) ==> (|msgs| == 0 <==> |counts| == 0)
  {
    ItemHelpers.DeepEqualsEmpty(name, counts, looseEquals);
    ItemHelpers.ToDeepEqual(name, Obj(counts), Obj([]), looseEquals)
  }

  /** The failures of `validate`, in the order the source lists them: errors portion, errors,
      number of requests, requests per second, status violations, content-type violations. */
  function Validation(c: LoadConfig, doneCount: nat, statusViolations: seq<Prop>, typeViolations: seq<Prop>,
                      errorCodes: seq<Prop>, rps: real, looseEquals: (Value, Value) -> bool, fixed2: real -> string)
    : (failures: seq<string>)
    ensures |failures| <= 6
  {
    var portion := ErrorPortion(ErrorCount(errorCodes), doneCount);
    PortionResult(c.maxErrorPortion, portion, fixed2) +
    ErrorsResult(c.maxErrorPortion, portion, errorCodes, looseEquals) +
    NumResult(doneCount, c.maxRequests, looseEquals) +
    RpsResult(c.expectedRps, rps, fixed2) +
    CountersResult("status violations", statusViolations, looseEquals) +
    CountersResult("content-type violations", typeViolations, looseEquals)
  }

  /** Validation passes exactly when the request count matches, the rate exceeds a set minimum,
      both violation counters are empty, and the error rules hold. */
  lemma ValidationPasses(c: LoadConfig, doneCount: nat, statusViolations: seq<Prop>, typeViolations: seq<Prop>,
                         errorCodes: seq<Prop>, rps: real, looseEquals: (Value, Value) -> bool, fixed2: real -> string)
    requires forall i | 0 <= i < |statusViolations| :: statusViolations[i].val.Num?
    requires forall i | 0 <= i < |typeViolations| :: typeViolations[i].val.Num?
    requires forall i | 0 <= i < |errorCodes| :: !errorCodes[i].val.Undefined?
    ensures |Validation(c, doneCount, statusViolations, typeViolations, errorCodes, rps, looseEquals, fixed2)| == 0 <==>
              looseEquals(c.maxRequests, Num(doneCount)) &&
              (c.expectedRps != 0.0 ==> rps > c.expectedRps) &&
              |statusViolations| == 0 && |typeViolations| == 0 &&
              PortionAccepted(c.maxErrorPortion, ErrorPortion(ErrorCount(errorCodes), doneCount), errorCodes)
  {
  }

  /** With the default tolerance of 0, a run with at least one request passes only without any
      reported error code. */
  lemma DefaultToleratesNoErrors(c: LoadConfig, doneCount: nat, statusViolations: seq<Prop>, typeViolations: seq<Prop>,
                                 errorCodes: seq<Prop>, rps: real, looseEquals: (Value, Value) -> bool,
                                 fixed2: real -> string)
    requires c.maxErrorPortion == 0.0 && doneCount > 0
    requires forall i | 0 <= i < |errorCodes| :: !errorCodes[i].val.Undefined?
    requires Validation(c, doneCount, statusViolations, typeViolations, errorCodes, rps, looseEquals, fixed2) == []
    ensures |errorCodes| == 0
  {
    var portion := ErrorPortion(ErrorCount(errorCodes), doneCount);
    assert ErrorsResult(c.maxErrorPortion, portion, errorCodes, looseEquals) == [];
  }

  /** With a positive tolerance, a run in which no request completed fails first on the errors
      portion: it is `NaN` or `Infinity`, never below the tolerance. */
  lemma NothingDoneFails(c: LoadConfig, statusViolations: seq<Prop>, typeViolations: seq<Prop>,
                         errorCodes: seq<Prop>, rps: real, looseEquals: (Value, Value) -> bool, fixed2: real -> string)
    requires c.maxErrorPortion > 0.0
    ensures |Validation(c, 0, statusViolations, typeViolations, errorCodes, rps, looseEquals, fixed2)| > 0
    ensures Validation(c, 0, statusViolations, typeViolations, errorCodes, rps, looseEquals, fixed2)[0] ==
              ItemHelpers.AtMostMessage("errors portion", ErrorPortion(ErrorCount(errorCodes), 0),
                                        c.maxErrorPortion, fixed2)
  {
    var portion := ErrorPortion(ErrorCount(errorCodes), 0);
    var first := PortionResult(c.maxErrorPortion, portion, fixed2);
    assert |first| == 1;
    var all := Validation(c, 0, statusViolations, typeViolations, errorCodes, rps, looseEquals, fixed2);
    assert all[0] == first[0];
  }

  // ---------------------------------------------------------------------------------------------
  // The run's result

  /** The result `run` resolves with: FAILURE exactly when validation reported failures, and the
      message `Completed <done>/<maxRequests>`. */
  function LoadResult(failures: seq<string>, doneCount: nat, maxRequests: Value, details: Value): (r: Value)
    ensures r.Obj?
    ensures Field(r, "outcome") == Str(if |failures| > 0 then "FAILURE" else "SUCCESS")
    ensures Field(r, "failures") == Arr(RequestPlugin.StrValues(failures))
    ensures Field(r, "message") == Str("Completed " + NatToString(doneCount) + "/" + ToText(maxRequests))
    ensures Field(r, "details") == details
  {
    var ps := [Prop("outcome", Str(if |failures| > 0 then "FAILURE" else "SUCCESS")),
               Prop("details", details),
               Prop("failures", Arr(RequestPlugin.StrValues(failures))),
               Prop("message", Str("Completed " + NatToString(doneCount) + "/" + ToText(maxRequests)))];
    GetAt(ps, 0);
    GetAt(ps, 1);
    GetAt(ps, 2);
    GetAt(ps, 3);
    Obj(ps)
  }
}
