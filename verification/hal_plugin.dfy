/** The `hal` plugin: a request to a URL, or a walk along a chain of HAL relations that starts at a
    base resource, checked like a plain request but without the length check. The response
    header helpers of this plugin are the ones of the `request` plugin. */
module HalPlugin {
  import opened Strings
  import opened Values
  import opened Editions
  import HttpHelpers
  import ItemHelpers
  import RequestPlugin

  // ---------------------------------------------------------------------------------------------
  // Request headers and options

  /** `item.jsonBody != null ? 'application/json' : null` */
  function ContentType(jsonBody: Value): (t: Value)
    ensures Truthy(t) <==> !IsNullish(jsonBody)
  {
    if !IsNullish(jsonBody) then Str("application/json") else Null
  }

  /** `composeRequestHeaders(item.headers, 'application/hal+json', contentType, cookiesList)`:
      `Accept` asks for HAL unless the item sets it; every other header the item sets is kept. */
  function RequestHeaders(headers: seq<Prop>, jsonBody: Value, cookies: seq<string>): (r: seq<Prop>)
    ensures !HttpHelpers.HasIgnoreCase(headers, "accept") ==> Get(r, "Accept") == Str("application/hal+json")
    ensures HttpHelpers.HasIgnoreCase(headers, "accept") ==> Get(r, "Accept") == LastGet(headers, "Accept")
    ensures forall k | k != "Accept" && k != "Content-Type" && k != "Cookie" :: Get(r, k) == LastGet(headers, k)
  {
    HttpHelpers.ComposeRequestHeaders(headers, Str("application/hal+json"), ContentType(jsonBody), cookies)
  }

  lemma RequestHeadersAre(headers: seq<Prop>, jsonBody: Value, cookies: seq<string>)
    ensures RequestHeaders(headers, jsonBody, cookies) ==
              HttpHelpers.ComposeRequestHeaders(headers, Str("application/hal+json"), ContentType(jsonBody), cookies)
  {
  }

  /** `Content-Type` is JSON exactly when there is a JSON body the item does not type itself. */
  lemma RequestContentType(headers: seq<Prop>, jsonBody: Value, cookies: seq<string>)
    requires !HttpHelpers.HasIgnoreCase(headers, "content-type")
    ensures Has(RequestHeaders(headers, jsonBody, cookies), "Content-Type") <==>
              Has(headers, "Content-Type") || !IsNullish(jsonBody)
    ensures !IsNullish(jsonBody) ==> Get(RequestHeaders(headers, jsonBody, cookies), "Content-Type") == Str("application/json")
  {
    RequestHeadersAre(headers, jsonBody, cookies);
    HttpHelpers.ContentTypeDefault(headers, Str("application/hal+json"), ContentType(jsonBody), cookies);
  }

  /** `{ method, redirect, headers, ...( body ? { body } : {} ) }` */
  function RequestOptions(verb: Value, redirect: Value, headers: seq<Prop>, body: Value): (o: Value)
    ensures o.Obj? && UniqueKeys(o.props)
    ensures Field(o, "method") == verb && Field(o, "headers") == Obj(headers)
    ensures Field(o, "body") == if Truthy(body) then body else Undefined
    ensures !Has(o.props, "jsonBody")
  {
    var ps := [Prop("method", verb), Prop("redirect", redirect), Prop("headers", Obj(headers))] +
              (if Truthy(body) then [Prop("body", body)] else []);
    GetAt(ps, 0);
    GetAt(ps, 2);
    assert forall i | 0 <= i < |ps| :: ps[i].key != "jsonBody";
    GetHas(ps, "jsonBody");
    if Truthy(body) then
      GetAt(ps, 3);
      Obj(ps)
    else
      assert forall i | 0 <= i < |ps| :: ps[i].key != "body";
      GetHas(ps, "body");
      Obj(ps)
  }

  // ---------------------------------------------------------------------------------------------
  // navigate

  const EitherError := Error("hal plugin: Either `url` or `base` plus `follow`/`followAll` must be set")
  const BothError := Error("hal plugin: Cannot use both `follow` and `followAll`")

  /** One call of the HAL client during a walk: `client[followType](representation, relation,
      fetchOptions)`, where only the last call carries the item's method and body. */
  datatype Step = Step(followType: string, relation: Value, carriesRequest: bool)

  /** What `navigate` asks the client for: one request, or a walk from a base resource. */
  datatype Navigation = Direct(verb: Value, url: Value) | Walk(base: Value, steps: seq<Step>)

  /** `Array.isArray(relationsList) ? relationsList : [relationsList]` */
  function Relations(relationsList: Value): seq<Value>
  {
    if relationsList.Arr? then relationsList.elems else [relationsList]
  }

  /** The texts `relations.join(' -> ')` joins: null and undefined become empty. */
  function RelationTexts(relations: seq<Value>): (r: seq<string>)
    ensures |r| == |relations|
  {
    if |relations| == 0 then []
    else [if IsNullish(relations[0]) then "" else ToText(relations[0])] + RelationTexts(relations[1..])
  }

  /** `relations.some(rel => rel == null)` */
  predicate HasNull(relations: seq<Value>)
  {
    exists i | 0 <= i < |relations| :: IsNullish(relations[i])
  }

  function NullRelation(relations: seq<Value>): Value
  {
    Error("hal: relation is null. Full sequence: " + Join(RelationTexts(relations), " -> "))
  }

  /** The walk along the relations: every relation but the last with plain `follow`, the last
      (`undefined` for an empty list, which `pop` leaves) with `followAll` when that was given. */
  function Chain(relations: seq<Value>, followAll: Value): (steps: seq<Step>)
    ensures |steps| == if |relations| == 0 then 1 else |relations|
  {
    var init := if |relations| == 0 then [] else relations[..|relations| - 1];
    var last := if |relations| == 0 then Undefined else relations[|relations| - 1];
    Plain(init) + [Step(if Truthy(followAll) then "followAll" else "follow", last, true)]
  }

  /** Plain `follow` calls for the given relations. */
  function Plain(relations: seq<Value>): (steps: seq<Step>)
    ensures |steps| == |relations|
    ensures forall i | 0 <= i < |relations| :: steps[i] == Step("follow", relations[i], false)
  {
    seq(|relations|, i requires 0 <= i < |relations| => Step("follow", relations[i], false))
  }

  /** What `navigate()` does with the item, defined on its fields: an item with a URL never
      fails, and a walk starts from the item's truthy base with at least one call. */
  function NavigationOf(item: Value): (r: Try<Navigation>)
    ensures Truthy(Field(item, "url")) ==> r.Ok? && r.value.Direct?
    ensures r.Ok? && r.value.Walk? ==>
              r.value.base == Field(item, "base") && Truthy(r.value.base) && |r.value.steps| >= 1
  {
    var url := Field(item, "url");
    var follow := Field(item, "follow");
    var followAll := Field(item, "followAll");
    var base := Field(item, "base");
    var relationsList := if Truthy(follow) then follow else followAll;
    if Truthy(url) then Ok(Direct(Field(item, "method"), url))
    else if !Truthy(base) || !Truthy(relationsList) then Threw(EitherError)
    else if Truthy(follow) && Truthy(followAll) then Threw(BothError)
    else
      var relations := Relations(relationsList);
      if HasNull(relations) then Threw(NullRelation(relations))
      else Ok(Walk(base, Chain(relations, followAll)))
  }

  /** `navigate()`: the checks in order, then `pop` the last relation and `reduce` the others into
      the chain of `follow` calls. */
  method Navigate(item: Value) returns (r: Try<Navigation>)
    ensures r == NavigationOf(item)
  {
    var url := Field(item, "url");
    if Truthy(url) {
      return Ok(Direct(Field(item, "method"), url));
    }
    var follow := Field(item, "follow");
    var followAll := Field(item, "followAll");
    var relationsList := if Truthy(follow) then follow else followAll;
    if !Truthy(Field(item, "base")) || !Truthy(relationsList) {
      return Threw(EitherError);
    }
    if Truthy(follow) && Truthy(followAll) {
      return Threw(BothError);
    }
    var relations := Relations(relationsList);
    if HasNull(relations) {
      return Threw(NullRelation(relations));
    }
    ghost var all := relations;
    var lastRelation := Undefined;
    if |relations| > 0 {
      lastRelation := relations[|relations| - 1];
      relations := relations[..|relations| - 1];
    }
    var steps: seq<Step> := [];
    for i := 0 to |relations|
      invariant steps == Plain(relations[..i])
    {
      steps := steps + [Step("follow", relations[i], false)];
    }
    assert relations[..|relations|] == relations;
    steps := steps + [Step(if Truthy(followAll) then "followAll" else "follow", lastRelation, true)];
    return Ok(Walk(Field(item, "base"), steps));
  }

  /** With a URL, navigation is a single request with the item's method. */
  lemma UrlIsDirect(item: Value)
    requires Truthy(Field(item, "url"))
    ensures NavigationOf(item) == Ok(Direct(Field(item, "method"), Field(item, "url")))
  {
  }

  /** Without a URL the checks come in order: a base and some relations, then not both kinds of
      relation, then no null relation; otherwise the walk has one call per relation. */
  lemma {:induction false} NavigationChecks(item: Value)
    requires !Truthy(Field(item, "url"))
    ensures var follow := Field(item, "follow");
            var followAll := Field(item, "followAll");
            !Truthy(Field(item, "base")) || (!Truthy(follow) && !Truthy(followAll)) ==>
              NavigationOf(item) == Threw(EitherError)
    ensures var follow := Field(item, "follow");
            var followAll := Field(item, "followAll");
            Truthy(Field(item, "base")) && Truthy(follow) && Truthy(followAll) ==>
              NavigationOf(item) == Threw(BothError)
    ensures var follow := Field(item, "follow");
            var followAll := Field(item, "followAll");
            var relations := Relations(if Truthy(follow) then follow else followAll);
            NavigationOf(item).Ok? <==>
              Truthy(Field(item, "base")) && (Truthy(follow) != Truthy(followAll)) && !HasNull(relations)
    ensures var follow := Field(item, "follow");
            var followAll := Field(item, "followAll");
            var relations := Relations(if Truthy(follow) then follow else followAll);
            NavigationOf(item).Ok? ==>
              NavigationOf(item).value.Walk? && NavigationOf(item).value.base == Field(item, "base") &&
              |NavigationOf(item).value.steps| == (if |relations| == 0 then 1 else |relations|)
  {
  }

  /** The calls of a walk: plain `follow` for all relations but the last, which is followed with
      `followAll` exactly when `followAll` was given and alone carries the method and the body. */
  lemma {:induction false} ChainSteps(relations: seq<Value>, followAll: Value)
    requires |relations| > 0
    ensures var steps := Chain(relations, followAll);
            (forall i | 0 <= i < |relations| - 1 :: steps[i] == Step("follow", relations[i], false)) &&
            steps[|relations| - 1] ==
              Step(if Truthy(followAll) then "followAll" else "follow", relations[|relations| - 1], true)
  {
    var init := relations[..|relations| - 1];
    assert forall i | 0 <= i < |init| :: init[i] == relations[i];
  }

  /** A single relation that is not a list is a one-element walk. */
  lemma SingleRelation(rel: Value, followAll: Value)
    requires !rel.Arr?
    ensures Chain(Relations(rel), followAll) == [Step(if Truthy(followAll) then "followAll" else "follow", rel, true)]
  {
    assert Relations(rel)[..0] == [];
  }

  // ---------------------------------------------------------------------------------------------
  // Following relations

  /** What one call of the HAL client ends in: the `xxx` handler with the new representation and
      the response, a `norel` rejection, or another rejection. */
  datatype Answer = Found(representation: Value, response: Value) | NoRelation | Failed(err: Value)

  /** The rejection of a failed call, naming the relation. */
  function FollowError(rel: Value, representation: Value, answer: Answer): (e: Value)
    requires !answer.Found?
    ensures e.Error?
    ensures answer.NoRelation? ==>
              e.message == "hal: Could not find relation " + ToText(rel) + " at " + ItemHelpers.Shown(representation)
    ensures answer.Failed? ==>
              e.message == "hal: Error following relation " + ToText(rel) + ", details: " + ToText(answer.err)
  {
    if answer.NoRelation? then Error("hal: Could not find relation " + ToText(rel) + " at " + ItemHelpers.Shown(representation))
    else Error("hal: Error following relation " + ToText(rel) + ", details: " + ToText(answer.err))
  }

  /** The promise chain of a walk from `representation`: each call starts from the representation
      the previous one found; the first failed call rejects the whole walk. `client` stands for
      the HAL client. */
  function Follow(steps: seq<Step>, representation: Value, response: Value, client: (Value, Step) -> Answer)
    : (r: Try<(Value, Value)>)
    ensures |steps| == 0 ==> r == Ok((representation, response))
    ensures r.Threw? ==> r.error.Error? && StartsWith(r.error.message, "hal: ")
  {
    if |steps| == 0 then Ok((representation, response))
    else
      var answer := client(representation, steps[0]);
      if answer.Found? then Follow(steps[1..], answer.representation, answer.response, client)
      else
        var e := FollowError(steps[0].relation, representation, answer);
        assert StartsWith(e.message, "hal: ");
        Threw(e)
  }

  /** One more call after a walk: it starts from what the walk found. */
  function Then(walk: Try<(Value, Value)>, step: Step, client: (Value, Step) -> Answer): Try<(Value, Value)>
  {
    if walk.Threw? then walk
    else
      var answer := client(walk.value.0, step);
      if answer.Found? then Ok((answer.representation, answer.response))
      else Threw(FollowError(step.relation, walk.value.0, answer))
  }

  /** The promise chain is built left to right: a walk with one more relation is the shorter walk
      followed by one more call, so every call starts from the representation the previous found. */
  lemma {:induction false} FollowSnoc(steps: seq<Step>, step: Step, representation: Value, response: Value,
                                      client: (Value, Step) -> Answer)
    ensures Follow(steps + [step], representation, response, client) ==
              Then(Follow(steps, representation, response, client), step, client)
  {
    if |steps| == 0 {
      assert [step][1..] == [];
    } else {
      var answer := client(representation, steps[0]);
      assert (steps + [step])[1..] == steps[1..] + [step];
      if answer.Found? {
        FollowSnoc(steps[1..], step, answer.representation, answer.response, client);
      }
    }
  }

  /** `navigate().then(([data, response]) => ...)`: the data and the response the navigation ends
      with. `request` stands for the direct client call. */
  function Run(nav: Navigation, request: (Value, Value) -> Try<(Value, Value)>, client: (Value, Step) -> Answer)
    : (r: Try<(Value, Value)>)
    ensures nav.Direct? ==> r == request(nav.verb, nav.url)
    ensures nav.Walk? && |nav.steps| == 0 ==> r == Ok((nav.base, Undefined))
    ensures nav.Walk? && r.Threw? ==> r.error.Error? && StartsWith(r.error.message, "hal: ")
  {
    match nav
    case Direct(verb, url) => request(verb, url)
    case Walk(base, steps) => Follow(steps, base, Undefined, client)
  }

  // ---------------------------------------------------------------------------------------------
  // processResult, validateResponse

  /** `validateResponse(item, expectedLength, { status, type })`: the status check, then the type
      check when `expectedType` is set; there is no length check. */
  function ValidateResponse(item: Value, status: Value, responseType: Value, looseEquals: (Value, Value) -> bool)
    : (failures: seq<string>)
    ensures |failures| <= 2
    ensures |failures| == 0 <==>
              HttpHelpers.StatusMatches(Field(item, "expectedStatus"), status) &&
              (Truthy(Field(item, "expectedType")) ==> looseEquals(Field(item, "expectedType"), responseType))
    ensures !HttpHelpers.StatusMatches(Field(item, "expectedStatus"), status) ==>
              failures[0] == ItemHelpers.Unsatisfied("status", ToText(Field(item, "expectedStatus")), status)
  {
    RequestPlugin.StatusFailures(Field(item, "expectedStatus"), status) +
    RequestPlugin.TypeFailures(Field(item, "expectedType"), responseType, looseEquals)
  }

  /** `Array.isArray(responseValue) ? responseValue[0] : responseValue` */
  function ResponseOf(responseValue: Value): Value
  {
    if responseValue.Arr? then (if |responseValue.elems| > 0 then responseValue.elems[0] else Undefined)
    else responseValue
  }

  const NoResponse := Error("TypeError: Cannot destructure property 'status' of 'response' as it is undefined.")

  /** The request body shown in `details`, as written: `requestOptions.jsonBody`. */
  function RequestBodyAsWritten(requestOptions: Value): Value
  {
    Field(requestOptions, "jsonBody")
  }

  /** The options built by `run` never have a `jsonBody`, so the shown request body is always
      `undefined`, even for a request with a body. */
  lemma RequestBodyAlwaysMissing(verb: Value, redirect: Value, headers: seq<Prop>, body: Value)
    ensures RequestBodyAsWritten(RequestOptions(verb, redirect, headers, body)) == Undefined
  {
    GetHas(RequestOptions(verb, redirect, headers, body).props, "jsonBody");
  }

  /** The request body shown in `details`, corrected: the body the options carry. */
  function RequestBody(requestOptions: Value): Value
  {
    Field(requestOptions, "body")
  }

  /** With the correction, `details` shows the body that was sent. */
  lemma RequestBodyShown(verb: Value, redirect: Value, headers: seq<Prop>, body: Value)
    requires Truthy(body)
    ensures RequestBody(RequestOptions(verb, redirect, headers, body)) == body
  {
  }

  /** `{ headers, status, statusText, json: data }` with the request side in front. */
  function Details(requestBody: Value, requestHeaders: Value, headers: seq<Prop>, status: Value, statusText: Value,
                   data: Value): (d: Value)
    ensures d.Obj? && UniqueKeys(d.props)
    ensures Field(d, "requestBody") == requestBody && Field(d, "requestHeaders") == requestHeaders
    ensures Field(d, "headers") == Obj(headers) && Field(d, "status") == status && Field(d, "json") == data
  {
    var ps := [Prop("requestBody", requestBody), Prop("requestHeaders", requestHeaders), Prop("headers", Obj(headers)),
               Prop("status", status), Prop("statusText", statusText), Prop("json", data)];
    GetAt(ps, 0);
    GetAt(ps, 1);
    GetAt(ps, 2);
    GetAt(ps, 3);
    GetAt(ps, 5);
    Obj(ps)
  }

  /** `Array.isArray(data) ? 'representations' : 'representation'` */
  function RepresentationKey(data: Value): string
  {
    if data.Arr? then "representations" else "representation"
  }

  /** The result object: the data goes under `representations` for a list and under
      `representation` otherwise, and no other key holds it. */
  function HalResult(failures: seq<string>, status: Value, data: Value, details: Value): (r: Value)
    ensures r.Obj? && UniqueKeys(r.props)
    ensures Keys(r.props) == ["outcome", "failures", "message", RepresentationKey(data), "details"]
    ensures Field(r, "outcome") == Str(if |failures| > 0 then "FAILURE" else "SUCCESS")
    ensures Field(r, "failures") == Arr(RequestPlugin.StrValues(failures))
    ensures Field(r, "message") == Str(ToText(status))
    ensures Field(r, RepresentationKey(data)) == data
    ensures Field(r, "details") == details
  {
    var key := RepresentationKey(data);
    var ps := [Prop("outcome", Str(if |failures| > 0 then "FAILURE" else "SUCCESS")),
               Prop("failures", Arr(RequestPlugin.StrValues(failures))), Prop("message", Str(ToText(status))),
               Prop(key, data), Prop("details", details)];
    assert UniqueKeys(ps) by {
      assert ps[0].key[0] == 'o' && ps[1].key[0] == 'f' && ps[2].key[0] == 'm';
      assert ps[3].key[0] == 'r' && ps[4].key[0] == 'd';
    }
    FiveProps(ps);
    Obj(ps)
  }

  /** Lookup and key order in a five-property object with distinct keys. */
  lemma FiveProps(ps: seq<Prop>)
    requires |ps| == 5 && UniqueKeys(ps)
    ensures Keys(ps) == [ps[0].key, ps[1].key, ps[2].key, ps[3].key, ps[4].key]
    ensures forall i | 0 <= i < 5 :: Get(ps, ps[i].key) == ps[i].val
  {
    forall i | 0 <= i < 5 ensures Get(ps, ps[i].key) == ps[i].val {
      GetAt(ps, i);
    }
  }

  /** A list of data is found under `representations` and nothing is under `representation`;
      otherwise the other way round. */
  lemma RepresentationKeys(failures: seq<string>, status: Value, data: Value, details: Value)
    ensures Has(HalResult(failures, status, data, details).props, "representations") <==> data.Arr?
    ensures Has(HalResult(failures, status, data, details).props, "representation") <==> !data.Arr?
  {
    var ps := HalResult(failures, status, data, details).props;
    KeysHas(ps, "representations");
    KeysHas(ps, "representation");
    var ks := ["outcome", "failures", "message", RepresentationKey(data), "details"];
    assert |"representation"| == 14 && |"representations"| == 15;
    assert forall i | 0 <= i < 5 && i != 3 :: |ks[i]| < 14;
  }

  /** `processResult(item, data, responseValue, requestOptions)` with the pairs of the chosen
      response's headers and the request body `details` shows. */
  function Result(item: Value, data: Value, responseValue: Value, pairs: seq<RequestPlugin.Header>, requestOptions: Value,
                  requestBody: Value, looseEquals: (Value, Value) -> bool): (r: Try<Value>)
    ensures r.Threw? <==> IsNullish(ResponseOf(responseValue))
    ensures RequestPlugin.ParseResponseType(RequestPlugin.ResponseHeaderMap(pairs)).Ok?
    ensures r.Ok? ==>
              var status := Field(ResponseOf(responseValue), "status");
              var checks := ValidateResponse(item, status,
                                             RequestPlugin.ParseResponseType(RequestPlugin.ResponseHeaderMap(pairs)).value,
                                             looseEquals);
              Field(r.value, "outcome") == Str(if |checks| > 0 then "FAILURE" else "SUCCESS") &&
              Field(r.value, "failures") == Arr(RequestPlugin.StrValues(
                RequestPlugin.Suffixed(checks, ToText(Field(item, "method")), ToText(Field(item, "url"))))) &&
              Field(r.value, "message") == Str(ToText(status))
    ensures r.Ok? ==> Field(r.value, RepresentationKey(data)) == data
    ensures r.Ok? ==> Field(Field(r.value, "details"), "requestBody") == requestBody
  {
    var response := ResponseOf(responseValue);
    RequestPlugin.ResponseTypeOk(pairs);
    if IsNullish(response) then Threw(NoResponse)
    else
      var status := Field(response, "status");
      var headers := RequestPlugin.ResponseHeaderMap(pairs);
      var checks := ValidateResponse(item, status, RequestPlugin.ParseResponseType(headers).value, looseEquals);
      var failures := RequestPlugin.Suffixed(checks, ToText(Field(item, "method")), ToText(Field(item, "url")));
      var details := Details(requestBody, Field(requestOptions, "headers"), headers, status,
                             Field(response, "statusText"), data);
      Ok(HalResult(failures, status, data, details))
  }

  /** `processResult(item, data, response, options)`. As written (the shipped program),
      `details.requestBody` is `requestOptions.jsonBody`; corrected, it is the body the request
      carried. */
  function ProcessResult(edition: Edition, item: Value, data: Value, responseValue: Value,
                         pairs: seq<RequestPlugin.Header>, requestOptions: Value,
                         looseEquals: (Value, Value) -> bool): (r: Try<Value>)
    ensures r.Threw? <==> IsNullish(ResponseOf(responseValue))
    ensures r.Ok? && edition.AsWritten? ==>
              Field(Field(r.value, "details"), "requestBody") == RequestBodyAsWritten(requestOptions)
    ensures r.Ok? && edition.Corrected? ==>
              Field(Field(r.value, "details"), "requestBody") == RequestBody(requestOptions)
  {
    var shown := if edition.AsWritten? then RequestBodyAsWritten(requestOptions) else RequestBody(requestOptions);
    Result(item, data, responseValue, pairs, requestOptions, shown, looseEquals)
  }

  /** On the options `run` builds, the result as written never shows the request body, and the
      corrected one shows a truthy body; both editions agree on everything else. */
  lemma ProcessResultBodies(item: Value, data: Value, responseValue: Value, pairs: seq<RequestPlugin.Header>,
                            verb: Value, redirect: Value, headers: seq<Prop>, body: Value,
                            looseEquals: (Value, Value) -> bool)
    requires !IsNullish(ResponseOf(responseValue))
    ensures var options := RequestOptions(verb, redirect, headers, body);
      var asWritten := ProcessResult(AsWritten, item, data, responseValue, pairs, options, looseEquals);
      var corrected := ProcessResult(Corrected, item, data, responseValue, pairs, options, looseEquals);
      asWritten.Ok? && corrected.Ok? &&
      Field(Field(asWritten.value, "details"), "requestBody") == Undefined &&
      (Truthy(body) ==> Field(Field(corrected.value, "details"), "requestBody") == body) &&
      Field(asWritten.value, "outcome") == Field(corrected.value, "outcome") &&
      Field(asWritten.value, "failures") == Field(corrected.value, "failures") &&
      Field(asWritten.value, "message") == Field(corrected.value, "message") &&
      Field(asWritten.value, RepresentationKey(data)) == Field(corrected.value, RepresentationKey(data))
  {
    RequestBodyAlwaysMissing(verb, redirect, headers, body);
    if Truthy(body) {
      RequestBodyShown(verb, redirect, headers, body);
    }
  }
}
