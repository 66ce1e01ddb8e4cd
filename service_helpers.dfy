/**
 * The request-side service helpers: reading the configured service URL,
 * appending a path or a query string to it, adding request parameters,
 * building a form-encoded body, and the three response parsers.
 */
module ServiceHelpers {
  import opened JsValues
  import opened UriCoding
  import opened Platform

  /** Status codes the text and array parsers accept. */
  const OK_STATUS_CODES: seq<int> := [200]

  /** What the JSON parser returns: `{success, responseObject}`. */
  datatype ParsedResult = ParsedResult(success: bool, responseObject: Option<Json>)

  /** What the text parser returns: `{success, responseText}`. */
  datatype TextResult = TextResult(success: bool, responseText: Option<string>)

  // ---------------------------------------------------------------------------
  // URL composition

  /** `getServiceUrl`: the credential's URL, or None when it is missing or empty. */
  function ServiceUrl(service: Service): (r: Option<string>)
    reads service
    ensures r.Some? <==> Present(service.credentialUrl)
    ensures r.Some? ==> r == service.credentialUrl
  {
    if Present(service.credentialUrl) then service.credentialUrl else None
  }

  /** The base URL with one trailing `/` removed, then `/` and the path. */
  function JoinUrlPath(base: string, path: string): string
  {
    var trimmed := if |base| > 0 && base[|base| - 1] == '/' then base[..|base| - 1] else base;
    trimmed + "/" + path
  }

  /**
   * Exactly one `/` is put between base and path: the base's own trailing
   * slash when it has one, a new one otherwise.
   */
  lemma UrlPathJoint(base: string, path: string)
    ensures |base| > 0 && base[|base| - 1] == '/' ==> JoinUrlPath(base, path) == base + path
    ensures (|base| == 0 || base[|base| - 1] != '/') ==> JoinUrlPath(base, path) == base + "/" + path
  {
    if |base| > 0 && base[|base| - 1] == '/' {
      assert base == base[..|base| - 1] + "/";
    }
  }

  /** `appendUrlPath`: a no-op unless there is a service, a path and a credential URL. */
  method AppendUrlPath(service: Service?, path: Option<string>)
    modifies service
    ensures service != null ==>
      service.url ==
        (if Present(path) && ServiceUrl(service).Some?
         then Some(JoinUrlPath(ServiceUrl(service).value, path.value))
         else old(service.url))
    ensures service != null ==>
      service.credentialUrl == old(service.credentialUrl) &&
      service.requestMethod == old(service.requestMethod) &&
      service.cachingTtl == old(service.cachingTtl) &&
      service.headers == old(service.headers) && service.params == old(service.params)
  {
    if service == null || !Present(path) {
      return;
    }
    var serviceUrl := ServiceUrl(service);
    if serviceUrl.None? {
      return;
    }
    var base := serviceUrl.value;
    if base[|base| - 1] == '/' {
      base := base[..|base| - 1];
    }
    service.SetUrl(base + "/" + path.value);
  }

  /** The `name=value` pairs a query string or form body keeps: truthy-or-not per `keepFalsy`, never "null". */
  function EncodedPairs(entries: seq<(string, Json)>, keepFalsy: bool): (r: seq<string>)
    ensures |r| <= |entries|
  {
    if entries == [] then []
    else
      var (k, v) := entries[|entries| - 1];
      var value := EncodeFormPostValue(ToJsString(v));
      var keep := (keepFalsy || Truthy(v)) && value != "null";
      EncodedPairs(entries[..|entries| - 1], keepFalsy) + (if keep then [k + "=" + value] else [])
  }

  /** One more entry extends the kept pairs by at most that entry's pair. */
  lemma EncodedPairsStep(entries: seq<(string, Json)>, i: nat, keepFalsy: bool)
    requires i < |entries|
    ensures EncodedPairs(entries[..i + 1], keepFalsy) ==
      EncodedPairs(entries[..i], keepFalsy) +
      (var value := EncodeFormPostValue(ToJsString(entries[i].1));
       if (keepFalsy || Truthy(entries[i].1)) && value != "null" then [entries[i].0 + "=" + value] else [])
  {
    assert entries[..i + 1][..i] == entries[..i];
  }

  /** The separator put between the URL and the query: `&` when it already has a `?`. */
  function QuerySeparator(url: string): string
  {
    if '?' in url then "&" else "?"
  }

  /**
   * `appendQuerystringParams`: a no-op for a missing service, empty params or
   * a missing credential URL; otherwise the URL becomes the credential URL,
   * the separator, and the kept pairs joined by `&`.
   */
  method AppendQuerystringParams(service: Service?, urlParams: Json)
    modifies service
    ensures service != null ==>
      service.url ==
        (if Truthy(urlParams) && |Entries(urlParams)| > 0 && ServiceUrl(service).Some?
         then Some(ServiceUrl(service).value + QuerySeparator(ServiceUrl(service).value)
                   + Join(EncodedPairs(Entries(urlParams), false), "&"))
         else old(service.url))
    ensures service != null ==>
      service.credentialUrl == old(service.credentialUrl) &&
      service.requestMethod == old(service.requestMethod) &&
      service.cachingTtl == old(service.cachingTtl) &&
      service.headers == old(service.headers) && service.params == old(service.params)
  {
    if service == null || !Truthy(urlParams) || |Entries(urlParams)| == 0 {
      return;
    }
    var serviceUrl := ServiceUrl(service);
    if serviceUrl.None? {
      return;
    }
    var entries := Entries(urlParams);
    var qs: seq<string> := [];
    var i := 0;
    while i < |entries|
      invariant 0 <= i <= |entries|
      invariant qs == EncodedPairs(entries[..i], false)
      invariant unchanged(service)
    {
      var (fieldName, v) := entries[i];
      EncodedPairsStep(entries, i, false);
      if Truthy(v) {
        var value := EncodeFormPostValue(ToJsString(v));
        if value != "null" {
          qs := qs + [fieldName + "=" + value];
        }
      }
      i := i + 1;
    }
    assert entries[..i] == entries;
    var url := serviceUrl.value;
    url := url + QuerySeparator(url) + Join(qs, "&");
    service.SetUrl(url);
  }

  /** The parameters `appendParams` adds: every field with a truthy value, as a string. */
  function TruthyParams(entries: seq<(string, Json)>): (r: seq<(string, string)>)
    ensures |r| <= |entries|
  {
    if entries == [] then []
    else
      var (k, v) := entries[|entries| - 1];
      var front := TruthyParams(entries[..|entries| - 1]);
      if Truthy(v) then front + [(k, ToJsString(v))] else front
  }

  /** `p` is the parameter some truthy field yields. */
  predicate ParamOf(entries: seq<(string, Json)>, p: (string, string))
  {
    exists i :: 0 <= i < |entries| && p == (entries[i].0, ToJsString(entries[i].1)) && Truthy(entries[i].1)
  }

  /** The parameters are exactly those of the truthy fields: none is invented and none is dropped. */
  lemma {:induction false} TruthyParamsExact(entries: seq<(string, Json)>)
    ensures forall p :: p in TruthyParams(entries) <==> ParamOf(entries, p)
  {
    if entries != [] {
      var n := |entries| - 1;
      var front := entries[..n];
      TruthyParamsExact(front);
      forall p
        ensures p in TruthyParams(entries) <==> ParamOf(entries, p)
      {
        if ParamOf(front, p) {
          var i :| 0 <= i < |front| && p == (front[i].0, ToJsString(front[i].1)) && Truthy(front[i].1);
          assert front[i] == entries[i];
        }
        if ParamOf(entries, p) {
          var i :| 0 <= i < |entries| && p == (entries[i].0, ToJsString(entries[i].1)) && Truthy(entries[i].1);
          if i < n {
            assert front[i] == entries[i];
            assert ParamOf(front, p);
          }
        }
      }
    }
  }

  /** `appendParams`: each truthy field becomes a request parameter, in key order. */
  method AppendParams(service: Service?, requestData: Json)
    modifies service
    ensures service != null ==>
      service.params ==
        (if Truthy(requestData) then old(service.params) + TruthyParams(Entries(requestData))
         else old(service.params))
    ensures service != null ==>
      service.credentialUrl == old(service.credentialUrl) && service.url == old(service.url) &&
      service.requestMethod == old(service.requestMethod) &&
      service.cachingTtl == old(service.cachingTtl) && service.headers == old(service.headers)
  {
    if service != null && Truthy(requestData) && |Entries(requestData)| > 0 {
      var entries := Entries(requestData);
      var i := 0;
      while i < |entries|
        invariant 0 <= i <= |entries|
        invariant service.params == old(service.params) + TruthyParams(entries[..i])
        invariant service.credentialUrl == old(service.credentialUrl) && service.url == old(service.url)
        invariant service.requestMethod == old(service.requestMethod)
        invariant service.cachingTtl == old(service.cachingTtl) && service.headers == old(service.headers)
      {
        var (fieldName, v) := entries[i];
        if Truthy(v) {
          service.AddParam(fieldName, ToJsString(v));
        }
        assert entries[..i + 1][..i] == entries[..i];
        i := i + 1;
      }
      assert entries[..i] == entries;
    }
  }

  // ---------------------------------------------------------------------------
  // Form bodies

  /** `buildFormPostRequest`: "" for a falsy or key-less input, else the kept pairs joined by `&`. */
  method BuildFormPostRequest(requestData: Json) returns (body: string)
    ensures body == if !Truthy(requestData) then "" else Join(EncodedPairs(Entries(requestData), true), "&")
  {
    if !Truthy(requestData) || |Entries(requestData)| == 0 {
      return "";
    }
    var entries := Entries(requestData);
    var formData: seq<string> := [];
    var i := 0;
    while i < |entries|
      invariant 0 <= i <= |entries|
      invariant formData == EncodedPairs(entries[..i], true)
    {
      var (key, v) := entries[i];
      EncodedPairsStep(entries, i, true);
      var value := EncodeFormPostValue(ToJsString(v));
      if value != "null" {
        formData := formData + [key + "=" + value];
      }
      i := i + 1;
    }
    assert entries[..i] == entries;
    body := Join(formData, "&");
  }

  /** The form body as a pure value, for stating what it carries. */
  function FormBody(requestData: Json): string
  {
    if !Truthy(requestData) then "" else Join(EncodedPairs(Entries(requestData), true), "&")
  }

  /** The fields a form body carries: each value as a string, minus those that print as "null". */
  function KeptFields(entries: seq<(string, Json)>): seq<(string, string)>
  {
    if entries == [] then []
    else
      var (k, v) := entries[|entries| - 1];
      KeptFields(entries[..|entries| - 1]) + (if ToJsString(v) != "null" then [(k, ToJsString(v))] else [])
  }

  /** A receiver's reading of a form body: split on `&`, then on the first `=`, and percent-decode the value. */
  function DecodeForm(body: string): Option<seq<(string, string)>>
  {
    if body == "" then Some([]) else DecodePairs(Split(body, '&'))
  }

  function DecodePairs(segments: seq<string>): Option<seq<(string, string)>>
  {
    if segments == [] then Some([])
    else
      var front := DecodePairs(segments[..|segments| - 1]);
      var parts := Split(segments[|segments| - 1], '=');
      var raw := Join(parts[1..], "=");
      match (front, DecodeUriComponent(raw))
      case (Some(ps), Some(value)) => Some(ps + [(parts[0], value)])
      case _ => None
  }

  predicate PlainKey(k: string)
  {
    '&' !in k && '=' !in k
  }

  /** One encoded pair splits back into its key and a value that decodes to the original. */
  lemma PairDecodes(k: string, value: string)
    requires PlainKey(k)
    ensures var e := EncodeFormPostValue(value);
      '&' !in k + "=" + e &&
      Split(k + "=" + e, '=') == [k, e] &&
      DecodeUriComponent(Join([e], "=")) == Some(value)
  {
    var e := EncodeFormPostValue(value);
    FormValueHasNoSeparators(value);
    FormValueRoundTrip(value);
    SplitNoSep(e, '=');
    SplitPrefix(k, "=" + e, '=');
    assert ("=" + e)[1..] == e;
    assert k + "=" + e == k + ("=" + e);
  }

  lemma {:induction false} EncodedPairsShape(entries: seq<(string, Json)>)
    requires forall i :: 0 <= i < |entries| ==> PlainKey(entries[i].0)
    ensures forall j :: 0 <= j < |EncodedPairs(entries, true)| ==>
      '&' !in EncodedPairs(entries, true)[j] && '=' in EncodedPairs(entries, true)[j]
    ensures DecodePairs(EncodedPairs(entries, true)) == Some(KeptFields(entries))
  {
    if entries != [] {
      var front := entries[..|entries| - 1];
      var (k, v) := entries[|entries| - 1];
      EncodedPairsShape(front);
      var value := EncodeFormPostValue(ToJsString(v));
      EncodesToNull(ToJsString(v));
      var pairs := EncodedPairs(entries, true);
      if value != "null" {
        PairDecodes(k, ToJsString(v));
        assert pairs == EncodedPairs(front, true) + [k + "=" + value];
        assert pairs[..|pairs| - 1] == EncodedPairs(front, true);
        assert (k + "=" + value)[|k|] == '=';
      } else {
        assert pairs == EncodedPairs(front, true);
        assert KeptFields(entries) == KeptFields(front);
      }
    }
  }

  /**
   * Decoding the body `buildFormPostRequest` builds gives back every field in
   * key order, each value as the string it printed as, minus the "null" ones.
   * Keys are written unencoded, so this holds for keys without `&` or `=`.
   */
  lemma FormBodyRoundTrip(requestData: Json)
    requires forall i :: 0 <= i < |Entries(requestData)| ==> PlainKey(Entries(requestData)[i].0)
    ensures DecodeForm(FormBody(requestData)) ==
      Some(if Truthy(requestData) then KeptFields(Entries(requestData)) else [])
  {
    if Truthy(requestData) {
      var pairs := EncodedPairs(Entries(requestData), true);
      EncodedPairsShape(Entries(requestData));
      if |pairs| == 0 {
        assert KeptFields(Entries(requestData)) == [];
      } else {
        SplitJoin(pairs, '&');
        assert '=' in pairs[0];
        assert |Join(pairs, "&")| >= |pairs[0]|;
      }
    }
  }

  // ---------------------------------------------------------------------------
  // Response parsers

  /**
   * `parseJsonResponse`: succeeds exactly when the response has its own `text`
   * and that text parses to a truthy value; never throws.
   */
  function ParseJsonResponse(response: Option<HttpResponse>, parse: string -> Option<Json>): (r: ParsedResult)
    ensures r.success <==> r.responseObject.Some?
    ensures r.success <==>
      (response.Some? && response.value.text.Some? &&
       parse(response.value.text.value).Some? && Truthy(parse(response.value.text.value).value))
    ensures r.success ==> r.responseObject == parse(response.value.text.value)
  {
    if response.Some? && response.value.text.Some? then
      match parse(response.value.text.value)
      case Some(v) => if Truthy(v) then ParsedResult(true, Some(v)) else ParsedResult(false, None)
      case None => ParsedResult(false, None)
    else ParsedResult(false, None)
  }

  /** An empty body is not JSON, and a body that parses to a falsy value is a failure too. */
  lemma EmptyBodyFails(response: HttpResponse, parse: string -> Option<Json>)
    requires response.text == Some("")
    requires parse("").None?
    ensures ParseJsonResponse(Some(response), parse) == ParsedResult(false, None)
  {
  }

  predicate StatusOk(response: HttpResponse)
  {
    response.statusCode in OK_STATUS_CODES && response.statusMessage == "OK"
  }

  /** `parseArrayResponse`: success only for status 200 with message "OK"; a missing response is caught. */
  function ParseArrayResponse(response: Option<HttpResponse>): (success: bool)
    ensures success <==> response.Some? && response.value.statusCode == 200 && response.value.statusMessage == "OK"
  {
    response.Some? && StatusOk(response.value)
  }

  /** `parseTextResponse`: the same status test; the text is copied only when non-empty. */
  function ParseTextResponse(response: Option<HttpResponse>): (r: TextResult)
    ensures response.None? ==> r == TextResult(false, None)
    ensures r.success <==> response.Some? && response.value.statusCode == 200 && response.value.statusMessage == "OK"
    ensures r.responseText.Some? <==> response.Some? && Present(response.value.text)
    ensures r.responseText.Some? ==> r.responseText == response.value.text
  {
    if response.None? then TextResult(false, None)
    else
      var success := StatusOk(response.value);
      TextResult(success, if Present(response.value.text) then response.value.text else None)
  }
}
