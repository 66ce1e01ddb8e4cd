/**
 * The callbacks the user-info service is created with (`AzureConfig`): the
 * request builder, the response parser, the mock and the log filter. The
 * configuration object is shared by all its calls, and `createRequest`
 * leaves the container's action in its `serviceAction` field, where the
 * parser and the mock read it afterwards.
 */
module ServiceConfig {
  import opened JsValues
  import opened Platform
  import opened ServiceHelpers
  import opened LogScrubbing
  import opened ServiceFactory
  import opened MockService

  /** The `Content-Type` header read by that exact key; an empty value counts as none. */
  function ContentType(headers: seq<(string, string)>): (r: Option<string>)
    ensures r.Some? ==> r.value != "" && Lookup(headers, "Content-Type") == r
    ensures r.None? ==> !Present(Lookup(headers, "Content-Type"))
  {
    var v := Lookup(headers, "Content-Type");
    if Present(v) then v else None
  }

  /**
   * The body `createRequest` returns: "" without data, the JSON text for
   * `application/json`, the form body for `application/x-www-form-urlencoded`,
   * and the data itself for any other or no content type.
   */
  function RequestBody(c: RequestContainer): (r: Json)
    ensures !Truthy(c.data) ==> r == JStr("")
    ensures ContentType(c.headers) == Some("application/json") && Truthy(c.data) ==> r == JStr(Serialize(c.data))
    ensures ContentType(c.headers) == Some("application/x-www-form-urlencoded") ==> r == JStr(FormBody(c.data))
    ensures ContentType(c.headers) !in {Some("application/json"), Some("application/x-www-form-urlencoded")} && Truthy(c.data)
      ==> r == c.data
  {
    if !Truthy(c.data) then JStr("")
    else if ContentType(c.headers) == Some("application/json") then JStr(Serialize(c.data))
    else if ContentType(c.headers) == Some("application/x-www-form-urlencoded") then JStr(FormBody(c.data))
    else c.data
  }

  /** The URL after `createRequest`: the path is appended first, then a `serviceUrl` replaces the lot. */
  function RequestUrl(c: RequestContainer, credentialUrl: Option<string>, url: Option<string>): (r: Option<string>)
    ensures Present(c.serviceUrl) ==> r == c.serviceUrl
    ensures !Present(c.serviceUrl) && !Present(c.path) ==> r == url
    ensures !Present(c.serviceUrl) && Present(c.path) && Present(credentialUrl) ==>
      r == Some(JoinUrlPath(credentialUrl.value, c.path.value))
  {
    if Present(c.serviceUrl) then c.serviceUrl
    else if Present(c.path) && Present(credentialUrl) then Some(JoinUrlPath(credentialUrl.value, c.path.value))
    else url
  }

  /** What `parseResponse` hands back, or the error it throws. */
  datatype ParseOutcome =
    | Parsed(result: ParsedResult)       // the user-info action: `parseJsonResponse`
    | Raw(response: HttpResponse)        // any other action: the response itself
    | StatusError(message: string)       // the message of the error thrown for a non-2xx status
    | NoResponse                         // a null response: reading its status code throws

  predicate Succeeded(o: ParseOutcome)
  {
    o.Parsed? || o.Raw?
  }

  /** The message of the status error. */
  function StatusErrorMessage(code: int): (r: string)
    ensures |r| > 34 && r[..34] == "Service Errored with Status Code: "
    ensures r[34..] == IntToString(code)
  {
    "Service Errored with Status Code: " + IntToString(code)
  }

  /** `filterLogMessage(data)` as a value: None where `prepareFormLogData` throws. */
  function FilteredLog(filterKeys: seq<string>, data: string, parse: string -> Option<Json>): Option<string>
  {
    match parse(data)
    case Some(v) => if Truthy(v) then Some(Serialize(Redact(filterKeys, v))) else Some(data)
    case None => FormLogData(filterKeys, data)
  }

  /** Every header of the container is added to the service, in order. */
  method AddHeaders(service: Service, headers: seq<(string, string)>)
    modifies service`headers
    ensures service.headers == old(service.headers) + headers
  {
    var i := 0;
    while i < |headers|
      invariant 0 <= i <= |headers|
      invariant service.headers == old(service.headers) + headers[..i]
    {
      service.AddHeader(headers[i].0, headers[i].1);
      assert headers[..i + 1] == headers[..i] + [headers[i]];
      i := i + 1;
    }
    assert headers[..i] == headers;
  }

  /** The body-encoding `switch` at the end of `createRequest`. */
  method EncodeBody(c: RequestContainer) returns (body: Json)
    ensures body == RequestBody(c)
  {
    if !Truthy(c.data) {
      return JStr("");
    }
    var contentType := ContentType(c.headers);
    if contentType == Some("application/json") {
      body := JStr(Serialize(c.data));
    } else if contentType == Some("application/x-www-form-urlencoded") {
      var form := BuildFormPostRequest(c.data);
      body := JStr(form);
    } else {
      body := c.data;
    }
  }

  class AzureConfig {
    /** The action of the last request built; the parser and the mock dispatch on it. */
    var serviceAction: Option<string>

    constructor ()
      ensures serviceAction.None?
    {
      serviceAction := None;
    }

    /**
     * `createRequest(service, requestDataContainer)`: records the action, sets
     * the method (and a 60 s cache for GET), appends the path, adds the truthy
     * params, lets `serviceUrl` replace the URL, adds every header, and returns
     * the body in the encoding the `Content-Type` header names.
     */
    method CreateRequest(service: Service, c: RequestContainer) returns (body: Json)
      modifies this, service
      ensures serviceAction == c.action
      ensures service.requestMethod == if Present(c.requestMethod) then c.requestMethod else old(service.requestMethod)
      ensures service.cachingTtl == if c.requestMethod == Some("GET") then 60 else old(service.cachingTtl)
      ensures service.url == RequestUrl(c, old(service.credentialUrl), old(service.url))
      ensures service.params ==
        if Truthy(c.params) then old(service.params) + TruthyParams(Entries(c.params)) else old(service.params)
      ensures service.headers == old(service.headers) + c.headers
      ensures service.credentialUrl == old(service.credentialUrl)
      ensures body == RequestBody(c)
    {
      serviceAction := c.action;
      var requestMethod := c.requestMethod;
      if Present(requestMethod) {
        service.SetRequestMethod(requestMethod.value);
        if requestMethod.value == "GET" {
          service.SetCachingTtl(60);
        }
      }
      if Present(c.path) {
        AppendUrlPath(service, c.path);
      }
      if Truthy(c.params) {
        AppendParams(service, c.params);
      }
      if Present(c.serviceUrl) {
        service.SetUrl(c.serviceUrl.value);
      }
      AddHeaders(service, c.headers);
      body := EncodeBody(c);
    }

    /**
     * `parseResponse(service, serviceResponse)`: a status in [200, 300) is
     * accepted, and the user-info action parses the JSON body while any other
     * action gets the response back; every other status throws.
     */
    function ParseResponse(response: Option<HttpResponse>, parse: string -> Option<Json>): (r: ParseOutcome)
      reads this
      ensures Succeeded(r) <==> response.Some? && 200 <= response.value.statusCode < 300
      ensures r.Parsed? <==> Succeeded(r) && serviceAction == Some(ACTION_USER_INFO)
      ensures r.Parsed? ==> r.result == ParseJsonResponse(response, parse)
      ensures r.Raw? ==> r.response == response.value
      ensures response.Some? && !Succeeded(r) ==> r == StatusError(StatusErrorMessage(response.value.statusCode))
      ensures response.None? ==> r == NoResponse
    {
      if response.Some? && 200 <= response.value.statusCode < 300 then
        if serviceAction == Some(ACTION_USER_INFO) then Parsed(ParseJsonResponse(response, parse))
        else Raw(response.value)
      else if response.Some? then StatusError(StatusErrorMessage(response.value.statusCode))
      else NoResponse
    }

    /**
     * `mockCall(service)`: the user-info mock for the user-info action,
     * otherwise 200 "Success" with the service URL in the text.
     */
    method MockCall(service: Service, success: MockObject, error: MockObject) returns (r: HttpResponse)
      requires success != error
      modifies success, error
      ensures serviceAction == Some(ACTION_USER_INFO) ==>
        r == HttpResponse(200, "OK", Some(MockText(old(success.fields))), None) &&
        success.fields == Marked(old(success.fields)) && error.fields == old(error.fields)
      ensures serviceAction != Some(ACTION_USER_INFO) ==>
        r == HttpResponse(200, "Success",
                          Some("MOCK RESPONSE (" + (if service.Url().Some? then service.Url().value else "null") + ")"),
                          None)
      ensures serviceAction != Some(ACTION_USER_INFO) ==> unchanged(success, error)
    {
      if serviceAction == Some(ACTION_USER_INFO) {
        r := GetUserInfoResponse(MOCK_SUCCESS, success, error);
        return;
      }
      var url := service.Url();
      r := HttpResponse(200, "Success", Some("MOCK RESPONSE (" + (if url.Some? then url.value else "null") + ")"), None);
    }

    /**
     * `filterLogMessage(data)`: JSON is scrubbed and printed again, JSON that
     * parses to a falsy value is logged as it came, and anything else is
     * rendered as form data; None where that rendering throws.
     */
    method FilterLogMessage(filterKeys: seq<string>, data: string, parse: string -> Option<Json>) returns (r: Option<string>)
      ensures r == FilteredLog(filterKeys, data, parse)
    {
      var logObj := parse(data);
      if logObj.Some? {
        var result := Iterate(filterKeys, logObj.value);
        assert Truthy(result) <==> Truthy(logObj.value);
        return if Truthy(result) then Some(Serialize(result)) else Some(data);
      }
      r := PrepareFormLogData(filterKeys, data);
    }
  }

  /** The JSON form of a logged message never shows the value of a sensitive key. */
  lemma FilteredLogScrubs(filterKeys: seq<string>, data: string, parse: string -> Option<Json>)
    requires parse(data).Some? && Truthy(parse(data).value)
    ensures exists v :: Scrubbed(filterKeys, v) && FilteredLog(filterKeys, data, parse) == Some(Serialize(v))
  {
    RedactScrubs(filterKeys, parse(data).value);
  }

  /** A falsy parse keeps the message, and unparsable text goes the form-data way. */
  lemma FilteredLogFallbacks(filterKeys: seq<string>, data: string, parse: string -> Option<Json>)
    ensures parse(data).Some? && !Truthy(parse(data).value) ==> FilteredLog(filterKeys, data, parse) == Some(data)
    ensures parse(data).None? && data == "" ==> FilteredLog(filterKeys, data, parse) == Some("")
    ensures parse(data).None? && data != "" && FilteredLog(filterKeys, data, parse).Some? ==>
      FilteredLog(filterKeys, data, parse).value[0] == '\n'
  {
  }
}
