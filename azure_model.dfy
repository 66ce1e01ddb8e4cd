/**
 * The user-info model: guards the access token, runs one call of the
 * user-info service and shapes the result so that `success` holds exactly
 * when a response object is returned.
 *
 * The service call follows the platform's call protocol: the configuration
 * builds the request, the transport (or, in mock mode, the configuration's
 * mock) produces a response, and the configuration parses it. The transport
 * is I/O, so the response it would produce is a parameter.
 */
module AzureModel {
  import opened JsValues
  import opened Platform
  import opened ServiceHelpers
  import opened ServiceFactory
  import opened MockService
  import opened ServiceConfig

  /**
   * The result of `getUserInfo` for a token, the mode, the transport's
   * response and the success fixture: no call without a present token; a
   * response outside 2xx is a failure; the body must parse to a truthy value.
   */
  function UserInfo(accessToken: Option<string>, mockMode: bool, transport: Option<HttpResponse>,
                    parse: string -> Option<Json>, fixture: Option<seq<(string, Json)>>): (r: ParsedResult)
    ensures r.success <==> r.responseObject.Some?
    ensures r.success ==> Truthy(r.responseObject.value) && Present(accessToken)
    ensures !mockMode && r.success ==> transport.Some? && 200 <= transport.value.statusCode < 300
  {
    if !Present(accessToken) then ParsedResult(false, None)
    else if mockMode then ParseJsonResponse(Some(HttpResponse(200, "OK", Some(MockText(fixture)), None)), parse)
    else if transport.Some? && 200 <= transport.value.statusCode < 300 then ParseJsonResponse(transport, parse)
    else ParsedResult(false, None)
  }

  /** `AzureModel.getUserInfo(accessToken)`; never throws. */
  method GetUserInfo(accessToken: Option<string>, config: AzureConfig, service: Service,
                     mockMode: bool, success: MockObject, error: MockObject,
                     transport: Option<HttpResponse>, parse: string -> Option<Json>)
    returns (r: ParsedResult)
    requires success != error
    modifies config, service, success, error
    ensures r == UserInfo(accessToken, mockMode, transport, parse, old(success.fields))
    ensures Present(accessToken) && mockMode ==>
      success.fields == Marked(old(success.fields)) && error.fields == old(error.fields)
    ensures !(Present(accessToken) && mockMode) ==> unchanged(success, error)
    ensures !Present(accessToken) ==> r == ParsedResult(false, None) && unchanged(config, service, success, error)
    ensures Present(accessToken) ==>
      config.serviceAction == Some(ACTION_USER_INFO) &&
      service.requestMethod == Some("POST") &&
      service.headers == old(service.headers) + [("Authorization", "Bearer " + accessToken.value)] &&
      service.url == old(service.url) && service.params == old(service.params) &&
      service.cachingTtl == old(service.cachingTtl)
  {
    r := ParsedResult(false, None);
    if !Present(accessToken) {
      return;
    }
    var container := BuildGetUserInfoRequestContainer(accessToken.value);
    assert container.headers == [("Authorization", "Bearer " + accessToken.value)] by {
      assert Lookup(container.headers, "Authorization") == Some("Bearer " + accessToken.value);
    }
    // azureService.call(requestContainer)
    var body := config.CreateRequest(service, container);
    var response: Option<HttpResponse>;
    if mockMode {
      var mocked := config.MockCall(service, success, error);
      response := Some(mocked);
    } else {
      response := transport;
    }
    var outcome := config.ParseResponse(response, parse);
    var isOk := Succeeded(outcome);
    if isOk && outcome.Parsed? && outcome.result.responseObject.Some? && Truthy(outcome.result.responseObject.value) {
      r := ParsedResult(true, outcome.result.responseObject);
    }
  }
}
