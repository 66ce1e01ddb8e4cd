/**
 * The request-container builder for the Azure services: the service and
 * action identifiers, and the container for the OpenID Connect UserInfo
 * request (section 5.3 of OpenID Connect Core 1.0), which carries the access
 * token as a bearer credential (section 2.1 of RFC 6750).
 */
module ServiceFactory {
  import opened JsValues

  /** `ACTIONS.USER_INFO`: the action the service configuration dispatches on. */
  const ACTION_USER_INFO: string := "USER_INFO"

  /**
   * What `createRequest` reads from a request container. An absent property
   * is None (or JNull for the JSON-valued ones); headers keep their key order.
   */
  datatype RequestContainer = RequestContainer(
    action: Option<string>,
    requestMethod: Option<string>,
    path: Option<string>,
    params: Json,
    serviceUrl: Option<string>,
    headers: seq<(string, string)>,
    data: Json)

  /** The token a receiver reads from the `Authorization` header: what follows `Bearer `. */
  function BearerToken(headers: seq<(string, string)>): (r: Option<string>)
    ensures r.Some? ==> Lookup(headers, "Authorization") == Some("Bearer " + r.value)
  {
    match Lookup(headers, "Authorization")
    case Some(v) =>
      if |v| >= 7 && v[..7] == "Bearer " then
        assert v == "Bearer " + v[7..];
        Some(v[7..])
      else None
    case None => None
  }

  /** `buildGetUserInfoRequestContainer({accessToken})`: a POST with the bearer header and nothing else. */
  function BuildGetUserInfoRequestContainer(accessToken: string): (r: RequestContainer)
    ensures r.requestMethod == Some("POST") && r.action == Some(ACTION_USER_INFO)
    ensures r.path.None? && r.params == JNull && r.serviceUrl.None? && r.data == JNull
    ensures |r.headers| == 1 && BearerToken(r.headers) == Some(accessToken)
  {
    var header := "Bearer " + accessToken;
    assert header[..7] == "Bearer " && header[7..] == accessToken;
    RequestContainer(Some(ACTION_USER_INFO), Some("POST"), None, JNull, None,
                     [("Authorization", header)], JNull)
  }
}
