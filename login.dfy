/**
 * `Login-OAuthReentryAzure`, the endpoint the provider redirects back to:
 * it obtains the access token, asks the user-info service for the claims,
 * finds or creates the customer linked to the identity, logs that customer
 * in and redirects to the page the login started from. Every failure renders
 * the error page with the login-failure message.
 */
module LoginController {
  import opened JsValues
  import opened Platform
  import opened ServiceHelpers
  import opened MockService
  import opened ServiceConfig
  import opened AzureModel
  import opened ExternalAuthHelpers

  /** What `OAuthLoginFlowMgr.obtainAccessToken()` returns when it returns something. */
  datatype AccessTokenResult = AccessTokenResult(accessToken: Option<string>, oauthProviderId: Option<string>)

  /** The response the controller sends: the error page with a message, or a redirect. */
  datatype Outcome =
    | Render(template: string, messageKey: string)
    | Redirect(destination: Option<string>)

  const ERROR_TEMPLATE: string := "/error"
  /** The resource key of the message the error page shows (bundle `login`). */
  const ERROR_MESSAGE_KEY: string := "error.oauth.login.failure"
  const TARGET_KEY: string := "oauthLoginTargetEndPoint"
  const PROVIDER_KEY: string := "oauthProviderID"
  const LOGGED_IN_HOOK: string := "app.customer.loggedIn"

  /** The error page every failure renders. */
  function Failure(): (r: Outcome)
    ensures r.Render? && r.template == ERROR_TEMPLATE && r.messageKey == ERROR_MESSAGE_KEY
  {
    Render(ERROR_TEMPLATE, ERROR_MESSAGE_KEY)
  }

  /** The login target kept in the privacy cache, if any. */
  function Destination(cache: map<string, string>): (r: Option<string>)
    ensures r.Some? <==> TARGET_KEY in cache
    ensures r.Some? ==> r.value == cache[TARGET_KEY]
  {
    if TARGET_KEY in cache then Some(cache[TARGET_KEY]) else None
  }

  /** A string claim of the user-info object; a missing or non-string claim is absent. */
  function Claim(claims: Json, key: string): (r: Option<string>)
    ensures r.Some? <==> claims.JObj? && Lookup(claims.fields, key).Some? && Lookup(claims.fields, key).value.JStr?
    ensures r.Some? ==> Lookup(claims.fields, key) == Some(JStr(r.value))
  {
    if claims.JObj? && Lookup(claims.fields, key).Some? && Lookup(claims.fields, key).value.JStr?
    then Some(Lookup(claims.fields, key).value.s)
    else None
  }

  /** The `profileInfo` object built from the claims. */
  function ProfileInfoOf(claims: Json): (r: ProfileInfo)
    ensures r.email == Claim(claims, "email")
    ensures r.firstName == Claim(claims, "given_name") && r.lastName == Claim(claims, "family_name")
  {
    ProfileInfo(Claim(claims, "email"), Claim(claims, "given_name"), Claim(claims, "family_name"))
  }

  /** The user id the flow continues with: the truthy `sub` claim of a successful user-info call. */
  function Subject(userInfo: ParsedResult): (r: Option<string>)
    ensures r.Some? ==> userInfo.success && userInfo.responseObject.Some? && r.value != ""
    ensures r.Some? ==> Claim(userInfo.responseObject.value, "sub") == r
    ensures r.Some? <==>
      userInfo.success && userInfo.responseObject.Some? && Present(Claim(userInfo.responseObject.value, "sub"))
  {
    if userInfo.success && userInfo.responseObject.Some? && Present(Claim(userInfo.responseObject.value, "sub"))
    then Claim(userInfo.responseObject.value, "sub")
    else None
  }

  /**
   * The customer the flow continues with and the store afterwards: the one
   * already linked to the identity, else what `createExternalCustomer`
   * resolves. Whichever it is, the identity is linked to it and to no
   * customer before it, so logging in by identity logs in exactly that one.
   */
  function CustomerFor(cs: seq<Customer>, site: Option<Site>, providerId: string, userId: string,
                       info: ProfileInfo): (r: Resolution)
    ensures r.profile.Some? ==> r.profile.value < |r.customers|
    ensures r.profile.Some? ==> FindLinked(r.customers, providerId, userId) == r.profile
    ensures FindLinked(cs, providerId, userId).Some? ==> r == Resolution(FindLinked(cs, providerId, userId), cs)
    ensures FindLinked(cs, providerId, userId).None? && !Present(info.email) ==> r == Resolution(None, cs)
    ensures FindLinked(cs, providerId, userId).None? && Present(info.email) ==> r.profile.Some?
  {
    if FindLinked(cs, providerId, userId).Some? then Resolution(FindLinked(cs, providerId, userId), cs)
    else if !Present(info.email) then Resolution(None, cs)
    else
      var merge := Truthy(GetSitePreference(Some(MERGE_PREFERENCE), site));
      ResolveLinks(cs, merge, providerId, userId, info.email.value, info);
      Resolve(cs, merge, providerId, userId, info.email.value, info)
  }

  /**
   * `Login-OAuthReentryAzure`. The token exchange is I/O: its result is a
   * parameter, as are the transport's response for the user-info call and
   * whether a `app.customer.loggedIn` hook is registered. `hookCalled` says
   * whether the hook ran.
   *
   * The flow fails, changing neither the session nor the store, without a
   * token result, an access token or a provider id, without a successful
   * user-info call, and without a `sub` claim. With them, the store ends as
   * resolving the customer leaves it; the flow fails when no customer is
   * resolved or its credentials are disabled, and otherwise logs the session
   * in as that customer, runs the hook, leaves only the provider id in the
   * privacy cache and redirects to the target read at the start.
   */
  method OAuthReentryAzure(session: Session, store: CustomerStore, site: Option<Site>,
                           tokenResult: Option<AccessTokenResult>,
                           config: AzureConfig, service: Service, mockMode: bool,
                           success: MockObject, error: MockObject,
                           transport: Option<HttpResponse>, parse: string -> Option<Json>,
                           hookRegistered: bool)
    returns (outcome: Outcome, hookCalled: bool)
    requires success != error
    modifies session, store, config, service, success, error
    ensures outcome.Render? ==> outcome == Failure()
    ensures outcome.Render? ==>
      session.privacyCache == old(session.privacyCache) &&
      session.authenticatedCustomer == old(session.authenticatedCustomer)
    ensures hookCalled <==> outcome.Redirect? && hookRegistered
    ensures tokenResult.None? || !Present(tokenResult.value.accessToken) || !Present(tokenResult.value.oauthProviderId) ==>
      outcome == Failure() && store.customers == old(store.customers)
    ensures tokenResult.None? || !Present(tokenResult.value.accessToken) || !Present(tokenResult.value.oauthProviderId) ==>
      unchanged(config, service)
    ensures tokenResult.Some? && Present(tokenResult.value.accessToken) && Present(tokenResult.value.oauthProviderId) && mockMode ==>
      success.fields == Marked(old(success.fields)) && error.fields == old(error.fields)
    ensures !(tokenResult.Some? && Present(tokenResult.value.accessToken) && Present(tokenResult.value.oauthProviderId) && mockMode) ==>
      unchanged(success, error)
    ensures tokenResult.Some? && Present(tokenResult.value.accessToken) && Present(tokenResult.value.oauthProviderId) ==>
      var providerId := tokenResult.value.oauthProviderId.value;
      var userInfo := UserInfo(tokenResult.value.accessToken, mockMode, transport, parse, old(success.fields));
      var userId := Subject(userInfo);
      (userId.None? ==> outcome == Failure() && store.customers == old(store.customers)) &&
      (userId.Some? ==>
        var res := CustomerFor(old(store.customers), site, providerId, userId.value,
                               ProfileInfoOf(userInfo.responseObject.value));
        store.customers == res.customers &&
        (outcome.Redirect? <==> res.profile.Some? && res.customers[res.profile.value].profile.credentialsEnabled) &&
        (outcome.Redirect? ==>
          session.authenticatedCustomer == res.profile &&
          session.privacyCache == map[PROVIDER_KEY := providerId] &&
          outcome.destination == Destination(old(session.privacyCache))))
  {
    hookCalled := false;
    outcome := Failure();
    var destination := Destination(session.privacyCache);
    if tokenResult.None? {
      return;
    }
    var accessToken, providerId := tokenResult.value.accessToken, tokenResult.value.oauthProviderId;
    if !Present(accessToken) || !Present(providerId) {
      return;
    }
    var userInfo := GetUserInfo(accessToken, config, service, mockMode, success, error, transport, parse);
    // `!userInfoResponse.success` and a falsy `responseObject` both render the error page
    var userId := Subject(userInfo);
    if userId.None? {
      return;
    }
    var info := ProfileInfoOf(userInfo.responseObject.value);
    var customerProfile := store.LinkedCustomer(providerId.value, userId.value);
    if customerProfile.None? {
      customerProfile := CreateExternalCustomer(store, site, userId, providerId, info);
    }
    if customerProfile.None? {
      return;
    }
    if !store.CredentialsEnabled(customerProfile.value) {
      return;
    }
    session.LoginExternal(store, providerId.value, userId.value);
    hookCalled := hookRegistered;
    session.ResetPrivacyCache(PROVIDER_KEY, providerId.value);
    outcome := Redirect(destination);
  }
}
