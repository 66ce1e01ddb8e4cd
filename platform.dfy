/**
 * The platform objects the cartridge talks to, reduced to the state the
 * cartridge reads and writes: an outbound service (its URL, method, caching,
 * headers and parameters), the response a transport hands back, the customer
 * store with its external-identity links, and the shopper's session.
 */
module Platform {
  import opened JsValues

  /** An HTTP response as the service framework hands it to the callbacks. */
  datatype HttpResponse = HttpResponse(
    statusCode: int,
    statusMessage: string,
    text: Option<string>,      // own `text` property, when present
    errorText: Option<string>)

  /** An outbound HTTP service created for one call. */
  class Service {
    /** The URL of the configured credential; None when the configuration, the credential or its URL is missing. */
    var credentialUrl: Option<string>
    /** The URL set with `setURL`, which replaces the credential's for this call. */
    var url: Option<string>
    var requestMethod: Option<string>
    var cachingTtl: int
    var headers: seq<(string, string)>
    var params: seq<(string, string)>

    constructor (credentialUrl: Option<string>)
      ensures this.credentialUrl == credentialUrl && url == None && requestMethod == None
      ensures cachingTtl == 0 && headers == [] && params == []
    {
      this.credentialUrl := credentialUrl;
      url := None;
      requestMethod := None;
      cachingTtl := 0;
      headers := [];
      params := [];
    }

    /** `service.URL`: the URL set for this call, else the credential's. */
    function Url(): Option<string>
      reads this
    {
      if url.Some? then url else credentialUrl
    }

    method SetUrl(u: string)
      modifies this`url
      ensures url == Some(u)
    {
      url := Some(u);
    }

    method SetRequestMethod(m: string)
      modifies this`requestMethod
      ensures requestMethod == Some(m)
    {
      requestMethod := Some(m);
    }

    method SetCachingTtl(seconds: int)
      modifies this`cachingTtl
      ensures cachingTtl == seconds
    {
      cachingTtl := seconds;
    }

    method AddHeader(name: string, value: string)
      modifies this`headers
      ensures headers == old(headers) + [(name, value)]
    {
      headers := headers + [(name, value)];
    }

    method AddParam(name: string, value: string)
      modifies this`params
      ensures params == old(params) + [(name, value)]
    {
      params := params + [(name, value)];
    }
  }

  // ---------------------------------------------------------------------------
  // Customer store

  datatype ExternalProfile = ExternalProfile(providerId: string, userId: string, email: Option<string>)

  datatype Profile = Profile(
    email: Option<string>,
    firstName: Option<string>,
    lastName: Option<string>,
    credentialsEnabled: bool)

  datatype Customer = Customer(login: Option<string>, profile: Profile, externalProfiles: seq<ExternalProfile>)

  predicate LinkedTo(c: Customer, providerId: string, userId: string)
  {
    exists j :: 0 <= j < |c.externalProfiles| &&
      c.externalProfiles[j].providerId == providerId && c.externalProfiles[j].userId == userId
  }

  /** The first customer whose external profiles include (providerId, userId). */
  function FindLinked(cs: seq<Customer>, providerId: string, userId: string): (r: Option<nat>)
    ensures r.Some? ==> r.value < |cs| && LinkedTo(cs[r.value], providerId, userId)
    ensures r.Some? ==> forall i :: 0 <= i < r.value ==> !LinkedTo(cs[i], providerId, userId)
    ensures r.None? <==> forall i :: 0 <= i < |cs| ==> !LinkedTo(cs[i], providerId, userId)
  {
    if cs == [] then None
    else if LinkedTo(cs[0], providerId, userId) then Some(0)
    else
      match FindLinked(cs[1..], providerId, userId)
      case None => None
      case Some(i) => Some(i + 1)
  }

  /** The first customer whose login is `login`. */
  function FindByLogin(cs: seq<Customer>, login: string): (r: Option<nat>)
    ensures r.Some? ==> r.value < |cs| && cs[r.value].login == Some(login)
    ensures r.Some? ==> forall i :: 0 <= i < r.value ==> cs[i].login != Some(login)
    ensures r.None? <==> forall i :: 0 <= i < |cs| ==> cs[i].login != Some(login)
  {
    if cs == [] then None
    else if cs[0].login == Some(login) then Some(0)
    else
      match FindByLogin(cs[1..], login)
      case None => None
      case Some(i) => Some(i + 1)
  }

  /** The customers whose profile email is `email`, in store order. */
  function SearchByEmail(cs: seq<Customer>, email: string, from: nat := 0): (r: seq<nat>)
    requires from <= |cs|
    ensures forall k :: 0 <= k < |r| ==> from <= r[k] < |cs| && cs[r[k]].profile.email == Some(email)
    ensures forall k, l :: 0 <= k < l < |r| ==> r[k] < r[l]
    ensures forall i :: from <= i < |cs| && cs[i].profile.email == Some(email) ==> i in r
    decreases |cs| - from
  {
    if from == |cs| then []
    else if cs[from].profile.email == Some(email) then [from] + SearchByEmail(cs, email, from + 1)
    else SearchByEmail(cs, email, from + 1)
  }

  /** `customer.createExternalProfile(providerId, userId)` on customer `id`. */
  function AddExternalProfile(cs: seq<Customer>, id: nat, providerId: string, userId: string): (r: seq<Customer>)
    requires id < |cs|
    ensures |r| == |cs| && LinkedTo(r[id], providerId, userId)
    ensures r[id] == cs[id].(externalProfiles := cs[id].externalProfiles + [ExternalProfile(providerId, userId, None)])
    ensures forall j :: 0 <= j < |cs| && j != id ==> r[j] == cs[j]
  {
    var c := cs[id];
    var ext := c.externalProfiles + [ExternalProfile(providerId, userId, None)];
    assert ext[|ext| - 1].providerId == providerId;
    cs[id := c.(externalProfiles := ext)]
  }

  /** `externalProfile.setEmail(email)` on the link (providerId, userId) of customer `id`. */
  function SetExternalEmail(cs: seq<Customer>, id: nat, providerId: string, userId: string, email: string): (r: seq<Customer>)
    requires id < |cs|
    ensures |r| == |cs|
    ensures forall j :: 0 <= j < |cs| && j != id ==> r[j] == cs[j]
    ensures r[id].login == cs[id].login && r[id].profile == cs[id].profile
    ensures |r[id].externalProfiles| == |cs[id].externalProfiles|
    ensures forall k :: 0 <= k < |cs[id].externalProfiles| ==>
      r[id].externalProfiles[k].providerId == cs[id].externalProfiles[k].providerId &&
      r[id].externalProfiles[k].userId == cs[id].externalProfiles[k].userId &&
      r[id].externalProfiles[k].email ==
        if cs[id].externalProfiles[k].providerId == providerId && cs[id].externalProfiles[k].userId == userId
        then Some(email) else cs[id].externalProfiles[k].email
  {
    var ext := cs[id].externalProfiles;
    var ext' := seq(|ext|, j requires 0 <= j < |ext| =>
                      if ext[j].providerId == providerId && ext[j].userId == userId
                      then ext[j].(email := Some(email)) else ext[j]);
    cs[id := cs[id].(externalProfiles := ext')]
  }

  /** The customer store (`CustomerMgr`). */
  class CustomerStore {
    var customers: seq<Customer>

    constructor (customers: seq<Customer>)
      ensures this.customers == customers
    {
      this.customers := customers;
    }

    /** `getExternallyAuthenticatedCustomerProfile(providerId, userId)`, as a customer number. */
    function LinkedCustomer(providerId: string, userId: string): Option<nat>
      reads this
    {
      FindLinked(customers, providerId, userId)
    }

    predicate CredentialsEnabled(id: nat)
      reads this
    {
      id < |customers| && customers[id].profile.credentialsEnabled
    }

    /** The end of a transaction that completed: its writes become the store's contents. */
    method Commit(draft: seq<Customer>)
      modifies this
      ensures customers == draft
    {
      customers := draft;
    }
  }

  /** The shopper's session: its privacy cache and whom it is logged in as. */
  class Session {
    var privacyCache: map<string, string>
    var authenticatedCustomer: Option<nat>

    constructor (privacyCache: map<string, string>)
      ensures this.privacyCache == privacyCache && authenticatedCustomer == None
    {
      this.privacyCache := privacyCache;
      authenticatedCustomer := None;
    }

    /**
     * `CustomerMgr.loginExternallyAuthenticatedCustomer(providerId, userId, false)`:
     * logs the session in as the customer linked to the identity, if there is one.
     */
    method LoginExternal(store: CustomerStore, providerId: string, userId: string)
      modifies this`authenticatedCustomer
      ensures authenticatedCustomer ==
        if store.LinkedCustomer(providerId, userId).Some? then store.LinkedCustomer(providerId, userId)
        else old(authenticatedCustomer)
    {
      var linked := FindLinked(store.customers, providerId, userId);
      if linked.Some? {
        authenticatedCustomer := linked;
      }
    }

    /** `privacyCache.clear()` followed by `privacyCache.set(key, value)`. */
    method ResetPrivacyCache(key: string, value: string)
      modifies this`privacyCache
      ensures privacyCache == map[key := value]
    {
      privacyCache := map[];
      privacyCache := privacyCache[key := value];
    }
  }
}
