/**
 * Identity resolution for a first federated login: find or create the
 * customer an external identity (provider id, user id) belongs to, link the
 * identity to it and copy the claimed name and email onto its profile.
 *
 * Store rule assumed here: linking an identity that is already linked to a
 * customer (by `createExternalProfile` or `createExternallyAuthenticatedCustomer`)
 * throws, and a new externally authenticated customer has no login, an empty
 * profile and enabled credentials.
 */
module ExternalAuthHelpers {
  import opened JsValues
  import opened Platform

  /** The current site; None for a missing site or missing preferences. */
  datatype Site = Site(preferences: Option<map<string, Json>>)

  /** The claims passed as `profileInfo`. */
  datatype ProfileInfo = ProfileInfo(email: Option<string>, firstName: Option<string>, lastName: Option<string>)

  /**
   * `getSitePreference(name)`: null (JNull) for a missing name, site,
   * preferences or key; an enumeration value is unwrapped to its `value`.
   */
  function GetSitePreference(name: Option<string>, site: Option<Site>): (r: Json)
    ensures !Present(name) || site.None? || site.value.preferences.None? ==> r == JNull
    ensures Present(name) && site.Some? && site.value.preferences.Some? && name.value !in site.value.preferences.value
      ==> r == JNull
  {
    if !Present(name) || site.None? || site.value.preferences.None? then JNull
    else
      var prefs := site.value.preferences.value;
      var v := if name.value in prefs then prefs[name.value] else JNull;
      if Truthy(v) && v.JObj? && Lookup(v.fields, "value").Some? then Lookup(v.fields, "value").value else v
  }

  /** A present preference that is not an enumeration comes back as stored. */
  lemma SitePreferencePlain(name: string, prefs: map<string, Json>)
    requires name != "" && name in prefs
    requires !prefs[name].JObj? || Lookup(prefs[name].fields, "value").None?
    ensures GetSitePreference(Some(name), Some(Site(Some(prefs)))) == prefs[name]
  {
  }

  /** An enumeration preference comes back as its `value`. */
  lemma SitePreferenceUnwrapped(name: string, prefs: map<string, Json>, fields: seq<(string, Json)>, value: Json)
    requires name != "" && name in prefs && prefs[name] == JObj(fields)
    requires Lookup(fields, "value") == Some(value)
    ensures GetSitePreference(Some(name), Some(Site(Some(prefs)))) == value
  {
  }

  const MERGE_PREFERENCE: string := "enableMergeExternalAccounts"

  /** The first customer among `ids` whose credentials are enabled. */
  function FirstEnabled(cs: seq<Customer>, ids: seq<nat>): (r: Option<nat>)
    requires forall k :: 0 <= k < |ids| ==> ids[k] < |cs|
    ensures r.Some? ==> r.value in ids && r.value < |cs| && cs[r.value].profile.credentialsEnabled
    ensures r.Some? ==>
      exists k :: 0 <= k < |ids| && ids[k] == r.value && forall l :: 0 <= l < k ==> !cs[ids[l]].profile.credentialsEnabled
    ensures r.None? <==> forall k :: 0 <= k < |ids| ==> !cs[ids[k]].profile.credentialsEnabled
  {
    if ids == [] then None
    else if cs[ids[0]].profile.credentialsEnabled then Some(ids[0])
    else
      var r := FirstEnabled(cs, ids[1..]);
      if r.Some? then
        var k :| 0 <= k < |ids[1..]| && ids[1..][k] == r.value &&
          forall l :: 0 <= l < k ==> !cs[ids[1..][l]].profile.credentialsEnabled;
        assert ids[k + 1] == r.value;
        assert forall l :: 0 <= l < k + 1 ==> !cs[ids[l]].profile.credentialsEnabled by {
          forall l | 0 <= l < k + 1 ensures !cs[ids[l]].profile.credentialsEnabled {
            if l > 0 { assert ids[l] == ids[1..][l - 1]; }
          }
        }
        r
      else r
  }

  /** The customer the merge path picks: the one whose login is the email, else the first enabled one with that email. */
  function MergeTarget(cs: seq<Customer>, email: string): (r: Option<nat>)
    ensures r.Some? ==> r.value < |cs|
    ensures FindByLogin(cs, email).Some? ==> r == FindByLogin(cs, email)
  {
    if FindByLogin(cs, email).Some? then FindByLogin(cs, email)
    else FirstEnabled(cs, SearchByEmail(cs, email))
  }

  /** A fresh externally authenticated customer. */
  function NewExternalCustomer(providerId: string, userId: string): Customer
  {
    Customer(None, Profile(None, None, None, true), [ExternalProfile(providerId, userId, None)])
  }

  /** The profile writes at the end: the email always, each name only when the claim is non-empty. */
  function UpdateProfile(cs: seq<Customer>, id: nat, email: string, info: ProfileInfo): (r: seq<Customer>)
    requires id < |cs|
    ensures |r| == |cs|
    ensures r[id].profile.email == Some(email)
    ensures r[id].profile.firstName == if Present(info.firstName) then info.firstName else cs[id].profile.firstName
    ensures r[id].profile.lastName == if Present(info.lastName) then info.lastName else cs[id].profile.lastName
    ensures r[id].profile.credentialsEnabled == cs[id].profile.credentialsEnabled
    ensures r[id].login == cs[id].login && r[id].externalProfiles == cs[id].externalProfiles
    ensures forall j :: 0 <= j < |cs| && j != id ==> r[j] == cs[j]
  {
    var p := cs[id].profile;
    var p' := p.(email := Some(email),
                 firstName := if Present(info.firstName) then info.firstName else p.firstName,
                 lastName := if Present(info.lastName) then info.lastName else p.lastName);
    cs[id := cs[id].(profile := p')]
  }

  /** What `createExternalCustomer` returns and what the store holds afterwards. */
  datatype Resolution = Resolution(profile: Option<nat>, customers: seq<Customer>)

  /** The writes after the link exists: the link's email, then the profile. */
  function Finish(cs: seq<Customer>, id: nat, providerId: string, userId: string, email: string, info: ProfileInfo): (r: seq<Customer>)
    requires id < |cs|
    ensures |r| == |cs|
  {
    UpdateProfile(SetExternalEmail(cs, id, providerId, userId, email), id, email, info)
  }

  /**
   * The outcome of `createExternalCustomer` for the given store contents and
   * merge setting, with the guards passed. A throwing store call rolls the
   * transaction back, and the profile picked before it is still returned.
   */
  function Resolve(cs: seq<Customer>, merge: bool, providerId: string, userId: string, email: string,
                   info: ProfileInfo): (r: Resolution)
    ensures r.profile.Some? ==> r.profile.value < |r.customers|
  {
    var target := if merge then MergeTarget(cs, email) else None;
    var alreadyLinked := FindLinked(cs, providerId, userId).Some?;
    if alreadyLinked then Resolution(target, cs)
    else if target.Some? then
      Resolution(target, Finish(AddExternalProfile(cs, target.value, providerId, userId),
                                target.value, providerId, userId, email, info))
    else
      var grown := cs + [NewExternalCustomer(providerId, userId)];
      Resolution(Some(|cs|), Finish(grown, |cs|, providerId, userId, email, info))
  }

  /**
   * `createExternalCustomer(userId, providerId, profileInfo)`: null and no
   * store change without a user id, provider id or email; otherwise the
   * customer found by login, else the first enabled one found by email (merge
   * enabled only), else a new customer, linked to the identity.
   */
  method CreateExternalCustomer(store: CustomerStore, site: Option<Site>,
                                userId: Option<string>, providerId: Option<string>, info: ProfileInfo)
    returns (customerProfile: Option<nat>)
    modifies store
    ensures !Present(userId) || !Present(providerId) || !Present(info.email) ==>
      customerProfile.None? && store.customers == old(store.customers)
    ensures Present(userId) && Present(providerId) && Present(info.email) ==>
      var r := Resolve(old(store.customers), Truthy(GetSitePreference(Some(MERGE_PREFERENCE), site)),
                       providerId.value, userId.value, info.email.value, info);
      customerProfile == r.profile && store.customers == r.customers
    ensures customerProfile.Some? ==> customerProfile.value < |store.customers|
  {
    customerProfile := None;
    if !Present(userId) || !Present(providerId) || !Present(info.email) {
      return;
    }
    var u, p, email := userId.value, providerId.value, info.email.value;
    var cs := store.customers;  // the transaction's working copy
    var alreadyLinked := FindLinked(cs, p, u).Some?;
    var linkedTo: Option<nat> := None;  // the customer `externalProfile` belongs to
    var merge := Truthy(GetSitePreference(Some(MERGE_PREFERENCE), site));
    if merge {
      var byLogin := FindByLogin(cs, email);
      if byLogin.Some? {
        customerProfile := byLogin;
        if alreadyLinked {
          return;  // createExternalProfile throws; the transaction is rolled back
        }
        linkedTo := byLogin;
      } else {
        var profiles := SearchByEmail(cs, email);
        var i := 0;
        while i < |profiles|
          invariant 0 <= i <= |profiles|
          invariant FirstEnabled(cs, profiles) == FirstEnabled(cs, profiles[i..])
          invariant customerProfile.None? && linkedTo.None?
        {
          if cs[profiles[i]].profile.credentialsEnabled {
            customerProfile := Some(profiles[i]);
            if alreadyLinked {
              return;  // createExternalProfile throws
            }
            linkedTo := customerProfile;
            break;
          }
          assert profiles[i..][1..] == profiles[i + 1..];
          i := i + 1;
        }
        assert linkedTo == FirstEnabled(cs, profiles);
      }
    }
    assert linkedTo == (if merge then MergeTarget(cs, email) else None);
    if linkedTo.None? {
      if alreadyLinked {
        return;  // createExternallyAuthenticatedCustomer throws
      }
      cs := cs + [NewExternalCustomer(p, u)];
      linkedTo := Some(|cs| - 1);
      customerProfile := linkedTo;
    } else {
      cs := AddExternalProfile(cs, linkedTo.value, p, u);
    }
    cs := SetExternalEmail(cs, linkedTo.value, p, u, email);
    cs := UpdateProfile(cs, linkedTo.value, email, info);
    store.Commit(cs);
  }

  /** The identity's own entry on a customer, with the claimed email on it. */
  predicate LinkedWithEmail(c: Customer, providerId: string, userId: string, email: string)
  {
    exists k :: 0 <= k < |c.externalProfiles| &&
      c.externalProfiles[k] == ExternalProfile(providerId, userId, Some(email))
  }

  /** Linking, then setting the link's email, leaves the email on the identity's entry. */
  lemma FinishSetsEmail(cs: seq<Customer>, id: nat, providerId: string, userId: string, email: string, info: ProfileInfo)
    requires id < |cs| && LinkedTo(cs[id], providerId, userId)
    ensures LinkedWithEmail(Finish(cs, id, providerId, userId, email, info)[id], providerId, userId, email)
    ensures forall j :: 0 <= j < |cs| && j != id ==> Finish(cs, id, providerId, userId, email, info)[j] == cs[j]
  {
    var k :| 0 <= k < |cs[id].externalProfiles| &&
      cs[id].externalProfiles[k].providerId == providerId && cs[id].externalProfiles[k].userId == userId;
    var withEmail := SetExternalEmail(cs, id, providerId, userId, email);
    assert withEmail[id].externalProfiles[k] == ExternalProfile(providerId, userId, Some(email));
  }

  /**
   * When the identity was not linked yet, resolution always yields a
   * customer: the identity is then linked to that customer and to no other,
   * so `loginExternallyAuthenticatedCustomer` finds exactly it. The link
   * carries the claimed email, the profile has the email and every non-empty
   * claimed name, and no other existing customer is touched.
   */
  lemma {:induction false} ResolveLinks(cs: seq<Customer>, merge: bool, providerId: string, userId: string,
                                        email: string, info: ProfileInfo)
    requires FindLinked(cs, providerId, userId).None?
    ensures var r := Resolve(cs, merge, providerId, userId, email, info);
      r.profile.Some? &&
      FindLinked(r.customers, providerId, userId) == r.profile &&
      LinkedWithEmail(r.customers[r.profile.value], providerId, userId, email) &&
      r.customers[r.profile.value].profile.email == Some(email) &&
      (Present(info.firstName) ==> r.customers[r.profile.value].profile.firstName == info.firstName) &&
      (Present(info.lastName) ==> r.customers[r.profile.value].profile.lastName == info.lastName) &&
      (forall j :: 0 <= j < |cs| && Some(j) != r.profile ==> r.customers[j] == cs[j])
  {
    var r := Resolve(cs, merge, providerId, userId, email, info);
    var target := if merge then MergeTarget(cs, email) else None;
    var grown: seq<Customer>;
    var id: nat;
    if target.Some? {
      id := target.value;
      grown := AddExternalProfile(cs, id, providerId, userId);
    } else {
      id := |cs|;
      grown := cs + [NewExternalCustomer(providerId, userId)];
      assert grown[id].externalProfiles[0].providerId == providerId;
    }
    assert r.customers == Finish(grown, id, providerId, userId, email, info);
    FinishSetsEmail(grown, id, providerId, userId, email, info);
    var k :| 0 <= k < |r.customers[id].externalProfiles| &&
      r.customers[id].externalProfiles[k] == ExternalProfile(providerId, userId, Some(email));
    assert LinkedTo(r.customers[id], providerId, userId);
    forall j | 0 <= j < |r.customers| && j != id
      ensures !LinkedTo(r.customers[j], providerId, userId)
    {
      assert r.customers[j] == cs[j];
    }
    var found := FindLinked(r.customers, providerId, userId);
    assert found == Some(id);
  }

  /** A merge hit by login links that customer and creates none. */
  lemma LoginMatchLinks(cs: seq<Customer>, providerId: string, userId: string, email: string, info: ProfileInfo)
    requires FindLinked(cs, providerId, userId).None?
    requires FindByLogin(cs, email).Some?
    ensures var r := Resolve(cs, true, providerId, userId, email, info);
      r.profile == FindByLogin(cs, email) && |r.customers| == |cs| &&
      LinkedTo(r.customers[r.profile.value], providerId, userId)
  {
    ResolveLinks(cs, true, providerId, userId, email, info);
  }

  /**
   * Without a login hit, the merge links the first customer with that email
   * whose credentials are enabled; when there is none, or merging is off, a
   * new customer is created at the end of the store.
   */
  lemma SearchOrCreate(cs: seq<Customer>, merge: bool, providerId: string, userId: string, email: string, info: ProfileInfo)
    requires FindLinked(cs, providerId, userId).None?
    requires merge ==> FindByLogin(cs, email).None?
    ensures var r := Resolve(cs, merge, providerId, userId, email, info);
      var found := if merge then FirstEnabled(cs, SearchByEmail(cs, email)) else None;
      (found.Some? ==> r.profile == found && |r.customers| == |cs| &&
                       cs[found.value].profile.email == Some(email) && cs[found.value].profile.credentialsEnabled) &&
      (found.None? ==> r.profile == Some(|cs|) && |r.customers| == |cs| + 1 &&
                       r.customers[|cs|].login.None? && r.customers[|cs|].profile.credentialsEnabled)
  {
    ResolveLinks(cs, merge, providerId, userId, email, info);
    if merge {
      var found := FirstEnabled(cs, SearchByEmail(cs, email));
      if found.Some? {
        assert found.value in SearchByEmail(cs, email);
      }
    }
  }

  /** When the identity is already linked, the store call throws and every write is rolled back. */
  lemma AlreadyLinkedRollsBack(cs: seq<Customer>, merge: bool, providerId: string, userId: string, email: string, info: ProfileInfo)
    requires FindLinked(cs, providerId, userId).Some?
    ensures var r := Resolve(cs, merge, providerId, userId, email, info);
      r.customers == cs && (r.profile.Some? <==> merge && MergeTarget(cs, email).Some?)
  {
  }
}
