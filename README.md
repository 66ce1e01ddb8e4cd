# Azure OAuth login for Salesforce B2C Commerce, modelled in Dafny

This project models the `int_azure` cartridge of sfcc-azure-oauth. The
cartridge lets shoppers log in to a storefront with a Microsoft Azure
(Entra ID) account:

- `Login-OAuthReentryAzure` is the endpoint Azure redirects back to. It
  obtains the access token and calls the Azure user-info endpoint through the
  platform's service framework. It then finds or creates the customer linked
  to the external identity, logs that customer in and redirects to the page
  the login started from.
- `AzureModel.getUserInfo` runs the user-info service call. `AzureConfig`
  supplies the callbacks that build the request, parse the response, serve
  mock responses and scrub log messages. The request container comes from
  `serviceFactory`, and mock mode uses canned fixtures from `mockService`.
- `serviceHelpers` holds the generic helpers:
  - URL and query-string building, and request parameters;
  - form-encoded bodies;
  - the JSON, array and text response parsers;
  - log scrubbing for JSON and form data;
  - camel-case splitting and JSON-to-XML conversion.
- `externalAuthHelpers.createExternalCustomer` resolves a first federated
  login. It looks for a customer by login, then by email, when account
  merging is enabled, and creates a new customer otherwise. It then links the
  identity and copies the claimed email and names onto the profile.

The modules follow the cartridge's files:

| module | file |
|---|---|
| `JsValues` | the JavaScript value semantics the code relies on (truthiness, `String(v)`, `Object.keys`, `split`/`join`, `toLowerCase`, `JSON.stringify`) |
| `UriCoding` | `encodeURIComponent`, `decodeURIComponent` and the form-value encoder |
| `Platform` | the platform objects: `dw.svc.Service`, the HTTP response, the customer store, the session |
| `ServiceHelpers`, `LogScrubbing`, `TextFormat` | `serviceHelpers.js` |
| `ServiceFactory` | `serviceFactory.js` |
| `MockService` | `mockService.js` |
| `ServiceConfig` | `serviceConfig.js` |
| `AzureModel` | `azureModel.js` |
| `ExternalAuthHelpers` | `externalAuthHelpers.js` |
| `LoginController` | `Login.js` |

Objects that the code updates in place are classes:

- the outbound service: `Platform.Service`;
- the customer store and the session: `Platform.CustomerStore`, `Platform.Session`;
- the configuration object, whose `serviceAction` field is shared between callbacks: `ServiceConfig.AzureConfig`;
- the mock fixtures, which `setMockText` marks: `MockService.MockObject`.

The loops of `iterate`, `json2xml`, `prepareFormLogData`, the URL and
parameter builders and the email search in `createExternalCustomer` are
methods with loop invariants. Each is proved equal to a specification
function, and the properties are proved about those functions.

Several things are parameters instead of calls:

- the HTTP transport's response;
- `JSON.parse`, as a partial function `parse: string -> Option<Json>`;
- the result of `OAuthLoginFlowMgr.obtainAccessToken()`;
- whether a `app.customer.loggedIn` hook is registered;
- the list of filter keys from `scripts/util/serviceFilterKeys`, which is not part of this model.

## Model

| member | source | states |
|---|---|---|
| JsValues.NatToStringValue | cartridges/int_azure/cartridge/scripts/helpers/serviceHelpers.js:232-236 | the decimal key `Object.keys` gives an array index reads back as that index |
| JsValues.NatToStringInjective | cartridges/int_azure/cartridge/scripts/helpers/serviceHelpers.js:232-236 | distinct array indices get distinct keys |
| JsValues.Entries | cartridges/int_azure/cartridge/scripts/helpers/serviceHelpers.js:232-236 | `Object.keys`: one entry per field, per array item or per string character, with decimal index keys for arrays and strings |
| JsValues.Lookup | cartridges/int_azure/cartridge/scripts/azure/services/serviceConfig.js:38-39 | a property read finds nothing exactly when no entry has the key, and otherwise returns the value of an entry with that key |
| JsValues.SetField | cartridges/int_azure/cartridge/scripts/azure/util/mockService.js:13 | after an assignment the key reads as the new value and every other key reads as before |
| JsValues.SetFieldIdempotent | cartridges/int_azure/cartridge/scripts/azure/util/mockService.js:13 | assigning the same value twice equals assigning it once |
| JsValues.ToLower | cartridges/int_azure/cartridge/scripts/helpers/serviceHelpers.js:209 | each ASCII upper-case letter becomes its lower-case letter and every other character is kept, so the length is kept (ASCII folding only, see "## Left out") |
| JsValues.Split | cartridges/int_azure/cartridge/scripts/helpers/serviceHelpers.js:203 | `split` gives at least one piece and no piece holds the separator |
| JsValues.SplitJoin | cartridges/int_azure/cartridge/scripts/helpers/serviceHelpers.js:203 | splitting pieces joined by a separator they do not contain gives the pieces back |
| JsValues.JoinSplit | cartridges/int_azure/cartridge/scripts/helpers/serviceHelpers.js:203 | joining the pieces of a split with the same separator gives the original string |
| JsValues.SplitNoSep | cartridges/int_azure/cartridge/scripts/helpers/serviceHelpers.js:205 | a string without the separator splits into itself alone |
| JsValues.SplitPrefix | cartridges/int_azure/cartridge/scripts/helpers/serviceHelpers.js:205 | the first piece ends at the first separator |
| JsValues.EscapeChar | cartridges/int_azure/cartridge/scripts/azure/services/serviceConfig.js:49 | `JSON.stringify` escapes exactly quotes, backslashes and control characters |
| JsValues.Quote | cartridges/int_azure/cartridge/scripts/azure/services/serviceConfig.js:49 | a serialised string is wrapped in double quotes |
| UriCoding.Utf8 | cartridges/int_azure/cartridge/scripts/helpers/serviceHelpers.js:11 | every character encodes to one to four bytes |
| UriCoding.PercentByte | cartridges/int_azure/cartridge/scripts/helpers/serviceHelpers.js:11 | a `%XX` escape names its byte |
| UriCoding.DecodeEscapeChar | cartridges/int_azure/cartridge/scripts/helpers/serviceHelpers.js:11 | the escapes of a character's UTF-8 bytes decode as one escape sequence giving back that character |
| UriCoding.UriRoundTrip | cartridges/int_azure/cartridge/scripts/helpers/serviceHelpers.js:11 | `decodeURIComponent(encodeURIComponent(s))` succeeds and returns `s` for every string |
| UriCoding.EncodeFormPostValue | cartridges/int_azure/cartridge/scripts/helpers/serviceHelpers.js:10-12 | an encoded form value contains no apostrophe |
| UriCoding.FormEncodeIsPerChar | cartridges/int_azure/cartridge/scripts/helpers/serviceHelpers.js:10-12 | encoding then replacing `'` by `%27` equals encoding each character on its own, with `'` as `%27` |
| UriCoding.FormValueRoundTrip | cartridges/int_azure/cartridge/scripts/helpers/serviceHelpers.js:10-12 | decoding an encoded form value returns the original |
| UriCoding.FormValueHasNoSeparators | cartridges/int_azure/cartridge/scripts/helpers/serviceHelpers.js:98-114 | an encoded value contains neither `&` nor `=`, so a joined body stays splittable |
| UriCoding.EncodesToNull | cartridges/int_azure/cartridge/scripts/helpers/serviceHelpers.js:106-108 | a value encodes to `null` exactly when it is the string `null`, the only value the `'null'` test drops |
| UriCoding.DecodeConcat | cartridges/int_azure/cartridge/scripts/helpers/serviceHelpers.js:213 | decoding a concatenation whose first part decodes is decoding each part |
| UriCoding.DecodeWithoutPercent | cartridges/int_azure/cartridge/scripts/helpers/serviceHelpers.js:215 | a string without `%` decodes to itself |
| UriCoding.DanglingPercentFails | cartridges/int_azure/cartridge/scripts/helpers/serviceHelpers.js:213 | a trailing `%` makes decoding throw |
| Platform.Service.SetUrl | cartridges/int_azure/cartridge/scripts/helpers/serviceHelpers.js:50 | `setURL` replaces the call's URL and nothing else |
| Platform.Service.SetRequestMethod | cartridges/int_azure/cartridge/scripts/azure/services/serviceConfig.js:14 | `setRequestMethod` sets the method and nothing else |
| Platform.Service.SetCachingTtl | cartridges/int_azure/cartridge/scripts/azure/services/serviceConfig.js:18 | `setCachingTTL` sets the TTL and nothing else |
| Platform.Service.AddHeader | cartridges/int_azure/cartridge/scripts/azure/services/serviceConfig.js:42 | `addHeader` appends one header and nothing else |
| Platform.Service.AddParam | cartridges/int_azure/cartridge/scripts/helpers/serviceHelpers.js:87 | `addParam` appends one parameter and nothing else |
| Platform.FindLinked | cartridges/int_azure/cartridge/controllers/Login.js:75 | the customer found by identity is linked to it and no earlier one is; none is found exactly when no customer is linked |
| Platform.FindByLogin | cartridges/int_azure/cartridge/scripts/helpers/externalAuthHelpers.js:46 | `getCustomerByLogin` finds the first customer with that login, and none exactly when no customer has it |
| Platform.SearchByEmail | cartridges/int_azure/cartridge/scripts/helpers/externalAuthHelpers.js:54 | `searchProfiles` returns exactly the customers with that email, in increasing store order |
| Platform.AddExternalProfile | cartridges/int_azure/cartridge/scripts/helpers/externalAuthHelpers.js:50 | `createExternalProfile` appends the identity to that customer only, which is then linked |
| Platform.SetExternalEmail | cartridges/int_azure/cartridge/scripts/helpers/externalAuthHelpers.js:80 | `setEmail` sets the email on that customer's entries for the identity and changes nothing else |
| Platform.CustomerStore.Commit | cartridges/int_azure/cartridge/scripts/helpers/externalAuthHelpers.js:42-90 | a completed transaction leaves the store holding its writes |
| Platform.Session.LoginExternal | cartridges/int_azure/cartridge/controllers/Login.js:87-89 | `loginExternallyAuthenticatedCustomer` logs the session in as the customer linked to the identity |
| Platform.Session.ResetPrivacyCache | cartridges/int_azure/cartridge/controllers/Login.js:102-103 | after `clear` and `set` the privacy cache holds only the one key |
| ServiceHelpers.ServiceUrl | cartridges/int_azure/cartridge/scripts/helpers/serviceHelpers.js:22-34 | the credential URL when it is present, null otherwise |
| ServiceHelpers.UrlPathJoint | cartridges/int_azure/cartridge/scripts/helpers/serviceHelpers.js:47-50 | exactly one `/` joins the URL and the path, whether or not the URL ends in `/` |
| ServiceHelpers.AppendUrlPath | cartridges/int_azure/cartridge/scripts/helpers/serviceHelpers.js:41-51 | the URL becomes the credential URL joined to the path; a missing service, path or URL changes nothing |
| ServiceHelpers.EncodedPairs | cartridges/int_azure/cartridge/scripts/helpers/serviceHelpers.js:64-72 | there is at most one `key=value` pair per entry |
| ServiceHelpers.AppendQuerystringParams | cartridges/int_azure/cartridge/scripts/helpers/serviceHelpers.js:58-76 | the URL gains `?` (or `&` when it already has a `?`) and the encoded truthy parameters; an empty object or a missing URL changes nothing |
| ServiceHelpers.TruthyParams | cartridges/int_azure/cartridge/scripts/helpers/serviceHelpers.js:85-89 | at most one parameter per field |
| ServiceHelpers.TruthyParamsExact | cartridges/int_azure/cartridge/scripts/helpers/serviceHelpers.js:85-89 | a pair is a parameter exactly when some field with a truthy value has that key and that value as a string |
| ServiceHelpers.AppendParams | cartridges/int_azure/cartridge/scripts/helpers/serviceHelpers.js:83-91 | the service gains exactly the truthy parameters, in order |
| ServiceHelpers.BuildFormPostRequest | cartridges/int_azure/cartridge/scripts/helpers/serviceHelpers.js:98-114 | the body is `""` for empty data and otherwise the `&`-join of the encoded pairs |
| ServiceHelpers.PairDecodes | cartridges/int_azure/cartridge/scripts/helpers/serviceHelpers.js:106-108 | one encoded pair splits back into its key and its decoded value |
| ServiceHelpers.EncodedPairsShape | cartridges/int_azure/cartridge/scripts/helpers/serviceHelpers.js:103-113 | the encoded pairs decode back to the kept fields |
| ServiceHelpers.FormBodyRoundTrip | cartridges/int_azure/cartridge/scripts/helpers/serviceHelpers.js:98-114 | a form body decodes back to exactly the fields whose values do not encode to `null` |
| ServiceHelpers.ParseJsonResponse | cartridges/int_azure/cartridge/scripts/helpers/serviceHelpers.js:121-145 | success exactly when the response has its own text that parses to a truthy value, which is then the response object |
| ServiceHelpers.ParseArrayResponse | cartridges/int_azure/cartridge/scripts/helpers/serviceHelpers.js:152-167 | success exactly for status 200 with message `OK` |
| ServiceHelpers.ParseTextResponse | cartridges/int_azure/cartridge/scripts/helpers/serviceHelpers.js:174-197 | success for 200 `OK`, and the text exactly when it is non-empty |
| LogScrubbing.Redact | cartridges/int_azure/cartridge/scripts/helpers/serviceHelpers.js:251-264 | objects and arrays keep their kind and size, and anything else is returned unchanged |
| LogScrubbing.NonAsciiKeyNotFolded | cartridges/int_azure/cartridge/scripts/helpers/serviceHelpers.js:255 | the filter key `passwört` does not match the key `PASSWÖRT`, which `toLowerCase` would fold to it |
| LogScrubbing.RedactMasks | cartridges/int_azure/cartridge/scripts/helpers/serviceHelpers.js:253-261 | every field and item keeps its key or position and holds the mask when its lower-cased key or index is filtered, else its own redaction |
| LogScrubbing.Iterate | cartridges/int_azure/cartridge/scripts/helpers/serviceHelpers.js:251-264 | the loop produces the redacted value |
| LogScrubbing.IterateFields | cartridges/int_azure/cartridge/scripts/helpers/serviceHelpers.js:253-261 | the loop over an object's keys yields exactly the redacted fields |
| LogScrubbing.FieldAt | cartridges/int_azure/cartridge/scripts/helpers/serviceHelpers.js:254-260 | one field becomes the mask or its recursively redacted value |
| LogScrubbing.IterateItems | cartridges/int_azure/cartridge/scripts/helpers/serviceHelpers.js:253-261 | the loop over an array's indices yields exactly the redacted items |
| LogScrubbing.ItemAt | cartridges/int_azure/cartridge/scripts/helpers/serviceHelpers.js:254-260 | one item becomes the mask or its recursively redacted value |
| LogScrubbing.RedactScrubs | cartridges/int_azure/cartridge/scripts/helpers/serviceHelpers.js:251-264 | no filtered key at any depth holds anything but the mask afterwards |
| LogScrubbing.RedactKeepsScrubbed | cartridges/int_azure/cartridge/scripts/helpers/serviceHelpers.js:251-264 | an already scrubbed value is left unchanged |
| LogScrubbing.RedactIdempotent | cartridges/int_azure/cartridge/scripts/helpers/serviceHelpers.js:251-264 | scrubbing twice equals scrubbing once |
| LogScrubbing.PrepareFormLogData | cartridges/int_azure/cartridge/scripts/helpers/serviceHelpers.js:199-221 | `""` for empty data; otherwise the text starts with a newline, one decoded line per parameter |
| LogScrubbing.FormLogLinesFail | cartridges/int_azure/cartridge/scripts/helpers/serviceHelpers.js:204-218 | one undecodable parameter makes the whole call throw |
| LogScrubbing.FirstPiece | cartridges/int_azure/cartridge/scripts/helpers/serviceHelpers.js:205-206 | the key is the text before the first `=` |
| LogScrubbing.MaskedDecode | cartridges/int_azure/cartridge/scripts/helpers/serviceHelpers.js:213 | a masked pair decodes to the decoded key, `=` and the mask |
| LogScrubbing.MaskedLine | cartridges/int_azure/cartridge/scripts/helpers/serviceHelpers.js:209-213 | a filtered key logs as `key=*****` whatever value it had, and even with none |
| LogScrubbing.BareKeyLine | cartridges/int_azure/cartridge/scripts/helpers/serviceHelpers.js:214-215 | a parameter without `=` logs as its decoded self |
| LogScrubbing.SplitPair | cartridges/int_azure/cartridge/scripts/helpers/serviceHelpers.js:205 | a parameter with two `=` splits into key, value and the rest |
| LogScrubbing.SecondEqualsDropped | cartridges/int_azure/cartridge/scripts/helpers/serviceHelpers.js:205-213 | everything from a second `=` on is dropped from the log line |
| LogScrubbing.MalformedValueFails | cartridges/int_azure/cartridge/scripts/helpers/serviceHelpers.js:213 | an unfiltered value ending in `%` makes the call throw |
| TextFormat.CamelSpaced | cartridges/int_azure/cartridge/scripts/helpers/serviceHelpers.js:283 | the result is no shorter and starts with the same character |
| TextFormat.SplitCamelCase | cartridges/int_azure/cartridge/scripts/helpers/serviceHelpers.js:281-284 | null exactly for a missing or empty string |
| TextFormat.CamelSpacedNoBoundary | cartridges/int_azure/cartridge/scripts/helpers/serviceHelpers.js:283 | no lower-case letter is directly followed by an upper-case one afterwards |
| TextFormat.CamelSpacedOnlySpaces | cartridges/int_azure/cartridge/scripts/helpers/serviceHelpers.js:283 | only spaces are inserted |
| TextFormat.CamelSpacedFixpoint | cartridges/int_azure/cartridge/scripts/helpers/serviceHelpers.js:283 | a string without such a boundary is unchanged |
| TextFormat.SplitCamelCaseIdempotent | cartridges/int_azure/cartridge/scripts/helpers/serviceHelpers.js:281-284 | splitting twice equals splitting once |
| TextFormat.ReplaceLt | cartridges/int_azure/cartridge/scripts/helpers/serviceHelpers.js:292 | no `<` is left |
| TextFormat.ReplaceAmp | cartridges/int_azure/cartridge/scripts/helpers/serviceHelpers.js:292 | escaping `&` introduces no `<` |
| TextFormat.Lines | cartridges/int_azure/cartridge/scripts/helpers/serviceHelpers.js:287-290 | normalising line ends introduces no `<` |
| TextFormat.MakeSafe | cartridges/int_azure/cartridge/scripts/helpers/serviceHelpers.js:291-294 | the escaped text contains no `<` |
| TextFormat.LinesPrefix | cartridges/int_azure/cartridge/scripts/helpers/serviceHelpers.js:288 | a prefix without `\r` passes through unchanged |
| TextFormat.ReplaceAmpConcat | cartridges/int_azure/cartridge/scripts/helpers/serviceHelpers.js:292 | escaping `&` works piece by piece |
| TextFormat.LinesReplaceAmp | cartridges/int_azure/cartridge/scripts/helpers/serviceHelpers.js:291-294 | line normalisation and `&` escaping commute |
| TextFormat.UnescapeReplaceAmp | cartridges/int_azure/cartridge/scripts/helpers/serviceHelpers.js:292 | an XML reader undoes the `&` escaping |
| TextFormat.MakeSafeReadsBack | cartridges/int_azure/cartridge/scripts/helpers/serviceHelpers.js:291-294 | a reader sees the text with `<` still written as `&lt;`, because `<` is escaped before `&` |
| TextFormat.MakeSafeLessThan | cartridges/int_azure/cartridge/scripts/helpers/serviceHelpers.js:292 | a leading `<` and a leading literal `&lt;` both escape to `&amp;lt;` followed by the escaped rest, so the two cannot be told apart |
| TextFormat.MakeSafePlain | cartridges/int_azure/cartridge/scripts/helpers/serviceHelpers.js:291-294 | text without `<`, `&` or `\r` comes back unchanged |
| TextFormat.Attrs | cartridges/int_azure/cartridge/scripts/helpers/serviceHelpers.js:304-310 | building the attributes throws exactly when an `@` key holds null |
| TextFormat.Closed | cartridges/int_azure/cartridge/scripts/helpers/serviceHelpers.js:322 | an element with children ends in a newline |
| TextFormat.XmlItemsNone | cartridges/int_azure/cartridge/scripts/helpers/serviceHelpers.js:297-300 | an array fails exactly when one of its items fails |
| TextFormat.XmlChildrenNone | cartridges/int_azure/cartridge/scripts/helpers/serviceHelpers.js:313-321 | the children fail exactly when one child fails |
| TextFormat.XmlOfFails | cartridges/int_azure/cartridge/scripts/helpers/serviceHelpers.js:295-328 | conversion throws exactly for values with a null attribute or a non-string text or CDATA node at any depth |
| TextFormat.ScalarElement | cartridges/int_azure/cartridge/scripts/helpers/serviceHelpers.js:325 | a scalar becomes one element holding its escaped string, which reads back as the string with `<` as `&lt;` |
| TextFormat.NullElement | cartridges/int_azure/cartridge/scripts/helpers/serviceHelpers.js:301-311 | null is an object without keys, so under any name and indent it becomes a self-closing element that ends no line |
| TextFormat.AttrOnlyElement | cartridges/int_azure/cartridge/scripts/helpers/serviceHelpers.js:301-311 | an object whose keys are all `@` attributes becomes `<name` with its attributes and `/>`, ending no line |
| TextFormat.PlainElement | cartridges/int_azure/cartridge/scripts/helpers/serviceHelpers.js:325 | a string with nothing to escape becomes one element holding it verbatim, followed by a newline |
| TextFormat.PairDocument | cartridges/int_azure/cartridge/scripts/helpers/serviceHelpers.js:329-333 | a two-key document is the element of the first key followed by the element of the second |
| TextFormat.SelfClosingSibling | cartridges/int_azure/cartridge/scripts/helpers/serviceHelpers.js:286-334 | `{a: null, b: s}` converts to `<a/><b>s</b>` and a newline: the sibling of a null lands on the same line |
| TextFormat.ArrayRepeatsName | cartridges/int_azure/cartridge/scripts/helpers/serviceHelpers.js:297-300 | when every item converts, the XML of an array is the elements of its items one after another, each under the array's name and indent, with no element for the array itself |
| TextFormat.ToXml | cartridges/int_azure/cartridge/scripts/helpers/serviceHelpers.js:295-328 | the loops build the specified XML, and fail exactly when the value cannot be converted |
| TextFormat.ItemsXml | cartridges/int_azure/cartridge/scripts/helpers/serviceHelpers.js:297-300 | the array loop builds one element per item and fails exactly as the specification of the items does |
| TextFormat.ObjectXml | cartridges/int_azure/cartridge/scripts/helpers/serviceHelpers.js:301-323 | the attribute loop and the children build the specified element of an object |
| TextFormat.ChildrenXml | cartridges/int_azure/cartridge/scripts/helpers/serviceHelpers.js:313-321 | the children loop builds the specified content, failing when a child fails |
| TextFormat.ChildAt | cartridges/int_azure/cartridge/scripts/helpers/serviceHelpers.js:314-320 | one child becomes the specified text node, CDATA section or nested element |
| TextFormat.Json2Xml | cartridges/int_azure/cartridge/scripts/helpers/serviceHelpers.js:286-334 | the loop builds the specified XML and fails exactly when some top-level value fails |
| TextFormat.TopXmlNone | cartridges/int_azure/cartridge/scripts/helpers/serviceHelpers.js:329-333 | the top level fails exactly when one of its values fails |
| ServiceFactory.BearerToken | cartridges/int_azure/cartridge/scripts/azure/util/serviceFactory.js:23-25 | the token read back from the headers is the one the `Authorization` header carries |
| ServiceFactory.BuildGetUserInfoRequestContainer | cartridges/int_azure/cartridge/scripts/azure/util/serviceFactory.js:19-27 | a POST of the USER_INFO action whose only header carries exactly the token, with no path, parameters, URL or data |
| MockService.Mocked | cartridges/int_azure/cartridge/scripts/azure/util/mockService.js:13 | the fixture gains `isMocked: true` and keeps every other field |
| MockService.SetMockText | cartridges/int_azure/cartridge/scripts/azure/util/mockService.js:11-15 | `""` and no change for a null or key-less fixture; otherwise the fixture is marked and serialised |
| MockService.MockedIdempotent | cartridges/int_azure/cartridge/scripts/azure/util/mockService.js:13 | marking twice equals marking once |
| MockService.MockTextStable | cartridges/int_azure/cartridge/scripts/azure/util/mockService.js:11-15 | `setMockText` on a fixture it has already handled leaves it as it is and returns the same text as the first call |
| MockService.GetUserInfoResponse | cartridges/int_azure/cartridge/scripts/azure/util/mockService.js:18-31 | 200 `OK` with the success fixture as text, or 401 `ERROR` with the error fixture as error text; the used fixture ends marked as `setMockText` leaves it and the other is untouched |
| ServiceConfig.ContentType | cartridges/int_azure/cartridge/scripts/azure/services/serviceConfig.js:39 | the content type is the exact `Content-Type` header when it is non-empty |
| ServiceConfig.RequestBody | cartridges/int_azure/cartridge/scripts/azure/services/serviceConfig.js:46-57 | `""` without data; JSON text, a form body or the data itself, by content type |
| ServiceConfig.RequestUrl | cartridges/int_azure/cartridge/scripts/azure/services/serviceConfig.js:22-36 | a container `serviceUrl` wins; otherwise the path is joined to the credential URL |
| ServiceConfig.StatusErrorMessage | cartridges/int_azure/cartridge/scripts/azure/services/serviceConfig.js:66 | the error is the fixed prefix followed by the decimal status code |
| ServiceConfig.AddHeaders | cartridges/int_azure/cartridge/scripts/azure/services/serviceConfig.js:40-44 | the service gains the container's headers, in order |
| ServiceConfig.EncodeBody | cartridges/int_azure/cartridge/scripts/azure/services/serviceConfig.js:46-57 | the body is the specified request body |
| ServiceConfig.AzureConfig.CreateRequest | cartridges/int_azure/cartridge/scripts/azure/services/serviceConfig.js:8-58 | records the action; sets the method, with a 60 s TTL only for GET; sets the URL, parameters and headers; returns the body |
| ServiceConfig.AzureConfig.ParseResponse | cartridges/int_azure/cartridge/scripts/azure/services/serviceConfig.js:59-67 | a 2xx response is JSON-parsed for USER_INFO and passed through otherwise; any other response throws the status error message for its code, and a null response throws |
| ServiceConfig.AzureConfig.MockCall | cartridges/int_azure/cartridge/scripts/azure/services/serviceConfig.js:68-80 | for USER_INFO, the success mock, which marks the success fixture and leaves the error fixture; otherwise a 200 `Success` echoing the URL, with both fixtures untouched |
| ServiceConfig.AzureConfig.FilterLogMessage | cartridges/int_azure/cartridge/scripts/azure/services/serviceConfig.js:81-89 | the log text is the specified filtered log |
| ServiceConfig.FilteredLogScrubs | cartridges/int_azure/cartridge/scripts/azure/services/serviceConfig.js:83-85 | logged JSON is the serialisation of a fully scrubbed value |
| AzureModel.UserInfo | cartridges/int_azure/cartridge/models/azureModel.js:19-39 | success exactly when a truthy response object is returned; never without a token, never for a non-2xx response |
| AzureModel.GetUserInfo | cartridges/int_azure/cartridge/models/azureModel.js:19-39 | no call without a token; otherwise a POST with the bearer header, whose result is the specified user-info result; the success fixture is marked only by a mock call, and no other fixture change happens |
| ExternalAuthHelpers.GetSitePreference | cartridges/int_azure/cartridge/scripts/helpers/externalAuthHelpers.js:11-18 | null for a missing name, site, preferences or key |
| ExternalAuthHelpers.SitePreferencePlain | cartridges/int_azure/cartridge/scripts/helpers/externalAuthHelpers.js:13-17 | a preference without `value` comes back as stored |
| ExternalAuthHelpers.SitePreferenceUnwrapped | cartridges/int_azure/cartridge/scripts/helpers/externalAuthHelpers.js:14-15 | an enumeration preference comes back as its `value` |
| ExternalAuthHelpers.FirstEnabled | cartridges/int_azure/cartridge/scripts/helpers/externalAuthHelpers.js:56-65 | the loop picks the first profile with enabled credentials, and none exactly when none is enabled |
| ExternalAuthHelpers.MergeTarget | cartridges/int_azure/cartridge/scripts/helpers/externalAuthHelpers.js:44-67 | the customer found by login wins over the email search |
| ExternalAuthHelpers.UpdateProfile | cartridges/int_azure/cartridge/scripts/helpers/externalAuthHelpers.js:83-89 | sets the email, sets each name only when its claim is non-empty, and touches nothing else |
| ExternalAuthHelpers.CreateExternalCustomer | cartridges/int_azure/cartridge/scripts/helpers/externalAuthHelpers.js:30-96 | null and no store change without a user id, provider id or email; otherwise the store and result of resolving the identity |
| ExternalAuthHelpers.FinishSetsEmail | cartridges/int_azure/cartridge/scripts/helpers/externalAuthHelpers.js:79-89 | the identity's link carries the claimed email, and no other customer changes |
| ExternalAuthHelpers.ResolveLinks | cartridges/int_azure/cartridge/scripts/helpers/externalAuthHelpers.js:41-95 | for an identity not linked before, a customer is always returned; it is the only one linked to the identity, carries the email on the link and in its profile, and no other customer changes |
| ExternalAuthHelpers.LoginMatchLinks | cartridges/int_azure/cartridge/scripts/helpers/externalAuthHelpers.js:44-50 | with merging on, a customer whose login is the email is linked and no customer is created |
| ExternalAuthHelpers.SearchOrCreate | cartridges/int_azure/cartridge/scripts/helpers/externalAuthHelpers.js:51-77 | otherwise the first enabled customer with the email is linked; if there is none, or merging is off, a new enabled customer without a login is appended |
| ExternalAuthHelpers.AlreadyLinkedRollsBack | cartridges/int_azure/cartridge/scripts/helpers/externalAuthHelpers.js:41-95 | linking an identity that is already linked throws and leaves the store unchanged; the profile picked before the throw is still returned |
| LoginController.Failure | cartridges/int_azure/cartridge/controllers/Login.js:34-35 | every failure renders `/error` with the login-failure message |
| LoginController.Destination | cartridges/int_azure/cartridge/controllers/Login.js:33 | the redirect target is the cached target when there is one |
| LoginController.Claim | cartridges/int_azure/cartridge/controllers/Login.js:62 | a claim is read exactly when the user-info object has it as a string |
| LoginController.ProfileInfoOf | cartridges/int_azure/cartridge/controllers/Login.js:68-73 | the email and names come from the `email`, `given_name` and `family_name` claims |
| LoginController.Subject | cartridges/int_azure/cartridge/controllers/Login.js:50-66 | the flow goes on exactly when the response is successful and has a non-empty `sub` claim, and goes on with that claim |
| LoginController.CustomerFor | cartridges/int_azure/cartridge/controllers/Login.js:75-83 | the customer already linked, else the one resolution yields; logging in by identity then finds exactly that customer |
| LoginController.OAuthReentryAzure | cartridges/int_azure/cartridge/controllers/Login.js:24-108 | each failure renders the error page and leaves the session alone; the store ends as resolution leaves it; success exactly when the resolved customer's credentials are enabled, and then the session is logged in as that customer, the hook runs if registered, the cache holds only the provider id and the redirect goes to the target read first; without a token or provider id the service and its configuration are untouched; only a mock-mode user-info call marks the success fixture, and no other fixture change happens |

## Left out

- `serviceMgr.js` (creating the service from the framework's registry) is not part of this model. The service object is a parameter.
- `prepareXmlLogData` and `getSoapString` are not modelled. They are not on the user-info path, and they rely on regular expressions and `StringUtils.trim`.
- `Logger` calls are left out. They only write to the log.
- `isArray` and `isObject` are folded into `LogScrubbing.IsIterable` over the JSON datatype. Values with other constructors, such as dates, do not occur in parsed JSON.
- The transport, `JSON.parse`, the token exchange and the hook's behaviour are I/O. They enter as parameters, and `JSON.parse` is a partial function that may reject any text.
- Numbers are integers. Floating point, and `String(n)` for fractions and exponents, is left out.
- `undefined` and `null` are one value (`JNull`, or `None` for strings). The code does not always treat them alike: a field holding `undefined` is encoded by `buildFormPostRequest` as the text `undefined`, which the `'null'` test keeps (serviceHelpers.js:104-108), and `JSON.stringify` drops it (serviceConfig.js:49). So for `{a: undefined}` the code sends the form body `a=undefined` or the JSON body `{}`, while the model, reading the field as null, sends `""` or `{"a":null}`.
- `JsValues.ToLower`: folds ASCII letters only, so keys and filter keys are matched as ASCII text. `toLowerCase` folds every Unicode letter and may change the length (`İ` becomes two code units). A filter key `passwört` therefore masks the form field `PASSWÖRT=x` in the code, while the model logs `x` (`LogScrubbing.NonAsciiKeyNotFolded`); the same holds in `Redact` and `FilteredLog`.
- Objects are finite sequences of distinct-keyed entries in insertion order. JavaScript's ordering of integer-like keys first is not modelled, and neither is prototype inheritance.
- `Iterate` works on values: `iterate` masks in place and returns the same object, so aliasing between the input and the result is not captured.
- Characters are Unicode scalar values. Lone UTF-16 surrogates, on which `encodeURIComponent` throws, cannot be represented.
- The mock fixtures come from `mockedResponses`, which is not part of this model. They are objects handed in; a non-object fixture is not modelled.
- `ServiceHelpers.FormBodyRoundTrip`: holds only for keys without `&` and `=`. The source does not encode keys.
- The customer store's own behaviour is assumed, not modelled:
  - `createExternalProfile` and `createExternallyAuthenticatedCustomer` throw when the identity is already linked;
  - a new externally authenticated customer has no login, an empty profile and enabled credentials;
  - `searchProfiles` returns matches in store order;
  - a transaction that throws rolls back all its writes.
- The merge preference is read as a truthy value. The nested `Transaction.wrap` is part of the outer transaction.
- `createExternalCustomer` checks `Object.keys(profileInfo).length` before writing the profile. This check always passes after the email guard, so the model leaves it out.
- The error page's message is identified by its resource key `error.oauth.login.failure`. Resource-bundle lookup is left out.
- `LoginController.Claim`: a claim that is not a string, such as a numeric `sub`, counts as absent. Section 5.1 of OpenID Connect Core 1.0 defines `sub`, `email`, `given_name` and `family_name` as strings.
- `Platform.Session.LoginExternal`: the login is modelled as recording the customer. Cookies, session rotation and the `rememberMe` flag are left out.
- The HTTPS and consent middleware of the route, and concurrency between requests, are left out.
