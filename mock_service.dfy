/**
 * The canned responses served when the user-info service runs in mock mode.
 * The fixtures come from a data module that is not part of this model, so
 * they are objects handed in; `setMockText` marks the fixture it serialises.
 */
module MockService {
  import opened JsValues
  import opened Platform

  /** `MOCK_SUCCESS`: the mock answers with the success fixture. */
  const MOCK_SUCCESS: bool := true

  /** A fixture object; None stands for a fixture that is null or undefined. */
  class MockObject {
    var fields: Option<seq<(string, Json)>>

    constructor (fields: Option<seq<(string, Json)>>)
      ensures this.fields == fields
    {
      this.fields := fields;
    }
  }

  /** The fixture after `jsonObject.isMocked = true`. */
  function Mocked(fields: seq<(string, Json)>): (r: seq<(string, Json)>)
    ensures Lookup(r, "isMocked") == Some(JBool(true))
    ensures forall k :: k != "isMocked" ==> Lookup(r, k) == Lookup(fields, k)
  {
    SetField(fields, "isMocked", JBool(true))
  }

  /** A fixture after `setMockText`: marked when it has keys, untouched otherwise. */
  function Marked(fields: Option<seq<(string, Json)>>): Option<seq<(string, Json)>>
  {
    if fields.Some? && fields.value != [] then Some(Mocked(fields.value)) else fields
  }

  /** The text `setMockText` returns for a fixture in the given state. */
  function MockText(fields: Option<seq<(string, Json)>>): string
  {
    if fields.None? || fields.value == [] then "" else Serialize(JObj(Mocked(fields.value)))
  }

  /**
   * `setMockText(jsonObject)`: "" for a null or key-less fixture; otherwise
   * it sets `isMocked` on the fixture itself and returns its serialisation.
   */
  method SetMockText(o: MockObject) returns (text: string)
    modifies o
    ensures old(o.fields).None? || old(o.fields).value == [] ==> text == "" && o.fields == old(o.fields)
    ensures old(o.fields).Some? && old(o.fields).value != [] ==> o.fields == Some(Mocked(old(o.fields).value))
    ensures o.fields == Marked(old(o.fields))
    ensures text == MockText(old(o.fields))
  {
    if o.fields.None? || o.fields.value == [] {
      return "";
    }
    o.fields := Some(Mocked(o.fields.value));
    text := Serialize(JObj(o.fields.value));
  }

  /** Marking a fixture that is already marked changes nothing. */
  lemma MockedIdempotent(fields: seq<(string, Json)>)
    ensures Mocked(Mocked(fields)) == Mocked(fields)
  {
    SetFieldIdempotent(fields, "isMocked", JBool(true));
  }

  /** Because the fixture keeps its mark, a second `setMockText` returns the text of the first. */
  lemma MockTextStable(fields: Option<seq<(string, Json)>>)
    ensures MockText(Marked(fields)) == MockText(fields)
    ensures Marked(Marked(fields)) == Marked(fields)
  {
    if fields.Some? && fields.value != [] {
      MockedIdempotent(fields.value);
    }
  }

  /**
   * `getUserInfoResponse()`: with `mockSuccess`, status 200 "OK" and the
   * success fixture as `text`; otherwise 401 "ERROR" and the error fixture as
   * `errorText`. Only the fixture that is used gets marked.
   */
  method GetUserInfoResponse(mockSuccess: bool, success: MockObject, error: MockObject) returns (r: HttpResponse)
    requires success != error
    modifies success, error
    ensures mockSuccess ==>
      r == HttpResponse(200, "OK", Some(MockText(old(success.fields))), None) &&
      success.fields == Marked(old(success.fields)) && error.fields == old(error.fields)
    ensures !mockSuccess ==>
      r == HttpResponse(401, "ERROR", None, Some(MockText(old(error.fields)))) &&
      error.fields == Marked(old(error.fields)) && success.fields == old(success.fields)
  {
    if mockSuccess {
      var text := SetMockText(success);
      r := HttpResponse(200, "OK", Some(text), None);
    } else {
      var text := SetMockText(error);
      r := HttpResponse(401, "ERROR", None, Some(text));
    }
  }
}
