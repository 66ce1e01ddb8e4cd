/**
 * The log scrubbers of the service helpers: the recursive walk that masks the
 * values of sensitive keys in a parsed JSON message, and the line-per-pair
 * rendering of a form-encoded message with the same masking.
 *
 * The sensitive key names are configuration (`FILTER_KEYS`), so they are a
 * parameter here; a key is sensitive when its lower-cased form is listed.
 */
module LogScrubbing {
  import opened JsValues
  import opened UriCoding

  /** The text that replaces a sensitive value. */
  const MASK: string := "*****"

  predicate Filtered(filterKeys: seq<string>, key: string)
  {
    ToLower(key) in filterKeys
  }

  /**
   * Key matching folds ASCII letters only: an upper-case non-ASCII key is not
   * matched by its lower-case filter key, which `toLowerCase` would fold.
   */
  lemma NonAsciiKeyNotFolded()
    ensures !Filtered(["passw\U{00F6}rt"], "PASSW\U{00D6}RT")
  {
    var folded := ToLower("PASSW\U{00D6}RT");
    assert folded[5] == '\U{00D6}';
    assert "passw\U{00F6}rt"[5] == '\U{00F6}';
  }

  /** `isIterable`: arrays and plain objects are walked, every other value is left alone. */
  predicate IsIterable(v: Json)
  {
    v.JArr? || v.JObj?
  }

  // ---------------------------------------------------------------------------
  // iterate

  /** The value `iterate` leaves behind: sensitive entries masked, at every depth. */
  function Redact(filterKeys: seq<string>, v: Json): (r: Json)
    ensures IsIterable(r) <==> IsIterable(v)
    ensures !IsIterable(v) ==> r == v
    ensures v.JObj? ==> r.JObj? && |r.fields| == |v.fields|
    ensures v.JArr? ==> r.JArr? && |r.items| == |v.items|
  {
    match v
    case JObj(fields) =>
      JObj(seq(|fields|, i requires 0 <= i < |fields| =>
                 (fields[i].0,
                  if Filtered(filterKeys, fields[i].0) then JStr(MASK) else Redact(filterKeys, fields[i].1))))
    case JArr(items) =>
      JArr(seq(|items|, i requires 0 <= i < |items| =>
                 if Filtered(filterKeys, NatToString(i)) then JStr(MASK) else Redact(filterKeys, items[i])))
    case _ => v
  }

  /** Redaction keeps every key in place and masks exactly the sensitive entries of the top level. */
  lemma RedactMasks(filterKeys: seq<string>, v: Json)
    ensures v.JObj? ==> forall i :: 0 <= i < |v.fields| ==>
      Redact(filterKeys, v).fields[i].0 == v.fields[i].0 &&
      Redact(filterKeys, v).fields[i].1 ==
        if Filtered(filterKeys, v.fields[i].0) then JStr(MASK) else Redact(filterKeys, v.fields[i].1)
    ensures v.JArr? ==> forall i :: 0 <= i < |v.items| ==>
      Redact(filterKeys, v).items[i] ==
        if Filtered(filterKeys, NatToString(i)) then JStr(MASK) else Redact(filterKeys, v.items[i])
  {
  }

  /** Every sensitive entry, at every depth, holds the mask and nothing else. */
  ghost predicate Scrubbed(filterKeys: seq<string>, v: Json)
  {
    match v
    case JObj(fields) =>
      forall i :: 0 <= i < |fields| ==>
        if Filtered(filterKeys, fields[i].0) then fields[i].1 == JStr(MASK)
        else Scrubbed(filterKeys, fields[i].1)
    case JArr(items) =>
      forall i :: 0 <= i < |items| ==>
        if Filtered(filterKeys, NatToString(i)) then items[i] == JStr(MASK)
        else Scrubbed(filterKeys, items[i])
    case _ => true
  }

  /**
   * `iterate(object)`: walks the keys of an array or plain object in order,
   * masks the value of each sensitive key and descends into the others;
   * anything else comes back as it was.
   */
  method Iterate(filterKeys: seq<string>, v: Json) returns (r: Json)
    ensures r == Redact(filterKeys, v)
    ensures !IsIterable(v) ==> r == v
    decreases v, 2
  {
    if !IsIterable(v) {
      return v;
    }
    if v.JObj? {
      var fields := IterateFields(filterKeys, v);
      r := JObj(fields);
    } else {
      var items := IterateItems(filterKeys, v);
      r := JArr(items);
    }
  }

  /** The loop of `iterate` over the keys of a plain object. */
  method IterateFields(filterKeys: seq<string>, v: Json) returns (out: seq<(string, Json)>)
    requires v.JObj?
    ensures out == Redact(filterKeys, v).fields
    decreases v, 1
  {
    ghost var target := Redact(filterKeys, v).fields;
    out := [];
    var i := 0;
    while i < |v.fields|
      invariant 0 <= i <= |v.fields|
      invariant out == target[..i]
    {
      var entry := FieldAt(filterKeys, v, i);
      assert target[..i + 1] == target[..i] + [entry];
      out := out + [entry];
      i := i + 1;
    }
    assert target[..i] == target;
  }

  /** One step of the object loop: the key, with its value masked or walked. */
  method FieldAt(filterKeys: seq<string>, v: Json, i: nat) returns (entry: (string, Json))
    requires v.JObj? && i < |v.fields|
    ensures entry == Redact(filterKeys, v).fields[i]
    decreases v, 0
  {
    match v {
      case JObj(fields) =>
        var (key, value) := fields[i];
        if Filtered(filterKeys, key) {
          value := JStr(MASK);
        } else {
          value := Iterate(filterKeys, fields[i].1);
        }
        entry := (key, value);
    }
  }

  /** The loop of `iterate` over the indices of an array. */
  method IterateItems(filterKeys: seq<string>, v: Json) returns (out: seq<Json>)
    requires v.JArr?
    ensures out == Redact(filterKeys, v).items
    decreases v, 1
  {
    ghost var target := Redact(filterKeys, v).items;
    out := [];
    var i := 0;
    while i < |v.items|
      invariant 0 <= i <= |v.items|
      invariant out == target[..i]
    {
      var value := ItemAt(filterKeys, v, i);
      assert target[..i + 1] == target[..i] + [value];
      out := out + [value];
      i := i + 1;
    }
    assert target[..i] == target;
  }

  /** One step of the array loop: the item, masked or walked. */
  method ItemAt(filterKeys: seq<string>, v: Json, i: nat) returns (value: Json)
    requires v.JArr? && i < |v.items|
    ensures value == Redact(filterKeys, v).items[i]
    decreases v, 0
  {
    match v {
      case JArr(items) =>
        if Filtered(filterKeys, NatToString(i)) {
          value := JStr(MASK);
        } else {
          value := Iterate(filterKeys, items[i]);
        }
    }
  }

  /** After `iterate`, no sensitive value is left anywhere in the message. */
  lemma {:induction false} RedactScrubs(filterKeys: seq<string>, v: Json)
    ensures Scrubbed(filterKeys, Redact(filterKeys, v))
  {
    match v
    case JObj(fields) =>
      var r := Redact(filterKeys, v);
      forall i | 0 <= i < |fields| && !Filtered(filterKeys, fields[i].0)
        ensures Scrubbed(filterKeys, r.fields[i].1)
      {
        RedactScrubs(filterKeys, fields[i].1);
      }
    case JArr(items) =>
      var r := Redact(filterKeys, v);
      forall i | 0 <= i < |items| && !Filtered(filterKeys, NatToString(i))
        ensures Scrubbed(filterKeys, r.items[i])
      {
        RedactScrubs(filterKeys, items[i]);
      }
    case _ =>
  }

  /** A message that is already scrubbed is left exactly as it is. */
  lemma {:induction false} RedactKeepsScrubbed(filterKeys: seq<string>, v: Json)
    requires Scrubbed(filterKeys, v)
    ensures Redact(filterKeys, v) == v
  {
    match v
    case JObj(fields) =>
      forall i | 0 <= i < |fields| && !Filtered(filterKeys, fields[i].0)
        ensures Redact(filterKeys, fields[i].1) == fields[i].1
      {
        RedactKeepsScrubbed(filterKeys, fields[i].1);
      }
      assert Redact(filterKeys, v).fields == fields;
    case JArr(items) =>
      forall i | 0 <= i < |items| && !Filtered(filterKeys, NatToString(i))
        ensures Redact(filterKeys, items[i]) == items[i]
      {
        RedactKeepsScrubbed(filterKeys, items[i]);
      }
      assert Redact(filterKeys, v).items == items;
    case _ =>
  }

  /** Scrubbing twice is scrubbing once. */
  lemma RedactIdempotent(filterKeys: seq<string>, v: Json)
    ensures Redact(filterKeys, Redact(filterKeys, v)) == Redact(filterKeys, v)
  {
    RedactScrubs(filterKeys, v);
    RedactKeepsScrubbed(filterKeys, Redact(filterKeys, v));
  }

  // ---------------------------------------------------------------------------
  // prepareFormLogData

  /**
   * The line logged for one `&`-separated segment: the text before the first
   * `=` is the key, the text between the first and a second `=` the value; a
   * sensitive non-empty key shows the mask; the result is percent-decoded,
   * which fails on a malformed escape.
   */
  function FormLogLine(filterKeys: seq<string>, param: string): Option<string>
  {
    var parts := Split(param, '=');
    var key := parts[0];
    var value := if |parts| > 1 then Some(parts[1]) else None;
    var shown := if key != "" && Filtered(filterKeys, key) then Some(MASK) else value;
    if shown.Some? then DecodeUriComponent(key + "=" + shown.value) else DecodeUriComponent(key)
  }

  /** The lines of all segments, each followed by a newline; None when one of them fails. */
  function FormLogLines(filterKeys: seq<string>, params: seq<string>): Option<string>
  {
    if params == [] then Some("")
    else
      match (FormLogLines(filterKeys, params[..|params| - 1]), FormLogLine(filterKeys, params[|params| - 1]))
      case (Some(front), Some(line)) => Some(front + line + "\n")
      case _ => None
  }

  function FormLogData(filterKeys: seq<string>, data: string): Option<string>
  {
    if data == "" then Some("") else Prepend("\n", FormLogLines(filterKeys, Split(data, '&')))
  }

  /**
   * `prepareFormLogData(data)`: "" for empty data, otherwise a newline and
   * one line per segment; None where `decodeURIComponent` throws.
   */
  method PrepareFormLogData(filterKeys: seq<string>, data: string) returns (r: Option<string>)
    ensures r == FormLogData(filterKeys, data)
    ensures data == "" ==> r == Some("")
    ensures data != "" && r.Some? ==> |r.value| >= 1 && r.value[0] == '\n'
  {
    if data == "" {
      return Some("");
    }
    var result := "\n";
    var params := Split(data, '&');
    var i := 0;
    while i < |params|
      invariant 0 <= i <= |params|
      invariant FormLogLines(filterKeys, params[..i]).Some?
      invariant result == "\n" + FormLogLines(filterKeys, params[..i]).value
    {
      assert params[..i + 1][..i] == params[..i];
      var line := FormLogLine(filterKeys, params[i]);
      if line.None? {
        FormLogLinesFail(filterKeys, params, i + 1);
        return None;
      }
      result := result + line.value + "\n";
      i := i + 1;
    }
    assert params[..i] == params;
    r := Some(result);
  }

  /** Once one segment fails to decode, the whole rendering fails. */
  lemma {:induction false} FormLogLinesFail(filterKeys: seq<string>, params: seq<string>, k: nat)
    requires 0 < k <= |params|
    requires FormLogLine(filterKeys, params[k - 1]).None?
    ensures FormLogLines(filterKeys, params).None?
    decreases |params|
  {
    if k < |params| {
      FormLogLinesFail(filterKeys, params[..|params| - 1], k);
    }
  }

  /** The key of a segment is the text before its first `=`. */
  lemma FirstPiece(key: string, rest: string)
    requires '=' !in key
    requires rest == [] || rest[0] == '='
    ensures Split(key + rest, '=')[0] == key
  {
    if rest == [] {
      assert key + rest == key;
      SplitNoSep(key, '=');
    } else {
      SplitPrefix(key, rest, '=');
    }
  }

  /** Decoding a key followed by `=` and the mask decodes the key only. */
  lemma MaskedDecode(key: string, decodedKey: string)
    requires DecodeUriComponent(key) == Some(decodedKey)
    ensures DecodeUriComponent(key + "=" + MASK) == Some(decodedKey + "=" + MASK)
  {
    DecodeConcat(key, "=" + MASK);
    DecodeWithoutPercent("=" + MASK);
    assert key + "=" + MASK == key + ("=" + MASK);
    assert decodedKey + ("=" + MASK) == decodedKey + "=" + MASK;
  }

  /** A sensitive key's line shows the decoded key and the mask, never the value. */
  lemma MaskedLine(filterKeys: seq<string>, key: string, rest: string, decodedKey: string)
    requires '=' !in key && key != "" && Filtered(filterKeys, key)
    requires rest == [] || rest[0] == '='
    requires DecodeUriComponent(key) == Some(decodedKey)
    ensures FormLogLine(filterKeys, key + rest) == Some(decodedKey + "=" + MASK)
  {
    FirstPiece(key, rest);
    MaskedDecode(key, decodedKey);
  }

  /** A segment without `=` and without a sensitive key logs its decoded text. */
  lemma BareKeyLine(filterKeys: seq<string>, param: string)
    requires '=' !in param
    requires param == "" || !Filtered(filterKeys, param)
    ensures FormLogLine(filterKeys, param) == DecodeUriComponent(param)
  {
    SplitNoSep(param, '=');
  }

  /** A segment `key=value=tail` splits into the key, the value and the pieces of the tail. */
  lemma SplitPair(key: string, value: string, tail: string)
    requires '=' !in key && '=' !in value
    ensures Split(key + "=" + value + "=" + tail, '=') == [key, value] + Split(tail, '=')
  {
    var inner := value + ("=" + tail);
    SplitPrefix(value, "=" + tail, '=');
    assert ("=" + tail)[1..] == tail;
    SplitPrefix(key, "=" + inner, '=');
    assert ("=" + inner)[1..] == inner;
    assert key + "=" + value + "=" + tail == key + ("=" + inner);
  }

  /** Whatever follows a second `=` in a segment is not logged. */
  lemma SecondEqualsDropped(filterKeys: seq<string>, key: string, value: string, tail: string)
    requires '=' !in key && '=' !in value
    requires key == "" || !Filtered(filterKeys, key)
    ensures FormLogLine(filterKeys, key + "=" + value + "=" + tail) == DecodeUriComponent(key + "=" + value)
  {
    SplitPair(key, value, tail);
  }

  /** A non-sensitive pair whose value ends in a bare `%` makes the rendering throw. */
  lemma MalformedValueFails(filterKeys: seq<string>, key: string, value: string)
    requires '=' !in key && '=' !in value && '%' !in key && '%' !in value
    requires key == "" || !Filtered(filterKeys, key)
    ensures FormLogLine(filterKeys, key + "=" + value + "%") == None
  {
    var s := key + "=" + value + "%";
    SplitNoSep(value + "%", '=');
    assert s == key + ("=" + (value + "%"));
    SplitPrefix(key, "=" + (value + "%"), '=');
    assert ("=" + (value + "%"))[1..] == value + "%";
    assert key + "=" + (value + "%") == (key + "=" + value) + "%";
    DanglingPercentFails(key + "=" + value);
  }
}
