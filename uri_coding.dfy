/**
 * Percent-encoding as JavaScript's `encodeURIComponent` and
 * `decodeURIComponent` perform it (section 2.1 of RFC 3986, over the UTF-8
 * bytes of each character), and the form-value encoder of the service helpers,
 * which additionally escapes the apostrophe.
 *
 * Characters are Unicode scalar values, so every string is well-formed and
 * the encoder is total; the decoder fails (JavaScript throws `URIError`) on a
 * malformed escape or an invalid UTF-8 sequence.
 */
module UriCoding {
  import opened JsValues

  /** The characters `encodeURIComponent` leaves as they are. */
  predicate Unreserved(c: char)
  {
    ('A' <= c <= 'Z') || ('a' <= c <= 'z') || ('0' <= c <= '9') ||
    c == '-' || c == '_' || c == '.' || c == '!' || c == '~' ||
    c == '*' || c == '\'' || c == '(' || c == ')'
  }

  predicate IsByte(b: int)
  {
    0 <= b < 256
  }

  /** The UTF-8 encoding of one scalar value. */
  function Utf8(c: char): (r: seq<int>)
    ensures 1 <= |r| <= 4
    ensures forall i :: 0 <= i < |r| ==> IsByte(r[i])
  {
    var cp := c as int;
    if cp < 0x80 then [cp]
    else if cp < 0x800 then [0xC0 + cp / 64, 0x80 + cp % 64]
    else if cp < 0x10000 then [0xE0 + cp / 4096, 0x80 + (cp / 64) % 64, 0x80 + cp % 64]
    else [0xF0 + cp / 262144, 0x80 + (cp / 4096) % 64, 0x80 + (cp / 64) % 64, 0x80 + cp % 64]
  }

  function HexUpper(d: int): char
    requires 0 <= d < 16
  {
    if d < 10 then ('0' as int + d) as char else ('A' as int + d - 10) as char
  }

  predicate IsHex(c: char)
  {
    ('0' <= c <= '9') || ('A' <= c <= 'F') || ('a' <= c <= 'f')
  }

  function HexValue(c: char): (d: int)
    requires IsHex(c)
    ensures 0 <= d < 16
  {
    if c <= '9' then c as int - '0' as int
    else if c <= 'F' then c as int - 'A' as int + 10
    else c as int - 'a' as int + 10
  }

  /** `%XY` with upper-case hex digits. */
  function PercentByte(b: int): (r: string)
    requires IsByte(b)
    ensures |r| == 3 && r[0] == '%' && IsHex(r[1]) && IsHex(r[2])
    ensures 16 * HexValue(r[1]) + HexValue(r[2]) == b
  {
    ['%', HexUpper(b / 16), HexUpper(b % 16)]
  }

  function PercentBytes(bs: seq<int>): (r: string)
    requires forall i :: 0 <= i < |bs| ==> IsByte(bs[i])
    ensures |r| == 3 * |bs|
  {
    if bs == [] then "" else PercentByte(bs[0]) + PercentBytes(bs[1..])
  }

  function EncodeChar(c: char): string
  {
    if Unreserved(c) then [c] else PercentBytes(Utf8(c))
  }

  /** `encodeURIComponent(s)`. */
  function EncodeUriComponent(s: string): string
  {
    if s == [] then "" else EncodeChar(s[0]) + EncodeUriComponent(s[1..])
  }

  /** `t.replace(/'/g, '%27')`. */
  function EscapeApostrophes(t: string): (r: string)
    ensures '\'' !in r
  {
    if t == [] then ""
    else (if t[0] == '\'' then "%27" else [t[0]]) + EscapeApostrophes(t[1..])
  }

  /** The form-value encoder: `encodeURIComponent` followed by escaping `'` as `%27`. */
  function EncodeFormPostValue(s: string): (r: string)
    ensures '\'' !in r
  {
    EscapeApostrophes(EncodeUriComponent(s))
  }

  /** The same encoding, described one character at a time. */
  function FormEncodeChar(c: char): string
  {
    if c == '\'' then "%27" else EncodeChar(c)
  }

  function FormEncode(s: string): string
  {
    if s == [] then "" else FormEncodeChar(s[0]) + FormEncode(s[1..])
  }

  // ---------------------------------------------------------------------------
  // decodeURIComponent

  /** The byte written as `%XY` at the start of `s`, if `s` starts with one. */
  function EscapedByte(s: string): (r: Option<int>)
    ensures r.Some? ==> |s| >= 3 && IsByte(r.value)
  {
    if |s| >= 3 && s[0] == '%' && IsHex(s[1]) && IsHex(s[2])
    then Some(16 * HexValue(s[1]) + HexValue(s[2]))
    else None
  }

  /** How many bytes a UTF-8 sequence with this lead byte has; 0 when it cannot lead one. */
  function LeadLength(b: int): nat
  {
    if b < 0x80 then 1
    else if b < 0xC0 then 0
    else if b < 0xE0 then 2
    else if b < 0xF0 then 3
    else if b < 0xF8 then 4
    else 0
  }

  /** The `k` continuation bytes written as escapes at the start of `s`. */
  function ContinuationBytes(s: string, k: nat): (r: Option<seq<int>>)
    ensures r.Some? ==> |r.value| == k && |s| >= 3 * k
    ensures r.Some? ==> forall i :: 0 <= i < k ==> 0x80 <= r.value[i] < 0xC0
  {
    if k == 0 then Some([])
    else
      match EscapedByte(s)
      case None => None
      case Some(b) =>
        if !(0x80 <= b < 0xC0) then None
        else
          match ContinuationBytes(s[3..], k - 1)
          case None => None
          case Some(bs) => Some([b] + bs)
  }

  /** The code point a multi-byte sequence spells, and whether it is the shortest valid form. */
  function MultiByteValue(lead: int, cont: seq<int>): int
    requires |cont| >= 1
  {
    var n := |cont| + 1;
    if n == 2 then (lead - 0xC0) * 64 + (cont[0] - 0x80)
    else if n == 3 then (lead - 0xE0) * 4096 + (cont[0] - 0x80) * 64 + (cont[1] - 0x80)
    else (lead - 0xF0) * 262144 + (cont[0] - 0x80) * 4096 + (cont[1] - 0x80) * 64 + (cont[2] - 0x80)
  }

  predicate ValidScalar(n: nat, cp: int)
  {
    (n == 2 && 0x80 <= cp < 0x800) ||
    (n == 3 && 0x800 <= cp < 0x10000 && !(0xD800 <= cp < 0xE000)) ||
    (n == 4 && 0x10000 <= cp < 0x110000)
  }

  /** The character written by the escape sequence at the start of `s`, and its length. */
  function DecodeEscape(s: string): (r: Option<(char, nat)>)
    ensures r.Some? ==> 3 <= r.value.1 <= |s|
  {
    match EscapedByte(s)
    case None => None
    case Some(b) =>
      if b < 0x80 then Some((b as char, 3))
      else
        var n := LeadLength(b);
        if n == 0 || |s| < 3 * n then None
        else
          match ContinuationBytes(s[3..], n - 1)
          case None => None
          case Some(cont) =>
            var cp := MultiByteValue(b, cont);
            if ValidScalar(n, cp) then Some((cp as char, 3 * n)) else None
  }

  function Prepend(prefix: string, r: Option<string>): Option<string>
  {
    match r
    case None => None
    case Some(t) => Some(prefix + t)
  }

  /** `decodeURIComponent(s)`; None where JavaScript throws `URIError`. */
  function DecodeUriComponent(s: string): (r: Option<string>)
    decreases |s|
  {
    if s == [] then Some("")
    else if s[0] != '%' then Prepend([s[0]], DecodeUriComponent(s[1..]))
    else
      match DecodeEscape(s)
      case None => None
      case Some(d) => Prepend([d.0], DecodeUriComponent(s[d.1..]))
  }

  // ---------------------------------------------------------------------------
  // Round trips

  lemma HexUpperValue(d: int)
    requires 0 <= d < 16
    ensures IsHex(HexUpper(d)) && HexValue(HexUpper(d)) == d
  {
  }

  /** `%XY` reads back as the byte it was written from. */
  lemma PercentByteRead(b: int, rest: string)
    requires IsByte(b)
    ensures EscapedByte(PercentByte(b) + rest) == Some(b)
  {
    var p := PercentByte(b);
    assert (p + rest)[0] == '%' && (p + rest)[1] == p[1] && (p + rest)[2] == p[2];
  }

  /** Escaping a non-empty byte run writes its first byte, then the rest. */
  lemma PercentBytesSplit(bs: seq<int>, rest: string)
    requires bs != [] && forall i :: 0 <= i < |bs| ==> IsByte(bs[i])
    ensures PercentBytes(bs) + rest == PercentByte(bs[0]) + (PercentBytes(bs[1..]) + rest)
    ensures (PercentBytes(bs) + rest)[3..] == PercentBytes(bs[1..]) + rest
  {
    var q := PercentBytes(bs[1..]);
    ThreeAhead(PercentByte(bs[0]), q, rest);
  }

  lemma ThreeAhead(p: string, q: string, rest: string)
    requires |p| == 3
    ensures (p + q) + rest == p + (q + rest)
    ensures ((p + q) + rest)[3..] == q + rest
  {
    assert (p + q) + rest == p + (q + rest);
  }

  lemma {:induction false} ContinuationRead(bs: seq<int>, rest: string)
    requires forall i :: 0 <= i < |bs| ==> 0x80 <= bs[i] < 0xC0
    ensures ContinuationBytes(PercentBytes(bs) + rest, |bs|) == Some(bs)
  {
    if bs != [] {
      var t := PercentBytes(bs[1..]) + rest;
      PercentBytesSplit(bs, rest);
      PercentByteRead(bs[0], t);
      ContinuationRead(bs[1..], rest);
      assert [bs[0]] + bs[1..] == bs;
    }
  }

  /** Every character's UTF-8 bytes decode back to the character. */
  lemma Utf8Decodes(c: char)
    ensures var u := Utf8(c);
      if |u| == 1 then u[0] == c as int && u[0] < 0x80
      else
        LeadLength(u[0]) == |u| &&
        (forall i :: 1 <= i < |u| ==> 0x80 <= u[i] < 0xC0) &&
        MultiByteValue(u[0], u[1..]) == c as int &&
        ValidScalar(|u|, c as int)
  {
    var cp := c as int;
    if cp >= 0x10000 {
      assert cp / 4096 == (cp / 262144) * 64 + (cp / 4096) % 64;
      assert cp / 64 == (cp / 4096) * 64 + (cp / 64) % 64;
    } else if cp >= 0x800 {
      assert cp / 64 == (cp / 4096) * 64 + (cp / 64) % 64;
    }
  }

  /** The escapes of a character's UTF-8 bytes read back as one escape sequence for it. */
  lemma DecodeEscapeChar(c: char, rest: string)
    ensures DecodeEscape(PercentBytes(Utf8(c)) + rest) == Some((c, 3 * |Utf8(c)|))
  {
    var u := Utf8(c);
    var t := PercentBytes(u[1..]) + rest;
    Utf8Decodes(c);
    PercentBytesSplit(u, rest);
    PercentByteRead(u[0], t);
    if |u| > 1 {
      ContinuationRead(u[1..], rest);
    }
  }

  /** A percent-encoded character decodes back to itself. */
  lemma DecodePercentChar(c: char, rest: string)
    requires c as int >= 0x80 || c == '%' || !Unreserved(c) || c == '\''
    ensures DecodeUriComponent(PercentBytes(Utf8(c)) + rest) == Prepend([c], DecodeUriComponent(rest))
  {
    var u := Utf8(c);
    var s := PercentBytes(u) + rest;
    DecodeEscapeChar(c, rest);
    PercentBytesSplit(u, rest);
    assert s[0] == '%';
    assert s[3 * |u|..] == rest;
  }

  /** A character other than `%` decodes to itself. */
  lemma DecodePlainChar(c: char, rest: string)
    requires c != '%'
    ensures DecodeUriComponent([c] + rest) == Prepend([c], DecodeUriComponent(rest))
  {
    assert ([c] + rest)[1..] == rest;
  }

  lemma PrependAssoc(a: string, b: string, r: Option<string>)
    ensures Prepend(a, Prepend(b, r)) == Prepend(a + b, r)
  {
    if r.Some? {
      assert a + (b + r.value) == (a + b) + r.value;
    }
  }

  /** `decodeURIComponent(encodeURIComponent(s)) == s` for every string. */
  lemma {:induction false} UriRoundTrip(s: string)
    ensures DecodeUriComponent(EncodeUriComponent(s)) == Some(s)
  {
    if s != [] {
      UriRoundTrip(s[1..]);
      var rest := EncodeUriComponent(s[1..]);
      if Unreserved(s[0]) {
        DecodePlainChar(s[0], rest);
      } else {
        DecodePercentChar(s[0], rest);
      }
      assert s == [s[0]] + s[1..];
    }
  }

  /** The form-value encoder is the per-character encoding with `'` written as `%27`. */
  lemma {:induction false} FormEncodeIsPerChar(s: string)
    ensures EncodeFormPostValue(s) == FormEncode(s)
  {
    if s != [] {
      FormEncodeIsPerChar(s[1..]);
      EscapeApostrophesConcat(EncodeChar(s[0]), EncodeUriComponent(s[1..]));
      if s[0] == '\'' {
        assert EncodeChar(s[0]) == "'";
        assert EscapeApostrophes("'") == "%27";
      } else {
        EncodeCharNoApostrophe(s[0]);
        EscapeNoApostrophe(EncodeChar(s[0]));
      }
    }
  }

  lemma {:induction false} EscapeApostrophesConcat(a: string, b: string)
    ensures EscapeApostrophes(a + b) == EscapeApostrophes(a) + EscapeApostrophes(b)
  {
    if a != [] {
      EscapeApostrophesConcat(a[1..], b);
      assert (a + b)[1..] == a[1..] + b;
    } else {
      assert a + b == b;
    }
  }

  lemma {:induction false} EscapeNoApostrophe(t: string)
    requires '\'' !in t
    ensures EscapeApostrophes(t) == t
  {
    if t != [] {
      EscapeNoApostrophe(t[1..]);
      assert t == [t[0]] + t[1..];
    }
  }

  lemma {:induction false} PercentBytesNoApostrophe(bs: seq<int>)
    requires forall i :: 0 <= i < |bs| ==> IsByte(bs[i])
    ensures '\'' !in PercentBytes(bs)
  {
    if bs != [] {
      PercentBytesNoApostrophe(bs[1..]);
    }
  }

  lemma EncodeCharNoApostrophe(c: char)
    requires c != '\''
    ensures '\'' !in EncodeChar(c)
  {
    if !Unreserved(c) {
      PercentBytesNoApostrophe(Utf8(c));
    }
  }

  /** `decodeURIComponent` recovers every value the form encoder wrote. */
  lemma {:induction false} FormValueRoundTrip(s: string)
    ensures DecodeUriComponent(EncodeFormPostValue(s)) == Some(s)
  {
    FormEncodeIsPerChar(s);
    FormRoundTrip(s);
  }

  lemma {:induction false} FormRoundTrip(s: string)
    ensures DecodeUriComponent(FormEncode(s)) == Some(s)
  {
    if s != [] {
      FormRoundTrip(s[1..]);
      var rest := FormEncode(s[1..]);
      if s[0] == '\'' {
        assert Utf8(s[0]) == [0x27];
        assert PercentBytes([0x27]) == "%27";
        DecodePercentChar(s[0], rest);
      } else if Unreserved(s[0]) {
        DecodePlainChar(s[0], rest);
      } else {
        DecodePercentChar(s[0], rest);
      }
      assert s == [s[0]] + s[1..];
    }
  }

  /** Encoded text contains only unreserved characters, `%` and hex digits. */
  predicate UriSafe(c: char)
  {
    Unreserved(c) || c == '%'
  }

  lemma {:induction false} PercentBytesSafe(bs: seq<int>)
    requires forall i :: 0 <= i < |bs| ==> IsByte(bs[i])
    ensures forall i :: 0 <= i < |PercentBytes(bs)| ==> UriSafe(PercentBytes(bs)[i])
  {
    if bs != [] {
      PercentBytesSafe(bs[1..]);
    }
  }

  /** The form encoder never writes a separator: no `&`, no `=`. */
  lemma {:induction false} FormEncodeSafe(s: string)
    ensures forall i :: 0 <= i < |FormEncode(s)| ==> UriSafe(FormEncode(s)[i])
  {
    if s != [] {
      FormEncodeSafe(s[1..]);
      if s[0] != '\'' && !Unreserved(s[0]) {
        PercentBytesSafe(Utf8(s[0]));
      }
    }
  }

  lemma FormValueHasNoSeparators(s: string)
    ensures '&' !in EncodeFormPostValue(s) && '=' !in EncodeFormPostValue(s)
  {
    FormEncodeIsPerChar(s);
    FormEncodeSafe(s);
  }

  /** Only the value "null" encodes to "null", which is why the form builder drops it. */
  lemma EncodesToNull(s: string)
    ensures EncodeFormPostValue(s) == "null" <==> s == "null"
  {
    FormValueRoundTrip(s);
    DecodePlainChar('l', "");
    assert ['l'] + "" == "l";
    DecodePlainChar('l', "l");
    assert ['l'] + "l" == "ll";
    DecodePlainChar('u', "ll");
    assert ['u'] + "ll" == "ull";
    DecodePlainChar('n', "ull");
    assert ['n'] + "ull" == "null";
    if s == "null" {
      FormEncodeIsPerChar(s);
      assert FormEncode("l") == "l";
      assert FormEncode("ll") == "ll";
      assert FormEncode("ull") == "ull";
    }
  }

  // ---------------------------------------------------------------------------
  // Decoding a concatenation

  lemma {:induction false} ContinuationPrefix(a: string, b: string, k: nat)
    requires ContinuationBytes(a, k).Some?
    ensures ContinuationBytes(a + b, k) == ContinuationBytes(a, k)
  {
    if k > 0 {
      assert (a + b)[..3] == a[..3];
      assert EscapedByte(a + b) == EscapedByte(a);
      assert (a + b)[3..] == a[3..] + b;
      ContinuationPrefix(a[3..], b, k - 1);
    }
  }

  /** An escape sequence that decodes on its own decodes the same with anything after it. */
  lemma DecodeEscapePrefix(a: string, b: string)
    requires DecodeEscape(a).Some?
    ensures DecodeEscape(a + b) == DecodeEscape(a)
  {
    assert (a + b)[..3] == a[..3];
    assert EscapedByte(a + b) == EscapedByte(a);
    var byte := EscapedByte(a).value;
    if byte >= 0x80 {
      var n := LeadLength(byte);
      assert (a + b)[3..] == a[3..] + b;
      ContinuationPrefix(a[3..], b, n - 1);
    }
  }

  /** Decoding distributes over a concatenation whose first part decodes. */
  lemma {:induction false} DecodeConcat(a: string, b: string)
    requires DecodeUriComponent(a).Some?
    ensures DecodeUriComponent(a + b) == Prepend(DecodeUriComponent(a).value, DecodeUriComponent(b))
    decreases |a|
  {
    if a == [] {
      assert a + b == b;
      if DecodeUriComponent(b).Some? {
        assert "" + DecodeUriComponent(b).value == DecodeUriComponent(b).value;
      }
    } else if a[0] != '%' {
      assert (a + b)[1..] == a[1..] + b;
      DecodeConcat(a[1..], b);
      PrependAssoc([a[0]], DecodeUriComponent(a[1..]).value, DecodeUriComponent(b));
    } else {
      var d := DecodeEscape(a).value;
      DecodeEscapePrefix(a, b);
      assert (a + b)[d.1..] == a[d.1..] + b;
      DecodeConcat(a[d.1..], b);
      PrependAssoc([d.0], DecodeUriComponent(a[d.1..]).value, DecodeUriComponent(b));
    }
  }

  /** Text without `%` decodes to itself. */
  lemma {:induction false} DecodeWithoutPercent(s: string)
    requires '%' !in s
    ensures DecodeUriComponent(s) == Some(s)
  {
    if s != [] {
      DecodeWithoutPercent(s[1..]);
      assert s == [s[0]] + s[1..];
    }
  }

  /** A `%` with nothing valid after it makes decoding fail. */
  lemma DanglingPercentFails(a: string)
    requires '%' !in a
    ensures DecodeUriComponent(a + "%") == None
  {
    DecodeWithoutPercent(a);
    DecodeConcat(a, "%");
  }
}
