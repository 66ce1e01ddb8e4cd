/**
 * The two text formatters of the service helpers: `splitCamelCase`, which
 * puts a space between a lower-case and an upper-case ASCII letter, and
 * `json2xml`, which renders a JSON value as indented XML elements.
 */
module TextFormat {
  import opened JsValues

  // ---------------------------------------------------------------------------
  // splitCamelCase

  predicate IsLower(c: char) { 'a' <= c <= 'z' }
  predicate IsUpper(c: char) { 'A' <= c <= 'Z' }

  /** A lower-case letter directly followed by an upper-case one. */
  predicate BoundaryAt(s: string, i: int)
    requires 0 <= i && i + 1 < |s|
  {
    IsLower(s[i]) && IsUpper(s[i + 1])
  }

  predicate NoBoundary(s: string)
  {
    forall i :: 0 <= i && i + 1 < |s| ==> !BoundaryAt(s, i)
  }

  /** `replace(/([a-z])([A-Z])/g, '$1 $2')`: a space goes into every boundary. */
  function CamelSpaced(s: string): (r: string)
    ensures |r| >= |s|
    ensures |s| >= 1 ==> |r| >= 1 && r[0] == s[0]
  {
    if |s| < 2 then s
    else if BoundaryAt(s, 0) then [s[0], ' '] + CamelSpaced(s[1..])
    else [s[0]] + CamelSpaced(s[1..])
  }

  /** `splitCamelCase(s)`: null for a missing or empty string. */
  function SplitCamelCase(s: Option<string>): (r: Option<string>)
    ensures r.Some? <==> Present(s)
  {
    if !Present(s) then None else Some(CamelSpaced(s.value))
  }

  function RemoveSpaces(s: string): string
  {
    if s == [] then [] else (if s[0] == ' ' then [] else [s[0]]) + RemoveSpaces(s[1..])
  }

  /** After the replacement no lower-case letter is followed by an upper-case one. */
  lemma {:induction false} CamelSpacedNoBoundary(s: string)
    ensures NoBoundary(CamelSpaced(s))
  {
    if |s| >= 2 {
      CamelSpacedNoBoundary(s[1..]);
      var rest := CamelSpaced(s[1..]);
      var r := CamelSpaced(s);
      if BoundaryAt(s, 0) {
        assert r == [s[0], ' '] + rest;
        forall i | 0 <= i && i + 1 < |r| ensures !BoundaryAt(r, i) {
          if i >= 2 {
            assert r[i] == rest[i - 2] && r[i + 1] == rest[i - 1];
            assert !BoundaryAt(rest, i - 2);
          } else {
            assert r[1] == ' ';
          }
        }
      } else {
        assert r == [s[0]] + rest;
        forall i | 0 <= i && i + 1 < |r| ensures !BoundaryAt(r, i) {
          if i >= 1 {
            assert r[i] == rest[i - 1] && r[i + 1] == rest[i];
            assert !BoundaryAt(rest, i - 1);
          } else {
            assert r[0] == s[0] && r[1] == rest[0] == s[1];
          }
        }
      }
    }
  }

  /** Only spaces are added: dropping the spaces gives the same letters before and after. */
  lemma {:induction false} CamelSpacedOnlySpaces(s: string)
    ensures RemoveSpaces(CamelSpaced(s)) == RemoveSpaces(s)
  {
    if |s| >= 2 {
      CamelSpacedOnlySpaces(s[1..]);
      RemoveSpacesConcat([s[0]], s[1..]);
      if BoundaryAt(s, 0) {
        RemoveSpacesConcat([s[0], ' '], CamelSpaced(s[1..]));
        assert RemoveSpaces([s[0], ' ']) == [s[0]];
      } else {
        RemoveSpacesConcat([s[0]], CamelSpaced(s[1..]));
      }
      assert s == [s[0]] + s[1..];
    }
  }

  lemma {:induction false} RemoveSpacesConcat(a: string, b: string)
    ensures RemoveSpaces(a + b) == RemoveSpaces(a) + RemoveSpaces(b)
  {
    if a != [] {
      RemoveSpacesConcat(a[1..], b);
      var h := if a[0] == ' ' then [] else [a[0]];
      assert (a + b)[0] == a[0] && (a + b)[1..] == a[1..] + b;
      assert RemoveSpaces(a + b) == h + RemoveSpaces(a[1..] + b);
      assert RemoveSpaces(a) == h + RemoveSpaces(a[1..]);
    } else {
      assert a + b == b;
    }
  }

  /** A string without a boundary comes back unchanged. */
  lemma {:induction false} CamelSpacedFixpoint(s: string)
    requires NoBoundary(s)
    ensures CamelSpaced(s) == s
  {
    if |s| >= 2 {
      assert !BoundaryAt(s, 0);
      assert NoBoundary(s[1..]) by {
        forall i | 0 <= i && i + 1 < |s[1..]| ensures !BoundaryAt(s[1..], i) {
          assert !BoundaryAt(s, i + 1);
        }
      }
      CamelSpacedFixpoint(s[1..]);
      assert s == [s[0]] + s[1..];
    }
  }

  /** Splitting a string twice splits it once. */
  lemma SplitCamelCaseIdempotent(s: Option<string>)
    requires Present(s)
    ensures SplitCamelCase(SplitCamelCase(s)) == SplitCamelCase(s)
  {
    CamelSpacedNoBoundary(s.value);
    CamelSpacedFixpoint(CamelSpaced(s.value));
  }

  // ---------------------------------------------------------------------------
  // json2xml: text escaping

  /** `str.replace(/</g, '&lt;')`. */
  function ReplaceLt(s: string): (r: string)
    ensures '<' !in r
  {
    if s == [] then [] else (if s[0] == '<' then "&lt;" else [s[0]]) + ReplaceLt(s[1..])
  }

  /** `str.replace(/&/g, '&amp;')`. */
  function ReplaceAmp(s: string): (r: string)
    ensures '<' !in s ==> '<' !in r
    ensures |s| >= 1 ==> |r| >= 1 && r[0] == s[0]
  {
    if s == [] then [] else (if s[0] == '&' then "&amp;" else [s[0]]) + ReplaceAmp(s[1..])
  }

  /** `lines(str)`: every CR LF pair becomes a single LF. */
  function Lines(s: string): (r: string)
    ensures '<' !in s ==> '<' !in r
  {
    if s == [] then []
    else if |s| >= 2 && s[0] == '\r' && s[1] == '\n' then "\n" + Lines(s[2..])
    else [s[0]] + Lines(s[1..])
  }

  /**
   * `makeSafe(str)`: `<` is replaced before `&`, so the `&` of every `&lt;`
   * is escaped again and `<` comes out as `&amp;lt;`; `>` is left alone.
   */
  function MakeSafe(s: string): (r: string)
    ensures '<' !in r
  {
    Lines(ReplaceAmp(ReplaceLt(s)))
  }

  /** What an XML reader makes of escaped text: `&amp;` and `&lt;` read back as `&` and `<`. */
  function Unescape(s: string): string
  {
    if s == [] then []
    else if |s| >= 5 && s[..5] == "&amp;" then "&" + Unescape(s[5..])
    else if |s| >= 4 && s[..4] == "&lt;" then "<" + Unescape(s[4..])
    else [s[0]] + Unescape(s[1..])
  }

  lemma {:induction false} LinesPrefix(a: string, b: string)
    requires '\r' !in a
    ensures Lines(a + b) == a + Lines(b)
  {
    if a != [] {
      LinesPrefix(a[1..], b);
      assert (a + b)[0] == a[0] && (a + b)[1..] == a[1..] + b;
      assert Lines(a + b) == [a[0]] + Lines(a[1..] + b);
      assert a == [a[0]] + a[1..];
    } else {
      assert a + b == b;
    }
  }

  lemma {:induction false} ReplaceAmpConcat(a: string, b: string)
    ensures ReplaceAmp(a + b) == ReplaceAmp(a) + ReplaceAmp(b)
  {
    if a == [] {
      assert a + b == b;
    } else {
      var c := a + b;
      assert c[0] == a[0] && c[1..] == a[1..] + b;
      ReplaceAmpConcat(a[1..], b);
    }
  }

  /** Folding line ends and escaping `&` can be done in either order. */
  lemma {:induction false} LinesReplaceAmp(t: string)
    ensures Lines(ReplaceAmp(t)) == ReplaceAmp(Lines(t))
  {
    if t != [] {
      if |t| >= 2 && t[0] == '\r' && t[1] == '\n' {
        LinesReplaceAmp(t[2..]);
        LinesReplaceAmpCrLf(t);
      } else {
        LinesReplaceAmp(t[1..]);
        LinesReplaceAmpOther(t);
      }
    }
  }

  /** The step of LinesReplaceAmp for a string that starts with CR LF. */
  lemma LinesReplaceAmpCrLf(t: string)
    requires |t| >= 2 && t[0] == '\r' && t[1] == '\n'
    requires Lines(ReplaceAmp(t[2..])) == ReplaceAmp(Lines(t[2..]))
    ensures Lines(ReplaceAmp(t)) == ReplaceAmp(Lines(t))
  {
    EscapeThenFoldCrLf(t);
    FoldThenEscapeCrLf(t);
  }

  lemma EscapeThenFoldCrLf(t: string)
    requires |t| >= 2 && t[0] == '\r' && t[1] == '\n'
    ensures Lines(ReplaceAmp(t)) == "\n" + Lines(ReplaceAmp(t[2..]))
  {
    var ru := ReplaceAmp(t[2..]);
    var r1 := ReplaceAmp(t[1..]);
    assert t[1..][1..] == t[2..];
    assert r1 == [t[1]] + ru;
    var w := ReplaceAmp(t);
    assert w == [t[0]] + r1;
    assert w[0] == '\r' && w[1] == '\n' && w[2..] == ru;
  }

  lemma FoldThenEscapeCrLf(t: string)
    requires |t| >= 2 && t[0] == '\r' && t[1] == '\n'
    ensures ReplaceAmp(Lines(t)) == "\n" + ReplaceAmp(Lines(t[2..]))
  {
    var v := "\n" + Lines(t[2..]);
    assert Lines(t) == v;
    assert v[1..] == Lines(t[2..]);
  }

  /** The step of LinesReplaceAmp for a string that does not start with CR LF. */
  lemma LinesReplaceAmpOther(t: string)
    requires t != [] && !(|t| >= 2 && t[0] == '\r' && t[1] == '\n')
    requires Lines(ReplaceAmp(t[1..])) == ReplaceAmp(Lines(t[1..]))
    ensures Lines(ReplaceAmp(t)) == ReplaceAmp(Lines(t))
  {
    EscapeThenFoldOther(t);
    FoldThenEscapeOther(t);
  }

  lemma EscapeThenFoldOther(t: string)
    requires t != [] && !(|t| >= 2 && t[0] == '\r' && t[1] == '\n')
    ensures Lines(ReplaceAmp(t)) == ReplaceAmp([t[0]]) + Lines(ReplaceAmp(t[1..]))
  {
    if t[0] == '\r' {
      EscapeThenFoldCr(t);
    } else if t[0] == '&' {
      EscapeThenFoldAmp(t);
    } else {
      EscapeThenFoldPlain(t);
    }
  }

  lemma EscapeThenFoldCr(t: string)
    requires t != [] && t[0] == '\r' && !(|t| >= 2 && t[1] == '\n')
    ensures Lines(ReplaceAmp(t)) == "\r" + Lines(ReplaceAmp(t[1..]))
    ensures ReplaceAmp([t[0]]) == "\r"
  {
    var x := ReplaceAmp(t[1..]);
    var w := "\r" + x;
    assert ReplaceAmp(t) == w;
    assert w[1..] == x;
    if |t| >= 2 {
      assert x[0] == t[1];
    }
  }

  lemma EscapeThenFoldAmp(t: string)
    requires t != [] && t[0] == '&'
    ensures Lines(ReplaceAmp(t)) == "&amp;" + Lines(ReplaceAmp(t[1..]))
    ensures ReplaceAmp([t[0]]) == "&amp;"
  {
    var x := ReplaceAmp(t[1..]);
    assert ReplaceAmp(t) == "&amp;" + x;
    LinesAmpPrefix(x);
  }

  lemma EscapeThenFoldPlain(t: string)
    requires t != [] && t[0] != '\r' && t[0] != '&'
    ensures Lines(ReplaceAmp(t)) == [t[0]] + Lines(ReplaceAmp(t[1..]))
    ensures ReplaceAmp([t[0]]) == [t[0]]
  {
    var x := ReplaceAmp(t[1..]);
    assert ReplaceAmp(t) == [t[0]] + x;
    LinesPrefix([t[0]], x);
  }

  lemma FoldThenEscapeOther(t: string)
    requires t != [] && !(|t| >= 2 && t[0] == '\r' && t[1] == '\n')
    ensures ReplaceAmp(Lines(t)) == ReplaceAmp([t[0]]) + ReplaceAmp(Lines(t[1..]))
  {
    assert Lines(t) == [t[0]] + Lines(t[1..]);
    ReplaceAmpConcat([t[0]], Lines(t[1..]));
  }

  lemma LinesAmpPrefix(b: string)
    ensures Lines("&amp;" + b) == "&amp;" + Lines(b)
  {
    LinesPrefix("&amp;", b);
  }

  /** An XML reader undoes the `&` escaping exactly. */
  lemma {:induction false} UnescapeReplaceAmp(x: string)
    ensures Unescape(ReplaceAmp(x)) == x
  {
    if x != [] {
      UnescapeReplaceAmp(x[1..]);
      var s := ReplaceAmp(x);
      if x[0] == '&' {
        assert s == "&amp;" + ReplaceAmp(x[1..]);
        assert s[..5] == "&amp;" && s[5..] == ReplaceAmp(x[1..]);
      } else {
        assert s == [x[0]] + ReplaceAmp(x[1..]);
        assert s[0] == x[0] != '&';
        assert s[1..] == ReplaceAmp(x[1..]);
        assert |s| >= 5 ==> s[..5] != "&amp;" by {
          if |s| >= 5 { assert s[..5][0] == s[0]; }
        }
        assert |s| >= 4 ==> s[..4] != "&lt;" by {
          if |s| >= 4 { assert s[..4][0] == s[0]; }
        }
      }
      assert x == [x[0]] + x[1..];
    }
  }

  /**
   * What a reader recovers from `makeSafe(s)`: the text with line ends
   * folded but every `<` still escaped once, as `&lt;`.
   */
  lemma MakeSafeReadsBack(s: string)
    ensures Unescape(MakeSafe(s)) == Lines(ReplaceLt(s))
  {
    LinesReplaceAmp(ReplaceLt(s));
    UnescapeReplaceAmp(Lines(ReplaceLt(s)));
  }

  lemma {:induction false} ReplaceLtConcat(a: string, b: string)
    ensures ReplaceLt(a + b) == ReplaceLt(a) + ReplaceLt(b)
  {
    if a == [] {
      assert a + b == b;
    } else {
      var c := a + b;
      assert c[0] == a[0] && c[1..] == a[1..] + b;
      ReplaceLtConcat(a[1..], b);
    }
  }

  lemma {:induction false} ReplaceLtPlain(s: string)
    requires '<' !in s
    ensures ReplaceLt(s) == s
  {
    if s != [] {
      assert s[0] in s;
      ReplaceLtPlain(s[1..]);
      assert s == [s[0]] + s[1..];
    }
  }

  lemma {:induction false} ReplaceAmpPlain(s: string)
    requires '&' !in s
    ensures ReplaceAmp(s) == s
  {
    if s != [] {
      assert s[0] in s;
      ReplaceAmpPlain(s[1..]);
      assert s == [s[0]] + s[1..];
    }
  }

  /** Text without `<`, `&` or CR comes through `makeSafe` unchanged. */
  lemma MakeSafePlain(s: string)
    requires '<' !in s && '&' !in s && '\r' !in s
    ensures MakeSafe(s) == s
  {
    ReplaceLtPlain(s);
    ReplaceAmpPlain(s);
    LinesPrefix(s, "");
    assert s + "" == s;
  }

  lemma LtEscaped(s: string)
    ensures ReplaceLt("<" + s) == "&lt;" + ReplaceLt(s)
  {
    assert ("<" + s)[0] == '<' && ("<" + s)[1..] == s;
  }

  lemma LtTextKept(s: string)
    ensures ReplaceLt("&lt;" + s) == "&lt;" + ReplaceLt(s)
  {
    ReplaceLtConcat("&lt;", s);
    ReplaceLtPlain("&lt;");
  }

  lemma AmpLt()
    ensures ReplaceAmp("&lt;") == "&amp;lt;"
  {
    var lt := "&lt;";
    assert lt[0] == '&' && lt[1..] == "lt;";
    ReplaceAmpPlain("lt;");
    assert "&amp;" + "lt;" == "&amp;lt;";
  }

  lemma AmpOfLt(t: string)
    ensures Lines(ReplaceAmp("&lt;" + t)) == "&amp;lt;" + Lines(ReplaceAmp(t))
  {
    ReplaceAmpConcat("&lt;", t);
    AmpLt();
    LinesPrefix("&amp;lt;", ReplaceAmp(t));
  }

  /**
   * The double escape: `<` and the literal text `&lt;` both render as
   * `&amp;lt;`, whatever follows them.
   */
  lemma MakeSafeLessThan(s: string)
    ensures MakeSafe("<" + s) == "&amp;lt;" + MakeSafe(s)
    ensures MakeSafe("&lt;" + s) == "&amp;lt;" + MakeSafe(s)
  {
    LtEscaped(s);
    LtTextKept(s);
    AmpOfLt(ReplaceLt(s));
  }

  // ---------------------------------------------------------------------------
  // json2xml: the rendering

  /** A key starting with `@` becomes an attribute of its element. */
  predicate IsAttrKey(k: string) { |k| >= 1 && k[0] == '@' }

  predicate IsTextKey(k: string) { k == "#text" || k == "#cdata" }

  /** The attribute text for the first `k` entries; None when an attribute value is null (`null.toString()` throws). */
  function Attrs(fields: seq<(string, Json)>, k: nat): (r: Option<string>)
    requires k <= |fields|
    ensures r.None? <==> exists j :: 0 <= j < k && IsAttrKey(fields[j].0) && fields[j].1 == JNull
  {
    if k == 0 then Some("")
    else
      var (key, value) := fields[k - 1];
      var piece := if !IsAttrKey(key) then Some("")
                   else if value == JNull then None
                   else Some(" " + key[1..] + "=\"" + ToJsString(value) + "\"");
      match (Attrs(fields, k - 1), piece)
      case (Some(a), Some(p)) => Some(a + p)
      case _ => None
  }

  /** Whether one of the first `k` entries is not an attribute, so the element has content. */
  predicate HasChild(fields: seq<(string, Json)>, k: nat)
    requires k <= |fields|
  {
    exists j :: 0 <= j < k && !IsAttrKey(fields[j].0)
  }

  /** `toXml(v, name, ind)`; None where the JavaScript throws. */
  function XmlOf(v: Json, name: string, ind: string): Option<string>
    decreases v, 2, 0
  {
    match v
    case JArr(items) => XmlItems(v, name, ind, |items|)
    case JObj(fields) =>
      (match Attrs(fields, |fields|)
       case None => None
       case Some(a) =>
         var head := ind + "<" + name + a;
         if !HasChild(fields, |fields|) then Some(head + "/>")
         else
           match XmlChildren(v, ind, |fields|)
           case None => None
           case Some(c) => Some(Closed(head + ">\n" + c, name, ind)))
    case JNull => Some(ind + "<" + name + "/>")
    case _ => Some(ind + "<" + name + ">" + MakeSafe(ToJsString(v)) + "</" + name + ">\n")
  }

  /** The closing tag goes on its own indented line only when the content ended a line. */
  function Closed(body: string, name: string, ind: string): (r: string)
    requires |body| >= 1
    ensures |r| >= 1 && r[|r| - 1] == '\n'
  {
    body + (if body[|body| - 1] == '\n' then ind else "") + "</" + name + ">\n"
  }

  /** The elements of the first `k` array items, all under the array's name and indent. */
  function XmlItems(v: Json, name: string, ind: string, k: nat): Option<string>
    requires v.JArr? && k <= |v.items|
    decreases v, 1, k
  {
    if k == 0 then Some("")
    else
      match v
      case JArr(items) =>
        match (XmlItems(v, name, ind, k - 1), XmlOf(items[k - 1], name, ind))
        case (Some(a), Some(b)) => Some(a + b)
        case _ => None
  }

  /** The content produced by the first `k` entries of an object, children one tab deeper. */
  function XmlChildren(v: Json, ind: string, k: nat): Option<string>
    requires v.JObj? && k <= |v.fields|
    decreases v, 1, k
  {
    if k == 0 then Some("")
    else
      match v
      case JObj(fields) =>
        match (XmlChildren(v, ind, k - 1), ChildXml(fields[k - 1].0, fields[k - 1].1, ind))
        case (Some(a), Some(b)) => Some(a + b)
        case _ => None
  }

  /** The content of one entry: escaped text, a CDATA section, nothing for an attribute, or a child element. */
  function ChildXml(key: string, value: Json, ind: string): Option<string>
    decreases value, 3, 0
  {
    if key == "#text" then (if value.JStr? then Some(MakeSafe(value.s)) else None)
    else if key == "#cdata" then (if value.JStr? then Some("<![CDATA[" + Lines(value.s) + "]]>") else None)
    else if IsAttrKey(key) then Some("")
    else XmlOf(value, key, ind + "\t")
  }

  /** The elements of the first `k` top-level entries, unindented. */
  function TopXml(entries: seq<(string, Json)>, k: nat): Option<string>
    requires k <= |entries|
  {
    if k == 0 then Some("")
    else
      match (TopXml(entries, k - 1), XmlOf(entries[k - 1].1, entries[k - 1].0, ""))
      case (Some(a), Some(b)) => Some(a + b)
      case _ => None
  }

  /** `json2xml(o)`: one element per enumerable key of `o`. */
  function Json2XmlOf(o: Json): Option<string>
  {
    TopXml(Entries(o), |Entries(o)|)
  }

  /**
   * When rendering throws, independently of names and indentation: an
   * attribute holding null, a `#text` or `#cdata` entry that is not a string,
   * anywhere in the tree.
   */
  predicate XmlFails(v: Json)
  {
    match v
    case JArr(items) => exists i :: 0 <= i < |items| && XmlFails(items[i])
    case JObj(fields) =>
      exists i :: 0 <= i < |fields| &&
        ((IsAttrKey(fields[i].0) && fields[i].1 == JNull) ||
         (IsTextKey(fields[i].0) && !fields[i].1.JStr?) ||
         (!IsAttrKey(fields[i].0) && !IsTextKey(fields[i].0) && XmlFails(fields[i].1)))
    case _ => false
  }

  lemma {:induction false} XmlItemsNone(v: Json, name: string, ind: string, k: nat)
    requires v.JArr? && k <= |v.items|
    ensures XmlItems(v, name, ind, k).None? <==> exists i :: 0 <= i < k && XmlOf(v.items[i], name, ind).None?
  {
    if k > 0 {
      XmlItemsNone(v, name, ind, k - 1);
    }
  }

  lemma {:induction false} XmlChildrenNone(v: Json, ind: string, k: nat)
    requires v.JObj? && k <= |v.fields|
    ensures XmlChildren(v, ind, k).None? <==>
      exists i :: 0 <= i < k && ChildXml(v.fields[i].0, v.fields[i].1, ind).None?
  {
    if k > 0 {
      XmlChildrenNone(v, ind, k - 1);
    }
  }

  /** `toXml` throws exactly on the trees `XmlFails` describes, whatever the name and indent. */
  lemma {:induction false} XmlOfFails(v: Json, name: string, ind: string)
    ensures XmlOf(v, name, ind).None? <==> XmlFails(v)
    decreases v
  {
    match v
    case JArr(items) =>
      XmlItemsNone(v, name, ind, |items|);
      forall i | 0 <= i < |items|
        ensures XmlOf(items[i], name, ind).None? <==> XmlFails(items[i])
      {
        XmlOfFails(items[i], name, ind);
      }
    case JObj(fields) =>
      XmlChildrenNone(v, ind, |fields|);
      forall i | 0 <= i < |fields| && !IsAttrKey(fields[i].0) && !IsTextKey(fields[i].0)
        ensures XmlOf(fields[i].1, fields[i].0, ind + "\t").None? <==> XmlFails(fields[i].1)
      {
        XmlOfFails(fields[i].1, fields[i].0, ind + "\t");
      }
      if XmlFails(v) {
        var i :| 0 <= i < |fields| &&
          ((IsAttrKey(fields[i].0) && fields[i].1 == JNull) ||
           (IsTextKey(fields[i].0) && !fields[i].1.JStr?) ||
           (!IsAttrKey(fields[i].0) && !IsTextKey(fields[i].0) && XmlFails(fields[i].1)));
        if !IsAttrKey(fields[i].0) {
          assert HasChild(fields, |fields|);
          assert ChildXml(fields[i].0, fields[i].1, ind).None?;
        }
      }
    case _ =>
  }

  /** A scalar becomes one element on its own line holding its escaped text. */
  lemma ScalarElement(v: Json, name: string, ind: string)
    requires v.JBool? || v.JNum? || v.JStr?
    ensures XmlOf(v, name, ind) == Some(ind + "<" + name + ">" + MakeSafe(ToJsString(v)) + "</" + name + ">\n")
    ensures Unescape(MakeSafe(ToJsString(v))) == Lines(ReplaceLt(ToJsString(v)))
  {
    MakeSafeReadsBack(ToJsString(v));
  }

  /** Plain text becomes one element holding the text as it is. */
  lemma PlainElement(s: string, name: string, ind: string)
    requires '<' !in s && '&' !in s && '\r' !in s
    ensures XmlOf(JStr(s), name, ind) == Some(ind + "<" + name + ">" + s + "</" + name + ">\n")
  {
    MakeSafePlain(s);
  }

  /** A two-key object renders as its two elements, one after the other. */
  lemma PairDocument(a: string, x: Json, b: string, y: Json)
    requires XmlOf(x, a, "").Some? && XmlOf(y, b, "").Some?
    ensures Json2XmlOf(JObj([(a, x), (b, y)])) == Some(XmlOf(x, a, "").value + XmlOf(y, b, "").value)
  {
    var entries := [(a, x), (b, y)];
    assert Entries(JObj(entries)) == entries;
    assert TopXml(entries, 1) == Some("" + XmlOf(x, a, "").value);
    assert "" + XmlOf(x, a, "").value == XmlOf(x, a, "").value;
  }

  /** Null is an object without keys: a self-closing element that ends no line. */
  lemma NullElement(name: string, ind: string)
    ensures XmlOf(JNull, name, ind) == Some(ind + "<" + name + "/>")
  {
  }

  /**
   * An element with no content (a null) closes itself and ends no line, so
   * the following sibling starts on the same line.
   */
  lemma SelfClosingSibling(a: string, b: string, s: string)
    requires '<' !in s && '&' !in s && '\r' !in s
    ensures Json2XmlOf(JObj([(a, JNull), (b, JStr(s))])) ==
      Some(("<" + a + "/>") + ("<" + b + ">" + s + "</" + b + ">\n"))
  {
    PlainElement(s, b, "");
    NullElement(a, "");
    assert "" + "<" + a + "/>" == "<" + a + "/>";
    assert "" + "<" + b + ">" + s + "</" + b + ">\n" == "<" + b + ">" + s + "</" + b + ">\n";
    PairDocument(a, JNull, b, JStr(s));
  }

  /** The elements of the first `k` items, each rendered under the array's name and indent. */
  function ItemTexts(items: seq<Json>, name: string, ind: string, k: nat): (r: seq<string>)
    requires k <= |items|
    requires forall i :: 0 <= i < k ==> XmlOf(items[i], name, ind).Some?
    ensures |r| == k
    ensures forall i :: 0 <= i < k ==> r[i] == XmlOf(items[i], name, ind).value
  {
    if k == 0 then [] else ItemTexts(items, name, ind, k - 1) + [XmlOf(items[k - 1], name, ind).value]
  }

  /** The concatenation of a sequence of texts. */
  function Concat(parts: seq<string>): string
  {
    if parts == [] then "" else Concat(parts[..|parts| - 1]) + parts[|parts| - 1]
  }

  /**
   * An array has no element of its own: its XML is the elements of its items
   * one after another, each under the array's name and indent.
   */
  lemma ArrayRepeatsName(items: seq<Json>, name: string, ind: string)
    requires forall i :: 0 <= i < |items| ==> XmlOf(items[i], name, ind).Some?
    ensures XmlOf(JArr(items), name, ind) == Some(Concat(ItemTexts(items, name, ind, |items|)))
  {
    ItemsConcat(items, name, ind, |items|);
  }

  lemma {:induction false} ItemsConcat(items: seq<Json>, name: string, ind: string, k: nat)
    requires k <= |items|
    requires forall i :: 0 <= i < k ==> XmlOf(items[i], name, ind).Some?
    ensures XmlItems(JArr(items), name, ind, k) == Some(Concat(ItemTexts(items, name, ind, k)))
  {
    if k > 0 {
      ItemsConcat(items, name, ind, k - 1);
      var t := ItemTexts(items, name, ind, k);
      assert t[..k - 1] == ItemTexts(items, name, ind, k - 1);
    }
  }

  /**
   * An object whose keys are all attributes has no children: it closes itself
   * after its attributes and ends no line.
   */
  lemma AttrOnlyElement(fields: seq<(string, Json)>, name: string, ind: string, a: string)
    requires forall j :: 0 <= j < |fields| ==> IsAttrKey(fields[j].0)
    requires Attrs(fields, |fields|) == Some(a)
    ensures XmlOf(JObj(fields), name, ind) == Some(ind + "<" + name + a + "/>")
    ensures XmlOf(JObj(fields), name, ind).value[|ind + "<" + name + a|..] == "/>"
  {
  }

  // ---------------------------------------------------------------------------
  // json2xml: the loops

  /** The nested `toXml`: a `for` loop over array items, two `for … in` loops over object keys. */
  method ToXml(v: Json, name: string, ind: string) returns (r: Option<string>)
    ensures r == XmlOf(v, name, ind)
    ensures r.None? <==> XmlFails(v)
    decreases v, 3
  {
    XmlOfFails(v, name, ind);
    if v.JArr? {
      r := ItemsXml(v, name, ind);
    } else if v.JObj? {
      r := ObjectXml(v, name, ind);
    } else if v.JNull? {
      r := Some(ind + "<" + name + "/>");
    } else {
      r := Some(ind + "<" + name + ">" + MakeSafe(ToJsString(v)) + "</" + name + ">\n");
    }
  }

  /** The array branch of `toXml`: every item under the array's own name and indent. */
  method ItemsXml(v: Json, name: string, ind: string) returns (r: Option<string>)
    requires v.JArr?
    ensures r == XmlItems(v, name, ind, |v.items|)
    decreases v, 2
  {
    match v {
      case JArr(items) =>
        var xml := "";
        var i := 0;
        while i < |items|
          invariant 0 <= i <= |items|
          invariant XmlItems(v, name, ind, i) == Some(xml)
        {
          var item := ToXml(items[i], name, ind);
          if item.None? {
            XmlItemsNone(v, name, ind, |items|);
            return None;
          }
          xml := xml + item.value;
          i := i + 1;
        }
        r := Some(xml);
    }
  }

  /** The object branch of `toXml`: the attributes first, then the content. */
  method ObjectXml(v: Json, name: string, ind: string) returns (r: Option<string>)
    requires v.JObj?
    ensures r == XmlOf(v, name, ind)
    decreases v, 2
  {
    var fields := v.fields;
    var attrs := "";
    var hasChild := false;
    var i := 0;
    while i < |fields|
      invariant 0 <= i <= |fields|
      invariant Attrs(fields, i) == Some(attrs)
      invariant hasChild <==> HasChild(fields, i)
    {
      var (key, value) := fields[i];
      if IsAttrKey(key) {
        if value == JNull {
          return None;
        }
        var piece := " " + key[1..] + "=\"" + ToJsString(value) + "\"";
        attrs := attrs + piece;
      } else {
        assert attrs + "" == attrs;
        hasChild := true;
      }
      i := i + 1;
    }
    var xml := ind + "<" + name + attrs;
    if !hasChild {
      return Some(xml + "/>");
    }
    var content := ChildrenXml(v, ind);
    if content.None? {
      return None;
    }
    r := Some(Closed(xml + ">\n" + content.value, name, ind));
  }

  /** The second pass over an object's keys: the content of every entry, in key order. */
  method ChildrenXml(v: Json, ind: string) returns (r: Option<string>)
    requires v.JObj?
    ensures r == XmlChildren(v, ind, |v.fields|)
    decreases v, 1
  {
    var content := "";
    var i := 0;
    while i < |v.fields|
      invariant 0 <= i <= |v.fields|
      invariant XmlChildren(v, ind, i) == Some(content)
    {
      var piece := ChildAt(v, ind, i);
      if piece.None? {
        XmlChildrenNone(v, ind, |v.fields|);
        return None;
      }
      content := content + piece.value;
      i := i + 1;
    }
    r := Some(content);
  }

  /** The content of entry `i`: escaped text, a CDATA section, nothing for an attribute, or a child element. */
  method ChildAt(v: Json, ind: string, i: nat) returns (piece: Option<string>)
    requires v.JObj? && i < |v.fields|
    ensures piece == ChildXml(v.fields[i].0, v.fields[i].1, ind)
    decreases v, 0
  {
    match v {
      case JObj(fields) =>
        var (key, value) := fields[i];
        if key == "#text" {
          piece := if value.JStr? then Some(MakeSafe(value.s)) else None;
        } else if key == "#cdata" {
          piece := if value.JStr? then Some("<![CDATA[" + Lines(value.s) + "]]>") else None;
        } else if IsAttrKey(key) {
          piece := Some("");
        } else {
          piece := ToXml(fields[i].1, key, ind + "\t");
        }
    }
  }

  /** `json2xml(o)`: the elements of the top-level entries, in key order. */
  method Json2Xml(o: Json) returns (r: Option<string>)
    ensures r == Json2XmlOf(o)
    ensures r.None? <==> exists i :: 0 <= i < |Entries(o)| && XmlFails(Entries(o)[i].1)
  {
    var entries := Entries(o);
    var xml := "";
    var i := 0;
    while i < |entries|
      invariant 0 <= i <= |entries|
      invariant TopXml(entries, i) == Some(xml)
    {
      var element := ToXml(entries[i].1, entries[i].0, "");
      if element.None? {
        TopXmlNone(entries, |entries|);
        return None;
      }
      xml := xml + element.value;
      i := i + 1;
    }
    TopXmlNone(entries, |entries|);
    r := Some(xml);
  }

  lemma {:induction false} TopXmlNone(entries: seq<(string, Json)>, k: nat)
    requires k <= |entries|
    ensures TopXml(entries, k).None? <==> exists i :: 0 <= i < k && XmlFails(entries[i].1)
  {
    if k > 0 {
      TopXmlNone(entries, k - 1);
      XmlOfFails(entries[k - 1].1, entries[k - 1].0, "");
    }
  }
}
