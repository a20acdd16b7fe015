/**
  The two helpers of Python 2.7's `xml.sax.saxutils` that the element
  renderer calls: `escape` (text content) and `quoteattr` (attribute values).
  Both are written character by character; lemmas tie them to the library's
  documented definition as a chain of `str.replace` calls, and to a decoder
  (`Unescape`, what an XML reader does with the entity references) that
  undoes them.
*/
module SaxUtils {

  /** `p` is a prefix of `s`. */
  predicate StartsWith(s: string, p: string) {
    |p| <= |s| && s[..|p|] == p
  }

  /** `s.replace(c, r)` for a one-character pattern `c`. */
  function ReplaceChar(s: string, c: char, r: string): (t: string)
    ensures c !in s ==> t == s
  {
    if s == [] then [] else (if s[0] == c then r else [s[0]]) + ReplaceChar(s[1..], c, r)
  }

  lemma {:induction false} ReplaceCharAppend(a: string, b: string, c: char, r: string)
    ensures ReplaceChar(a + b, c, r) == ReplaceChar(a, c, r) + ReplaceChar(b, c, r)
  {
    if a != [] {
      assert (a + b)[0] == a[0] && (a + b)[1..] == a[1..] + b;
      ReplaceCharAppend(a[1..], b, c, r);
      var h, x, y := if a[0] == c then r else [a[0]], ReplaceChar(a[1..], c, r), ReplaceChar(b, c, r);
      assert ReplaceChar(a + b, c, r) == h + (x + y);
      ConcatAssoc(h, x, y);
      assert ReplaceChar(a, c, r) == h + x;
    } else {
      assert a + b == b;
    }
  }

  lemma ConcatAssoc(a: string, b: string, c: string)
    ensures a + (b + c) == (a + b) + c
  { }

  lemma ReplaceCharSingle(x: char, c: char, r: string)
    ensures ReplaceChar([x], c, r) == if x == c then r else [x]
  {
    assert [x][1..] == [];
  }

  // ---------------------------------------------------------------------
  // escape
  // ---------------------------------------------------------------------

  /** The replacement `escape` makes for one character. */
  function EscapeChar(c: char): string {
    if c == '&' then "&amp;"
    else if c == '<' then "&lt;"
    else if c == '>' then "&gt;"
    else [c]
  }

  /** `xml.sax.saxutils.escape(s)` with no extra entities: `&`, `<` and `>`
      become `&amp;`, `&lt;` and `&gt;`; every other character is kept. */
  function Escape(s: string): (r: string)
    ensures '<' !in r && '>' !in r
    ensures |r| >= |s|
    ensures (forall i :: 0 <= i < |s| ==> s[i] != '&' && s[i] != '<' && s[i] != '>') ==> r == s
  {
    if s == [] then [] else EscapeChar(s[0]) + Escape(s[1..])
  }

  lemma {:induction false} EscapeAppend(a: string, b: string)
    ensures Escape(a + b) == Escape(a) + Escape(b)
  {
    if a != [] {
      assert (a + b)[0] == a[0] && (a + b)[1..] == a[1..] + b;
      EscapeAppend(a[1..], b);
      var e, x, y := EscapeChar(a[0]), Escape(a[1..]), Escape(b);
      assert Escape(a + b) == e + (x + y);
      ConcatAssoc(e, x, y);
    } else {
      assert a + b == b;
    }
  }

  /** The library's own definition of `escape`: replace `&` first, then `>`,
      then `<`. */
  function EscapeByReplacing(s: string): string {
    ReplaceChar(ReplaceChar(ReplaceChar(s, '&', "&amp;"), '>', "&gt;"), '<', "&lt;")
  }

  lemma {:induction false} EscapeIsSequentialReplace(s: string)
    ensures Escape(s) == EscapeByReplacing(s)
  {
    if s != [] {
      var c, t := s[0], s[1..];
      assert s == [c] + t;
      var a1, b1 := ReplaceChar([c], '&', "&amp;"), ReplaceChar(t, '&', "&amp;");
      ReplaceCharAppend([c], t, '&', "&amp;");
      var a2, b2 := ReplaceChar(a1, '>', "&gt;"), ReplaceChar(b1, '>', "&gt;");
      ReplaceCharAppend(a1, b1, '>', "&gt;");
      ReplaceCharAppend(a2, b2, '<', "&lt;");
      ReplaceCharSingle(c, '&', "&amp;");
      ReplaceCharSingle(c, '>', "&gt;");
      ReplaceCharSingle(c, '<', "&lt;");
      EscapeIsSequentialReplace(t);
    }
  }

  /** Every `&` in `r` starts one of the three entity references `escape` writes. */
  predicate AmpersandsStartEntities(r: string) {
    forall i :: 0 <= i < |r| && r[i] == '&' ==>
      StartsWith(r[i..], "&amp;") || StartsWith(r[i..], "&lt;") || StartsWith(r[i..], "&gt;")
  }

  lemma {:induction false} EscapeAmpersands(s: string)
    ensures AmpersandsStartEntities(Escape(s))
  {
    if s != [] {
      EscapeAmpersands(s[1..]);
      var e, t := EscapeChar(s[0]), Escape(s[1..]);
      assert Escape(s) == e + t;
      EscapeCharAmpersands(s[0]);
      AmpersandsAppend(e, t);
    }
  }

  lemma EscapeCharAmpersands(c: char)
    ensures AmpersandsStartEntities(EscapeChar(c))
  {
    var e := EscapeChar(c);
    forall i | 0 <= i < |e| && e[i] == '&'
      ensures StartsWith(e[i..], "&amp;") || StartsWith(e[i..], "&lt;") || StartsWith(e[i..], "&gt;")
    {
      assert i == 0;
    }
  }

  /** A reference that starts in the first part ends there too, so the
      property survives concatenation. */
  lemma AmpersandsAppend(e: string, t: string)
    requires AmpersandsStartEntities(e) && AmpersandsStartEntities(t)
    ensures AmpersandsStartEntities(e + t)
  {
    forall i | 0 <= i < |e + t| && (e + t)[i] == '&'
      ensures StartsWith((e + t)[i..], "&amp;") || StartsWith((e + t)[i..], "&lt;") || StartsWith((e + t)[i..], "&gt;")
    {
      if i < |e| {
        assert (e + t)[i..][..|e| - i] == e[i..];
      } else {
        assert (e + t)[i..] == t[i - |e|..];
      }
    }
  }

  // ---------------------------------------------------------------------
  // quoteattr
  // ---------------------------------------------------------------------

  /** The replacement `quoteattr` makes for one character: that of `escape`,
      plus the three whitespace entities it adds, plus `&quot;` for `"` when
      `quot` says the value is wrapped in `"` although it holds a `"`. */
  function AttrEntity(c: char, quot: bool): string {
    if c == '\n' then "&#10;"
    else if c == '\r' then "&#13;"
    else if c == '\t' then "&#9;"
    else if c == '"' && quot then "&quot;"
    else EscapeChar(c)
  }

  function AttrEscape(s: string, quot: bool): string {
    if s == [] then [] else AttrEntity(s[0], quot) + AttrEscape(s[1..], quot)
  }

  /** `quoteattr(v)` of Python 2.7: escape `v` with the extra entities for
      newline, carriage return and tab; wrap it in `"`, or in `'` when it holds
      a `"`, or, when it holds both quote characters, in `"` after replacing
      each `"` by `&quot;`. */
  function QuoteAttr(v: string): string {
    var d := AttrEscape(v, false);
    if '"' in d then
      if '\'' in d then "\"" + ReplaceChar(d, '"', "&quot;") + "\""
      else "'" + d + "'"
    else "\"" + d + "\""
  }

  /** The library's own definition of the escaping step of `quoteattr`:
      `escape` followed by the replacements for `\n`, `\r` and `\t`. */
  function AttrEscapeByReplacing(s: string): string {
    ReplaceControls(Escape(s))
  }

  /** The three control-character replacements `quoteattr` makes after `escape`. */
  function ReplaceControls(s: string): string {
    ReplaceChar(ReplaceChar(ReplaceChar(s, '\n', "&#10;"), '\r', "&#13;"), '\t', "&#9;")
  }

  lemma ReplaceControlsAppend(a: string, b: string)
    ensures ReplaceControls(a + b) == ReplaceControls(a) + ReplaceControls(b)
  {
    var a1, b1 := ReplaceChar(a, '\n', "&#10;"), ReplaceChar(b, '\n', "&#10;");
    ReplaceCharAppend(a, b, '\n', "&#10;");
    var a2, b2 := ReplaceChar(a1, '\r', "&#13;"), ReplaceChar(b1, '\r', "&#13;");
    ReplaceCharAppend(a1, b1, '\r', "&#13;");
    ReplaceCharAppend(a2, b2, '\t', "&#9;");
  }

  lemma AttrEntityByReplacing(c: char)
    ensures ReplaceControls(EscapeChar(c)) == AttrEntity(c, false)
  {
    if c == '\n' {
      assert EscapeChar(c) == "\n" && AttrEntity(c, false) == "&#10;";
      NewlineReplaced();
    } else if c == '\r' {
      assert EscapeChar(c) == "\r" && AttrEntity(c, false) == "&#13;";
      ReturnReplaced();
    } else if c == '\t' {
      assert EscapeChar(c) == "\t" && AttrEntity(c, false) == "&#9;";
      TabReplaced();
    } else {
      OtherNotReplaced(c);
    }
  }

  lemma NewlineReplaced()
    ensures ReplaceControls("\n") == "&#10;"
  {
    ReplaceCharSingle('\n', '\n', "&#10;");
    assert '\r' !in "&#10;" && '\t' !in "&#10;";
  }

  lemma ReturnReplaced()
    ensures ReplaceControls("\r") == "&#13;"
  {
    ReplaceCharSingle('\r', '\n', "&#10;");
    ReplaceCharSingle('\r', '\r', "&#13;");
  }

  lemma TabReplaced()
    ensures ReplaceControls("\t") == "&#9;"
  {
    ReplaceCharSingle('\t', '\n', "&#10;");
    ReplaceCharSingle('\t', '\r', "&#13;");
    ReplaceCharSingle('\t', '\t', "&#9;");
  }

  lemma OtherNotReplaced(c: char)
    requires c != '\n' && c != '\r' && c != '\t'
    ensures ReplaceControls(EscapeChar(c)) == EscapeChar(c)
  {
    var e := EscapeChar(c);
    assert '\n' !in e && '\r' !in e && '\t' !in e;
  }

  lemma {:induction false} AttrEscapeIsSequentialReplace(s: string)
    ensures AttrEscape(s, false) == AttrEscapeByReplacing(s)
  {
    if s != [] {
      assert Escape(s) == EscapeChar(s[0]) + Escape(s[1..]);
      ReplaceControlsAppend(EscapeChar(s[0]), Escape(s[1..]));
      AttrEntityByReplacing(s[0]);
      AttrEscapeIsSequentialReplace(s[1..]);
    }
  }

  lemma AttrEntityContent(c: char, quot: bool)
    ensures var e := AttrEntity(c, quot);
      && '<' !in e && '>' !in e && '\n' !in e && '\r' !in e && '\t' !in e
      && ('"' in e <==> c == '"' && !quot)
      && ('\'' in e <==> c == '\'')
  {
  }

  /** Which characters survive attribute escaping. */
  lemma {:induction false} AttrEscapeContent(s: string, quot: bool)
    ensures var r := AttrEscape(s, quot);
      && '<' !in r && '>' !in r && '\n' !in r && '\r' !in r && '\t' !in r
      && ('"' in r <==> '"' in s && !quot)
      && ('\'' in r <==> '\'' in s)
  {
    if s != [] {
      var e, r := AttrEntity(s[0], quot), AttrEscape(s[1..], quot);
      assert AttrEscape(s, quot) == e + r;
      AttrEntityContent(s[0], quot);
      AttrEscapeContent(s[1..], quot);
      assert s == [s[0]] + s[1..];
    }
  }

  lemma AttrEntityQuoted(c: char)
    ensures ReplaceChar(AttrEntity(c, false), '"', "&quot;") == AttrEntity(c, true)
  {
    var e := AttrEntity(c, false);
    if c == '"' {
      ReplaceCharSingle(c, '"', "&quot;");
    } else if c == '\n' || c == '\r' || c == '\t' || c == '&' || c == '<' || c == '>' {
      assert '"' !in e;
    } else {
      assert e == [c];
      ReplaceCharSingle(c, '"', "&quot;");
    }
  }

  lemma {:induction false} AttrEscapeQuoted(s: string)
    ensures ReplaceChar(AttrEscape(s, false), '"', "&quot;") == AttrEscape(s, true)
  {
    if s != [] {
      var e, r := AttrEntity(s[0], false), AttrEscape(s[1..], false);
      assert AttrEscape(s, false) == e + r;
      ReplaceCharAppend(e, r, '"', "&quot;");
      AttrEntityQuoted(s[0]);
      AttrEscapeQuoted(s[1..]);
    }
  }

  /** A value with no character that needs an entity is kept as it is. */
  lemma {:induction false} AttrEscapePlain(s: string, quot: bool)
    requires forall i :: 0 <= i < |s| ==> s[i] !in "&<>\n\r\t\""
    ensures AttrEscape(s, quot) == s
  {
    if s != [] {
      AttrEscapePlain(s[1..], quot);
      assert s == [s[0]] + s[1..];
    }
  }

  lemma QuoteAttrPlain(v: string)
    requires forall i :: 0 <= i < |v| ==> v[i] !in "&<>\n\r\t\""
    ensures QuoteAttr(v) == "\"" + v + "\""
  {
    AttrEscapePlain(v, false);
    assert '"' !in v;
    QuoteAttrCases(v);
  }

  /** The three ways `quoteattr` can quote, stated on the raw value. */
  lemma QuoteAttrCases(v: string)
    ensures '"' !in v ==> QuoteAttr(v) == "\"" + AttrEscape(v, false) + "\""
    ensures '"' in v && '\'' !in v ==> QuoteAttr(v) == "'" + AttrEscape(v, false) + "'"
    ensures '"' in v && '\'' in v ==> QuoteAttr(v) == "\"" + AttrEscape(v, true) + "\""
  {
    AttrEscapeContent(v, false);
    AttrEscapeQuoted(v);
  }

  /** The quoted value is a quote character, a body holding neither that
      quote character nor `<`, `>` or raw whitespace control characters, and
      the same quote character: it cannot end the attribute early. */
  lemma QuoteAttrDelimited(v: string)
    ensures var r := QuoteAttr(v);
      && |r| >= 2
      && (r[0] == '"' || r[0] == '\'')
      && r[|r| - 1] == r[0]
      && r[0] !in r[1..|r| - 1]
      && '<' !in r && '>' !in r && '\n' !in r && '\r' !in r && '\t' !in r
      && (r[0] == '\'' <==> '"' in v && '\'' !in v)
  {
    QuoteAttrCases(v);
    if '"' !in v {
      AttrEscapeContent(v, false);
      Enclosed('"', AttrEscape(v, false));
    } else if '\'' !in v {
      AttrEscapeContent(v, false);
      Enclosed('\'', AttrEscape(v, false));
    } else {
      AttrEscapeContent(v, true);
      Enclosed('"', AttrEscape(v, true));
    }
  }

  /** A body that holds neither the quote character nor markup or raw
      whitespace control characters, between two such quotes. */
  lemma Enclosed(q: char, body: string)
    requires q == '"' || q == '\''
    requires q !in body && '<' !in body && '>' !in body
    requires '\n' !in body && '\r' !in body && '\t' !in body
    ensures var r := [q] + body + [q];
      && |r| >= 2 && r[0] == q && r[|r| - 1] == q && r[1..|r| - 1] == body
      && '<' !in r && '>' !in r && '\n' !in r && '\r' !in r && '\t' !in r
  {
    var r := [q] + body + [q];
    assert r[1..|r| - 1] == body;
  }

  // ---------------------------------------------------------------------
  // Decoding: what an XML reader does with the references written above
  // ---------------------------------------------------------------------

  /** Replaces each of the seven entity references that `escape` and
      `quoteattr` write by the character it stands for. */
  function Unescape(s: string): string
    decreases |s|
  {
    if s == [] then []
    else if s[0] != '&' then [s[0]] + Unescape(s[1..])
    else if StartsWith(s, "&amp;") then "&" + Unescape(s[5..])
    else if StartsWith(s, "&lt;") then "<" + Unescape(s[4..])
    else if StartsWith(s, "&gt;") then ">" + Unescape(s[4..])
    else if StartsWith(s, "&quot;") then "\"" + Unescape(s[6..])
    else if StartsWith(s, "&#10;") then "\n" + Unescape(s[5..])
    else if StartsWith(s, "&#13;") then "\r" + Unescape(s[5..])
    else if StartsWith(s, "&#9;") then "\t" + Unescape(s[4..])
    else "&" + Unescape(s[1..])
  }

  /** The value of an attribute as written by `QuoteAttr`: drop the quotes and
      decode the references. */
  function UnquoteAttr(r: string): string
    requires |r| >= 2
  {
    Unescape(r[1..|r| - 1])
  }

  lemma UnescapeAmp(t: string)
    ensures Unescape("&amp;" + t) == "&" + Unescape(t)
  {
    var s := "&amp;" + t;
    assert s[..5] == "&amp;" && s[5..] == t;
  }

  lemma UnescapeLt(t: string)
    ensures Unescape("&lt;" + t) == "<" + Unescape(t)
  {
    var s := "&lt;" + t;
    assert s[..4] == "&lt;" && s[4..] == t;
    assert s[1] == 'l';
  }

  lemma UnescapeGt(t: string)
    ensures Unescape("&gt;" + t) == ">" + Unescape(t)
  {
    var s := "&gt;" + t;
    assert s[..4] == "&gt;" && s[4..] == t;
    assert s[1] == 'g';
  }

  lemma UnescapeQuot(t: string)
    ensures Unescape("&quot;" + t) == "\"" + Unescape(t)
  {
    var s := "&quot;" + t;
    assert s[..6] == "&quot;" && s[6..] == t;
    assert s[1] == 'q';
  }

  lemma UnescapeNewline(t: string)
    ensures Unescape("&#10;" + t) == "\n" + Unescape(t)
  {
    var s := "&#10;" + t;
    assert s[..5] == "&#10;" && s[5..] == t;
    assert s[1] == '#' && s[3] == '0';
  }

  lemma UnescapeReturn(t: string)
    ensures Unescape("&#13;" + t) == "\r" + Unescape(t)
  {
    var s := "&#13;" + t;
    assert s[..5] == "&#13;" && s[5..] == t;
    assert s[1] == '#' && s[3] == '3';
  }

  lemma UnescapeTab(t: string)
    ensures Unescape("&#9;" + t) == "\t" + Unescape(t)
  {
    var s := "&#9;" + t;
    assert s[..4] == "&#9;" && s[4..] == t;
    assert s[1] == '#' && s[2] == '9';
  }

  lemma UnescapePlain(c: char, t: string)
    requires c != '&'
    ensures Unescape([c] + t) == [c] + Unescape(t)
  {
    var s := [c] + t;
    assert s[0] == c && s[1..] == t;
  }

  lemma UnescapeEntity(c: char, quot: bool, t: string)
    ensures Unescape(AttrEntity(c, quot) + t) == [c] + Unescape(t)
  {
    if c == '&' {
      UnescapeAmp(t);
    } else if c == '<' {
      UnescapeLt(t);
    } else if c == '>' {
      UnescapeGt(t);
    } else if c == '"' && quot {
      UnescapeQuot(t);
    } else if c == '\n' {
      UnescapeNewline(t);
    } else if c == '\r' {
      UnescapeReturn(t);
    } else if c == '\t' {
      UnescapeTab(t);
    } else {
      UnescapePlain(c, t);
    }
  }

  lemma {:induction false} UnescapeAttrEscape(s: string, quot: bool)
    ensures Unescape(AttrEscape(s, quot)) == s
  {
    if s != [] {
      UnescapeEntity(s[0], quot, AttrEscape(s[1..], quot));
      UnescapeAttrEscape(s[1..], quot);
    }
  }

  /** `escape` is undone by decoding. */
  lemma {:induction false} UnescapeEscape(s: string)
    ensures Unescape(Escape(s)) == s
  {
    if s != [] {
      var c := s[0];
      if c == '\n' || c == '\r' || c == '\t' {
        UnescapePlain(c, Escape(s[1..]));
      } else {
        assert EscapeChar(c) == AttrEntity(c, false);
        UnescapeEntity(c, false, Escape(s[1..]));
      }
      UnescapeEscape(s[1..]);
    }
  }

  /** `quoteattr` is undone by dropping the quotes and decoding. */
  lemma QuoteAttrRoundTrip(v: string)
    ensures |QuoteAttr(v)| >= 2 && UnquoteAttr(QuoteAttr(v)) == v
  {
    QuoteAttrCases(v);
    var r := QuoteAttr(v);
    if '"' in v && '\'' in v {
      assert r[1..|r| - 1] == AttrEscape(v, true);
      UnescapeAttrEscape(v, true);
    } else {
      assert r[1..|r| - 1] == AttrEscape(v, false);
      UnescapeAttrEscape(v, false);
    }
  }
}
