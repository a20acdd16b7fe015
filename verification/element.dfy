/**
  Class `E` of bedtime.py: an XML element built from a name, attributes and
  children, and its rendering to an XML string.

  Python infers from the shape of the two optional constructor arguments
  which one holds the attributes and which the children; here each argument
  is an explicit sum (`Arg`) and the constructor returns a `Result` carrying
  the message of the `ValueError` it raises. An `E` value is immutable once
  built, so it is a datatype, and the rendering methods are functions.
*/
module Element {
  import opened Wrappers
  import opened SaxUtils

  /** The attribute dictionary, as its (key, value) pairs in the order the
      dictionary iterates them. */
  type Attrs = seq<(string, string)>

  /** An element. */
  datatype E = E(name: string, attrs: Attrs, children: Children)

  /** What `self.children` can hold once construction succeeded: one element,
      one string, or a list or tuple of strings and elements. */
  datatype Children = Single(elem: E) | Text(text: string) | Nodes(items: seq<Child>)

  /** One item of a list or tuple of children. */
  datatype Child = TextChild(text: string) | ElemChild(elem: E)

  /** The shape of a value passed as `attrs` or `children`: `None`, a
      dictionary, an `E`, a list or tuple, a string, or anything else. */
  datatype Arg = NoneArg | Dict(pairs: Attrs) | EArg(elem: E) | ListArg(items: seq<Child>) | Str(s: string) | Other

  const ChildTypeError := "Child must be instance of E, basestring, list or tuple"
  const AttrsTypeError := "Attributes must be dictionary"
  const ChildrenTypeError := "Children must be sequence or string"

  /** `isinstance(a, (E, list, tuple, basestring))` */
  predicate IsNodeType(a: Arg) {
    a.EArg? || a.ListArg? || a.Str?
  }

  function AsChildren(a: Arg): Children
    requires IsNodeType(a)
  {
    match a
    case EArg(x) => Single(x)
    case ListArg(items) => Nodes(items)
    case Str(s) => Text(s)
  }

  /** `E(name, attrs, children)`. A node-typed second argument with no third
      argument is the children; otherwise the second argument is the
      attributes (default `{}`) and the third the children (default `[]`). */
  function New(name: string, attrs: Arg, children: Arg): (r: Result<E>)
    ensures IsNodeType(attrs) && children.NoneArg? ==> r == Ok(E(name, [], AsChildren(attrs)))
    ensures attrs.NoneArg? && children.NoneArg? ==> r == Ok(E(name, [], Nodes([])))
    ensures attrs.Dict? && children.NoneArg? ==> r == Ok(E(name, attrs.pairs, Nodes([])))
    ensures (attrs.NoneArg? || attrs.Dict?) && IsNodeType(children) ==>
      r == Ok(E(name, if attrs.Dict? then attrs.pairs else [], AsChildren(children)))
    ensures !attrs.NoneArg? && !attrs.Dict? && !IsNodeType(attrs) && children.NoneArg? ==> r == Err(ChildTypeError)
    ensures !attrs.NoneArg? && !attrs.Dict? && !children.NoneArg? ==> r == Err(AttrsTypeError)
    ensures (attrs.NoneArg? || attrs.Dict?) && !children.NoneArg? && !IsNodeType(children) ==> r == Err(ChildrenTypeError)
  {
    var childrenInFirstArg := IsNodeType(attrs) && children.NoneArg?;
    var a := if childrenInFirstArg || attrs.NoneArg? then Dict([]) else attrs;
    var c := if childrenInFirstArg then attrs else if children.NoneArg? then ListArg([]) else children;
    if !a.Dict? then
      Err(if children.NoneArg? then ChildTypeError else AttrsTypeError)
    else if !IsNodeType(c) then
      Err(ChildrenTypeError)
    else
      Ok(E(name, a.pairs, AsChildren(c)))
  }

  // ---------------------------------------------------------------------
  // Rendering
  // ---------------------------------------------------------------------

  /** Python truthiness of `self.children`: an `E` is always true, a string
      or a list is true when non-empty. */
  predicate Truthy(c: Children) {
    match c
    case Single(_) => true
    case Text(s) => s != []
    case Nodes(items) => items != []
  }

  /** `unicode(e)`, that is `E.__unicode__`. */
  function Render(e: E): string
    decreases e
  {
    if Truthy(e.children) then
      "<" + e.name + AttrStr(e.attrs) + ">" + ChildrenStr(e.children) + "</" + e.name + ">"
    else
      "<" + e.name + AttrStr(e.attrs) + "/>"
  }

  /** `k=quoteattr(v)` for one attribute. */
  function AttrPair(p: (string, string)): string {
    p.0 + "=" + QuoteAttr(p.1)
  }

  /** `sep.join(parts)` */
  function Join(sep: string, parts: seq<string>): string {
    if parts == [] then ""
    else if |parts| == 1 then parts[0]
    else parts[0] + sep + Join(sep, parts[1..])
  }

  /** The generator of `k=quoteattr(v)` strings, one per pair. */
  function AttrPairs(attrs: Attrs): seq<string> {
    if attrs == [] then [] else [AttrPair(attrs[0])] + AttrPairs(attrs[1..])
  }

  /** `E._attr_str` */
  function AttrStr(attrs: Attrs): string {
    if attrs == [] then "" else " " + Join(" ", AttrPairs(attrs))
  }

  /** `E._children_str`; a single child that is not a list or tuple is
      encoded as `E._encode_child` encodes it. */
  function ChildrenStr(c: Children): string
    decreases c
  {
    if !Truthy(c) then ""
    else match c
      case Nodes(items) => JoinChildren(items)
      case Single(x) => Render(x)
      case Text(s) => Escape(s)
  }

  /** `u"".join(self._encode_child(c) for c in items)` */
  function JoinChildren(items: seq<Child>): string
    decreases items
  {
    if items == [] then "" else EncodeChild(items[0]) + JoinChildren(items[1..])
  }

  /** `E._encode_child`: strings are escaped, elements rendered. */
  function EncodeChild(c: Child): string
    decreases c
  {
    match c
    case TextChild(s) => Escape(s)
    case ElemChild(x) => Render(x)
  }

  // ---------------------------------------------------------------------
  // Properties of rendering
  // ---------------------------------------------------------------------

  /** Helper for `FormOfArguments`: the two forms differ at the character
      after the attributes (`/` against `>`), so each is written exactly when
      its branch is taken. */
  lemma RenderForm(e: E)
    ensures Render(e) == "<" + e.name + AttrStr(e.attrs) + "/>" <==> !Truthy(e.children)
    ensures Render(e) == "<" + e.name + AttrStr(e.attrs) + ">" + ChildrenStr(e.children) + "</" + e.name + ">"
        <==> Truthy(e.children)
  {
    var head := "<" + e.name + AttrStr(e.attrs);
    var short := head + "/>";
    var long := head + ">" + ChildrenStr(e.children) + "</" + e.name + ">";
    assert short[|head|] == '/';
    assert long[|head|] == '>';
  }

  /** Which form `unicode` writes, read off the constructor call: the
      self-closing form exactly when the children passed are falsy, that is
      absent (or `None`), `""`, `[]` or `()`, whether they came as the second
      argument or as the third. */
  lemma FormOfArguments(name: string, attrs: Arg, children: Arg)
    requires New(name, attrs, children).Ok?
    ensures var e := New(name, attrs, children).value;
      var falsy := (children.NoneArg? && (attrs.NoneArg? || attrs.Dict? || attrs == Str("") || attrs == ListArg([])))
                   || children == Str("") || children == ListArg([]);
      && (Render(e) == "<" + name + AttrStr(e.attrs) + "/>" <==> falsy)
      && (Render(e) == "<" + name + AttrStr(e.attrs) + ">" + ChildrenStr(e.children) + "</" + name + ">" <==> !falsy)
  {
    RenderForm(New(name, attrs, children).value);
  }

  /** An element built from the name alone renders as `<name/>`, and so does
      one whose children are the empty string, list or tuple. */
  lemma EmptyRendersSelfClosing(name: string, attrs: Arg, children: Arg)
    requires attrs.NoneArg? || attrs.Dict?
    requires children.NoneArg? || children == Str("") || children == ListArg([])
    ensures New(name, attrs, children).Ok?
    ensures var e := New(name, attrs, children).value;
      Render(e) == "<" + name + AttrStr(e.attrs) + "/>"
    ensures attrs.NoneArg? ==> Render(New(name, attrs, children).value) == "<" + name + "/>"
  {
  }

  /** The spaced-out attribute list as a reference definition: one space and
      one `k=quoteattr(v)` per pair, in order. */
  function SpacedPairs(attrs: Attrs): string {
    if attrs == [] then "" else " " + AttrPair(attrs[0]) + SpacedPairs(attrs[1..])
  }

  lemma {:induction false} JoinSpaced(attrs: Attrs)
    requires attrs != []
    ensures " " + Join(" ", AttrPairs(attrs)) == SpacedPairs(attrs)
  {
    var p, rest := AttrPair(attrs[0]), attrs[1..];
    assert AttrPairs(attrs) == [p] + AttrPairs(rest);
    if rest != [] {
      JoinSpaced(rest);
      assert AttrPairs(rest) != [];
      JoinCons(p, AttrPairs(rest));
      SpaceFirst(p, Join(" ", AttrPairs(rest)), SpacedPairs(rest));
    } else {
      assert AttrPairs(attrs) == [p];
      assert SpacedPairs(attrs) == " " + p + "";
    }
  }

  lemma JoinCons(p: string, ps: seq<string>)
    requires ps != []
    ensures Join(" ", [p] + ps) == p + " " + Join(" ", ps)
  {
    assert ([p] + ps)[1..] == ps;
  }

  lemma SpaceFirst(p: string, j: string, s: string)
    requires " " + j == s
    ensures " " + (p + " " + j) == " " + p + s
  {
  }

  /** The attribute string is empty when there are no attributes, and
      otherwise holds, for every pair in order, one space followed by
      `k=quoteattr(v)`, and nothing else. */
  lemma AttrStrPairs(attrs: Attrs)
    ensures AttrStr(attrs) == SpacedPairs(attrs)
    ensures AttrStr(attrs) == "" <==> attrs == []
  {
    if attrs != [] {
      JoinSpaced(attrs);
    }
  }

  /** Each attribute value can be read back from its `k=quoteattr(v)`. */
  lemma AttrPairValue(p: (string, string))
    ensures var s := AttrPair(p);
      && |s| >= |p.0| + 3
      && s[..|p.0| + 1] == p.0 + "="
      && UnquoteAttr(s[|p.0| + 1..]) == p.1
  {
    QuoteAttrRoundTrip(p.1);
    var s := AttrPair(p);
    assert s[|p.0| + 1..] == QuoteAttr(p.1);
  }

  /** The children of a list render as the in-order concatenation of their
      encodings, with no separators. */
  lemma {:induction false} JoinChildrenAppend(a: seq<Child>, b: seq<Child>)
    ensures JoinChildren(a + b) == JoinChildren(a) + JoinChildren(b)
  {
    if a != [] {
      assert (a + b)[0] == a[0] && (a + b)[1..] == a[1..] + b;
      JoinChildrenAppend(a[1..], b);
      ConcatAssoc(EncodeChild(a[0]), JoinChildren(a[1..]), JoinChildren(b));
    } else {
      assert a + b == b;
    }
  }

  /** A single child that is not in a list is encoded as if it were the only
      item of a list; falsy children encode as the empty string. */
  lemma ChildrenStrDirect(c: Children)
    ensures !Truthy(c) ==> ChildrenStr(c) == ""
    ensures c.Single? ==> ChildrenStr(c) == JoinChildren([ElemChild(c.elem)])
    ensures c.Text? ==> ChildrenStr(c) == JoinChildren([TextChild(c.text)])
    ensures c.Text? ==> ChildrenStr(c) == Escape(c.text) && Unescape(ChildrenStr(c)) == c.text
  {
    if c.Text? {
      UnescapeEscape(c.text);
    }
  }

  /** A string child is escaped, and decoding gives the string back. */
  lemma EncodeTextChild(s: string)
    ensures var r := EncodeChild(TextChild(s));
      '<' !in r && '>' !in r && AmpersandsStartEntities(r) && Unescape(r) == s
  {
    EscapeAmpersands(s);
    UnescapeEscape(s);
  }

  // ---------------------------------------------------------------------
  // Markup comes only from tags
  // ---------------------------------------------------------------------

  /** No `<` in any element name or attribute key of the tree. */
  predicate NamesClean(e: E)
    decreases e
  {
    && '<' !in e.name
    && (forall i :: 0 <= i < |e.attrs| ==> '<' !in e.attrs[i].0)
    && ChildrenClean(e.children)
  }

  predicate ChildrenClean(c: Children)
    decreases c
  {
    match c
    case Single(x) => NamesClean(x)
    case Text(_) => true
    case Nodes(items) => ItemsClean(items)
  }

  predicate ItemsClean(items: seq<Child>)
    decreases items
  {
    items != [] ==> ChildClean(items[0]) && ItemsClean(items[1..])
  }

  predicate ChildClean(c: Child)
    decreases c
  {
    c.ElemChild? ==> NamesClean(c.elem)
  }

  /** The number of tags `Render` writes: one for a self-closing element,
      an opening and a closing tag otherwise. */
  function TagCount(e: E): nat
    decreases e
  {
    if Truthy(e.children) then 2 + ChildrenTags(e.children) else 1
  }

  function ChildrenTags(c: Children): nat
    decreases c
  {
    match c
    case Single(x) => TagCount(x)
    case Text(_) => 0
    case Nodes(items) => ItemsTags(items)
  }

  function ItemsTags(items: seq<Child>): nat
    decreases items
  {
    if items == [] then 0 else ChildTags(items[0]) + ItemsTags(items[1..])
  }

  function ChildTags(c: Child): nat
    decreases c
  {
    match c
    case TextChild(_) => 0
    case ElemChild(x) => TagCount(x)
  }

  lemma {:induction false} AttrStrClean(attrs: Attrs)
    requires forall i :: 0 <= i < |attrs| ==> '<' !in attrs[i].0
    ensures '<' !in AttrStr(attrs)
  {
    AttrStrPairs(attrs);
    SpacedPairsClean(attrs);
  }

  lemma {:induction false} SpacedPairsClean(attrs: Attrs)
    requires forall i :: 0 <= i < |attrs| ==> '<' !in attrs[i].0
    ensures '<' !in SpacedPairs(attrs)
  {
    if attrs != [] {
      QuoteAttrDelimited(attrs[0].1);
      assert '<' !in attrs[0].0;
      SpacedPairsClean(attrs[1..]);
    }
  }

  /** When names and keys hold no `<`, every `<` in the output begins a tag:
      neither text children nor attribute values can inject markup. */
  lemma {:induction false} RenderMarkup(e: E)
    requires NamesClean(e)
    ensures multiset(Render(e))['<'] == TagCount(e)
    decreases e
  {
    AttrStrClean(e.attrs);
    if Truthy(e.children) {
      ChildrenMarkup(e.children);
      LongFormMarkup(e.name, AttrStr(e.attrs), ChildrenStr(e.children));
    } else {
      ShortFormMarkup(e.name, AttrStr(e.attrs));
    }
  }

  lemma LongFormMarkup(name: string, attrs: string, body: string)
    requires '<' !in name && '<' !in attrs
    ensures multiset("<" + name + attrs + ">" + body + "</" + name + ">")['<'] == 2 + multiset(body)['<']
  {
    assert multiset(name)['<'] == 0 && multiset(attrs)['<'] == 0;
    assert multiset("<")['<'] == 1 && multiset(">")['<'] == 0 && multiset("</")['<'] == 1;
  }

  lemma ShortFormMarkup(name: string, attrs: string)
    requires '<' !in name && '<' !in attrs
    ensures multiset("<" + name + attrs + "/>")['<'] == 1
  {
    assert multiset(name)['<'] == 0 && multiset(attrs)['<'] == 0;
    assert multiset("<")['<'] == 1 && multiset("/>")['<'] == 0;
  }

  lemma {:induction false} ChildrenMarkup(c: Children)
    requires ChildrenClean(c)
    ensures multiset(ChildrenStr(c))['<'] == if Truthy(c) then ChildrenTags(c) else 0
    decreases c
  {
    match c
    case Single(x) => RenderMarkup(x);
    case Text(s) =>
    case Nodes(items) => ItemsMarkup(items);
  }

  lemma {:induction false} ItemsMarkup(items: seq<Child>)
    requires ItemsClean(items)
    ensures multiset(JoinChildren(items))['<'] == ItemsTags(items)
    decreases items
  {
    if items != [] {
      ChildMarkup(items[0]);
      ItemsMarkup(items[1..]);
    }
  }

  lemma {:induction false} ChildMarkup(c: Child)
    requires ChildClean(c)
    ensures multiset(EncodeChild(c))['<'] == ChildTags(c)
    decreases c
  {
    if c.ElemChild? {
      RenderMarkup(c.elem);
    }
  }

  // ---------------------------------------------------------------------
  // The module's documented examples
  // ---------------------------------------------------------------------

  function Empty(name: string): E {
    E(name, [], Nodes([]))
  }

  lemma JoinTwo(a: Child, b: Child)
    ensures JoinChildren([a, b]) == EncodeChild(a) + EncodeChild(b)
  {
    assert [a, b][1..] == [b];
    assert [b][1..] == [];
    assert JoinChildren([b]) == EncodeChild(b) + "";
    assert EncodeChild(b) + "" == EncodeChild(b);
  }

  lemma RenderEmpty(name: string)
    ensures Render(Empty(name)) == "<" + name + "/>"
  {
    assert AttrStr([]) == "";
  }

  lemma HeadBody()
    ensures JoinChildren([ElemChild(Empty("head")), ElemChild(Empty("body"))]) == "<head/><body/>"
  {
    JoinTwo(ElemChild(Empty("head")), ElemChild(Empty("body")));
    RenderEmpty("head");
    RenderEmpty("body");
  }

  lemma ExampleNested()
    ensures var r := New("html", ListArg([ElemChild(Empty("head")), ElemChild(Empty("body"))]), NoneArg);
      r.Ok? && Render(r.value) == "<html><head/><body/></html>"
  {
    var items := [ElemChild(Empty("head")), ElemChild(Empty("body"))];
    NewChildren("html", items);
    HeadBody();
    RenderLong(E("html", [], Nodes(items)), "", "<head/><body/>");
    NestedPieces();
  }

  /** A lone element as children, as in `E(u"head", E(u"title", ...))` of
      the third documented example: the child is rendered between the tags. */
  lemma RenderSingle(name: string, x: E)
    ensures New(name, EArg(x), NoneArg) == Ok(E(name, [], Single(x)))
    ensures Render(E(name, [], Single(x))) == "<" + name + ">" + Render(x) + "</" + name + ">"
  {
    assert AttrStr([]) == "";
    assert "<" + name + "" == "<" + name;
  }

  /** A non-empty string as children, as in `E(u"h1", u"My home page")`: a
      string without `&`, `<` or `>` appears as it is between the tags. */
  lemma RenderText(name: string, s: string)
    requires s != []
    requires forall i :: 0 <= i < |s| ==> s[i] != '&' && s[i] != '<' && s[i] != '>'
    ensures New(name, Str(s), NoneArg) == Ok(E(name, [], Text(s)))
    ensures Render(E(name, [], Text(s))) == "<" + name + ">" + s + "</" + name + ">"
  {
    assert AttrStr([]) == "";
    assert "<" + name + "" == "<" + name;
  }

  lemma NewChildren(name: string, items: seq<Child>)
    ensures New(name, ListArg(items), NoneArg) == Ok(E(name, [], Nodes(items)))
  {
  }

  /** The long form of an element whose attribute string and content are known. */
  lemma RenderLong(e: E, attrs: string, body: string)
    requires Truthy(e.children)
    requires AttrStr(e.attrs) == attrs && ChildrenStr(e.children) == body
    ensures Render(e) == "<" + e.name + attrs + ">" + body + "</" + e.name + ">"
  {
  }

  lemma NestedPieces()
    ensures "<" + "html" + "" + ">" + "<head/><body/>" + "</" + "html" + ">" == "<html><head/><body/></html>"
  {
  }

  lemma SpacedTwo(p: (string, string), q: (string, string))
    ensures SpacedPairs([p, q]) == (" " + AttrPair(p)) + (" " + AttrPair(q))
  {
    assert [p, q][1..] == [q];
    assert [q][1..] == [];
    assert SpacedPairs([q]) == " " + AttrPair(q) + "";
  }

  /** An attribute whose value needs no entity is written `k="v"`. */
  lemma PairPlain(k: string, v: string)
    requires forall i :: 0 <= i < |v| ==> v[i] !in "&<>\n\r\t\""
    ensures " " + AttrPair((k, v)) == " " + k + "=\"" + v + "\""
  {
    QuoteAttrPlain(v);
    var q := QuoteAttr(v);
    assert " " + (k + "=" + q) == " " + k + "=" + q;
  }

  /** The second documented example, for any language tag and namespace
      URI that need no entity (the documented one uses "en" and the XHTML
      namespace): the attributes follow the tag name in dictionary order,
      each quoted with `"`. */
  lemma ExampleAttributes(lang: string, ns: string)
    requires forall i :: 0 <= i < |lang| ==> lang[i] !in "&<>\n\r\t\""
    requires forall i :: 0 <= i < |ns| ==> ns[i] !in "&<>\n\r\t\""
    ensures var attrs := [("xml:lang", lang), ("xmlns", ns)];
      var r := New("html", Dict(attrs), ListArg([ElemChild(Empty("head")), ElemChild(Empty("body"))]));
      && r.Ok?
      && Render(r.value)
         == "<html" + (" xml:lang=\"" + lang + "\"") + (" xmlns=\"" + ns + "\"") + "><head/><body/></html>"
  {
    var items := [ElemChild(Empty("head")), ElemChild(Empty("body"))];
    NewWithAttrs("html", [("xml:lang", lang), ("xmlns", ns)], items);
    HeadBody();
    RenderPlainAttrs("html", "xml:lang", lang, "xmlns", ns, items, "<head/><body/>");
    HtmlPieces();
    AssemblePlainAttrs("html", "xml:lang", lang, "xmlns", ns, "<head/><body/>",
      "<html", " xml:lang=\"", " xmlns=\"", "><head/><body/></html>");
  }

  lemma HtmlPieces()
    ensures "<html" == "<" + "html"
    ensures " xml:lang=\"" == " " + "xml:lang" + "=\""
    ensures " xmlns=\"" == " " + "xmlns" + "=\""
    ensures "><head/><body/></html>" == ">" + "<head/><body/>" + "</" + "html" + ">"
  {
  }

  lemma NewWithAttrs(name: string, attrs: Attrs, items: seq<Child>)
    ensures New(name, Dict(attrs), ListArg(items)) == Ok(E(name, attrs, Nodes(items)))
  {
  }

  /** An element with two attributes whose values need no entity, and
      non-empty content. */
  lemma RenderPlainAttrs(name: string, k1: string, v1: string, k2: string, v2: string,
                         items: seq<Child>, body: string)
    requires forall i :: 0 <= i < |v1| ==> v1[i] !in "&<>\n\r\t\""
    requires forall i :: 0 <= i < |v2| ==> v2[i] !in "&<>\n\r\t\""
    requires items != [] && JoinChildren(items) == body
    ensures Render(E(name, [(k1, v1), (k2, v2)], Nodes(items)))
         == "<" + name + ((" " + k1 + "=\"" + v1 + "\"") + (" " + k2 + "=\"" + v2 + "\"")) + ">" + body + "</" + name + ">"
  {
    TwoPlainAttrs(k1, v1, k2, v2);
  }

  lemma AssemblePlainAttrs(name: string, k1: string, v1: string, k2: string, v2: string, body: string,
                           open: string, p1: string, p2: string, tail: string)
    requires open == "<" + name && p1 == " " + k1 + "=\"" && p2 == " " + k2 + "=\""
    requires tail == ">" + body + "</" + name + ">"
    ensures "<" + name + ((" " + k1 + "=\"" + v1 + "\"") + (" " + k2 + "=\"" + v2 + "\"")) + ">" + body + "</" + name + ">"
         == open + (p1 + v1 + "\"") + (p2 + v2 + "\"") + tail
  {
  }

  lemma TwoPlainAttrs(k1: string, v1: string, k2: string, v2: string)
    requires forall i :: 0 <= i < |v1| ==> v1[i] !in "&<>\n\r\t\""
    requires forall i :: 0 <= i < |v2| ==> v2[i] !in "&<>\n\r\t\""
    ensures AttrStr([(k1, v1), (k2, v2)]) == (" " + k1 + "=\"" + v1 + "\"") + (" " + k2 + "=\"" + v2 + "\"")
  {
    var attrs := [(k1, v1), (k2, v2)];
    PairPlain(k1, v1);
    PairPlain(k2, v2);
    AttrStrPairs(attrs);
    SpacedTwo((k1, v1), (k2, v2));
  }

  lemma ExampleEntities()
    ensures var r := New("entities", Dict([("attr", " & ")]), Str("<A&B>"));
      && r.Ok?
      && Render(r.value) == "<entities attr=\" &amp; \">&lt;A&amp;B&gt;</entities>"
  {
    var e := E("entities", [("attr", " & ")], Text("<A&B>"));
    assert New("entities", Dict([("attr", " & ")]), Str("<A&B>")) == Ok(e);
    EntitiesAttr();
    EntitiesText();
    RenderLong(e, " attr=\" &amp; \"", "&lt;A&amp;B&gt;");
    EntitiesOutput();
  }

  lemma EntitiesOutput()
    ensures "<" + "entities" + " attr=\" &amp; \"" + ">" == "<entities attr=\" &amp; \">"
    ensures "<entities attr=\" &amp; \">" + "&lt;A&amp;B&gt;" + "</" + "entities" + ">"
         == "<entities attr=\" &amp; \">&lt;A&amp;B&gt;</entities>"
  {
  }

  lemma EntitiesAttr()
    ensures AttrStr([("attr", " & ")]) == " attr=\" &amp; \""
  {
    AttrEscapeThree(' ', '&', ' ');
    EntityPieces();
    QuoteAttrCases(" & ");
    AttrStrOne("attr", " & ");
    AttrPieces();
  }

  lemma EntityPieces()
    ensures AttrEntity(' ', false) + (AttrEntity('&', false) + AttrEntity(' ', false)) == " &amp; "
    ensures '"' !in " & "
  {
  }

  lemma AttrPieces()
    ensures " " + "attr" + "=" + ("\"" + " &amp; " + "\"") == " attr=\" &amp; \""
  {
  }

  lemma AttrEscapeThree(a: char, b: char, c: char)
    ensures AttrEscape([a, b, c], false) == AttrEntity(a, false) + (AttrEntity(b, false) + AttrEntity(c, false))
  {
    var s := [a, b, c];
    assert s[1..] == [b, c] && s[1..][1..] == [c] && [c][1..] == [];
    assert AttrEscape([c], false) == AttrEntity(c, false) + [];
    assert AttrEntity(c, false) + [] == AttrEntity(c, false);
  }

  lemma AttrStrOne(k: string, v: string)
    ensures AttrStr([(k, v)]) == " " + k + "=" + QuoteAttr(v)
  {
    assert [(k, v)][1..] == [];
    assert AttrPairs([(k, v)]) == [AttrPair((k, v))] + [];
  }

  lemma EntitiesText()
    ensures Escape("<A&B>") == "&lt;A&amp;B&gt;"
  {
    EscapeFive('<', 'A', '&', 'B', '>');
    EntitiesPieces();
  }

  lemma EntitiesPieces()
    ensures "&lt;" + ("A" + ("&amp;" + ("B" + "&gt;"))) == "&lt;A&amp;B&gt;"
  {
  }

  lemma EscapeFive(a: char, b: char, c: char, d: char, e: char)
    ensures Escape([a, b, c, d, e]) == EscapeChar(a) + (EscapeChar(b) + (EscapeChar(c) + (EscapeChar(d) + EscapeChar(e))))
  {
    assert [a, b, c, d, e] == [a] + ([b] + ([c] + ([d] + [e])));
    EscapeCons(a, [b] + ([c] + ([d] + [e])));
    EscapeCons(b, [c] + ([d] + [e]));
    EscapeCons(c, [d] + [e]);
    EscapeCons(d, [e]);
    EscapeCons(e, []);
    assert [e] + [] == [e];
    assert EscapeChar(e) + [] == EscapeChar(e);
  }

  lemma EscapeCons(c: char, rest: string)
    ensures Escape([c] + rest) == EscapeChar(c) + Escape(rest)
  {
    assert ([c] + rest)[1..] == rest;
  }

  /** An empty string child keeps the short form, but a list holding an empty
      string is truthy and forces the long form. */
  lemma ExampleEmptyText()
    ensures Render(E("x", [], Text(""))) == "<x/>"
    ensures Render(E("x", [], Nodes([TextChild("")]))) == "<x></x>"
  {
  }
}
