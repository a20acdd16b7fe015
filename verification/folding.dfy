/**
  `dict_from_element` of bedtime.py: fold a parsed XML element tree into
  nested dictionaries, lists and text.

  The parsed tree is an abstract datatype standing for what ElementTree
  provides: a tag, the text before the first child (or `None`), the
  attributes, and the child elements in document order. A document wrapper
  (anything with `getroot`) is a separate input case.
*/
module Folding {
  import opened Wrappers

  /** A parsed element: `el.tag`, `el.text`, `el.attrib` and `list(el)`. */
  datatype XmlElement = XmlElement(tag: string, text: Option<string>, attrib: map<string, string>, kids: seq<XmlElement>)

  /** What `dict_from_element` is given: a document (`getroot()` yields its
      root element) or an element. */
  datatype Source = Document(root: XmlElement) | Tree(elem: XmlElement)

  /** The Python values the fold produces: the text of a leaf (possibly
      `None`), a dictionary, or a list made of a repeated key's values. */
  datatype Folded = Leaf(text: Option<string>) | Dict(entries: map<string, Folded>) | List(items: seq<Folded>)

  /** `tag.split("}")[-1]`: the tag after its last `}`, which drops a
      `{namespace}` prefix. */
  function LocalName(tag: string): (r: string)
    ensures '}' !in r
    ensures |r| <= |tag| && tag[|tag| - |r|..] == r
    ensures |r| < |tag| ==> tag[|tag| - |r| - 1] == '}'
  {
    if tag == [] then []
    else if tag[|tag| - 1] == '}' then []
    else
      var n := |tag| - 1;
      var r' := LocalName(tag[..n]);
      assert tag[..n][n - |r'|..] == tag[n - |r'|..n];
      assert tag[n - |r'|..] == tag[n - |r'|..n] + [tag[n]];
      assert |r'| < n ==> tag[n - |r'| - 1] == tag[..n][n - |r'| - 1];
      r' + [tag[n]]
  }

  /** A tag without `}` is its own local name. */
  lemma {:induction false} LocalNamePlain(tag: string)
    requires '}' !in tag
    ensures LocalName(tag) == tag
  {
    if tag != [] {
      var n := |tag| - 1;
      LocalNamePlain(tag[..n]);
      assert tag[n] in tag;
      assert LocalName(tag) == LocalName(tag[..n]) + [tag[n]];
      assert tag == tag[..n] + [tag[n]];
    }
  }

  /** The local name is what follows the last `}`. */
  lemma {:induction false} LocalNameAfterBrace(prefix: string, name: string)
    requires '}' !in name
    ensures LocalName(prefix + "}" + name) == name
  {
    var tag := prefix + "}" + name;
    if name == [] {
      assert tag[|tag| - 1] == '}';
    } else {
      var n := |name| - 1;
      assert tag[..|tag| - 1] == prefix + "}" + name[..n];
      assert tag[|tag| - 1] == name[n];
      LocalNameAfterBrace(prefix, name[..n]);
      assert name == name[..n] + [name[n]];
    }
  }

  /** The fold, as a specification: a leaf gives its text; an element with
      children gives the dictionary built from its children's entries. */
  function Folding(el: XmlElement): Folded
    decreases el, 1
  {
    if |el.kids| == 0 then Leaf(el.text) else Dict(Collect(Entries(el)))
  }

  /** The (local name, folded value) of each child, in document order. */
  function Entries(el: XmlElement): (r: seq<(string, Folded)>)
    ensures |r| == |el.kids|
    decreases el, 0
  {
    seq(|el.kids|, i requires 0 <= i < |el.kids| => (LocalName(el.kids[i].tag), Folding(el.kids[i])))
  }

  /** One step of the loop: a new key takes the value, a second occurrence
      makes a two-item list, later ones append to that list. */
  function Insert(m: map<string, Folded>, key: string, value: Folded): map<string, Folded> {
    if key in m then
      if m[key].List? then m[key := List(m[key].items + [value])]
      else m[key := List([m[key], value])]
    else m[key := value]
  }

  /** The dictionary after the loop has inserted `entries` in order. */
  function Collect(entries: seq<(string, Folded)>): map<string, Folded> {
    if entries == [] then map[]
    else Insert(Collect(entries[..|entries| - 1]), entries[|entries| - 1].0, entries[|entries| - 1].1)
  }

  lemma CollectStep(entries: seq<(string, Folded)>, i: int)
    requires 0 <= i < |entries|
    ensures Collect(entries[..i + 1]) == Insert(Collect(entries[..i]), entries[i].0, entries[i].1)
  {
    assert entries[..i + 1][..i] == entries[..i];
  }

  /** The three ways the loop body updates the dictionary are `Insert`. */
  lemma InsertIs(m: map<string, Folded>, key: string, value: Folded, m': map<string, Folded>)
    requires key in m && m[key].List? ==> m' == m[key := List(m[key].items + [value])]
    requires key in m && !m[key].List? ==> m' == m[key := List([m[key], value])]
    requires key !in m ==> m' == m[key := value]
    ensures m' == Insert(m, key, value)
  {
  }

  /** The loop's step for the `i`-th child: inserting its local name and
      fold extends the dictionary built from the entries before it. */
  lemma ChildStep(el: XmlElement, i: int, before: map<string, Folded>)
    requires 0 <= i < |el.kids| && before == Collect(Entries(el)[..i])
    ensures Insert(before, LocalName(el.kids[i].tag), Folding(el.kids[i])) == Collect(Entries(el)[..i + 1])
  {
    CollectStep(Entries(el), i);
  }

  /** `dict_from_element(el)` for an element. */
  method DictFromElement(el: XmlElement) returns (r: Folded)
    ensures r == Folding(el)
    decreases el
  {
    if |el.kids| > 0 {
      var result: map<string, Folded> := map[];
      var i := 0;
      while i < |el.kids|
        invariant 0 <= i <= |el.kids|
        invariant result == Collect(Entries(el)[..i])
      {
        var child := el.kids[i];
        var key := LocalName(child.tag);
        var value := DictFromElement(child);
        ghost var before := result;
        if key in result {
          if result[key].List? {
            result := result[key := List(result[key].items + [value])];
          } else {
            result := result[key := List([result[key], value])];
          }
        } else {
          result := result[key := value];
        }
        InsertIs(before, key, value, result);
        ChildStep(el, i, before);
        i := i + 1;
      }
      assert Entries(el)[..i] == Entries(el);
      r := Dict(result);
    } else {
      r := Leaf(el.text);
    }
  }

  /** `dict_from_element(src)`: a document is unwrapped to its root first. */
  method DictFromSource(src: Source) returns (r: Folded)
    ensures src.Document? ==> r == Folding(src.root)
    ensures src.Tree? ==> r == Folding(src.elem)
  {
    match src
    case Document(root) => r := DictFromElement(root);
    case Tree(el) => r := DictFromElement(el);
  }

  // ---------------------------------------------------------------------
  // What the fold produces
  // ---------------------------------------------------------------------

  /** The folded values of the entries whose key is `k`, in order. */
  function Group(entries: seq<(string, Folded)>, k: string): seq<Folded> {
    if entries == [] then []
    else
      var last := entries[|entries| - 1];
      Group(entries[..|entries| - 1], k) + (if last.0 == k then [last.1] else [])
  }

  function Keys(entries: seq<(string, Folded)>): set<string> {
    set i | 0 <= i < |entries| :: entries[i].0
  }

  lemma {:induction false} GroupOfValues(entries: seq<(string, Folded)>, k: string)
    requires forall i :: 0 <= i < |entries| ==> !entries[i].1.List?
    ensures forall j :: 0 <= j < |Group(entries, k)| ==> !Group(entries, k)[j].List?
  {
    if entries != [] {
      GroupOfValues(entries[..|entries| - 1], k);
    }
  }

  lemma GroupSnoc(init: seq<(string, Folded)>, e: (string, Folded), k: string)
    ensures Group(init + [e], k) == Group(init, k) + (if e.0 == k then [e.1] else [])
  {
    assert (init + [e])[..|init|] == init;
  }

  lemma KeysSnoc(init: seq<(string, Folded)>, e: (string, Folded))
    ensures Keys(init + [e]) == Keys(init) + {e.0}
  {
    var es := init + [e];
    forall k | k in Keys(es) ensures k in Keys(init) + {e.0} {
      var i :| 0 <= i < |es| && es[i].0 == k;
      if i < |init| { assert init[i] == es[i]; }
    }
    forall k | k in Keys(init) ensures k in Keys(es) {
      var i :| 0 <= i < |init| && init[i].0 == k;
      assert es[i] == init[i];
    }
    assert es[|init|] == e;
  }

  /** `m` holds for key `k` what the loop should have built from `entries`:
      nothing if no entry has that key, its value if one has, the list of
      the values if several have. */
  ghost predicate SummarisesKey(m: map<string, Folded>, entries: seq<(string, Folded)>, k: string) {
    var g := Group(entries, k);
    if k in m then |g| >= 1 && m[k] == (if |g| == 1 then g[0] else List(g)) else g == []
  }

  ghost predicate Summarises(m: map<string, Folded>, entries: seq<(string, Folded)>) {
    m.Keys == Keys(entries) && forall k :: SummarisesKey(m, entries, k)
  }

  lemma InsertKey(m: map<string, Folded>, init: seq<(string, Folded)>, e: (string, Folded), k: string)
    requires SummarisesKey(m, init, k) && !e.1.List?
    requires forall i :: 0 <= i < |init| ==> !init[i].1.List?
    ensures SummarisesKey(Insert(m, e.0, e.1), init + [e], k)
  {
    GroupSnoc(init, e, k);
    if k == e.0 && k in m {
      GroupOfValues(init, k);
    }
  }

  /** One loop step keeps the dictionary a summary of the entries seen. */
  lemma InsertStep(m: map<string, Folded>, init: seq<(string, Folded)>, e: (string, Folded))
    requires Summarises(m, init) && !e.1.List?
    requires forall i :: 0 <= i < |init| ==> !init[i].1.List?
    ensures Summarises(Insert(m, e.0, e.1), init + [e])
  {
    KeysSnoc(init, e);
    forall k ensures SummarisesKey(Insert(m, e.0, e.1), init + [e], k) {
      InsertKey(m, init, e, k);
    }
  }

  /** A key seen once maps to its value; a key seen n >= 2 times maps to the
      list of its n values in order; the keys are exactly those of the
      entries. Holds as long as no entry's value is itself a list, which is
      the case for folded values. */
  lemma {:induction false} CollectSpec(entries: seq<(string, Folded)>)
    requires forall i :: 0 <= i < |entries| ==> !entries[i].1.List?
    ensures Collect(entries).Keys == Keys(entries)
    ensures forall k :: k !in Collect(entries) ==> Group(entries, k) == []
    ensures forall k :: k in Collect(entries) ==>
      var g := Group(entries, k);
      |g| >= 1 && Collect(entries)[k] == if |g| == 1 then g[0] else List(g)
  {
    CollectSummarises(entries);
    var m := Collect(entries);
    forall k | k in m
      ensures var g := Group(entries, k); |g| >= 1 && m[k] == if |g| == 1 then g[0] else List(g)
    {
      assert SummarisesKey(m, entries, k);
    }
    forall k | k !in m ensures Group(entries, k) == [] {
      assert SummarisesKey(m, entries, k);
    }
  }

  lemma {:induction false} CollectSummarises(entries: seq<(string, Folded)>)
    requires forall i :: 0 <= i < |entries| ==> !entries[i].1.List?
    ensures Summarises(Collect(entries), entries)
  {
    if entries != [] {
      var n := |entries| - 1;
      CollectSummarises(entries[..n]);
      assert entries == entries[..n] + [entries[n]];
      InsertStep(Collect(entries[..n]), entries[..n], entries[n]);
    }
  }

  lemma FoldingIsNotList(el: XmlElement)
    ensures !Folding(el).List?
  {
  }

  /** Children's tags, reduced to their local names. */
  function LocalNames(el: XmlElement): set<string> {
    set i | 0 <= i < |el.kids| :: LocalName(el.kids[i].tag)
  }

  /** The fold of an element without children is its text, which may be
      `None`; that of an element with children is a dictionary whose keys are
      the local names of the children, each mapped to the fold of the one
      child with that name, or to the list of the folds of all children with
      that name in document order. */
  lemma FoldingSpec(el: XmlElement)
    ensures |el.kids| == 0 ==> Folding(el) == Leaf(el.text)
    ensures |el.kids| > 0 ==> Folding(el).Dict? && Folding(el).entries.Keys == LocalNames(el)
    ensures |el.kids| > 0 ==> forall k :: k in Folding(el).entries ==>
      var g := Group(Entries(el), k);
      |g| >= 1 && Folding(el).entries[k] == if |g| == 1 then g[0] else List(g)
  {
    if |el.kids| > 0 {
      var es := Entries(el);
      forall i | 0 <= i < |es| ensures !es[i].1.List? {
        FoldingIsNotList(el.kids[i]);
      }
      CollectSpec(es);
      forall k | k in LocalNames(el) ensures k in Keys(es) {
        var i :| 0 <= i < |el.kids| && LocalName(el.kids[i].tag) == k;
        assert es[i].0 == k;
      }
      assert Keys(es) == LocalNames(el);
    }
  }

  /** `Group` read index by index: the folds of the children whose local
      name is `k`, in document order. */
  lemma {:induction false} GroupMembers(entries: seq<(string, Folded)>, k: string)
    ensures forall v :: v in Group(entries, k) <==> exists i :: 0 <= i < |entries| && entries[i] == (k, v)
  {
    if entries != [] {
      var n := |entries| - 1;
      GroupMembers(entries[..n], k);
      forall v ensures v in Group(entries, k) <==> exists i :: 0 <= i < |entries| && entries[i] == (k, v) {
        if v in Group(entries[..n], k) {
          var i :| 0 <= i < n && entries[..n][i] == (k, v);
          assert entries[i] == (k, v);
        }
        if exists i :: 0 <= i < |entries| && entries[i] == (k, v) {
          var i :| 0 <= i < |entries| && entries[i] == (k, v);
          if i < n { assert entries[..n][i] == (k, v); }
        }
      }
    }
  }

  /** Attributes never reach the fold, and neither does the text of an
      element that has children. */
  lemma FoldingIgnores(el: XmlElement, attrib: map<string, string>, text: Option<string>)
    ensures Folding(el.(attrib := attrib)) == Folding(el)
    ensures |el.kids| > 0 ==> Folding(el.(text := text)) == Folding(el)
  {
    assert Entries(el.(attrib := attrib)) == Entries(el);
    assert Entries(el.(text := text)) == Entries(el);
  }

  // ---------------------------------------------------------------------
  // Examples
  // ---------------------------------------------------------------------

  function Item(tag: string, text: string): XmlElement {
    XmlElement(tag, Some(text), map[], [])
  }

  /** Three siblings with the same key: the second makes a list, the third
      appends to it. */
  lemma CollectThree(k: string, a: Folded, b: Folded, c: Folded)
    requires !a.List?
    ensures Collect([(k, a), (k, b), (k, c)]) == map[k := List([a, b, c])]
  {
    var es := [(k, a), (k, b), (k, c)];
    assert es[..2] == [(k, a), (k, b)];
    assert es[..2][..1] == [(k, a)];
    assert es[..2][..1][..0] == [];
    assert Collect(es[..2][..1]) == map[k := a];
    assert Collect(es[..2]) == map[k := List([a, b])];
    assert [a, b] + [c] == [a, b, c];
  }

  /** `<r><i>1</i><i>2</i><i>3</i></r>` folds to `{"i": ["1", "2", "3"]}`;
      stated for any tag without `}` and any three texts. */
  lemma ExampleRepeated(i: string, t1: string, t2: string, t3: string)
    requires '}' !in i
    ensures Folding(XmlElement("r", None, map[], [Item(i, t1), Item(i, t2), Item(i, t3)]))
         == Dict(map[i := List([Leaf(Some(t1)), Leaf(Some(t2)), Leaf(Some(t3))])])
  {
    var el := XmlElement("r", None, map[], [Item(i, t1), Item(i, t2), Item(i, t3)]);
    LocalNamePlain(i);
    var l1, l2, l3 := Leaf(Some(t1)), Leaf(Some(t2)), Leaf(Some(t3));
    RepeatedEntries(i, t1, t2, t3);
    CollectThree(i, l1, l2, l3);
  }

  lemma RepeatedEntries(i: string, t1: string, t2: string, t3: string)
    requires LocalName(i) == i
    ensures Entries(XmlElement("r", None, map[], [Item(i, t1), Item(i, t2), Item(i, t3)]))
         == [(i, Leaf(Some(t1))), (i, Leaf(Some(t2))), (i, Leaf(Some(t3)))]
  {
  }

  /** A namespaced tag is keyed by its local name. */
  lemma ExampleNamespace()
    ensures Folding(XmlElement("{urn:x}root", None, map[], [Item("{urn:x}child", "v")]))
         == Dict(map["child" := Leaf(Some("v"))])
  {
    LocalNameAfterBrace("{urn:x", "child");
    assert "{urn:x" + "}" + "child" == "{urn:x}child";
    var el := XmlElement("{urn:x}root", None, map[], [Item("{urn:x}child", "v")]);
    assert Entries(el) == [("child", Leaf(Some("v")))];
    assert Entries(el)[..0] == [];
  }

  /** Leaves fold to their text: `<leaf>hello</leaf>` gives "hello", and an
      element with neither text nor children gives `None`. */
  lemma ExampleLeaves()
    ensures Folding(Item("leaf", "hello")) == Leaf(Some("hello"))
    ensures Folding(XmlElement("empty", None, map[], [])) == Leaf(None)
  {
  }
}
