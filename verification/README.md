# bedtime: declarative XML trees, in Dafny

bedtime.py does two jobs.

- Class `E` lets a program write an XML tree as nested constructor calls:
  `E(name)`, `E(name, children)`, `E(name, attrs)` or `E(name, attrs, children)`.
  `unicode(e)` then serialises the tree.
  An element with falsy children is written in the self-closing form `<name attrs/>`.
  Any other element is written in the long form `<name attrs>children</name>`.
  Attribute values go through `quoteattr`, and text children through `escape`.
- `dict_from_element` folds a parsed ElementTree element into Python values.
  A leaf folds to its text.
  An element with children folds to a dictionary keyed by the children's local tag names.
  A name that repeats among siblings collects its values into a list, in document order.

The Dafny model has four modules.

- `Wrappers` holds `Option` and `Result`.
- `SaxUtils` models `escape` and `quoteattr` of `xml.sax.saxutils`, as the library defines them.
  It also has a decoder, `Unescape`, which states what an XML reader recovers from the output.
  The library's source file is not part of this model.
  Each function is checked against the library's own definition as a chain of `replace` calls.
- `Element` models class `E`.
  - An element never changes once it is built, so it is a datatype, and the rendering methods are functions.
  - The constructor's two optional arguments are an explicit sum, `Arg`, over the Python shapes the constructor tells apart: `None`, dict, `E`, list/tuple, string, and anything else.
  - The constructor returns a `Result`. Its error case carries the exact `ValueError` message.
- `Folding` models `dict_from_element`.
  - The method `DictFromElement` keeps the source's loop and its three branches. It is proved to equal the recursive specification `Folding`.
  - Lemmas state what that specification produces: keys, single values, lists of repeated values, and what it ignores.

Some behaviours of bedtime.py and `xml.sax.saxutils` that the model keeps:

- A childless element folds to `el.text`, which is `None` when the element has no text.
- The constructor raises `ValueError` with one of three messages.
  - "Child must be instance of E, basestring, list or tuple": the second argument is neither `None`, a dict nor a node type, and no third argument was given.
  - "Attributes must be dictionary": the second argument is neither `None` nor a dict, and a third argument was given.
  - "Children must be sequence or string": the children are not a node type.
- `quoteattr` writes `"` as `&quot;` only when the value holds both quote characters.
  - A value that holds `"` but no `'` is quoted with `'`, and its `"` stays literal.
  - Each character is escaped exactly once.
- The docstring of bedtime.py is not a raw string, so in its fourth example the attribute value is `" & "`. It renders as `attr=" &amp; "`.

## Model

| member | source | states |
|---|---|---|
| Element.New | bedtime.py:63-87 | One rule for each case of the constructor. A node-typed second argument with no third is the children. A `None` or dict second argument gives the attributes (default `{}`), and the third gives the children (default `[]`). Each of the three `ValueError` messages is returned in exactly the cases where it is raised. |
| Element.EmptyRendersSelfClosing | bedtime.py:63-97 | `E(name)`, and an element whose children are `""` or `[]`, are built without error and render as `<name…/>`. With no attributes this is exactly `<name/>`. |
| Element.FormOfArguments | bedtime.py:63-97 | For an element built by `E(name, attrs, children)`, `Render` (`__unicode__`) gives the self-closing form `<name…/>` if and only if the children it ends up with are falsy: no children argument and a second argument that is `None`, a dict, `""` or `[]`, or a children argument `""` or `[]`. Otherwise it gives the long form `<name…>children</name>`. |
| Element.AttrStrPairs | bedtime.py:99-105 | `AttrStr` (`_attr_str`) equals a reference definition: one space followed by `k=quoteattr(v)` for each pair, in order. It is empty if and only if there are no attributes. |
| Element.JoinSpaced | bedtime.py:101-103 | `" " + " ".join(pairs)` puts exactly one space before each pair, and nothing else. |
| Element.TwoPlainAttrs | bedtime.py:99-103 | Two attributes whose values need no entity are written ` k1="v1" k2="v2"`. |
| Element.AttrPairValue | bedtime.py:101 | Each `k=quoteattr(v)` starts with `k=`. Decoding the rest gives back `v`. |
| Element.JoinChildrenAppend | bedtime.py:109-110 | `JoinChildren(a + b)` is `JoinChildren(a) + JoinChildren(b)`, so the children of a list or tuple render as the concatenation of their encodings, in order, with no separator. |
| Element.ChildrenStrDirect | bedtime.py:107-114 | `ChildrenStr` (`_children_str`): falsy children give `""`. A lone element or string child is encoded as the only item of a list would be. A string child is escaped, and decoding gives it back. |
| Element.EncodeTextChild | bedtime.py:116-120 | `EncodeChild` (`_encode_child`): an encoded string child holds no `<` or `>`. Every `&` in it starts an entity, and decoding gives the string back. |
| Element.RenderMarkup | bedtime.py:92-120 | `Render`: if no element name or attribute key holds `<`, the number of `<` in the output equals the number of tags written: one per self-closing element, two per long-form element. Text and attribute values cannot inject markup. |
| Element.ExampleNested | bedtime.py:5-9 | `E(u"html", [E(u"head"), E(u"body")])` is built and renders as `<html><head/><body/></html>`. |
| Element.ExampleAttributes | bedtime.py:11-15 | `E(u"html", {xml:lang, xmlns}, [E(u"head"), E(u"body")])` is built and renders as `<html xml:lang="…" xmlns="…"><head/><body/></html>`, for values that need no entity. |
| Element.RenderSingle | bedtime.py:17-19 | The third example's `E(u"head", E(u"title", …))`: a lone element child is rendered between the tags. |
| Element.RenderText | bedtime.py:17-19 | The third example's `E(u"h1", u"My home page")`: a non-empty string without `&`, `<` or `>` appears unchanged between the tags. |
| Element.ExampleEntities | bedtime.py:21-23 | `E("entities", {u"attr": u" & "}, "<A&B>")` renders as `<entities attr=" &amp; ">&lt;A&amp;B&gt;</entities>`. |
| Element.ExampleEmptyText | bedtime.py:93-97 | Children `""` give the self-closing form. The list `[""]` is truthy and gives `<x></x>`. |
| SaxUtils.Escape | bedtime.py:118 | `escape` leaves no `<` or `>` and never shortens its input. A string without `&`, `<` or `>` is returned unchanged. |
| SaxUtils.EscapeIsSequentialReplace | bedtime.py:118 | The per-character definition equals the library's: replace `&`, then `>`, then `<`. |
| SaxUtils.EscapeAmpersands | bedtime.py:118 | Every `&` in the output of `escape` starts `&amp;`, `&lt;` or `&gt;`. |
| SaxUtils.UnescapeEscape | bedtime.py:118 | Decoding the output of `escape` gives back the input. |
| SaxUtils.AttrEscapeIsSequentialReplace | bedtime.py:101 | The escaping step of `quoteattr` equals the library's: `escape`, then `\n`, `\r` and `\t` replaced by character references. |
| SaxUtils.AttrEscapeContent | bedtime.py:101 | Attribute escaping leaves no `<`, `>`, `\n`, `\r` or `\t`. `"` remains if and only if the input has one and `&quot;` is not used. `'` remains if and only if the input has one. |
| SaxUtils.QuoteAttrCases | bedtime.py:101 | `QuoteAttr` (`quoteattr`) quotes with `"` when the value has no `"`. It quotes with `'` when the value has `"` but no `'`. Otherwise it quotes with `"` and writes `"` as `&quot;`. |
| SaxUtils.QuoteAttrDelimited | bedtime.py:101 | The output of `QuoteAttr` opens and closes with the same quote character, which does not occur inside. It holds no `<`, `>` or raw `\n`, `\r` or `\t`. The quote is `'` exactly when the value has `"` and no `'`. |
| SaxUtils.QuoteAttrRoundTrip | bedtime.py:101 | Dropping the quotes from `QuoteAttr(v)` and decoding gives back the attribute value. |
| Folding.LocalName | bedtime.py:41 | `tag.split("}")[-1]` holds no `}` and is a suffix of the tag. When it is shorter than the tag, the character just before it is `}`, so it is the whole part after the last `}`. |
| Folding.LocalNamePlain | bedtime.py:41 | A tag without `}` is its own key. |
| Folding.LocalNameAfterBrace | bedtime.py:41 | The key of `prefix}name` is `name`, for a `name` without `}`. |
| Folding.DictFromElement | bedtime.py:38-58 | The loop over the children, with its three branches (new key, second occurrence, later occurrences), returns `Folding(el)`, the recursive specification, whose dictionary case is `Collect` of the children's entries, built by `Insert`. The loop invariant is that the dictionary is the fold of the children seen so far. |
| Folding.DictFromSource | bedtime.py:36-38 | A document is folded through its root. An element is folded directly. |
| Folding.CollectSpec | bedtime.py:39-53 | `Collect`, which adds the entries one at a time with `Insert`: the dictionary built from the entries has exactly their keys. A key seen once maps to its value. A key seen n ≥ 2 times maps to the list of its n values, in order. |
| Folding.FoldingSpec | bedtime.py:38-58 | `Folding`: a childless element folds to its text, possibly `None`. An element with children folds to a dictionary whose keys are exactly the children's local names, each mapped as `CollectSpec` states. |
| Folding.GroupMembers | bedtime.py:40-51 | The values collected under a key are exactly the folds of the children with that local name. |
| Folding.FoldingIsNotList | bedtime.py:38-58 | A fold is never a list. So the `type(...) in (tuple, list)` test only ever sees lists the loop built itself. |
| Folding.FoldingIgnores | bedtime.py:38-58 | Attributes never affect the fold. Neither does the text of an element that has children. |
| Folding.CollectThree | bedtime.py:45-51 | `Collect` of three siblings with one key: the second turns the value into a two-item list, and the third appends to it. |
| Folding.ExampleRepeated | bedtime.py:40-53 | `<r><i>t1</i><i>t2</i><i>t3</i></r>` folds to `{i: [t1, t2, t3]}`. |
| Folding.ExampleNamespace | bedtime.py:41 | `{urn:x}child` is keyed as `child`. |
| Folding.ExampleLeaves | bedtime.py:54-56 | `<leaf>hello</leaf>` folds to `"hello"`. An element with neither text nor children folds to `None`. |

## Left out

- Parsing a string argument with `fromstring` (bedtime.py:34-35) is left out. It is a call into an XML parser, so the model's input is an already parsed document or element.
- The fallback `return u""` for an object without `text` (bedtime.py:57-58) is left out. Every parsed element has `text`, and the model's element always carries it, possibly as `None`.
- `__repr__` (bedtime.py:89-90) and the doctest runner (bedtime.py:123-125) are left out. They only produce text for printing.
- Attribute order is taken as given. The attributes are the sequence in which the dictionary iterates, which Python 2 does not fix. Duplicate keys are not excluded.
- The attribute lookup `e2.attrs["xmlns"]` of the second example is not stated on its own. `New` states that the pairs are stored as given.
- List or tuple children other than strings and elements are left out. The model's list items are strings or elements only, whereas `_encode_child` would call `unicode` on any other object.
- Python's `unicode` and `str` types, `%` formatting and character encodings are not distinguished. Strings are sequences of characters.
- Objects are treated as values. Reassigning an `E`'s fields after construction, and sharing one child between two parents, are left out.
- The in-place `result[key].append(value)` is modelled as building a new list. Nothing else can observe that list during the loop.
- Element.ExampleAttributes: stated for any language tag and namespace value that needs no entity. It is not stated on the literal `"en"` and XHTML namespace URI of the documented example.
- Folding.ExampleRepeated: stated for any tag without `}` and any three texts, rather than for literal ones.
- The third documented example (bedtime.py:17-19) is not stated as one literal string. `RenderSingle`, `RenderText` and `JoinChildrenAppend` state each of its steps.
- Deep recursion, where Python would hit its recursion limit, is not modelled.
