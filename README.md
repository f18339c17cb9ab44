# Static-Site-Generator: HTML node tree and token-to-leaf conversion

This project models two side-effect-free pieces of a Markdown-to-HTML static
site generator and proves properties of them in Dafny.

- **The HTML node tree** (`src/htmlnode.py`). A node is a bare `HTMLNode`, a
  `LeafNode` or a `ParentNode`. `props_to_html` turns an insertion-ordered
  attribute dictionary into ` key="value" …`. `to_html` renders a tree to
  text, or raises an exception in one of four cases: a leaf without a value, a
  parent without a tag, a parent with no or empty children, and a child that
  is not a node. A bare `HTMLNode` always raises `NotImplementedError`.
- **The token-to-leaf mapping** (`src/conversions.py`).
  `text_node_to_html_node` maps an inline token `TextNode(text, text_type, url)`
  to a `LeafNode` through a fixed table with one rule per category. It raises
  `ValueError` for a category that is not in the table.

Files:

- `wrappers.dfy`: `Option` (a value or Python's `None`) and `Result` (a return
  value or a raised exception).
- `htmlnode.dfy`: module `HtmlNode`.
  - The datatype `Node` has one constructor per node class, holding the
    fields that class's constructor assigns.
  - `Child` covers an element of a `children` list that is not a node at all
    (`NonNode`).
  - A dictionary is a sequence of key/value pairs.
  - `PropsHtml` and `ToHtml` are the specification functions.
  - `PropsToHtml` and `Render` are the methods that follow the source's loops.
    They build the entry list and accumulate the children's strings, and are
    proved equal to the specification functions.
- `textnode.dfy`: module `TextNode`.
  - `textnode.py` is not part of this model. Its token and category types
    are rebuilt here from how other files use them.
  - `TextType` has the six table categories plus `Plain`. `Plain` is the
    category `src/main.py` uses, and the table has no entry for it.
- `conversions.dfy`: module `Conversions`.
  - The dispatch table is a Dafny `map` from category to rule.
  - The conversion function does one table lookup.
  - Lemmas give the leaf built for each category and the exact HTML each
    converted token renders to.

Modelling decisions:

- An attribute value is `Option<string>`. The LINK and IMAGE rules store the
  token's `url` as an attribute value, and `url` may be `None`. The f-string
  in `props_to_html` writes `None` as the text `None` (`PyStr`), so a link
  without a url renders `href="None"`.
- The `children` field is its own datatype, `Children = NoChildren |
  ChildList(items)`, not `Option<seq<Child>>`. This lets Dafny prove that the
  recursion through a parent's children terminates.
- The model follows the code in these places:
  - A parent's tag is checked only against `None`, so an empty-string tag
    renders as `<>…</>`.
  - A parent never writes its own attributes.
  - A child that is a bare `HTMLNode` gets through the `isinstance` check.
    It then raises `NotImplementedError`, not `ValueError`.

## Model

| member | source | states |
|---|---|---|
| HtmlNode.Entry | src/htmlnode.py:18 | the f-string `key="value"` for one entry; `PropsHtmlIsSpacedEntries` and `PropsHtmlAppend` state how entries make up the attribute string |
| HtmlNode.JoinSpace | src/htmlnode.py:19 | Python's `" ".join`; `PropsHtmlIsSpacedEntries` proves that a leading space plus the join puts one space before each entry |
| HtmlNode.PropsHtml | src/htmlnode.py:13-20 | the attribute string is empty exactly when the dictionary is `None` or `{}`, and otherwise starts with a space |
| HtmlNode.PropsHtmlIsSpacedEntries | src/htmlnode.py:16-20 | for a non-empty dictionary the string is each entry as `key="value"`, each after one space, in insertion order, with no escaping |
| HtmlNode.PropsHtmlAppend | src/htmlnode.py:17-18 | adding an entry at the end of the dictionary appends exactly ` key="value"` to the attribute string |
| HtmlNode.TwoEntries | src/htmlnode.py:16-20 | a two-entry dictionary renders as ` k1="v1" k2="v2"`, in insertion order |
| HtmlNode.PropsToHtml | src/htmlnode.py:13-20 | the loop that builds `prop_list`, then the space join and leading space, return exactly `PropsHtml(props)` |
| HtmlNode.ToHtml | src/htmlnode.py:10-54 | `to_html` of all three classes; its properties are stated in `RenderOkIff`, `LeafRendering`, `ParentRendering`, `ParentFailsAtFirstBadChild` and `ParentFailureHasCause` |
| HtmlNode.ChildHtml | src/htmlnode.py:50-52 | one child of the loop: a non-node raises "Child is not a valid HTMLNode", otherwise the child's own `to_html`; used by `ParentFailsAtFirstBadChild` |
| HtmlNode.Collect | src/htmlnode.py:48-52 | the accumulation over the children, aborting at the first exception; its properties are stated in `CollectAllOk`, `CollectFirstError`, `CollectOkIff`, `CollectSnoc` and `CollectErrorCause` |
| HtmlNode.CollectAllOk | src/htmlnode.py:48-52 | when every child renders, the accumulated string is the children's strings concatenated in order |
| HtmlNode.CollectFirstError | src/htmlnode.py:49-52 | the first child that fails decides the exception, whatever the later children are |
| HtmlNode.CollectOkIff | src/htmlnode.py:48-52 | accumulation succeeds if and only if every child succeeds |
| HtmlNode.CollectSnoc | src/htmlnode.py:52 | one loop step: the outcome for one more child is the old outcome, or that child's exception, or the two strings joined |
| HtmlNode.CollectErrorCause | src/htmlnode.py:49-52 | a failed accumulation is the exception of some child whose predecessors all succeeded |
| HtmlNode.RenderOkIff | src/htmlnode.py:10-54 | `to_html` succeeds if and only if the tree is well formed: no bare `HTMLNode`, every leaf has a value, every parent has a tag and a non-empty list of node children that are all well formed |
| HtmlNode.LeafRendering | src/htmlnode.py:29-34 | a leaf without a value raises, whatever its tag or attributes; without a tag it renders as its bare value, ignoring attributes; otherwise as `<tag` + attributes + `>` + value + `</tag>` |
| HtmlNode.ParentRendering | src/htmlnode.py:42-54 | for any children, a parent without a tag raises "Tag is required", so the tag is checked before the children are looked at; with a tag but no or empty children it raises "must have children"; with a tag and children that all render, it renders as `<tag>`, then the children's renderings in order, then `</tag>`, and never writes its own attributes |
| HtmlNode.ParentFailsAtFirstBadChild | src/htmlnode.py:49-52 | if a child is not a node or its rendering raises, and every earlier child renders, the parent raises that child's exception; a non-node child gives "Child is not a valid HTMLNode" |
| HtmlNode.ParentFailureHasCause | src/htmlnode.py:49-52 | conversely, a parent that has a tag and children and still raises does so with the exception of its first bad child |
| HtmlNode.Render | src/htmlnode.py:10-54 | the `to_html` methods, with the loop accumulating `results` over the children, return exactly `ToHtml(n)` |
| Conversions.SimpleLeaf | src/conversions.py:5-6 | `simple_leaf(tag)`: a leaf with that tag holding the token's text and no attributes; `ConvertedLeaf` and `UrlIgnored` state what it builds |
| Conversions.TypeTable | src/conversions.py:8-15 | the dispatch table `text_type_dict`; `TextNodeToHtmlNode` states that exactly the six categories are in it, and `ConvertedLeaf` gives each rule's leaf |
| Conversions.TextNodeToHtmlNode | src/conversions.py:4-20 | conversion raises if and only if the category is not in the table, and the error names that category; otherwise it returns a leaf with a value that renders without raising |
| Conversions.ConvertedLeaf | src/conversions.py:8-15 | TEXT gives a leaf with no tag; BOLD, ITALIC and CODE give leaves tagged `b`, `i` and `code` with no attributes; LINK gives `a` with attributes exactly `[href: url]`; IMAGE gives `img` with value `""` and attributes `[src: url, alt: text]` in that order |
| Conversions.UrlIgnored | src/conversions.py:5-12 | for TEXT, BOLD, ITALIC and CODE, two tokens that differ only in url convert to the same leaf |
| Conversions.ConversionInjective | src/conversions.py:8-15 | two tokens that convert to the same leaf have the same category and text, and for LINK and IMAGE the same url |
| Conversions.ConvertedRendering | src/conversions.py:8-18 | what each converted token renders to: its text, `<b>t</b>`, `<i>t</i>`, `<code>t</code>`, `<a href="u">t</a>`, or `<img src="u" alt="t"></img>` |
| Conversions.StyledRendering | src/htmlnode.py:34 | a tagged leaf without attributes renders as its value between `<tag>` and `</tag>` |
| Conversions.LinkRendering | src/conversions.py:13 | the LINK leaf renders as `<a href="u">t</a>`, with a missing url written as `None` |
| Conversions.ImageAttributes | src/conversions.py:14 | the IMAGE leaf's attribute string is ` src="u" alt="t"`, `src` first |
| Conversions.ImageRendering | src/conversions.py:14 | the IMAGE leaf renders as `<img src="u" alt="t"></img>`, with a missing url written as `None` |

## Left out

- `HTMLNode.__repr__` (src/htmlnode.py:22-23) is a debugging string in Python's own formatting of `None`, lists and dicts, so it is not modelled.
- `src/main.py` only builds a token and prints it, which is console I/O. Its `TextType.PLAIN` appears here only as the `Plain` category.
- Values of other Python types are not modelled. A leaf's value and a tag are strings here, but Python's f-strings accept any object and format it with `str`. Only `None` as an attribute value is modelled, because the conversion table can produce it.
- A dictionary is a sequence of pairs, and the model does not require its keys to be distinct. A Python dict never repeats a key. Every result above holds for any sequence, so it holds in particular for the sequences a dict gives.
- `isinstance` with user-defined subclasses is not modelled. Every node is one of the three classes, and everything else is `NonNode`.
- `textnode.py` is not part of this model. That covers `TextNode.__eq__`, `__repr__` and the enum's string values. `TextNode` here is a datatype with structural equality, and `text` is always a string.
- The other conversions that the tests import are not modelled, because their source is not part of this model: delimiter splitting, link and image extraction, the inline pipeline, block splitting and classification, `markdown_to_html_node` and `extract_title`.
- Nodes are immutable values here. Two Python situations therefore cannot be represented. One is a node whose `children` list contains the node itself, which makes `to_html` recurse without end (src/htmlnode.py:52). The other is a field reassigned after construction.
- `children` is `None` or a list in this model. A `children` value of another type, such as `""` or `()`, is not `== []`, so Python would render it as `<tag></tag>`; the model has no such value.
- The text of the exception messages is not modelled. Each raised exception is one constructor of `Error` or `ConversionError`.
