/**
 * `text_node_to_html_node` of src/conversions.py: a fixed table from each
 * token category to a rule that builds a `LeafNode`, one lookup, and a
 * `ValueError` for a category the table lacks.
 */
module Conversions {
  import opened Wrappers
  import opened HtmlNode
  import opened TextNode

  /** The `ValueError` raised for a category outside the table. */
  datatype ConversionError = InvalidTextType(textType: TextType)

  /** `simple_leaf(tag)`: a leaf with the given tag holding the token's text, no attributes. */
  function SimpleLeaf(tag: Option<string>): TextNode -> Node
  {
    (tn: TextNode) => Leaf(tag, Some(tn.text), None)
  }

  /** The dispatch table `text_type_dict`. */
  function TypeTable(): map<TextType, TextNode -> Node>
  {
    map[
      Text := SimpleLeaf(None),
      Bold := SimpleLeaf(Some("b")),
      Italic := SimpleLeaf(Some("i")),
      Code := SimpleLeaf(Some("code")),
      Link := (tn: TextNode) => Leaf(Some("a"), Some(tn.text), Some([("href", tn.url)])),
      Image := (tn: TextNode) => Leaf(Some("img"), Some(""), Some([("src", tn.url), ("alt", Some(tn.text))]))
    ]
  }

  /** The categories the table handles. */
  predicate InTable(t: TextType)
  {
    t == Text || t == Bold || t == Italic || t == Code || t == Link || t == Image
  }

  /**
   * `text_node_to_html_node`: fails exactly for a category outside the table,
   * naming that category; otherwise the result is a leaf that always has a
   * value, so rendering it can never raise the missing-value error.
   */
  function TextNodeToHtmlNode(tn: TextNode): (r: Result<Node, ConversionError>)
    ensures r.Err? <==> !InTable(tn.textType)
    ensures r.Err? ==> r.error == InvalidTextType(tn.textType)
    ensures r.Ok? ==> r.value.Leaf? && r.value.value != None && WellFormed(r.value)
  {
    if tn.textType in TypeTable() then Ok(TypeTable()[tn.textType](tn))
    else Err(InvalidTextType(tn.textType))
  }

  /** The leaf built for each category. */
  lemma ConvertedLeaf(tn: TextNode)
    ensures tn.textType == Text ==> TextNodeToHtmlNode(tn) == Ok(Leaf(None, Some(tn.text), None))
    ensures tn.textType == Bold ==> TextNodeToHtmlNode(tn) == Ok(Leaf(Some("b"), Some(tn.text), None))
    ensures tn.textType == Italic ==> TextNodeToHtmlNode(tn) == Ok(Leaf(Some("i"), Some(tn.text), None))
    ensures tn.textType == Code ==> TextNodeToHtmlNode(tn) == Ok(Leaf(Some("code"), Some(tn.text), None))
    ensures tn.textType == Link ==>
      TextNodeToHtmlNode(tn) == Ok(Leaf(Some("a"), Some(tn.text), Some([("href", tn.url)])))
    ensures tn.textType == Image ==>
      TextNodeToHtmlNode(tn) == Ok(Leaf(Some("img"), Some(""), Some([("src", tn.url), ("alt", Some(tn.text))])))
  {
  }

  /** For the four plain-styled categories the url plays no part. */
  lemma UrlIgnored(a: TextNode, b: TextNode)
    requires a.text == b.text && a.textType == b.textType
    requires a.textType in {Text, Bold, Italic, Code}
    ensures TextNodeToHtmlNode(a) == TextNodeToHtmlNode(b)
  {
  }

  /**
   * Distinct tokens give distinct leaves: the leaf determines the category and
   * the text, and for links and images also the url.
   */
  lemma ConversionInjective(a: TextNode, b: TextNode)
    requires TextNodeToHtmlNode(a).Ok? && TextNodeToHtmlNode(a) == TextNodeToHtmlNode(b)
    ensures a.textType == b.textType && a.text == b.text
    ensures a.textType in {Link, Image} ==> a.url == b.url
  {
    ConvertedLeaf(a);
    ConvertedLeaf(b);
  }

  /**
   * What each converted token renders to: bare text, a `b`/`i`/`code` element,
   * an `a` element with its `href`, or an empty `img` element with `src` then
   * `alt`. A missing url is written as `None`, as the f-string does.
   */
  lemma ConvertedRendering(tn: TextNode)
    requires InTable(tn.textType)
    ensures tn.textType == Text ==> ToHtml(TextNodeToHtmlNode(tn).value) == Ok(tn.text)
    ensures tn.textType == Bold ==> ToHtml(TextNodeToHtmlNode(tn).value) == Ok("<b>" + tn.text + "</b>")
    ensures tn.textType == Italic ==> ToHtml(TextNodeToHtmlNode(tn).value) == Ok("<i>" + tn.text + "</i>")
    ensures tn.textType == Code ==> ToHtml(TextNodeToHtmlNode(tn).value) == Ok("<code>" + tn.text + "</code>")
    ensures tn.textType == Link ==>
      ToHtml(TextNodeToHtmlNode(tn).value) == Ok("<a href=\"" + PyStr(tn.url) + "\">" + tn.text + "</a>")
    ensures tn.textType == Image ==>
      ToHtml(TextNodeToHtmlNode(tn).value) ==
        Ok("<img src=\"" + PyStr(tn.url) + "\" alt=\"" + tn.text + "\"></img>")
  {
    ConvertedLeaf(tn);
    match tn.textType
    case Text =>
    case Bold =>
      StyledRendering("b", tn.text);
      assert "<" + "b" + ">" + tn.text + "</" + "b" + ">" == "<b>" + tn.text + "</b>";
    case Italic =>
      StyledRendering("i", tn.text);
      assert "<" + "i" + ">" + tn.text + "</" + "i" + ">" == "<i>" + tn.text + "</i>";
    case Code =>
      StyledRendering("code", tn.text);
      assert "<" + "code" + ">" + tn.text + "</" + "code" + ">" == "<code>" + tn.text + "</code>";
    case Link => LinkRendering(tn.text, tn.url);
    case Image => ImageRendering(tn.text, tn.url);
  }

  /** A tagged leaf without attributes renders as its value between the opening and closing tag. */
  lemma StyledRendering(tag: string, t: string)
    ensures ToHtml(Leaf(Some(tag), Some(t), None)) == Ok("<" + tag + ">" + t + "</" + tag + ">")
  {
    assert "<" + tag + "" == "<" + tag;
  }

  /** The LINK leaf: an `a` element carrying its `href`. */
  lemma LinkRendering(t: string, url: Option<string>)
    ensures ToHtml(Leaf(Some("a"), Some(t), Some([("href", url)]))) ==
      Ok("<a href=\"" + PyStr(url) + "\">" + t + "</a>")
  {
    var u := PyStr(url);
    var attrs := " " + ("href" + "=\"" + u + "\"");
    assert PropsHtml(Some([("href", url)])) == attrs;
    assert "<" + "a" + " " + "href" + "=\"" == "<a href=\"";
    assert "\"" + ">" == "\">";
    assert "</" + "a" + ">" == "</a>";
    assert "<" + "a" + attrs + ">" + t + "</" + "a" + ">" ==
      ("<" + "a" + " " + "href" + "=\"") + u + ("\"" + ">") + t + ("</" + "a" + ">");
  }

  /** The IMAGE leaf's attributes: `src`, then `alt`. */
  lemma ImageAttributes(t: string, url: Option<string>)
    ensures PropsHtml(Some([("src", url), ("alt", Some(t))])) == " src=\"" + PyStr(url) + "\" alt=\"" + t + "\""
  {
    var u := PyStr(url);
    TwoEntries("src", url, "alt", Some(t));
    assert " " + Entry("src", url) == " src=\"" + u + "\"";
    assert " " + Entry("alt", Some(t)) == " alt=\"" + t + "\"";
  }

  /** The IMAGE leaf: an empty `img` element carrying `src`, then `alt`. */
  lemma ImageRendering(t: string, url: Option<string>)
    ensures ToHtml(Leaf(Some("img"), Some(""), Some([("src", url), ("alt", Some(t))]))) ==
      Ok("<img src=\"" + PyStr(url) + "\" alt=\"" + t + "\"></img>")
  {
    var u := PyStr(url);
    var attrs := PropsHtml(Some([("src", url), ("alt", Some(t))]));
    ImageAttributes(t, url);
    assert "<" + "img" + attrs + ">" + "" + "</" + "img" + ">" == "<img" + attrs + "></img>";
    assert "<img" + " src=\"" == "<img src=\"" && "\"" + "></img>" == "\"></img>";
    assert "<img" + attrs + "></img>" ==
      ("<img" + " src=\"") + u + "\" alt=\"" + t + ("\"" + "></img>");
  }
}
