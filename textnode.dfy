/**
 * The inline token `TextNode(text, text_type, url)` and its categories, as
 * src/conversions.py and the tests use them. The categories are the six of the
 * conversion table plus `Plain`, which src/main.py:6 names and the table lacks.
 */
module TextNode {
  import opened Wrappers

  datatype TextType = Text | Bold | Italic | Code | Link | Image | Plain

  /** A token without a target has `url == None`, as the Python constructor's default gives; equality is structural over all three fields. */
  datatype TextNode = TextNode(text: string, textType: TextType, url: Option<string>)
}
