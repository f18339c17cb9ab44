/**
 * The HTML node tree of src/htmlnode.py and its serialiser.
 *
 * `HTMLNode`, `LeafNode` and `ParentNode` become the three constructors of one
 * datatype `Node`; an element of a parent's child list that is not an
 * `HTMLNode` at all (Python `None`, a string, ...) is the `Child` alternative
 * `NonNode`. Python's insertion-ordered attribute dictionary is a sequence of
 * key/value pairs, and every exception `to_html` raises is an `Error`.
 */
module HtmlNode {
  import opened Wrappers

  /** An attribute value: a string, or Python's `None` (see `PyStr`). */
  type PropValue = Option<string>

  /** An insertion-ordered attribute dictionary. */
  type Props = seq<(string, PropValue)>

  /** The `children` field: Python `None`, or a list of arbitrary values. */
  datatype Children = NoChildren | ChildList(items: seq<Child>)

  /** One element of a `children` list. */
  datatype Child = Element(node: Node) | NonNode

  /**
   * The three node classes with the fields their constructors assign
   * (`LeafNode` passes `children=None`, `ParentNode` passes `value=None`).
   */
  datatype Node =
    | Base(tag: Option<string>, value: Option<string>, children: Children, props: Option<Props>)
    | Leaf(tag: Option<string>, value: Option<string>, props: Option<Props>)
    | Parent(tag: Option<string>, children: Children, props: Option<Props>)

  /** The exceptions raised while rendering. */
  datatype Error =
    | NotImplemented   // `HTMLNode.to_html`: NotImplementedError
    | MissingValue     // "Leaf nodes must have a value"
    | MissingTag       // "Tag is required"
    | MissingChildren  // "Parent nodes must have children"
    | InvalidChild     // "Child is not a valid HTMLNode"

  /** How an f-string formats an attribute value: `None` becomes the text `None`. */
  function PyStr(v: PropValue): string
  {
    match v
    case None => "None"
    case Some(s) => s
  }

  /** One rendered attribute, `key="value"`, with no escaping. */
  function Entry(key: string, value: PropValue): string
  {
    key + "=\"" + PyStr(value) + "\""
  }

  /** The rendered attributes, one per dictionary entry, in insertion order. */
  function Entries(p: Props): (r: seq<string>)
    ensures |r| == |p|
    ensures forall i :: 0 <= i < |p| ==> r[i] == Entry(p[i].0, p[i].1)
  {
    if p == [] then [] else [Entry(p[0].0, p[0].1)] + Entries(p[1..])
  }

  /** Python's `" ".join(items)`. */
  function JoinSpace(items: seq<string>): string
  {
    if |items| == 0 then ""
    else if |items| == 1 then items[0]
    else items[0] + " " + JoinSpace(items[1..])
  }

  /** What `props_to_html` returns for the attribute field `props`. */
  function PropsHtml(props: Option<Props>): (r: string)
    ensures r == "" <==> props == None || props == Some([])
    ensures r != "" ==> r[0] == ' '
  {
    if props == None || props == Some([]) then ""
    else " " + JoinSpace(Entries(props.value))
  }

  /** Reference reading of the attribute string: every entry preceded by one space. */
  function SpacedEntries(p: Props): string
  {
    if p == [] then "" else " " + Entry(p[0].0, p[0].1) + SpacedEntries(p[1..])
  }

  /** The attribute string of a non-empty dictionary is each entry preceded by a single space, in order. */
  lemma {:induction false} PropsHtmlIsSpacedEntries(p: Props)
    ensures PropsHtml(Some(p)) == SpacedEntries(p)
  {
    if p != [] {
      JoinSpaceIsSpaced(p);
    }
  }

  lemma {:induction false} JoinSpaceIsSpaced(p: Props)
    requires p != []
    ensures " " + JoinSpace(Entries(p)) == SpacedEntries(p)
  {
    if |p| > 1 {
      JoinSpaceIsSpaced(p[1..]);
      assert Entries(p)[1..] == Entries(p[1..]);
    }
  }

  lemma {:induction false} SpacedEntriesAppend(p: Props, key: string, value: PropValue)
    ensures SpacedEntries(p + [(key, value)]) == SpacedEntries(p) + " " + Entry(key, value)
  {
    if p == [] {
      assert [(key, value)][1..] == [];
    } else {
      assert (p + [(key, value)])[1..] == p[1..] + [(key, value)];
      SpacedEntriesAppend(p[1..], key, value);
    }
  }

  /** Adding an entry to the dictionary appends exactly ` key="value"` to the attribute string. */
  lemma PropsHtmlAppend(p: Props, key: string, value: PropValue)
    ensures PropsHtml(Some(p + [(key, value)])) == PropsHtml(Some(p)) + " " + Entry(key, value)
  {
    PropsHtmlIsSpacedEntries(p);
    PropsHtmlIsSpacedEntries(p + [(key, value)]);
    SpacedEntriesAppend(p, key, value);
  }

  /** A two-entry dictionary renders as both entries, in order, each after one space. */
  lemma TwoEntries(k1: string, v1: PropValue, k2: string, v2: PropValue)
    ensures PropsHtml(Some([(k1, v1), (k2, v2)])) == " " + Entry(k1, v1) + " " + Entry(k2, v2)
  {
    assert [(k1, v1)] + [(k2, v2)] == [(k1, v1), (k2, v2)];
    PropsHtmlAppend([(k1, v1)], k2, v2);
    assert Entries([(k1, v1)]) == [Entry(k1, v1)];
  }

  /** `HTMLNode.props_to_html`: collect `key="value"` per entry, join with spaces, prefix one space. */
  method PropsToHtml(props: Option<Props>) returns (r: string)
    ensures r == PropsHtml(props)
  {
    if props == None || props == Some([]) {
      return "";
    }
    var p := props.value;
    var propList: seq<string> := [];
    for i := 0 to |p|
      invariant propList == Entries(p[..i])
    {
      var (key, value) := p[i];
      assert p[..i + 1] == p[..i] + [p[i]];
      EntriesAppend(p[..i], p[i]);
      propList := propList + [Entry(key, value)];
    }
    assert p[..|p|] == p;
    var result := JoinSpace(propList);
    return " " + result;
  }

  lemma {:induction false} EntriesAppend(p: Props, kv: (string, PropValue))
    ensures Entries(p + [kv]) == Entries(p) + [Entry(kv.0, kv.1)]
  {
    if p != [] {
      assert (p + [kv])[1..] == p[1..] + [kv];
      EntriesAppend(p[1..], kv);
    } else {
      assert [kv][1..] == [];
    }
  }

  /** The concatenation of a list of strings, in order. */
  function Concat(ss: seq<string>): string
  {
    if ss == [] then "" else ss[0] + Concat(ss[1..])
  }

  /** Which node renders and which raises: `ToHtml(n)` succeeds exactly on these trees. */
  predicate WellFormed(n: Node)
  {
    match n
    case Base(_, _, _, _) => false
    case Leaf(_, value, _) => value != None
    case Parent(tag, children, _) =>
      tag != None && children.ChildList? && children.items != [] &&
      forall i :: 0 <= i < |children.items| ==>
        children.items[i].Element? && WellFormed(children.items[i].node)
  }

  /** `to_html` of every node class (`HTMLNode`, `LeafNode`, `ParentNode`). */
  function ToHtml(n: Node): Result<string, Error>
  {
    match n
    case Base(_, _, _, _) => Err(NotImplemented)
    case Leaf(tag, value, props) =>
      if value == None then Err(MissingValue)
      else if tag == None then Ok(value.value)
      else Ok("<" + tag.value + PropsHtml(props) + ">" + value.value + "</" + tag.value + ">")
    case Parent(tag, children, _) =>
      if tag == None then Err(MissingTag)
      else if children == NoChildren || children.items == [] then Err(MissingChildren)
      else match Collect(ChildResults(children.items))
        case Err(e) => Err(e)
        case Ok(inner) => Ok("<" + tag.value + ">" + inner + "</" + tag.value + ">")
  }

  /** What one iteration of the loop over children produces for `child`. */
  function ChildHtml(child: Child): Result<string, Error>
  {
    match child
    case NonNode => Err(InvalidChild)
    case Element(node) => ToHtml(node)
  }

  /** The per-child outcomes, in order. */
  function ChildResults(cs: seq<Child>): (r: seq<Result<string, Error>>)
    ensures |r| == |cs|
    ensures forall i :: 0 <= i < |cs| ==> r[i] == ChildHtml(cs[i])
  {
    seq(|cs|, i requires 0 <= i < |cs| => ChildHtml(cs[i]))
  }

  /** Accumulate the children's strings left to right; the first exception aborts. */
  function Collect(rs: seq<Result<string, Error>>): Result<string, Error>
  {
    if rs == [] then Ok("")
    else match rs[0]
      case Err(e) => Err(e)
      case Ok(s) =>
        match Collect(rs[1..])
        case Err(e) => Err(e)
        case Ok(rest) => Ok(s + rest)
  }

  /** When every child succeeds, the accumulated string is their concatenation in order. */
  lemma {:induction false} CollectAllOk(rs: seq<Result<string, Error>>, ss: seq<string>)
    requires |rs| == |ss|
    requires forall i :: 0 <= i < |rs| ==> rs[i] == Ok(ss[i])
    ensures Collect(rs) == Ok(Concat(ss))
  {
    if rs != [] {
      CollectAllOk(rs[1..], ss[1..]);
    }
  }

  /** The first failing child decides the exception; later children are irrelevant. */
  lemma {:induction false} CollectFirstError(rs: seq<Result<string, Error>>, k: nat)
    requires k < |rs| && rs[k].Err?
    requires forall i :: 0 <= i < k ==> rs[i].Ok?
    ensures Collect(rs) == rs[k]
  {
    if k > 0 {
      CollectFirstError(rs[1..], k - 1);
    }
  }

  /** Collect succeeds exactly when every outcome is a success. */
  lemma {:induction false} CollectOkIff(rs: seq<Result<string, Error>>)
    ensures Collect(rs).Ok? <==> forall i :: 0 <= i < |rs| ==> rs[i].Ok?
  {
    if rs != [] {
      CollectOkIff(rs[1..]);
      assert forall i :: 1 <= i < |rs| ==> rs[i] == rs[1..][i - 1];
    }
  }

  /** One loop step: extend the accumulated outcome by the next child's outcome. */
  lemma {:induction false} CollectSnoc(rs: seq<Result<string, Error>>, x: Result<string, Error>)
    ensures Collect(rs + [x]) ==
      (if Collect(rs).Err? then Collect(rs)
       else if x.Err? then x
       else Ok(Collect(rs).value + x.value))
  {
    if rs == [] {
      assert rs + [x] == [x] && [x][1..] == [];
      if x.Ok? {
        assert x.value + "" == "" + x.value;
      }
    } else {
      assert (rs + [x])[0] == rs[0];
      assert (rs + [x])[1..] == rs[1..] + [x];
      if rs[0].Ok? {
        CollectSnoc(rs[1..], x);
        if Collect(rs[1..]).Ok? && x.Ok? {
          var s, rest := rs[0].value, Collect(rs[1..]).value;
          assert Collect(rs + [x]) == Ok(s + (rest + x.value));
          assert s + (rest + x.value) == (s + rest) + x.value;
        }
      }
    }
  }

  /** Rendering succeeds exactly on well-formed trees; otherwise it raises. */
  lemma {:induction false} RenderOkIff(n: Node)
    ensures ToHtml(n).Ok? <==> WellFormed(n)
  {
    match n
    case Base(_, _, _, _) =>
    case Leaf(_, _, _) =>
    case Parent(tag, children, _) =>
      if tag != None && children.ChildList? && children.items != [] {
        var cs := children.items;
        var rs := ChildResults(cs);
        forall i | 0 <= i < |cs|
          ensures rs[i].Ok? <==> cs[i].Element? && WellFormed(cs[i].node)
        {
          if cs[i].Element? {
            RenderOkIff(cs[i].node);
          }
        }
        CollectOkIff(rs);
      }
  }

  /**
   * A leaf raises without a value; without a tag it is its bare value
   * (attributes ignored); otherwise its value wrapped in the tag, the opening
   * tag carrying each attribute after a single space.
   */
  lemma LeafRendering(tag: Option<string>, value: Option<string>, props: Option<Props>)
    ensures value == None ==> ToHtml(Leaf(tag, value, props)) == Err(MissingValue)
    ensures value != None && tag == None ==> ToHtml(Leaf(tag, value, props)) == Ok(value.value)
    ensures value != None && tag != None ==>
      ToHtml(Leaf(tag, value, props)) ==
        Ok("<" + tag.value + (if props == None then "" else SpacedEntries(props.value)) + ">" +
           value.value + "</" + tag.value + ">")
  {
    if props != None {
      PropsHtmlIsSpacedEntries(props.value);
    }
  }

  /**
   * A parent checks its tag before its children; with both present, it is its
   * children's renderings concatenated in order inside the bare tag: its own
   * attributes never appear.
   */
  lemma ParentRendering(tag: Option<string>, children: Children, props: Option<Props>, ss: seq<string>)
    ensures tag == None ==> ToHtml(Parent(tag, children, props)) == Err(MissingTag)
    ensures tag != None && (children == NoChildren || children == ChildList([])) ==>
      ToHtml(Parent(tag, children, props)) == Err(MissingChildren)
    ensures (&& tag != None && children.ChildList? && children.items != []
             && |ss| == |children.items|
             && forall i :: 0 <= i < |ss| ==> ChildHtml(children.items[i]) == Ok(ss[i])) ==>
      ToHtml(Parent(tag, children, props)) == Ok("<" + tag.value + ">" + Concat(ss) + "</" + tag.value + ">")
  {
    if children.ChildList? && |ss| == |children.items| &&
       forall i :: 0 <= i < |ss| ==> ChildHtml(children.items[i]) == Ok(ss[i])
    {
      CollectAllOk(ChildResults(children.items), ss);
    }
  }

  /** A child that is not a node, or whose own rendering raises, makes the whole parent raise its exception. */
  lemma ParentFailsAtFirstBadChild(tag: string, cs: seq<Child>, props: Option<Props>, k: nat)
    requires k < |cs| && ChildHtml(cs[k]).Err?
    requires forall i :: 0 <= i < k ==> ChildHtml(cs[i]).Ok?
    ensures ToHtml(Parent(Some(tag), ChildList(cs), props)) == ChildHtml(cs[k])
    ensures cs[k] == NonNode ==> ToHtml(Parent(Some(tag), ChildList(cs), props)) == Err(InvalidChild)
  {
    CollectFirstError(ChildResults(cs), k);
  }

  /** A failed accumulation is the exception of some child all of whose predecessors succeeded. */
  lemma {:induction false} CollectErrorCause(rs: seq<Result<string, Error>>)
    requires Collect(rs).Err?
    ensures exists k :: 0 <= k < |rs| && rs[k] == Collect(rs) && forall i :: 0 <= i < k ==> rs[i].Ok?
  {
    if rs[0].Ok? {
      CollectErrorCause(rs[1..]);
      var k :| 0 <= k < |rs[1..]| && rs[1..][k] == Collect(rs[1..]) && forall i :: 0 <= i < k ==> rs[1..][i].Ok?;
      assert rs[k + 1] == Collect(rs) && forall i :: 0 <= i < k + 1 ==> rs[i].Ok?;
    } else {
      assert rs[0] == Collect(rs);
    }
  }

  /**
   * Conversely, a parent with a tag and children that raises does so because
   * of its first child that is not a node or whose rendering raises.
   */
  lemma ParentFailureHasCause(tag: string, cs: seq<Child>, props: Option<Props>)
    requires cs != [] && ToHtml(Parent(Some(tag), ChildList(cs), props)).Err?
    ensures exists k ::
      && 0 <= k < |cs|
      && ChildHtml(cs[k]) == ToHtml(Parent(Some(tag), ChildList(cs), props))
      && ChildHtml(cs[k]).Err?
      && forall i :: 0 <= i < k ==> ChildHtml(cs[i]).Ok?
  {
    CollectErrorCause(ChildResults(cs));
  }

  /** `to_html` for every node class; the loop over a parent's children accumulates the result string. */
  method Render(n: Node) returns (r: Result<string, Error>)
    ensures r == ToHtml(n)
    decreases n
  {
    match n {
      case Base(_, _, _, _) =>
        return Err(NotImplemented);
      case Leaf(tag, value, props) =>
        if value == None {
          return Err(MissingValue);
        }
        if tag == None {
          return Ok(value.value);
        }
        var attributes := PropsToHtml(props);
        return Ok("<" + tag.value + attributes + ">" + value.value + "</" + tag.value + ">");
      case Parent(tag, children, _) =>
        if tag == None {
          return Err(MissingTag);
        }
        if children == NoChildren || children.items == [] {
          return Err(MissingChildren);
        }
        var cs := children.items;
        ghost var rs := ChildResults(cs);
        var results := "";
        for i := 0 to |cs|
          invariant Collect(rs[..i]) == Ok(results)
          invariant forall j :: 0 <= j < i ==> rs[j].Ok?
        {
          assert rs[..i + 1] == rs[..i] + [rs[i]];
          CollectSnoc(rs[..i], rs[i]);
          if cs[i] == NonNode {
            CollectFirstError(rs, i);
            return Err(InvalidChild);
          }
          assert cs[i] in cs;
          var rendered := Render(cs[i].node);
          if rendered.Err? {
            CollectFirstError(rs, i);
            return rendered;
          }
          results := results + rendered.value;
        }
        assert rs[..|cs|] == rs;
        return Ok("<" + tag.value + ">" + results + "</" + tag.value + ">");
    }
  }
}
