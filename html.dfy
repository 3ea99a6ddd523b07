/**
 * An already-parsed HTML fragment. Tokenising cooked HTML is done by the host's HTML
 * libraries (Nokogiri on the server, DOMParser in the browser) and is not part of this model;
 * tag names arrive lower-cased, as both libraries produce them for HTML elements.
 */
module Html {
  import opened Wrappers

  datatype Node =
    | Element(tag: string, attrs: map<string, string>, children: seq<Node>)
    | Text(content: string)

  /** Nokogiri's `node.text` / the DOM's `textContent`: every descendant text node, concatenated in document order. */
  function TextContent(n: Node): string {
    match n
    case Text(t) => t
    case Element(_, _, cs) => TextOfNodes(cs)
  }

  /** The text of a list of sibling nodes, concatenated (`nodes.map(&:text).join`). */
  function TextOfNodes(ns: seq<Node>): string {
    if ns == [] then [] else TextOfNodes(ns[..|ns| - 1]) + TextContent(ns[|ns| - 1])
  }

  /** The node is an element whose name is `tag`. */
  predicate IsElementNamed(n: Node, tag: string) {
    n.Element? && n.tag == tag
  }

  /** The children of a node; a text node has none. */
  function ChildrenOf(n: Node): seq<Node> {
    if n.Element? then n.children else []
  }

  /** Attribute lookup (`node[:href]`), nil when the attribute is absent. */
  function Attr(n: Node, key: string): Option<string> {
    if n.Element? && key in n.attrs then Some(n.attrs[key]) else None
  }

  /** ASCII upper-casing, as the DOM's `tagName` reports HTML element names. */
  function AsciiUpper(s: string): (r: string)
    ensures |r| == |s|
  {
    if s == [] then []
    else [if 'a' <= s[0] <= 'z' then (s[0] as int - 32) as char else s[0]] + AsciiUpper(s[1..])
  }

  /** The first element named `tag` among the descendants of `ns`, in document (pre-)order: `querySelector(tag)`. */
  function FirstDescendant(ns: seq<Node>, tag: string): (r: Option<Node>)
    ensures r.Some? ==> IsElementNamed(r.value, tag)
  {
    if ns == [] then None
    else if IsElementNamed(ns[0], tag) then Some(ns[0])
    else
      match FirstDescendantBelow(ns[0], tag)
      case Some(d) => Some(d)
      case None => FirstDescendant(ns[1..], tag)
  }

  /** The first element named `tag` strictly below `n`, in document order. */
  function FirstDescendantBelow(n: Node, tag: string): (r: Option<Node>)
    ensures r.Some? ==> IsElementNamed(r.value, tag)
  {
    match n
    case Text(_) => None
    case Element(_, _, cs) => FirstDescendant(cs, tag)
  }

  /** The text of a single node. */
  lemma TextOfSingle(n: Node)
    ensures TextOfNodes([n]) == TextContent(n)
  {
    assert [n][..0] == [];
  }

  /** Text content distributes over concatenation of sibling lists. */
  lemma {:induction false} TextOfNodesAppend(a: seq<Node>, b: seq<Node>)
    ensures TextOfNodes(a + b) == TextOfNodes(a) + TextOfNodes(b)
    decreases |b|
  {
    if b == [] {
      assert a + b == a;
    } else {
      assert (a + b)[..|a + b| - 1] == a + b[..|b| - 1];
      TextOfNodesAppend(a, b[..|b| - 1]);
    }
  }
}
