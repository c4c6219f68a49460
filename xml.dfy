/**
 * The feed nodes the parsers read, as the XML tree builder hands them over, and the
 * node accessors they use (`getAttribute`, `getKnownAttribute`, `getText`, `ensureArray`,
 * `firstIfArray`). Building the tree from XML text is not part of this model.
 */
module Xml {
  import opened Wrappers
  import opened JsStrings

  /** An element: its attributes by name, its text content, and its child elements by tag name. */
  datatype XmlNode = XmlNode(attributes: map<string, string>, text: string, children: map<string, Shape>)

  /** What the tree builder stores under a tag name: one element, or the ordered list of a repeated element. */
  datatype Shape = Single(node: XmlNode) | Many(nodes: seq<XmlNode>)

  /** `getAttribute(node, name)`: the attribute's value, or `None` (null) when the node has none. */
  function GetAttribute(n: XmlNode, name: string): Option<string> {
    if name in n.attributes then Some(n.attributes[name]) else None
  }

  /** JavaScript truthiness of an optional string: present and not empty. */
  predicate Truthy(s: Option<string>) {
    s.Some? && s.value != ""
  }

  /** `getKnownAttribute(node, name)`: the attribute's value; throws when it is absent. */
  function KnownAttribute(n: XmlNode, name: string): (r: Result<string, Thrown>)
    ensures r.Success? <==> name in n.attributes
    ensures r.Success? ==> r.value == n.attributes[name]
    ensures r.Failure? ==> r.error == MissingAttribute(name)
  {
    if name in n.attributes then Success(n.attributes[name]) else Failure(MissingAttribute(name))
  }

  /** `getText(node)`: the node's text content without surrounding white space. */
  function GetText(n: XmlNode): string {
    Trim(n.text)
  }

  /** `node[tag]`: what the parent holds under a child tag name, `None` when nothing. */
  function Child(n: XmlNode, tag: string): Option<Shape> {
    if tag in n.children then Some(n.children[tag]) else None
  }

  /** `ensureArray(x)`: a lone node becomes a one-element list, a list stays as it is, nothing becomes the empty list. */
  function EnsureArray(s: Option<Shape>): (r: seq<XmlNode>)
    ensures s.None? ==> r == []
    ensures s.Some? && s.value.Single? ==> r == [s.value.node]
    ensures s.Some? && s.value.Many? ==> r == s.value.nodes
  {
    match s
    case None => []
    case Some(Single(n)) => [n]
    case Some(Many(ns)) => ns
  }

  /** `firstIfArray(x)`: the first element of a list (none for an empty one), or the lone node itself. */
  function FirstIfArray(s: Option<Shape>): (r: Option<XmlNode>)
    ensures r.Some? <==> |EnsureArray(s)| > 0
    ensures r.Some? ==> r.value == EnsureArray(s)[0]
  {
    match s
    case None => None
    case Some(Single(n)) => Some(n)
    case Some(Many(ns)) => if ns == [] then None else Some(ns[0])
  }
}
