/**
 * XML as the tree Nokogiri::XML::Builder assembles: elements with ordered
 * attributes and children, text nodes and comments. Serialisation to text
 * and escaping are not part of this model.
 */
module Xml {
  import opened Wrappers

  datatype Node =
    | Element(name: string, attrs: seq<(string, string)>, children: seq<Node>)
    | Text(text: string)
    | Comment(text: string)

  /** The top-level nodes of a built document, in order. */
  datatype Document = Document(nodes: seq<Node>)

  /** `xml.Name value` inside a builder block: an element holding one text node. */
  function Leaf(name: string, text: string): (n: Node)
    ensures n.Element? && n.name == name && n.attrs == [] && n.children == [Text(text)]
  {
    Element(name, [], [Text(text)])
  }

  /** The value of the first attribute named `key`. */
  function Attr(n: Node, key: string): (r: Option<string>)
    requires n.Element?
    ensures r.Some? <==> exists i :: 0 <= i < |n.attrs| && n.attrs[i].0 == key
  {
    AttrIn(n.attrs, key)
  }

  function AttrIn(attrs: seq<(string, string)>, key: string): (r: Option<string>)
    ensures r.Some? <==> exists i :: 0 <= i < |attrs| && attrs[i].0 == key
  {
    if attrs == [] then None
    else if attrs[0].0 == key then Some(attrs[0].1)
    else
      var r := AttrIn(attrs[1..], key);
      assert forall i :: 1 <= i < |attrs| ==> attrs[i] == attrs[1..][i - 1];
      r
  }

  /** The element names of a child list, in order ("#text" and "#comment" for the others). */
  function Names(children: seq<Node>): (r: seq<string>)
    ensures |r| == |children|
    ensures forall i :: 0 <= i < |r| ==> children[i].Element? ==> r[i] == children[i].name
  {
    seq(|children|, i requires 0 <= i < |children| =>
      match children[i]
      case Element(name, _, _) => name
      case Text(_) => "#text"
      case Comment(_) => "#comment")
  }

  /** The attribute at position i is the one found when no earlier attribute has its key. */
  lemma {:induction false} AttrAt(attrs: seq<(string, string)>, i: nat, key: string)
    requires i < |attrs| && attrs[i].0 == key
    requires forall k :: 0 <= k < i ==> attrs[k].0 != key
    ensures AttrIn(attrs, key) == Some(attrs[i].1)
  {
    if i > 0 {
      AttrAt(attrs[1..], i - 1, key);
    }
  }
}
