/**
 * An abstract XML element tree, standing for the LINQ to XML objects
 * (XName, XAttribute, XElement) that the package layer builds and reads.
 * Text serialisation and parsing are not modelled.
 */
module Xml {
  import opened Wrappers

  /** An expanded name: namespace URI plus local name ("" for no namespace). */
  datatype XName = XName(ns: string, local: string)

  datatype XAttribute = XAttribute(name: XName, value: string)

  /** An element: its name, its attributes in order and its child elements in document order. */
  datatype XElement = XElement(name: XName, attributes: seq<XAttribute>, children: seq<XElement>)

  /** A name in no namespace, as a plain string converts to an XName. */
  function Unqualified(local: string): (name: XName)
  {
    XName("", local)
  }

  /**
   * The value of the attribute called `name`, or None: XElement.Attribute(name)?.Value.
   * When two attributes share a name the first is taken.
   */
  function Attribute(attributes: seq<XAttribute>, name: XName): (r: Option<string>)
    ensures r.None? <==> forall i | 0 <= i < |attributes| :: attributes[i].name != name
    ensures r.Some? ==>
      exists i | 0 <= i < |attributes| ::
        && attributes[i] == XAttribute(name, r.value)
        && forall j | 0 <= j < i :: attributes[j].name != name
  {
    if |attributes| == 0 then None
    else if attributes[0].name == name then Some(attributes[0].value)
    else
      var rest := Attribute(attributes[1..], name);
      assert forall i | 1 <= i < |attributes| :: attributes[i] == attributes[1..][i - 1];
      rest
  }

  /** Looking up an attribute that was written in a given position finds it when no earlier one has its name. */
  lemma {:induction false} AttributeAt(attributes: seq<XAttribute>, k: nat)
    requires k < |attributes|
    requires forall j | 0 <= j < k :: attributes[j].name != attributes[k].name
    ensures Attribute(attributes, attributes[k].name) == Some(attributes[k].value)
  {
    if k > 0 {
      AttributeAt(attributes[1..], k - 1);
    }
  }
}
