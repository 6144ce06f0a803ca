/** The part of the .NET XML object model the configuration loader uses.
    A parsed element is a value: its name, its attributes in order, its child
    nodes in order, and its `Value` (which .NET defines as null for every
    element node). Only element children matter to the loader; every other
    kind of node (text, comment, ...) is an `OtherNode`. The element that the
    loader builds is a mutable `XmlElement` whose attributes and children are
    appended to in place. */
module Xml {
  import opened Wrappers

  datatype Attribute = Attribute(name: string, value: string)

  datatype Node = ElementNode(element: Element) | OtherNode

  datatype Element = Element(
    name: string,
    attributes: seq<Attribute>,
    childNodes: seq<Node>,
    value: Option<string>)

  /** No two attributes share a name, as in any element .NET builds. */
  predicate DistinctNames(attributes: seq<Attribute>) {
    forall i, j :: 0 <= i < j < |attributes| ==> attributes[i].name != attributes[j].name
  }

  predicate HasNamed(attributes: seq<Attribute>, name: string) {
    exists i :: 0 <= i < |attributes| && attributes[i].name == name
  }

  /** `attributes` without the one named `name`. */
  function WithoutNamed(attributes: seq<Attribute>, name: string): (r: seq<Attribute>)
    ensures |r| <= |attributes|
    ensures forall i :: 0 <= i < |r| ==> r[i].name != name && r[i] in attributes
    ensures !HasNamed(attributes, name) ==> r == attributes
  {
    if attributes == [] then []
    else
      var rest := WithoutNamed(attributes[..|attributes| - 1], name);
      var last := attributes[|attributes| - 1];
      assert forall i | 0 <= i < |attributes| - 1 :: attributes[..|attributes| - 1][i] == attributes[i];
      if last.name == name then rest else rest + [last]
  }

  /** `XmlAttributeCollection.Append`: an attribute of the same qualified
      name is removed, and the new one goes at the end. */
  function AppendedAttribute(attributes: seq<Attribute>, attribute: Attribute): (r: seq<Attribute>)
    ensures |r| > 0 && r[|r| - 1] == attribute
    ensures forall i :: 0 <= i < |r| - 1 ==> r[i].name != attribute.name && r[i] in attributes
    ensures !HasNamed(attributes, attribute.name) ==> r == attributes + [attribute]
  {
    WithoutNamed(attributes, attribute.name) + [attribute]
  }

  /** Appending the attributes of `source` one by one, in order. */
  function AppendedAttributes(target: seq<Attribute>, source: seq<Attribute>): (r: seq<Attribute>)
  {
    if source == [] then target
    else AppendedAttribute(AppendedAttributes(target, source[..|source| - 1]), source[|source| - 1])
  }

  /** Every attribute after appending comes from the target or from the
      appended ones, and the last one appended is last. */
  lemma {:induction false} AppendedAttributesFrom(target: seq<Attribute>, source: seq<Attribute>)
    ensures var r := AppendedAttributes(target, source);
      forall i :: 0 <= i < |r| ==> r[i] in target || r[i] in source
    ensures source != [] ==> var r := AppendedAttributes(target, source);
      |r| > 0 && r[|r| - 1] == source[|source| - 1]
  {
    if source != [] {
      var prefix := source[..|source| - 1];
      AppendedAttributesFrom(target, prefix);
      var before := AppendedAttributes(target, prefix);
      var r := AppendedAttributes(target, source);
      forall i | 0 <= i < |r| ensures r[i] in target || r[i] in source {
        if i < |r| - 1 {
          assert r[i] in before;
          var j :| 0 <= j < |before| && before[j] == r[i];
          assert before[j] in target || before[j] in prefix;
        }
      }
    }
  }

  /** Appending attributes with distinct names, none already present, keeps
      them all, in order, after the existing ones. */
  lemma {:induction false} AppendedDistinct(target: seq<Attribute>, source: seq<Attribute>)
    requires DistinctNames(target + source)
    ensures AppendedAttributes(target, source) == target + source
  {
    if source != [] {
      var prefix := source[..|source| - 1];
      var last := source[|source| - 1];
      assert target + source == (target + prefix) + [last];
      assert DistinctNames(target + prefix) by {
        forall i, j | 0 <= i < j < |target + prefix|
          ensures (target + prefix)[i].name != (target + prefix)[j].name
        {
          assert (target + prefix)[i] == (target + source)[i];
          assert (target + prefix)[j] == (target + source)[j];
        }
      }
      AppendedDistinct(target, prefix);
      assert !HasNamed(target + prefix, last.name) by {
        forall i | 0 <= i < |target + prefix| ensures (target + prefix)[i].name != last.name {
          assert (target + prefix)[i] == (target + source)[i];
          assert last == (target + source)[|target + source| - 1];
        }
      }
    }
  }

  /** Copying the attributes of a well-formed element onto a fresh one gives
      exactly its attributes. */
  lemma CopyOntoFresh(source: seq<Attribute>)
    requires DistinctNames(source)
    ensures AppendedAttributes([], source) == source
  {
    assert [] + source == source;
    AppendedDistinct([], source);
  }

  /** An element .NET creates and the loader fills: the name is fixed at
      creation; attributes and child nodes are appended. */
  class XmlElement {
    const Name: string
    var Attributes: seq<Attribute>
    var ChildNodes: seq<Node>

    /** `XmlDocument.CreateElement(name)`. */
    constructor (name: string)
      ensures Name == name && Attributes == [] && ChildNodes == []
    {
      Name := name;
      Attributes := [];
      ChildNodes := [];
    }

    /** `Attributes.Append(attribute)`. */
    method AppendAttribute(attribute: Attribute)
      modifies this
      ensures Attributes == AppendedAttribute(old(Attributes), attribute)
      ensures ChildNodes == old(ChildNodes)
    {
      Attributes := WithoutNamed(Attributes, attribute.name) + [attribute];
    }

    /** `AppendChild(node)`. */
    method AppendChild(node: Node)
      modifies this
      ensures ChildNodes == old(ChildNodes) + [node]
      ensures Attributes == old(Attributes)
    {
      ChildNodes := ChildNodes + [node];
    }

    /** The element as a value; a created element's `Value` is null. */
    function Snapshot(): (e: Element)
      reads this
      ensures e.name == Name && e.attributes == Attributes && e.childNodes == ChildNodes && e.value == None
    {
      Element(Name, Attributes, ChildNodes, None)
    }
  }
}
