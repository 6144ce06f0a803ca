/** Properties of the configuration loader's output: it holds no include
    element, more fuel never changes a finished expansion, and a source whose
    markers cannot be resolved (in particular any tree .NET parses, where an
    element's `Value` is null) comes out as its own element skeleton with the
    markers dropped. */
module ConfigurationXmlLoaderProperties {
  import opened Wrappers
  import opened StringExtensions
  import opened Xml
  import opened ConfigurationXmlLoaders

  // ----- The root --------------------------------------------------------

  /** ConfigurationXmlLoaderBase.cs:61-66, 79-93: a finished load is null
      exactly when `LoadXml(location)` is null. */
  lemma LoadNullIff(l: ConfigurationXmlLoaderBase, location: string, fuel: nat)
    requires l.LoadOutput(location, fuel).Done?
    ensures l.LoadOutput(location, fuel).value.None? <==> l.LoadXml(location).None?
  {
  }

  /** ConfigurationXmlLoaderBase.cs:81-89, 172-178: a raw root named
      `IncludeElementName` becomes an element named `DefaultRootElementName`;
      any other root keeps its name. Either way the result carries the root's
      attributes and its expanded children under the root's location. */
  lemma RootNaming(l: ConfigurationXmlLoaderBase, raw: Element, location: string, fuel: nat)
    requires DistinctNames(raw.attributes)
    requires l.ProcessRaw(Some(raw), location, fuel).Done?
    ensures l.ProcessRaw(Some(raw), location, fuel).value.Some?
    ensures var r := l.ProcessRaw(Some(raw), location, fuel).value.value;
      && r.name == (if raw.name == l.IncludeElementName then l.DefaultRootElementName else raw.name)
      && r.attributes == raw.attributes
      && l.ChildrenOutput(raw, location, fuel, |raw.childNodes|) == Done(r.childNodes)
      && r.value == None
  {
    CopyOntoFresh(raw.attributes);
  }

  /** ConfigurationXmlLoaderBase.cs:125-157: how the expansion of the first
      `k` children extends that of the first `k - 1`. A node that is not an
      element adds nothing; an ordinary element adds its duplicate; a marker
      with a null or empty payload, or whose target is missing, adds nothing
      and the expansion goes on with the next sibling; a target that is an
      include element adds its own expanded children, and any other target
      adds its duplicate, both expanded under the new location. */
  lemma ChildContribution(l: ConfigurationXmlLoaderBase, source: Element, location: string, fuel: nat, k: nat)
    requires 0 < k <= |source.childNodes|
    requires l.ChildrenOutput(source, location, fuel, k - 1).Done?
    ensures var before := l.ChildrenOutput(source, location, fuel, k - 1).value;
      var n := source.childNodes[k - 1];
      var after := l.ChildrenOutput(source, location, fuel, k);
      && (n.OtherNode? ==> after == Done(before))
      && (n.ElementNode? && n.element.name != l.IncludeElementName ==>
            after == (match l.Duplicate(n.element, location, fuel)
                      case OutOfFuel => OutOfFuel
                      case Done(d) => Done(before + [ElementNode(d)])))
      && (n.ElementNode? && n.element.name == l.IncludeElementName && IsNullOrEmpty(n.element.value) ==>
            after == Done(before))
      && (n.ElementNode? && n.element.name == l.IncludeElementName && !IsNullOrEmpty(n.element.value) ==>
            var newLocation := l.GetNewLocation(location, n.element.value.value);
            && (l.LoadXml(newLocation).None? ==> after == Done(before))
            && (l.LoadXml(newLocation).Some? && fuel == 0 ==> after.OutOfFuel?)
            && (l.LoadXml(newLocation).Some? && fuel > 0 && l.LoadXml(newLocation).value.name == l.IncludeElementName ==>
                  var spliced := l.ChildrenOutput(l.LoadXml(newLocation).value, newLocation, fuel - 1, |l.LoadXml(newLocation).value.childNodes|);
                  after == (if spliced.Done? then Done(before + spliced.value) else OutOfFuel))
            && (l.LoadXml(newLocation).Some? && fuel > 0 && l.LoadXml(newLocation).value.name != l.IncludeElementName ==>
                  after == (match l.Duplicate(l.LoadXml(newLocation).value, newLocation, fuel - 1)
                            case OutOfFuel => OutOfFuel
                            case Done(d) => Done(before + [ElementNode(d)]))))
  {
    var before := l.ChildrenOutput(source, location, fuel, k - 1).value;
    assert before + [] == before;
  }

  // ----- No include element survives --------------------------------------

  lemma {:induction false} DuplicateIsIncludeFree(l: ConfigurationXmlLoaderBase, e: Element, location: string, fuel: nat)
    requires l.Duplicate(e, location, fuel).Done?
    ensures BelowFreeOf(l.Duplicate(e, location, fuel).value, l.IncludeElementName)
    ensures l.Duplicate(e, location, fuel).value.name == e.name
    decreases fuel, e, 1, 0
  {
    ChildrenAreIncludeFree(l, e, location, fuel, |e.childNodes|);
  }

  lemma {:induction false} ChildrenAreIncludeFree(l: ConfigurationXmlLoaderBase, source: Element, location: string, fuel: nat, k: nat)
    requires k <= |source.childNodes|
    requires l.ChildrenOutput(source, location, fuel, k).Done?
    ensures forall i :: 0 <= i < |l.ChildrenOutput(source, location, fuel, k).value| ==>
      NodeFreeOf(l.ChildrenOutput(source, location, fuel, k).value[i], l.IncludeElementName)
    decreases fuel, source, 0, k
  {
    if k > 0 {
      ChildrenAreIncludeFree(l, source, location, fuel, k - 1);
      NodeOutputIsIncludeFree(l, source.childNodes[k - 1], location, fuel);
    }
  }

  lemma {:induction false} NodeOutputIsIncludeFree(l: ConfigurationXmlLoaderBase, n: Node, location: string, fuel: nat)
    requires l.NodeOutput(n, location, fuel).Done?
    ensures forall i :: 0 <= i < |l.NodeOutput(n, location, fuel).value| ==>
      NodeFreeOf(l.NodeOutput(n, location, fuel).value[i], l.IncludeElementName)
    decreases fuel, n, 0, 0
  {
    match n
    case OtherNode =>
    case ElementNode(child) =>
      if child.name != l.IncludeElementName {
        DuplicateIsIncludeFree(l, child, location, fuel);
      } else if !IsNullOrEmpty(child.value) {
        var newLocation := l.GetNewLocation(location, child.value.value);
        match l.LoadXml(newLocation)
        case None =>
        case Some(reference) =>
          if reference.name == l.IncludeElementName {
            ChildrenAreIncludeFree(l, reference, newLocation, fuel - 1, |reference.childNodes|);
          } else {
            DuplicateIsIncludeFree(l, reference, newLocation, fuel - 1);
          }
      }
  }

  /** ConfigurationXmlLoaderBase.cs:81-89, 133-157, 172-178: no element of a
      loaded configuration is named `IncludeElementName`, provided the default
      root name differs from it. */
  lemma LoadIsIncludeFree(l: ConfigurationXmlLoaderBase, location: string, fuel: nat)
    requires l.DefaultRootElementName != l.IncludeElementName
    requires l.LoadOutput(location, fuel).Done? && l.LoadOutput(location, fuel).value.Some?
    ensures NodeFreeOf(ElementNode(l.LoadOutput(location, fuel).value.value), l.IncludeElementName)
  {
    var raw := l.LoadXml(location).value;
    if raw.name == l.IncludeElementName {
      ChildrenAreIncludeFree(l, raw, location, fuel, |raw.childNodes|);
    } else {
      DuplicateIsIncludeFree(l, raw, location, fuel);
    }
  }

  // ----- Fuel ---------------------------------------------------------------

  lemma {:induction false} DuplicateFuelMonotone(l: ConfigurationXmlLoaderBase, e: Element, location: string, fuel: nat, more: nat)
    requires fuel <= more && l.Duplicate(e, location, fuel).Done?
    ensures l.Duplicate(e, location, more) == l.Duplicate(e, location, fuel)
    decreases fuel, e, 1, 0
  {
    ChildrenFuelMonotone(l, e, location, fuel, more, |e.childNodes|);
  }

  lemma {:induction false} ChildrenFuelMonotone(l: ConfigurationXmlLoaderBase, source: Element, location: string, fuel: nat, more: nat, k: nat)
    requires k <= |source.childNodes|
    requires fuel <= more && l.ChildrenOutput(source, location, fuel, k).Done?
    ensures l.ChildrenOutput(source, location, more, k) == l.ChildrenOutput(source, location, fuel, k)
    decreases fuel, source, 0, k
  {
    if k > 0 {
      ChildrenFuelMonotone(l, source, location, fuel, more, k - 1);
      NodeFuelMonotone(l, source.childNodes[k - 1], location, fuel, more);
    }
  }

  lemma {:induction false} NodeFuelMonotone(l: ConfigurationXmlLoaderBase, n: Node, location: string, fuel: nat, more: nat)
    requires fuel <= more && l.NodeOutput(n, location, fuel).Done?
    ensures l.NodeOutput(n, location, more) == l.NodeOutput(n, location, fuel)
    decreases fuel, n, 0, 0
  {
    match n
    case OtherNode =>
    case ElementNode(child) =>
      if child.name != l.IncludeElementName {
        DuplicateFuelMonotone(l, child, location, fuel, more);
      } else if !IsNullOrEmpty(child.value) {
        var newLocation := l.GetNewLocation(location, child.value.value);
        match l.LoadXml(newLocation)
        case None =>
        case Some(reference) =>
          if reference.name == l.IncludeElementName {
            ChildrenFuelMonotone(l, reference, newLocation, fuel - 1, more - 1, |reference.childNodes|);
          } else {
            DuplicateFuelMonotone(l, reference, newLocation, fuel - 1, more - 1);
          }
      }
  }

  /** A load that finishes with some fuel gives the same configuration with
      any more fuel: the bound only cuts off expansions, it never alters one. */
  lemma LoadFuelMonotone(l: ConfigurationXmlLoaderBase, location: string, fuel: nat, more: nat)
    requires fuel <= more && l.LoadOutput(location, fuel).Done?
    ensures l.LoadOutput(location, more) == l.LoadOutput(location, fuel)
  {
    match l.LoadXml(location)
    case None =>
    case Some(raw) =>
      if raw.name == l.IncludeElementName {
        ChildrenFuelMonotone(l, raw, location, fuel, more, |raw.childNodes|);
      } else {
        DuplicateFuelMonotone(l, raw, location, fuel, more);
      }
  }

  // ----- Sources whose markers cannot be resolved --------------------------

  /** A child node whose output needs no load: not an element, a marker with
      a null or empty payload, or an ordinary element whose own children are
      all of this kind. */
  predicate NodeUnresolvable(n: Node, marker: string) {
    match n
    case OtherNode => true
    case ElementNode(c) => if c.name == marker then IsNullOrEmpty(c.value) else MarkersUnresolvable(c, marker)
  }

  predicate MarkersUnresolvable(e: Element, marker: string) {
    forall i :: 0 <= i < |e.childNodes| ==> NodeUnresolvable(e.childNodes[i], marker)
  }

  /** Every element at or below node `n` has a null `Value`. */
  predicate NodeValueless(n: Node) {
    match n
    case OtherNode => true
    case ElementNode(c) => c.value.None? && forall i :: 0 <= i < |c.childNodes| ==> NodeValueless(c.childNodes[i])
  }

  /** Every element at or below node `n` has attributes with distinct names. */
  predicate NodeWellFormed(n: Node) {
    match n
    case OtherNode => true
    case ElementNode(c) => DistinctNames(c.attributes) && forall i :: 0 <= i < |c.childNodes| ==> NodeWellFormed(c.childNodes[i])
  }

  /** The reference result: the element with its name and attributes, its
      element children pruned the same way, its other nodes and every
      include-named child dropped. */
  function Pruned(e: Element, marker: string): (p: Element)
    ensures p.name == e.name && p.attributes == e.attributes && p.value == None
    decreases e, 1, 0
  {
    Element(e.name, e.attributes, PrunedChildren(e, marker, |e.childNodes|), None)
  }

  function PrunedChildren(source: Element, marker: string, k: nat): (nodes: seq<Node>)
    requires k <= |source.childNodes|
    ensures forall i :: 0 <= i < |nodes| ==> nodes[i].ElementNode? && nodes[i].element.name != marker
    decreases source, 0, k
  {
    if k == 0 then [] else PrunedChildren(source, marker, k - 1) + PrunedNode(source.childNodes[k - 1], marker)
  }

  function PrunedNode(n: Node, marker: string): (nodes: seq<Node>)
    ensures forall i :: 0 <= i < |nodes| ==> nodes[i].ElementNode? && nodes[i].element.name != marker
    decreases n, 0, 0
  {
    match n
    case OtherNode => []
    case ElementNode(c) => if c.name == marker then [] else [ElementNode(Pruned(c, marker))]
  }

  lemma {:induction false} DuplicateOfUnresolvable(l: ConfigurationXmlLoaderBase, e: Element, location: string, fuel: nat)
    requires MarkersUnresolvable(e, l.IncludeElementName) && NodeWellFormed(ElementNode(e))
    ensures l.Duplicate(e, location, fuel) == Done(Pruned(e, l.IncludeElementName))
    decreases e, 1, 0
  {
    ChildrenOfUnresolvable(l, e, location, fuel, |e.childNodes|);
    CopyOntoFresh(e.attributes);
  }

  lemma {:induction false} ChildrenOfUnresolvable(l: ConfigurationXmlLoaderBase, source: Element, location: string, fuel: nat, k: nat)
    requires k <= |source.childNodes|
    requires MarkersUnresolvable(source, l.IncludeElementName) && NodeWellFormed(ElementNode(source))
    ensures l.ChildrenOutput(source, location, fuel, k) == Done(PrunedChildren(source, l.IncludeElementName, k))
    decreases source, 0, k
  {
    if k > 0 {
      ChildrenOfUnresolvable(l, source, location, fuel, k - 1);
      NodeOfUnresolvable(l, source.childNodes[k - 1], location, fuel);
    }
  }

  lemma {:induction false} NodeOfUnresolvable(l: ConfigurationXmlLoaderBase, n: Node, location: string, fuel: nat)
    requires NodeUnresolvable(n, l.IncludeElementName) && NodeWellFormed(n)
    ensures l.NodeOutput(n, location, fuel) == Done(PrunedNode(n, l.IncludeElementName))
    decreases n, 0, 0
  {
    match n
    case OtherNode =>
    case ElementNode(c) =>
      if c.name != l.IncludeElementName {
        DuplicateOfUnresolvable(l, c, location, fuel);
      }
  }

  /** ConfigurationXmlLoaderBase.cs:130-144: when every marker's payload is
      null or empty, nothing is loaded beyond the root and the result is the
      root's pruned skeleton, for every amount of fuel; a root that is itself
      an include element takes the default root name. */
  lemma LoadOfUnresolvable(l: ConfigurationXmlLoaderBase, location: string, fuel: nat)
    requires l.LoadXml(location).Some?
    requires MarkersUnresolvable(l.LoadXml(location).value, l.IncludeElementName)
    requires NodeWellFormed(ElementNode(l.LoadXml(location).value))
    ensures var raw := l.LoadXml(location).value;
      l.LoadOutput(location, fuel) == Done(Some(
        if raw.name == l.IncludeElementName then
          Element(l.DefaultRootElementName, raw.attributes, PrunedChildren(raw, l.IncludeElementName, |raw.childNodes|), None)
        else
          Pruned(raw, l.IncludeElementName)))
  {
    var raw := l.LoadXml(location).value;
    if raw.name == l.IncludeElementName {
      ChildrenOfUnresolvable(l, raw, location, fuel, |raw.childNodes|);
      CopyOntoFresh(raw.attributes);
    } else {
      DuplicateOfUnresolvable(l, raw, location, fuel);
    }
  }

  lemma {:induction false} ValuelessIsUnresolvable(n: Node, marker: string)
    requires NodeValueless(n)
    ensures NodeUnresolvable(n, marker)
  {
    match n
    case OtherNode =>
    case ElementNode(c) =>
      if c.name != marker {
        forall i | 0 <= i < |c.childNodes| ensures NodeUnresolvable(c.childNodes[i], marker) {
          ValuelessIsUnresolvable(c.childNodes[i], marker);
        }
      }
  }

  lemma {:induction false} IncludeFreeIsUnresolvable(n: Node, marker: string)
    requires NodeFreeOf(n, marker)
    ensures NodeUnresolvable(n, marker)
  {
    match n
    case OtherNode =>
    case ElementNode(c) =>
      forall i | 0 <= i < |c.childNodes| ensures NodeUnresolvable(c.childNodes[i], marker) {
        IncludeFreeIsUnresolvable(c.childNodes[i], marker);
      }
  }

  /** ConfigurationXmlLoaderBase.cs:139: the payload is the element's .NET
      `Value`, which is null for every element .NET parses. On such a tree
      no include is ever followed: every marker is dropped and the loaded
      configuration is the raw element's pruned skeleton. */
  lemma DotNetTreesDropEveryMarker(l: ConfigurationXmlLoaderBase, location: string, fuel: nat)
    requires l.LoadXml(location).Some?
    requires NodeValueless(ElementNode(l.LoadXml(location).value)) && NodeWellFormed(ElementNode(l.LoadXml(location).value))
    requires l.LoadXml(location).value.name != l.IncludeElementName
    ensures l.LoadOutput(location, fuel) == Done(Some(Pruned(l.LoadXml(location).value, l.IncludeElementName)))
  {
    ValuelessIsUnresolvable(ElementNode(l.LoadXml(location).value), l.IncludeElementName);
    LoadOfUnresolvable(l, location, fuel);
  }

  /** Without include elements the loaded configuration is the input's
      element skeleton: the same names, the same attribute lists and the
      same element children in the same order, only non-element nodes gone. */
  lemma {:induction false} IncludeFreeSkeleton(l: ConfigurationXmlLoaderBase, e: Element, location: string, fuel: nat)
    requires NodeFreeOf(ElementNode(e), l.IncludeElementName) && NodeWellFormed(ElementNode(e))
    ensures l.Duplicate(e, location, fuel) == Done(Pruned(e, l.IncludeElementName))
  {
    IncludeFreeIsUnresolvable(ElementNode(e), l.IncludeElementName);
    DuplicateOfUnresolvable(l, e, location, fuel);
  }

  // ----- Worked examples ----------------------------------------------------

  const SampleA := Element("a", [Attribute("k", "1")], [], None)
  const SampleB := Element("b", [], [], None)
  const SampleX := Element("x", [], [], None)
  const SampleY := Element("y", [], [], None)
  /** An include marker whose payload names "child.xml". */
  const SampleMarker := Element("include", [], [], Some("child.xml"))
  const SampleRoot := Element("configuration", [], [ElementNode(SampleA), ElementNode(SampleMarker), ElementNode(SampleB)], None)

  /** A loader with the default names whose "root.xml" is `SampleRoot`. */
  predicate SampleLoader(l: ConfigurationXmlLoaderBase) {
    l.IncludeElementName == "include" && l.DefaultRootElementName == "configuration" &&
    l.LoadXml("root.xml") == Some(SampleRoot)
  }

  /** A leaf element that is not a marker is copied as itself. */
  lemma LeafCopiesItself(l: ConfigurationXmlLoaderBase, e: Element, location: string, fuel: nat)
    requires e.name != l.IncludeElementName && e.childNodes == [] && e.value == None && DistinctNames(e.attributes)
    ensures l.NodeOutput(ElementNode(e), location, fuel) == Done([ElementNode(e)])
  {
    CopyOntoFresh(e.attributes);
    assert l.ChildrenOutput(e, location, fuel, 0) == Done([]);
  }

  /** One more child node extends the expanded prefix by its contribution. */
  lemma ChildrenStep(l: ConfigurationXmlLoaderBase, source: Element, location: string, fuel: nat, k: nat, before: seq<Node>, more: seq<Node>)
    requires 0 < k <= |source.childNodes|
    requires l.ChildrenOutput(source, location, fuel, k - 1) == Done(before)
    requires l.NodeOutput(source.childNodes[k - 1], location, fuel) == Done(more)
    ensures l.ChildrenOutput(source, location, fuel, k) == Done(before + more)
  {
  }

  /** The expansion of a list of ordinary leaves is the list itself. */
  lemma LeavesCopyThemselves(l: ConfigurationXmlLoaderBase, source: Element, location: string, fuel: nat, k: nat)
    requires k <= |source.childNodes|
    requires forall i :: 0 <= i < |source.childNodes| ==> (source.childNodes[i].ElementNode? &&
      var c := source.childNodes[i].element;
      c.name != l.IncludeElementName && c.childNodes == [] && c.value == None && DistinctNames(c.attributes))
    ensures l.ChildrenOutput(source, location, fuel, k) == Done(source.childNodes[..k])
  {
    if k > 0 {
      LeavesCopyThemselves(l, source, location, fuel, k - 1);
      LeafCopiesItself(l, source.childNodes[k - 1].element, location, fuel);
      assert source.childNodes[..k] == source.childNodes[..k - 1] + [source.childNodes[k - 1]];
      ChildrenStep(l, source, location, fuel, k, source.childNodes[..k - 1], [source.childNodes[k - 1]]);
    }
  }

  /** A target whose root is an include element: its children replace the
      marker, in order, between the marker's neighbours. */
  lemma SpliceExample(l: ConfigurationXmlLoaderBase, fuel: nat)
    requires SampleLoader(l) && fuel > 0
    requires l.LoadXml(l.GetNewLocation("root.xml", "child.xml")) == Some(Element("include", [], [ElementNode(SampleX), ElementNode(SampleY)], None))
    ensures l.LoadOutput("root.xml", fuel) ==
      Done(Some(Element("configuration", [], [ElementNode(SampleA), ElementNode(SampleX), ElementNode(SampleY), ElementNode(SampleB)], None)))
  {
    var target := Element("include", [], [ElementNode(SampleX), ElementNode(SampleY)], None);
    var newLocation := l.GetNewLocation("root.xml", "child.xml");
    LeafCopiesItself(l, SampleA, "root.xml", fuel);
    LeafCopiesItself(l, SampleB, "root.xml", fuel);
    LeavesCopyThemselves(l, target, newLocation, fuel - 1, 2);
    assert target.childNodes[..2] == [ElementNode(SampleX), ElementNode(SampleY)];
    assert l.NodeOutput(ElementNode(SampleMarker), "root.xml", fuel) == Done([ElementNode(SampleX), ElementNode(SampleY)]);
    ChildrenStep(l, SampleRoot, "root.xml", fuel, 1, [], [ElementNode(SampleA)]);
    assert [] + [ElementNode(SampleA)] == [ElementNode(SampleA)];
    ChildrenStep(l, SampleRoot, "root.xml", fuel, 2, [ElementNode(SampleA)], [ElementNode(SampleX), ElementNode(SampleY)]);
    assert [ElementNode(SampleA)] + [ElementNode(SampleX), ElementNode(SampleY)] == [ElementNode(SampleA), ElementNode(SampleX), ElementNode(SampleY)];
    ChildrenStep(l, SampleRoot, "root.xml", fuel, 3, [ElementNode(SampleA), ElementNode(SampleX), ElementNode(SampleY)], [ElementNode(SampleB)]);
    assert [ElementNode(SampleA), ElementNode(SampleX), ElementNode(SampleY)] + [ElementNode(SampleB)] == [ElementNode(SampleA), ElementNode(SampleX), ElementNode(SampleY), ElementNode(SampleB)];
  }

  const SampleWrapped := Element("configuration", [], [ElementNode(SampleX), ElementNode(SampleY)], None)

  /** A marker whose target's root is not an include element stands for a
      copy of that whole root. */
  lemma WrappedMarker(l: ConfigurationXmlLoaderBase, fuel: nat)
    requires SampleLoader(l) && fuel > 0
    requires l.LoadXml(l.GetNewLocation("root.xml", "child.xml")) == Some(SampleWrapped)
    ensures l.NodeOutput(ElementNode(SampleMarker), "root.xml", fuel) == Done([ElementNode(SampleWrapped)])
  {
    var newLocation := l.GetNewLocation("root.xml", "child.xml");
    LeafCopiesItself(l, SampleX, newLocation, fuel - 1);
    LeafCopiesItself(l, SampleY, newLocation, fuel - 1);
    LeavesCopyThemselves(l, SampleWrapped, newLocation, fuel - 1, 2);
    assert SampleWrapped.childNodes[..2] == SampleWrapped.childNodes;
    assert AppendedAttributes([], []) == [];
    assert l.Duplicate(SampleWrapped, newLocation, fuel - 1) == Done(SampleWrapped);
  }

  /** A target whose root is not an include element is copied whole, as one
      child in the marker's place; a root named "configuration" is not
      unwrapped. */
  lemma WrappedExample(l: ConfigurationXmlLoaderBase, fuel: nat)
    requires SampleLoader(l) && fuel > 0
    requires l.LoadXml(l.GetNewLocation("root.xml", "child.xml")) == Some(SampleWrapped)
    ensures l.LoadOutput("root.xml", fuel) ==
      Done(Some(Element("configuration", [], [ElementNode(SampleA), ElementNode(SampleWrapped), ElementNode(SampleB)], None)))
  {
    LeafCopiesItself(l, SampleA, "root.xml", fuel);
    LeafCopiesItself(l, SampleB, "root.xml", fuel);
    WrappedMarker(l, fuel);
    ChildrenStep(l, SampleRoot, "root.xml", fuel, 1, [], [ElementNode(SampleA)]);
    assert [] + [ElementNode(SampleA)] == [ElementNode(SampleA)];
    ChildrenStep(l, SampleRoot, "root.xml", fuel, 2, [ElementNode(SampleA)], [ElementNode(SampleWrapped)]);
    assert [ElementNode(SampleA)] + [ElementNode(SampleWrapped)] == [ElementNode(SampleA), ElementNode(SampleWrapped)];
    ChildrenStep(l, SampleRoot, "root.xml", fuel, 3, [ElementNode(SampleA), ElementNode(SampleWrapped)], [ElementNode(SampleB)]);
    assert [ElementNode(SampleA), ElementNode(SampleWrapped)] + [ElementNode(SampleB)] == [ElementNode(SampleA), ElementNode(SampleWrapped), ElementNode(SampleB)];
  }

  /** A target that cannot be loaded leaves nothing in the marker's place. */
  lemma MissingTargetExample(l: ConfigurationXmlLoaderBase, fuel: nat)
    requires SampleLoader(l)
    requires l.LoadXml(l.GetNewLocation("root.xml", "child.xml")) == None
    ensures l.LoadOutput("root.xml", fuel) == Done(Some(Element("configuration", [], [ElementNode(SampleA), ElementNode(SampleB)], None)))
  {
    LeafCopiesItself(l, SampleA, "root.xml", fuel);
    LeafCopiesItself(l, SampleB, "root.xml", fuel);
    assert l.NodeOutput(ElementNode(SampleMarker), "root.xml", fuel) == Done([]);
    ChildrenStep(l, SampleRoot, "root.xml", fuel, 1, [], [ElementNode(SampleA)]);
    assert [] + [ElementNode(SampleA)] == [ElementNode(SampleA)];
    ChildrenStep(l, SampleRoot, "root.xml", fuel, 2, [ElementNode(SampleA)], []);
    assert [ElementNode(SampleA)] + [] == [ElementNode(SampleA)];
    ChildrenStep(l, SampleRoot, "root.xml", fuel, 3, [ElementNode(SampleA)], [ElementNode(SampleB)]);
    assert [ElementNode(SampleA)] + [ElementNode(SampleB)] == [ElementNode(SampleA), ElementNode(SampleB)];
  }

  /** A marker whose target's expansion runs out of fuel makes its
      parent's expansion run out too. */
  lemma ChildrenStepOutOfFuel(l: ConfigurationXmlLoaderBase, source: Element, location: string, fuel: nat, k: nat)
    requires 0 < k <= |source.childNodes|
    requires l.ChildrenOutput(source, location, fuel, k - 1).Done?
    requires l.NodeOutput(source.childNodes[k - 1], location, fuel).OutOfFuel?
    ensures l.ChildrenOutput(source, location, fuel, k).OutOfFuel?
  {
  }

  /** A file that includes itself never finishes: with any fuel the
      expansion runs out (the source recurses without end). */
  lemma {:induction false} SelfIncludeNeverFinishes(l: ConfigurationXmlLoaderBase, fuel: nat)
    requires SampleLoader(l)
    requires l.GetNewLocation("root.xml", "child.xml") == "root.xml"
    ensures l.LoadOutput("root.xml", fuel).OutOfFuel?
    ensures l.Duplicate(SampleRoot, "root.xml", fuel).OutOfFuel?
  {
    LeafCopiesItself(l, SampleA, "root.xml", fuel);
    ChildrenStep(l, SampleRoot, "root.xml", fuel, 1, [], [ElementNode(SampleA)]);
    assert [] + [ElementNode(SampleA)] == [ElementNode(SampleA)];
    if fuel > 0 {
      SelfIncludeNeverFinishes(l, fuel - 1);
    }
    assert l.NodeOutput(ElementNode(SampleMarker), "root.xml", fuel).OutOfFuel?;
    ChildrenStepOutOfFuel(l, SampleRoot, "root.xml", fuel, 2);
    l.OutOfFuelPersists(SampleRoot, "root.xml", fuel, 2, 3);
  }
}
