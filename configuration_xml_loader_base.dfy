/** `ConfigurationXmlLoaderBase`: load a configuration element through the
    abstract `LoadXml(location)` and rebuild it as a fresh element, expanding
    every child element named `IncludeElementName`. The marker's payload is
    resolved against the current location by the abstract `GetNewLocation`;
    a fetched element that is itself an include element has its children
    spliced in place of the marker, any other fetched element is copied as one
    child. Nested markers resolve against the location their element came
    from.

    Nothing in the source stops an include chain that returns to a location
    already being expanded. The model bounds the recursion with `fuel`: each
    followed include costs one unit, and `OutOfFuel` stands for an expansion
    deeper than the bound (for a cyclic chain the source never returns). */
module ConfigurationXmlLoaders {
  import opened Wrappers
  import opened StringExtensions
  import opened Xml

  datatype Outcome<T> = Done(value: T) | OutOfFuel

  const SystemDefaultRootElementName: string := "configuration"
  const SystemDefaultIncludeElementName: string := "include"

  /** No element at or below node `n` is named `name`. */
  predicate NodeFreeOf(n: Node, name: string) {
    match n
    case OtherNode => true
    case ElementNode(e) => e.name != name && BelowFreeOf(e, name)
  }

  /** No element strictly below `e` is named `name`. */
  predicate BelowFreeOf(e: Element, name: string) {
    forall i :: 0 <= i < |e.childNodes| ==> NodeFreeOf(e.childNodes[i], name)
  }

  /** The loader. The two overridable names and the two abstract members are
      fixed when the loader is created. */
  class ConfigurationXmlLoaderBase {
    /** `DefaultRootElementName`: the name given to a root that is itself an include element. */
    const DefaultRootElementName: string
    /** `IncludeElementName`: the name of the include marker. */
    const IncludeElementName: string
    /** The abstract `LoadXml(location)`: the raw element, or null. */
    const LoadXml: string -> Option<Element>
    /** The abstract `GetNewLocation(currentLocation, relativeLocation)`. */
    const GetNewLocation: (string, string) -> string

    /** A derived loader that overrides both names. */
    constructor (defaultRootElementName: string, includeElementName: string,
                 loadXml: string -> Option<Element>, getNewLocation: (string, string) -> string)
      ensures DefaultRootElementName == defaultRootElementName && IncludeElementName == includeElementName
      ensures LoadXml == loadXml && GetNewLocation == getNewLocation
    {
      DefaultRootElementName := defaultRootElementName;
      IncludeElementName := includeElementName;
      LoadXml := loadXml;
      GetNewLocation := getNewLocation;
    }

    /** A derived loader that keeps the default names "configuration" and "include". */
    constructor WithDefaultNames(loadXml: string -> Option<Element>, getNewLocation: (string, string) -> string)
      ensures DefaultRootElementName == "configuration" && IncludeElementName == "include"
      ensures LoadXml == loadXml && GetNewLocation == getNewLocation
    {
      DefaultRootElementName := SystemDefaultRootElementName;
      IncludeElementName := SystemDefaultIncludeElementName;
      LoadXml := loadXml;
      GetNewLocation := getNewLocation;
    }

    /** What `DuplicateXmlElement` returns: a fresh element with the source's
        name, its attributes, and its expanded children. */
    function Duplicate(e: Element, location: string, fuel: nat): (r: Outcome<Element>)
      decreases fuel, e, 1, 0
    {
      match ChildrenOutput(e, location, fuel, |e.childNodes|)
      case OutOfFuel => OutOfFuel
      case Done(children) => Done(Element(e.name, AppendedAttributes([], e.attributes), children, None))
    }

    /** What `CopyChildren` appends for the first `k` child nodes of `source`. */
    function ChildrenOutput(source: Element, location: string, fuel: nat, k: nat): (r: Outcome<seq<Node>>)
      requires k <= |source.childNodes|
      decreases fuel, source, 0, k
    {
      if k == 0 then Done([])
      else match ChildrenOutput(source, location, fuel, k - 1)
        case OutOfFuel => OutOfFuel
        case Done(before) =>
          match NodeOutput(source.childNodes[k - 1], location, fuel)
          case OutOfFuel => OutOfFuel
          case Done(more) =>
            Done(before + more)
    }

    /** What one child node contributes: nothing for a node that is not an
        element; a duplicate for an ordinary element; for an include marker,
        nothing when its payload is null or empty or its target is missing,
        the target's expanded children when the target is an include element,
        and otherwise a duplicate of the target, both under the new location. */
    function NodeOutput(n: Node, location: string, fuel: nat): (r: Outcome<seq<Node>>)
      decreases fuel, n, 0, 0
    {
      match n
      case OtherNode => Done([])
      case ElementNode(child) =>
        if child.name != IncludeElementName then
          match Duplicate(child, location, fuel)
          case OutOfFuel => OutOfFuel
          case Done(d) => Done([ElementNode(d)])
        else if IsNullOrEmpty(child.value) then Done([])
        else
          var newLocation := GetNewLocation(location, child.value.value);
          match LoadXml(newLocation)
          case None => Done([])
          case Some(reference) =>
            if fuel == 0 then OutOfFuel
            else if reference.name == IncludeElementName then
              ChildrenOutput(reference, newLocation, fuel - 1, |reference.childNodes|)
            else
              match Duplicate(reference, newLocation, fuel - 1)
              case OutOfFuel => OutOfFuel
              case Done(d) => Done([ElementNode(d)])
    }

    /** What `ProcessRawXml` returns. */
    function ProcessRaw(rawXml: Option<Element>, location: string, fuel: nat): (r: Outcome<Option<Element>>)
    {
      match rawXml
      case None => Done(None)
      case Some(raw) =>
        if raw.name == IncludeElementName then
          match ChildrenOutput(raw, location, fuel, |raw.childNodes|)
          case OutOfFuel => OutOfFuel
          case Done(children) => Done(Some(Element(DefaultRootElementName, AppendedAttributes([], raw.attributes), children, None)))
        else
          match Duplicate(raw, location, fuel)
          case OutOfFuel => OutOfFuel
          case Done(d) => Done(Some(d))
    }

    /** What `Load` returns. */
    function LoadOutput(location: string, fuel: nat): (r: Outcome<Option<Element>>)
    {
      ProcessRaw(LoadXml(location), location, fuel)
    }

    /** Once a prefix of the children runs out of fuel, so does every longer one. */
    lemma {:induction false} OutOfFuelPersists(source: Element, location: string, fuel: nat, k: nat, m: nat)
      requires k <= m <= |source.childNodes|
      requires ChildrenOutput(source, location, fuel, k).OutOfFuel?
      ensures ChildrenOutput(source, location, fuel, m).OutOfFuel?
    {
      if k < m {
        OutOfFuelPersists(source, location, fuel, k, m - 1);
      }
    }

    /** ConfigurationXmlLoaderBase.cs:101-112: every attribute of the source is
        appended to the target, in order; nothing else changes. */
    method CopyAttributes(sourceXml: Element, targetXml: XmlElement)
      modifies targetXml
      ensures targetXml.Attributes == AppendedAttributes(old(targetXml.Attributes), sourceXml.attributes)
      ensures targetXml.ChildNodes == old(targetXml.ChildNodes)
    {
      if |sourceXml.attributes| > 0 {
        for i := 0 to |sourceXml.attributes|
          invariant targetXml.Attributes == AppendedAttributes(old(targetXml.Attributes), sourceXml.attributes[..i])
          invariant targetXml.ChildNodes == old(targetXml.ChildNodes)
        {
          var attribute := sourceXml.attributes[i];
          var newAttribute := Attribute(attribute.name, attribute.value);
          assert sourceXml.attributes[..i + 1][..i] == sourceXml.attributes[..i];
          targetXml.AppendAttribute(newAttribute);
        }
        assert sourceXml.attributes[..|sourceXml.attributes|] == sourceXml.attributes;
      }
    }

    /** ConfigurationXmlLoaderBase.cs:123-163: the expanded child nodes of the
        source are appended to the target, in order. `ok` is false when the
        expansion runs out of fuel. */
    method CopyChildren(sourceXml: Element, targetXml: XmlElement, sourceXmlLocation: string, fuel: nat) returns (ok: bool)
      modifies targetXml
      decreases fuel, sourceXml, 0
      ensures ok <==> ChildrenOutput(sourceXml, sourceXmlLocation, fuel, |sourceXml.childNodes|).Done?
      ensures ok ==> targetXml.ChildNodes == old(targetXml.ChildNodes) + ChildrenOutput(sourceXml, sourceXmlLocation, fuel, |sourceXml.childNodes|).value
      ensures targetXml.Attributes == old(targetXml.Attributes)
    {
      var count := |sourceXml.childNodes|;
      var i := 0;
      while i < count
        invariant 0 <= i <= count
        invariant ChildrenOutput(sourceXml, sourceXmlLocation, fuel, i).Done?
        invariant targetXml.ChildNodes == old(targetXml.ChildNodes) + ChildrenOutput(sourceXml, sourceXmlLocation, fuel, i).value
        invariant targetXml.Attributes == old(targetXml.Attributes)
      {
        var childNode := sourceXml.childNodes[i];
        ghost var before := targetXml.ChildNodes;
        if childNode.ElementNode? {
          var childXml := childNode.element;
          if childXml.name != IncludeElementName {
            var duplicate := DuplicateXmlElement(childXml, sourceXmlLocation, fuel);
            if duplicate.OutOfFuel? {
              OutOfFuelPersists(sourceXml, sourceXmlLocation, fuel, i + 1, count);
              return false;
            }
            targetXml.AppendChild(ElementNode(duplicate.value));
          } else {
            var relativeLocation := childXml.value;
            if IsNullOrEmpty(relativeLocation) {
              i := i + 1;
              continue;
            }
            var newLocation := GetNewLocation(sourceXmlLocation, relativeLocation.value);
            var referenceXml := LoadXml(newLocation);
            if referenceXml.Some? {
              if fuel == 0 {
                OutOfFuelPersists(sourceXml, sourceXmlLocation, fuel, i + 1, count);
                return false;
              }
              if referenceXml.value.name == IncludeElementName {
                var spliced := CopyChildren(referenceXml.value, targetXml, newLocation, fuel - 1);
                if !spliced {
                  OutOfFuelPersists(sourceXml, sourceXmlLocation, fuel, i + 1, count);
                  return false;
                }
              } else {
                var duplicate := DuplicateXmlElement(referenceXml.value, newLocation, fuel - 1);
                if duplicate.OutOfFuel? {
                  OutOfFuelPersists(sourceXml, sourceXmlLocation, fuel, i + 1, count);
                  return false;
                }
                targetXml.AppendChild(ElementNode(duplicate.value));
              }
            }
          }
        }
        i := i + 1;
      }
      return true;
    }

    /** ConfigurationXmlLoaderBase.cs:172-178: a fresh element with the
        source's name, filled with its attributes and expanded children. */
    method DuplicateXmlElement(sourceXml: Element, sourceXmlLocation: string, fuel: nat) returns (r: Outcome<Element>)
      decreases fuel, sourceXml, 1
      ensures r == Duplicate(sourceXml, sourceXmlLocation, fuel)
    {
      var newXml := new XmlElement(sourceXml.name);
      CopyAttributes(sourceXml, newXml);
      var ok := CopyChildren(sourceXml, newXml, sourceXmlLocation, fuel);
      if !ok {
        return OutOfFuel;
      }
      ghost var children := ChildrenOutput(sourceXml, sourceXmlLocation, fuel, |sourceXml.childNodes|);
      assert newXml.ChildNodes == [] + newXml.ChildNodes == children.value;
      r := Done(newXml.Snapshot());
    }

    /** ConfigurationXmlLoaderBase.cs:76-94: null for a null raw element; a
        raw include element becomes an element named `DefaultRootElementName`
        with its attributes and expanded children; any other is duplicated. */
    method ProcessRawXml(rawXml: Option<Element>, location: string, fuel: nat) returns (r: Outcome<Option<Element>>)
      ensures r == ProcessRaw(rawXml, location, fuel)
    {
      if rawXml.None? {
        return Done(None);
      }
      var raw := rawXml.value;
      if raw.name == IncludeElementName {
        var configurationXml := new XmlElement(DefaultRootElementName);
        CopyAttributes(raw, configurationXml);
        var ok := CopyChildren(raw, configurationXml, location, fuel);
        if !ok {
          return OutOfFuel;
        }
        ghost var children := ChildrenOutput(raw, location, fuel, |raw.childNodes|);
        assert configurationXml.ChildNodes == [] + configurationXml.ChildNodes == children.value;
        r := Done(Some(configurationXml.Snapshot()));
      } else {
        var duplicate := DuplicateXmlElement(raw, location, fuel);
        if duplicate.OutOfFuel? {
          return OutOfFuel;
        }
        r := Done(Some(duplicate.value));
      }
    }

    /** ConfigurationXmlLoaderBase.cs:61-66. */
    method Load(location: string, fuel: nat) returns (r: Outcome<Option<Element>>)
      ensures r == LoadOutput(location, fuel)
    {
      var rawXml := LoadXml(location);
      r := ProcessRawXml(rawXml, location, fuel);
    }
  }
}
