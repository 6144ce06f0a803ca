# CloudLibrary common core, modelled in Dafny

This project models the core of CloudLibrary's .NET `Common` library and proves properties of that model:

- **`ConfigurationXmlLoaderBase`** loads a configuration element from an abstract location. It rebuilds the element as a fresh tree and expands every child element named `IncludeElementName`. The marker's payload is resolved against the current location. The result is then one of four things:
  - nothing, when the payload is null or empty;
  - nothing, when the target cannot be loaded;
  - the target's children spliced in place, when the target root is itself an include element;
  - one copy of the target, otherwise.

  Nested markers resolve against the location of the document they came from.
- **`StringExtensions.SafeTrim`**, and the attribute types built on it: `ResourceCollectionAttribute`, `ResourceItemAttribute`, `EventCollectionAttribute` and `EventItemAttribute`.
- **The enumeration metadata tables** `ResourceInformationCollection<T>` and `EventInformationCollection<T>`. They are built by check-then-`Add` loops in which the first member with a key wins.
- **The two `IResourceProviderExtensions.GetResource<T>` lookups**: a stored resource, falling back to an enumeration's default content.
- **`ReadOnlyDictionary<TKey, TValue>`**, a wrapper that answers every read from the dictionary it wraps and offers no way to change it.
- **`ExceptionBase`**, whose runtime information survives serialization as two parallel arrays.
- **The three `CollectionExtensions` null-or-empty tests.**

## How the source is represented

- **Null and strings.** A .NET reference that may be null is an `Option`, and a string is a `seq<char>`.
- **Exceptions.** A call that can throw returns a `Result`, whose `Throws` case names the .NET exception. This applies to `ArgumentNullException` with its parameter name, and to `KeyNotFoundException`, `InvalidCastException`, `SerializationException` and `TypeInitializationException`. A .NET `int` is the newtype `Exceptions.Int32`.
- **Dictionaries.** An `IDictionary` is the sequence of its entries in enumeration order, with distinct keys (`ReadOnlyDictionaries.Entries`).
- **Reflection.** Reflection over an enumeration type is replaced by `EnumMetadata.EnumType`, which holds:
  - the type's name;
  - whether it is an enumeration;
  - whether its underlying type is `int`;
  - its collection attribute;
  - its members in `Enum.GetNames` order, each with its name, integer value and optional item attribute.

  An enumeration value is its underlying integer.
- **XML.** XML is modelled by `Xml`:
  - A parsed element is a value with its name, its attributes, its child nodes and its .NET `Value`.
  - Every non-element node is `OtherNode`.
  - The element the loader fills is the class `Xml.XmlElement`, whose attribute and child lists the loader methods append to in place.
  - `Attributes.Append` removes an attribute of the same qualified name, and the new one goes at the end. XML namespaces are not modelled.
- **The loader's four virtual members.** `DefaultRootElementName` and `IncludeElementName` are the loader's constants; the constructor `WithDefaultNames` gives the defaults "configuration" and "include". The abstract `LoadXml` and `GetNewLocation` are function-valued constants, fixed when the loader is created.
- **Loader state.** Each method of the loader (`Load`, `ProcessRawXml`, `DuplicateXmlElement`, `CopyAttributes`, `CopyChildren`) is imperative, like its source. Each one's result, or the new state of the element it fills, is proved equal to a specification function:
  - `LoadOutput`, `ProcessRaw` and `Duplicate`;
  - `ChildrenOutput` and `NodeOutput`, the latter being what one child node contributes;
  - `AppendedAttributes`.

  The lemmas in `ConfigurationXmlLoaderProperties` are about those functions.
- **No cycle guard.** The source does not guard against an include chain that comes back to a location being expanded. The model bounds the recursion with `fuel`:
  - Each followed include costs one unit.
  - `OutOfFuel` stands for an expansion deeper than the bound.
  - `LoadFuelMonotone` shows that more fuel never changes a finished load.
  - `SelfIncludeNeverFinishes` shows that a self-including file runs out of fuel under every bound, which is the source's unbounded recursion.
- **Marker names and splicing.**
  - The two marker names are the overridable properties at ConfigurationXmlLoaderBase.cs:45 and :50. They are not read from attributes of the root element.
  - A fetched document is spliced when its root is named `IncludeElementName` (line 150), not the root name. What is spliced is the fetched element's children (line 152).
  - A fetched root named "configuration" is therefore copied as one element, not unwrapped (`WrappedExample`). A fetched root named "include" is spliced (`SpliceExample`).
  - There is no cycle detection.
- **The include payload.** The source reads the payload from `childXml.Value` at line 139. .NET defines this as null for every element node. The model keeps it as the element's `value` field, so all four cases of the expansion can be stated. `DotNetTreesDropEveryMarker` shows the consequence: on any tree .NET parses, every include marker is dropped and nothing beyond the root is ever loaded.
- **The non-enumeration case of `EventInformationCollection`.** For a type that is not an enumeration, the constructor leaves both `SourceName` and the table null, and the indexer then throws `NullReferenceException`. An enumeration whose underlying type is not `int` throws `InvalidCastException` at the `(int)` cast on line 75.
- **The non-enumeration case of `ResourceInformationCollection`.** For a type that is not an enumeration, `ResourceInformationCollection` throws `ArgumentException` from `Enum.GetNames` (line 56). The lookups of `IResourceProviderExtensions` then see the singleton's type initializer fail with `TypeInitializationException`.
- **`ReadOnlyDictionary`.** It is a value holding the wrapped dictionary as it was when the wrapper was built. Every member is a function of it, so no member can change the dictionary.

## Model

| member | source | states |
|---|---|---|
| StringExtensions.LeadingWhiteSpace | DotNet/Common/Source/StringExtensions.cs:43 | the count of white-space characters `String.Trim()` removes at the front: all of them are white space and the next character, if any, is not |
| StringExtensions.TrailingWhiteSpace | DotNet/Common/Source/StringExtensions.cs:43 | the count of white-space characters `String.Trim()` removes at the end: all of them are white space and the character before them, if any, is not |
| StringExtensions.Trim | DotNet/Common/Source/StringExtensions.cs:43 | `String.Trim()`: the result has no white space at either end, is empty exactly when the input is all white space, and is a contiguous part of the input with only white space before and after it |
| StringExtensions.SafeTrim | DotNet/Common/Source/StringExtensions.cs:39-51 | null exactly for a null, empty or all-white-space argument; otherwise a non-empty trimmed string equal to `Trim` of the argument |
| StringExtensions.TrimOfPadded | DotNet/Common/Source/StringExtensions.cs:43-46 | any trimmed core between white-space padding trims to exactly that core, so leading and trailing white space goes and the interior is kept |
| StringExtensions.SafeTrimOfPadded | DotNet/Common/UnitTest/StringExtensionsUnitTest.cs:55-60 | a padded non-empty trimmed name comes back without its padding |
| StringExtensions.SafeTrimOfTrimmed | DotNet/Common/UnitTest/StringExtensionsUnitTest.cs:66-70 | an already trimmed non-empty string is returned unchanged |
| StringExtensions.SafeTrimIdempotent | DotNet/Common/Source/StringExtensions.cs:43-46 | trimming the result again changes nothing |
| StringExtensions.SafeTrimExamples | DotNet/Common/UnitTest/StringExtensionsUnitTest.cs:25-70 | null, "" and a blank string of spaces, CR, LF and tab give null; "  value " gives "value"; "value" is kept |
| CollectionExtensions.NullOrEmptyCases | DotNet/Common/Source/CollectionExtensions.cs:42-98 | each test holds exactly for null and for a collection without items, and the three overloads agree on every collection |
| CollectionExtensions.IsReadWriteNullOrEmpty | DotNet/Common/Source/CollectionExtensions.cs:42-45 | through `NullOrEmptyCases`: true exactly for null and for an `ICollection<T>` without items |
| CollectionExtensions.IsReadOnlyNullOrEmpty | DotNet/Common/Source/CollectionExtensions.cs:69-72 | through `NullOrEmptyCases`: true exactly for null and for an `IReadOnlyCollection<T>` without items |
| CollectionExtensions.IsNullOrEmpty | DotNet/Common/Source/CollectionExtensions.cs:95-98 | through `NullOrEmptyCases`: true exactly for null and for an `ICollection` without items |
| CollectionExtensions.NullOrEmptyExamples | DotNet/Common/UnitTest/CollectionExtensionsUnitTest.cs:24-58 | true for null and for an empty collection, false for collections of 1, 2 and 10 items, for all three overloads |
| ResourceCollectionAttributes.NewResourceCollectionAttribute | DotNet/Common/Source/Globalization/ResourceCollectionAttribute.cs:52-55 | the storage name is null exactly for a null or blank argument, and otherwise the non-empty trimmed argument |
| ResourceCollectionAttributes.StorageNameCases | DotNet/Common/UnitTest/GlobalizationTest/ResourceCollectionAttributeUnitTest.cs:28-74 | null, "" and " \r\n " give a null storage name; a padded name is trimmed and a trimmed one is kept |
| ResourceItemAttributes.NewResourceItemAttribute | DotNet/Common/Source/Globalization/ResourceItemAttribute.cs:48-52 | the name is null exactly for a null or blank argument and otherwise trimmed; the content is stored verbatim |
| ResourceItemAttributes.NewResourceItemAttributeOfContent | DotNet/Common/Source/Globalization/ResourceItemAttribute.cs:39-41 | the content-only form has a null name and the given content |
| ResourceItemAttributes.ResourceItemCases | DotNet/Common/UnitTest/GlobalizationTest/ResourceItemAttributeUnitTest.cs:25-55 | no arguments gives null name and content; content alone is kept; a trimmed name and content come back as given; padding is removed from the name but kept in the content |
| EventCollectionAttributes.NewEventCollectionAttribute | DotNet/Common/Source/Diagnostics/EventCollectionAttribute.cs:42-45 | the source name is null exactly for a null or blank argument, and otherwise the non-empty trimmed argument |
| EventCollectionAttributes.SourceNameCases | DotNet/Common/UnitTest/DiagnosticsTest/EventCollectionAttributeUnitTest.cs:28-74 | null, "" and blanks with tabs give null; a padded name is trimmed and a trimmed one is kept |
| EventItemAttributes.NewEventItemAttribute | DotNet/Common/Source/Diagnostics/EventItemAttribute.cs:36-39 | the level is exactly the given level |
| EventItemAttributes.NewDefaultEventItemAttribute | DotNet/Common/Source/Diagnostics/EventItemAttribute.cs:23-30 | the parameterless form has level `DefaultEventLevel`, which is `Error` |
| EventItemAttributes.LevelIsKept | DotNet/Common/UnitTest/DiagnosticsTest/EventItemAttributeUnitTest.cs:25-43 | each of the five levels is kept, two attributes are equal exactly when their levels are, and the default attribute is the `Error` one |
| EnumMetadata.FirstWins | DotNet/Common/Source/Globalization/ResourceInformationCollection.cs:79-96 | the table left by a check-then-`Add` loop has exactly the keys of the visited entries |
| EnumMetadata.FirstWinsSnoc | DotNet/Common/Source/Diagnostics/EventInformationCollection.cs:78-86 | one more round adds the entry's key with its value unless the key is already present, in which case the table is unchanged |
| EnumMetadata.FirstWinsKeepsFirst | DotNet/Common/Source/Globalization/ResourceInformationCollection.cs:79-87 | for each key, the value kept is the value of the first entry with that key |
| ResourceInformationCollections.ResourceNameOf | DotNet/Common/Source/Globalization/ResourceInformationCollection.cs:62-75 | a member's resource name is its attribute's name when there is one, and otherwise the member's own name |
| ResourceInformationCollections.ItemOf | DotNet/Common/Source/Globalization/ResourceInformationCollection.cs:62-77 | a member's item has its resource name and its attribute's content, and null content without an attribute |
| ResourceInformationCollections.StorageNameOf | DotNet/Common/Source/Globalization/ResourceInformationCollection.cs:45-52 | the collection attribute's storage name when it has one, and otherwise the type's name; `Collect` states that the built collection carries it |
| ResourceInformationCollections.IdEntries | DotNet/Common/Source/Globalization/ResourceInformationCollection.cs:57-87 | the pairs offered to the id table are, position by position, each member's value with its item |
| ResourceInformationCollections.NameEntries | DotNet/Common/Source/Globalization/ResourceInformationCollection.cs:57-96 | the pairs offered to the name table are, position by position, each member's resource name with its item |
| ResourceInformationCollections.EntriesSnoc | DotNet/Common/Source/Globalization/ResourceInformationCollection.cs:79-96 | one round of the loop adds member `i` to each table unless its value or name is already there |
| ResourceInformationCollections.Collect | DotNet/Common/Source/Globalization/ResourceInformationCollection.cs:34-101 | throws `ArgumentException` exactly for a type that is not an enumeration; otherwise the storage name is the attribute's or the type's, and the two tables hold exactly the members' values and resource names |
| ResourceInformationCollections.NewResourceInformationCollection | DotNet/Common/Source/Globalization/ResourceInformationCollection.cs:34-101 | the constructor's loop over the members builds exactly `Collect`'s tables |
| ResourceInformationCollections.GetContent | DotNet/Common/Source/Globalization/ResourceInformationCollection.cs:113-127 | a null name throws `ArgumentNullException("name")`; a known name gives its item's content, and an unknown one gives null |
| ResourceInformationCollections.TryGetResourceInformation | DotNet/Common/Source/Globalization/ResourceInformationCollection.cs:135-146 | true exactly for a known id, with the item's (name, content); false with the default pair of two nulls otherwise |
| ResourceInformationCollections.ContentOfFirstNamed | DotNet/Common/Source/Globalization/ResourceInformationCollection.cs:89-96 | looking up a resource name gives the content of the first member with that name |
| ResourceInformationCollections.ContentOfUnknownName | DotNet/Common/Source/Globalization/ResourceInformationCollection.cs:120-126 | a name that is no member's resource name has null content |
| ResourceInformationCollections.InformationOfFirstValued | DotNet/Common/Source/Globalization/ResourceInformationCollection.cs:79-87 | looking up a value gives the resource name and content of the first member with that value |
| ResourceInformationCollections.InformationOfUnknownValue | DotNet/Common/Source/Globalization/ResourceInformationCollection.cs:144-145 | a value no member has is not found, and the default pair is returned |
| ResourceInformationCollections.DistinctMembersAreFound | DotNet/Common/UnitTest/GlobalizationTest/ResourceInformationCollectionUnitTest.cs:118-150 | for members with distinct values and names, each member is found by name and by value with its content, and the storage name is the attribute's or the type's |
| ResourceInformationCollections.RepeatedValueKeepsFirst | DotNet/Common/Source/Globalization/ResourceInformationCollection.cs:79-87 | a later member repeating a value does not replace the earlier member's item |
| ResourceProviderExtensions.Singleton | DotNet/Common/Source/Globalization/IResourceProviderExtensions.cs:45 | the singleton is the collection the constructor builds, and `TypeInitializationException` when that constructor throws |
| ResourceProviderExtensions.GetResourceById | DotNet/Common/Source/Globalization/IResourceProviderExtensions.cs:43-54 | throws `TypeInitializationException` exactly for a type that is not an enumeration; its values are stated by `ResourceByIdOfMember` and `ResourceByUnknownId` |
| ResourceProviderExtensions.GetResourceByName | DotNet/Common/Source/Globalization/IResourceProviderExtensions.cs:87-92 | `TypeInitializationException` for a type that is not an enumeration; for an enumeration it throws only `ArgumentNullException("name")`, and only for a null name; its values are stated by `ResourceByNameOfMember`, `ResourceByUnknownName` and `ResourceByNullName` |
| ResourceProviderExtensions.ResourceByIdOfMember | DotNet/Common/Source/Globalization/IResourceProviderExtensions.cs:43-51 | for a member's value, the provider is asked for that member's resource name in the storage; its answer wins, and otherwise the member's default content is returned |
| ResourceProviderExtensions.ResourceByUnknownId | DotNet/Common/Source/Globalization/IResourceProviderExtensions.cs:53 | an id no member has gives null |
| ResourceProviderExtensions.ResourceByNameOfMember | DotNet/Common/Source/Globalization/IResourceProviderExtensions.cs:87-92 | for a member's resource name, a stored resource wins, and otherwise that member's content is returned |
| ResourceProviderExtensions.ResourceByUnknownName | DotNet/Common/Source/Globalization/IResourceProviderExtensions.cs:90-91 | an unknown name gives the stored resource for it, or null |
| ResourceProviderExtensions.ResourceByNullName | DotNet/Common/Source/Globalization/IResourceProviderExtensions.cs:90-91 | a null name is passed to the provider; when the provider has nothing, the fallback throws `ArgumentNullException("name")` |
| ResourceProviderExtensions.NotAnEnumeration | DotNet/Common/Source/Globalization/IResourceProviderExtensions.cs:43-92 | both lookups throw `TypeInitializationException` for a type that is not an enumeration |
| EventInformationCollections.LevelOf | DotNet/Common/Source/Diagnostics/EventInformationCollection.cs:63-72 | a member's level is its attribute's level, and `DefaultEventLevel` without an attribute |
| EventInformationCollections.EventItemOf | DotNet/Common/Source/Diagnostics/EventInformationCollection.cs:73-76 | a member's item carries its field name, its integer value and its level |
| EventInformationCollections.SourceNameOf | DotNet/Common/Source/Diagnostics/EventInformationCollection.cs:41-48 | the collection attribute's source name when it has one, and otherwise the type's name; `Collect` states that the built collection carries it |
| EventInformationCollections.EventEntries | DotNet/Common/Source/Diagnostics/EventInformationCollection.cs:55-86 | the pairs offered to the table are, position by position, each member's value with its item |
| EventInformationCollections.EventEntriesSnoc | DotNet/Common/Source/Diagnostics/EventInformationCollection.cs:78-86 | one round of the loop adds member `i` unless its value is already present |
| EventInformationCollections.Collect | DotNet/Common/Source/Diagnostics/EventInformationCollection.cs:31-91 | a non-enumeration gives null source name and table; an enumeration with a member whose underlying type is not `int` throws `InvalidCastException`; otherwise the source name is the attribute's or the type's, and the table holds exactly the members' values |
| EventInformationCollections.NewEventInformationCollection | DotNet/Common/Source/Diagnostics/EventInformationCollection.cs:31-91 | the constructor's loop over the members builds exactly `Collect`'s collection |
| EventInformationCollections.Item | DotNet/Common/Source/Diagnostics/EventInformationCollection.cs:103-110 | a known id gives its item and an unknown one gives null; a null table throws `NullReferenceException` |
| EventInformationCollections.ItemOfFirstValued | DotNet/Common/Source/Diagnostics/EventInformationCollection.cs:64-86 | looking up a value gives the item of the first member with it, at level `Error` when the member has no attribute |
| EventInformationCollections.ItemOfUnknownValue | DotNet/Common/Source/Diagnostics/EventInformationCollection.cs:108 | a value no member has gives null |
| EventInformationCollections.DistinctMembersAreFound | DotNet/Common/UnitTest/DiagnosticsTest/EventInformationCollectionUnitTest.cs:115-133 | for members with distinct values, the source name is the attribute's or the type's, and each member's item (name, value, level) is found |
| EventInformationCollections.NotAnEnumeration | DotNet/Common/Source/Diagnostics/EventInformationCollection.cs:35-39 | for a non-enumeration the constructor succeeds with a null source name, and the indexer throws `NullReferenceException` |
| ReadOnlyDictionaries.AsMap | DotNet/Common/Source/ReadOnlyDictionary.cs:42 | the map a dictionary denotes has exactly its entries' keys |
| ReadOnlyDictionaries.AsMapHasEntry | DotNet/Common/Source/ReadOnlyDictionary.cs:42 | every entry of a dictionary is in its map with its value |
| ReadOnlyDictionaries.AsMapSize | DotNet/Common/Source/ReadOnlyDictionary.cs:67-73 | a dictionary has as many entries as its map has keys |
| ReadOnlyDictionaries.Find | DotNet/Common/Source/ReadOnlyDictionary.cs:135-138 | the lookup finds a value exactly for a key in the map, and the value found is the map's |
| ReadOnlyDictionaries.NewReadOnlyDictionary | DotNet/Common/Source/ReadOnlyDictionary.cs:54-62 | throws `ArgumentNullException("reference")` exactly for null, and otherwise wraps the given dictionary |
| ReadOnlyDictionaries.Count | DotNet/Common/Source/ReadOnlyDictionary.cs:67-73 | the number of keys of the underlying dictionary |
| ReadOnlyDictionaries.Keys | DotNet/Common/Source/ReadOnlyDictionary.cs:78-84 | `Count` keys, each underlying key once and no other |
| ReadOnlyDictionaries.Values | DotNet/Common/Source/ReadOnlyDictionary.cs:89-95 | `Count` values, the i-th being the underlying value of the i-th key |
| ReadOnlyDictionaries.Item | DotNet/Common/Source/ReadOnlyDictionary.cs:102-108 | the underlying value of a present key, and `KeyNotFoundException` exactly for an absent one |
| ReadOnlyDictionaries.ContainsKey | DotNet/Common/Source/ReadOnlyDictionary.cs:115-118 | true exactly for a key of the underlying dictionary |
| ReadOnlyDictionaries.TryGetValue | DotNet/Common/Source/ReadOnlyDictionary.cs:135-138 | true with the value exactly for a present key, and false with no value otherwise |
| ReadOnlyDictionaries.GetEnumerator | DotNet/Common/Source/ReadOnlyDictionary.cs:124-148 | `Count` pairs, each an underlying key with its value, covering every key |
| ReadOnlyDictionaries.LookupsAgree | DotNet/Common/UnitTest/ReadOnlyDictionaryUnitTest.cs:141-253 | every entry of the wrapped dictionary is found by the indexer, `ContainsKey` and `TryGetValue` with its value |
| Exceptions.NewExceptionBase | DotNet/Common/Source/ExceptionBase.cs:51-61 | the event source, event id and runtime information are stored unchanged |
| Exceptions.StringOrNull | DotNet/Common/Source/ExceptionBase.cs:115 | a string is stored as itself, and null as a null entry |
| Exceptions.NamesOf | DotNet/Common/Source/ExceptionBase.cs:125-133 | the names array has one name per enumerated pair, the i-th being the i-th key |
| Exceptions.ValuesOf | DotNet/Common/Source/ExceptionBase.cs:126-133 | the values array has one value per enumerated pair, the i-th being the i-th value |
| Exceptions.DecimalDigits | DotNet/Common/Source/ExceptionBase.cs:76 | non-empty decimal digits without a leading zero that denote exactly the given number; zero is the single digit `0` |
| Exceptions.Int32ToString | DotNet/Common/Source/ExceptionBase.cs:76 | `Int32.ToString` in the invariant culture: a minus sign exactly for a negative number, then only decimal digits, which denote the magnitude and start with `0` only for zero itself, written `0` alone |
| Exceptions.ObjectData | DotNet/Common/Source/ExceptionBase.cs:113-136 | the event source, event id and names entries are always present, and the values entry exactly when the runtime information is neither null nor empty; `ObjectDataLayout` gives every entry |
| Exceptions.ObjectDataLayout | DotNet/Common/Source/ExceptionBase.cs:113-140 | the source and id are stored under their keys; null or empty runtime information gives an empty names array and no values entry; otherwise both arrays are stored |
| Exceptions.GetObjectData | DotNet/Common/Source/ExceptionBase.cs:113-140 | the index loop fills the arrays so that the serialization info is exactly `ObjectData` |
| Exceptions.GetString | DotNet/Common/Source/ExceptionBase.cs:76 | a missing entry throws `SerializationException` naming it; any present entry is read: null and strings as stored, an `int` as its invariant-culture decimal text, an array as its type name |
| Exceptions.GetInt32 | DotNet/Common/Source/ExceptionBase.cs:77 | a missing entry throws `SerializationException`; an `int` entry is returned, and any other kind throws `InvalidCastException` |
| Exceptions.GetStringArray | DotNet/Common/Source/ExceptionBase.cs:78 | a missing entry throws `SerializationException`; a null or string-array entry is returned |
| Exceptions.GetObjectArray | DotNet/Common/Source/ExceptionBase.cs:83 | a missing entry throws `SerializationException`; a null or object-array entry is returned |
| Exceptions.FromObjectData | DotNet/Common/Source/ExceptionBase.cs:74-91 | a missing event source or event id throws `SerializationException` naming it; on success the event source is what `GetString` reads and the event id is the stored `int`, and runtime information is present only for a non-empty names array, with one entry per name, and then the values array is an `object[]` at least as long and entry i pairs name i with value i; `SerializationRoundTrip` and `DuplicateNameThrows` relate it to `ObjectData` |
| Exceptions.Rebuild | DotNet/Common/Source/ExceptionBase.cs:82-87 | after `k` successful `Add` rounds the dictionary has `k` entries, the i-th being `names[i]` with `values[i]` |
| Exceptions.RebuildFailurePersists | DotNet/Common/Source/ExceptionBase.cs:84-87 | once a round throws, the rebuild ends with that exception |
| Exceptions.Deserialize | DotNet/Common/Source/ExceptionBase.cs:74-91 | the deserializing constructor's `for` loop builds exactly `FromObjectData` |
| Exceptions.RebuildOfObjectData | DotNet/Common/Source/ExceptionBase.cs:74-136 | the arrays written for a dictionary rebuild exactly its first `k` entries |
| Exceptions.SerializationRoundTrip | DotNet/Common/UnitTest/ExceptionBaseUnitTest.cs:52-76 | a round trip keeps the event source, the event id and every runtime pair in order; empty runtime information comes back as null |
| Exceptions.RoundTripKeepsLookups | DotNet/Common/UnitTest/ExceptionBaseUnitTest.cs:52-76 | after a round trip the runtime information has the original's count, and every original key gives its value |
| Exceptions.DuplicateNameThrows | DotNet/Common/Source/ExceptionBase.cs:86 | a names array listing a name twice makes deserialization throw `ArgumentException` |
| Exceptions.EventSourceStoredAsInt32 | DotNet/Common/Source/ExceptionBase.cs:76 | an event source stored as the `int` 7 is read back as "7" |
| Xml.WithoutNamed | DotNet/Common/Source/Configuration/ConfigurationXmlLoaderBase.cs:109 | the remaining attributes all come from the input, none has the name, and input without that name is unchanged |
| Xml.AppendedAttribute | DotNet/Common/Source/Configuration/ConfigurationXmlLoaderBase.cs:109 | the new attribute is last, and every earlier one is an old attribute of another name; with no same-named attribute the new one is just appended |
| Xml.AppendedAttributes | DotNet/Common/Source/Configuration/ConfigurationXmlLoaderBase.cs:104-110 | appending the source attributes one by one, in order; `AppendedAttributesFrom`, `AppendedDistinct` and `CopyOntoFresh` state what it yields |
| Xml.AppendedAttributesFrom | DotNet/Common/Source/Configuration/ConfigurationXmlLoaderBase.cs:104-110 | every attribute of the result comes from the target or from the appended ones, and the last one appended is last |
| Xml.AppendedDistinct | DotNet/Common/Source/Configuration/ConfigurationXmlLoaderBase.cs:105-110 | appending attributes with distinct new names keeps them all, in order, after the existing ones |
| Xml.CopyOntoFresh | DotNet/Common/UnitTest/ConfigurationTest/ConfigurationXmlLoaderBaseUnitTest.cs:30-88 | copying a well-formed element's attributes onto a fresh element gives exactly its attributes, none for none |
| Xml.XmlElement.constructor | DotNet/Common/Source/Configuration/ConfigurationXmlLoaderBase.cs:174 | a created element has the given name and no attributes or children |
| Xml.XmlElement.AppendAttribute | DotNet/Common/Source/Configuration/ConfigurationXmlLoaderBase.cs:109 | the attributes become `AppendedAttribute` of the old ones; the children are unchanged |
| Xml.XmlElement.AppendChild | DotNet/Common/Source/Configuration/ConfigurationXmlLoaderBase.cs:135 | the node is added after the old children; the attributes are unchanged |
| Xml.XmlElement.Snapshot | DotNet/Common/Source/Configuration/ConfigurationXmlLoaderBase.cs:177 | the element's value has its name, attributes, children and a null `Value` |
| ConfigurationXmlLoaders.ConfigurationXmlLoaderBase.constructor | DotNet/Common/Source/Configuration/ConfigurationXmlLoaderBase.cs:45-50 | a derived loader with its own overrides of the two names and the two abstract members |
| ConfigurationXmlLoaders.ConfigurationXmlLoaderBase.WithDefaultNames | DotNet/Common/Source/Configuration/ConfigurationXmlLoaderBase.cs:33-50 | a derived loader that keeps the names "configuration" and "include" |
| ConfigurationXmlLoaders.ConfigurationXmlLoaderBase.Duplicate | DotNet/Common/Source/Configuration/ConfigurationXmlLoaderBase.cs:172-178 | what `DuplicateXmlElement` returns: stated by `DuplicateIsIncludeFree`, `DuplicateFuelMonotone` and `DuplicateOfUnresolvable` |
| ConfigurationXmlLoaders.ConfigurationXmlLoaderBase.ChildrenOutput | DotNet/Common/Source/Configuration/ConfigurationXmlLoaderBase.cs:123-163 | what `CopyChildren` appends for a prefix of the children: stated by `ChildContribution`, `ChildrenAreIncludeFree`, `ChildrenFuelMonotone` and `ChildrenOfUnresolvable` |
| ConfigurationXmlLoaders.ConfigurationXmlLoaderBase.NodeOutput | DotNet/Common/Source/Configuration/ConfigurationXmlLoaderBase.cs:127-161 | what one child node contributes: stated by `ChildContribution`, `NodeOutputIsIncludeFree`, `NodeFuelMonotone` and `NodeOfUnresolvable` |
| ConfigurationXmlLoaders.ConfigurationXmlLoaderBase.ProcessRaw | DotNet/Common/Source/Configuration/ConfigurationXmlLoaderBase.cs:76-94 | what `ProcessRawXml` returns: stated by `RootNaming` |
| ConfigurationXmlLoaders.ConfigurationXmlLoaderBase.LoadOutput | DotNet/Common/Source/Configuration/ConfigurationXmlLoaderBase.cs:61-66 | what `Load` returns: stated by `LoadNullIff`, `LoadIsIncludeFree`, `LoadFuelMonotone` and `LoadOfUnresolvable` |
| ConfigurationXmlLoaders.ConfigurationXmlLoaderBase.OutOfFuelPersists | DotNet/Common/Source/Configuration/ConfigurationXmlLoaderBase.cs:127-161 | once the expansion of a prefix of the children runs out of fuel, every longer prefix does too |
| ConfigurationXmlLoaders.ConfigurationXmlLoaderBase.CopyAttributes | DotNet/Common/Source/Configuration/ConfigurationXmlLoaderBase.cs:101-112 | the target's attributes become the old ones with every source attribute appended in order; its children are unchanged |
| ConfigurationXmlLoaders.ConfigurationXmlLoaderBase.CopyChildren | DotNet/Common/Source/Configuration/ConfigurationXmlLoaderBase.cs:123-163 | finishes exactly when `ChildrenOutput` does, and then the target's children are the old ones followed by the expanded children; its attributes are unchanged |
| ConfigurationXmlLoaders.ConfigurationXmlLoaderBase.DuplicateXmlElement | DotNet/Common/Source/Configuration/ConfigurationXmlLoaderBase.cs:172-178 | the new element is exactly `Duplicate`: the source's name and attributes with the expanded children |
| ConfigurationXmlLoaders.ConfigurationXmlLoaderBase.ProcessRawXml | DotNet/Common/Source/Configuration/ConfigurationXmlLoaderBase.cs:76-94 | the result is exactly `ProcessRaw`: null for null, the default root name for an include root, and a duplicate otherwise |
| ConfigurationXmlLoaders.ConfigurationXmlLoaderBase.Load | DotNet/Common/Source/Configuration/ConfigurationXmlLoaderBase.cs:61-66 | the result is exactly `LoadOutput`, the processed form of the raw element `LoadXml(location)` |
| ConfigurationXmlLoaderProperties.LoadNullIff | DotNet/Common/Source/Configuration/ConfigurationXmlLoaderBase.cs:61-93 | a finished load is null exactly when `LoadXml(location)` is null |
| ConfigurationXmlLoaderProperties.RootNaming | DotNet/Common/Source/Configuration/ConfigurationXmlLoaderBase.cs:81-89 | an include root is named `DefaultRootElementName` and any other root keeps its name; either way the result has the root's attributes and its expanded children |
| ConfigurationXmlLoaderProperties.ChildContribution | DotNet/Common/Source/Configuration/ConfigurationXmlLoaderBase.cs:125-157 | how one more child extends the expansion: non-elements add nothing, ordinary elements add their duplicate, and an include marker takes one of its four cases under the new location |
| ConfigurationXmlLoaderProperties.DuplicateIsIncludeFree | DotNet/Common/Source/Configuration/ConfigurationXmlLoaderBase.cs:172-178 | a duplicate keeps the source's name and has no include element below it |
| ConfigurationXmlLoaderProperties.ChildrenAreIncludeFree | DotNet/Common/Source/Configuration/ConfigurationXmlLoaderBase.cs:133-157 | no expanded child contains an include element |
| ConfigurationXmlLoaderProperties.NodeOutputIsIncludeFree | DotNet/Common/Source/Configuration/ConfigurationXmlLoaderBase.cs:130-157 | nothing one child contributes contains an include element |
| ConfigurationXmlLoaderProperties.LoadIsIncludeFree | DotNet/Common/Source/Configuration/ConfigurationXmlLoaderBase.cs:81-178 | when the two names differ, no element of a loaded configuration is named `IncludeElementName` |
| ConfigurationXmlLoaderProperties.DuplicateFuelMonotone | DotNet/Common/Source/Configuration/ConfigurationXmlLoaderBase.cs:172-178 | a duplicate that finishes gives the same result with more fuel |
| ConfigurationXmlLoaderProperties.ChildrenFuelMonotone | DotNet/Common/Source/Configuration/ConfigurationXmlLoaderBase.cs:127-161 | a children expansion that finishes gives the same result with more fuel |
| ConfigurationXmlLoaderProperties.NodeFuelMonotone | DotNet/Common/Source/Configuration/ConfigurationXmlLoaderBase.cs:146-157 | a child's contribution that finishes gives the same result with more fuel |
| ConfigurationXmlLoaderProperties.LoadFuelMonotone | DotNet/Common/Source/Configuration/ConfigurationXmlLoaderBase.cs:61-66 | a load that finishes gives the same configuration with more fuel |
| ConfigurationXmlLoaderProperties.Pruned | DotNet/Common/Source/Configuration/ConfigurationXmlLoaderBase.cs:172-178 | the reference skeleton keeps the element's name and attributes, with a null `Value` |
| ConfigurationXmlLoaderProperties.PrunedChildren | DotNet/Common/Source/Configuration/ConfigurationXmlLoaderBase.cs:127-136 | the skeleton's children are elements, none named like the marker |
| ConfigurationXmlLoaderProperties.PrunedNode | DotNet/Common/Source/Configuration/ConfigurationXmlLoaderBase.cs:130-144 | a node's skeleton is an element not named like the marker, or nothing |
| ConfigurationXmlLoaderProperties.DuplicateOfUnresolvable | DotNet/Common/Source/Configuration/ConfigurationXmlLoaderBase.cs:130-178 | when every marker has a null or empty payload, the duplicate is the pruned skeleton, for any fuel and location |
| ConfigurationXmlLoaderProperties.ChildrenOfUnresolvable | DotNet/Common/Source/Configuration/ConfigurationXmlLoaderBase.cs:127-144 | under the same condition, the children expand to the pruned children |
| ConfigurationXmlLoaderProperties.NodeOfUnresolvable | DotNet/Common/Source/Configuration/ConfigurationXmlLoaderBase.cs:130-144 | under the same condition, a child contributes its pruned skeleton |
| ConfigurationXmlLoaderProperties.LoadOfUnresolvable | DotNet/Common/Source/Configuration/ConfigurationXmlLoaderBase.cs:79-144 | under the same condition, the loaded configuration is the root's skeleton, renamed to the default root name when the root is an include element |
| ConfigurationXmlLoaderProperties.ValuelessIsUnresolvable | DotNet/Common/Source/Configuration/ConfigurationXmlLoaderBase.cs:139-144 | in a tree whose elements all have a null `Value`, no marker can be resolved |
| ConfigurationXmlLoaderProperties.IncludeFreeIsUnresolvable | DotNet/Common/Source/Configuration/ConfigurationXmlLoaderBase.cs:133 | a tree without include elements has no marker to resolve |
| ConfigurationXmlLoaderProperties.DotNetTreesDropEveryMarker | DotNet/Common/Source/Configuration/ConfigurationXmlLoaderBase.cs:139-144 | on any tree .NET parses, every marker is dropped, and the load is the raw root's pruned skeleton |
| ConfigurationXmlLoaderProperties.IncludeFreeSkeleton | DotNet/Common/Source/Configuration/ConfigurationXmlLoaderBase.cs:125-178 | without include elements the output is the input's element skeleton: the same names, attribute lists and element children in order |
| ConfigurationXmlLoaderProperties.LeafCopiesItself | DotNet/Common/Source/Configuration/ConfigurationXmlLoaderBase.cs:133-136 | an ordinary leaf element is copied as itself |
| ConfigurationXmlLoaderProperties.ChildrenStep | DotNet/Common/Source/Configuration/ConfigurationXmlLoaderBase.cs:127-161 | one more child appends its contribution to the expanded prefix |
| ConfigurationXmlLoaderProperties.ChildrenStepOutOfFuel | DotNet/Common/Source/Configuration/ConfigurationXmlLoaderBase.cs:127-161 | when the expansion of one more child does not finish, the expansion of the whole child list does not finish either |
| ConfigurationXmlLoaderProperties.LeavesCopyThemselves | DotNet/Common/Source/Configuration/ConfigurationXmlLoaderBase.cs:127-136 | a list of ordinary leaves expands to itself |
| ConfigurationXmlLoaderProperties.SpliceExample | DotNet/Common/Source/Configuration/ConfigurationXmlLoaderBase.cs:150-153 | `<configuration><a/><include>child.xml</include><b/></configuration>`, with a target rooted at `include` holding x and y, loads as a, x, y, b with any fuel that allows one include |
| ConfigurationXmlLoaderProperties.WrappedMarker | DotNet/Common/Source/Configuration/ConfigurationXmlLoaderBase.cs:154-157 | a marker whose target is rooted at `configuration` stands for one copy of that whole root |
| ConfigurationXmlLoaderProperties.WrappedExample | DotNet/Common/Source/Configuration/ConfigurationXmlLoaderBase.cs:154-157 | the same root with a target rooted at `configuration` loads as a, the whole target, then b, with any fuel that allows one include |
| ConfigurationXmlLoaderProperties.MissingTargetExample | DotNet/Common/Source/Configuration/ConfigurationXmlLoaderBase.cs:146-148 | when the target cannot be loaded, the same root loads as a, b, for any fuel |
| ConfigurationXmlLoaderProperties.SelfIncludeNeverFinishes | DotNet/Common/Source/Configuration/ConfigurationXmlLoaderBase.cs:146-157 | a file that includes itself runs out of fuel under every bound |

## Left out

- `ConfigurationXmlFileLoader` (file-system I/O and path arithmetic) and `XmlConfigurationSectionHandler` are not modelled. They are replaced by the abstract `LoadXml` and `GetNewLocation` parameters of the loader.
- XML documents and node ownership are not modelled: the `XmlDocument` that creates each element, `OwnerDocument` and `CreateAttribute`. A copied attribute is modelled as the same name and value pair.
- Xml.AppendedAttribute: XML namespaces are not modelled, and attributes are compared by their qualified name. .NET's `CreateAttribute(attribute.Name)` gives a prefixed attribute other than `xml` or `xmlns` an empty namespace, and `Attributes.Append` replaces an attribute of the same local name and namespace. So on `<e xmlns:a="u" a:x="1" x="2"/>` .NET's copy drops `a:x`, where the model keeps it.
- ConfigurationXmlLoaders.ConfigurationXmlLoaderBase.Load: bounded by `fuel`. An expansion deeper than the bound gives `OutOfFuel`, where the source recurses without end or runs out of stack.
- The logging marked in the source's "TODO: log error" branches is not modelled. There is no logging code there.
- Exceptions.NewExceptionBase: the message and inner exception that go to the base `Exception`, and the fields `base.GetObjectData` adds, are not modelled. They belong to the .NET base class.
- Exceptions.GetInt32: formatter conversions through `IFormatterConverter` are not modelled. A stored value of another kind is refused with `InvalidCastException`.
- Exceptions.GetObjectArray: a stored `string[]` is refused with `InvalidCastException`. .NET's `GetValue(name, typeof(object[]))` returns it unchanged through array covariance. The values' type `V` is generic, so a string array cannot stand for an array of `V` here.
- ReadOnlyDictionaries.NewReadOnlyDictionary: the wrapper keeps the caller's dictionary by reference, so later changes made through the caller's `IDictionary` show up in every read. The model captures the dictionary as a value when the wrapper is built, and does not model those later changes or the aliasing.
- ResourceProviderExtensions.GetResourceById: the provider is a total function, so the null `provider` case, a `NullReferenceException` at the provider call, is not modelled. The same holds for `ResourceProviderExtensions.GetResourceByName`.
- The `object` values of runtime information are the type parameter `V`. Their own serializability is not modelled.
- The `SingletonInstance` caching and reference identity of a collection are not modelled. The unused `ResourceInformationCollection` singleton fetched at EventInformationCollection.cs:50 is not modelled either. A singleton is the collection its constructor builds.
- The reflection calls themselves (`GetCustomAttribute`, `Enum.GetNames`, `GetField`) are not modelled. They are replaced by the member sequence of `EnumMetadata.EnumType`.
- The iterator protocol of the enumerators is not modelled. An enumeration is the sequence of pairs it yields.
- `ToSecureString` and `ToPlainText` (`SecureString` and unmanaged memory) are not modelled. Neither are the loggers (`TraceLogger`, `WindowsEventLogger`, `DiagnosticUtilities`), `Empty`, or the interfaces without logic.
