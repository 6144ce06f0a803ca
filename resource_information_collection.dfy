/** `ResourceInformationCollection<T>`: the resource storage name and the
    resource items of a resource enumeration `T`, looked up by resource name
    or by enumeration value. The enumeration is given by its metadata
    (`EnumType`); an enumeration value is its underlying integer. */
module ResourceInformationCollections {
  import opened Wrappers
  import opened EnumMetadata
  import opened ResourceCollectionAttributes
  import opened ResourceItemAttributes

  /** The private `ResourceItem`: a resource name and its default content. */
  datatype ResourceItem = ResourceItem(Name: string, Content: Option<string>)

  type ResourceEnum = EnumType<ResourceCollectionAttribute, ResourceItemAttribute>
  type ResourceMember = EnumMember<ResourceItemAttribute>

  /** A constructed collection: the storage name and the two private tables. */
  datatype ResourceInformationCollection = ResourceInformationCollection(
    StorageName: string,
    nameMapping: map<string, ResourceItem>,
    idMapping: map<int, ResourceItem>)

  /** A member's resource name: its attribute's name, or else the member's own name. */
  function ResourceNameOf(m: ResourceMember): (name: string)
    ensures m.attribute.Some? && m.attribute.value.Name.Some? ==> name == m.attribute.value.Name.value
    ensures m.attribute.None? || m.attribute.value.Name.None? ==> name == m.name
  {
    if m.attribute.Some? && m.attribute.value.Name.Some? then m.attribute.value.Name.value else m.name
  }

  /** The item built for a member: its resource name, and its attribute's content
      (null without an attribute). */
  function ItemOf(m: ResourceMember): (item: ResourceItem)
    ensures item.Name == ResourceNameOf(m)
    ensures item.Content == if m.attribute.Some? then m.attribute.value.Content else None
  {
    ResourceItem(ResourceNameOf(m), if m.attribute.Some? then m.attribute.value.Content else None)
  }

  /** The storage name: the collection attribute's, or else the type's name. */
  function StorageNameOf(t: ResourceEnum): (name: string)
    ensures t.collectionAttribute.Some? && t.collectionAttribute.value.StorageName.Some? ==> Some(name) == t.collectionAttribute.value.StorageName
    ensures t.collectionAttribute.None? || t.collectionAttribute.value.StorageName.None? ==> name == t.typeName
  {
    if t.collectionAttribute.Some? && t.collectionAttribute.value.StorageName.Some? then
      t.collectionAttribute.value.StorageName.value
    else
      t.typeName
  }

  /** The `(value, item)` pairs the constructor offers to the id table, in member order. */
  function IdEntries(members: seq<ResourceMember>): (entries: seq<(int, ResourceItem)>)
    ensures |entries| == |members|
    ensures forall i :: 0 <= i < |members| ==> entries[i] == (members[i].value, ItemOf(members[i]))
  {
    if members == [] then []
    else IdEntries(members[..|members| - 1]) + [(members[|members| - 1].value, ItemOf(members[|members| - 1]))]
  }

  /** The `(resource name, item)` pairs the constructor offers to the name table. */
  function NameEntries(members: seq<ResourceMember>): (entries: seq<(string, ResourceItem)>)
    ensures |entries| == |members|
    ensures forall i :: 0 <= i < |members| ==> entries[i] == (ResourceNameOf(members[i]), ItemOf(members[i]))
  {
    if members == [] then []
    else NameEntries(members[..|members| - 1]) + [(ResourceNameOf(members[|members| - 1]), ItemOf(members[|members| - 1]))]
  }

  /** One round of the constructor's loop offers member `i` to both tables. */
  lemma EntriesSnoc(members: seq<ResourceMember>, i: int)
    requires 0 <= i < |members|
    ensures FirstWins(IdEntries(members[..i + 1])) ==
      var m := FirstWins(IdEntries(members[..i]));
      if members[i].value in m then m else m[members[i].value := ItemOf(members[i])]
    ensures FirstWins(NameEntries(members[..i + 1])) ==
      var m := FirstWins(NameEntries(members[..i]));
      if ResourceNameOf(members[i]) in m then m else m[ResourceNameOf(members[i]) := ItemOf(members[i])]
  {
    assert members[..i + 1][..i] == members[..i];
    FirstWinsSnoc(IdEntries(members[..i]), members[i].value, ItemOf(members[i]));
    FirstWinsSnoc(NameEntries(members[..i]), ResourceNameOf(members[i]), ItemOf(members[i]));
  }

  /** What the constructor builds. `Enum.GetNames` throws `ArgumentException`
      for a type that is not an enumeration (the source only marks that case
      for logging). Otherwise every member's value and resource name is in
      the tables, the first member with a given value or name winning. */
  function Collect(t: ResourceEnum): (r: Result<ResourceInformationCollection>)
    ensures r.Throws? <==> !t.isEnum
    ensures r.Throws? ==> r.error == ArgumentException
    ensures r.Ok? ==> r.value.StorageName == StorageNameOf(t)
    ensures r.Ok? ==> r.value.idMapping.Keys == set i | 0 <= i < |t.members| :: t.members[i].value
    ensures r.Ok? ==> r.value.nameMapping.Keys == set i | 0 <= i < |t.members| :: ResourceNameOf(t.members[i])
  {
    if !t.isEnum then Throws(ArgumentException)
    else
      var ids := IdEntries(t.members);
      var names := NameEntries(t.members);
      assert (set i | 0 <= i < |ids| :: ids[i].0) == set i | 0 <= i < |t.members| :: t.members[i].value;
      assert (set i | 0 <= i < |names| :: names[i].0) == set i | 0 <= i < |t.members| :: ResourceNameOf(t.members[i]);
      Ok(ResourceInformationCollection(StorageNameOf(t), FirstWins(names), FirstWins(ids)))
  }

  /** ResourceInformationCollection.cs:34-101: the constructor, visiting the
      members in `Enum.GetNames` order. */
  method NewResourceInformationCollection(t: ResourceEnum) returns (r: Result<ResourceInformationCollection>)
    ensures r == Collect(t)
  {
    var nameMapping: map<string, ResourceItem> := map[];
    var idMapping: map<int, ResourceItem> := map[];
    var storageName: Option<string> := None;
    if t.collectionAttribute.Some? {
      storageName := t.collectionAttribute.value.StorageName;
    }
    var storage := if storageName.Some? then storageName.value else t.typeName;
    if !t.isEnum {
      return Throws(ArgumentException);
    }
    var members := t.members;
    for i := 0 to |members|
      invariant idMapping == FirstWins(IdEntries(members[..i]))
      invariant nameMapping == FirstWins(NameEntries(members[..i]))
    {
      var member := members[i];
      var resourceName: Option<string> := None;
      var content: Option<string> := None;
      if member.attribute.Some? {
        resourceName := member.attribute.value.Name;
        content := member.attribute.value.Content;
      }
      if resourceName.None? {
        resourceName := Some(member.name);
      }
      var resourceItem := ResourceItem(resourceName.value, content);
      assert resourceItem == ItemOf(member) && resourceName.value == ResourceNameOf(member);
      EntriesSnoc(members, i);
      if member.value !in idMapping {
        idMapping := idMapping[member.value := resourceItem];
      }
      if resourceName.value !in nameMapping {
        nameMapping := nameMapping[resourceName.value := resourceItem];
      }
    }
    assert members[..|members|] == members;
    r := Ok(ResourceInformationCollection(storage, nameMapping, idMapping));
  }

  /** `GetContent(name)`: `ArgumentNullException` for a null name; the item's
      content when the name is in the table; null otherwise. */
  function GetContent(c: ResourceInformationCollection, name: Option<string>): (r: Result<Option<string>>)
    ensures name.None? <==> r.Throws?
    ensures r.Throws? ==> r.error == ArgumentNullException("name")
    ensures name.Some? && name.value in c.nameMapping ==> r == Ok(c.nameMapping[name.value].Content)
    ensures name.Some? && name.value !in c.nameMapping ==> r == Ok(None)
  {
    if name.None? then Throws(ArgumentNullException("name"))
    else if name.value in c.nameMapping then Ok(c.nameMapping[name.value].Content)
    else Ok(None)
  }

  /** `TryGetResourceInformation(resourceId, out information)`: the flag, and
      the (resource name, content) pair, which is the default pair of two
      nulls when the id is unknown. */
  function TryGetResourceInformation(c: ResourceInformationCollection, resourceId: int): (r: (bool, (Option<string>, Option<string>)))
    ensures r.0 <==> resourceId in c.idMapping
    ensures r.0 ==> r.1 == (Some(c.idMapping[resourceId].Name), c.idMapping[resourceId].Content)
    ensures !r.0 ==> r.1 == (None, None)
  {
    if resourceId in c.idMapping then
      var item := c.idMapping[resourceId];
      (true, (Some(item.Name), item.Content))
    else
      (false, (None, None))
  }

  /** Member `i` is the first with its value. */
  predicate FirstWithValue(members: seq<ResourceMember>, i: int) {
    0 <= i < |members| && forall j :: 0 <= j < i ==> members[j].value != members[i].value
  }

  /** Member `i` is the first with its resource name. */
  predicate FirstWithResourceName(members: seq<ResourceMember>, i: int) {
    0 <= i < |members| && forall j :: 0 <= j < i ==> ResourceNameOf(members[j]) != ResourceNameOf(members[i])
  }

  /** Looking up the resource name of the first member that has it gives that
      member's content. */
  lemma ContentOfFirstNamed(t: ResourceEnum, i: int)
    requires t.isEnum && FirstWithResourceName(t.members, i)
    ensures GetContent(Collect(t).value, Some(ResourceNameOf(t.members[i]))) == Ok(ItemOf(t.members[i]).Content)
  {
    var entries := NameEntries(t.members);
    assert IsFirst(entries, i);
    FirstWinsKeepsFirst(entries, i);
  }

  /** A name that is no member's resource name has null content. */
  lemma ContentOfUnknownName(t: ResourceEnum, name: string)
    requires t.isEnum
    requires forall i :: 0 <= i < |t.members| ==> ResourceNameOf(t.members[i]) != name
    ensures GetContent(Collect(t).value, Some(name)) == Ok(None)
  {
  }

  /** Looking up the value of the first member that has it gives that member's
      resource name and content. */
  lemma InformationOfFirstValued(t: ResourceEnum, i: int)
    requires t.isEnum && FirstWithValue(t.members, i)
    ensures TryGetResourceInformation(Collect(t).value, t.members[i].value)
         == (true, (Some(ResourceNameOf(t.members[i])), ItemOf(t.members[i]).Content))
  {
    var entries := IdEntries(t.members);
    assert IsFirst(entries, i);
    FirstWinsKeepsFirst(entries, i);
  }

  /** A value no member has is not found, and the default pair is returned. */
  lemma InformationOfUnknownValue(t: ResourceEnum, id: int)
    requires t.isEnum
    requires forall i :: 0 <= i < |t.members| ==> t.members[i].value != id
    ensures TryGetResourceInformation(Collect(t).value, id) == (false, (None, None))
  {
  }

  /** ResourceInformationCollectionUnitTest.cs:118-150: for an enumeration whose
      members have distinct values and distinct resource names, each member is
      found by its resource name and by its value, with the attribute's
      content, and the storage name is the attribute's or else the type name. */
  lemma DistinctMembersAreFound(t: ResourceEnum, i: int)
    requires t.isEnum && 0 <= i < |t.members|
    requires forall j, k :: 0 <= j < k < |t.members| ==> t.members[j].value != t.members[k].value
    requires forall j, k :: 0 <= j < k < |t.members| ==> ResourceNameOf(t.members[j]) != ResourceNameOf(t.members[k])
    ensures Collect(t).value.StorageName == StorageNameOf(t)
    ensures GetContent(Collect(t).value, Some(ResourceNameOf(t.members[i]))) == Ok(ItemOf(t.members[i]).Content)
    ensures TryGetResourceInformation(Collect(t).value, t.members[i].value)
         == (true, (Some(ResourceNameOf(t.members[i])), ItemOf(t.members[i]).Content))
  {
    ContentOfFirstNamed(t, i);
    InformationOfFirstValued(t, i);
  }

  /** A later member that repeats an earlier one's value does not replace it:
      the id table keeps the earlier member's item. */
  lemma RepeatedValueKeepsFirst(t: ResourceEnum, i: int, j: int)
    requires t.isEnum && FirstWithValue(t.members, i) && i < j < |t.members|
    requires t.members[j].value == t.members[i].value
    ensures Collect(t).value.idMapping[t.members[j].value] == ItemOf(t.members[i])
  {
    InformationOfFirstValued(t, i);
  }
}
