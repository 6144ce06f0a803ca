/** `IResourceProviderExtensions`: look a resource up in its storage through an
    `IResourceProvider`, and fall back to the default content the enumeration
    declares. The provider is a parameter: a function from a storage name and
    a key to the stored resource, null for a resource it does not have. The
    singleton collection of an enumeration is the one its constructor builds;
    when that constructor throws, the singleton's type initializer fails. */
module ResourceProviderExtensions {
  import opened Wrappers
  import opened ResourceInformationCollections

  /** `IResourceProvider.GetResource(storageName, key)`. */
  type ResourceProvider = (string, Option<string>) -> Option<string>

  /** `SingletonInstance<ResourceInformationCollection<T>>.Instance`. */
  function Singleton(t: ResourceEnum): (r: Result<ResourceInformationCollection>)
    ensures r.Ok? <==> Collect(t).Ok?
    ensures r.Ok? ==> r == Collect(t)
    ensures r.Throws? ==> r.error == TypeInitializationException
  {
    match Collect(t)
    case Ok(c) => Ok(c)
    case Throws(_) => Throws(TypeInitializationException)
  }

  /** `GetResource<T>(provider, id)`: for a known id, the provider's resource
      for its resource name in the collection's storage, or else its default
      content; null for an unknown id (the provider is then not asked). */
  function GetResourceById(provider: ResourceProvider, t: ResourceEnum, id: int): (r: Result<Option<string>>)
    ensures r.Throws? <==> !t.isEnum
    ensures r.Throws? ==> r.error == TypeInitializationException
  {
    var c :- Singleton(t);
    var (found, pair) := TryGetResourceInformation(c, id);
    if found then
      var resource := provider(c.StorageName, pair.0);
      Ok(if resource.Some? then resource else pair.1)
    else
      Ok(None)
  }

  /** `GetResource<T>(provider, name)`: the provider's resource for `name` in
      the collection's storage, or else the collection's content for `name`,
      which throws `ArgumentNullException` for a null name. */
  function GetResourceByName(provider: ResourceProvider, t: ResourceEnum, name: Option<string>): (r: Result<Option<string>>)
    ensures !t.isEnum ==> r == Throws(TypeInitializationException)
    ensures t.isEnum && r.Throws? ==> name.None? && r.error == ArgumentNullException("name")
    ensures t.isEnum && name.Some? ==> r.Ok?
  {
    var c :- Singleton(t);
    var resource := provider(c.StorageName, name);
    if resource.Some? then Ok(resource) else GetContent(c, name)
  }

  /** IResourceProviderExtensions.cs:43-54, for the first member with a value:
      the provider is asked for that member's resource name in the storage
      named by the collection attribute (or the type), and its answer wins
      over the member's default content. */
  lemma ResourceByIdOfMember(provider: ResourceProvider, t: ResourceEnum, i: int)
    requires t.isEnum && FirstWithValue(t.members, i)
    ensures var stored := provider(StorageNameOf(t), Some(ResourceNameOf(t.members[i])));
      GetResourceById(provider, t, t.members[i].value) ==
        Ok(if stored.Some? then stored else ItemOf(t.members[i]).Content)
  {
    InformationOfFirstValued(t, i);
  }

  /** An id no member has gives null. */
  lemma ResourceByUnknownId(provider: ResourceProvider, t: ResourceEnum, id: int)
    requires t.isEnum
    requires forall i :: 0 <= i < |t.members| ==> t.members[i].value != id
    ensures GetResourceById(provider, t, id) == Ok(None)
  {
    InformationOfUnknownValue(t, id);
  }

  /** IResourceProviderExtensions.cs:87-92, for the first member with a resource
      name: the stored resource wins over that member's default content. */
  lemma ResourceByNameOfMember(provider: ResourceProvider, t: ResourceEnum, i: int)
    requires t.isEnum && FirstWithResourceName(t.members, i)
    ensures var stored := provider(StorageNameOf(t), Some(ResourceNameOf(t.members[i])));
      GetResourceByName(provider, t, Some(ResourceNameOf(t.members[i]))) ==
        Ok(if stored.Some? then stored else ItemOf(t.members[i]).Content)
  {
    ContentOfFirstNamed(t, i);
  }

  /** A name no member has gives the stored resource, or else null. */
  lemma ResourceByUnknownName(provider: ResourceProvider, t: ResourceEnum, name: string)
    requires t.isEnum
    requires forall i :: 0 <= i < |t.members| ==> ResourceNameOf(t.members[i]) != name
    ensures GetResourceByName(provider, t, Some(name)) == Ok(provider(StorageNameOf(t), Some(name)))
  {
    ContentOfUnknownName(t, name);
  }

  /** A null name reaches the provider; when it has nothing, the fallback
      throws `ArgumentNullException`. */
  lemma ResourceByNullName(provider: ResourceProvider, t: ResourceEnum)
    requires t.isEnum
    ensures var stored := provider(StorageNameOf(t), None);
      GetResourceByName(provider, t, None) ==
        if stored.Some? then Ok(stored) else Throws(ArgumentNullException("name"))
  {
  }

  /** Both lookups fail for a type that is not an enumeration. */
  lemma NotAnEnumeration(provider: ResourceProvider, t: ResourceEnum, id: int, name: Option<string>)
    requires !t.isEnum
    ensures GetResourceById(provider, t, id) == Throws(TypeInitializationException)
    ensures GetResourceByName(provider, t, name) == Throws(TypeInitializationException)
  {
  }
}
