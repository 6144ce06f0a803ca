/** `ResourceCollectionAttribute`: names the resource storage of a resource
    enumeration. Its one property is fixed by the constructor. */
module ResourceCollectionAttributes {
  import opened Wrappers
  import opened StringExtensions

  datatype ResourceCollectionAttribute = ResourceCollectionAttribute(StorageName: Option<string>)

  /** The constructor `ResourceCollectionAttribute(string resourceStorageName)`:
      the storage name is the trimmed argument, and null when the argument is
      null or blank. */
  function NewResourceCollectionAttribute(resourceStorageName: Option<string>): (a: ResourceCollectionAttribute)
    ensures a.StorageName.None? <==> resourceStorageName.None? || AllWhiteSpace(resourceStorageName.value)
    ensures a.StorageName.Some? ==> a.StorageName.value != [] && IsTrimmed(a.StorageName.value)
    ensures a.StorageName.Some? ==> a.StorageName.value == Trim(resourceStorageName.value)
  {
    ResourceCollectionAttribute(SafeTrim(resourceStorageName))
  }

  /** ResourceCollectionAttributeUnitTest.cs: null, empty and blank names give a
      null storage name; a padded name is trimmed and a trimmed one kept. */
  lemma StorageNameCases(name: string)
    requires name != [] && IsTrimmed(name)
    ensures NewResourceCollectionAttribute(None).StorageName == None
    ensures NewResourceCollectionAttribute(Some("")).StorageName == None
    ensures NewResourceCollectionAttribute(Some(" \r\n ")).StorageName == None
    ensures NewResourceCollectionAttribute(Some(" \r\n " + name + "  ")).StorageName == Some(name)
    ensures NewResourceCollectionAttribute(Some(name)).StorageName == Some(name)
  {
    var blank := " \r\n ";
    assert AllWhiteSpace(blank) by {
      forall i | 0 <= i < |blank| ensures IsWhiteSpace(blank[i]) {}
    }
    SafeTrimOfPadded(" \r\n ", name, "  ");
    SafeTrimOfTrimmed(name);
  }
}
