/** `CollectionExtensions`: the three null-or-empty tests, one per .NET
    collection interface. A collection is modelled by the sequence of its items;
    `Count` is the sequence's length. */
module CollectionExtensions {
  import opened Wrappers

  /** `IsReadWriteNullOrEmpty` over an `ICollection<T>`. */
  predicate IsReadWriteNullOrEmpty<T>(collection: Option<seq<T>>)
  {
    collection.None? || |collection.value| < 1
  }

  /** `IsReadOnlyNullOrEmpty` over an `IReadOnlyCollection<T>`. */
  predicate IsReadOnlyNullOrEmpty<T>(collection: Option<seq<T>>)
  {
    collection.None? || |collection.value| < 1
  }

  /** `IsNullOrEmpty` over a non-generic `ICollection`. */
  predicate IsNullOrEmpty<T>(collection: Option<seq<T>>)
  {
    collection.None? || |collection.value| < 1
  }

  /** Each test holds exactly for null and for a collection without items, and
      the three overloads agree on every collection. */
  lemma NullOrEmptyCases<T>(collection: Option<seq<T>>)
    ensures IsNullOrEmpty(collection) <==> collection == None || collection == Some([])
    ensures IsReadWriteNullOrEmpty(collection) == IsReadOnlyNullOrEmpty(collection) == IsNullOrEmpty(collection)
  {
  }

  /** CollectionExtensionsUnitTest.cs: null, an empty array, arrays of 1, 2 and 10 items. */
  lemma NullOrEmptyExamples(one: seq<int>, two: seq<int>, ten: seq<int>)
    requires |one| == 1 && |two| == 2 && |ten| == 10
    ensures IsNullOrEmpty<int>(None) && IsReadOnlyNullOrEmpty<int>(None) && IsReadWriteNullOrEmpty<int>(None)
    ensures IsNullOrEmpty<int>(Some([])) && IsReadOnlyNullOrEmpty<int>(Some([])) && IsReadWriteNullOrEmpty<int>(Some([]))
    ensures !IsNullOrEmpty(Some(one)) && !IsReadOnlyNullOrEmpty(Some(one)) && !IsReadWriteNullOrEmpty(Some(one))
    ensures !IsNullOrEmpty(Some(two)) && !IsReadOnlyNullOrEmpty(Some(two)) && !IsReadWriteNullOrEmpty(Some(two))
    ensures !IsNullOrEmpty(Some(ten)) && !IsReadOnlyNullOrEmpty(Some(ten)) && !IsReadWriteNullOrEmpty(Some(ten))
  {
  }
}
