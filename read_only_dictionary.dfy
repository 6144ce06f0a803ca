/** `ReadOnlyDictionary<TKey, TValue>`: a wrapper that answers every read
    from an `IDictionary` and offers no way to change it. It holds the
    wrapped dictionary's entries as they were when the wrapper was built. The wrapped
    dictionary is modelled by its entries in enumeration order; keys of an
    `IDictionary` are distinct, so that is part of its type. */
module ReadOnlyDictionaries {
  import opened Wrappers

  predicate DistinctKeys<K(==), V>(s: seq<(K, V)>) {
    forall i, j :: 0 <= i < j < |s| ==> s[i].0 != s[j].0
  }

  /** An `IDictionary<K, V>`: its entries in enumeration order. */
  type Entries<K(==), V> = s: seq<(K, V)> | DistinctKeys(s) witness []

  /** Holds the wrapped dictionary's entries as they were when the wrapper was built. */
  datatype ReadOnlyDictionary<K(==), V> = ReadOnlyDictionary(reference: Entries<K, V>)

  /** The key-to-value map that a sequence of entries denotes. */
  function AsMap<K(==), V>(s: seq<(K, V)>): (m: map<K, V>)
    ensures m.Keys == set i | 0 <= i < |s| :: s[i].0
  {
    if s == [] then map[]
    else
      var prefix := s[..|s| - 1];
      assert forall i | 0 <= i < |prefix| :: prefix[i] == s[i];
      AsMap(prefix)[s[|s| - 1].0 := s[|s| - 1].1]
  }

  /** Every entry of a dictionary is in its map. */
  lemma {:induction false} AsMapHasEntry<K, V>(s: Entries<K, V>, i: int)
    requires 0 <= i < |s|
    ensures s[i].0 in AsMap(s) && AsMap(s)[s[i].0] == s[i].1
  {
    var prefix := s[..|s| - 1];
    if i < |s| - 1 {
      assert prefix[i] == s[i];
      AsMapHasEntry(prefix, i);
    }
  }

  /** A dictionary has as many entries as its map has keys. */
  lemma {:induction false} AsMapSize<K, V>(s: Entries<K, V>)
    ensures |AsMap(s)| == |s|
  {
    if s != [] {
      var prefix := s[..|s| - 1];
      AsMapSize(prefix);
      assert s[|s| - 1].0 !in AsMap(prefix) by {
        assert forall i | 0 <= i < |prefix| :: prefix[i] == s[i];
      }
    }
  }

  /** The underlying dictionary's lookup of `key`. */
  function Find<K(==), V>(s: seq<(K, V)>, key: K): (r: Option<V>)
    ensures r.Some? <==> key in AsMap(s)
    ensures r.Some? ==> r.value == AsMap(s)[key]
  {
    if s == [] then None
    else if s[|s| - 1].0 == key then Some(s[|s| - 1].1)
    else Find(s[..|s| - 1], key)
  }

  /** The constructor: a null dictionary throws `ArgumentNullException` naming
      the parameter `reference`; otherwise the wrapper holds the dictionary's entries as they are now. */
  function NewReadOnlyDictionary<K(==), V>(reference: Option<Entries<K, V>>): (r: Result<ReadOnlyDictionary<K, V>>)
    ensures r.Throws? <==> reference.None?
    ensures r.Throws? ==> r.error == ArgumentNullException("reference")
    ensures r.Ok? ==> r.value.reference == reference.value
  {
    if reference.None? then Throws(ArgumentNullException("reference"))
    else Ok(ReadOnlyDictionary(reference.value))
  }

  /** `Count`: the number of keys of the underlying dictionary. */
  function Count<K(==), V>(d: ReadOnlyDictionary<K, V>): (n: nat)
    ensures n == |AsMap(d.reference)|
  {
    AsMapSize(d.reference);
    |d.reference|
  }

  /** `Keys`: every key of the underlying dictionary once, in its order. */
  function Keys<K(==), V>(d: ReadOnlyDictionary<K, V>): (ks: seq<K>)
    ensures |ks| == Count(d)
    ensures (set i | 0 <= i < |ks| :: ks[i]) == AsMap(d.reference).Keys
    ensures forall i, j :: 0 <= i < j < |ks| ==> ks[i] != ks[j]
  {
    var s := d.reference;
    var ks := seq(|s|, i requires 0 <= i < |s| => s[i].0);
    var named := set i | 0 <= i < |ks| :: ks[i];
    assert named == (set i | 0 <= i < |s| :: s[i].0) by {
      forall i | 0 <= i < |s| ensures s[i].0 in named {
        assert ks[i] == s[i].0;
      }
    }
    ks
  }

  /** `Values`: the underlying values, position by position with `Keys`. */
  function Values<K(==), V>(d: ReadOnlyDictionary<K, V>): (vs: seq<V>)
    ensures |vs| == Count(d)
    ensures forall i :: 0 <= i < |vs| ==> Keys(d)[i] in AsMap(d.reference) && vs[i] == AsMap(d.reference)[Keys(d)[i]]
  {
    var s := d.reference;
    forall i | 0 <= i < |s| ensures s[i].0 in AsMap(s) && AsMap(s)[s[i].0] == s[i].1 {
      AsMapHasEntry(s, i);
    }
    seq(|s|, i requires 0 <= i < |s| => s[i].1)
  }

  /** The indexer: the underlying value, or `KeyNotFoundException`. */
  function Item<K(==), V>(d: ReadOnlyDictionary<K, V>, key: K): (r: Result<V>)
    ensures r.Ok? <==> key in AsMap(d.reference)
    ensures r.Ok? ==> r.value == AsMap(d.reference)[key]
    ensures r.Throws? ==> r.error == KeyNotFoundException
  {
    match Find(d.reference, key)
    case Some(v) => Ok(v)
    case None => Throws(KeyNotFoundException)
  }

  /** `ContainsKey` agrees with the underlying dictionary. */
  function ContainsKey<K(==), V>(d: ReadOnlyDictionary<K, V>, key: K): (b: bool)
    ensures b <==> key in AsMap(d.reference)
  {
    Find(d.reference, key).Some?
  }

  /** `TryGetValue(key, out value)`: the returned flag, and the out value,
      which is `None` (the type's default) when the key is absent. */
  function TryGetValue<K(==), V>(d: ReadOnlyDictionary<K, V>, key: K): (r: (bool, Option<V>))
    ensures r.0 <==> key in AsMap(d.reference)
    ensures r.0 ==> r.1 == Some(AsMap(d.reference)[key])
    ensures !r.0 ==> r.1 == None
  {
    var found := Find(d.reference, key);
    (found.Some?, found)
  }

  /** Both enumerators (generic and non-generic) hand out the underlying
      dictionary's pairs: exactly `Count` of them, each one a key with its
      value, and every key of the dictionary among them. */
  function GetEnumerator<K(==), V>(d: ReadOnlyDictionary<K, V>): (pairs: seq<(K, V)>)
    ensures |pairs| == Count(d)
    ensures forall i :: 0 <= i < |pairs| ==> pairs[i].0 in AsMap(d.reference) && AsMap(d.reference)[pairs[i].0] == pairs[i].1
    ensures (set i | 0 <= i < |pairs| :: pairs[i].0) == AsMap(d.reference).Keys
  {
    var s := d.reference;
    forall i | 0 <= i < |s| ensures s[i].0 in AsMap(s) && AsMap(s)[s[i].0] == s[i].1 {
      AsMapHasEntry(s, i);
    }
    s
  }

  /** ReadOnlyDictionaryUnitTest.cs: looking up every key of the original gives
      its value through the indexer and `TryGetValue`, and `ContainsKey` is
      true for it. */
  lemma {:induction false} LookupsAgree<K, V>(d: ReadOnlyDictionary<K, V>, i: int)
    requires 0 <= i < |d.reference|
    ensures Item(d, d.reference[i].0) == Ok(d.reference[i].1)
    ensures ContainsKey(d, d.reference[i].0)
    ensures TryGetValue(d, d.reference[i].0) == (true, Some(d.reference[i].1))
  {
    AsMapHasEntry(d.reference, i);
  }
}
