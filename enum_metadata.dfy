/** What the two enumeration-metadata tables are built from. Reflection over
    the enumeration type (`Enum.GetNames`, `GetField`, `GetCustomAttribute`)
    is replaced by the sequence of its members in the order `Enum.GetNames`
    reports them; the table itself is the outcome of the constructors'
    check-then-`Add` loop, in which the first entry for a key wins. */
module EnumMetadata {
  import opened Wrappers

  /** One enumeration member: its name, its underlying integer value and the
      attribute on its field, if any. */
  datatype EnumMember<A> = EnumMember(name: string, value: int, attribute: Option<A>)

  /** The enumeration type itself, as the constructors inspect it:
      `underlyingIsInt32` says whether its underlying type is `int`, the only
      one a boxed member can be unboxed to with an `(int)` cast. */
  datatype EnumType<C, A> = EnumType(
    typeName: string,
    isEnum: bool,
    underlyingIsInt32: bool,
    collectionAttribute: Option<C>,
    members: seq<EnumMember<A>>)

  /** The dictionary a loop of `if (!TryGetValue(key)) Add(key, value)` leaves
      behind after visiting `entries` in order. */
  function FirstWins<K, V>(entries: seq<(K, V)>): (m: map<K, V>)
    ensures m.Keys == set i | 0 <= i < |entries| :: entries[i].0
  {
    if entries == [] then map[]
    else
      var prefix := entries[..|entries| - 1];
      var m := FirstWins(prefix);
      var last := entries[|entries| - 1];
      assert forall i | 0 <= i < |prefix| :: prefix[i] == entries[i];
      if last.0 in m then m else m[last.0 := last.1]
  }

  /** One more round of the loop: the new key is added unless it is already there. */
  lemma FirstWinsSnoc<K, V>(entries: seq<(K, V)>, key: K, value: V)
    ensures FirstWins(entries + [(key, value)]) ==
      if key in FirstWins(entries) then FirstWins(entries) else FirstWins(entries)[key := value]
  {
    assert (entries + [(key, value)])[..|entries|] == entries;
  }

  /** Entry `i` is the first one with its key. */
  predicate IsFirst<K(==), V>(entries: seq<(K, V)>, i: int) {
    0 <= i < |entries| && forall j :: 0 <= j < i ==> entries[j].0 != entries[i].0
  }

  /** The first entry for each key is the one kept; a key no entry has is absent. */
  lemma {:induction false} FirstWinsKeepsFirst<K, V>(entries: seq<(K, V)>, i: int)
    requires IsFirst(entries, i)
    ensures entries[i].0 in FirstWins(entries)
    ensures FirstWins(entries)[entries[i].0] == entries[i].1
  {
    var n := |entries|;
    var prefix := entries[..n - 1];
    if i < n - 1 {
      assert IsFirst(prefix, i) by {
        assert forall j | 0 <= j <= i :: prefix[j] == entries[j];
      }
      FirstWinsKeepsFirst(prefix, i);
    } else {
      assert entries[i].0 !in FirstWins(prefix) by {
        assert forall j | 0 <= j < |prefix| :: prefix[j] == entries[j];
      }
    }
  }
}
