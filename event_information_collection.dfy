/** `EventInformationCollection<T>`: the event source name and the event
    items (name, id, level) of an event enumeration `T`, looked up by
    enumeration value. The enumeration is given by its metadata. */
module EventInformationCollections {
  import opened Wrappers
  import opened EnumMetadata
  import opened EventLevels
  import opened EventCollectionAttributes
  import opened EventItemAttributes

  /** `EventItemInformation`: an event's name, id and level. */
  datatype EventItemInformation = EventItemInformation(Name: string, Id: int, Level: EventLevel)

  type EventEnum = EnumType<EventCollectionAttribute, EventItemAttribute>
  type EventMember = EnumMember<EventItemAttribute>

  /** A constructed collection. For a type that is not an enumeration both the
      source name and the table stay null. */
  datatype EventInformationCollection = EventInformationCollection(
    SourceName: Option<string>,
    eventInformationCollection: Option<map<int, EventItemInformation>>)

  /** A member's level: its attribute's, or `DefaultEventLevel` without one. */
  function LevelOf(m: EventMember): (level: EventLevel)
    ensures m.attribute.None? ==> level == DefaultEventLevel
    ensures m.attribute.Some? ==> level == m.attribute.value.Level
  {
    if m.attribute.None? then DefaultEventLevel else m.attribute.value.Level
  }

  /** The item built for a member: its field name, value and level. */
  function EventItemOf(m: EventMember): (item: EventItemInformation)
    ensures item.Name == m.name && item.Id == m.value && item.Level == LevelOf(m)
  {
    EventItemInformation(m.name, m.value, LevelOf(m))
  }

  /** The source name: the collection attribute's, or else the type's name. */
  function SourceNameOf(t: EventEnum): (name: string)
    ensures t.collectionAttribute.Some? && t.collectionAttribute.value.SourceName.Some? ==> Some(name) == t.collectionAttribute.value.SourceName
    ensures t.collectionAttribute.None? || t.collectionAttribute.value.SourceName.None? ==> name == t.typeName
  {
    if t.collectionAttribute.Some? && t.collectionAttribute.value.SourceName.Some? then
      t.collectionAttribute.value.SourceName.value
    else
      t.typeName
  }

  /** The `(value, item)` pairs the constructor offers to the table, in member order. */
  function EventEntries(members: seq<EventMember>): (entries: seq<(int, EventItemInformation)>)
    ensures |entries| == |members|
    ensures forall i :: 0 <= i < |members| ==> entries[i] == (members[i].value, EventItemOf(members[i]))
  {
    if members == [] then []
    else EventEntries(members[..|members| - 1]) + [(members[|members| - 1].value, EventItemOf(members[|members| - 1]))]
  }

  /** What the constructor builds. A type that is not an enumeration leaves
      the collection empty (the source only marks the case for logging); an
      enumeration with a member whose underlying type is not `int` throws
      `InvalidCastException` at the `(int)` cast; otherwise every member's
      value is in the table, the first member with a value winning. */
  function Collect(t: EventEnum): (r: Result<EventInformationCollection>)
    ensures r.Throws? <==> t.isEnum && !t.underlyingIsInt32 && t.members != []
    ensures r.Throws? ==> r.error == InvalidCastException
    ensures r.Ok? && !t.isEnum ==> r.value == EventInformationCollection(None, None)
    ensures r.Ok? && t.isEnum ==> r.value.SourceName == Some(SourceNameOf(t)) && r.value.eventInformationCollection.Some?
    ensures r.Ok? && t.isEnum ==> r.value.eventInformationCollection.value.Keys == set i | 0 <= i < |t.members| :: t.members[i].value
  {
    if !t.isEnum then Ok(EventInformationCollection(None, None))
    else if !t.underlyingIsInt32 && t.members != [] then Throws(InvalidCastException)
    else
      var entries := EventEntries(t.members);
      assert (set i | 0 <= i < |entries| :: entries[i].0) == set i | 0 <= i < |t.members| :: t.members[i].value;
      Ok(EventInformationCollection(Some(SourceNameOf(t)), Some(FirstWins(entries))))
  }

  /** One round of the constructor's loop offers member `i` to the table. */
  lemma EventEntriesSnoc(members: seq<EventMember>, i: int)
    requires 0 <= i < |members|
    ensures FirstWins(EventEntries(members[..i + 1])) ==
      var m := FirstWins(EventEntries(members[..i]));
      if members[i].value in m then m else m[members[i].value := EventItemOf(members[i])]
  {
    assert members[..i + 1][..i] == members[..i];
    FirstWinsSnoc(EventEntries(members[..i]), members[i].value, EventItemOf(members[i]));
  }

  /** EventInformationCollection.cs:31-91: the constructor, visiting the
      members in `Enum.GetNames` order. */
  method NewEventInformationCollection(t: EventEnum) returns (r: Result<EventInformationCollection>)
    ensures r == Collect(t)
  {
    var table: map<int, EventItemInformation> := map[];
    if !t.isEnum {
      return Ok(EventInformationCollection(None, None));
    }
    var sourceName: Option<string> := None;
    if t.collectionAttribute.Some? {
      sourceName := t.collectionAttribute.value.SourceName;
    }
    var source := if sourceName.Some? then sourceName.value else t.typeName;
    var members := t.members;
    for i := 0 to |members|
      invariant i > 0 ==> t.underlyingIsInt32
      invariant table == FirstWins(EventEntries(members[..i]))
    {
      var member := members[i];
      var level: EventLevel;
      if member.attribute.None? {
        level := DefaultEventLevel;
      } else {
        level := member.attribute.value.Level;
      }
      if !t.underlyingIsInt32 {
        return Throws(InvalidCastException);
      }
      var eventItem := EventItemInformation(member.name, member.value, level);
      assert eventItem == EventItemOf(member);
      EventEntriesSnoc(members, i);
      if member.value !in table {
        table := table[member.value := eventItem];
      }
    }
    assert members[..|members|] == members;
    r := Ok(EventInformationCollection(Some(source), Some(table)));
  }

  /** The indexer `this[T id]`: the item for `id`, or null when it is unknown.
      On the empty collection of a type that is not an enumeration the table
      is null and the lookup throws `NullReferenceException`. */
  function Item(c: EventInformationCollection, id: int): (r: Result<Option<EventItemInformation>>)
    ensures r.Throws? <==> c.eventInformationCollection.None?
    ensures r.Throws? ==> r.error == NullReferenceException
    ensures r.Ok? ==> (r.value.Some? <==> id in c.eventInformationCollection.value)
    ensures r.Ok? && r.value.Some? ==> r.value.value == c.eventInformationCollection.value[id]
  {
    match c.eventInformationCollection
    case None => Throws(NullReferenceException)
    case Some(table) => Ok(if id in table then Some(table[id]) else None)
  }

  /** Member `i` is the first with its value. */
  predicate FirstWithValue(members: seq<EventMember>, i: int) {
    0 <= i < |members| && forall j :: 0 <= j < i ==> members[j].value != members[i].value
  }

  /** Looking up the value of the first member that has it gives that member's
      name, its value as the id, and its attribute's level or else the default
      level `Error`. */
  lemma ItemOfFirstValued(t: EventEnum, i: int)
    requires t.isEnum && t.underlyingIsInt32 && FirstWithValue(t.members, i)
    ensures Item(Collect(t).value, t.members[i].value) == Ok(Some(EventItemOf(t.members[i])))
    ensures t.members[i].attribute.None? ==> EventItemOf(t.members[i]).Level == Error
  {
    var entries := EventEntries(t.members);
    assert IsFirst(entries, i);
    FirstWinsKeepsFirst(entries, i);
  }

  /** A value no member has gives null. */
  lemma ItemOfUnknownValue(t: EventEnum, id: int)
    requires t.isEnum && t.underlyingIsInt32
    requires forall i :: 0 <= i < |t.members| ==> t.members[i].value != id
    ensures Item(Collect(t).value, id) == Ok(None)
  {
  }

  /** EventInformationCollectionUnitTest.cs:115-133: the source name is the
      attribute's or else the type name, and for members with distinct values
      each one is found with its own name, id and level. */
  lemma DistinctMembersAreFound(t: EventEnum, i: int)
    requires t.isEnum && t.underlyingIsInt32 && 0 <= i < |t.members|
    requires forall j, k :: 0 <= j < k < |t.members| ==> t.members[j].value != t.members[k].value
    ensures Collect(t).value.SourceName == Some(SourceNameOf(t))
    ensures Item(Collect(t).value, t.members[i].value) == Ok(Some(EventItemInformation(t.members[i].name, t.members[i].value, LevelOf(t.members[i]))))
  {
    ItemOfFirstValued(t, i);
  }

  /** For a type that is not an enumeration the constructor succeeds, leaves
      the source name null, and every lookup then throws. */
  lemma NotAnEnumeration(t: EventEnum, id: int)
    requires !t.isEnum
    ensures Collect(t).Ok? && Collect(t).value.SourceName == None
    ensures Item(Collect(t).value, id) == Throws(NullReferenceException)
  {
  }
}
