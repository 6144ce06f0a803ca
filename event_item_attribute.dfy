/** `EventItemAttribute`: the level of one member of an event enumeration. */
module EventItemAttributes {
  import opened EventLevels

  /** `EventItemAttribute.DefaultEventLevel`. */
  const DefaultEventLevel: EventLevel := EventLevel.Error

  /** `Level` is get-only: an attribute value never changes once built. */
  datatype EventItemAttribute = EventItemAttribute(Level: EventLevel)

  /** The constructor `EventItemAttribute(EventLevel level)`. */
  function NewEventItemAttribute(level: EventLevel): (a: EventItemAttribute)
    ensures a.Level == level
  {
    EventItemAttribute(level)
  }

  /** The parameterless constructor, which chains to the level form with
      `DefaultEventLevel`. */
  function NewDefaultEventItemAttribute(): (a: EventItemAttribute)
    ensures a.Level == DefaultEventLevel && a.Level == Error
  {
    NewEventItemAttribute(DefaultEventLevel)
  }

  /** EventItemAttributeUnitTest.cs: the level form keeps each of the five
      levels, and two attributes are equal exactly when their levels are. */
  lemma LevelIsKept(level: EventLevel, other: EventLevel)
    ensures NewEventItemAttribute(level).Level == level
    ensures NewEventItemAttribute(level) == NewEventItemAttribute(other) <==> level == other
    ensures NewDefaultEventItemAttribute() == NewEventItemAttribute(Error)
  {
  }
}
