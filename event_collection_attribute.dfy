/** `EventCollectionAttribute`: names the event source of an event
    enumeration. The source declares the property as `EventSource` while its
    reader and its tests use `SourceName`; the model keeps the one stored
    value under the name `SourceName`. */
module EventCollectionAttributes {
  import opened Wrappers
  import opened StringExtensions

  datatype EventCollectionAttribute = EventCollectionAttribute(SourceName: Option<string>)

  /** The constructor `EventCollectionAttribute(string eventSource)`: the
      source name is the trimmed argument, null when the argument is null or
      blank. */
  function NewEventCollectionAttribute(eventSource: Option<string>): (a: EventCollectionAttribute)
    ensures a.SourceName.None? <==> eventSource.None? || AllWhiteSpace(eventSource.value)
    ensures a.SourceName.Some? ==> a.SourceName.value != [] && IsTrimmed(a.SourceName.value)
    ensures a.SourceName.Some? ==> a.SourceName.value == Trim(eventSource.value)
  {
    EventCollectionAttribute(SafeTrim(eventSource))
  }

  /** EventCollectionAttributeUnitTest.cs: null, empty and blank (tabs included)
      names give null; a padded name is trimmed and a trimmed one kept. */
  lemma SourceNameCases(name: string)
    requires name != [] && IsTrimmed(name)
    ensures NewEventCollectionAttribute(None).SourceName == None
    ensures NewEventCollectionAttribute(Some("")).SourceName == None
    ensures NewEventCollectionAttribute(Some("  \r\n \t  ")).SourceName == None
    ensures NewEventCollectionAttribute(Some("  \r\n \t" + name + "  ")).SourceName == Some(name)
    ensures NewEventCollectionAttribute(Some(name)).SourceName == Some(name)
  {
    var blank := "  \r\n \t  ";
    assert AllWhiteSpace(blank) by {
      forall i | 0 <= i < |blank| ensures IsWhiteSpace(blank[i]) {}
    }
    var pad := "  \r\n \t";
    assert AllWhiteSpace(pad) by {
      forall i | 0 <= i < |pad| ensures IsWhiteSpace(pad[i]) {}
    }
    SafeTrimOfPadded(pad, name, "  ");
    SafeTrimOfTrimmed(name);
  }
}
