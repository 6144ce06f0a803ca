/** `ResourceItemAttribute`: the resource name and default content of one
    member of a resource enumeration. */
module ResourceItemAttributes {
  import opened Wrappers
  import opened StringExtensions

  datatype ResourceItemAttribute = ResourceItemAttribute(Name: Option<string>, Content: Option<string>)

  /** The constructor `ResourceItemAttribute(string name, string content)`: the
      name is trimmed (null when null or blank), the content is kept verbatim. */
  function NewResourceItemAttribute(name: Option<string>, content: Option<string>): (a: ResourceItemAttribute)
    ensures a.Name.None? <==> name.None? || AllWhiteSpace(name.value)
    ensures a.Name.Some? ==> a.Name.value != [] && IsTrimmed(a.Name.value) && a.Name.value == Trim(name.value)
    ensures a.Content == content
  {
    ResourceItemAttribute(SafeTrim(name), content)
  }

  /** The constructor `ResourceItemAttribute(string content = null)`, which
      chains to the two-argument form with a null name: no name, the content
      verbatim. */
  function NewResourceItemAttributeOfContent(content: Option<string>): (a: ResourceItemAttribute)
    ensures a.Name == None
    ensures a.Content == content
  {
    NewResourceItemAttribute(None, content)
  }

  /** ResourceItemAttributeUnitTest.cs: the parameterless form has neither name
      nor content; content alone is kept; a trimmed name and any content are
      returned as given, and padding around a name is dropped while padding
      in the content is not. */
  lemma ResourceItemCases(name: string, content: string)
    requires name != [] && IsTrimmed(name)
    ensures NewResourceItemAttributeOfContent(None) == ResourceItemAttribute(None, None)
    ensures NewResourceItemAttributeOfContent(Some(content)) == ResourceItemAttribute(None, Some(content))
    ensures NewResourceItemAttribute(Some(name), Some(content)) == ResourceItemAttribute(Some(name), Some(content))
    ensures NewResourceItemAttribute(Some(" " + name + " "), Some(" " + content + " "))
         == ResourceItemAttribute(Some(name), Some(" " + content + " "))
  {
    SafeTrimOfTrimmed(name);
    assert AllWhiteSpace(" ");
    SafeTrimOfPadded(" ", name, " ");
  }
}
