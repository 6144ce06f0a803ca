/** `StringExtensions.SafeTrim`: trim a string, and turn a null, empty or blank
    string into null. `Trim` follows .NET `String.Trim()`, which strips the
    characters `Char.IsWhiteSpace` accepts from both ends. */
module StringExtensions {
  import opened Wrappers

  /** The characters .NET `Char.IsWhiteSpace` accepts: U+0009..U+000D, the
      space separators (category Zs), the line and paragraph separators, and
      U+0085. */
  predicate IsWhiteSpace(c: char) {
    || c == ' ' || ('\t' <= c <= '\r') || c == '\U{85}' || c == '\U{A0}' || c == '\U{1680}'
    || ('\U{2000}' <= c <= '\U{200A}') || c == '\U{2028}' || c == '\U{2029}'
    || c == '\U{202F}' || c == '\U{205F}' || c == '\U{3000}'
  }

  predicate AllWhiteSpace(s: string) {
    forall i :: 0 <= i < |s| ==> IsWhiteSpace(s[i])
  }

  /** Neither end of `s` is white space. */
  predicate IsTrimmed(s: string) {
    s == [] || (!IsWhiteSpace(s[0]) && !IsWhiteSpace(s[|s| - 1]))
  }

  /** `string.IsNullOrEmpty` of the .NET base library. */
  predicate IsNullOrEmpty(s: Option<string>) {
    s.None? || s.value == []
  }

  /** How many white-space characters `s` starts with. */
  function LeadingWhiteSpace(s: string): (n: nat)
    ensures n <= |s| && AllWhiteSpace(s[..n])
    ensures n < |s| ==> !IsWhiteSpace(s[n])
  {
    if s != [] && IsWhiteSpace(s[0]) then
      var m := LeadingWhiteSpace(s[1..]);
      assert s[..m + 1] == [s[0]] + s[1..][..m];
      m + 1
    else 0
  }

  /** How many white-space characters `s` ends with. */
  function TrailingWhiteSpace(s: string): (n: nat)
    ensures n <= |s| && forall i :: |s| - n <= i < |s| ==> IsWhiteSpace(s[i])
    ensures n < |s| ==> !IsWhiteSpace(s[|s| - n - 1])
  {
    if s != [] && IsWhiteSpace(s[|s| - 1]) then
      TrailingWhiteSpace(s[..|s| - 1]) + 1
    else 0
  }

  /** .NET `String.Trim()`: the part of `s` between its leading and its
      trailing white space. The result has no white space at either end, is
      empty exactly when `s` is all white space, and is a contiguous part of
      `s` with only white space before it and after it. */
  function Trim(s: string): (r: string)
    ensures IsTrimmed(r)
    ensures r == [] <==> AllWhiteSpace(s)
    ensures var a := LeadingWhiteSpace(s);
      a + |r| <= |s| && r == s[a..a + |r|] && AllWhiteSpace(s[..a]) && AllWhiteSpace(s[a + |r|..])
  {
    var a := LeadingWhiteSpace(s);
    if a == |s| then
      assert s[..a] == s;
      []
    else
      var b := TrailingWhiteSpace(s);
      assert a < |s| - b;
      assert !AllWhiteSpace(s) by {
        assert !IsWhiteSpace(s[a]);
      }
      s[a..|s| - b]
  }

  /** StringExtensions.cs:39-51: null when the argument is null or trims to
      nothing, otherwise the trimmed string. */
  function SafeTrim(value: Option<string>): (r: Option<string>)
    ensures r.None? <==> value.None? || AllWhiteSpace(value.value)
    ensures r.Some? ==> r.value != [] && IsTrimmed(r.value)
    ensures r.Some? ==> r.value == Trim(value.value)
  {
    if value.None? then None
    else
      var trimmed := Trim(value.value);
      if |trimmed| > 0 then Some(trimmed) else None
  }

  /** White space in front of a string that does not start with white
      space is exactly its leading white space. */
  lemma {:induction false} LeadingOfPadded(a: string, m: string)
    requires AllWhiteSpace(a)
    requires m == [] || !IsWhiteSpace(m[0])
    ensures LeadingWhiteSpace(a + m) == |a|
  {
    if a != [] {
      assert (a + m)[0] == a[0];
      assert (a + m)[1..] == a[1..] + m;
      LeadingOfPadded(a[1..], m);
    } else {
      assert a + m == m;
    }
  }

  /** White space after a string that does not end with white space is
      exactly its trailing white space. */
  lemma {:induction false} TrailingOfPadded(m: string, b: string)
    requires AllWhiteSpace(b)
    requires m == [] || !IsWhiteSpace(m[|m| - 1])
    ensures TrailingWhiteSpace(m + b) == |b|
  {
    if b != [] {
      assert (m + b)[|m + b| - 1] == b[|b| - 1];
      assert (m + b)[..|m + b| - 1] == m + b[..|b| - 1];
      TrailingOfPadded(m, b[..|b| - 1]);
    } else {
      assert m + b == m;
    }
  }

  /** `Trim` keeps exactly the interior: any string that is a trimmed core
      between white-space padding trims to that core. */
  lemma TrimOfPadded(a: string, m: string, b: string)
    requires AllWhiteSpace(a) && AllWhiteSpace(b) && IsTrimmed(m)
    ensures Trim(a + m + b) == m
  {
    if m == [] {
      assert AllWhiteSpace(a + m + b) by {
        forall i | 0 <= i < |a + m + b| ensures IsWhiteSpace((a + m + b)[i]) {
          if i < |a| { assert (a + m + b)[i] == a[i]; } else { assert (a + m + b)[i] == b[i - |a|]; }
        }
      }
    } else {
      var s := a + m + b;
      assert s == a + (m + b);
      LeadingOfPadded(a, m + b);
      TrailingOfPadded(a + m, b);
      assert s[|a|..|s| - |b|] == m;
    }
  }

  /** Padding around a non-empty trimmed name is removed and the name kept. */
  lemma SafeTrimOfPadded(a: string, m: string, b: string)
    requires AllWhiteSpace(a) && AllWhiteSpace(b) && IsTrimmed(m) && m != []
    ensures SafeTrim(Some(a + m + b)) == Some(m)
  {
    TrimOfPadded(a, m, b);
  }

  /** An already trimmed non-empty string is returned unchanged. */
  lemma SafeTrimOfTrimmed(s: string)
    requires IsTrimmed(s) && s != []
    ensures SafeTrim(Some(s)) == Some(s)
  {
    assert [] + s + [] == s;
    SafeTrimOfPadded([], s, []);
  }

  /** Trimming twice is trimming once. */
  lemma SafeTrimIdempotent(value: Option<string>)
    ensures SafeTrim(SafeTrim(value)) == SafeTrim(value)
  {
    if SafeTrim(value).Some? {
      SafeTrimOfTrimmed(SafeTrim(value).value);
    }
  }

  /** The cases of StringExtensionsUnitTest.cs. */
  lemma SafeTrimExamples()
    ensures SafeTrim(None) == None
    ensures SafeTrim(Some("")) == None
    ensures SafeTrim(Some("  \r\n  \t ")) == None
    ensures SafeTrim(Some("  value ")) == Some("value")
    ensures SafeTrim(Some("value")) == Some("value")
  {
    var blank := "  \r\n  \t ";
    assert AllWhiteSpace(blank) by {
      forall i | 0 <= i < |blank| ensures IsWhiteSpace(blank[i]) {}
    }
    assert "  value " == "  " + "value" + " ";
    SafeTrimOfPadded("  ", "value", " ");
    SafeTrimOfTrimmed("value");
  }
}
