/** `ExceptionBase`: an exception that carries an event source, an event id
    and optional runtime information, and keeps them across serialization.
    `GetObjectData` writes them into a `SerializationInfo` (the runtime
    information as two parallel arrays, names and values); the deserializing
    constructor reads them back. `V` stands for the values' type (`object`). */
module Exceptions {
  import opened Wrappers
  import opened ReadOnlyDictionaries
  import opened CollectionExtensions

  /** A .NET `int`. */
  newtype Int32 = x: int | -0x8000_0000 <= x < 0x8000_0000

  const EventSourceDataKey: string := "EventSource"
  const EventIdDataKey: string := "EventId"
  const RuntineInformationNamesKey: string := "RuntimeInformationNames"
  /** The key is spelled with a double `s`, as in the source. */
  const RuntineInformationValuesKey: string := "RuntimeInformationValuess"

  /** The state of an `ExceptionBase` that this class adds to `Exception`. */
  datatype ExceptionBase<V> = ExceptionBase(
    EventSource: Option<string>,
    EventId: Int32,
    RuntimeInformation: Option<Entries<string, V>>)

  /** A value stored in a `SerializationInfo`, by the kind it was stored as. */
  datatype SerializedValue<V> =
    | NullValue
    | StringValue(s: string)
    | Int32Value(n: Int32)
    | StringArray(names: seq<Option<string>>)
    | ObjectArray(objects: seq<V>)

  /** The entries of a `SerializationInfo`, by name. */
  type SerializationInfo<V> = map<string, SerializedValue<V>>

  /** The first constructor: the message and inner exception go to
      `Exception`, which is not modelled; the rest is kept as given. */
  function NewExceptionBase<V>(eventSource: Option<string>, eventId: Int32, runtimeInformation: Option<Entries<string, V>>): (e: ExceptionBase<V>)
    ensures e.EventSource == eventSource && e.EventId == eventId && e.RuntimeInformation == runtimeInformation
  {
    ExceptionBase(eventSource, eventId, runtimeInformation)
  }

  /** A .NET string reference as it is stored by `AddValue`. */
  function StringOrNull<V>(s: Option<string>): (v: SerializedValue<V>)
    ensures s.None? ==> v == NullValue
    ensures s.Some? ==> v == StringValue(s.value)
  {
    if s.None? then NullValue else StringValue(s.value)
  }

  /** The names array `GetObjectData` writes: the keys, in enumeration order. */
  function NamesOf<V>(entries: seq<(string, V)>): (names: seq<Option<string>>)
    ensures |names| == |entries|
    ensures forall i :: 0 <= i < |names| ==> names[i] == Some(entries[i].0)
  {
    if entries == [] then [] else NamesOf(entries[..|entries| - 1]) + [Some(entries[|entries| - 1].0)]
  }

  /** The values array `GetObjectData` writes, position by position with the names. */
  function ValuesOf<V>(entries: seq<(string, V)>): (values: seq<V>)
    ensures |values| == |entries|
    ensures forall i :: 0 <= i < |values| ==> values[i] == entries[i].1
  {
    if entries == [] then [] else ValuesOf(entries[..|entries| - 1]) + [entries[|entries| - 1].1]
  }

  /** What `GetObjectData` adds to the serialization info: the event source,
      the event id, and for empty or null runtime information an empty names
      array without a values array; otherwise the names and values arrays. */
  function ObjectData<V>(e: ExceptionBase<V>): (info: SerializationInfo<V>)
    ensures EventSourceDataKey in info && EventIdDataKey in info && RuntineInformationNamesKey in info
    ensures RuntineInformationValuesKey in info <==> !IsReadOnlyNullOrEmpty(e.RuntimeInformation)
  {
    var common := map[EventSourceDataKey := StringOrNull(e.EventSource), EventIdDataKey := Int32Value(e.EventId)];
    if IsReadOnlyNullOrEmpty(e.RuntimeInformation) then
      common[RuntineInformationNamesKey := StringArray([])]
    else
      var entries := e.RuntimeInformation.value;
      common[RuntineInformationNamesKey := StringArray(NamesOf(entries))][RuntineInformationValuesKey := ObjectArray(ValuesOf(entries))]
  }

  /** ExceptionBase.cs:113-140: the serialization info holds exactly the
      data the layout promises, keyed by the four constant names. */
  lemma ObjectDataLayout<V>(e: ExceptionBase<V>)
    ensures ObjectData(e)[EventSourceDataKey] == StringOrNull(e.EventSource)
    ensures ObjectData(e)[EventIdDataKey] == Int32Value(e.EventId)
    ensures IsReadOnlyNullOrEmpty(e.RuntimeInformation) ==>
      ObjectData(e).Keys == {EventSourceDataKey, EventIdDataKey, RuntineInformationNamesKey} &&
      ObjectData(e)[RuntineInformationNamesKey] == StringArray([])
    ensures !IsReadOnlyNullOrEmpty(e.RuntimeInformation) ==>
      ObjectData(e).Keys == {EventSourceDataKey, EventIdDataKey, RuntineInformationNamesKey, RuntineInformationValuesKey} &&
      ObjectData(e)[RuntineInformationNamesKey] == StringArray(NamesOf(e.RuntimeInformation.value)) &&
      ObjectData(e)[RuntineInformationValuesKey] == ObjectArray(ValuesOf(e.RuntimeInformation.value))
  {
  }

  /** ExceptionBase.cs:113-140. The names and values arrays are filled in
      one pass over the runtime information's pairs. */
  method GetObjectData<V(0)>(e: ExceptionBase<V>) returns (info: SerializationInfo<V>)
    ensures info == ObjectData(e)
  {
    info := map[EventSourceDataKey := StringOrNull(e.EventSource)];
    info := info[EventIdDataKey := Int32Value(e.EventId)];
    if IsReadOnlyNullOrEmpty(e.RuntimeInformation) {
      info := info[RuntineInformationNamesKey := StringArray([])];
    } else {
      var pairs := e.RuntimeInformation.value;
      var count := |pairs|;
      var names := new Option<string>[count];
      var values := new V[count];
      var index := 0;
      while index < count
        invariant 0 <= index <= count
        invariant names[..index] == NamesOf(pairs[..index])
        invariant values[..index] == ValuesOf(pairs[..index])
      {
        names[index] := Some(pairs[index].0);
        values[index] := pairs[index].1;
        assert pairs[..index + 1][..index] == pairs[..index];
        index := index + 1;
      }
      assert pairs[..count] == pairs;
      assert names[..] == names[..count] && values[..] == values[..count];
      info := info[RuntineInformationNamesKey := StringArray(names[..])];
      info := info[RuntineInformationValuesKey := ObjectArray(values[..])];
    }
  }

  /** The digits of `d`, for `d < 10`. */
  function DigitChar(d: nat): (c: char)
    requires d < 10
    ensures '0' <= c <= '9' && c as int - '0' as int == d
  {
    (('0' as int) + d) as char
  }

  /** The number a string of decimal digits denotes. */
  function DigitsValue(s: string): (n: int)
  {
    if s == [] then 0 else 10 * DigitsValue(s[..|s| - 1]) + (s[|s| - 1] as int - '0' as int)
  }

  /** The decimal digits of `n`, without leading zeros. */
  function DecimalDigits(n: nat): (s: string)
    ensures |s| > 0 && forall i :: 0 <= i < |s| ==> '0' <= s[i] <= '9'
    ensures (s[0] == '0') == (n == 0)
    ensures s[0] == '0' ==> |s| == 1
    ensures DigitsValue(s) == n
  {
    if n < 10 then [DigitChar(n)]
    else
      var s := DecimalDigits(n / 10) + [DigitChar(n % 10)];
      assert s[..|s| - 1] == DecimalDigits(n / 10);
      s
  }

  /** `Int32.ToString(CultureInfo.InvariantCulture)`: an optional minus sign,
      then the decimal digits of the magnitude. */
  function Int32ToString(n: Int32): (s: string)
    ensures |s| > 0 && (s[0] == '-') == (n < 0)
    ensures forall i :: (if n < 0 then 1 else 0) <= i < |s| ==> '0' <= s[i] <= '9'
    ensures n < 0 ==> |s| > 1 && DigitsValue(s[1..]) == -(n as int) && s[1] != '0'
    ensures n >= 0 ==> DigitsValue(s) == n as int && (s[0] == '0') == (n == 0)
    ensures n >= 0 && s[0] == '0' ==> s == "0"
  {
    if n < 0 then
      var s := "-" + DecimalDigits(-(n as int));
      assert s[1..] == DecimalDigits(-(n as int));
      s
    else DecimalDigits(n as int)
  }

  /** `SerializationInfo.GetString`. A string or null entry is returned as
      stored; any other entry goes through the default formatter converter,
      `Convert.ToString(value, CultureInfo.InvariantCulture)`: an `int` is
      written in decimal, and an array gives its type's name. */
  function GetString<V>(info: SerializationInfo<V>, name: string): (r: Result<Option<string>>)
    ensures name !in info ==> r == Throws(SerializationException(name))
    ensures name in info ==> r.Ok?
    ensures name in info && info[name] == NullValue ==> r == Ok(None)
    ensures name in info && info[name].StringValue? ==> r == Ok(Some(info[name].s))
    ensures name in info && info[name].Int32Value? ==> r == Ok(Some(Int32ToString(info[name].n)))
    ensures name in info && info[name].StringArray? ==> r == Ok(Some("System.String[]"))
    ensures name in info && info[name].ObjectArray? ==> r == Ok(Some("System.Object[]"))
  {
    if name !in info then Throws(SerializationException(name))
    else match info[name]
      case NullValue => Ok(None)
      case StringValue(s) => Ok(Some(s))
      case Int32Value(n) => Ok(Some(Int32ToString(n)))
      case StringArray(_) => Ok(Some("System.String[]"))
      case ObjectArray(_) => Ok(Some("System.Object[]"))
  }

  /** `SerializationInfo.GetInt32`. A stored value of another kind is refused
      rather than converted. */
  function GetInt32<V>(info: SerializationInfo<V>, name: string): (r: Result<Int32>)
    ensures name !in info ==> r == Throws(SerializationException(name))
    ensures name in info && info[name].Int32Value? ==> r == Ok(info[name].n)
    ensures name in info && !info[name].Int32Value? ==> r == Throws(InvalidCastException)
  {
    if name !in info then Throws(SerializationException(name))
    else match info[name]
      case Int32Value(n) => Ok(n)
      case _ => Throws(InvalidCastException)
  }

  /** `info.GetValue(name, typeof(string[])) as string[]`. */
  function GetStringArray<V>(info: SerializationInfo<V>, name: string): (r: Result<Option<seq<Option<string>>>>)
    ensures name !in info ==> r == Throws(SerializationException(name))
    ensures name in info && info[name] == NullValue ==> r == Ok(None)
    ensures name in info && info[name].StringArray? ==> r == Ok(Some(info[name].names))
  {
    if name !in info then Throws(SerializationException(name))
    else match info[name]
      case NullValue => Ok(None)
      case StringArray(names) => Ok(Some(names))
      case _ => Throws(InvalidCastException)
  }

  /** `info.GetValue(name, typeof(object[])) as object[]`. */
  function GetObjectArray<V>(info: SerializationInfo<V>, name: string): (r: Result<Option<seq<V>>>)
    ensures name !in info ==> r == Throws(SerializationException(name))
    ensures name in info && info[name] == NullValue ==> r == Ok(None)
    ensures name in info && info[name].ObjectArray? ==> r == Ok(Some(info[name].objects))
  {
    if name !in info then Throws(SerializationException(name))
    else match info[name]
      case NullValue => Ok(None)
      case ObjectArray(objects) => Ok(Some(objects))
      case _ => Throws(InvalidCastException)
  }

  predicate HasKey<V>(entries: seq<(string, V)>, key: string) {
    exists j :: 0 <= j < |entries| && entries[j].0 == key
  }

  /** The dictionary after the first `k` rounds of `Add(names[i], values[i])`,
      or the exception the first failing round throws: indexing a null values
      array, indexing past its end, a null name, or a name added before. */
  function Rebuild<V>(names: seq<Option<string>>, values: Option<seq<V>>, k: nat): (r: Result<Entries<string, V>>)
    requires k <= |names|
    ensures r.Ok? ==> |r.value| == k
    ensures r.Ok? ==> forall i :: 0 <= i < k ==> names[i] == Some(r.value[i].0) && values.Some? && i < |values.value| && r.value[i].1 == values.value[i]
  {
    if k == 0 then Ok([])
    else
      var before :- Rebuild(names, values, k - 1);
      if values.None? then Throws(NullReferenceException)
      else if k - 1 >= |values.value| then Throws(IndexOutOfRangeException)
      else if names[k - 1].None? then Throws(ArgumentNullException("key"))
      else if HasKey(before, names[k - 1].value) then Throws(ArgumentException)
      else Ok(before + [(names[k - 1].value, values.value[k - 1])])
  }

  /** Once a round has thrown, later rounds are never reached. */
  lemma {:induction false} RebuildFailurePersists<V>(names: seq<Option<string>>, values: Option<seq<V>>, k: nat, m: nat)
    requires k <= m <= |names|
    requires Rebuild(names, values, k).Throws?
    ensures Rebuild(names, values, m) == Rebuild(names, values, k)
  {
    if k < m {
      RebuildFailurePersists(names, values, k, m - 1);
    }
  }

  /** The deserializing constructor: the event source and id, and the runtime
      information rebuilt from the two arrays; a null or empty names array
      gives null runtime information and the values array is not read. */
  function FromObjectData<V>(info: SerializationInfo<V>): (r: Result<ExceptionBase<V>>)
    ensures EventSourceDataKey !in info ==> r == Throws(SerializationException(EventSourceDataKey))
    ensures EventSourceDataKey in info && EventIdDataKey !in info ==> r == Throws(SerializationException(EventIdDataKey))
    ensures r.Ok? ==> EventIdDataKey in info && info[EventIdDataKey] == Int32Value(r.value.EventId)
    ensures r.Ok? ==> Ok(r.value.EventSource) == GetString(info, EventSourceDataKey)
    ensures r.Ok? && r.value.RuntimeInformation.Some? ==>
      RuntineInformationNamesKey in info && info[RuntineInformationNamesKey].StringArray? &&
      |r.value.RuntimeInformation.value| == |info[RuntineInformationNamesKey].names| > 0
    ensures (r.Ok? && RuntineInformationNamesKey in info && info[RuntineInformationNamesKey].StringArray? &&
      |info[RuntineInformationNamesKey].names| > 0) ==> (
        var names := info[RuntineInformationNamesKey].names;
        && r.value.RuntimeInformation.Some?
        && RuntineInformationValuesKey in info && info[RuntineInformationValuesKey].ObjectArray?
        && |names| <= |info[RuntineInformationValuesKey].objects|
        && forall i :: 0 <= i < |names| ==>
             && names[i] == Some(r.value.RuntimeInformation.value[i].0)
             && r.value.RuntimeInformation.value[i].1 == info[RuntineInformationValuesKey].objects[i])
  {
    var eventSource :- GetString(info, EventSourceDataKey);
    var eventId :- GetInt32(info, EventIdDataKey);
    var names :- GetStringArray(info, RuntineInformationNamesKey);
    if IsNullOrEmpty(names) then Ok(ExceptionBase(eventSource, eventId, None))
    else
      var values :- GetObjectArray(info, RuntineInformationValuesKey);
      var runtimeInformation :- Rebuild(names.value, values, |names.value|);
      Ok(ExceptionBase(eventSource, eventId, Some(runtimeInformation)))
  }

  /** ExceptionBase.cs:74-91, with the dictionary filled in a `for` loop. */
  method Deserialize<V>(info: SerializationInfo<V>) returns (r: Result<ExceptionBase<V>>)
    ensures r == FromObjectData(info)
  {
    var eventSource :- GetString(info, EventSourceDataKey);
    var eventId :- GetInt32(info, EventIdDataKey);
    var names :- GetStringArray(info, RuntineInformationNamesKey);
    var runtimeInformation: Option<Entries<string, V>> := None;
    if !IsNullOrEmpty(names) {
      var values :- GetObjectArray(info, RuntineInformationValuesKey);
      var added: Entries<string, V> := [];
      for i := 0 to |names.value|
        invariant Rebuild(names.value, values, i) == Ok(added)
      {
        var rebuilt := Rebuild(names.value, values, i + 1);
        if values.None? {
          RebuildFailurePersists(names.value, values, i + 1, |names.value|);
          return Throws(NullReferenceException);
        }
        if i >= |values.value| {
          RebuildFailurePersists(names.value, values, i + 1, |names.value|);
          return Throws(IndexOutOfRangeException);
        }
        if names.value[i].None? {
          RebuildFailurePersists(names.value, values, i + 1, |names.value|);
          return Throws(ArgumentNullException("key"));
        }
        if HasKey(added, names.value[i].value) {
          RebuildFailurePersists(names.value, values, i + 1, |names.value|);
          return Throws(ArgumentException);
        }
        added := added + [(names.value[i].value, values.value[i])];
      }
      runtimeInformation := Some(added);
    }
    r := Ok(ExceptionBase(eventSource, eventId, runtimeInformation));
  }

  /** The arrays `GetObjectData` writes for a dictionary rebuild its first `k`
      entries. */
  lemma {:induction false} RebuildOfObjectData<V>(entries: Entries<string, V>, k: nat)
    requires k <= |entries|
    ensures Rebuild(NamesOf(entries), Some(ValuesOf(entries)), k) == Ok(entries[..k])
  {
    if k > 0 {
      RebuildOfObjectData(entries, k - 1);
      var before := entries[..k - 1];
      assert !HasKey(before, entries[k - 1].0) by {
        forall j | 0 <= j < |before| ensures before[j].0 != entries[k - 1].0 {
          assert before[j] == entries[j];
        }
      }
      assert entries[..k] == before + [entries[k - 1]];
    }
  }

  /** ExceptionBaseUnitTest.cs:52-76: serializing and deserializing keeps the
      event source, the event id and the runtime information; an empty
      dictionary comes back as null, as a null one does. */
  lemma SerializationRoundTrip<V>(e: ExceptionBase<V>)
    ensures FromObjectData(ObjectData(e)) ==
      Ok(ExceptionBase(e.EventSource, e.EventId, if IsReadOnlyNullOrEmpty(e.RuntimeInformation) then None else e.RuntimeInformation))
  {
    if !IsReadOnlyNullOrEmpty(e.RuntimeInformation) {
      var entries := e.RuntimeInformation.value;
      RebuildOfObjectData(entries, |entries|);
      assert entries[..|entries|] == entries;
    }
  }

  /** A deserialized exception's runtime information has the original's count
      and every original key with its value. */
  lemma RoundTripKeepsLookups<V>(e: ExceptionBase<V>, i: int)
    requires e.RuntimeInformation.Some? && 0 <= i < |e.RuntimeInformation.value|
    ensures FromObjectData(ObjectData(e)).Ok?
    ensures var back := FromObjectData(ObjectData(e)).value.RuntimeInformation;
      back.Some? &&
      Count(ReadOnlyDictionary(back.value)) == Count(ReadOnlyDictionary(e.RuntimeInformation.value)) &&
      TryGetValue(ReadOnlyDictionary(back.value), e.RuntimeInformation.value[i].0) == (true, Some(e.RuntimeInformation.value[i].1))
  {
    SerializationRoundTrip(e);
    LookupsAgree(ReadOnlyDictionary(e.RuntimeInformation.value), i);
  }

  /** Serialization info in which the names array lists a name twice cannot
      be deserialized: `Dictionary.Add` refuses the second one. */
  lemma DuplicateNameThrows<V>(info: SerializationInfo<V>, name: string, v1: V, v2: V)
    requires EventSourceDataKey in info && info[EventSourceDataKey] == NullValue
    requires EventIdDataKey in info && info[EventIdDataKey].Int32Value?
    requires RuntineInformationNamesKey in info && info[RuntineInformationNamesKey] == StringArray([Some(name), Some(name)])
    requires RuntineInformationValuesKey in info && info[RuntineInformationValuesKey] == ObjectArray([v1, v2])
    ensures FromObjectData(info) == Throws(ArgumentException)
  {
    var first: Entries<string, V> := [(name, v1)];
    assert Rebuild([Some(name), Some(name)], Some([v1, v2]), 0) == Ok([]);
    assert [] + [(name, v1)] == first;
    assert Rebuild([Some(name), Some(name)], Some([v1, v2]), 1) == Ok(first);
    assert first[0].0 == name;
  }

  /** An event source stored as an `int` is read back as its decimal text. */
  lemma EventSourceStoredAsInt32<V>(info: SerializationInfo<V>, id: Int32)
    requires EventSourceDataKey in info && info[EventSourceDataKey] == Int32Value(7)
    requires EventIdDataKey in info && info[EventIdDataKey] == Int32Value(id)
    requires RuntineInformationNamesKey in info && info[RuntineInformationNamesKey] == StringArray([])
    ensures FromObjectData(info) == Ok(ExceptionBase(Some("7"), id, None))
  {
    assert Int32ToString(7) == [DigitChar(7)];
  }
}
