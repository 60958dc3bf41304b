/**
 * The configuration entries the mod panel edits and the enum reflection it uses:
 * a BepInEx `ConfigEntryBase` with its boxed value, setting type and acceptable
 * values, and .NET's `Enum.GetNames`, `GetValues`, `GetName` and `Parse`.
 */
module ConfigEntries {
  import opened Wrappers
  import LiveObjects
  import Formatting
  import CsArith

  /** One member of an enum: its name and its underlying value. */
  datatype EnumMember = EnumMember(name: string, value: int)

  /**
   * An enum type, its members in the order `Enum.GetNames` and `Enum.GetValues` list them:
   * ascending unsigned underlying value, not declaration order.
   */
  datatype EnumType = EnumType(members: seq<EnumMember>)

  /** A setting's type: an enum, or any other type. */
  datatype SettingType = EnumSetting(enumType: EnumType) | OtherSetting(typeName: string)

  /** A boxed setting value: an enum value by its underlying number, or a value of another type with its text. */
  datatype Value = EnumValue(number: int) | OtherValue(text: string)

  /** `Description.AcceptableValues`: none, an `AcceptableValueList` with its values, or another kind without such a list. */
  datatype AcceptableValues = NoAcceptableValues | ValueList(values: seq<Value>) | OtherAcceptableValues

  /** The exceptions the mod panel fields throw. */
  datatype FieldError = ArgumentError | InvalidOperation | DivideByZero | IndexOutOfRange | NullReference

  /** C# names every member of an enum differently. */
  predicate DistinctNames(e: EnumType)
  {
    forall i, j :: 0 <= i < j < |e.members| ==> e.members[i].name != e.members[j].name
  }

  /** No two members share an underlying value (no aliases). */
  predicate DistinctValues(e: EnumType)
  {
    forall i, j :: 0 <= i < j < |e.members| ==> e.members[i].value != e.members[j].value
  }

  /** `Enum.GetNames`. */
  function GetNames(e: EnumType): (r: seq<string>)
    ensures |r| == |e.members| && forall k :: 0 <= k < |r| ==> r[k] == e.members[k].name
  {
    seq(|e.members|, k requires 0 <= k < |e.members| => e.members[k].name)
  }

  /** `Enum.GetValues`. */
  function GetValues(e: EnumType): (r: seq<Value>)
    ensures |r| == |e.members| && forall k :: 0 <= k < |r| ==> r[k] == EnumValue(e.members[k].value)
  {
    seq(|e.members|, k requires 0 <= k < |e.members| => EnumValue(e.members[k].value))
  }

  /** The position of the first member with underlying value `n`, or -1. */
  function FirstWithValue(ms: seq<EnumMember>, n: int): (r: int)
    ensures -1 <= r < |ms|
    ensures r == -1 <==> forall k :: 0 <= k < |ms| ==> ms[k].value != n
    ensures r >= 0 ==> ms[r].value == n && forall k :: 0 <= k < r ==> ms[k].value != n
  {
    if ms == [] then -1
    else if ms[0].value == n then 0
    else
      var r := FirstWithValue(ms[1..], n);
      assert forall k :: 1 <= k < |ms| ==> ms[k] == ms[1..][k - 1];
      if r == -1 then -1 else r + 1
  }

  /**
   * `Enum.GetName`: the name of a member with the value, or null when none has it.
   * With aliases the runtime picks one of them; the model picks the first.
   */
  function GetName(e: EnumType, v: Value): (r: Option<string>)
    ensures r.None? <==> v.OtherValue? || forall k :: 0 <= k < |e.members| ==> e.members[k].value != v.number
    ensures r.Some? ==> exists k :: 0 <= k < |e.members| && e.members[k] == EnumMember(r.value, v.number)
  {
    match v
    case OtherValue(_) => None
    case EnumValue(n) =>
      var k := FirstWithValue(e.members, n);
      if k == -1 then None else Some(e.members[k].name)
  }

  /** The position of the member named `name`, or -1. */
  function FirstNamed(ms: seq<EnumMember>, name: string): (r: int)
    ensures -1 <= r < |ms|
    ensures r == -1 <==> forall k :: 0 <= k < |ms| ==> ms[k].name != name
    ensures r >= 0 ==> ms[r].name == name
  {
    if ms == [] then -1
    else if ms[0].name == name then 0
    else
      var r := FirstNamed(ms[1..], name);
      assert forall k :: 1 <= k < |ms| ==> ms[k] == ms[1..][k - 1];
      if r == -1 then -1 else r + 1
  }

  /** `Enum.Parse`: the value of the member with that name; an unknown name throws `ArgumentException`. */
  function Parse(e: EnumType, name: string): (r: Result<Value, FieldError>)
    ensures r.Err? <==> name !in GetNames(e)
    ensures r.Err? ==> r.error == ArgumentError
    ensures r.Ok? ==> r.value.EnumValue?
    ensures r.Ok? ==> exists k :: 0 <= k < |e.members| && e.members[k] == EnumMember(name, r.value.number)
  {
    var k := FirstNamed(e.members, name);
    if k == -1 then
      assert forall j :: 0 <= j < |e.members| ==> GetNames(e)[j] != name;
      Err(ArgumentError)
    else Ok(EnumValue(e.members[k].value))
  }

  /** Parsing a member's name gives that member's value. */
  lemma ParseName(e: EnumType, k: nat)
    requires DistinctNames(e) && k < |e.members|
    ensures Parse(e, GetNames(e)[k]) == Ok(EnumValue(e.members[k].value))
  {
  }

  /** Without aliases, the name of a parsed member's value is that member's name. */
  lemma GetNameOfParsed(e: EnumType, k: nat)
    requires DistinctNames(e) && DistinctValues(e) && k < |e.members|
    ensures GetName(e, Parse(e, GetNames(e)[k]).value) == Some(GetNames(e)[k])
  {
    ParseName(e, k);
    var j := FirstWithValue(e.members, e.members[k].value);
    assert j == k;
  }

  /**
   * `BoxedValue.ToString()`: an enum value's name, or its number when no member has it.
   * A combination of `[Flags]` members, which .NET writes as their names joined by ", ",
   * is written as its number here.
   */
  function ValueText(t: SettingType, v: Value): string
  {
    match v
    case OtherValue(text) => text
    case EnumValue(n) =>
      if t.EnumSetting? && GetName(t.enumType, v).Some? then GetName(t.enumType, v).value
      else Formatting.IntToString(n)
  }

  /** `List.IndexOf` and `Array.IndexOf`: the first position holding `x`, or -1. */
  function IndexOf<T(==)>(s: seq<T>, x: T): (r: int)
    ensures -1 <= r < |s|
    ensures r == -1 <==> x !in s
    ensures r >= 0 ==> s[r] == x && x !in s[..r]
  {
    LiveObjects.IndexOf(s, x)
  }

  /** `Array.IndexOf(items, name)` for a name that may be null: a null name is found nowhere. */
  function NameIndex(items: seq<string>, name: Option<string>): (r: int)
    ensures -1 <= r < |items|
    ensures r >= 0 ==> name == Some(items[r])
    ensures name.Some? && name.value in items ==> r >= 0
  {
    match name
    case None => -1
    case Some(n) => IndexOf(items, n)
  }

  /** The index a field shows for a value: the position of the value's name among the enum's names. */
  function ShownIndex(e: EnumType, v: Value): int
  {
    NameIndex(GetNames(e), GetName(e, v))
  }

  /** Without aliases, the index shown for a parsed member's value is that member's position. */
  lemma ShownIndexOfParsed(e: EnumType, k: nat)
    requires DistinctNames(e) && DistinctValues(e) && k < |e.members|
    ensures ShownIndex(e, Parse(e, GetNames(e)[k]).value) == k
  {
    GetNameOfParsed(e, k);
  }

  /** With two names for one value the shown index falls back to the first of them. */
  lemma ShownIndexWithAlias()
    ensures var e := EnumType([EnumMember("A", 0), EnumMember("B", 0)]);
      DistinctNames(e) && GetNames(e) == ["A", "B"] && Parse(e, "B") == Ok(EnumValue(0)) && ShownIndex(e, EnumValue(0)) == 0
  {
    var e := EnumType([EnumMember("A", 0), EnumMember("B", 0)]);
    assert GetNames(e) == ["A", "B"];
    assert FirstNamed(e.members, "B") == 1;
    assert GetName(e, EnumValue(0)) == Some("A");
  }

  /** The index `Next` moves to: one on, around to the first after the last. */
  function NextIndex(i: int, n: int): (r: int)
    requires n > 0
    ensures -1 <= i < n ==> 0 <= r < n && (if i == n - 1 then r == 0 else r == i + 1)
  {
    CsArith.CsRemCases(i + 1, n);
    CsArith.CsRem(i + 1, n)
  }

  /** The index `Previous` moves to: one back, around to the last below the first. */
  function PreviousIndex(i: int, n: int): (r: int)
    ensures 0 <= i <= n ==> -1 <= r < n
    ensures 1 <= i <= n ==> r == i - 1
    ensures i < 1 ==> r == n - 1
  {
    if i - 1 < 0 then n - 1 else i - 1
  }

  /** `Next` and `Previous` undo each other on every index in range. */
  lemma NextPreviousInverse(i: int, n: int)
    requires 0 <= i < n
    ensures PreviousIndex(NextIndex(i, n), n) == i
    ensures NextIndex(PreviousIndex(i, n), n) == i
  {
  }

  /** Pressing `Next` counts up from an index in range and wraps once past the last. */
  lemma {:induction false} NextCycles(i: int, n: int, presses: nat)
    requires 0 <= i < n && presses <= n
    ensures NextPresses(i, n, presses) == if i + presses < n then i + presses else i + presses - n
  {
    if presses > 0 {
      NextCycles(i, n, presses - 1);
    }
  }

  /** `n` presses of `Next` come back to where they started. */
  lemma NextFullCircle(i: int, n: int)
    requires 0 <= i < n
    ensures NextPresses(i, n, n) == i
  {
    NextCycles(i, n, n);
  }

  /** The index after `presses` presses of `Next`. */
  function NextPresses(i: int, n: int, presses: nat): int
    requires n > 0
  {
    if presses == 0 then i else NextIndex(NextPresses(i, n, presses - 1), n)
  }

  /** A BepInEx configuration entry: its key, description, setting type, acceptable values and boxed value. */
  class ConfigEntry {
    const Key: string
    const Description: string
    const SettingType: SettingType
    const Acceptable: AcceptableValues
    var BoxedValue: Value

    constructor (key: string, description: string, settingType: SettingType, acceptable: AcceptableValues, value: Value)
      ensures Key == key && Description == description && SettingType == settingType
      ensures Acceptable == acceptable && BoxedValue == value
    {
      Key := key;
      Description := description;
      SettingType := settingType;
      Acceptable := acceptable;
      BoxedValue := value;
    }
  }
}
