/**
 * `SodaliteEnumInput`: the newer enum input of the mod panel. Unlike the enum
 * config field it keeps its own index: an update shows the name under the index
 * and writes the parsed value, without deriving the index again.
 */
module SodaliteEnumInput {
  import opened Wrappers
  import opened ConfigEntries

  class SodaliteEnumInput {
    /** `_configEntry`, null until the first `Apply`. */
    var entry: ConfigEntry?
    var nameText: string
    var descriptionText: string
    /** The label's text; null when the value has no name. */
    var text: Option<string>
    var enumType: Option<EnumType>
    var index: int
    var items: seq<string>

    /** Names are stored only together with their enum type, and only once an entry was applied. */
    predicate Valid()
      reads this
    {
      items != [] ==> enumType.Some? && items == GetNames(enumType.value) && entry != null
    }

    constructor ()
      ensures entry == null && text == None && enumType == None && index == 0 && items == []
      ensures Valid()
    {
      entry := null;
      nameText, descriptionText := "", "";
      text := None;
      enumType := None;
      index := 0;
      items := [];
    }

    /**
     * `Apply`: a setting that is not an enum throws `InvalidOperationException` once the key
     * and description are shown; otherwise the names are stored, the index moves to the
     * name of the current value and that name is shown.
     */
    method Apply(e: ConfigEntry) returns (r: Result<(), FieldError>)
      requires Valid()
      modifies this
      ensures Valid()
      ensures entry == e && nameText == e.Key && descriptionText == e.Description
      ensures r.Err? <==> !e.SettingType.EnumSetting?
      ensures r.Err? ==> r.error == InvalidOperation && enumType == old(enumType) && items == old(items)
      ensures r.Err? ==> index == old(index) && text == old(text)
      ensures r.Ok? ==> enumType == Some(e.SettingType.enumType) && items == GetNames(e.SettingType.enumType)
      ensures r.Ok? ==> text == GetName(e.SettingType.enumType, e.BoxedValue)
      ensures r.Ok? ==> index == ShownIndex(e.SettingType.enumType, e.BoxedValue)
    {
      entry := e;
      nameText := e.Key;
      descriptionText := e.Description;
      if !e.SettingType.EnumSetting? {
        return Err(InvalidOperation);
      }
      enumType := Some(e.SettingType.enumType);
      items := GetNames(e.SettingType.enumType);
      var value := GetName(e.SettingType.enumType, e.BoxedValue);
      index := NameIndex(items, value);
      text := value;
      r := Ok(());
    }

    /** `UpdateFromIndex`: shows the name under the index and writes the value it parses to. */
    method UpdateFromIndex() returns (r: Result<(), FieldError>)
      requires Valid()
      modifies this, entry
      ensures entry == old(entry) && items == old(items) && enumType == old(enumType) && index == old(index)
      ensures Valid()
      ensures r.Ok? <==> 0 <= index < |items|
      ensures r.Err? ==> r.error == IndexOutOfRange && text == old(text)
      ensures r.Err? && old(entry) != null ==> entry.BoxedValue == old(entry.BoxedValue)
      ensures r.Ok? ==> text == Some(items[index])
      ensures r.Ok? ==> Parse(enumType.value, items[index]) == Ok(entry.BoxedValue)
    {
      if !(0 <= index < |items|) {
        return Err(IndexOutOfRange);
      }
      var value := items[index];
      text := Some(value);
      var parsed := Parse(enumType.value, value);
      entry.BoxedValue := parsed.value;
      r := Ok(());
    }

    /** `Next`: one name on, around to the first after the last; without names it divides by zero. */
    method Next() returns (r: Result<(), FieldError>)
      requires Valid()
      modifies this, entry
      ensures entry == old(entry) && items == old(items) && enumType == old(enumType) && Valid()
      ensures old(items) == [] ==> r == Err(DivideByZero) && index == old(index)
      ensures old(items) != [] ==> index == NextIndex(old(index), |items|)
      ensures old(items) != [] && -1 <= old(index) < |items| ==> r.Ok?
      ensures r.Ok? ==> 0 <= index < |items| && text == Some(items[index])
      ensures r.Ok? ==> Parse(enumType.value, items[index]) == Ok(entry.BoxedValue)
    {
      if |items| == 0 {
        return Err(DivideByZero);
      }
      index := NextIndex(index, |items|);
      r := UpdateFromIndex();
    }

    /** `Previous`: one name back, around to the last below the first. */
    method Previous() returns (r: Result<(), FieldError>)
      requires Valid()
      modifies this, entry
      ensures entry == old(entry) && items == old(items) && enumType == old(enumType) && Valid()
      ensures index == PreviousIndex(old(index), |items|)
      ensures old(items) == [] ==> r == Err(IndexOutOfRange)
      ensures old(items) != [] && -1 <= old(index) <= |items| ==> r.Ok?
      ensures r.Ok? ==> 0 <= index < |items| && text == Some(items[index])
      ensures r.Ok? ==> Parse(enumType.value, items[index]) == Ok(entry.BoxedValue)
    {
      index := PreviousIndex(index, |items|);
      r := UpdateFromIndex();
    }
  }
}
