/**
 * `ConfigFieldList`: a mod panel field that cycles a setting through a list of
 * values, all the values of an enum setting or the entries of an
 * `AcceptableValueList`. `Next` and `Previous` move an index over that list and
 * write the value under it back into the entry.
 */
module ConfigFieldList {
  import opened Wrappers
  import opened ConfigEntries

  /**
   * The list `Apply` cycles through: every value of an enum, otherwise the values of an
   * acceptable-values list; with neither the list from before stays.
   */
  function ValuesOf(previous: seq<Value>, entry: ConfigEntry): (r: seq<Value>)
    reads entry
    ensures entry.SettingType.EnumSetting? ==> r == GetValues(entry.SettingType.enumType)
    ensures entry.SettingType.OtherSetting? && entry.Acceptable.ValueList? ==> r == entry.Acceptable.values
    ensures entry.SettingType.OtherSetting? && !entry.Acceptable.ValueList? ==> r == previous
  {
    if entry.SettingType.EnumSetting? then GetValues(entry.SettingType.enumType)
    else if entry.Acceptable.ValueList? then entry.Acceptable.values
    else previous
  }

  class ConfigFieldList {
    /** `ConfigEntry`, null until the first `Apply`. */
    var entry: ConfigEntry?
    /** The texts of the `Name`, `Description` and value labels. */
    var nameText: string
    var descriptionText: string
    var text: string
    /** `_index` and `_values`. */
    var index: int
    var values: seq<Value>

    /** Once there are values, the entry is set and the index points into them, or is -1 for a value that is not listed. */
    predicate Valid()
      reads this
    {
      |values| > 0 ==> entry != null && -1 <= index < |values|
    }

    constructor ()
      ensures entry == null && index == 0 && values == [] && Valid()
      ensures nameText == "" && descriptionText == "" && text == ""
    {
      entry := null;
      nameText, descriptionText, text := "", "", "";
      index := 0;
      values := [];
    }

    /**
     * `Apply`: shows the entry's key and description and takes the values to cycle through;
     * an empty list throws `ArgumentException`, otherwise the index is the position of the
     * current value, -1 when it is not listed.
     */
    method Apply(e: ConfigEntry) returns (r: Result<(), FieldError>)
      modifies this
      ensures entry == e && nameText == e.Key && descriptionText == e.Description && text == old(text)
      ensures values == ValuesOf(old(values), e)
      ensures r.Err? <==> values == []
      ensures r.Err? ==> r.error == ArgumentError && index == old(index)
      ensures r.Ok? ==> index == IndexOf(values, e.BoxedValue) && Valid()
    {
      entry := e;
      nameText := e.Key;
      descriptionText := e.Description;
      values := ValuesOf(values, e);
      if |values| == 0 {
        return Err(ArgumentError);
      }
      index := IndexOf(values, e.BoxedValue);
      r := Ok(());
    }

    /** `Redraw`: shows the entry's current value. */
    method Redraw() returns (r: Result<(), FieldError>)
      modifies this
      ensures r.Err? <==> entry == null
      ensures r.Err? ==> r.error == NullReference && text == old(text)
      ensures r.Ok? ==> text == ValueText(entry.SettingType, entry.BoxedValue)
      ensures entry == old(entry) && index == old(index) && values == old(values)
      ensures nameText == old(nameText) && descriptionText == old(descriptionText)
    {
      if entry == null {
        return Err(NullReference);
      }
      text := ValueText(entry.SettingType, entry.BoxedValue);
      r := Ok(());
    }

    /** `UpdateFromIndex`: writes the value under the index into the entry and redraws. */
    method UpdateFromIndex() returns (r: Result<(), FieldError>)
      requires |values| > 0 ==> entry != null
      modifies this, entry
      ensures entry == old(entry) && index == old(index) && values == old(values)
      ensures r.Ok? <==> 0 <= index < |values|
      ensures r.Err? ==> r.error == IndexOutOfRange && text == old(text)
      ensures r.Err? && old(entry) != null ==> entry.BoxedValue == old(entry.BoxedValue)
      ensures r.Ok? ==> entry != null && entry.BoxedValue == values[index]
      ensures r.Ok? ==> text == ValueText(entry.SettingType, values[index])
      ensures nameText == old(nameText) && descriptionText == old(descriptionText)
    {
      if !(0 <= index < |values|) {
        return Err(IndexOutOfRange);
      }
      entry.BoxedValue := values[index];
      text := ValueText(entry.SettingType, entry.BoxedValue);
      r := Ok(());
    }

    /**
     * `Next`: one value on, around to the first after the last; an empty list divides by zero.
     * From a valid state it always lands on a listed value and writes it.
     */
    method Next() returns (r: Result<(), FieldError>)
      requires |values| > 0 ==> entry != null
      modifies this, entry
      ensures values == old(values) && entry == old(entry)
      ensures old(values) == [] ==> r == Err(DivideByZero) && index == old(index)
      ensures old(values) != [] ==> index == NextIndex(old(index), |values|)
      ensures r.Ok? ==> 0 <= index < |values| && entry.BoxedValue == values[index]
      ensures r.Ok? ==> text == ValueText(entry.SettingType, values[index])
      ensures old(Valid()) && values != [] ==> r.Ok? && Valid()
    {
      if |values| == 0 {
        return Err(DivideByZero);
      }
      index := NextIndex(index, |values|);
      r := UpdateFromIndex();
    }

    /**
     * `Previous`: one value back, around to the last below the first. With an empty list the
     * index becomes -1 and reading the value under it throws.
     */
    method Previous() returns (r: Result<(), FieldError>)
      requires |values| > 0 ==> entry != null
      modifies this, entry
      ensures values == old(values) && entry == old(entry)
      ensures index == PreviousIndex(old(index), |values|)
      ensures old(values) == [] ==> r == Err(IndexOutOfRange)
      ensures r.Ok? ==> 0 <= index < |values| && entry.BoxedValue == values[index]
      ensures r.Ok? ==> text == ValueText(entry.SettingType, values[index])
      ensures old(Valid()) ==> Valid() && (values != [] ==> r.Ok?)
    {
      index := PreviousIndex(index, |values|);
      r := UpdateFromIndex();
    }
  }
}
