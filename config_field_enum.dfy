/**
 * `EnumConfigField`: a mod panel field that steps an enum setting through the
 * names of its enum. The index is not kept by `Next` and `Previous` alone: every
 * update redraws, and `Redraw` derives the index again from the name of the value
 * just written.
 */
module ConfigFieldEnum {
  import opened Wrappers
  import opened ConfigEntries

  class EnumConfigField {
    /** `ConfigEntry`, null until the first `Apply`. */
    var entry: ConfigEntry?
    var nameText: string
    var descriptionText: string
    /** The value label's text; null when the value has no name. */
    var text: Option<string>
    /** `_enumType`, null until an enum entry is applied. */
    var enumType: Option<EnumType>
    /** `_index` and `_items`. */
    var index: int
    var items: seq<string>

    /**
     * Names are stored only together with their enum type, and only once an entry was applied;
     * an applied enum entry is the stored enum type.
     */
    predicate Valid()
      reads this
    {
      (items != [] ==> enumType.Some? && items == GetNames(enumType.value) && entry != null)
      && (entry != null && entry.SettingType.EnumSetting? ==> enumType == Some(entry.SettingType.enumType))
    }

    /** The entry's setting type is the stored enum type, as after an `Apply` that succeeded. */
    predicate Applied()
      reads this
    {
      enumType.Some? && entry != null && entry.SettingType == EnumSetting(enumType.value)
    }

    constructor ()
      ensures entry == null && text == None && enumType == None && index == 0 && items == []
      ensures Valid()
    {
      entry := null;
      nameText, descriptionText := "", "";
      text := None;
      enumType := None;
      index := 0;
      items := [];
    }

    /**
     * `Apply`: after the base class has shown the key and description, a setting that is not
     * an enum throws `InvalidOperationException`; otherwise the enum's names are stored.
     * The index is left as it was until the next `Redraw`.
     */
    method Apply(e: ConfigEntry) returns (r: Result<(), FieldError>)
      requires Valid()
      modifies this
      ensures Valid()
      ensures entry == e && nameText == e.Key && descriptionText == e.Description
      ensures index == old(index) && text == old(text)
      ensures r.Err? <==> !e.SettingType.EnumSetting?
      ensures r.Err? ==> r.error == InvalidOperation && enumType == old(enumType) && items == old(items)
      ensures r.Ok? ==> enumType == Some(e.SettingType.enumType) && items == GetNames(e.SettingType.enumType)
      ensures r.Ok? ==> Applied()
    {
      entry := e;
      nameText := e.Key;
      descriptionText := e.Description;
      if !e.SettingType.EnumSetting? {
        return Err(InvalidOperation);
      }
      enumType := Some(e.SettingType.enumType);
      items := GetNames(e.SettingType.enumType);
      r := Ok(());
    }

    /**
     * `Redraw`: shows the name of the entry's value and moves the index to that name,
     * -1 and a null text for a value no member has.
     */
    method Redraw() returns (r: Result<(), FieldError>)
      requires Valid()
      modifies this
      ensures Valid()
      ensures entry == old(entry) && items == old(items) && enumType == old(enumType)
      ensures r.Err? <==> entry == null || !entry.SettingType.EnumSetting?
      ensures r.Err? ==> index == old(index) && text == old(text)
      ensures r.Err? ==> r.error == if entry == null then NullReference else ArgumentError
      ensures r.Ok? ==> text == GetName(entry.SettingType.enumType, entry.BoxedValue)
      ensures r.Ok? ==> index == NameIndex(items, text)
    {
      if entry == null {
        return Err(NullReference);
      }
      if !entry.SettingType.EnumSetting? {
        return Err(ArgumentError);
      }
      var value := GetName(entry.SettingType.enumType, entry.BoxedValue);
      index := NameIndex(items, value);
      text := value;
      r := Ok(());
    }

    /**
     * `UpdateFromIndex`: parses the name under the index, writes that value and redraws; the
     * redraw fails if the entry applied last is not an enum.
     */
    method UpdateFromIndex() returns (r: Result<(), FieldError>)
      requires Valid()
      modifies this, entry
      ensures entry == old(entry) && items == old(items) && enumType == old(enumType) && Valid()
      ensures !(0 <= old(index) < |items|) ==> r == Err(IndexOutOfRange) && index == old(index)
      ensures !(0 <= old(index) < |items|) && entry != null ==> entry.BoxedValue == old(entry.BoxedValue)
      ensures 0 <= old(index) < |items| ==> Parse(enumType.value, items[old(index)]) == Ok(entry.BoxedValue)
      ensures 0 <= old(index) < |items| ==> (r.Ok? <==> Applied())
      ensures r.Ok? ==> Applied() && index == ShownIndex(enumType.value, entry.BoxedValue)
      ensures r.Ok? ==> text == GetName(enumType.value, entry.BoxedValue)
    {
      if !(0 <= index < |items|) {
        return Err(IndexOutOfRange);
      }
      var parsed := Parse(enumType.value, items[index]);
      assert items == GetNames(enumType.value);
      entry.BoxedValue := parsed.value;
      r := Redraw();
    }

    /**
     * `Next`: one name on, around to the first after the last, then the update; an enum
     * without members divides by zero.
     */
    method Next() returns (r: Result<(), FieldError>)
      requires Valid()
      modifies this, entry
      ensures entry == old(entry) && items == old(items) && enumType == old(enumType) && Valid()
      ensures old(items) == [] ==> r == Err(DivideByZero) && index == old(index)
      ensures old(items) != [] ==> 0 <= NextIndex(old(index), |items|) < |items| || r.Err?
      ensures r.Ok? ==> Parse(enumType.value, items[NextIndex(old(index), |items|)]) == Ok(entry.BoxedValue)
      ensures old(items) != [] && -1 <= old(index) < |items| && Applied() ==> r.Ok?
      ensures r.Ok? ==> index == ShownIndex(enumType.value, entry.BoxedValue)
    {
      if |items| == 0 {
        return Err(DivideByZero);
      }
      index := NextIndex(index, |items|);
      r := UpdateFromIndex();
    }

    /** `Previous`: one name back, around to the last below the first, then the update. */
    method Previous() returns (r: Result<(), FieldError>)
      requires Valid()
      modifies this, entry
      ensures entry == old(entry) && items == old(items) && enumType == old(enumType) && Valid()
      ensures old(items) == [] ==> r == Err(IndexOutOfRange)
      ensures r.Ok? ==> 0 <= PreviousIndex(old(index), |items|) < |items|
      ensures r.Ok? ==> Parse(enumType.value, items[PreviousIndex(old(index), |items|)]) == Ok(entry.BoxedValue)
      ensures old(items) != [] && -1 <= old(index) <= |items| && Applied() ==> r.Ok?
      ensures r.Ok? ==> index == ShownIndex(enumType.value, entry.BoxedValue)
    {
      index := PreviousIndex(index, |items|);
      r := UpdateFromIndex();
    }
  }

  /** The index `Next` leaves behind: the shown index of the value parsed from the next name. */
  function IndexAfterNext(e: EnumType, i: int): int
    requires |e.members| > 0 && -1 <= i < |e.members|
  {
    var names := GetNames(e);
    var k := NextIndex(i, |names|);
    match Parse(e, names[k])
    case Ok(v) => ShownIndex(e, v)
    case Err(_) => i
  }

  /** Without aliases, `Next` moves the enum field one name on, as the index arithmetic says. */
  lemma NextMovesOneName(e: EnumType, i: int)
    requires DistinctNames(e) && DistinctValues(e) && |e.members| > 0 && -1 <= i < |e.members|
    ensures IndexAfterNext(e, i) == NextIndex(i, |e.members|)
  {
    var k := NextIndex(i, |e.members|);
    ShownIndexOfParsed(e, k);
    ParseName(e, k);
  }

  /** With two names for one value, `Next` from the first name comes back to it: the field never shows the alias. */
  lemma NextStuckOnAlias()
    ensures var e := EnumType([EnumMember("A", 0), EnumMember("B", 0)]);
      IndexAfterNext(e, 0) == 0
  {
    var e := EnumType([EnumMember("A", 0), EnumMember("B", 0)]);
    assert NextIndex(0, 2) == 1;
    assert GetNames(e) == ["A", "B"];
    ShownIndexWithAlias();
  }
}
