/**
 * `SavedGunSerializable` and `SavedGunComponentSerializable` of the current revision:
 * a vault file in a form that serialises, with the firearm's fire-control state
 * captured beside the components.
 */
module SerializableVault {
  import opened Wrappers
  import opened Host
  import opened SavedGunModel
  import opened FireSelector

  /**
   * `SavedGunComponentSerializable`. Its vectors are the host's serializable vector
   * type, which converts to and from a vector implicitly and is kept here as the
   * vector itself.
   */
  datatype SavedGunComponentSerializable = SavedGunComponentSerializable(
    Index: int,
    ObjectID: string,
    PosOffset: Vec3,
    OrientationForward: Vec3,
    OrientationUp: Vec3,
    ObjectAttachedTo: int,
    MountAttachedTo: int,
    IsFirearm: bool,
    IsMagazine: bool,
    IsAttachment: bool,
    Flags: Option<FlagDic>)

  /** `new SavedGunComponentSerializable(component)`: every field copied. */
  function ToSerializable(c: SavedGunComponent): SavedGunComponentSerializable
  {
    SavedGunComponentSerializable(c.Index, c.ObjectID, c.PosOffset, c.OrientationForward, c.OrientationUp,
                                  c.ObjectAttachedTo, c.MountAttachedTo, c.isFirearm, c.isMagazine, c.isAttachment, c.Flags)
  }

  /** `GetGunComponent()`: a new component with every field overwritten. */
  function GetGunComponent(s: SavedGunComponentSerializable): SavedGunComponent
  {
    NewComponent.(Index := s.Index, ObjectID := s.ObjectID, PosOffset := s.PosOffset,
                  OrientationForward := s.OrientationForward, OrientationUp := s.OrientationUp,
                  ObjectAttachedTo := s.ObjectAttachedTo, MountAttachedTo := s.MountAttachedTo,
                  isFirearm := s.IsFirearm, isMagazine := s.IsMagazine, isAttachment := s.IsAttachment, Flags := s.Flags)
  }

  /** A component converted and converted back keeps all eleven fields. */
  lemma ComponentRoundTrip(c: SavedGunComponent)
    ensures GetGunComponent(ToSerializable(c)) == c
  {
  }

  /** A serializable component converted and converted back keeps all eleven fields. */
  lemma SerializableComponentRoundTrip(s: SavedGunComponentSerializable)
    ensures ToSerializable(GetGunComponent(s)) == s
  {
  }

  /** `Components.Select(o => new SavedGunComponentSerializable(o))`. */
  function ToSerializables(cs: seq<SavedGunComponent>): (r: seq<SavedGunComponentSerializable>)
    ensures |r| == |cs| && forall i :: 0 <= i < |cs| ==> r[i] == ToSerializable(cs[i])
  {
    seq(|cs|, i requires 0 <= i < |cs| => ToSerializable(cs[i]))
  }

  /** `Components.Select(o => o.GetGunComponent())`. */
  function GetGunComponents(ss: seq<SavedGunComponentSerializable>): (r: seq<SavedGunComponent>)
    ensures |r| == |ss| && forall i :: 0 <= i < |ss| ==> r[i] == GetGunComponent(ss[i])
  {
    seq(|ss|, i requires 0 <= i < |ss| => GetGunComponent(ss[i]))
  }

  /** The fields of a `SavedGunSerializable`, as a value. */
  datatype VaultFileState = VaultFileState(
    FileName: Option<string>,
    Components: seq<SavedGunComponentSerializable>,
    LoadedRoundsInMag: seq<RoundClass>,
    LoadedRoundsInChambers: Option<seq<RoundClass>>,
    SavedFlags: Option<seq<string>>,
    settings: FireSettings)

  /** The exceptions of the constructor and of `ApplyFirearmProperties`. */
  datatype VaultFileError =
    | KeyNotFound(id: string)    // IM.OD[component.ObjectID] of an id the catalog lacks
    | NoBaseGun                  // "Vault file has no base gun object!"
    | ModeName(name: string)     // Enum.Parse of a mode name the target enum lacks

  /** The field copies at the start of the constructor, with the field initialisers. */
  function Copied(gun: SavedGun): VaultFileState
  {
    VaultFileState(gun.FileName, ToSerializables(gun.Components), gun.LoadedRoundsInMag,
                   gun.LoadedRoundsInChambers, gun.SavedFlags, NoSettings)
  }

  /** The position of the first component flagged as the firearm, if any. */
  function FirstFirearm(cs: seq<SavedGunComponentSerializable>): (r: Option<nat>)
    ensures r.None? <==> forall i :: 0 <= i < |cs| ==> !cs[i].IsFirearm
    ensures r.Some? ==> r.value < |cs| && cs[r.value].IsFirearm && forall i :: 0 <= i < r.value ==> !cs[i].IsFirearm
  {
    if cs == [] then None
    else if cs[0].IsFirearm then Some(0)
    else
      var r := FirstFirearm(cs[1..]);
      assert forall i :: 1 <= i < |cs| ==> cs[i] == cs[1..][i - 1];
      if r.None? then None else Some(r.value + 1)
  }

  /**
   * `GetGunObject()`: the catalog entry of the first component flagged as the
   * firearm; a missing id or a file with no such component throws.
   */
  function GetGunObjectOf(cs: seq<SavedGunComponentSerializable>, catalog: Catalog): (r: Result<FVRObject, VaultFileError>)
    ensures r == Err(NoBaseGun) <==> forall i :: 0 <= i < |cs| ==> !cs[i].IsFirearm
    ensures r.Ok? ==>
              exists i :: 0 <= i < |cs| && cs[i].IsFirearm && cs[i].ObjectID in catalog && r.value == catalog[cs[i].ObjectID]
                          && forall j :: 0 <= j < i ==> !cs[j].IsFirearm
    ensures r.Err? && r.error.KeyNotFound? ==>
              exists i :: 0 <= i < |cs| && cs[i].IsFirearm && r.error.id == cs[i].ObjectID
                          && cs[i].ObjectID !in catalog && forall j :: 0 <= j < i ==> !cs[j].IsFirearm
  {
    match FirstFirearm(cs)
    case None => Err(NoBaseGun)
    case Some(k) => if cs[k].ObjectID in catalog then Ok(catalog[cs[k].ObjectID]) else Err(KeyNotFound(cs[k].ObjectID))
  }

  /** `GetGameObject().GetComponent<FVRFireArm>()` of a catalog entry: null unless its prefab is a firearm. */
  function FirearmComponentOf(o: FVRObject): Option<FireControl>
  {
    if o.prefab.kind.FirearmPart? then Some(o.prefab.kind.control) else None
  }

  /** What `LoadFirearmProperties(firearm)` reads from a firearm component, null giving nothing. */
  function LoadFrom(firearm: Option<FireControl>): Result<Option<Loaded>, string>
  {
    match firearm
    case None => Ok(None)
    case Some(fc) => Load(fc)
  }

  /**
   * `new SavedGunSerializable(gun, firearm)`: the fields are copied, then the fire
   * control is loaded from the firearm passed in or, without one, from the catalog
   * entry of the file's own base gun.
   */
  function Serialize(gun: SavedGun, firearm: Option<FireControl>, catalog: Catalog): Result<VaultFileState, VaultFileError>
  {
    var st := Copied(gun);
    var source: Result<Option<FireControl>, VaultFileError> :=
      if firearm.Some? then Ok(firearm)
      else match GetGunObjectOf(st.Components, catalog)
        case Err(e) => Err(e)
        case Ok(o) => Ok(FirearmComponentOf(o));
    match source
    case Err(e) => Err(e)
    case Ok(fc) =>
      match LoadFrom(fc)
      case Err(name) => Err(ModeName(name))
      case Ok(l) => Ok(st.(settings := WithLoaded(st.settings, l)))
  }

  /** `GetSavedGun()`: the fields copied back, the components converted, the date reset. */
  function SavedGunOf(st: VaultFileState): SavedGun
  {
    SavedGun(st.FileName, GetGunComponents(st.Components), st.LoadedRoundsInMag, st.LoadedRoundsInChambers,
             st.SavedFlags, DefaultDate)
  }

  class SavedGunSerializable {
    var FileName: Option<string>
    var LoadedRoundsInMag: seq<RoundClass>
    var LoadedRoundsInChambers: Option<seq<RoundClass>>
    var SavedFlags: Option<seq<string>>
    var OverrideFireRate: bool
    var OverrideFireSelectors: bool
    var SpeedForward: Float
    var SpeedRearward: Float
    var SpringStiffness: Float
    var FireSelectorModes: seq<FireSelectorMode>
    var Components: seq<SavedGunComponentSerializable>

    /** The fire-control fields. */
    function Settings(): FireSettings
      reads this
    {
      FireSettings(OverrideFireRate, OverrideFireSelectors, SpeedForward, SpeedRearward, SpringStiffness, FireSelectorModes)
    }

    function State(): VaultFileState
      reads this
    {
      VaultFileState(FileName, Components, LoadedRoundsInMag, LoadedRoundsInChambers, SavedFlags, Settings())
    }

    /** The field initialisers and the copies at the start of the constructor. */
    constructor Copy(gun: SavedGun)
      ensures State() == Copied(gun)
    {
      FileName := gun.FileName;
      Components := ToSerializables(gun.Components);
      LoadedRoundsInMag := gun.LoadedRoundsInMag;
      LoadedRoundsInChambers := gun.LoadedRoundsInChambers;
      SavedFlags := gun.SavedFlags;
      OverrideFireRate, OverrideFireSelectors := false, false;
      SpeedForward, SpeedRearward, SpringStiffness := Zero, Zero, Zero;
      FireSelectorModes := [];
    }

    /** `LoadFirearmProperties(FVRFireArm firearm)`. */
    method LoadFirearmProperties(firearm: FirearmHandle?) returns (r: Result<(), VaultFileError>)
      modifies this
      ensures var l := LoadFrom(if firearm == null then None else Some(firearm.control));
              (r.Ok? <==> l.Ok?)
              && (r.Ok? ==> State() == old(State()).(settings := WithLoaded(old(Settings()), l.value)))
              && (r.Err? ==> r.error == ModeName(l.error))
    {
      var l := ReadFireControl(firearm);
      if l.Err? {
        return Err(ModeName(l.error));
      }
      if l.value.Some? {
        var loaded := l.value.value;
        FireSelectorModes := FireSelectorModes + loaded.modes;
        SpeedForward := loaded.spring.speedForward;
        SpeedRearward := loaded.spring.speedRearward;
        SpringStiffness := loaded.spring.stiffness;
      }
      return Ok(());
    }

    /** `GetGunObject()`. */
    function GetGunObject(catalog: Catalog): Result<FVRObject, VaultFileError>
      reads this
    {
      GetGunObjectOf(Components, catalog)
    }

    /** `LoadFirearmProperties(SavedGun gun)`, which reads this object's components and ignores `gun`. */
    method LoadFirearmPropertiesFromGun(catalog: Catalog) returns (r: Result<(), VaultFileError>)
      modifies this
      ensures var o := old(GetGunObject(catalog));
              (o.Err? ==> r == Err(o.error) && State() == old(State()))
              && (o.Ok? ==> var l := LoadFrom(FirearmComponentOf(o.value));
                            (r.Ok? <==> l.Ok?)
                            && (r.Ok? ==> State() == old(State()).(settings := WithLoaded(old(Settings()), l.value)))
                            && (r.Err? ==> r.error == ModeName(l.error)))
    {
      var o := GetGunObject(catalog);
      if o.Err? {
        return Err(o.error);
      }
      var component: FirearmHandle? := null;
      if o.value.prefab.kind.FirearmPart? {
        component := new FirearmHandle(o.value.prefab.kind.control);
      }
      r := LoadFirearmProperties(component);
    }

    /** `GetSavedGun()`. */
    function GetSavedGun(): SavedGun
      reads this
    {
      SavedGunOf(State())
    }

    /** `ApplyFirearmProperties(firearm)`. */
    method ApplyFirearmProperties(firearm: FirearmHandle?) returns (r: Result<(), VaultFileError>)
      modifies firearm
      ensures firearm == null ==> r.Ok?
      ensures firearm != null ==>
                var a := Apply(Settings(), old(firearm.control));
                (r.Ok? <==> a.Ok?)
                && (r.Ok? ==> firearm.control == a.value)
                && (r.Err? ==> r.error == ModeName(a.error) && firearm.control == old(firearm.control))
    {
      var w := WriteFireControl(Settings(), firearm);
      if w.Err? {
        return Err(ModeName(w.error));
      }
      return Ok(());
    }
  }

  /** The whole constructor `new SavedGunSerializable(gun, firearm)`, which may throw. */
  method New(gun: SavedGun, firearm: FirearmHandle?, catalog: Catalog) returns (r: Result<SavedGunSerializable, VaultFileError>)
    ensures var spec := Serialize(gun, if firearm == null then None else Some(firearm.control), catalog);
            (r.Ok? <==> spec.Ok?)
            && (r.Ok? ==> fresh(r.value) && r.value.State() == spec.value)
            && (r.Err? ==> r.error == spec.error)
  {
    var file := new SavedGunSerializable.Copy(gun);
    var loaded: Result<(), VaultFileError>;
    if firearm != null {
      loaded := file.LoadFirearmProperties(firearm);
    } else {
      loaded := file.LoadFirearmPropertiesFromGun(catalog);
    }
    if loaded.Err? {
      return Err(loaded.error);
    }
    return Ok(file);
  }

  // ---------------------------------------------------------------- properties

  /** The components survive serialisation element by element. */
  lemma ComponentsRoundTrip(cs: seq<SavedGunComponent>)
    ensures GetGunComponents(ToSerializables(cs)) == cs
  {
  }

  /**
   * `GetSavedGun` gives back the file the object was built from: name, components,
   * round and flag lists, with only the date reset to its default.
   */
  lemma GetSavedGunAfterSerialize(gun: SavedGun, firearm: Option<FireControl>, catalog: Catalog)
    requires Serialize(gun, firearm, catalog).Ok?
    ensures SavedGunOf(Serialize(gun, firearm, catalog).value) == gun.(DateMade := DefaultDate)
  {
    ComponentsRoundTrip(gun.Components);
  }

  /**
   * The constructor never turns an override on, so applying a freshly built file
   * to any firearm changes nothing until a caller sets one.
   */
  lemma SerializeLeavesOverridesOff(gun: SavedGun, firearm: Option<FireControl>, catalog: Catalog, fc: FireControl)
    requires Serialize(gun, firearm, catalog).Ok?
    ensures var s := Serialize(gun, firearm, catalog).value.settings;
            !s.OverrideFireRate && !s.OverrideFireSelectors && Apply(s, fc) == Ok(fc)
  {
  }

  /** Without a firearm argument, a file with no component flagged as the firearm makes the constructor throw. */
  lemma SerializeWithoutBaseGunThrows(gun: SavedGun, catalog: Catalog)
    requires forall i :: 0 <= i < |gun.Components| ==> !gun.Components[i].isFirearm
    ensures Serialize(gun, None, catalog) == Err(NoBaseGun)
  {
    var cs := ToSerializables(gun.Components);
    assert forall i :: 0 <= i < |cs| ==> !cs[i].IsFirearm;
  }

  /**
   * Loading from a live open bolt records one mode per host mode, in order, each
   * with its selector position and a burst amount of -1.
   */
  lemma SerializeOpenBoltModes(gun: SavedGun, ms: seq<OpenMode>, sp: Spring, names: set<string>, catalog: Catalog)
    requires Serialize(gun, Some(OpenBoltControl(ms, sp, names)), catalog).Ok?
    ensures var s := Serialize(gun, Some(OpenBoltControl(ms, sp, names)), catalog).value.settings;
            |s.FireSelectorModes| == |ms|
            && (forall i :: 0 <= i < |ms| ==> s.FireSelectorModes[i].selectorPosition == ms[i].SelectorPosition
                                              && TypeName(s.FireSelectorModes[i].modeType) == ms[i].ModeType
                                              && s.FireSelectorModes[i].burstAmount == -1)
            && SettingsSpring(s) == sp
  {
    var fc := OpenBoltControl(ms, sp, names);
    var l := FromOpenModes(ms);
    assert LoadFrom(Some(fc)) == Ok(Some(Loaded(l.value, sp)));
    var s := Serialize(gun, Some(fc), catalog).value.settings;
    assert s == WithLoaded(NoSettings, Some(Loaded(l.value, sp)));
    assert s.FireSelectorModes == l.value;
  }

  /** Loading from a live handgun or closed bolt keeps each mode's burst amount. */
  lemma SerializeBurstModes(gun: SavedGun, fc: FireControl, catalog: Catalog)
    requires fc.HandgunControl? || fc.ClosedBoltControl?
    requires Serialize(gun, Some(fc), catalog).Ok?
    ensures var ms := if fc.HandgunControl? then fc.handgunModes else fc.closedModes;
            var s := Serialize(gun, Some(fc), catalog).value.settings;
            |s.FireSelectorModes| == |ms|
            && forall i :: 0 <= i < |ms| ==> s.FireSelectorModes[i].selectorPosition == ms[i].SelectorPosition
                                             && TypeName(s.FireSelectorModes[i].modeType) == ms[i].ModeType
                                             && s.FireSelectorModes[i].burstAmount == ms[i].BurstAmount
  {
    var ms := if fc.HandgunControl? then fc.handgunModes else fc.closedModes;
    var sp := if fc.HandgunControl? then fc.slide else fc.closedBolt;
    var l := FromBurstModes(ms);
    assert LoadFrom(Some(fc)) == Ok(Some(Loaded(l.value, sp)));
    var s := Serialize(gun, Some(fc), catalog).value.settings;
    assert s == WithLoaded(NoSettings, Some(Loaded(l.value, sp)));
    assert s.FireSelectorModes == l.value;
  }
}
