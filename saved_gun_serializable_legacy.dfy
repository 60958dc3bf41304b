/**
 * The earlier `SavedGunSerializable` (namespace root `Sodalite/src`): the same
 * vault file record, with vectors stored as `Vector3Serializable` and the fire
 * control always loaded from the catalog entry of the file's base gun.
 */
module LegacySerializableVault {
  import opened Wrappers
  import opened Host
  import opened SavedGunModel
  import opened FireSelector
  import opened VectorSerializable
  import SerializableVault

  /** The earlier `SavedGunComponentSerializable`, whose vectors are `Vector3Serializable` records. */
  datatype SavedGunComponentSerializable = SavedGunComponentSerializable(
    Index: int,
    ObjectID: string,
    PosOffset: Vector3Serializable,
    OrientationForward: Vector3Serializable,
    OrientationUp: Vector3Serializable,
    ObjectAttachedTo: int,
    MountAttachedTo: int,
    IsFirearm: bool,
    IsMagazine: bool,
    IsAttachment: bool,
    Flags: Option<FlagDic>)

  /** `new SavedGunComponentSerializable(component)`: the vectors wrapped, the rest copied. */
  function ToSerializable(c: SavedGunComponent): SavedGunComponentSerializable
  {
    SavedGunComponentSerializable(c.Index, c.ObjectID, FromVector3(c.PosOffset), FromVector3(c.OrientationForward),
                                  FromVector3(c.OrientationUp), c.ObjectAttachedTo, c.MountAttachedTo,
                                  c.isFirearm, c.isMagazine, c.isAttachment, c.Flags)
  }

  /** `GetGunComponent()`: a new component with the vectors unwrapped and every other field copied. */
  function GetGunComponent(s: SavedGunComponentSerializable): SavedGunComponent
  {
    NewComponent.(Index := s.Index, ObjectID := s.ObjectID, PosOffset := GetVector3(s.PosOffset),
                  OrientationForward := GetVector3(s.OrientationForward), OrientationUp := GetVector3(s.OrientationUp),
                  ObjectAttachedTo := s.ObjectAttachedTo, MountAttachedTo := s.MountAttachedTo,
                  isFirearm := s.IsFirearm, isMagazine := s.IsMagazine, isAttachment := s.IsAttachment, Flags := s.Flags)
  }

  /** A component converted and converted back keeps all eleven fields. */
  lemma ComponentRoundTrip(c: SavedGunComponent)
    ensures GetGunComponent(ToSerializable(c)) == c
  {
    Vector3RoundTrip(c.PosOffset);
    Vector3RoundTrip(c.OrientationForward);
    Vector3RoundTrip(c.OrientationUp);
  }

  /** A serializable component converted and converted back keeps all eleven fields. */
  lemma SerializableComponentRoundTrip(s: SavedGunComponentSerializable)
    ensures ToSerializable(GetGunComponent(s)) == s
  {
    Vector3WrapRoundTrip(s.PosOffset);
    Vector3WrapRoundTrip(s.OrientationForward);
    Vector3WrapRoundTrip(s.OrientationUp);
  }

  /** The earlier component stores the same values as the current one: only the vector wrapper differs. */
  lemma SameComponentAsCurrent(c: SavedGunComponent)
    ensures GetGunComponent(ToSerializable(c)) == SerializableVault.GetGunComponent(SerializableVault.ToSerializable(c))
  {
    ComponentRoundTrip(c);
  }

  function ToSerializables(cs: seq<SavedGunComponent>): (r: seq<SavedGunComponentSerializable>)
    ensures |r| == |cs| && forall i :: 0 <= i < |cs| ==> r[i] == ToSerializable(cs[i])
  {
    seq(|cs|, i requires 0 <= i < |cs| => ToSerializable(cs[i]))
  }

  function GetGunComponents(ss: seq<SavedGunComponentSerializable>): (r: seq<SavedGunComponent>)
    ensures |r| == |ss| && forall i :: 0 <= i < |ss| ==> r[i] == GetGunComponent(ss[i])
  {
    seq(|ss|, i requires 0 <= i < |ss| => GetGunComponent(ss[i]))
  }

  /** The fields of an earlier `SavedGunSerializable`, as a value. */
  datatype VaultFileState = VaultFileState(
    FileName: Option<string>,
    Components: seq<SavedGunComponentSerializable>,
    LoadedRoundsInMag: seq<RoundClass>,
    LoadedRoundsInChambers: Option<seq<RoundClass>>,
    SavedFlags: Option<seq<string>>,
    settings: FireSettings)

  function Copied(gun: SavedGun): VaultFileState
  {
    VaultFileState(gun.FileName, ToSerializables(gun.Components), gun.LoadedRoundsInMag,
                   gun.LoadedRoundsInChambers, gun.SavedFlags, NoSettings)
  }

  /** The position of the first component flagged as the firearm, if any. */
  function FirstFirearm(cs: seq<SavedGunComponentSerializable>): (r: Option<nat>)
    ensures r.None? <==> forall i :: 0 <= i < |cs| ==> !cs[i].IsFirearm
    ensures r.Some? ==> r.value < |cs| && cs[r.value].IsFirearm && forall i :: 0 <= i < r.value ==> !cs[i].IsFirearm
  {
    if cs == [] then None
    else if cs[0].IsFirearm then Some(0)
    else
      var r := FirstFirearm(cs[1..]);
      assert forall i :: 1 <= i < |cs| ==> cs[i] == cs[1..][i - 1];
      if r.None? then None else Some(r.value + 1)
  }

  /** `GetGunObject()`: the catalog entry of the first component flagged as the firearm. */
  function GetGunObjectOf(cs: seq<SavedGunComponentSerializable>, catalog: Catalog): (r: Result<FVRObject, SerializableVault.VaultFileError>)
    ensures r == Err(SerializableVault.NoBaseGun) <==> forall i :: 0 <= i < |cs| ==> !cs[i].IsFirearm
    ensures r.Ok? ==>
              exists i :: 0 <= i < |cs| && cs[i].IsFirearm && cs[i].ObjectID in catalog && r.value == catalog[cs[i].ObjectID]
                          && forall j :: 0 <= j < i ==> !cs[j].IsFirearm
    ensures r.Err? && r.error.KeyNotFound? ==>
              exists i :: 0 <= i < |cs| && cs[i].IsFirearm && r.error.id == cs[i].ObjectID
                          && cs[i].ObjectID !in catalog && forall j :: 0 <= j < i ==> !cs[j].IsFirearm
  {
    match FirstFirearm(cs)
    case None => Err(SerializableVault.NoBaseGun)
    case Some(k) =>
      if cs[k].ObjectID in catalog then Ok(catalog[cs[k].ObjectID])
      else Err(SerializableVault.KeyNotFound(cs[k].ObjectID))
  }

  /** `new SavedGunSerializable(gun)`: the fields copied, then the fire control of the base gun's catalog entry loaded. */
  function Serialize(gun: SavedGun, catalog: Catalog): Result<VaultFileState, SerializableVault.VaultFileError>
  {
    var st := Copied(gun);
    match GetGunObjectOf(st.Components, catalog)
    case Err(e) => Err(e)
    case Ok(o) =>
      match SerializableVault.LoadFrom(SerializableVault.FirearmComponentOf(o))
      case Err(name) => Err(SerializableVault.ModeName(name))
      case Ok(l) => Ok(st.(settings := WithLoaded(st.settings, l)))
  }

  function SavedGunOf(st: VaultFileState): SavedGun
  {
    SavedGun(st.FileName, GetGunComponents(st.Components), st.LoadedRoundsInMag, st.LoadedRoundsInChambers,
             st.SavedFlags, DefaultDate)
  }

  class SavedGunSerializable {
    var FileName: Option<string>
    var LoadedRoundsInMag: seq<RoundClass>
    var LoadedRoundsInChambers: Option<seq<RoundClass>>
    var SavedFlags: Option<seq<string>>
    var overrideFireRate: bool
    var overrideFireSelectors: bool
    var springSpeedForward: Float
    var springSpeedRearward: Float
    var springStiffness: Float
    var fireSelectorModes: seq<FireSelectorMode>
    var Components: seq<SavedGunComponentSerializable>

    function Settings(): FireSettings
      reads this
    {
      FireSettings(overrideFireRate, overrideFireSelectors, springSpeedForward, springSpeedRearward, springStiffness, fireSelectorModes)
    }

    function State(): VaultFileState
      reads this
    {
      VaultFileState(FileName, Components, LoadedRoundsInMag, LoadedRoundsInChambers, SavedFlags, Settings())
    }

    constructor Copy(gun: SavedGun)
      ensures State() == Copied(gun)
    {
      FileName := gun.FileName;
      Components := ToSerializables(gun.Components);
      LoadedRoundsInMag := gun.LoadedRoundsInMag;
      LoadedRoundsInChambers := gun.LoadedRoundsInChambers;
      SavedFlags := gun.SavedFlags;
      overrideFireRate, overrideFireSelectors := false, false;
      springSpeedForward, springSpeedRearward, springStiffness := Zero, Zero, Zero;
      fireSelectorModes := [];
    }

    /** `LoadFirearmProperties(FVRFireArm firearm)`. */
    method LoadFirearmProperties(firearm: FirearmHandle?) returns (r: Result<(), SerializableVault.VaultFileError>)
      modifies this
      ensures var l := SerializableVault.LoadFrom(if firearm == null then None else Some(firearm.control));
              (r.Ok? <==> l.Ok?)
              && (r.Ok? ==> State() == old(State()).(settings := WithLoaded(old(Settings()), l.value)))
              && (r.Err? ==> r.error == SerializableVault.ModeName(l.error))
    {
      var l := ReadFireControl(firearm);
      if l.Err? {
        return Err(SerializableVault.ModeName(l.error));
      }
      if l.value.Some? {
        var loaded := l.value.value;
        fireSelectorModes := fireSelectorModes + loaded.modes;
        springSpeedForward := loaded.spring.speedForward;
        springSpeedRearward := loaded.spring.speedRearward;
        springStiffness := loaded.spring.stiffness;
      }
      return Ok(());
    }

    function GetGunObject(catalog: Catalog): Result<FVRObject, SerializableVault.VaultFileError>
      reads this
    {
      GetGunObjectOf(Components, catalog)
    }

    /** `LoadFirearmProperties(SavedGun gun)`, which reads this object's components and ignores `gun`. */
    method LoadFirearmPropertiesFromGun(catalog: Catalog) returns (r: Result<(), SerializableVault.VaultFileError>)
      modifies this
      ensures var o := old(GetGunObject(catalog));
              (o.Err? ==> r == Err(o.error) && State() == old(State()))
              && (o.Ok? ==> var l := SerializableVault.LoadFrom(SerializableVault.FirearmComponentOf(o.value));
                            (r.Ok? <==> l.Ok?)
                            && (r.Ok? ==> State() == old(State()).(settings := WithLoaded(old(Settings()), l.value)))
                            && (r.Err? ==> r.error == SerializableVault.ModeName(l.error)))
    {
      var o := GetGunObject(catalog);
      if o.Err? {
        return Err(o.error);
      }
      var component: FirearmHandle? := null;
      if o.value.prefab.kind.FirearmPart? {
        component := new FirearmHandle(o.value.prefab.kind.control);
      }
      r := LoadFirearmProperties(component);
    }

    function GetSavedGun(): SavedGun
      reads this
    {
      SavedGunOf(State())
    }

    /** `ApplyFirearmProperties(firearm)`. */
    method ApplyFirearmProperties(firearm: FirearmHandle?) returns (r: Result<(), SerializableVault.VaultFileError>)
      modifies firearm
      ensures firearm == null ==> r.Ok?
      ensures firearm != null ==>
                var a := Apply(Settings(), old(firearm.control));
                (r.Ok? <==> a.Ok?)
                && (r.Ok? ==> firearm.control == a.value)
                && (r.Err? ==> r.error == SerializableVault.ModeName(a.error) && firearm.control == old(firearm.control))
    {
      var w := WriteFireControl(Settings(), firearm);
      if w.Err? {
        return Err(SerializableVault.ModeName(w.error));
      }
      return Ok(());
    }
  }

  /** The whole constructor `new SavedGunSerializable(gun)`, which may throw. */
  method New(gun: SavedGun, catalog: Catalog) returns (r: Result<SavedGunSerializable, SerializableVault.VaultFileError>)
    ensures var spec := Serialize(gun, catalog);
            (r.Ok? <==> spec.Ok?)
            && (r.Ok? ==> fresh(r.value) && r.value.State() == spec.value)
            && (r.Err? ==> r.error == spec.error)
  {
    var file := new SavedGunSerializable.Copy(gun);
    var loaded := file.LoadFirearmPropertiesFromGun(catalog);
    if loaded.Err? {
      return Err(loaded.error);
    }
    return Ok(file);
  }

  // ---------------------------------------------------------------- properties

  lemma ComponentsRoundTrip(cs: seq<SavedGunComponent>)
    ensures GetGunComponents(ToSerializables(cs)) == cs
  {
    forall i | 0 <= i < |cs|
      ensures GetGunComponents(ToSerializables(cs))[i] == cs[i]
    {
      ComponentRoundTrip(cs[i]);
    }
  }

  /** `GetSavedGun` gives back the file the object was built from, with only the date reset. */
  lemma GetSavedGunAfterSerialize(gun: SavedGun, catalog: Catalog)
    requires Serialize(gun, catalog).Ok?
    ensures SavedGunOf(Serialize(gun, catalog).value) == gun.(DateMade := DefaultDate)
  {
    ComponentsRoundTrip(gun.Components);
  }

  /**
   * The earlier constructor does what the current one does without a firearm
   * argument: it throws the same exception, or records the same fire-control
   * fields and gives back the same vault file.
   */
  lemma AgreesWithCurrent(gun: SavedGun, catalog: Catalog)
    ensures var earlier := Serialize(gun, catalog);
            var current := SerializableVault.Serialize(gun, None, catalog);
            (earlier.Ok? <==> current.Ok?)
            && (earlier.Err? ==> earlier.error == current.error)
            && (earlier.Ok? ==> earlier.value.settings == current.value.settings
                                && SavedGunOf(earlier.value) == SerializableVault.SavedGunOf(current.value))
  {
    GunObjectsAgree(gun, catalog);
    var st := Copied(gun);
    var cur := SerializableVault.Copied(gun);
    match GetGunObjectOf(st.Components, catalog)
    case Err(e) =>
      assert Serialize(gun, catalog) == Err(e);
      assert SerializableVault.Serialize(gun, None, catalog) == Err(e);
    case Ok(o) =>
      match SerializableVault.LoadFrom(SerializableVault.FirearmComponentOf(o))
      case Err(name) =>
        assert Serialize(gun, catalog) == Err(SerializableVault.ModeName(name));
        assert SerializableVault.Serialize(gun, None, catalog) == Err(SerializableVault.ModeName(name));
      case Ok(l) =>
        var earlier := st.(settings := WithLoaded(st.settings, l));
        var current := cur.(settings := WithLoaded(cur.settings, l));
        assert Serialize(gun, catalog) == Ok(earlier);
        assert SerializableVault.Serialize(gun, None, catalog) == Ok(current);
        ComponentsRoundTrip(gun.Components);
        SerializableVault.ComponentsRoundTrip(gun.Components);
        assert SavedGunOf(earlier) == gun.(DateMade := DefaultDate);
        assert SerializableVault.SavedGunOf(current) == gun.(DateMade := DefaultDate);
  }

  /** Both constructors look up the same base gun, with the same exceptions. */
  lemma GunObjectsAgree(gun: SavedGun, catalog: Catalog)
    ensures GetGunObjectOf(Copied(gun).Components, catalog)
         == SerializableVault.GetGunObjectOf(SerializableVault.Copied(gun).Components, catalog)
  {
    var a := Copied(gun).Components;
    var b := SerializableVault.Copied(gun).Components;
    forall i | 0 <= i < |a|
      ensures a[i].IsFirearm == b[i].IsFirearm && a[i].ObjectID == b[i].ObjectID
    {
      assert a[i] == ToSerializable(gun.Components[i]);
      assert b[i] == SerializableVault.ToSerializable(gun.Components[i]);
    }
    SameFirstFirearm(a, b);
  }

  /** Components flagged alike have their first firearm at the same position. */
  lemma {:induction false} SameFirstFirearm(a: seq<SavedGunComponentSerializable>, b: seq<SerializableVault.SavedGunComponentSerializable>)
    requires |a| == |b| && forall i :: 0 <= i < |a| ==> a[i].IsFirearm == b[i].IsFirearm
    ensures FirstFirearm(a) == SerializableVault.FirstFirearm(b)
  {
    if a != [] && !a[0].IsFirearm {
      SameFirstFirearm(a[1..], b[1..]);
    }
  }

  /** Without a component flagged as the firearm the earlier constructor always throws. */
  lemma SerializeWithoutBaseGunThrows(gun: SavedGun, catalog: Catalog)
    requires forall i :: 0 <= i < |gun.Components| ==> !gun.Components[i].isFirearm
    ensures Serialize(gun, catalog) == Err(SerializableVault.NoBaseGun)
  {
    var cs := ToSerializables(gun.Components);
    assert forall i :: 0 <= i < |cs| ==> !cs[i].IsFirearm;
  }
}
