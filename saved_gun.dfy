/**
 * The host's vault-file records `SavedGunComponent` and `SavedGun`, as the
 * library reads and writes them.
 */
module SavedGunModel {
  import opened Wrappers
  import opened Host

  /** One part of a vaulted gun; parent and mount edges are integer positions. */
  datatype SavedGunComponent = SavedGunComponent(
    Index: int,
    ObjectID: string,
    PosOffset: Vec3,
    OrientationForward: Vec3,
    OrientationUp: Vec3,
    ObjectAttachedTo: int,
    MountAttachedTo: int,
    isFirearm: bool,
    isMagazine: bool,
    isAttachment: bool,
    Flags: Option<FlagDic>)

  /** A `DateTime`, kept opaque; `default(DateTime)` is tick 0. */
  datatype Date = Date(ticks: int)

  const DefaultDate: Date := Date(0)

  /** A vault file; the chamber and flag lists are null wherever a host getter returned null. */
  datatype SavedGun = SavedGun(
    FileName: Option<string>,
    Components: seq<SavedGunComponent>,
    LoadedRoundsInMag: seq<RoundClass>,
    LoadedRoundsInChambers: Option<seq<RoundClass>>,
    SavedFlags: Option<seq<string>>,
    DateMade: Date)

  /** `new SavedGunComponent()`: C# field defaults and an empty flag dictionary. */
  const NewComponent: SavedGunComponent :=
    SavedGunComponent(0, "", ZeroVec3, ZeroVec3, ZeroVec3, 0, 0, false, false, false, Some(map[]))

  /** `new SavedGun()`: no file name, empty lists. */
  const NewSavedGun: SavedGun := SavedGun(None, [], [], Some([]), Some([]), DefaultDate)

  /** The ids of a sequence of components, in order. */
  function ObjectIDs(cs: seq<SavedGunComponent>): (ids: seq<string>)
    ensures |ids| == |cs| && forall i :: 0 <= i < |cs| ==> ids[i] == cs[i].ObjectID
  {
    if cs == [] then [] else [cs[0].ObjectID] + ObjectIDs(cs[1..])
  }
}
