/**
 * The live objects of a scene that a vault capture walks: a firearm with its
 * magazine and attachments, magazines, clips, speedloaders and attachments sitting
 * on mounts. Object and mount references are kept as identities so that the
 * capture can look them up by position, as `IndexOf` does.
 */
module LiveObjects {
  import opened Wrappers
  import opened Host

  /** The rounds of a magazine or clip: `LoadedRounds[k].LR_Class` for every slot, and `m_numRounds`. */
  datatype RoundStore = RoundStore(loaded: seq<RoundClass>, numRounds: int)

  datatype SpeedloaderChamber = SpeedloaderChamber(IsLoaded: bool, LoadedClass: RoundClass)

  /** An attachment's `curMount`: the mount's identity, and the identity and mount list of `curMount.MyObject`. */
  datatype MountRef = MountRef(mount: nat, owner: nat, ownerMounts: seq<nat>)

  /** The most derived host class of a physical object, with the state a capture reads. */
  datatype ObjKind =
    | FirearmObj(
        magazine: Option<PhysObj>,
        attachments: seq<PhysObj>,
        chamberRounds: Option<seq<RoundClass>>,   // GetChamberRoundList()
        flagList: Option<seq<string>>,            // GetFlagList()
        control: FireControl)
    | MagazineObj(store: RoundStore, IsIntegrated: bool)
    | ClipObj(store: RoundStore)
    | SpeedloaderObj(chambers: seq<SpeedloaderChamber>)
    | AttachmentObj(curMount: Option<MountRef>)
    | OtherObj

  /**
   * An `FVRPhysicalObject`. `wrapper` is `ObjectWrapper.ItemID` (None for a null wrapper),
   * `flagDic` what `GetFlagDic()` returns, and the three vectors are the object's
   * position relative to the root and its forward and up axes as read while the
   * root's rotation is reset to identity.
   */
  datatype PhysObj = PhysObj(
    id: nat,
    wrapper: Option<string>,
    flagDic: Option<FlagDic>,
    relativePos: Vec3,
    forward: Vec3,
    up: Vec3,
    kind: ObjKind)

  /** The field types of the host classes: a firearm's magazine is a magazine, its attachments are attachments. */
  predicate Typed(o: PhysObj)
  {
    match o.kind
    case FirearmObj(m, atts, _, _, _) =>
      (m.Some? ==> m.value.kind.MagazineObj?) && forall a :: a in atts ==> a.kind.AttachmentObj?
    case _ => true
  }

  /** The identities of the objects in a list, in order. */
  function Ids(os: seq<PhysObj>): (ids: seq<nat>)
    ensures |ids| == |os| && forall i :: 0 <= i < |os| ==> ids[i] == os[i].id
  {
    if os == [] then [] else [os[0].id] + Ids(os[1..])
  }

  /** `List.IndexOf`: the first position holding `x`, or -1. */
  function IndexOf<T(==)>(s: seq<T>, x: T): (r: int)
    ensures -1 <= r < |s|
    ensures r == -1 <==> x !in s
    ensures r >= 0 ==> s[r] == x && x !in s[..r]
  {
    if s == [] then -1
    else if s[0] == x then 0
    else
      var k := IndexOf(s[1..], x);
      assert s == [s[0]] + s[1..];
      if k == -1 then -1
      else
        assert s[..k + 1] == [s[0]] + s[1..][..k];
        k + 1
  }

  /** The transform of the root object; the capture touches only its rotation. */
  class Transform {
    var rotation: Basis

    constructor (rotation: Basis)
      ensures this.rotation == rotation
    {
      this.rotation := rotation;
    }
  }
}
