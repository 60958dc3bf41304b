/**
 * Values of the host game that the library reads and writes. Floats, vectors and
 * rotations are opaque: the model only copies them and compares them for equality.
 */
module Host {
  import opened Wrappers

  /** A single-precision float, kept as its raw bit pattern. */
  datatype Float = Float(bits: bv32)

  const Zero: Float := Float(0)
  const One: Float := Float(0x3F80_0000)

  datatype Vec2 = Vec2(x: Float, y: Float)
  datatype Vec3 = Vec3(x: Float, y: Float, z: Float)

  const ZeroVec3: Vec3 := Vec3(Zero, Zero, Zero)

  /** A Unity `Color`: red, green, blue and alpha. */
  datatype Color = Color(r: Float, g: Float, b: Float, a: Float)

  /** `Color.gray`: every channel at one half, fully opaque. */
  const Gray: Color := Color(Float(0x3F00_0000), Float(0x3F00_0000), Float(0x3F00_0000), One)

  /** A rotation, given by the forward and up axes it produces. */
  datatype Basis = Basis(forward: Vec3, up: Vec3)

  /** `Quaternion.identity`: forward is +z and up is +y. */
  const IdentityBasis: Basis := Basis(Vec3(Zero, Zero, One), Vec3(Zero, One, Zero))

  /** `Quaternion.LookRotation(forward, up)` for the orthonormal pair read off a transform. */
  function LookRotation(forward: Vec3, up: Vec3): Basis
  {
    Basis(forward, up)
  }

  /** A `FireArmRoundClass` value. */
  type RoundClass = int

  /** A `Dictionary<string, string>` of object flags. */
  type FlagDic = map<string, string>

  /** A `Handgun.FireSelectorMode` or `ClosedBoltWeapon.FireSelectorMode`; the mode type is kept by name. */
  datatype BurstMode = BurstMode(SelectorPosition: Float, ModeType: string, BurstAmount: int)

  /** An `OpenBoltReceiver.FireSelectorMode`, which has no burst amount. */
  datatype OpenMode = OpenMode(SelectorPosition: Float, ModeType: string)

  /** The forward speed, rearward speed and stiffness of a slide or bolt spring. */
  datatype Spring = Spring(speedForward: Float, speedRearward: Float, stiffness: Float)

  /**
   * The fire-control state of a host firearm, by receiver kind: its mode array,
   * its slide or bolt spring, and the member names of its own mode enum.
   */
  datatype FireControl =
    | HandgunControl(handgunModes: seq<BurstMode>, slide: Spring, handgunNames: set<string>)
    | ClosedBoltControl(closedModes: seq<BurstMode>, closedBolt: Spring, closedNames: set<string>)
    | OpenBoltControl(openModes: seq<OpenMode>, openBolt: Spring, openNames: set<string>)
    | OtherControl

  /** What `GetComponent<…>()` finds on an object's prefab. */
  datatype PartKind =
    | FirearmPart(control: FireControl)
    | MagazinePart
    | ClipPart
    | SpeedloaderPart
    | AttachmentPart
    | PlainPart

  /** The spawnable game object behind a catalog entry. */
  datatype Prefab = Prefab(kind: PartKind, mountCount: nat, integratedMagazine: bool)

  /** An `FVRObject` catalog entry; null lists are None. */
  datatype FVRObject = FVRObject(
    ItemID: string,
    MagazineCapacity: int,
    CompatibleMagazines: Option<seq<FVRObject>>,
    CompatibleClips: Option<seq<FVRObject>>,
    CompatibleSpeedLoaders: Option<seq<FVRObject>>,
    CompatibleSingleRounds: Option<seq<FVRObject>>,
    prefab: Prefab)

  /** The object dictionary `IM.OD`. */
  type Catalog = map<string, FVRObject>
}
