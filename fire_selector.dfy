/**
 * `FireSelectorMode`, `FireSelectorModeType` and the fire-control transfer between a
 * host firearm and a vault file (`LoadFirearmProperties` / `ApplyFirearmProperties`),
 * which both revisions of `SavedGunSerializable` share.
 */
module FireSelector {
  import opened Wrappers
  import opened Host

  datatype FireSelectorModeType = Safe | Single | Burst | FullAuto | SuperFastBurst

  /** The member names of `FireSelectorModeType`. */
  const ModeTypeNames: set<string> := {"Safe", "Single", "Burst", "FullAuto", "SuperFastBurst"}

  /** `modeType.ToString()`. */
  function TypeName(t: FireSelectorModeType): string
  {
    match t
    case Safe => "Safe"
    case Single => "Single"
    case Burst => "Burst"
    case FullAuto => "FullAuto"
    case SuperFastBurst => "SuperFastBurst"
  }

  /** `Enum.Parse(typeof(FireSelectorModeType), name)`; None where it throws. */
  function ParseModeType(name: string): (r: Option<FireSelectorModeType>)
    ensures r.None? <==> name !in ModeTypeNames
    ensures r.Some? ==> TypeName(r.value) == name
  {
    if name == "Safe" then Some(Safe)
    else if name == "Single" then Some(Single)
    else if name == "Burst" then Some(Burst)
    else if name == "FullAuto" then Some(FullAuto)
    else if name == "SuperFastBurst" then Some(SuperFastBurst)
    else None
  }

  /** Every mode type survives `ToString` followed by `Enum.Parse`. */
  lemma ParseTypeName(t: FireSelectorModeType)
    ensures ParseModeType(TypeName(t)) == Some(t)
  {
  }

  /** Sodalite's own selector mode. */
  datatype FireSelectorMode = FireSelectorMode(selectorPosition: Float, modeType: FireSelectorModeType, burstAmount: int)

  /** `new FireSelectorMode()`. */
  const DefaultMode: FireSelectorMode := FireSelectorMode(Zero, Safe, 0)

  /** The handgun and closed-bolt constructors; an unknown mode name throws, reported with that name. */
  function FromBurstMode(m: BurstMode): (r: Result<FireSelectorMode, string>)
    ensures r.Ok? <==> m.ModeType in ModeTypeNames
    ensures r.Ok? ==> r.value.selectorPosition == m.SelectorPosition && TypeName(r.value.modeType) == m.ModeType
                      && r.value.burstAmount == m.BurstAmount
    ensures r.Err? ==> r.error == m.ModeType
  {
    match ParseModeType(m.ModeType)
    case None => Err(m.ModeType)
    case Some(t) => Ok(FireSelectorMode(m.SelectorPosition, t, m.BurstAmount))
  }

  /** The open-bolt constructor, which records a burst amount of -1. */
  function FromOpenMode(m: OpenMode): (r: Result<FireSelectorMode, string>)
    ensures r.Ok? <==> m.ModeType in ModeTypeNames
    ensures r.Ok? ==> r.value.selectorPosition == m.SelectorPosition && TypeName(r.value.modeType) == m.ModeType
                      && r.value.burstAmount == -1
    ensures r.Err? ==> r.error == m.ModeType
  {
    match ParseModeType(m.ModeType)
    case None => Err(m.ModeType)
    case Some(t) => Ok(FireSelectorMode(m.SelectorPosition, t, -1))
  }

  /** `GetHandgunMode` / `GetClosedBoltMode`, parsing the name into the host enum with the given member names. */
  function ToBurstMode(m: FireSelectorMode, names: set<string>): (r: Result<BurstMode, string>)
    ensures r.Ok? <==> TypeName(m.modeType) in names
    ensures r.Ok? ==> FromBurstMode(r.value) == Ok(m)
  {
    ParseTypeName(m.modeType);
    if TypeName(m.modeType) in names then Ok(BurstMode(m.selectorPosition, TypeName(m.modeType), m.burstAmount))
    else Err(TypeName(m.modeType))
  }

  /** `GetOpenBoltMode`, which drops the burst amount. */
  function ToOpenMode(m: FireSelectorMode, names: set<string>): (r: Result<OpenMode, string>)
    ensures r.Ok? <==> TypeName(m.modeType) in names
    ensures r.Ok? ==> FromOpenMode(r.value) == Ok(m.(burstAmount := -1))
  {
    ParseTypeName(m.modeType);
    if TypeName(m.modeType) in names then Ok(OpenMode(m.selectorPosition, TypeName(m.modeType)))
    else Err(TypeName(m.modeType))
  }

  /** Converting a whole host array stops at the first mode the enum cannot parse. */
  function FromBurstModes(ms: seq<BurstMode>): (r: Result<seq<FireSelectorMode>, string>)
    ensures r.Ok? <==> forall i :: 0 <= i < |ms| ==> ms[i].ModeType in ModeTypeNames
    ensures r.Ok? ==> |r.value| == |ms| && forall i :: 0 <= i < |ms| ==> FromBurstMode(ms[i]) == Ok(r.value[i])

    ensures r.Err? ==> exists i :: 0 <= i < |ms| && FromBurstMode(ms[i]).Err? && r.error == FromBurstMode(ms[i]).error
                                   && forall j :: 0 <= j < i ==> FromBurstMode(ms[j]).Ok?
  {
    if ms == [] then Ok([])
    else match FromBurstMode(ms[0])
      case Err(e) => Err(e)
      case Ok(m) =>
        match FromBurstModes(ms[1..])
        case Err(e) =>
          assert forall j :: 1 <= j < |ms| ==> ms[j] == ms[1..][j - 1];
          Err(e)
        case Ok(rest) => Ok([m] + rest)
  }

  function FromOpenModes(ms: seq<OpenMode>): (r: Result<seq<FireSelectorMode>, string>)
    ensures r.Ok? <==> forall i :: 0 <= i < |ms| ==> ms[i].ModeType in ModeTypeNames
    ensures r.Ok? ==> |r.value| == |ms| && forall i :: 0 <= i < |ms| ==> FromOpenMode(ms[i]) == Ok(r.value[i])

    ensures r.Err? ==> exists i :: 0 <= i < |ms| && FromOpenMode(ms[i]).Err? && r.error == FromOpenMode(ms[i]).error
                                   && forall j :: 0 <= j < i ==> FromOpenMode(ms[j]).Ok?
  {
    if ms == [] then Ok([])
    else match FromOpenMode(ms[0])
      case Err(e) => Err(e)
      case Ok(m) =>
        match FromOpenModes(ms[1..])
        case Err(e) =>
          assert forall j :: 1 <= j < |ms| ==> ms[j] == ms[1..][j - 1];
          Err(e)
        case Ok(rest) => Ok([m] + rest)
  }

  function ToBurstModes(ms: seq<FireSelectorMode>, names: set<string>): (r: Result<seq<BurstMode>, string>)
    ensures r.Ok? <==> forall i :: 0 <= i < |ms| ==> TypeName(ms[i].modeType) in names
    ensures r.Ok? ==> |r.value| == |ms| && forall i :: 0 <= i < |ms| ==> ToBurstMode(ms[i], names) == Ok(r.value[i])

    ensures r.Err? ==> exists i :: 0 <= i < |ms| && ToBurstMode(ms[i], names).Err? && r.error == ToBurstMode(ms[i], names).error
                                   && forall j :: 0 <= j < i ==> ToBurstMode(ms[j], names).Ok?
  {
    if ms == [] then Ok([])
    else match ToBurstMode(ms[0], names)
      case Err(e) => Err(e)
      case Ok(m) =>
        match ToBurstModes(ms[1..], names)
        case Err(e) =>
          assert forall j :: 1 <= j < |ms| ==> ms[j] == ms[1..][j - 1];
          Err(e)
        case Ok(rest) => Ok([m] + rest)
  }

  function ToOpenModes(ms: seq<FireSelectorMode>, names: set<string>): (r: Result<seq<OpenMode>, string>)
    ensures r.Ok? <==> forall i :: 0 <= i < |ms| ==> TypeName(ms[i].modeType) in names
    ensures r.Ok? ==> |r.value| == |ms| && forall i :: 0 <= i < |ms| ==> ToOpenMode(ms[i], names) == Ok(r.value[i])

    ensures r.Err? ==> exists i :: 0 <= i < |ms| && ToOpenMode(ms[i], names).Err? && r.error == ToOpenMode(ms[i], names).error
                                   && forall j :: 0 <= j < i ==> ToOpenMode(ms[j], names).Ok?
  {
    if ms == [] then Ok([])
    else match ToOpenMode(ms[0], names)
      case Err(e) => Err(e)
      case Ok(m) =>
        match ToOpenModes(ms[1..], names)
        case Err(e) =>
          assert forall j :: 1 <= j < |ms| ==> ms[j] == ms[1..][j - 1];
          Err(e)
        case Ok(rest) => Ok([m] + rest)
  }

  /** The fire-control fields of a vault file. */
  datatype FireSettings = FireSettings(
    OverrideFireRate: bool,
    OverrideFireSelectors: bool,
    SpeedForward: Float,
    SpeedRearward: Float,
    SpringStiffness: Float,
    FireSelectorModes: seq<FireSelectorMode>)

  /** The fire-control fields of a vault file that nothing has loaded into: C# defaults and an empty mode list. */
  const NoSettings: FireSettings := FireSettings(false, false, Zero, Zero, Zero, [])

  /**
   * `LoadFirearmProperties(firearm)` on the fire-control fields: the loaded modes are
   * appended and the spring copied; the override flags are not touched.
   */
  function WithLoaded(s: FireSettings, l: Option<Loaded>): FireSettings
  {
    match l
    case None => s
    case Some(l) =>
      s.(FireSelectorModes := s.FireSelectorModes + l.modes,
         SpeedForward := l.spring.speedForward, SpeedRearward := l.spring.speedRearward, SpringStiffness := l.spring.stiffness)
  }

  /** The spring a settings record would write. */
  function SettingsSpring(s: FireSettings): Spring
  {
    Spring(s.SpeedForward, s.SpeedRearward, s.SpringStiffness)
  }

  /** The spring of a known receiver kind. */
  function SpringOf(fc: FireControl): Option<Spring>
  {
    match fc
    case HandgunControl(_, sp, _) => Some(sp)
    case ClosedBoltControl(_, sp, _) => Some(sp)
    case OpenBoltControl(_, sp, _) => Some(sp)
    case OtherControl => None
  }

  /** The host enum's member names for a known receiver kind. */
  function NamesOf(fc: FireControl): set<string>
  {
    match fc
    case HandgunControl(_, _, n) => n
    case ClosedBoltControl(_, _, n) => n
    case OpenBoltControl(_, _, n) => n
    case OtherControl => {}
  }

  /** Two fire-control states of the same receiver kind with the same mode array. */
  predicate SameModes(a: FireControl, b: FireControl)
  {
    match a
    case HandgunControl(ms, _, n) => b.HandgunControl? && b.handgunModes == ms && b.handgunNames == n
    case ClosedBoltControl(ms, _, n) => b.ClosedBoltControl? && b.closedModes == ms && b.closedNames == n
    case OpenBoltControl(ms, _, n) => b.OpenBoltControl? && b.openModes == ms && b.openNames == n
    case OtherControl => b.OtherControl?
  }

  /** The modes and spring that `LoadFirearmProperties(firearm)` reads from a firearm. */
  datatype Loaded = Loaded(modes: seq<FireSelectorMode>, spring: Spring)

  /**
   * What `LoadFirearmProperties(firearm)` takes from a firearm: the converted mode list
   * and the spring for a known receiver, nothing for any other kind, or the
   * mode name the enum cannot parse.
   */
  function Load(fc: FireControl): (r: Result<Option<Loaded>, string>)
    ensures fc.OtherControl? ==> r == Ok(None)
    ensures r.Ok? && !fc.OtherControl? ==> r.value.Some? && Some(r.value.value.spring) == SpringOf(fc)
    ensures fc.HandgunControl? ==> (r.Ok? <==> FromBurstModes(fc.handgunModes).Ok?)
    ensures fc.ClosedBoltControl? ==> (r.Ok? <==> FromBurstModes(fc.closedModes).Ok?)
    ensures fc.OpenBoltControl? ==> (r.Ok? <==> FromOpenModes(fc.openModes).Ok?)
  {
    match fc
    case HandgunControl(ms, sp, _) =>
      (match FromBurstModes(ms) case Err(e) => Err(e) case Ok(l) => Ok(Some(Loaded(l, sp))))
    case ClosedBoltControl(ms, sp, _) =>
      (match FromBurstModes(ms) case Err(e) => Err(e) case Ok(l) => Ok(Some(Loaded(l, sp))))
    case OpenBoltControl(ms, sp, _) =>
      (match FromOpenModes(ms) case Err(e) => Err(e) case Ok(l) => Ok(Some(Loaded(l, sp))))
    case OtherControl => Ok(None)
  }

  /**
   * `ApplyFirearmProperties(firearm)` on the firearm's fire-control state. The new mode
   * array is built in full before it is assigned, so a name the host enum cannot parse
   * leaves the firearm unchanged.
   */
  function Apply(s: FireSettings, fc: FireControl): (r: Result<FireControl, string>)
    ensures !s.OverrideFireRate && !s.OverrideFireSelectors ==> r == Ok(fc)
    ensures fc.OtherControl? ==> r == Ok(fc)
    ensures r.Err? <==> (s.OverrideFireSelectors && !fc.OtherControl?
                      && exists i :: 0 <= i < |s.FireSelectorModes| && TypeName(s.FireSelectorModes[i].modeType) !in NamesOf(fc))
    ensures r.Ok? && !s.OverrideFireSelectors ==> SameModes(fc, r.value)
    ensures r.Ok? ==> NamesOf(r.value) == NamesOf(fc)
    ensures r.Ok? && !s.OverrideFireRate ==> SpringOf(r.value) == SpringOf(fc)
    ensures r.Ok? && s.OverrideFireRate && !fc.OtherControl? ==> SpringOf(r.value) == Some(SettingsSpring(s))
    ensures r.Ok? && s.OverrideFireSelectors && fc.HandgunControl? ==>
              r.value.HandgunControl? && FromBurstModes(r.value.handgunModes) == Ok(s.FireSelectorModes)
    ensures r.Ok? && s.OverrideFireSelectors && fc.ClosedBoltControl? ==>
              r.value.ClosedBoltControl? && FromBurstModes(r.value.closedModes) == Ok(s.FireSelectorModes)
    ensures r.Ok? && s.OverrideFireSelectors && fc.OpenBoltControl? ==>
              r.value.OpenBoltControl? && FromOpenModes(r.value.openModes) == Ok(DropBursts(s.FireSelectorModes))
  {
    if !s.OverrideFireRate && !s.OverrideFireSelectors then Ok(fc)
    else
      match fc
      case HandgunControl(ms, sp, n) =>
        (match (if s.OverrideFireSelectors then ToBurstModes(s.FireSelectorModes, n) else Ok(ms))
         case Err(e) => Err(e)
         case Ok(ms') =>
           var sp' := if s.OverrideFireRate then SettingsSpring(s) else sp;
           if s.OverrideFireSelectors then BurstModesRoundTrip(s.FireSelectorModes, n, ms'); Ok(HandgunControl(ms', sp', n))
           else Ok(HandgunControl(ms', sp', n)))
      case ClosedBoltControl(ms, sp, n) =>
        (match (if s.OverrideFireSelectors then ToBurstModes(s.FireSelectorModes, n) else Ok(ms))
         case Err(e) => Err(e)
         case Ok(ms') =>
           var sp' := if s.OverrideFireRate then SettingsSpring(s) else sp;
           if s.OverrideFireSelectors then BurstModesRoundTrip(s.FireSelectorModes, n, ms'); Ok(ClosedBoltControl(ms', sp', n))
           else Ok(ClosedBoltControl(ms', sp', n)))
      case OpenBoltControl(ms, sp, n) =>
        (match (if s.OverrideFireSelectors then ToOpenModes(s.FireSelectorModes, n) else Ok(ms))
         case Err(e) => Err(e)
         case Ok(ms') =>
           var sp' := if s.OverrideFireRate then SettingsSpring(s) else sp;
           if s.OverrideFireSelectors then OpenModesRoundTrip(s.FireSelectorModes, n, ms'); Ok(OpenBoltControl(ms', sp', n))
           else Ok(OpenBoltControl(ms', sp', n)))
      case OtherControl => Ok(fc)
  }

  /** Modes written to a handgun or closed bolt read back as the same modes. */
  lemma {:induction false} BurstModesRoundTrip(ms: seq<FireSelectorMode>, names: set<string>, out: seq<BurstMode>)
    requires ToBurstModes(ms, names) == Ok(out)
    ensures FromBurstModes(out) == Ok(ms)
  {
    if ms != [] {
      var head := ToBurstMode(ms[0], names);
      var rest := ToBurstModes(ms[1..], names);
      assert head.Ok? && rest.Ok? && out == [head.value] + rest.value;
      BurstModesRoundTrip(ms[1..], names, rest.value);
      assert out[0] == head.value && out[1..] == rest.value;
      assert FromBurstMode(out[0]) == Ok(ms[0]);
      assert FromBurstModes(out[1..]) == Ok(ms[1..]);
      assert FromBurstModes(out) == Ok([ms[0]] + ms[1..]);
      assert ms == [ms[0]] + ms[1..];
    }
  }

  /** Modes written to an open bolt read back with their burst amounts set to -1. */
  lemma {:induction false} OpenModesRoundTrip(ms: seq<FireSelectorMode>, names: set<string>, out: seq<OpenMode>)
    requires ToOpenModes(ms, names) == Ok(out)
    ensures FromOpenModes(out) == Ok(DropBursts(ms))
  {
    if ms != [] {
      var head := ToOpenMode(ms[0], names);
      var rest := ToOpenModes(ms[1..], names);
      assert head.Ok? && rest.Ok? && out == [head.value] + rest.value;
      OpenModesRoundTrip(ms[1..], names, rest.value);
      assert out[0] == head.value && out[1..] == rest.value;
      assert FromOpenMode(out[0]) == Ok(ms[0].(burstAmount := -1));
      assert FromOpenModes(out[1..]) == Ok(DropBursts(ms[1..]));
      assert FromOpenModes(out) == Ok([ms[0].(burstAmount := -1)] + DropBursts(ms[1..]));
      assert DropBursts(ms) == [DropBursts(ms)[0]] + DropBursts(ms[1..]);
    }
  }

  /** The modes with every burst amount replaced by -1, as an open bolt records them. */
  function DropBursts(ms: seq<FireSelectorMode>): (r: seq<FireSelectorMode>)
    ensures |r| == |ms| && forall i :: 0 <= i < |ms| ==> r[i] == ms[i].(burstAmount := -1)
  {
    if ms == [] then [] else [ms[0].(burstAmount := -1)] + DropBursts(ms[1..])
  }

  /** Every mode of the firearm names a member of its own host enum. */
  predicate NamesKnown(fc: FireControl)
  {
    match fc
    case HandgunControl(ms, _, n) => forall i :: 0 <= i < |ms| ==> ms[i].ModeType in n
    case ClosedBoltControl(ms, _, n) => forall i :: 0 <= i < |ms| ==> ms[i].ModeType in n
    case OpenBoltControl(ms, _, n) => forall i :: 0 <= i < |ms| ==> ms[i].ModeType in n
    case OtherControl => true
  }

  /** Host modes read into Sodalite modes write back as the same host modes. */
  lemma {:induction false} LoadedBurstModesWriteBack(ms: seq<BurstMode>, names: set<string>, l: seq<FireSelectorMode>)
    requires FromBurstModes(ms) == Ok(l)
    requires forall i :: 0 <= i < |ms| ==> ms[i].ModeType in names
    ensures ToBurstModes(l, names) == Ok(ms)
  {
    if ms != [] {
      var head := FromBurstMode(ms[0]);
      var rest := FromBurstModes(ms[1..]);
      assert head.Ok? && rest.Ok? && l == [head.value] + rest.value;
      LoadedBurstModesWriteBack(ms[1..], names, rest.value);
      assert l[1..] == rest.value;
      assert ms == [ms[0]] + ms[1..];
    }
  }

  lemma {:induction false} LoadedOpenModesWriteBack(ms: seq<OpenMode>, names: set<string>, l: seq<FireSelectorMode>)
    requires FromOpenModes(ms) == Ok(l)
    requires forall i :: 0 <= i < |ms| ==> ms[i].ModeType in names
    ensures ToOpenModes(l, names) == Ok(ms)
  {
    if ms != [] {
      var head := FromOpenMode(ms[0]);
      var rest := FromOpenModes(ms[1..]);
      assert head.Ok? && rest.Ok? && l == [head.value] + rest.value;
      assert ToOpenMode(l[0], names) == Ok(ms[0]);
      LoadedOpenModesWriteBack(ms[1..], names, rest.value);
      assert l[1..] == rest.value;
      assert ToOpenModes(l, names) == Ok([ms[0]] + ms[1..]);
      assert ms == [ms[0]] + ms[1..];
    }
  }

  /** The settings a vault file holds right after loading them from a firearm, with both overrides on. */
  function OverridingAll(l: Loaded): FireSettings
  {
    FireSettings(true, true, l.spring.speedForward, l.spring.speedRearward, l.spring.stiffness, l.modes)
  }

  /**
   * Loading a firearm's fire control and applying it back, with both overrides on,
   * leaves the firearm as it was.
   */
  lemma ApplyAfterLoad(fc: FireControl, l: Loaded)
    requires Load(fc) == Ok(Some(l)) && NamesKnown(fc)
    ensures Apply(OverridingAll(l), fc) == Ok(fc)
  {
    match fc
    case HandgunControl(ms, sp, n) => LoadedBurstModesWriteBack(ms, n, l.modes);
    case ClosedBoltControl(ms, sp, n) => LoadedBurstModesWriteBack(ms, n, l.modes);
    case OpenBoltControl(ms, sp, n) => LoadedOpenModesWriteBack(ms, n, l.modes);
  }

  // ---------------------------------------------------------------- the loops over a live firearm

  /** The `FVRFireArm` component of a live object; only its fire-control state is modelled. */
  class FirearmHandle {
    var control: FireControl

    constructor (control: FireControl)
      ensures this.control == control
    {
      this.control := control;
    }
  }

  /** The `foreach` that converts a handgun's or closed bolt's modes one by one into Sodalite modes. */
  method ReadBurstModes(ms: seq<BurstMode>) returns (r: Result<seq<FireSelectorMode>, string>)
    ensures r == FromBurstModes(ms)
  {
    var modes: seq<FireSelectorMode> := [];
    for i := 0 to |ms|
      invariant |modes| == i && forall k :: 0 <= k < i ==> FromBurstMode(ms[k]) == Ok(modes[k])
    {
      var m := FromBurstMode(ms[i]);
      if m.Err? {
        return Err(m.error);
      }
      modes := modes + [m.value];
    }
    assert forall k :: 0 <= k < |ms| ==> ms[k].ModeType in ModeTypeNames;
    ghost var f := FromBurstModes(ms);
    assert f.Ok? && f.value == modes;
    return Ok(modes);
  }

  /** The same `foreach` over an open bolt's modes. */
  method ReadOpenModes(ms: seq<OpenMode>) returns (r: Result<seq<FireSelectorMode>, string>)
    ensures r == FromOpenModes(ms)
  {
    var modes: seq<FireSelectorMode> := [];
    for i := 0 to |ms|
      invariant |modes| == i && forall k :: 0 <= k < i ==> FromOpenMode(ms[k]) == Ok(modes[k])
    {
      var m := FromOpenMode(ms[i]);
      if m.Err? {
        return Err(m.error);
      }
      modes := modes + [m.value];
    }
    assert forall k :: 0 <= k < |ms| ==> ms[k].ModeType in ModeTypeNames;
    ghost var f := FromOpenModes(ms);
    assert f.Ok? && f.value == modes;
    return Ok(modes);
  }

  /** The `modeList` loop of `ApplyFirearmProperties` for a handgun or closed bolt. */
  method WriteBurstModes(ms: seq<FireSelectorMode>, names: set<string>) returns (r: Result<seq<BurstMode>, string>)
    ensures r == ToBurstModes(ms, names)
  {
    var modeList: seq<BurstMode> := [];
    for i := 0 to |ms|
      invariant |modeList| == i && forall k :: 0 <= k < i ==> ToBurstMode(ms[k], names) == Ok(modeList[k])
    {
      var m := ToBurstMode(ms[i], names);
      if m.Err? {
        return Err(m.error);
      }
      modeList := modeList + [m.value];
    }
    assert forall k :: 0 <= k < |ms| ==> TypeName(ms[k].modeType) in names;
    ghost var f := ToBurstModes(ms, names);
    assert f.Ok? && f.value == modeList;
    return Ok(modeList);
  }

  /** The `modeList` loop for an open bolt. */
  method WriteOpenModes(ms: seq<FireSelectorMode>, names: set<string>) returns (r: Result<seq<OpenMode>, string>)
    ensures r == ToOpenModes(ms, names)
  {
    var modeList: seq<OpenMode> := [];
    for i := 0 to |ms|
      invariant |modeList| == i && forall k :: 0 <= k < i ==> ToOpenMode(ms[k], names) == Ok(modeList[k])
    {
      var m := ToOpenMode(ms[i], names);
      if m.Err? {
        return Err(m.error);
      }
      modeList := modeList + [m.value];
    }
    assert forall k :: 0 <= k < |ms| ==> TypeName(ms[k].modeType) in names;
    ghost var f := ToOpenModes(ms, names);
    assert f.Ok? && f.value == modeList;
    return Ok(modeList);
  }

  /**
   * The body of `LoadFirearmProperties(firearm)` that both revisions share: the
   * firearm's modes converted in order and its spring; a null component, like an
   * unlisted receiver, yields nothing.
   */
  method ReadFireControl(firearm: FirearmHandle?) returns (r: Result<Option<Loaded>, string>)
    ensures firearm == null ==> r == Ok(None)
    ensures firearm != null ==> r == Load(firearm.control)
  {
    if firearm == null {
      return Ok(None);
    }
    match firearm.control
    case HandgunControl(ms, sp, _) =>
      var l := ReadBurstModes(ms);
      if l.Err? {
        return Err(l.error);
      }
      return Ok(Some(Loaded(l.value, sp)));
    case ClosedBoltControl(ms, sp, _) =>
      var l := ReadBurstModes(ms);
      if l.Err? {
        return Err(l.error);
      }
      return Ok(Some(Loaded(l.value, sp)));
    case OpenBoltControl(ms, sp, _) =>
      var l := ReadOpenModes(ms);
      if l.Err? {
        return Err(l.error);
      }
      return Ok(Some(Loaded(l.value, sp)));
    case OtherControl =>
      return Ok(None);
  }

  /**
   * The body of `ApplyFirearmProperties(firearm)` that both revisions share: with an
   * override on, the selected categories are written into a handgun, closed bolt or
   * open bolt; a null component or any other receiver is left alone.
   */
  method WriteFireControl(s: FireSettings, firearm: FirearmHandle?) returns (r: Result<(), string>)
    modifies firearm
    ensures firearm == null ==> r.Ok?
    ensures firearm != null ==>
              var a := Apply(s, old(firearm.control));
              (r.Ok? <==> a.Ok?)
              && (r.Ok? ==> firearm.control == a.value)
              && (r.Err? ==> r.error == a.error && firearm.control == old(firearm.control))
  {
    if !s.OverrideFireRate && !s.OverrideFireSelectors {
      return Ok(());
    }
    if firearm == null {
      return Ok(());
    }
    match firearm.control
    case HandgunControl(ms, sp, n) =>
      if s.OverrideFireSelectors {
        var l := WriteBurstModes(s.FireSelectorModes, n);
        if l.Err? {
          return Err(l.error);
        }
        BurstModesRoundTrip(s.FireSelectorModes, n, l.value);
        firearm.control := firearm.control.(handgunModes := l.value);
      }
      if s.OverrideFireRate {
        firearm.control := firearm.control.(slide := SettingsSpring(s));
      }
      return Ok(());
    case ClosedBoltControl(ms, sp, n) =>
      if s.OverrideFireSelectors {
        var l := WriteBurstModes(s.FireSelectorModes, n);
        if l.Err? {
          return Err(l.error);
        }
        BurstModesRoundTrip(s.FireSelectorModes, n, l.value);
        firearm.control := firearm.control.(closedModes := l.value);
      }
      if s.OverrideFireRate {
        firearm.control := firearm.control.(closedBolt := SettingsSpring(s));
      }
      return Ok(());
    case OpenBoltControl(ms, sp, n) =>
      if s.OverrideFireSelectors {
        var l := WriteOpenModes(s.FireSelectorModes, n);
        if l.Err? {
          return Err(l.error);
        }
        OpenModesRoundTrip(s.FireSelectorModes, n, l.value);
        firearm.control := firearm.control.(openModes := l.value);
      }
      if s.OverrideFireRate {
        firearm.control := firearm.control.(openBolt := SettingsSpring(s));
      }
      return Ok(());
    case OtherControl =>
      return Ok(());
  }
}
