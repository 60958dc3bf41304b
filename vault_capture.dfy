/**
 * The capture half of the vault: walking a live firearm's detected objects and
 * recording one `SavedGunComponent` per object, the rounds its magazine, clips and
 * speedloaders hold, and the root's chamber rounds and flags. `VaultAPI.SaveGun`
 * and `VaultUtils.CreateVaultFile` share this loop; they differ only in whether a
 * null from a host getter overwrites the record's default.
 */
module VaultCapture {
  import opened Wrappers
  import opened Host
  import opened LiveObjects
  import opened SavedGunModel
  import Firearm
  import FireSelector
  import SerializableVault

  /** The exceptions a capture can raise, with the position of the object that raised it. */
  datatype CaptureError =
    | NullWrapper(index: nat)            // ObjectWrapper.ItemID on a null wrapper
    | RoundIndexOutOfRange(index: nat)   // LoadedRounds[j] with j past the array's end
    | NullMount(index: nat)              // curMount.MyObject on an unmounted attachment

  /** One turn of the capture loop: the component and the rounds appended to `LoadedRoundsInMag`. */
  datatype Entry = Entry(component: SavedGunComponent, rounds: seq<RoundClass>)

  /** What the loop has built so far. */
  datatype Capture = Capture(components: seq<SavedGunComponent>, rounds: seq<RoundClass>)

  // ---------------------------------------------------------------- rounds

  /**
   * `for (j = 0; j < m_numRounds; j++) Add(LoadedRounds[j].LR_Class)`: the first
   * `m_numRounds` rounds, none for a non-positive count, and an exception when the
   * count runs past the array.
   */
  function StoreRounds(st: RoundStore): (r: Option<seq<RoundClass>>)
    ensures r.None? <==> st.numRounds > |st.loaded|
    ensures r.Some? ==> |r.value| == (if st.numRounds <= 0 then 0 else st.numRounds)
                        && forall k :: 0 <= k < |r.value| ==> r.value[k] == st.loaded[k]
  {
    if st.numRounds <= 0 then Some([])
    else if st.numRounds > |st.loaded| then None
    else Some(st.loaded[..st.numRounds])
  }

  /** The classes of a speedloader's loaded chambers, in chamber order. */
  function LoadedChambers(chs: seq<SpeedloaderChamber>): (r: seq<RoundClass>)
    ensures |r| <= |chs|
    ensures forall x :: x in r <==> exists k :: 0 <= k < |chs| && chs[k].IsLoaded && chs[k].LoadedClass == x
  {
    if chs == [] then []
    else
      var init := chs[..|chs| - 1];
      var last := chs[|chs| - 1];
      assert forall k :: 0 <= k < |init| ==> init[k] == chs[k];
      LoadedChambers(init) + (if last.IsLoaded then [last.LoadedClass] else [])
  }

  /** A fully loaded speedloader gives one round per chamber. */
  lemma {:induction false} FullSpeedloader(chs: seq<SpeedloaderChamber>)
    requires forall k :: 0 <= k < |chs| ==> chs[k].IsLoaded
    ensures |LoadedChambers(chs)| == |chs|
    ensures forall k :: 0 <= k < |chs| ==> LoadedChambers(chs)[k] == chs[k].LoadedClass
  {
    if chs != [] {
      FullSpeedloader(chs[..|chs| - 1]);
    }
  }

  /**
   * The rounds an object adds: a firearm those of its magazine, a clip its own,
   * a speedloader its loaded chambers; a magazine on its own, an attachment or
   * anything else adds none.
   */
  function RoundsOf(o: PhysObj): Option<seq<RoundClass>>
  {
    match o.kind
    case FirearmObj(m, _, _, _, _) =>
      if m.Some? && m.value.kind.MagazineObj? then StoreRounds(m.value.kind.store) else Some([])
    case ClipObj(st) => StoreRounds(st)
    case SpeedloaderObj(chs) => Some(LoadedChambers(chs))
    case _ => Some([])
  }

  /** The inner loop over a magazine's or clip's rounds. */
  method ReadStore(st: RoundStore) returns (r: Option<seq<RoundClass>>)
    ensures r == StoreRounds(st)
  {
    var rounds: seq<RoundClass> := [];
    var j := 0;
    while j < st.numRounds
      invariant 0 <= j <= |st.loaded|
      invariant j == 0 || j <= st.numRounds
      invariant rounds == st.loaded[..j]
      decreases st.numRounds - j
    {
      if j >= |st.loaded| {
        return None;
      }
      rounds := rounds + [st.loaded[j]];
      j := j + 1;
    }
    return Some(rounds);
  }

  /** The inner loop over a speedloader's chambers. */
  method ReadChambers(chs: seq<SpeedloaderChamber>) returns (r: seq<RoundClass>)
    ensures r == LoadedChambers(chs)
  {
    r := [];
    for l := 0 to |chs|
      invariant r == LoadedChambers(chs[..l])
    {
      assert chs[..l + 1][..l] == chs[..l];
      if chs[l].IsLoaded {
        r := r + [chs[l].LoadedClass];
      }
    }
    assert chs[..|chs|] == chs;
  }

  // ---------------------------------------------------------------- one object

  /**
   * The component new code writes for the flags of a detected object: `SaveGun`
   * stores whatever `GetFlagDic()` returned, `CreateVaultFile` keeps the empty
   * default dictionary when it returned null.
   */
  function FlagsOf(o: PhysObj, keepDefaultFlags: bool): Option<FlagDic>
  {
    if keepDefaultFlags && o.flagDic.None? then NewComponent.Flags else o.flagDic
  }

  /**
   * One turn of the capture loop for the object at position `i`: its id, flags,
   * pose (for every object but the root), the flag of the first kind it matches
   * and, for an attachment, the positions of its mount's owner and of the mount.
   */
  function CaptureObject(os: seq<PhysObj>, i: nat, keepDefaultFlags: bool): Result<Entry, CaptureError>
    requires i < |os|
  {
    var o := os[i];
    if o.wrapper.None? then Err(NullWrapper(i))
    else
      var base := NewComponent.(Index := i, ObjectID := o.wrapper.value, Flags := FlagsOf(o, keepDefaultFlags));
      var placed :=
        if i > 0 then base.(PosOffset := o.relativePos, OrientationForward := o.forward, OrientationUp := o.up)
        else base;
      match o.kind
      case FirearmObj(_, _, _, _, _) =>
        if RoundsOf(o).None? then Err(RoundIndexOutOfRange(i))
        else Ok(Entry(placed.(isFirearm := true), RoundsOf(o).value))
      case MagazineObj(_, _) => Ok(Entry(placed.(isMagazine := true), []))
      case ClipObj(st) =>
        if RoundsOf(o).None? then Err(RoundIndexOutOfRange(i)) else Ok(Entry(placed, RoundsOf(o).value))
      case SpeedloaderObj(chs) => Ok(Entry(placed, LoadedChambers(chs)))
      case AttachmentObj(cur) =>
        if cur.None? then Err(NullMount(i))
        else
          Ok(Entry(placed.(isAttachment := true,
                           ObjectAttachedTo := IndexOf(Ids(os), cur.value.owner),
                           MountAttachedTo := IndexOf(cur.value.ownerMounts, cur.value.mount)), []))
      case OtherObj => Ok(Entry(placed, []))
  }

  /**
   * What one turn records: it throws exactly for a missing wrapper, a round count past
   * the array or an unmounted attachment; otherwise the component has the object's
   * position as `Index`, its id and flags, its pose unless it is the root, the flag of
   * its kind, and for an attachment the positions of the mount's owner and of the mount.
   */
  lemma CaptureObjectMeans(os: seq<PhysObj>, i: nat, keepDefaultFlags: bool)
    requires i < |os|
    ensures var r := CaptureObject(os, i, keepDefaultFlags);
            r.Err? <==> os[i].wrapper.None? || RoundsOf(os[i]).None?
                        || (os[i].kind.AttachmentObj? && os[i].kind.curMount.None?)
    ensures os[i].wrapper.None? ==> CaptureObject(os, i, keepDefaultFlags) == Err(NullWrapper(i))
    ensures var r := CaptureObject(os, i, keepDefaultFlags);
            r.Ok? ==>
              var c := r.value.component;
              c.Index == i && c.ObjectID == os[i].wrapper.value && c.Flags == FlagsOf(os[i], keepDefaultFlags)
              && (c.isFirearm <==> os[i].kind.FirearmObj?)
              && (c.isMagazine <==> os[i].kind.MagazineObj?)
              && (c.isAttachment <==> os[i].kind.AttachmentObj?)
              && (i == 0 ==> c.PosOffset == ZeroVec3 && c.OrientationForward == ZeroVec3 && c.OrientationUp == ZeroVec3)
              && (i > 0 ==> c.PosOffset == os[i].relativePos && c.OrientationForward == os[i].forward
                            && c.OrientationUp == os[i].up)
              && r.value.rounds == RoundsOf(os[i]).value
    ensures var r := CaptureObject(os, i, keepDefaultFlags);
            r.Ok? && os[i].kind.AttachmentObj? ==>
              var m := os[i].kind.curMount.value;
              r.value.component.ObjectAttachedTo == IndexOf(Ids(os), m.owner)
              && r.value.component.MountAttachedTo == IndexOf(m.ownerMounts, m.mount)
    ensures var r := CaptureObject(os, i, keepDefaultFlags);
            r.Ok? && !os[i].kind.AttachmentObj? ==>
              r.value.component.ObjectAttachedTo == 0 && r.value.component.MountAttachedTo == 0
  {
  }

  /** The body of the capture loop for position `i`, with its inner round loops. */
  method CaptureComponent(os: seq<PhysObj>, i: nat, keepDefaultFlags: bool) returns (r: Result<Entry, CaptureError>)
    requires i < |os|
    ensures r == CaptureObject(os, i, keepDefaultFlags)
  {
    var o := os[i];
    if o.wrapper.None? {
      return Err(NullWrapper(i));
    }
    var c := NewComponent.(Index := i, ObjectID := o.wrapper.value);
    if !keepDefaultFlags || o.flagDic.Some? {
      c := c.(Flags := o.flagDic);
    }
    if i > 0 {
      c := c.(PosOffset := o.relativePos, OrientationForward := o.forward, OrientationUp := o.up);
    }
    var rounds: seq<RoundClass> := [];
    match o.kind {
      case FirearmObj(m, _, _, _, _) =>
        c := c.(isFirearm := true);
        if m.Some? && m.value.kind.MagazineObj? {
          var read := ReadStore(m.value.kind.store);
          if read.None? {
            return Err(RoundIndexOutOfRange(i));
          }
          rounds := read.value;
        }
      case MagazineObj(_, _) =>
        c := c.(isMagazine := true);
      case ClipObj(st) =>
        var read := ReadStore(st);
        if read.None? {
          return Err(RoundIndexOutOfRange(i));
        }
        rounds := read.value;
      case SpeedloaderObj(chs) =>
        rounds := ReadChambers(chs);
      case AttachmentObj(cur) =>
        if cur.None? {
          return Err(NullMount(i));
        }
        c := c.(isAttachment := true,
                ObjectAttachedTo := IndexOf(Ids(os), cur.value.owner),
                MountAttachedTo := IndexOf(cur.value.ownerMounts, cur.value.mount));
      case OtherObj =>
    }
    return Ok(Entry(c, rounds));
  }

  // ---------------------------------------------------------------- the loop

  /** The first `n` turns of the capture loop; the first exception ends it. */
  function Captured(os: seq<PhysObj>, n: nat, keepDefaultFlags: bool): Result<Capture, CaptureError>
    requires n <= |os|
  {
    if n == 0 then Ok(Capture([], []))
    else
      match Captured(os, n - 1, keepDefaultFlags)
      case Err(e) => Err(e)
      case Ok(c) =>
        match CaptureObject(os, n - 1, keepDefaultFlags)
        case Err(e) => Err(e)
        case Ok(e) => Ok(Capture(c.components + [e.component], c.rounds + e.rounds))
  }

  /** Once a turn has thrown, the loop's outcome is that exception. */
  lemma {:induction false} ErrStays(os: seq<PhysObj>, m: nat, n: nat, keepDefaultFlags: bool)
    requires m <= n <= |os| && Captured(os, m, keepDefaultFlags).Err?
    ensures Captured(os, n, keepDefaultFlags) == Captured(os, m, keepDefaultFlags)
    decreases n
  {
    if n > m {
      ErrStays(os, m, n - 1, keepDefaultFlags);
    }
  }

  /** The capture loop of `SaveGun` and `CreateVaultFile`. */
  method CaptureAll(os: seq<PhysObj>, keepDefaultFlags: bool) returns (r: Result<Capture, CaptureError>)
    ensures r == Captured(os, |os|, keepDefaultFlags)
  {
    var components: seq<SavedGunComponent> := [];
    var rounds: seq<RoundClass> := [];
    for i := 0 to |os|
      invariant Captured(os, i, keepDefaultFlags) == Ok(Capture(components, rounds))
    {
      var e := CaptureComponent(os, i, keepDefaultFlags);
      if e.Err? {
        assert Captured(os, i + 1, keepDefaultFlags) == Err(e.error);
        ErrStays(os, i + 1, |os|, keepDefaultFlags);
        return Err(e.error);
      }
      assert Captured(os, i + 1, keepDefaultFlags)
          == Ok(Capture(components + [e.value.component], rounds + e.value.rounds));
      components := components + [e.value.component];
      rounds := rounds + e.value.rounds;
    }
    return Ok(Capture(components, rounds));
  }

  // ---------------------------------------------------------------- properties of the loop

  /**
   * A finished capture has one component per object, in detection order, each
   * with its own position as `Index`, with the kind flags of its object and the
   * pose recorded for every object but the root.
   */
  lemma {:induction false} CapturedComponents(os: seq<PhysObj>, n: nat, keepDefaultFlags: bool)
    requires n <= |os| && Captured(os, n, keepDefaultFlags).Ok?
    ensures var cs := Captured(os, n, keepDefaultFlags).value.components;
            |cs| == n
            && forall k :: 0 <= k < n ==> CaptureObject(os, k, keepDefaultFlags).Ok?
                                           && cs[k] == CaptureObject(os, k, keepDefaultFlags).value.component
    decreases n
  {
    if n > 0 {
      var prev := Captured(os, n - 1, keepDefaultFlags);
      var e := CaptureObject(os, n - 1, keepDefaultFlags);
      assert prev.Ok? && e.Ok?;
      CapturedComponents(os, n - 1, keepDefaultFlags);
      var cs := Captured(os, n, keepDefaultFlags).value.components;
      assert cs == prev.value.components + [e.value.component];
      forall k | 0 <= k < n
        ensures CaptureObject(os, k, keepDefaultFlags).Ok? && cs[k] == CaptureObject(os, k, keepDefaultFlags).value.component
      {
        if k < n - 1 {
          assert cs[k] == prev.value.components[k];
        }
      }
    }
  }

  /** The capture throws exactly when some object's turn throws, and then with the first such exception. */
  lemma {:induction false} CapturedErr(os: seq<PhysObj>, n: nat, keepDefaultFlags: bool)
    requires n <= |os|
    ensures Captured(os, n, keepDefaultFlags).Err? <==> exists k :: 0 <= k < n && CaptureObject(os, k, keepDefaultFlags).Err?
    ensures Captured(os, n, keepDefaultFlags).Err? ==>
              exists k :: 0 <= k < n && CaptureObject(os, k, keepDefaultFlags).Err?
                          && Captured(os, n, keepDefaultFlags) == Err(CaptureObject(os, k, keepDefaultFlags).error)
                          && forall j :: 0 <= j < k ==> CaptureObject(os, j, keepDefaultFlags).Ok?
    decreases n
  {
    if n > 0 {
      CapturedErr(os, n - 1, keepDefaultFlags);
    }
  }

  /** The rounds held by a list of objects, concatenated from the front, or None if any object throws. */
  function HeldRounds(os: seq<PhysObj>): Option<seq<RoundClass>>
  {
    if os == [] then Some([])
    else
      match RoundsOf(os[0])
      case None => None
      case Some(first) =>
        match HeldRounds(os[1..])
        case None => None
        case Some(rest) => Some(first + rest)
  }

  lemma {:induction false} HeldRoundsAppend(os: seq<PhysObj>, o: PhysObj)
    requires HeldRounds(os).Some? && RoundsOf(o).Some?
    ensures HeldRounds(os + [o]) == Some(HeldRounds(os).value + RoundsOf(o).value)
  {
    if os != [] {
      assert (os + [o])[0] == os[0] && (os + [o])[1..] == os[1..] + [o];
      HeldRoundsAppend(os[1..], o);
      var first, rest := RoundsOf(os[0]).value, HeldRounds(os[1..]).value;
      assert first + (rest + RoundsOf(o).value) == (first + rest) + RoundsOf(o).value;
    } else {
      var single := [o];
      assert os + [o] == single && single[1..] == [];
      assert HeldRounds(single[1..]) == Some([]);
      assert RoundsOf(o).value + [] == RoundsOf(o).value == [] + RoundsOf(o).value;
    }
  }

  /**
   * `LoadedRoundsInMag` is the concatenation, in detection order, of the rounds
   * every detected object holds.
   */
  lemma {:induction false} CapturedRounds(os: seq<PhysObj>, n: nat, keepDefaultFlags: bool)
    requires n <= |os| && Captured(os, n, keepDefaultFlags).Ok?
    ensures HeldRounds(os[..n]) == Some(Captured(os, n, keepDefaultFlags).value.rounds)
    decreases n
  {
    if n > 0 {
      var prev := Captured(os, n - 1, keepDefaultFlags);
      var e := CaptureObject(os, n - 1, keepDefaultFlags);
      assert prev.Ok? && e.Ok? && e.value.rounds == RoundsOf(os[n - 1]).value;
      assert Captured(os, n, keepDefaultFlags).value.rounds == prev.value.rounds + e.value.rounds;
      CapturedRounds(os, n - 1, keepDefaultFlags);
      assert os[..n] == os[..n - 1] + [os[n - 1]];
      HeldRoundsAppend(os[..n - 1], os[n - 1]);
    }
  }

  /** The first matching kind wins, so no component carries two kind flags, and clips and speedloaders carry none. */
  lemma KindFlagsExclusive(os: seq<PhysObj>, k: nat, keepDefaultFlags: bool)
    requires k < |os| && CaptureObject(os, k, keepDefaultFlags).Ok?
    ensures var c := CaptureObject(os, k, keepDefaultFlags).value.component;
            !(c.isFirearm && c.isMagazine) && !(c.isFirearm && c.isAttachment) && !(c.isMagazine && c.isAttachment)
            && (os[k].kind.ClipObj? || os[k].kind.SpeedloaderObj? ==> !c.isFirearm && !c.isMagazine && !c.isAttachment)
  {
  }

  /**
   * An attachment's `ObjectAttachedTo` is the first detected position of its mount's
   * owner, or -1 when the owner was not detected.
   */
  lemma AttachmentParent(os: seq<PhysObj>, k: nat, keepDefaultFlags: bool)
    requires k < |os| && os[k].kind.AttachmentObj? && CaptureObject(os, k, keepDefaultFlags).Ok?
    ensures var c := CaptureObject(os, k, keepDefaultFlags).value.component;
            var owner := os[k].kind.curMount.value.owner;
            (c.ObjectAttachedTo == -1 <==> forall j :: 0 <= j < |os| ==> os[j].id != owner)
            && (c.ObjectAttachedTo != -1 ==> 0 <= c.ObjectAttachedTo < |os| && os[c.ObjectAttachedTo].id == owner
                                              && forall j :: 0 <= j < c.ObjectAttachedTo ==> os[j].id != owner)
  {
    var ids := Ids(os);
    var owner := os[k].kind.curMount.value.owner;
    var r := IndexOf(ids, owner);
    assert owner in ids <==> exists j :: 0 <= j < |os| && os[j].id == owner by {
      if owner in ids {
        var j :| 0 <= j < |ids| && ids[j] == owner;
      }
    }
    if r >= 0 {
      assert forall j :: 0 <= j < r ==> ids[..r][j] == ids[j];
    }
  }

  /** When every object returned a flag dictionary, the two variants of the loop build the same capture. */
  lemma {:induction false} VariantsAgree(os: seq<PhysObj>, n: nat)
    requires n <= |os| && forall k :: 0 <= k < |os| ==> os[k].flagDic.Some?
    ensures Captured(os, n, true) == Captured(os, n, false)
    decreases n
  {
    if n > 0 {
      VariantsAgree(os, n - 1);
      assert CaptureObject(os, n - 1, true) == CaptureObject(os, n - 1, false);
    }
  }

  // ---------------------------------------------------------------- the two captures

  /** The objects `GetAttachedObjects` lists for a firearm, root first. */
  function Detected(fa: PhysObj): seq<PhysObj>
    requires fa.kind.FirearmObj? && Typed(fa)
  {
    [fa] + Firearm.ListedMagazine(fa) + Firearm.Wrapped(fa.kind.attachments)
  }

  /**
   * The vault file built from a capture: `SaveGun` stores the root's chamber list and
   * flag list as returned, `CreateVaultFile` keeps the empty defaults where they are null.
   */
  function SavedGunFrom(fa: PhysObj, c: Capture, now: Date, keepDefaults: bool): (g: SavedGun)
    requires fa.kind.FirearmObj?
    ensures g.Components == c.components && g.LoadedRoundsInMag == c.rounds && g.DateMade == now && g.FileName.None?
    ensures fa.kind.chamberRounds.Some? ==> g.LoadedRoundsInChambers == fa.kind.chamberRounds
    ensures fa.kind.flagList.Some? ==> g.SavedFlags == fa.kind.flagList
    ensures fa.kind.chamberRounds.None? ==> g.LoadedRoundsInChambers == (if keepDefaults then Some([]) else None)
    ensures fa.kind.flagList.None? ==> g.SavedFlags == (if keepDefaults then Some([]) else None)
  {
    var chambers := if keepDefaults && fa.kind.chamberRounds.None? then NewSavedGun.LoadedRoundsInChambers else fa.kind.chamberRounds;
    var flags := if keepDefaults && fa.kind.flagList.None? then NewSavedGun.SavedFlags else fa.kind.flagList;
    NewSavedGun.(Components := c.components, LoadedRoundsInMag := c.rounds, DateMade := now,
                 LoadedRoundsInChambers := chambers, SavedFlags := flags)
  }

  /** `VaultAPI.SaveGun` on values. */
  function SaveGunSpec(fa: PhysObj, now: Date): Result<SavedGun, CaptureError>
    requires fa.kind.FirearmObj? && Typed(fa)
  {
    match Captured(Detected(fa), |Detected(fa)|, false)
    case Err(e) => Err(e)
    case Ok(c) => Ok(SavedGunFrom(fa, c, now, false))
  }

  /**
   * `VaultAPI.SaveGun(firearm)`. `root` is the firearm's transform and `now` the
   * clock's reading. The rotation is reset to identity for the scan and rebuilt
   * from the saved axes afterwards; an exception leaves it at identity.
   */
  method SaveGun(firearm: PhysObj, root: Transform, now: Date) returns (r: Result<SavedGun, CaptureError>)
    requires firearm.kind.FirearmObj? && Typed(firearm)
    modifies root
    ensures r == SaveGunSpec(firearm, now)
    ensures r.Ok? ==> root.rotation == old(root.rotation)
    ensures r.Err? ==> root.rotation == IdentityBasis
  {
    var detected := Firearm.GetAttachedObjects(firearm);
    var forward, up := root.rotation.forward, root.rotation.up;
    root.rotation := IdentityBasis;
    var c := CaptureAll(detected, false);
    if c.Err? {
      return Err(c.error);
    }
    var gun := NewSavedGun.(DateMade := now, Components := c.value.components, LoadedRoundsInMag := c.value.rounds);
    gun := gun.(LoadedRoundsInChambers := firearm.kind.chamberRounds, SavedFlags := firearm.kind.flagList);
    root.rotation := LookRotation(forward, up);
    return Ok(gun);
  }

  /** The exceptions of `CreateVaultFile`: the capture's, then the serializer's. */
  datatype VaultFileFailure = CaptureFailed(capture: CaptureError) | SerializeFailed(serialize: SerializableVault.VaultFileError)

  /** `VaultUtils.CreateVaultFile` on values, for the objects `detected` that the root-first collector returned. */
  function CreateVaultFileSpec(fa: PhysObj, detected: seq<PhysObj>, now: Date, catalog: Catalog)
    : Result<SerializableVault.VaultFileState, VaultFileFailure>
    requires fa.kind.FirearmObj?
  {
    match Captured(detected, |detected|, true)
    case Err(e) => Err(CaptureFailed(e))
    case Ok(c) =>
      match SerializableVault.Serialize(SavedGunFrom(fa, c, now, true), Some(fa.kind.control), catalog)
      case Err(e) => Err(SerializeFailed(e))
      case Ok(st) => Ok(st)
  }

  /**
   * `VaultUtils.CreateVaultFile(fireArm)`. The collector `GetAllAttachedObjects` is
   * not part of this model: its result is the parameter `detected`, which lists the
   * firearm first. The file is built with the live firearm, so its fire-control
   * fields come from the gun itself.
   */
  method CreateVaultFile(fireArm: PhysObj, detected: seq<PhysObj>, root: Transform, now: Date, catalog: Catalog)
    returns (r: Result<SerializableVault.SavedGunSerializable, VaultFileFailure>)
    requires fireArm.kind.FirearmObj? && detected != [] && detected[0] == fireArm
    modifies root
    ensures var spec := CreateVaultFileSpec(fireArm, detected, now, catalog);
            (r.Ok? <==> spec.Ok?)
            && (r.Ok? ==> fresh(r.value) && r.value.State() == spec.value)
            && (r.Err? ==> r.error == spec.error)
    ensures r.Ok? || r.error.SerializeFailed? ==> root.rotation == old(root.rotation)
    ensures r.Err? && r.error.CaptureFailed? ==> root.rotation == IdentityBasis
  {
    var forward, up := root.rotation.forward, root.rotation.up;
    root.rotation := IdentityBasis;
    var c := CaptureAll(detected, true);
    if c.Err? {
      return Err(CaptureFailed(c.error));
    }
    var gun := NewSavedGun.(DateMade := now, Components := c.value.components, LoadedRoundsInMag := c.value.rounds);
    if fireArm.kind.chamberRounds.Some? {
      gun := gun.(LoadedRoundsInChambers := fireArm.kind.chamberRounds);
    }
    if fireArm.kind.flagList.Some? {
      gun := gun.(SavedFlags := fireArm.kind.flagList);
    }
    root.rotation := LookRotation(forward, up);
    var handle := new FireSelector.FirearmHandle(fireArm.kind.control);
    var file := SerializableVault.New(gun, handle, catalog);
    if file.Err? {
      return Err(SerializeFailed(file.error));
    }
    return Ok(file.value);
  }

  // ---------------------------------------------------------------- properties of the captures

  /** Every captured component's `Index` is its position, and component 0 is the root object's. */
  lemma CapturedIndices(os: seq<PhysObj>, keepDefaultFlags: bool)
    requires os != [] && Captured(os, |os|, keepDefaultFlags).Ok?
    ensures var cs := Captured(os, |os|, keepDefaultFlags).value.components;
            |cs| == |os| && (forall k :: 0 <= k < |cs| ==> cs[k].Index == k)
            && CaptureObject(os, 0, keepDefaultFlags).Ok? && cs[0] == CaptureObject(os, 0, keepDefaultFlags).value.component
  {
    var cs := Captured(os, |os|, keepDefaultFlags).value.components;
    CapturedComponents(os, |os|, keepDefaultFlags);
    forall k | 0 <= k < |cs|
      ensures cs[k].Index == k
    {
      assert cs[k] == CaptureObject(os, k, keepDefaultFlags).value.component;
    }
  }

  /**
   * A vault file saved from a firearm has the firearm as component 0, flagged as
   * the firearm with no pose offset, and every component's `Index` is its position.
   */
  lemma SaveGunRootFirst(fa: PhysObj, now: Date)
    requires fa.kind.FirearmObj? && Typed(fa) && SaveGunSpec(fa, now).Ok?
    ensures var cs := SaveGunSpec(fa, now).value.Components;
            |cs| == |Detected(fa)| && cs[0].isFirearm && !cs[0].isMagazine && !cs[0].isAttachment
            && cs[0].PosOffset == ZeroVec3 && fa.wrapper.Some? && cs[0].ObjectID == fa.wrapper.value
            && forall k :: 0 <= k < |cs| ==> cs[k].Index == k
  {
    var os := Detected(fa);
    assert os[0] == fa;
    CapturedIndices(os, false);
  }

  /** With no null flag dictionary, chamber list or flag list, both captures record the same vault file. */
  lemma CapturesAgree(fa: PhysObj, now: Date)
    requires fa.kind.FirearmObj? && Typed(fa)
    requires fa.kind.chamberRounds.Some? && fa.kind.flagList.Some?
    requires forall k :: 0 <= k < |Detected(fa)| ==> Detected(fa)[k].flagDic.Some?
    ensures var os := Detected(fa);
            match Captured(os, |os|, true)
            case Err(e) => SaveGunSpec(fa, now) == Err(e)
            case Ok(c) => SaveGunSpec(fa, now) == Ok(SavedGunFrom(fa, c, now, true))
  {
    VariantsAgree(Detected(fa), |Detected(fa)|);
  }

  /** A capture throws at the first detected object that has no object wrapper, unless an earlier one threw. */
  lemma NullWrapperThrows(os: seq<PhysObj>, k: nat, keepDefaultFlags: bool)
    requires k < |os| && os[k].wrapper.None?
    ensures Captured(os, |os|, keepDefaultFlags).Err?
  {
    assert CaptureObject(os, k, keepDefaultFlags).Err?;
    CapturedErr(os, |os|, keepDefaultFlags);
  }
}
