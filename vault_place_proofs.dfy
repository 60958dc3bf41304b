/**
 * What the instantiation loop guarantees, and how a whole spawn ends: which
 * bucket every component lands in, that Index values must be distinct, which
 * root becomes the base gun, which magazines are loaded into it, and where
 * every attachment is mounted.
 */
module VaultPlaceProofs {
  import opened Wrappers
  import SodaliteUtils
  import opened Host
  import opened SavedGunModel
  import opened VaultSpawn
  import opened VaultResolveProofs

  /** The positions from `j` on whose component takes branch `b`, in order. */
  function PositionsFrom(comps: seq<SavedGunComponent>, j: nat, b: Bucket): (ps: seq<nat>)
    requires j <= |comps|
    ensures forall x :: x in ps <==> j <= x < |comps| && BucketOf(comps[x]) == b
    decreases |comps| - j
  {
    if j == |comps| then []
    else (if BucketOf(comps[j]) == b then [j] else []) + PositionsFrom(comps, j + 1, b)
  }

  /** Positions of roots and magazines: they are added to `validIndexes` as they are instantiated. */
  function SeedsFrom(comps: seq<SavedGunComponent>, j: nat): (ps: seq<int>)
    requires j <= |comps|
    ensures forall x :: x in ps <==> j <= x < |comps| && BucketOf(comps[x]) in {RootBucket, MagazineBucket}
    decreases |comps| - j
  {
    if j == |comps| then []
    else (if BucketOf(comps[j]) in {RootBucket, MagazineBucket} then [j] else []) + SeedsFrom(comps, j + 1)
  }

  lemma {:induction false} PositionsNoDup(comps: seq<SavedGunComponent>, j: nat, b: Bucket)
    requires j <= |comps|
    ensures NoDup(PositionsFrom(comps, j, b))
    decreases |comps| - j
  {
    if j < |comps| {
      var rest := PositionsFrom(comps, j + 1, b);
      var head := if BucketOf(comps[j]) == b then [j] else [];
      PositionsNoDup(comps, j + 1, b);
      assert j !in rest;
      assert multiset(PositionsFrom(comps, j, b)) == multiset(head) + multiset(rest);
      forall x ensures multiset(PositionsFrom(comps, j, b))[x] <= 1 {
        assert multiset(rest)[x] <= 1;
        assert x != j ==> multiset(head)[x] == 0;
      }
    }
  }

  /** The positions of a list of tray items. */
  function TrayPositions(ts: seq<TrayItem>): (ps: seq<nat>)
    ensures |ps| == |ts| && forall i :: 0 <= i < |ts| ==> ps[i] == ts[i].position
  {
    if ts == [] then [] else [ts[0].position] + TrayPositions(ts[1..])
  }

  /** Every tray item gets the refill its prefab and the magazine rounds call for. */
  predicate TraysRefilled(job: Job, ts: seq<TrayItem>)
    requires JobOk(job)
  {
    forall t :: t in ts ==> t.position < |job.comps| && t.refill == TrayRefill(job.prefabs[t.position], job.rounds)
  }

  /** The effect of one turn of the instantiation loop that does not throw. */
  lemma StepShape(job: Job, j: nat, st: Staged, s: Staged)
    requires JobOk(job) && j < |job.comps| && StagedOk(j, st) && Step(job, j, st) == Ok(s)
    ensures job.comps[j].Index !in st.byIndex && s.byIndex == st.byIndex[job.comps[j].Index := j]
    ensures s.attachments == st.attachments + (if BucketOf(job.comps[j]) == AttachmentBucket then [j] else [])
    ensures s.valid == st.valid + (if BucketOf(job.comps[j]) in {RootBucket, MagazineBucket} then [j] else [])
    ensures s.trays == st.trays + (if BucketOf(job.comps[j]) == TrayBucket
                                   then [TrayItem(j, TrayRefill(job.prefabs[j], job.rounds))] else [])
    ensures s.baseGun == (if !job.comps[j].isFirearm then st.baseGun
                          else if job.prefabs[j].kind.FirearmPart? then Some(j) else None)
    ensures job.comps[j].isFirearm && job.prefabs[j].kind.FirearmPart? ==>
              ApplySettings(job.settings, job.prefabs[j].kind.control) == Ok(s.control.value)
    ensures !job.comps[j].isFirearm ==> s.control == st.control
    ensures BucketOf(job.comps[j]) == MagazineBucket && job.prefabs[j].kind.MagazinePart? ==>
              st.baseGun.Some? && s.loads == st.loads + [MagLoad(j, st.baseGun.value)]
    ensures !(BucketOf(job.comps[j]) == MagazineBucket && job.prefabs[j].kind.MagazinePart?) ==> s.loads == st.loads
    ensures s.configured == st.configured + [job.comps[j].Flags]
  {
  }

  /** A turn that does not throw registers a fresh Index for its position. */
  lemma StepIndex(job: Job, j: nat, st: Staged, s: Staged)
    requires JobOk(job) && j < |job.comps| && StagedOk(j, st) && Step(job, j, st) == Ok(s)
    ensures job.comps[j].Index !in st.byIndex && s.byIndex == st.byIndex[job.comps[j].Index := j]
  {
  }

  /** A turn that does not throw configures its object from its component's flags. */
  lemma StepFlags(job: Job, j: nat, st: Staged, s: Staged)
    requires JobOk(job) && j < |job.comps| && StagedOk(j, st) && Step(job, j, st) == Ok(s)
    ensures s.configured == st.configured + [job.comps[j].Flags]
  {
  }

  /** The saved flag dictionaries of the components, in order. */
  function FlagsOf(comps: seq<SavedGunComponent>): (fs: seq<Option<FlagDic>>)
    ensures |fs| == |comps| && forall k :: 0 <= k < |comps| ==> fs[k] == comps[k].Flags
  {
    if comps == [] then [] else [comps[0].Flags] + FlagsOf(comps[1..])
  }

  /** Every turn configures its object from its own component's flags, in component order. */
  lemma {:induction false} PlaceFlags(job: Job, j: nat, st: Staged, r: Staged)
    requires JobOk(job) && j <= |job.comps| && StagedOk(j, st) && Place(job, j, st) == Ok(r)
    ensures r.configured == st.configured + FlagsOf(job.comps[j..])
    decreases |job.comps| - j
  {
    if j == |job.comps| {
      assert job.comps[j..] == [];
    } else {
      var s := Step(job, j, st).value;
      StepFlags(job, j, st, s);
      PlaceFlags(job, j + 1, s, r);
      assert job.comps[j..][1..] == job.comps[j + 1..];
      assert FlagsOf(job.comps[j..]) == [job.comps[j].Flags] + FlagsOf(job.comps[j + 1..]);
      SodaliteUtils.ConcatAssoc(st.configured, [job.comps[j].Flags], FlagsOf(job.comps[j + 1..]));
    }
  }

  /** Attachments are collected in component order. */
  lemma {:induction false} PlaceAttachments(job: Job, j: nat, st: Staged, r: Staged)
    requires JobOk(job) && j <= |job.comps| && StagedOk(j, st) && Place(job, j, st) == Ok(r)
    ensures r.attachments == st.attachments + PositionsFrom(job.comps, j, AttachmentBucket)
    decreases |job.comps| - j
  {
    if j < |job.comps| {
      var s := Step(job, j, st).value;
      StepShape(job, j, st, s);
      PlaceAttachments(job, j + 1, s, r);
      var here := if BucketOf(job.comps[j]) == AttachmentBucket then [j] else [];
      assert PositionsFrom(job.comps, j, AttachmentBucket) == here + PositionsFrom(job.comps, j + 1, AttachmentBucket);
      ConcatStep(r.attachments, s.attachments, st.attachments, here,
                 PositionsFrom(job.comps, j, AttachmentBucket), PositionsFrom(job.comps, j + 1, AttachmentBucket));
    }
  }

  /** Roots and magazines make up the `validIndexes` the attach loop starts from, in component order. */
  lemma {:induction false} PlaceSeeds(job: Job, j: nat, st: Staged, r: Staged)
    requires JobOk(job) && j <= |job.comps| && StagedOk(j, st) && Place(job, j, st) == Ok(r)
    ensures r.valid == st.valid + SeedsFrom(job.comps, j)
    decreases |job.comps| - j
  {
    if j < |job.comps| {
      var s := Step(job, j, st).value;
      StepShape(job, j, st, s);
      PlaceSeeds(job, j + 1, s, r);
      var here: seq<int> := if BucketOf(job.comps[j]) in {RootBucket, MagazineBucket} then [j] else [];
      assert SeedsFrom(job.comps, j) == here + SeedsFrom(job.comps, j + 1);
      ConcatStep(r.valid, s.valid, st.valid, here, SeedsFrom(job.comps, j), SeedsFrom(job.comps, j + 1));
    }
  }

  lemma TrayPositionsAppend(ts: seq<TrayItem>, us: seq<TrayItem>)
    ensures TrayPositions(ts + us) == TrayPositions(ts) + TrayPositions(us)
  {
    assert TrayPositions(ts + us) == TrayPositions(ts) + TrayPositions(us);
  }

  /** Tray items are collected in component order. */
  lemma {:induction false} PlaceTrays(job: Job, j: nat, st: Staged, r: Staged)
    requires JobOk(job) && j <= |job.comps| && StagedOk(j, st) && Place(job, j, st) == Ok(r)
    ensures TrayPositions(r.trays) == TrayPositions(st.trays) + PositionsFrom(job.comps, j, TrayBucket)
    decreases |job.comps| - j
  {
    if j < |job.comps| {
      var s := Step(job, j, st).value;
      TrayStep(job, j, st, s);
      PlaceTrays(job, j + 1, s, r);
      var here := if BucketOf(job.comps[j]) == TrayBucket then [j] else [];
      assert PositionsFrom(job.comps, j, TrayBucket) == here + PositionsFrom(job.comps, j + 1, TrayBucket);
      ConcatStep(TrayPositions(r.trays), TrayPositions(s.trays), TrayPositions(st.trays), here,
                 PositionsFrom(job.comps, j, TrayBucket), PositionsFrom(job.comps, j + 1, TrayBucket));
    }
  }

  lemma ConcatStep<T>(whole: seq<T>, mid: seq<T>, start: seq<T>, here: seq<T>, from: seq<T>, after: seq<T>)
    requires whole == mid + after && mid == start + here && from == here + after
    ensures whole == start + from
  {
  }

  /** One turn of the instantiation loop adds the position of a tray item, and only of one. */
  lemma TrayStep(job: Job, j: nat, st: Staged, s: Staged)
    requires JobOk(job) && j < |job.comps| && StagedOk(j, st) && Step(job, j, st) == Ok(s)
    ensures TrayPositions(s.trays) == TrayPositions(st.trays) + (if BucketOf(job.comps[j]) == TrayBucket then [j] else [])
  {
    StepShape(job, j, st, s);
    var added := if BucketOf(job.comps[j]) == TrayBucket then [TrayItem(j, TrayRefill(job.prefabs[j], job.rounds))] else [];
    TrayPositionsAppend(st.trays, added);
    assert TrayPositions(added) == (if BucketOf(job.comps[j]) == TrayBucket then [j] else []);
  }

  /** Each tray item is refilled as its prefab and the saved magazine rounds call for. */
  lemma {:induction false} PlaceRefills(job: Job, j: nat, st: Staged, r: Staged)
    requires JobOk(job) && j <= |job.comps| && StagedOk(j, st) && Place(job, j, st) == Ok(r)
    requires TraysRefilled(job, st.trays)
    ensures TraysRefilled(job, r.trays)
    decreases |job.comps| - j
  {
    if j < |job.comps| {
      var s := Step(job, j, st).value;
      StepShape(job, j, st, s);
      PlaceRefills(job, j + 1, s, r);
    }
  }

  /** No Index occurs twice among the components. */
  predicate DistinctIndexes(comps: seq<SavedGunComponent>)
  {
    forall i, i' :: 0 <= i < i' < |comps| ==> comps[i].Index != comps[i'].Index
  }

  /**
   * `dicByIndex.Add` succeeds only for a fresh Index, and the finished dictionary
   * maps every component's Index to that component.
   */
  lemma PlaceIndex(job: Job, j: nat, st: Staged, r: Staged)
    requires JobOk(job) && j <= |job.comps| && StagedOk(j, st) && Place(job, j, st) == Ok(r)
    ensures forall i :: j <= i < |job.comps| ==> job.comps[i].Index !in st.byIndex
    ensures forall i, i' :: j <= i < i' < |job.comps| ==> job.comps[i].Index != job.comps[i'].Index
    ensures forall i :: j <= i < |job.comps| ==> job.comps[i].Index in r.byIndex && r.byIndex[job.comps[i].Index] == i
    ensures forall key :: key in st.byIndex ==> key in r.byIndex && r.byIndex[key] == st.byIndex[key]
    ensures forall key :: key in r.byIndex ==> key in st.byIndex || exists i :: j <= i < |job.comps| && job.comps[i].Index == key
  {
    PlaceFresh(job, j, st, r);
    PlaceKeys(job, j, st, r);
    PlaceNoOtherKeys(job, j, st, r);
  }

  /** Every remaining Index is new to the dictionary, and no two of them are equal. */
  lemma {:induction false} PlaceFresh(job: Job, j: nat, st: Staged, r: Staged)
    requires JobOk(job) && j <= |job.comps| && StagedOk(j, st) && Place(job, j, st) == Ok(r)
    ensures forall i :: j <= i < |job.comps| ==> job.comps[i].Index !in st.byIndex
    ensures forall i, i' :: j <= i < i' < |job.comps| ==> job.comps[i].Index != job.comps[i'].Index
    decreases |job.comps| - j
  {
    if j < |job.comps| {
      var s := Step(job, j, st).value;
      StepIndex(job, j, st, s);
      PlaceFresh(job, j + 1, s, r);
    }
  }

  /** The finished dictionary keeps every entry it had and maps each remaining Index to its position. */
  lemma {:induction false} PlaceKeys(job: Job, j: nat, st: Staged, r: Staged)
    requires JobOk(job) && j <= |job.comps| && StagedOk(j, st) && Place(job, j, st) == Ok(r)
    ensures forall i :: j <= i < |job.comps| ==> job.comps[i].Index in r.byIndex && r.byIndex[job.comps[i].Index] == i
    ensures forall key :: key in st.byIndex ==> key in r.byIndex && r.byIndex[key] == st.byIndex[key]
    decreases |job.comps| - j
  {
    if j < |job.comps| {
      var s := Step(job, j, st).value;
      StepIndex(job, j, st, s);
      PlaceKeys(job, j + 1, s, r);
    }
  }

  /** The finished dictionary holds no key besides its old ones and the remaining Index values. */
  lemma {:induction false} PlaceNoOtherKeys(job: Job, j: nat, st: Staged, r: Staged)
    requires JobOk(job) && j <= |job.comps| && StagedOk(j, st) && Place(job, j, st) == Ok(r)
    ensures forall key :: key in r.byIndex ==> key in st.byIndex || exists i :: j <= i < |job.comps| && job.comps[i].Index == key
    decreases |job.comps| - j
  {
    if j < |job.comps| {
      var s := Step(job, j, st).value;
      StepIndex(job, j, st, s);
      PlaceNoOtherKeys(job, j + 1, s, r);
    }
  }

  /**
   * The base gun after the first `k` components: the `FVRFireArm` of the latest
   * component flagged `isFirearm`, which is null when that prefab carries none.
   */
  function BaseBefore(job: Job, k: nat): Option<nat>
    requires JobOk(job) && k <= |job.comps|
  {
    if k == 0 then None
    else if job.comps[k - 1].isFirearm then (if job.prefabs[k - 1].kind.FirearmPart? then Some(k - 1) else None)
    else BaseBefore(job, k - 1)
  }

  /** `g` is the latest root among the first `k` components. */
  predicate LastRoot(job: Job, g: nat, k: nat)
    requires JobOk(job) && k <= |job.comps|
  {
    g < k && job.comps[g].isFirearm && forall i :: g < i < k ==> !job.comps[i].isFirearm
  }

  /** The base gun is the latest root, exactly when that root's prefab is a firearm. */
  lemma {:induction false} BaseBeforeIsLastRoot(job: Job, k: nat, g: nat)
    requires JobOk(job) && k <= |job.comps|
    ensures BaseBefore(job, k) == Some(g) <==> LastRoot(job, g, k) && job.prefabs[g].kind.FirearmPart?
    decreases k
  {
    if k > 0 && !job.comps[k - 1].isFirearm {
      BaseBeforeIsLastRoot(job, k - 1, g);
      if LastRoot(job, g, k) {
        assert LastRoot(job, g, k - 1);
      }
    }
  }

  /** The loads of the magazines from position `j` on, each into the base gun current at its turn. */
  function LoadsFrom(job: Job, j: nat): seq<MagLoad>
    requires JobOk(job) && j <= |job.comps|
    decreases |job.comps| - j
  {
    if j == |job.comps| then []
    else
      var base := BaseBefore(job, j);
      (if BucketOf(job.comps[j]) == MagazineBucket && job.prefabs[j].kind.MagazinePart? && base.Some?
       then [MagLoad(j, base.value)] else [])
      + LoadsFrom(job, j + 1)
  }

  /** The recorded base gun has a firearm prefab, and its control is that prefab's, with the settings applied. */
  predicate ControlOk(job: Job, st: Staged)
    requires JobOk(job)
  {
    st.baseGun.Some? ==>
      st.baseGun.value < |job.comps| && job.prefabs[st.baseGun.value].kind.FirearmPart? && st.control.Some?
      && ApplySettings(job.settings, job.prefabs[st.baseGun.value].kind.control) == Ok(st.control.value)
  }

  /**
   * The base gun at the end is the latest root; every magazine with a magazine
   * component found a base gun before it and was loaded into that one.
   */
  lemma {:induction false} PlaceBase(job: Job, j: nat, st: Staged, r: Staged)
    requires JobOk(job) && j <= |job.comps| && StagedOk(j, st) && Place(job, j, st) == Ok(r)
    requires st.baseGun == BaseBefore(job, j) && ControlOk(job, st)
    ensures r.baseGun == BaseBefore(job, |job.comps|) && ControlOk(job, r)
    ensures forall m :: j <= m < |job.comps| && BucketOf(job.comps[m]) == MagazineBucket && job.prefabs[m].kind.MagazinePart?
              ==> BaseBefore(job, m).Some?
    ensures r.loads == st.loads + LoadsFrom(job, j)
  {
    PlaceBaseGun(job, j, st, r);
    PlaceMagazinesHaveBase(job, j, st, r);
    PlaceLoads(job, j, st, r);
  }

  lemma {:induction false} PlaceBaseGun(job: Job, j: nat, st: Staged, r: Staged)
    requires JobOk(job) && j <= |job.comps| && StagedOk(j, st) && Place(job, j, st) == Ok(r)
    requires st.baseGun == BaseBefore(job, j) && ControlOk(job, st)
    ensures r.baseGun == BaseBefore(job, |job.comps|) && ControlOk(job, r)
    decreases |job.comps| - j
  {
    if j < |job.comps| {
      var s := Step(job, j, st).value;
      StepShape(job, j, st, s);
      assert s.baseGun == BaseBefore(job, j + 1);
      assert Place(job, j + 1, s) == Ok(r);
      PlaceBaseGun(job, j + 1, s, r);
    }
  }

  lemma {:induction false} PlaceMagazinesHaveBase(job: Job, j: nat, st: Staged, r: Staged)
    requires JobOk(job) && j <= |job.comps| && StagedOk(j, st) && Place(job, j, st) == Ok(r)
    requires st.baseGun == BaseBefore(job, j)
    ensures forall m :: j <= m < |job.comps| && BucketOf(job.comps[m]) == MagazineBucket && job.prefabs[m].kind.MagazinePart?
              ==> BaseBefore(job, m).Some?
    decreases |job.comps| - j
  {
    if j < |job.comps| {
      var s := Step(job, j, st).value;
      StepShape(job, j, st, s);
      assert s.baseGun == BaseBefore(job, j + 1);
      assert Place(job, j + 1, s) == Ok(r);
      PlaceMagazinesHaveBase(job, j + 1, s, r);
      if BucketOf(job.comps[j]) == MagazineBucket && job.prefabs[j].kind.MagazinePart? {
        assert st.baseGun.Some?;
      }
    }
  }

  lemma {:induction false} PlaceLoads(job: Job, j: nat, st: Staged, r: Staged)
    requires JobOk(job) && j <= |job.comps| && StagedOk(j, st) && Place(job, j, st) == Ok(r)
    requires st.baseGun == BaseBefore(job, j)
    ensures r.loads == st.loads + LoadsFrom(job, j)
    decreases |job.comps| - j
  {
    if j < |job.comps| {
      var s := Step(job, j, st).value;
      StepShape(job, j, st, s);
      assert s.baseGun == BaseBefore(job, j + 1);
      assert Place(job, j + 1, s) == Ok(r);
      PlaceLoads(job, j + 1, s, r);
      var here := if BucketOf(job.comps[j]) == MagazineBucket && job.prefabs[j].kind.MagazinePart? && st.baseGun.Some?
                  then [MagLoad(j, st.baseGun.value)] else [];
      assert s.loads == st.loads + here;
      assert LoadsFrom(job, j) == here + LoadsFrom(job, j + 1);
      SodaliteUtils.ConcatAssoc(st.loads, here, LoadsFrom(job, j + 1));
    }
  }

  /** A completed instantiation loop configures object `j` from `Components[j].Flags`, for every `j`. */
  lemma PlaceConfigures(job: Job, st: Staged)
    requires JobOk(job) && Place(job, 0, Fresh) == Ok(st)
    ensures st.configured == FlagsOf(job.comps)
  {
    PlaceFlags(job, 0, Fresh, st);
    assert job.comps[0..] == job.comps;
  }

  /** The context the attach loop reads, after a successful instantiation. */
  function SpawnCtx(job: Job, st: Staged): Ctx
  {
    Ctx(job.comps, job.prefabs, st.byIndex)
  }

  /** The finished dictionary maps exactly the components' Index values, each to its component. */
  predicate ByIndexExact(job: Job, st: Staged)
  {
    (forall i :: 0 <= i < |job.comps| ==> job.comps[i].Index in st.byIndex && st.byIndex[job.comps[i].Index] == i)
    && (forall key :: key in st.byIndex ==> exists i :: 0 <= i < |job.comps| && job.comps[i].Index == key)
  }

  /** An instantiation loop that completes, from its start. */
  lemma PlaceCorrect(job: Job, st: Staged)
    requires JobOk(job) && Place(job, 0, Fresh) == Ok(st)
    ensures DistinctIndexes(job.comps) && ByIndexExact(job, st)
    ensures st.attachments == PositionsFrom(job.comps, 0, AttachmentBucket)
    ensures st.valid == SeedsFrom(job.comps, 0)
    ensures TrayPositions(st.trays) == PositionsFrom(job.comps, 0, TrayBucket) && TraysRefilled(job, st.trays)
    ensures st.baseGun == BaseBefore(job, |job.comps|) && ControlOk(job, st)
    ensures st.loads == LoadsFrom(job, 0)
    ensures forall m :: 0 <= m < |job.comps| && BucketOf(job.comps[m]) == MagazineBucket && job.prefabs[m].kind.MagazinePart?
              ==> BaseBefore(job, m).Some?
    ensures st.configured == FlagsOf(job.comps)
  {
    PlaceConfigures(job, st);
    PlaceAttachments(job, 0, Fresh, st);
    PlaceSeeds(job, 0, Fresh, st);
    PlaceTrays(job, 0, Fresh, st);
    PlaceRefills(job, 0, Fresh, st);
    PlaceIndexAll(job, st);
    PlaceBase(job, 0, Fresh, st);
  }

  /** A completed instantiation loop saw distinct Index values and built the exact dictionary. */
  lemma PlaceIndexAll(job: Job, st: Staged)
    requires JobOk(job) && Place(job, 0, Fresh) == Ok(st)
    ensures DistinctIndexes(job.comps) && ByIndexExact(job, st)
  {
    PlaceIndex(job, 0, Fresh, st);
  }

  /** A mount lookup that succeeds puts the part on a mount of the component whose Index it names. */
  lemma MountedWhere(job: Job, st: Staged, a: Attached)
    requires JobOk(job) && ByIndexExact(job, st) && CtxOk(SpawnCtx(job, st)) && a.part < |job.comps|
    requires Mount(SpawnCtx(job, st), a.part) == Ok(a)
    ensures a.parent < |job.comps| && job.comps[a.parent].Index == job.comps[a.part].ObjectAttachedTo
    ensures a.mount == job.comps[a.part].MountAttachedTo && a.mount < job.prefabs[a.parent].mountCount
    ensures job.prefabs[a.part].kind.AttachmentPart?
  {
    var v := job.comps[a.part].ObjectAttachedTo;
    var i :| 0 <= i < |job.comps| && job.comps[i].Index == v;
    assert st.byIndex[v] == i;
  }

  /**
   * A spawn that completes: Index values are distinct, the base gun is the latest
   * root and carries a firearm, its control has the settings applied, magazines are
   * loaded in order into the base gun of their turn, tray items keep component order,
   * every object is configured from its own component's saved flags, and every mounted attachment sits on a mount of the component whose Index it
   * names, each at most once.
   */
  lemma SpawnCorrect(job: Job, chambers: Option<seq<RoundClass>>, savedFlags: Option<seq<string>>, sp: Spawned)
    requires JobOk(job) && SpawnSpec(job, chambers, savedFlags) == Ok(sp)
    ensures DistinctIndexes(job.comps)
    ensures BaseBefore(job, |job.comps|) == Some(sp.baseGun)
    ensures LastRoot(job, sp.baseGun, |job.comps|) && job.prefabs[sp.baseGun].kind.FirearmPart?
    ensures ApplySettings(job.settings, job.prefabs[sp.baseGun].kind.control) == Ok(sp.control)
    ensures sp.loads == LoadsFrom(job, 0)
    ensures TrayPositions(sp.trays) == PositionsFrom(job.comps, 0, TrayBucket) && TraysRefilled(job, sp.trays)
    ensures sp.configured == FlagsOf(job.comps)
    ensures multiset(sp.unattached) + multiset(Parts(sp.attached)) == multiset(PositionsFrom(job.comps, 0, AttachmentBucket))
    ensures NoDup(Parts(sp.attached)) && NoDup(sp.unattached)
    ensures sp.passes <= MaxPasses && (|sp.unattached| > 0 ==> sp.passes == MaxPasses)
    ensures forall a :: a in sp.attached ==>
              a.part < |job.comps| && a.parent < |job.comps|
              && job.comps[a.parent].Index == job.comps[a.part].ObjectAttachedTo
              && a.mount == job.comps[a.part].MountAttachedTo && a.mount < job.prefabs[a.parent].mountCount
              && job.prefabs[a.part].kind.AttachmentPart?
  {
    var st := Place(job, 0, Fresh).value;
    PlaceCorrect(job, st);
    BaseBeforeIsLastRoot(job, |job.comps|, sp.baseGun);
    var ctx := SpawnCtx(job, st);
    PositionsNoDup(job.comps, 0, AttachmentBucket);
    var res := ResolveSpec(ctx, st.attachments, st.valid).value;
    assert sp == Spawned(st.baseGun.value, st.control.value, st.loads, BaseHasMagazine(job, st, st.baseGun.value) && |job.rounds| > 0,
                         st.trays, st.configured, res.log, res.pending, res.passes, chambers, savedFlags);
    ResolveCorrect(ctx, st.attachments, st.valid, res);
    assert LogMounted(ctx, res.log);
    LogWhere(job, st, res.log);
  }

  /** Every entry of a log of mount lookups sits on a mount of the component whose Index it names. */
  lemma LogWhere(job: Job, st: Staged, log: seq<Attached>)
    requires JobOk(job) && ByIndexExact(job, st) && CtxOk(SpawnCtx(job, st))
    requires LogInRange(SpawnCtx(job, st), log) && LogMounted(SpawnCtx(job, st), log)
    ensures forall a :: a in log ==>
              a.part < |job.comps| && a.parent < |job.comps|
              && job.comps[a.parent].Index == job.comps[a.part].ObjectAttachedTo
              && a.mount == job.comps[a.part].MountAttachedTo && a.mount < job.prefabs[a.parent].mountCount
              && job.prefabs[a.part].kind.AttachmentPart?
  {
    var ctx := SpawnCtx(job, st);
    forall a | a in log
      ensures a.part < |job.comps| && a.parent < |job.comps|
              && job.comps[a.parent].Index == job.comps[a.part].ObjectAttachedTo
              && a.mount == job.comps[a.part].MountAttachedTo && a.mount < job.prefabs[a.parent].mountCount
              && job.prefabs[a.part].kind.AttachmentPart?
    {
      var t :| 0 <= t < |log| && log[t] == a;
      assert Mount(ctx, a.part) == Ok(a);
      MountedWhere(job, st, a);
    }
  }

  /** Two components with the same Index make the spawn throw. */
  lemma DuplicateIndexThrows(job: Job, chambers: Option<seq<RoundClass>>, savedFlags: Option<seq<string>>, i: nat, i': nat)
    requires JobOk(job) && i < i' < |job.comps| && job.comps[i].Index == job.comps[i'].Index
    ensures SpawnSpec(job, chambers, savedFlags).Err?
  {
    if SpawnSpec(job, chambers, savedFlags).Ok? {
      SpawnCorrect(job, chambers, savedFlags, SpawnSpec(job, chambers, savedFlags).value);
    }
  }

  /** A spawn throws unless the latest root carries a firearm. */
  lemma NoBaseGunThrows(job: Job, chambers: Option<seq<RoundClass>>, savedFlags: Option<seq<string>>)
    requires JobOk(job) && BaseBefore(job, |job.comps|).None?
    ensures SpawnSpec(job, chambers, savedFlags).Err?
  {
    if SpawnSpec(job, chambers, savedFlags).Ok? {
      SpawnCorrect(job, chambers, savedFlags, SpawnSpec(job, chambers, savedFlags).value);
    }
  }

  /** A magazine (with a magazine component) listed before any firearm root makes the spawn throw. */
  lemma MagazineBeforeBaseThrows(job: Job, chambers: Option<seq<RoundClass>>, savedFlags: Option<seq<string>>, m: nat)
    requires JobOk(job) && m < |job.comps|
    requires BucketOf(job.comps[m]) == MagazineBucket && job.prefabs[m].kind.MagazinePart?
    requires BaseBefore(job, m).None?
    ensures SpawnSpec(job, chambers, savedFlags).Err?
  {
    match Place(job, 0, Fresh)
    case Err(_) =>
    case Ok(st) => PlaceBase(job, 0, Fresh, st);
  }

  /** After a completed attach loop, an attachment of depth at most 200 appears in the log, with a successful mount. */
  lemma MountedOnce(ctx: Ctx, attachments: seq<nat>, seeds: seq<int>, res: Progress, x: nat, d: nat)
    requires CtxOk(ctx) && PendingOk(ctx, attachments) && NoDup(attachments)
    requires ResolveSpec(ctx, attachments, seeds) == Ok(res)
    requires x in attachments && Within(ctx, seeds, attachments, x, d) && d <= MaxPasses
    ensures Mount(ctx, x).Ok?
    ensures exists t :: 0 <= t < |res.log| && res.log[t].part == x && Mount(ctx, x) == Ok(res.log[t])
  {
    ResolveCorrect(ctx, attachments, seeds, res);
    assert x !in res.pending;
    assert x in multiset(attachments);
    assert x in multiset(Parts(res.log));
    var t :| 0 <= t < |res.log| && Parts(res.log)[t] == x;
    assert LogMounted(ctx, res.log);
    assert Mount(ctx, res.log[t].part) == Ok(res.log[t]);
    assert res.log[t].part == x;
  }

  /**
   * An attachment whose parent chain reaches a root or magazine within 200 links is
   * mounted during the loop, so a bad mount on it (an unknown parent Index, a mount
   * number outside the parent's list, or no attachment component) makes the spawn throw.
   */
  lemma ReachableBadMountThrows(job: Job, chambers: Option<seq<RoundClass>>, savedFlags: Option<seq<string>>, st: Staged, x: nat, d: nat)
    requires JobOk(job) && Place(job, 0, Fresh) == Ok(st) && st.baseGun.Some?
    requires x < |job.comps| && BucketOf(job.comps[x]) == AttachmentBucket
    requires PendingOk(SpawnCtx(job, st), st.attachments)
    requires Within(SpawnCtx(job, st), st.valid, st.attachments, x, d) && d <= MaxPasses
    requires Mount(SpawnCtx(job, st), x).Err?
    ensures SpawnSpec(job, chambers, savedFlags).Err?
  {
    var ctx := SpawnCtx(job, st);
    PlaceAttachments(job, 0, Fresh, st);
    PositionsNoDup(job.comps, 0, AttachmentBucket);
    match ResolveSpec(ctx, st.attachments, st.valid)
    case Err(_) =>
    case Ok(res) =>
      MountedOnce(ctx, st.attachments, st.valid, res, x, d);
  }
}
