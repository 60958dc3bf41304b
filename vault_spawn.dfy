/**
 * The spawn half of the vault engine, shared by the three copies of the spawn
 * routine: every component is instantiated and sorted into a bucket (root,
 * magazine, attachment or tray), then attachments are mounted by a bounded
 * fixed-point loop that scans the pending list backwards at most 200 times.
 *
 * Each phase is written twice: as a recursive specification function and as the
 * imperative method the source runs, proved equal to it.
 */
module VaultSpawn {
  import opened Wrappers
  import opened Host
  import opened SavedGunModel
  import FireSelector

  /** The initial `breakIterator`: the attach loop runs at most this many passes. */
  const MaxPasses: nat := 200

  /** The exceptions a spawn can throw. */
  datatype SpawnError =
    | ComponentsNotLoaded               // InvalidOperationException of the catalog check
    | MissingCatalogEntry(id: string)   // KeyNotFoundException from IM.OD[id]
    | DuplicateIndex(index: int)        // dicByIndex.Add of an Index already present
    | FireControlMode(name: string)     // Enum.Parse failing in ApplyFirearmProperties
    | NoBaseGunForMagazine(position: nat)
    | NoBaseGun
    | UnknownParent(index: int)         // dicByIndex[ObjectAttachedTo] with no such key
    | MountOutOfRange(index: int, mount: int)
    | NotAnAttachment(position: nat)    // GetComponent<FVRFireArmAttachment>() was null

  /** An exception, with the number of components instantiated before it was thrown. */
  datatype Failure = Failure(error: SpawnError, instantiated: nat)

  /** Which branch of the instantiation loop a component takes. */
  datatype Bucket = RootBucket | MagazineBucket | AttachmentBucket | TrayBucket

  function BucketOf(c: SavedGunComponent): Bucket
  {
    if c.isFirearm then RootBucket
    else if c.isMagazine then MagazineBucket
    else if c.isAttachment then AttachmentBucket
    else TrayBucket
  }

  /** How a tray item is refilled with the saved magazine rounds. */
  datatype Refill = SpeedloaderRefill | ClipRefill | NoRefill

  function TrayRefill(pf: Prefab, rounds: seq<RoundClass>): Refill
  {
    if pf.kind.SpeedloaderPart? && |rounds| > 0 then SpeedloaderRefill
    else if pf.kind.ClipPart? && |rounds| > 0 then ClipRefill
    else NoRefill
  }

  /** A tray item; its slot is its position in the tray list, placed `0.1 * slot` above the spawn point. */
  datatype TrayItem = TrayItem(position: nat, refill: Refill)

  /** The magazine at `magazine` was loaded into the base gun at `gun`. */
  datatype MagLoad = MagLoad(magazine: nat, gun: nat)

  /** The inputs of a spawn: the components, their prefabs, the magazine rounds and the optional fire-control settings. */
  datatype Job = Job(
    comps: seq<SavedGunComponent>,
    prefabs: seq<Prefab>,
    rounds: seq<RoundClass>,
    settings: Option<FireSelector.FireSettings>)

  predicate JobOk(job: Job)
  {
    |job.prefabs| == |job.comps|
  }

  /**
   * The locals of the instantiation loop; `baseGun` and `control` describe the current
   * `baseGun`, and `configured` holds, position by position, the flag dictionary each
   * instantiated object was configured from.
   */
  datatype Staged = Staged(
    baseGun: Option<nat>,
    control: Option<FireControl>,
    valid: seq<int>,
    byIndex: map<int, nat>,
    attachments: seq<nat>,
    trays: seq<TrayItem>,
    loads: seq<MagLoad>,
    configured: seq<Option<FlagDic>>)

  const Fresh: Staged := Staged(None, None, [], map[], [], [], [], [])

  /** Everything the loop has recorded refers to positions below `j`. */
  predicate StagedOk(j: nat, st: Staged)
  {
    (forall i :: i in st.byIndex ==> st.byIndex[i] < j)
    && (forall p :: p in st.attachments ==> p < j)
    && (st.baseGun.Some? ==> st.baseGun.value < j)
    && (st.baseGun.Some? <==> st.control.Some?)
    && |st.configured| == j
  }

  /** `ApplyFirearmProperties` of the spawning vault file, when there is one. */
  function ApplySettings(settings: Option<FireSelector.FireSettings>, fc: FireControl): Result<FireControl, string>
  {
    match settings
    case None => Ok(fc)
    case Some(s) => FireSelector.Apply(s, fc)
  }

  /**
   * One turn of the instantiation loop, for component `j`. Its Index is registered
   * before its branch runs; `baseGun` is whatever `GetComponent<FVRFireArm>()` finds
   * on the latest root, null included. A turn that does not throw ends with
   * `ConfigureFromFlagDic(gun.Components[j].Flags)` on the new object.
   */
  function Step(job: Job, j: nat, st: Staged): (r: Result<Staged, Failure>)
    requires JobOk(job) && j < |job.comps| && StagedOk(j, st)
    ensures r.Ok? ==> StagedOk(j + 1, r.value)
    ensures r.Err? ==> r.error.instantiated == j + 1
  {
    var c := job.comps[j];
    var pf := job.prefabs[j];
    if c.Index in st.byIndex then Err(Failure(DuplicateIndex(c.Index), j + 1))
    else
      var st1 := st.(byIndex := st.byIndex[c.Index := j]);
      var done := st.configured + [c.Flags];
      match BucketOf(c)
      case RootBucket =>
        (match pf.kind
         case FirearmPart(fc) =>
           (match ApplySettings(job.settings, fc)
            case Err(name) => Err(Failure(FireControlMode(name), j + 1))
            case Ok(fc') => Ok(st1.(baseGun := Some(j), control := Some(fc'), valid := st1.valid + [j], configured := done)))
         case _ => Ok(st1.(baseGun := None, control := None, valid := st1.valid + [j], configured := done)))
      case MagazineBucket =>
        if !pf.kind.MagazinePart? then Ok(st1.(valid := st1.valid + [j], configured := done))
        else if st1.baseGun.None? then Err(Failure(NoBaseGunForMagazine(j), j + 1))
        else Ok(st1.(valid := st1.valid + [j], loads := st1.loads + [MagLoad(j, st1.baseGun.value)], configured := done))
      case AttachmentBucket => Ok(st1.(attachments := st1.attachments + [j], configured := done))
      case TrayBucket => Ok(st1.(trays := st1.trays + [TrayItem(j, TrayRefill(pf, job.rounds))], configured := done))
  }

  /** The instantiation loop from component `j` on; it stops at the first exception. */
  function Place(job: Job, j: nat, st: Staged): (r: Result<Staged, Failure>)
    requires JobOk(job) && j <= |job.comps| && StagedOk(j, st)
    ensures r.Ok? ==> StagedOk(|job.comps|, r.value)
    ensures r.Err? ==> j < r.error.instantiated <= |job.comps|
    decreases |job.comps| - j
  {
    if j == |job.comps| then Ok(st)
    else
      match Step(job, j, st)
      case Err(f) => Err(f)
      case Ok(st') => Place(job, j + 1, st')
  }

  /** The instantiation loop as the source runs it, its locals kept together as a `Staged`. */
  method Instantiate(job: Job) returns (r: Result<Staged, Failure>)
    requires JobOk(job)
    ensures r == Place(job, 0, Fresh)
  {
    var st := Fresh;
    var j := 0;
    while j < |job.comps|
      invariant 0 <= j <= |job.comps| && StagedOk(j, st)
      invariant Place(job, 0, Fresh) == Place(job, j, st)
    {
      var next := TakeComponent(job, j, st);
      if next.Err? {
        return Err(next.error);
      }
      st := next.value;
      j := j + 1;
    }
    return Ok(st);
  }

  /** One turn of the instantiation loop over the locals `st` holds. */
  method TakeComponent(job: Job, j: nat, st: Staged) returns (r: Result<Staged, Failure>)
    requires JobOk(job) && j < |job.comps| && StagedOk(j, st)
    ensures r == Step(job, j, st)
  {
    var baseGun, control, validIndexes, dicByIndex := st.baseGun, st.control, st.valid, st.byIndex;
    var attachments, trayObjects, loads, configured := st.attachments, st.trays, st.loads, st.configured;
    var c := job.comps[j];
    var pf := job.prefabs[j];
    if c.Index in dicByIndex {
      return Err(Failure(DuplicateIndex(c.Index), j + 1));
    }
    dicByIndex := dicByIndex[c.Index := j];
    if c.isFirearm {
      if pf.kind.FirearmPart? {
        var applied := ApplySettings(job.settings, pf.kind.control);
        if applied.Err? {
          return Err(Failure(FireControlMode(applied.error), j + 1));
        }
        baseGun, control := Some(j), Some(applied.value);
      } else {
        baseGun, control := None, None;
      }
      validIndexes := validIndexes + [j];
    } else if c.isMagazine {
      validIndexes := validIndexes + [j];
      if pf.kind.MagazinePart? {
        if baseGun.None? {
          return Err(Failure(NoBaseGunForMagazine(j), j + 1));
        }
        loads := loads + [MagLoad(j, baseGun.value)];
      }
    } else if c.isAttachment {
      attachments := attachments + [j];
    } else {
      trayObjects := trayObjects + [TrayItem(j, TrayRefill(pf, job.rounds))];
    }
    configured := configured + [c.Flags];
    return Ok(Staged(baseGun, control, validIndexes, dicByIndex, attachments, trayObjects, loads, configured));
  }

  // ---------------------------------------------------------------- attach loop

  /** An attachment mounted on mount `mount` of the object at position `parent`. */
  datatype Attached = Attached(part: nat, parent: nat, mount: nat)

  /** The attach loop's state: pending positions, `validIndexes`, what was attached, and passes begun. */
  datatype Progress = Progress(pending: seq<nat>, valid: seq<int>, log: seq<Attached>, passes: nat)

  /** What the attach loop reads: components, prefabs and the Index-to-position dictionary. */
  datatype Ctx = Ctx(comps: seq<SavedGunComponent>, prefabs: seq<Prefab>, byIndex: map<int, nat>)

  predicate CtxOk(ctx: Ctx)
  {
    |ctx.prefabs| == |ctx.comps| && forall i :: i in ctx.byIndex ==> ctx.byIndex[i] < |ctx.comps|
  }

  predicate PendingOk(ctx: Ctx, ps: seq<nat>)
  {
    forall p :: p in ps ==> p < |ctx.comps|
  }

  /**
   * Mounting one eligible attachment: the parent is looked up by Index, its mount list is
   * indexed, and the part must carry an attachment component, in that order.
   */
  function Mount(ctx: Ctx, p: nat): (r: Result<Attached, SpawnError>)
    requires CtxOk(ctx) && p < |ctx.comps|
    ensures r.Ok? ==> r.value.part == p && ctx.comps[p].ObjectAttachedTo in ctx.byIndex
                      && r.value.parent == ctx.byIndex[ctx.comps[p].ObjectAttachedTo]
                      && r.value.mount == ctx.comps[p].MountAttachedTo
                      && r.value.mount < ctx.prefabs[r.value.parent].mountCount
                      && ctx.prefabs[p].kind.AttachmentPart?
  {
    var c := ctx.comps[p];
    if c.ObjectAttachedTo !in ctx.byIndex then Err(UnknownParent(c.ObjectAttachedTo))
    else
      var q := ctx.byIndex[c.ObjectAttachedTo];
      if !(0 <= c.MountAttachedTo < ctx.prefabs[q].mountCount) then Err(MountOutOfRange(c.ObjectAttachedTo, c.MountAttachedTo))
      else if !ctx.prefabs[p].kind.AttachmentPart? then Err(NotAnAttachment(p))
      else Ok(Attached(p, q, c.MountAttachedTo))
  }

  /** `RemoveAt(k)` keeps every other element and adds none. */
  lemma RemoveAtShrinks(ctx: Ctx, s: seq<nat>, k: nat)
    requires k < |s| && PendingOk(ctx, s)
    ensures PendingOk(ctx, s[..k] + s[k + 1..])
    ensures multiset(s[..k] + s[k + 1..]) + multiset{s[k]} == multiset(s)
  {
    var rest := s[..k] + s[k + 1..];
    assert s == s[..k] + [s[k]] + s[k + 1..];
    forall x | x in rest ensures x < |ctx.comps| {
      assert x in multiset(rest);
      assert x in multiset(s);
      assert x in s;
    }
  }

  /** One backward scan, over pending positions `k` down to 0. */
  function Scan(ctx: Ctx, k: int, st: Progress): (r: Result<Progress, SpawnError>)
    requires CtxOk(ctx) && PendingOk(ctx, st.pending) && -1 <= k < |st.pending|
    ensures r.Ok? ==> PendingOk(ctx, r.value.pending) && multiset(r.value.pending) <= multiset(st.pending)
    ensures r.Ok? ==> r.value.passes == st.passes
    decreases k + 1
  {
    if k < 0 then Ok(st)
    else
      var p := st.pending[k];
      assert p in st.pending;
      var c := ctx.comps[p];
      if c.ObjectAttachedTo !in st.valid then Scan(ctx, k - 1, st)
      else
        match Mount(ctx, p)
        case Err(e) => Err(e)
        case Ok(a) =>
          var rest := st.pending[..k] + st.pending[k + 1..];
          RemoveAtShrinks(ctx, st.pending, k);
          Scan(ctx, k - 1, Progress(rest, st.valid + [c.Index], st.log + [a], st.passes))
  }

  /** The outer loop with `budget` passes left. */
  function Loop(ctx: Ctx, budget: nat, st: Progress): (r: Result<Progress, SpawnError>)
    requires CtxOk(ctx) && PendingOk(ctx, st.pending)
    ensures r.Ok? ==> PendingOk(ctx, r.value.pending) && st.passes <= r.value.passes <= st.passes + budget
    ensures r.Ok? && |r.value.pending| > 0 ==> r.value.passes == st.passes + budget
    decreases budget
  {
    if |st.pending| == 0 || budget == 0 then Ok(st)
    else
      match Scan(ctx, |st.pending| - 1, st.(passes := st.passes + 1))
      case Err(e) => Err(e)
      case Ok(s) => Loop(ctx, budget - 1, s)
  }

  /** The attach loop from the seeds, with no pass begun. */
  function ResolveSpec(ctx: Ctx, attachments: seq<nat>, seeds: seq<int>): Result<Progress, SpawnError>
    requires CtxOk(ctx) && PendingOk(ctx, attachments)
  {
    Loop(ctx, MaxPasses, Progress(attachments, seeds, [], 0))
  }

  /** The attach loop as the source runs it: `breakIterator`, a backward `for`, and `RemoveAt(k)`. */
  method Resolve(ctx: Ctx, attachments: seq<nat>, seeds: seq<int>) returns (r: Result<Progress, SpawnError>)
    requires CtxOk(ctx) && PendingOk(ctx, attachments)
    ensures r == ResolveSpec(ctx, attachments, seeds)
  {
    ghost var target := ResolveSpec(ctx, attachments, seeds);
    var pending := attachments;
    var valid := seeds;
    var log: seq<Attached> := [];
    var passes := 0;
    var breakIterator := MaxPasses;
    while |pending| > 0 && breakIterator > 0
      invariant PendingOk(ctx, pending)
      decreases breakIterator
      invariant target == Loop(ctx, breakIterator, Progress(pending, valid, log, passes))
    {
      ghost var start := Progress(pending, valid, log, passes + 1);
      breakIterator := breakIterator - 1;
      passes := passes + 1;
      var k := |pending| - 1;
      while k >= 0
        invariant -1 <= k < |pending| && PendingOk(ctx, pending)
        invariant target == match Scan(ctx, k, Progress(pending, valid, log, passes))
                            case Err(e) => Err(e)
                            case Ok(s) => Loop(ctx, breakIterator, s)
      {
        var p := pending[k];
        assert p in pending;
        var c := ctx.comps[p];
        if c.ObjectAttachedTo in valid {
          var mounted := Mount(ctx, p);
          if mounted.Err? {
            return Err(mounted.error);
          }
          RemoveAtShrinks(ctx, pending, k);
          valid := valid + [c.Index];
          log := log + [mounted.value];
          pending := pending[..k] + pending[k + 1..];
        }
        k := k - 1;
      }
    }
    return Ok(Progress(pending, valid, log, passes));
  }

  // ---------------------------------------------------------------- whole spawn

  /** A spawned gun; positions index the component list, and `configured[j]` is the flag dictionary object `j` was configured from. */
  datatype Spawned = Spawned(
    baseGun: nat,
    control: FireControl,
    loads: seq<MagLoad>,
    rootMagazineReloaded: bool,
    trays: seq<TrayItem>,
    configured: seq<Option<FlagDic>>,
    attached: seq<Attached>,
    unattached: seq<nat>,
    passes: nat,
    chambers: Option<seq<RoundClass>>,
    savedFlags: Option<seq<string>>)

  /** `baseGun.Magazine != null`: the base gun's prefab has one, or a magazine was loaded into it. */
  predicate BaseHasMagazine(job: Job, st: Staged, g: nat)
    requires JobOk(job) && g < |job.comps|
  {
    job.prefabs[g].integratedMagazine || exists l :: l in st.loads && l.gun == g
  }

  /**
   * Instantiation, the base-gun check, the magazine reload and the attach loop; the
   * tray placement and the root's chambers, flags and rotation follow without
   * further failure.
   */
  function SpawnSpec(job: Job, chambers: Option<seq<RoundClass>>, savedFlags: Option<seq<string>>): Result<Spawned, Failure>
    requires JobOk(job)
  {
    match Place(job, 0, Fresh)
    case Err(f) => Err(f)
    case Ok(st) =>
      if st.baseGun.None? then Err(Failure(NoBaseGun, |job.comps|))
      else
        var g := st.baseGun.value;
        var ctx := Ctx(job.comps, job.prefabs, st.byIndex);
        match ResolveSpec(ctx, st.attachments, st.valid)
        case Err(e) => Err(Failure(e, |job.comps|))
        case Ok(res) =>
          Ok(Spawned(g, st.control.value, st.loads, BaseHasMagazine(job, st, g) && |job.rounds| > 0,
                     st.trays, st.configured, res.log, res.pending, res.passes, chambers, savedFlags))
  }

  /** The spawn routine after its catalog lookups, as the source runs it. */
  method Spawn(job: Job, chambers: Option<seq<RoundClass>>, savedFlags: Option<seq<string>>) returns (r: Result<Spawned, Failure>)
    requires JobOk(job)
    ensures r == SpawnSpec(job, chambers, savedFlags)
  {
    var staged := Instantiate(job);
    if staged.Err? {
      return Err(staged.error);
    }
    var st := staged.value;
    if st.baseGun.None? {
      return Err(Failure(NoBaseGun, |job.comps|));
    }
    var g := st.baseGun.value;
    var reload := (job.prefabs[g].integratedMagazine || exists l :: l in st.loads && l.gun == g) && |job.rounds| > 0;
    var ctx := Ctx(job.comps, job.prefabs, st.byIndex);
    var resolved := Resolve(ctx, st.attachments, st.valid);
    if resolved.Err? {
      return Err(Failure(resolved.error, |job.comps|));
    }
    var res := resolved.value;
    return Ok(Spawned(g, st.control.value, st.loads, reload, st.trays, st.configured, res.log, res.pending, res.passes, chambers, savedFlags));
  }
}
