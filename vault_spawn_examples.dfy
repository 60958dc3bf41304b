/**
 * Worked spawns: how many passes the attach loop takes for a few small guns,
 * and which attachments it leaves unattached.
 */
module VaultSpawnExamples {
  import opened Wrappers
  import opened Host
  import opened SavedGunModel
  import opened VaultSpawn
  import opened VaultResolveProofs

  /** A component with the given Index, parent Index and branch flags, on mount 0. */
  function Part(index: int, parent: int, b: Bucket): SavedGunComponent
  {
    NewComponent.(Index := index, ObjectAttachedTo := parent, MountAttachedTo := 0,
                  isFirearm := b == RootBucket, isMagazine := b == MagazineBucket, isAttachment := b == AttachmentBucket)
  }

  /** Two staged states agree field by field; sequences and maps are compared by their elements. */
  lemma SameStaged(r: Result<Staged, Failure>, s: Staged)
    requires r.Ok? && r.value.baseGun == s.baseGun && r.value.control == s.control && r.value.valid == s.valid
    requires r.value.byIndex == s.byIndex && r.value.attachments == s.attachments && r.value.trays == s.trays
    requires r.value.loads == s.loads && r.value.configured == s.configured
    ensures r == Ok(s)
  {
  }

  /** The flag dictionary of every part: present and empty. */
  const NoFlags: Option<FlagDic> := Some(map[])

  const Receiver: Prefab := Prefab(FirearmPart(OtherControl), 2, false)
  const Mag: Prefab := Prefab(MagazinePart, 0, false)
  const Rail: Prefab := Prefab(AttachmentPart, 1, false)

  /** Root 0, magazine 1, a rail on the root and a sight on the rail, listed child after parent. */
  const Chain: Job := Job([Part(0, -1, RootBucket), Part(1, -1, MagazineBucket), Part(2, 0, AttachmentBucket), Part(3, 2, AttachmentBucket)],
                          [Receiver, Mag, Rail, Rail], [], None)

  /**
   * The backward scan reaches the sight before the rail it hangs on, so the sight
   * waits for a second pass.
   */
  lemma ChainTakesTwoPasses()
    ensures SpawnSpec(Chain, Some([]), Some([])) ==
      Ok(Spawned(0, OtherControl, [MagLoad(1, 0)], false, [], [NoFlags, NoFlags, NoFlags, NoFlags], [Attached(2, 0, 0), Attached(3, 2, 0)], [], 2, Some([]), Some([])))
  {
    ChainInstantiates();
    ChainAttaches();
  }

  /** What the instantiation loop stages for the chained gun. */
  const ChainStaged: Staged :=
    Staged(Some(0), Some(OtherControl), [0, 1], map[0 := 0, 1 := 1, 2 := 2, 3 := 3], [2, 3], [], [MagLoad(1, 0)], [NoFlags, NoFlags, NoFlags, NoFlags])

  lemma ChainInstantiates()
    ensures Place(Chain, 0, Fresh) == Ok(ChainStaged)
  {
    var s1 := Staged(Some(0), Some(OtherControl), [0], map[0 := 0], [], [], [], [NoFlags]);
    var s2 := s1.(valid := [0, 1], byIndex := map[0 := 0, 1 := 1], loads := [MagLoad(1, 0)], configured := [NoFlags, NoFlags]);
    var s3 := s2.(byIndex := map[0 := 0, 1 := 1, 2 := 2], attachments := [2], configured := [NoFlags, NoFlags, NoFlags]);
    var st := ChainStaged;
    SameStaged(Step(Chain, 0, Fresh), s1);
    SameStaged(Step(Chain, 1, s1), s2);
    SameStaged(Step(Chain, 2, s2), s3);
    SameStaged(Step(Chain, 3, s3), st);
    assert Place(Chain, 3, s3) == Ok(st);
    assert Place(Chain, 2, s2) == Ok(st);
    assert Place(Chain, 1, s1) == Ok(st);
  }

  const ChainCtx: Ctx := Ctx(Chain.comps, Chain.prefabs, ChainStaged.byIndex)

  /** The parts of the chained gun the attach loop looks at, and how the two attachments mount. */
  lemma ChainParts()
    ensures CtxOk(ChainCtx)
    ensures ChainCtx.comps[2] == Part(2, 0, AttachmentBucket) && ChainCtx.comps[3] == Part(3, 2, AttachmentBucket)
    ensures Mount(ChainCtx, 2) == Ok(Attached(2, 0, 0)) && Mount(ChainCtx, 3) == Ok(Attached(3, 2, 0))
  {
  }

  /** The attach loop on the chained gun: the rail in the first pass, the sight in the second. */
  lemma ChainAttaches()
    ensures ResolveSpec(ChainCtx, [2, 3], [0, 1])
         == Ok(Progress([], [0, 1, 2, 3], [Attached(2, 0, 0), Attached(3, 2, 0)], 2))
  {
    var p1 := Progress([3], [0, 1, 2], [Attached(2, 0, 0)], 1);
    var p2 := Progress([], [0, 1, 2, 3], [Attached(2, 0, 0), Attached(3, 2, 0)], 2);
    ChainParts();
    ChainFirstPass();
    LoopPass(ChainCtx, MaxPasses, Progress([2, 3], [0, 1], [], 0), Progress([2, 3], [0, 1], [], 1), p1);
    ChainSecondPass();
    LoopPass(ChainCtx, MaxPasses - 1, p1, Progress([3], [0, 1, 2], [Attached(2, 0, 0)], 2), p2);
    assert Loop(ChainCtx, MaxPasses - 2, p2) == Ok(p2);
  }

  /** One pass of the loop: the scan from the back, with the pass counted. */
  lemma LoopPass(ctx: Ctx, budget: nat, st: Progress, started: Progress, s: Progress)
    requires CtxOk(ctx) && PendingOk(ctx, st.pending) && |st.pending| > 0 && budget > 0
    requires started == Progress(st.pending, st.valid, st.log, st.passes + 1)
    requires Scan(ctx, |st.pending| - 1, started) == Ok(s)
    ensures PendingOk(ctx, s.pending)
    ensures Loop(ctx, budget, st) == Loop(ctx, budget - 1, s)
  {
    assert st.(passes := st.passes + 1) == started;
  }

  /** The first pass scans the sight, which has no parent yet, then mounts the rail. */
  lemma ChainFirstPass()
    ensures Scan(ChainCtx, 1, Progress([2, 3], [0, 1], [], 1)) == Ok(Progress([3], [0, 1, 2], [Attached(2, 0, 0)], 1))
  {
    var ctx := ChainCtx;
    var p0 := Progress([2, 3], [0, 1], [], 1);
    var p1 := Progress([3], [0, 1, 2], [Attached(2, 0, 0)], 1);
    ChainParts();
    ScanSkips(ctx, 1, p0);
    assert p0.pending[..0] + p0.pending[1..] == [3];
    ScanMounts(ctx, 0, p0, Attached(2, 0, 0), p1);
    assert Scan(ctx, -1, p1) == Ok(p1);
  }

  /** The second pass mounts the sight on the rail. */
  lemma ChainSecondPass()
    ensures Scan(ChainCtx, 0, Progress([3], [0, 1, 2], [Attached(2, 0, 0)], 2))
         == Ok(Progress([], [0, 1, 2, 3], [Attached(2, 0, 0), Attached(3, 2, 0)], 2))
  {
    var ctx := ChainCtx;
    var p1 := Progress([3], [0, 1, 2], [Attached(2, 0, 0)], 2);
    var p2 := Progress([], [0, 1, 2, 3], [Attached(2, 0, 0), Attached(3, 2, 0)], 2);
    ChainParts();
    assert p1.pending[..0] + p1.pending[1..] == [];
    ScanMounts(ctx, 0, p1, Attached(3, 2, 0), p2);
    assert Scan(ctx, -1, p2) == Ok(p2);
  }

  /** The same gun with the sight listed before the rail: one pass suffices. */
  const Reversed: Job := Job([Part(0, -1, RootBucket), Part(1, 2, AttachmentBucket), Part(2, 0, AttachmentBucket)],
                             [Receiver, Rail, Rail], [], None)

  lemma ReversedTakesOnePass()
    ensures SpawnSpec(Reversed, Some([]), Some([])) ==
      Ok(Spawned(0, OtherControl, [], false, [], [NoFlags, NoFlags, NoFlags], [Attached(2, 0, 0), Attached(1, 2, 0)], [], 1, Some([]), Some([])))
  {
    ReversedInstantiates();
    ReversedAttaches();
  }

  /** What the instantiation loop stages for the reversed gun. */
  const ReversedStaged: Staged :=
    Staged(Some(0), Some(OtherControl), [0], map[0 := 0, 1 := 1, 2 := 2], [1, 2], [], [], [NoFlags, NoFlags, NoFlags])

  lemma ReversedInstantiates()
    ensures Place(Reversed, 0, Fresh) == Ok(ReversedStaged)
  {
    var s1 := Staged(Some(0), Some(OtherControl), [0], map[0 := 0], [], [], [], [NoFlags]);
    var s2 := s1.(byIndex := map[0 := 0, 1 := 1], attachments := [1], configured := [NoFlags, NoFlags]);
    var st := ReversedStaged;
    SameStaged(Step(Reversed, 0, Fresh), s1);
    SameStaged(Step(Reversed, 1, s1), s2);
    SameStaged(Step(Reversed, 2, s2), st);
    assert Place(Reversed, 2, s2) == Ok(st);
    assert Place(Reversed, 1, s1) == Ok(st);
  }

  const ReversedCtx: Ctx := Ctx(Reversed.comps, Reversed.prefabs, ReversedStaged.byIndex)

  /** The two attachments of the reversed gun and how they mount. */
  lemma ReversedParts()
    ensures CtxOk(ReversedCtx)
    ensures ReversedCtx.comps[1] == Part(1, 2, AttachmentBucket) && ReversedCtx.comps[2] == Part(2, 0, AttachmentBucket)
    ensures Mount(ReversedCtx, 2) == Ok(Attached(2, 0, 0)) && Mount(ReversedCtx, 1) == Ok(Attached(1, 2, 0))
  {
  }

  /** The one pass mounts the rail, then, further down the same scan, the sight on it. */
  lemma ReversedPass()
    ensures Scan(ReversedCtx, 1, Progress([1, 2], [0], [], 1))
         == Ok(Progress([], [0, 2, 1], [Attached(2, 0, 0), Attached(1, 2, 0)], 1))
  {
    var ctx := ReversedCtx;
    var p0 := Progress([1, 2], [0], [], 1);
    var p1 := Progress([1], [0, 2], [Attached(2, 0, 0)], 1);
    var p2 := Progress([], [0, 2, 1], [Attached(2, 0, 0), Attached(1, 2, 0)], 1);
    ReversedParts();
    assert p0.pending[..1] + p0.pending[2..] == [1];
    ScanMounts(ctx, 1, p0, Attached(2, 0, 0), p1);
    assert p1.pending[..0] + p1.pending[1..] == [];
    ScanMounts(ctx, 0, p1, Attached(1, 2, 0), p2);
    assert Scan(ctx, -1, p2) == Ok(p2);
  }

  /** After that pass nothing is pending and the loop stops. */
  lemma ReversedAttaches()
    ensures ResolveSpec(ReversedCtx, [1, 2], [0])
         == Ok(Progress([], [0, 2, 1], [Attached(2, 0, 0), Attached(1, 2, 0)], 1))
  {
    var p2 := Progress([], [0, 2, 1], [Attached(2, 0, 0), Attached(1, 2, 0)], 1);
    ReversedParts();
    ReversedPass();
    LoopPass(ReversedCtx, MaxPasses, Progress([1, 2], [0], [], 0), Progress([1, 2], [0], [], 1), p2);
    assert Loop(ReversedCtx, MaxPasses - 1, p2) == Ok(p2);
  }

  /** A scan over parts none of which has a valid parent changes nothing. */
  lemma {:induction false} ScanIdle(ctx: Ctx, k: int, st: Progress)
    requires CtxOk(ctx) && PendingOk(ctx, st.pending) && -1 <= k < |st.pending|
    requires forall p :: p in st.pending ==> ctx.comps[p].ObjectAttachedTo !in st.valid
    ensures Scan(ctx, k, st) == Ok(st)
    decreases k + 1
  {
    if k >= 0 {
      assert st.pending[k] in st.pending;
      ScanIdle(ctx, k - 1, st);
    }
  }

  /** With no part ever eligible, the loop runs its whole budget and attaches nothing. */
  lemma {:induction false} LoopIdle(ctx: Ctx, budget: nat, st: Progress)
    requires CtxOk(ctx) && PendingOk(ctx, st.pending) && |st.pending| > 0
    requires forall p :: p in st.pending ==> ctx.comps[p].ObjectAttachedTo !in st.valid
    ensures Loop(ctx, budget, st) == Ok(st.(passes := st.passes + budget))
    decreases budget
  {
    if budget > 0 {
      var started := Progress(st.pending, st.valid, st.log, st.passes + 1);
      ScanIdle(ctx, |st.pending| - 1, started);
      LoopPass(ctx, budget, st, started, started);
      LoopIdle(ctx, budget - 1, started);
      assert started.(passes := started.passes + (budget - 1)) == st.(passes := st.passes + budget);
    }
  }

  /** Two attachments naming each other (a cycle), another naming no component, one naming -1. */
  const Orphans: Job := Job([Part(0, -1, RootBucket), Part(1, 2, AttachmentBucket), Part(2, 1, AttachmentBucket),
                             Part(3, 7, AttachmentBucket), Part(4, -1, AttachmentBucket)],
                            [Receiver, Rail, Rail, Rail, Rail], [], None)

  /** What the instantiation loop stages for the orphaned attachments. */
  const OrphansStaged: Staged :=
    Staged(Some(0), Some(OtherControl), [0], map[0 := 0, 1 := 1, 2 := 2, 3 := 3, 4 := 4], [1, 2, 3, 4], [], [],
           [NoFlags, NoFlags, NoFlags, NoFlags, NoFlags])

  lemma OrphansInstantiate()
    ensures Place(Orphans, 0, Fresh) == Ok(OrphansStaged)
  {
    var s1 := Staged(Some(0), Some(OtherControl), [0], map[0 := 0], [], [], [], [NoFlags]);
    var s2 := s1.(byIndex := map[0 := 0, 1 := 1], attachments := [1], configured := [NoFlags, NoFlags]);
    var s3 := s2.(byIndex := map[0 := 0, 1 := 1, 2 := 2], attachments := [1, 2], configured := [NoFlags, NoFlags, NoFlags]);
    var s4 := s3.(byIndex := map[0 := 0, 1 := 1, 2 := 2, 3 := 3], attachments := [1, 2, 3], configured := [NoFlags, NoFlags, NoFlags, NoFlags]);
    var st := OrphansStaged;
    SameStaged(Step(Orphans, 0, Fresh), s1);
    SameStaged(Step(Orphans, 1, s1), s2);
    SameStaged(Step(Orphans, 2, s2), s3);
    SameStaged(Step(Orphans, 3, s3), s4);
    SameStaged(Step(Orphans, 4, s4), st);
    assert Place(Orphans, 4, s4) == Ok(st);
    assert Place(Orphans, 3, s3) == Ok(st);
    assert Place(Orphans, 2, s2) == Ok(st);
    assert Place(Orphans, 1, s1) == Ok(st);
    assert Place(Orphans, 0, Fresh) == Ok(st);
  }

  /** None of them is ever eligible: the loop spends all 200 passes and the spawn still completes. */
  lemma OrphansStayUnattached()
    ensures SpawnSpec(Orphans, Some([]), Some([])) ==
      Ok(Spawned(0, OtherControl, [], false, [], [NoFlags, NoFlags, NoFlags, NoFlags, NoFlags], [], [1, 2, 3, 4], MaxPasses, Some([]), Some([])))
  {
    OrphansInstantiate();
    var st := OrphansStaged;
    var ctx := Ctx(Orphans.comps, Orphans.prefabs, st.byIndex);
    var init := Progress([1, 2, 3, 4], [0], [], 0);
    LoopIdle(ctx, MaxPasses, init);
  }

  /** A tray item (a clip here) has no Index in `validIndexes`, so nothing can be mounted on it. */
  const OnTray: Job := Job([Part(0, -1, RootBucket), Part(1, -1, TrayBucket), Part(2, 1, AttachmentBucket)],
                           [Receiver, Prefab(ClipPart, 1, false), Rail], [5, 6], None)

  /** What the instantiation loop stages for the tray job: the clip goes to the tray list, not `validIndexes`. */
  const OnTrayStaged: Staged :=
    Staged(Some(0), Some(OtherControl), [0], map[0 := 0, 1 := 1, 2 := 2], [2], [TrayItem(1, ClipRefill)], [],
           [NoFlags, NoFlags, NoFlags])

  lemma OnTrayInstantiate()
    ensures Place(OnTray, 0, Fresh) == Ok(OnTrayStaged)
  {
    var s1 := Staged(Some(0), Some(OtherControl), [0], map[0 := 0], [], [], [], [NoFlags]);
    var s2 := s1.(byIndex := map[0 := 0, 1 := 1], trays := [TrayItem(1, ClipRefill)], configured := [NoFlags, NoFlags]);
    var st := OnTrayStaged;
    SameStaged(Step(OnTray, 0, Fresh), s1);
    SameStaged(Step(OnTray, 1, s1), s2);
    SameStaged(Step(OnTray, 2, s2), st);
    assert Place(OnTray, 2, s2) == Ok(st);
    assert Place(OnTray, 1, s1) == Ok(st);
    assert Place(OnTray, 0, Fresh) == Ok(st);
  }

  lemma TrayParentNeverValid()
    ensures SpawnSpec(OnTray, Some([]), Some([])) ==
      Ok(Spawned(0, OtherControl, [], false, [TrayItem(1, ClipRefill)], [NoFlags, NoFlags, NoFlags], [], [2], MaxPasses, Some([]), Some([])))
  {
    OnTrayInstantiate();
    var st := OnTrayStaged;
    var ctx := Ctx(OnTray.comps, OnTray.prefabs, st.byIndex);
    LoopIdle(ctx, MaxPasses, Progress([2], [0], [], 0));
    assert ResolveSpec(ctx, st.attachments, st.valid) == Ok(Progress([2], [0], [], MaxPasses));
    assert !BaseHasMagazine(OnTray, st, 0);
  }

  /** A magazine listed before the root has no base gun to be loaded into. */
  const MagFirst: Job := Job([Part(0, -1, MagazineBucket), Part(1, -1, RootBucket)], [Mag, Receiver], [], None)

  lemma MagazineFirstThrows()
    ensures SpawnSpec(MagFirst, Some([]), Some([])) == Err(Failure(NoBaseGunForMagazine(0), 1))
  {
  }
}
