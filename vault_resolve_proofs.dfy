/**
 * What the bounded attach loop guarantees: it stops after at most 200 passes,
 * every attachment is mounted at most once and only after its parent became
 * valid, an attachment at chain depth d below a seed is mounted by pass d, and
 * one with no chain to a seed stays unattached.
 */
module VaultResolveProofs {
  import opened Wrappers
  import opened Host
  import opened SavedGunModel
  import opened VaultSpawn

  /** The attached positions, in attach order. */
  function Parts(log: seq<Attached>): (ps: seq<nat>)
    ensures |ps| == |log| && forall t :: 0 <= t < |log| ==> ps[t] == log[t].part
  {
    if log == [] then [] else [log[0].part] + Parts(log[1..])
  }

  predicate LogInRange(ctx: Ctx, log: seq<Attached>)
  {
    forall t :: 0 <= t < |log| ==> log[t].part < |ctx.comps|
  }

  /** The Index values the attached parts add to `validIndexes`, in attach order. */
  function Indexes(ctx: Ctx, log: seq<Attached>): (ix: seq<int>)
    requires LogInRange(ctx, log)
    ensures |ix| == |log| && forall t :: 0 <= t < |log| ==> ix[t] == ctx.comps[log[t].part].Index
  {
    if log == [] then [] else [ctx.comps[log[0].part].Index] + Indexes(ctx, log[1..])
  }

  /** No element occurs twice. */
  ghost predicate NoDup(s: seq<nat>)
  {
    forall x :: multiset(s)[x] <= 1
  }

  /** Every logged part went through the mount lookup, which produced exactly that entry. */
  predicate LogMounted(ctx: Ctx, log: seq<Attached>)
    requires CtxOk(ctx) && LogInRange(ctx, log)
  {
    forall t :: 0 <= t < |log| ==> Mount(ctx, log[t].part) == Ok(log[t])
  }

  /** Every logged part's parent was a seed or the Index of a part logged before it. */
  predicate Supported(ctx: Ctx, seeds: seq<int>, log: seq<Attached>)
    requires LogInRange(ctx, log)
  {
    forall t :: 0 <= t < |log| ==> EarlierParent(ctx, seeds, log, t)
  }

  /** The parent of the t-th logged part is a seed or the Index of a part logged before it. */
  predicate EarlierParent(ctx: Ctx, seeds: seq<int>, log: seq<Attached>, t: nat)
    requires LogInRange(ctx, log) && t < |log|
  {
    var v := ctx.comps[log[t].part].ObjectAttachedTo;
    v in seeds || exists s :: 0 <= s < t && ctx.comps[log[s].part].Index == v
  }

  /**
   * The attach loop's invariant relative to its start (`p0` pending, `seeds` valid):
   * every position is pending or attached, exactly as often as at the start; the
   * valid list is the seeds followed by the attached Indexes; and each part was
   * mounted through the mount lookup once its parent was valid.
   */
  ghost predicate Wf(ctx: Ctx, p0: seq<nat>, seeds: seq<int>, st: Progress)
  {
    CtxOk(ctx)
    && PendingOk(ctx, st.pending)
    && PendingOk(ctx, p0)
    && LogInRange(ctx, st.log)
    && multiset(st.pending) + multiset(Parts(st.log)) == multiset(p0)
    && st.valid == seeds + Indexes(ctx, st.log)
    && LogMounted(ctx, st.log)
    && Supported(ctx, seeds, st.log)
  }

  lemma WfInit(ctx: Ctx, p0: seq<nat>, seeds: seq<int>)
    requires CtxOk(ctx) && PendingOk(ctx, p0)
    ensures Wf(ctx, p0, seeds, Progress(p0, seeds, [], 0))
  {
    assert Parts([]) == [];
    assert Indexes(ctx, []) == [];
  }

  lemma SupportedSnoc(ctx: Ctx, seeds: seq<int>, log: seq<Attached>, a: Attached)
    requires LogInRange(ctx, log) && Supported(ctx, seeds, log) && a.part < |ctx.comps|
    requires ctx.comps[a.part].ObjectAttachedTo in seeds + Indexes(ctx, log)
    ensures LogInRange(ctx, log + [a]) && Supported(ctx, seeds, log + [a])
  {
    var log' := log + [a];
    assert LogInRange(ctx, log');
    forall t | 0 <= t < |log'| ensures EarlierParent(ctx, seeds, log', t) {
      if t < |log| {
        assert EarlierParent(ctx, seeds, log, t);
        assert forall s :: 0 <= s < t ==> log'[s] == log[s];
      } else {
        var v := ctx.comps[a.part].ObjectAttachedTo;
        if v !in seeds {
          var s :| 0 <= s < |log| && Indexes(ctx, log)[s] == v;
          assert log'[s] == log[s];
        }
      }
    }
  }

  lemma LogMountedSnoc(ctx: Ctx, log: seq<Attached>, a: Attached)
    requires CtxOk(ctx) && LogInRange(ctx, log) && LogMounted(ctx, log)
    requires a.part < |ctx.comps| && Mount(ctx, a.part) == Ok(a)
    ensures LogInRange(ctx, log + [a]) && LogMounted(ctx, log + [a])
  {
    var log' := log + [a];
    assert LogInRange(ctx, log');
    forall t | 0 <= t < |log'| ensures Mount(ctx, log'[t].part) == Ok(log'[t]) {
      if t < |log| { assert log'[t] == log[t]; }
    }
  }

  lemma PartsSnoc(log: seq<Attached>, a: Attached)
    ensures Parts(log + [a]) == Parts(log) + [a.part]
  {
    assert Parts(log + [a]) == Parts(log) + [a.part];
  }

  lemma IndexesSnoc(ctx: Ctx, log: seq<Attached>, a: Attached)
    requires LogInRange(ctx, log) && a.part < |ctx.comps|
    ensures LogInRange(ctx, log + [a])
    ensures Indexes(ctx, log + [a]) == Indexes(ctx, log) + [ctx.comps[a.part].Index]
  {
    var log' := log + [a];
    assert LogInRange(ctx, log');
    assert Indexes(ctx, log') == Indexes(ctx, log) + [ctx.comps[a.part].Index];
  }

  /** Moving `pending[k]` from the pending list to the attached list keeps the same parts. */
  lemma AccountStep(p0: seq<nat>, pending: seq<nat>, attached: seq<nat>, k: nat)
    requires k < |pending| && multiset(pending) + multiset(attached) == multiset(p0)
    ensures multiset(pending[..k] + pending[k + 1..]) + multiset(attached + [pending[k]]) == multiset(p0)
  {
    assert pending == pending[..k] + [pending[k]] + pending[k + 1..];
  }

  lemma ValidStep(valid: seq<int>, seeds: seq<int>, ix: seq<int>, v: int)
    requires valid == seeds + ix
    ensures valid + [v] == seeds + (ix + [v])
  {
  }

  /** Mounting one more part keeps the invariant. */
  lemma WfStep(ctx: Ctx, p0: seq<nat>, seeds: seq<int>, st: Progress, k: nat, a: Attached)
    requires Wf(ctx, p0, seeds, st) && k < |st.pending| && st.pending[k] in st.pending
    requires ctx.comps[st.pending[k]].ObjectAttachedTo in st.valid
    requires Mount(ctx, st.pending[k]) == Ok(a)
    ensures PendingOk(ctx, st.pending[..k] + st.pending[k + 1..])
    ensures Wf(ctx, p0, seeds, Progress(st.pending[..k] + st.pending[k + 1..],
                                        st.valid + [ctx.comps[st.pending[k]].Index], st.log + [a], st.passes))
  {
    RemoveAtShrinks(ctx, st.pending, k);
    SupportedSnoc(ctx, seeds, st.log, a);
    LogMountedSnoc(ctx, st.log, a);
    PartsSnoc(st.log, a);
    IndexesSnoc(ctx, st.log, a);
    AccountStep(p0, st.pending, Parts(st.log), k);
    ValidStep(st.valid, seeds, Indexes(ctx, st.log), ctx.comps[st.pending[k]].Index);
  }

  /** A scan keeps the invariant and only extends the attach log. */
  lemma {:induction false} ScanWf(ctx: Ctx, p0: seq<nat>, seeds: seq<int>, k: int, st: Progress, r: Progress)
    requires Wf(ctx, p0, seeds, st) && -1 <= k < |st.pending|
    requires Scan(ctx, k, st) == Ok(r)
    ensures Wf(ctx, p0, seeds, r) && |st.log| <= |r.log| && r.log[..|st.log|] == st.log
    decreases k + 1
  {
    if k >= 0 {
      var p := st.pending[k];
      assert p in st.pending;
      if ctx.comps[p].ObjectAttachedTo in st.valid {
        var a := Mount(ctx, p).value;
        WfStep(ctx, p0, seeds, st, k, a);
        var st1 := Progress(st.pending[..k] + st.pending[k + 1..], st.valid + [ctx.comps[p].Index], st.log + [a], st.passes);
        ScanWf(ctx, p0, seeds, k - 1, st1, r);
        assert r.log[..|st.log|] == r.log[..|st1.log|][..|st.log|];
      } else {
        ScanWf(ctx, p0, seeds, k - 1, st, r);
      }
    }
  }

  /** The whole loop keeps the invariant. */
  lemma {:induction false} LoopWf(ctx: Ctx, p0: seq<nat>, seeds: seq<int>, budget: nat, st: Progress, r: Progress)
    requires Wf(ctx, p0, seeds, st)
    requires Loop(ctx, budget, st) == Ok(r)
    ensures Wf(ctx, p0, seeds, r)
    decreases budget
  {
    if |st.pending| > 0 && budget > 0 {
      var st' := st.(passes := st.passes + 1);
      var s := Scan(ctx, |st.pending| - 1, st').value;
      ScanWf(ctx, p0, seeds, |st.pending| - 1, st', s);
      LoopWf(ctx, p0, seeds, budget - 1, s, r);
    }
  }

  /** A sub-multiset of a duplicate-free sequence is duplicate-free. */
  lemma NoDupSub(a: seq<nat>, b: seq<nat>)
    requires multiset(a) <= multiset(b) && NoDup(b)
    ensures NoDup(a)
  {
    forall x ensures multiset(a)[x] <= 1 {
      assert multiset(a)[x] <= multiset(b)[x];
    }
  }

  /** A part whose parent is not valid yet is passed over. */
  lemma ScanSkips(ctx: Ctx, k: nat, st: Progress)
    requires CtxOk(ctx) && PendingOk(ctx, st.pending) && k < |st.pending|
    requires st.pending[k] in st.pending && ctx.comps[st.pending[k]].ObjectAttachedTo !in st.valid
    ensures Scan(ctx, k, st) == Scan(ctx, k - 1, st)
  {
  }

  /** A part whose parent is valid and that mounts leaves the pending list, its Index becoming valid. */
  lemma ScanMounts(ctx: Ctx, k: nat, st: Progress, a: Attached, next: Progress)
    requires CtxOk(ctx) && PendingOk(ctx, st.pending) && k < |st.pending|
    requires st.pending[k] in st.pending && ctx.comps[st.pending[k]].ObjectAttachedTo in st.valid
    requires Mount(ctx, st.pending[k]) == Ok(a)
    requires next.pending == st.pending[..k] + st.pending[k + 1..] && next.valid == st.valid + [ctx.comps[st.pending[k]].Index]
    requires next.log == st.log + [a] && next.passes == st.passes
    ensures PendingOk(ctx, next.pending)
    ensures Scan(ctx, k, st) == Scan(ctx, k - 1, next)
  {
    RemoveAtShrinks(ctx, st.pending, k);
  }

  /**
   * During a scan, a pending part among positions `0..k` whose parent is already
   * valid when the scan reaches it is mounted and leaves the pending list.
   */
  lemma {:induction false} ScanRemovesEligible(ctx: Ctx, k: int, st: Progress, r: Progress, x: nat)
    requires CtxOk(ctx) && PendingOk(ctx, st.pending) && NoDup(st.pending) && -1 <= k < |st.pending|
    requires Scan(ctx, k, st) == Ok(r)
    requires x in st.pending[..k + 1] && x < |ctx.comps| && ctx.comps[x].ObjectAttachedTo in st.valid
    ensures x !in r.pending
    decreases k + 1
  {
    var p := st.pending[k];
    assert p in st.pending;
    assert st.pending[..k + 1] == st.pending[..k] + [p];
    if ctx.comps[p].ObjectAttachedTo !in st.valid {
      assert x != p && x in st.pending[..k];
      ScanRemovesEligible(ctx, k - 1, st, r, x);
    } else {
      var a := Mount(ctx, p).value;
      var rest := st.pending[..k] + st.pending[k + 1..];
      var st1 := Progress(rest, st.valid + [ctx.comps[p].Index], st.log + [a], st.passes);
      ScanMounts(ctx, k, st, a, st1);
      RemoveAtShrinks(ctx, st.pending, k);
      if x == p {
        MountedLeaves(ctx, k, st, st1, r);
      } else {
        NoDupSub(rest, st.pending);
        assert x in st.pending[..k];
        assert rest[..k] == st.pending[..k];
        ScanRemovesEligible(ctx, k - 1, st1, r, x);
      }
    }
  }

  /** The part taken out of a list without duplicates does not come back in the rest of the scan. */
  lemma MountedLeaves(ctx: Ctx, k: nat, st: Progress, st1: Progress, r: Progress)
    requires CtxOk(ctx) && NoDup(st.pending) && k < |st.pending|
    requires st1.pending == st.pending[..k] + st.pending[k + 1..] && PendingOk(ctx, st1.pending)
    requires multiset(st1.pending) + multiset{st.pending[k]} == multiset(st.pending)
    requires Scan(ctx, k - 1, st1) == Ok(r)
    ensures st.pending[k] !in r.pending
  {
    var x := st.pending[k];
    assert multiset(st.pending)[x] <= 1;
    assert multiset(st1.pending)[x] == 0;
    assert multiset(r.pending) <= multiset(st1.pending);
  }

  /**
   * `x` hangs below a seed by a parent chain of at most `d` links: its parent is a
   * seed, or the Index of an attachment that hangs below a seed by `d - 1` links.
   */
  ghost predicate Within(ctx: Ctx, seeds: seq<int>, p0: seq<nat>, x: nat, d: nat)
    requires x < |ctx.comps| && PendingOk(ctx, p0)
    decreases d
  {
    d > 0 &&
    (ctx.comps[x].ObjectAttachedTo in seeds
     || exists y :: y in p0 && ctx.comps[y].Index == ctx.comps[x].ObjectAttachedTo && Within(ctx, seeds, p0, y, d - 1))
  }

  lemma {:induction false} WithinMono(ctx: Ctx, seeds: seq<int>, p0: seq<nat>, x: nat, d: nat, e: nat)
    requires x < |ctx.comps| && PendingOk(ctx, p0)
    requires Within(ctx, seeds, p0, x, d) && d <= e
    ensures Within(ctx, seeds, p0, x, e)
    decreases d
  {
    if ctx.comps[x].ObjectAttachedTo !in seeds {
      var y :| y in p0 && ctx.comps[y].Index == ctx.comps[x].ObjectAttachedTo && Within(ctx, seeds, p0, y, d - 1);
      WithinMono(ctx, seeds, p0, y, d - 1, e - 1);
    }
  }

  /** Once every part of depth `n` has left the pending list, a pass removes every part of depth `n + 1`. */
  lemma PassDeepens(ctx: Ctx, p0: seq<nat>, seeds: seq<int>, st: Progress, s: Progress)
    requires Wf(ctx, p0, seeds, st) && NoDup(p0) && |st.pending| > 0
    requires Scan(ctx, |st.pending| - 1, st.(passes := st.passes + 1)) == Ok(s)
    requires forall x :: x in p0 && Within(ctx, seeds, p0, x, st.passes) ==> x !in st.pending
    ensures forall x :: x in p0 && Within(ctx, seeds, p0, x, st.passes + 1) ==> x !in s.pending
  {
    var st' := st.(passes := st.passes + 1);
    NoDupSub(st.pending, p0);
    forall x | x in p0 && Within(ctx, seeds, p0, x, st.passes + 1)
      ensures x !in s.pending
    {
      if x in st.pending {
        var v := ctx.comps[x].ObjectAttachedTo;
        if v !in seeds {
          var y :| y in p0 && ctx.comps[y].Index == v && Within(ctx, seeds, p0, y, st.passes);
          assert y !in st.pending;
          assert y in multiset(p0);
          assert y in multiset(Parts(st.log));
          var t :| 0 <= t < |st.log| && Parts(st.log)[t] == y;
          assert Indexes(ctx, st.log)[t] == v;
        }
        assert v in st.valid;
        assert st.pending[..|st.pending|] == st.pending;
        ScanRemovesEligible(ctx, |st.pending| - 1, st', s, x);
      } else {
        assert multiset(s.pending)[x] <= multiset(st.pending)[x];
      }
    }
  }

  /** After the loop, no part of depth at most the passes run is pending. */
  lemma {:induction false} LoopDepth(ctx: Ctx, p0: seq<nat>, seeds: seq<int>, budget: nat, st: Progress, r: Progress)
    requires Wf(ctx, p0, seeds, st) && NoDup(p0)
    requires Loop(ctx, budget, st) == Ok(r)
    requires forall x :: x in p0 && Within(ctx, seeds, p0, x, st.passes) ==> x !in st.pending
    ensures forall x :: x in p0 && Within(ctx, seeds, p0, x, r.passes) ==> x !in r.pending
    decreases budget
  {
    if |st.pending| > 0 && budget > 0 {
      var st' := st.(passes := st.passes + 1);
      var s := Scan(ctx, |st.pending| - 1, st').value;
      ScanWf(ctx, p0, seeds, |st.pending| - 1, st', s);
      PassDeepens(ctx, p0, seeds, st, s);
      LoopDepth(ctx, p0, seeds, budget - 1, s, r);
    }
  }

  /** The t-th attached part hangs below a seed by at most t + 1 links. */
  lemma {:induction false} LogDepth(ctx: Ctx, p0: seq<nat>, seeds: seq<int>, st: Progress, t: nat)
    requires Wf(ctx, p0, seeds, st) && t < |st.log|
    ensures Within(ctx, seeds, p0, st.log[t].part, t + 1)
    decreases t
  {
    var x := st.log[t].part;
    var v := ctx.comps[x].ObjectAttachedTo;
    assert EarlierParent(ctx, seeds, st.log, t);
    if v !in seeds {
      var s :| 0 <= s < t && ctx.comps[st.log[s].part].Index == v;
      var y := st.log[s].part;
      assert Parts(st.log)[s] == y;
      assert y in multiset(Parts(st.log));
      assert y in multiset(p0);
      LogDepth(ctx, p0, seeds, st, s);
      WithinMono(ctx, seeds, p0, y, s + 1, t);
    }
  }

  /** The attach loop from its start, up to its end. */
  lemma ResolveCorrect(ctx: Ctx, attachments: seq<nat>, seeds: seq<int>, r: Progress)
    requires CtxOk(ctx) && PendingOk(ctx, attachments) && NoDup(attachments)
    requires ResolveSpec(ctx, attachments, seeds) == Ok(r)
    ensures r.passes <= MaxPasses && (|r.pending| > 0 ==> r.passes == MaxPasses)
    ensures multiset(r.pending) + multiset(Parts(r.log)) == multiset(attachments)
    ensures NoDup(Parts(r.log)) && NoDup(r.pending)
    ensures LogInRange(ctx, r.log) && r.valid == seeds + Indexes(ctx, r.log)
    ensures LogMounted(ctx, r.log) && Supported(ctx, seeds, r.log)
    ensures forall x, d: nat :: x in attachments && Within(ctx, seeds, attachments, x, d) && d <= MaxPasses ==> x !in r.pending
    ensures forall t :: 0 <= t < |r.log| ==> Within(ctx, seeds, attachments, r.log[t].part, t + 1)
  {
    var init := Progress(attachments, seeds, [], 0);
    WfInit(ctx, attachments, seeds);
    LoopWf(ctx, attachments, seeds, MaxPasses, init, r);
    LoopDepth(ctx, attachments, seeds, MaxPasses, init, r);
    NoDupSub(Parts(r.log), attachments);
    NoDupSub(r.pending, attachments);
    forall x, d: nat | x in attachments && Within(ctx, seeds, attachments, x, d) && d <= MaxPasses
      ensures x !in r.pending
    {
      if |r.pending| > 0 {
        WithinMono(ctx, seeds, attachments, x, d, r.passes);
      }
    }
    forall t | 0 <= t < |r.log| ensures Within(ctx, seeds, attachments, r.log[t].part, t + 1) {
      LogDepth(ctx, attachments, seeds, r, t);
    }
  }

  /**
   * With at most 200 attachments, the loop leaves an attachment unattached exactly
   * when no parent chain leads from it to a seed: a dangling or -1 parent, a cycle,
   * or a parent that is a tray item.
   */
  lemma UnattachedIffNoChain(ctx: Ctx, attachments: seq<nat>, seeds: seq<int>, r: Progress, x: nat)
    requires CtxOk(ctx) && PendingOk(ctx, attachments) && NoDup(attachments) && |attachments| <= MaxPasses
    requires ResolveSpec(ctx, attachments, seeds) == Ok(r)
    requires x in attachments
    ensures x in r.pending <==> !Within(ctx, seeds, attachments, x, |attachments|)
  {
    ResolveCorrect(ctx, attachments, seeds, r);
    if !Within(ctx, seeds, attachments, x, |attachments|) {
      if x in Parts(r.log) {
        var t :| 0 <= t < |r.log| && Parts(r.log)[t] == x;
        assert |r.log| <= |attachments| by {
          assert |multiset(Parts(r.log))| <= |multiset(attachments)|;
        }
        WithinMono(ctx, seeds, attachments, x, t + 1, |attachments|);
      }
      assert x in multiset(attachments);
    }
  }

  /** The loop run for `a + b` passes is the loop run for `a` passes, then for `b` more. */
  lemma {:induction false} LoopSplit(ctx: Ctx, a: nat, b: nat, st: Progress)
    requires CtxOk(ctx) && PendingOk(ctx, st.pending)
    ensures Loop(ctx, a + b, st) == match Loop(ctx, a, st)
                                    case Err(e) => Err(e)
                                    case Ok(s) => Loop(ctx, b, s)
    decreases a
  {
    if a > 0 && |st.pending| > 0 {
      match Scan(ctx, |st.pending| - 1, st.(passes := st.passes + 1))
      case Err(e) =>
      case Ok(s) => LoopSplit(ctx, a - 1, b, s);
    }
  }

  /** After `d` passes (or fewer, if nothing is pending), every attachment of depth `d` is mounted. */
  lemma AttachedByPass(ctx: Ctx, attachments: seq<nat>, seeds: seq<int>, d: nat, s: Progress)
    requires CtxOk(ctx) && PendingOk(ctx, attachments) && NoDup(attachments)
    requires Loop(ctx, d, Progress(attachments, seeds, [], 0)) == Ok(s)
    ensures forall x :: x in attachments && Within(ctx, seeds, attachments, x, d) ==> x !in s.pending
  {
    var init := Progress(attachments, seeds, [], 0);
    WfInit(ctx, attachments, seeds);
    LoopDepth(ctx, attachments, seeds, d, init, s);
    forall x | x in attachments && Within(ctx, seeds, attachments, x, d) ensures x !in s.pending {
      if |s.pending| > 0 {
        assert s.passes == d;
      }
    }
  }
}
