/**
 * `VaultUtils` of the current revision: spawning a `SavedGunSerializable` (with
 * its fire-control settings applied to the root), the two catalog checks, and
 * `GetMount`. `CreateVaultFile` is `VaultCapture.CreateVaultFile`.
 */
module VaultUtils {
  import opened Wrappers
  import opened Host
  import opened SavedGunModel
  import Firearm
  import FireSelector
  import opened VaultSpawn
  import VaultApi
  import VaultPlaceProofs
  import SerializableVault

  /**
   * `SpawnVaultedGun(savedGun)` on the file's fields: the components are looked up
   * with no catalog check, so the first missing id throws before anything is
   * instantiated; then the shared spawn routine runs with the file's settings.
   */
  function SpawnVaultedGunSpec(st: SerializableVault.VaultFileState, catalog: Catalog): Result<Spawned, Failure>
  {
    var gun := SerializableVault.SavedGunOf(st);
    match VaultApi.Lookups(gun.Components, |gun.Components|, catalog)
    case Err(id) => Err(Failure(MissingCatalogEntry(id), 0))
    case Ok(prefabs) => SpawnSpec(VaultApi.JobOf(gun, prefabs, Some(st.settings)), gun.LoadedRoundsInChambers, gun.SavedFlags)
  }

  /** `VaultUtils.SpawnVaultedGun`, after its asset loads have completed. */
  method SpawnVaultedGun(savedGun: SerializableVault.SavedGunSerializable, catalog: Catalog) returns (r: Result<Spawned, Failure>)
    ensures r == SpawnVaultedGunSpec(savedGun.State(), catalog)
  {
    var gun := savedGun.GetSavedGun();
    var prefabs := VaultApi.RequestLoads(gun.Components, catalog);
    if prefabs.Err? {
      return Err(Failure(MissingCatalogEntry(prefabs.error), 0));
    }
    r := Spawn(VaultApi.JobOf(gun, prefabs.value, Some(savedGun.Settings())), gun.LoadedRoundsInChambers, gun.SavedFlags);
  }

  /** `AllComponentsLoaded(SavedGun)`: the early-exit scan over the components. */
  method AllComponentsLoaded(savedGun: SavedGun, catalog: Catalog) returns (b: bool)
    ensures b == Firearm.AllComponentsLoaded(savedGun.Components, catalog)
  {
    var cs := savedGun.Components;
    for i := 0 to |cs|
      invariant forall k :: 0 <= k < i ==> cs[k].ObjectID in catalog
    {
      if cs[i].ObjectID !in catalog {
        return false;
      }
    }
    return true;
  }

  /** Every serializable component's id is in the catalog. */
  predicate SerializableLoaded(cs: seq<SerializableVault.SavedGunComponentSerializable>, catalog: Catalog)
  {
    forall i :: 0 <= i < |cs| ==> cs[i].ObjectID in catalog
  }

  /** `AllComponentsLoaded(SavedGunSerializable)`: the same scan over the serializable components. */
  method AllComponentsLoadedSerializable(savedGun: SerializableVault.SavedGunSerializable, catalog: Catalog) returns (b: bool)
    ensures b == SerializableLoaded(savedGun.Components, catalog)
  {
    var cs := savedGun.Components;
    for i := 0 to |cs|
      invariant forall k :: 0 <= k < i ==> cs[k].ObjectID in catalog
    {
      if cs[i].ObjectID !in catalog {
        return false;
      }
    }
    return true;
  }

  /** The two checks agree: a file passes exactly when the vault file it gives back passes. */
  lemma LoadedChecksAgree(st: SerializableVault.VaultFileState, catalog: Catalog)
    ensures SerializableLoaded(st.Components, catalog)
            <==> Firearm.AllComponentsLoaded(SerializableVault.SavedGunOf(st).Components, catalog)
  {
  }

  /** `GetMount(obj, index)`: the mount at `index` of the object's mount list, or an out-of-range exception. */
  function GetMount(pf: Prefab, index: int): (r: Option<nat>)
    ensures r.Some? <==> 0 <= index < pf.mountCount
    ensures r.Some? ==> r.value == index
  {
    if 0 <= index < pf.mountCount then Some(index) else None
  }

  /** The attach loop's mount lookup fails on the mount index exactly when `GetMount` does. */
  lemma MountUsesGetMount(ctx: Ctx, p: nat)
    requires CtxOk(ctx) && p < |ctx.comps| && ctx.comps[p].ObjectAttachedTo in ctx.byIndex
    ensures var c := ctx.comps[p];
            var parent := ctx.prefabs[ctx.byIndex[c.ObjectAttachedTo]];
            (Mount(ctx, p) == Err(MountOutOfRange(c.ObjectAttachedTo, c.MountAttachedTo)) <==> GetMount(parent, c.MountAttachedTo).None?)
            && (Mount(ctx, p).Ok? ==> Some(Mount(ctx, p).value.mount) == GetMount(parent, c.MountAttachedTo))
  {
  }

  /** A file with a component the catalog lacks throws at the first such id, before anything is instantiated. */
  lemma MissingComponentThrowsFirst(st: SerializableVault.VaultFileState, catalog: Catalog, i: nat)
    requires i < |st.Components| && st.Components[i].ObjectID !in catalog
    ensures SpawnVaultedGunSpec(st, catalog).Err?
    ensures var f := SpawnVaultedGunSpec(st, catalog).error;
            f.instantiated == 0 && f.error.MissingCatalogEntry?
            && exists k :: 0 <= k <= i && f.error.id == st.Components[k].ObjectID && f.error.id !in catalog
  {
    var gun := SerializableVault.SavedGunOf(st);
    assert gun.Components[i].ObjectID !in catalog;
  }

  /**
   * A successful spawn applies the file's settings to the root: the base gun's
   * control is its prefab's control with the settings applied.
   */
  lemma SpawnAppliesSettings(st: SerializableVault.VaultFileState, catalog: Catalog)
    requires SpawnVaultedGunSpec(st, catalog).Ok?
    ensures var sp := SpawnVaultedGunSpec(st, catalog).value;
            var cs := SerializableVault.SavedGunOf(st).Components;
            sp.baseGun < |cs| && cs[sp.baseGun].isFirearm && cs[sp.baseGun].ObjectID in catalog
            && catalog[cs[sp.baseGun].ObjectID].prefab.kind.FirearmPart?
            && FireSelector.Apply(st.settings, catalog[cs[sp.baseGun].ObjectID].prefab.kind.control) == Ok(sp.control)
  {
    var gun := SerializableVault.SavedGunOf(st);
    var prefabs := VaultApi.Lookups(gun.Components, |gun.Components|, catalog).value;
    var job := VaultApi.JobOf(gun, prefabs, Some(st.settings));
    VaultPlaceProofs.SpawnCorrect(job, gun.LoadedRoundsInChambers, gun.SavedFlags, SpawnVaultedGunSpec(st, catalog).value);
  }

  /** Settings that change nothing: none at all, or both overrides off. */
  predicate Inert(settings: Option<FireSelector.FireSettings>)
  {
    settings.None? || (!settings.value.OverrideFireRate && !settings.value.OverrideFireSelectors)
  }

  /** Two jobs that differ at most in their settings, the second one having none. */
  predicate WithoutSettings(a: Job, b: Job)
  {
    a.comps == b.comps && a.prefabs == b.prefabs && a.rounds == b.rounds && b.settings.None?
  }

  /** One turn of the instantiation loop with inert settings is the turn without settings. */
  lemma StepWithInertSettings(a: Job, b: Job, j: nat, st: Staged)
    requires JobOk(a) && Inert(a.settings) && WithoutSettings(a, b) && j < |a.comps| && StagedOk(j, st)
    ensures Step(a, j, st) == Step(b, j, st)
  {
  }

  /** The instantiation loop with inert settings is the loop without settings. */
  lemma {:induction false} PlaceWithInertSettings(a: Job, b: Job, j: nat, st: Staged)
    requires JobOk(a) && Inert(a.settings) && WithoutSettings(a, b) && j <= |a.comps| && StagedOk(j, st)
    ensures Place(a, j, st) == Place(b, j, st)
    decreases |a.comps| - j
  {
    if j < |a.comps| {
      StepWithInertSettings(a, b, j, st);
      var s := Step(a, j, st);
      if s.Ok? {
        PlaceWithInertSettings(a, b, j + 1, s.value);
      }
    }
  }

  /**
   * With both overrides off and every component in the catalog, spawning the file
   * does what `VaultAPI` does with the vault file it gives back.
   */
  lemma SpawnsAgree(st: SerializableVault.VaultFileState, catalog: Catalog)
    requires !st.settings.OverrideFireRate && !st.settings.OverrideFireSelectors
    requires Firearm.AllComponentsLoaded(SerializableVault.SavedGunOf(st).Components, catalog)
    ensures SpawnVaultedGunSpec(st, catalog) == VaultApi.SpawnGunSpec(SerializableVault.SavedGunOf(st), catalog)
  {
    var gun := SerializableVault.SavedGunOf(st);
    var prefabs := VaultApi.Lookups(gun.Components, |gun.Components|, catalog).value;
    var a := VaultApi.JobOf(gun, prefabs, Some(st.settings));
    PlaceWithInertSettings(a, VaultApi.JobOf(gun, prefabs, None), 0, Fresh);
  }
}
