/**
 * `VaultUtilites` of the earlier revision: the same spawn routine and catalog
 * checks over the earlier `SavedGunSerializable`. Its `AllComponentsLoaded(SavedGun)`
 * overload is the same scan as `VaultUtils.AllComponentsLoaded`, and its `GetMount`
 * is `VaultUtils.GetMount`.
 */
module VaultUtilites {
  import opened Wrappers
  import opened Host
  import opened SavedGunModel
  import opened VaultSpawn
  import VaultApi
  import VaultUtils
  import SerializableVault
  import LegacySerializableVault

  /** `SpawnVaultedGun(savedGun)` on the earlier file's fields. */
  function SpawnVaultedGunSpec(st: LegacySerializableVault.VaultFileState, catalog: Catalog): Result<Spawned, Failure>
  {
    var gun := LegacySerializableVault.SavedGunOf(st);
    match VaultApi.Lookups(gun.Components, |gun.Components|, catalog)
    case Err(id) => Err(Failure(MissingCatalogEntry(id), 0))
    case Ok(prefabs) => SpawnSpec(VaultApi.JobOf(gun, prefabs, Some(st.settings)), gun.LoadedRoundsInChambers, gun.SavedFlags)
  }

  /** `VaultUtilites.SpawnVaultedGun`, after its asset loads have completed. */
  method SpawnVaultedGun(savedGun: LegacySerializableVault.SavedGunSerializable, catalog: Catalog) returns (r: Result<Spawned, Failure>)
    ensures r == SpawnVaultedGunSpec(savedGun.State(), catalog)
  {
    var gun := savedGun.GetSavedGun();
    var prefabs := VaultApi.RequestLoads(gun.Components, catalog);
    if prefabs.Err? {
      return Err(Failure(MissingCatalogEntry(prefabs.error), 0));
    }
    r := Spawn(VaultApi.JobOf(gun, prefabs.value, Some(savedGun.Settings())), gun.LoadedRoundsInChambers, gun.SavedFlags);
  }

  /** Every earlier serializable component's id is in the catalog. */
  predicate SerializableLoaded(cs: seq<LegacySerializableVault.SavedGunComponentSerializable>, catalog: Catalog)
  {
    forall i :: 0 <= i < |cs| ==> cs[i].ObjectID in catalog
  }

  /** `AllComponentsLoaded(SavedGunSerializable)` over the earlier file. */
  method AllComponentsLoadedSerializable(savedGun: LegacySerializableVault.SavedGunSerializable, catalog: Catalog) returns (b: bool)
    ensures b == SerializableLoaded(savedGun.Components, catalog)
  {
    var cs := savedGun.Components;
    for i := 0 to |cs|
      invariant forall k :: 0 <= k < i ==> cs[k].ObjectID in catalog
    {
      if cs[i].ObjectID !in catalog {
        return false;
      }
    }
    return true;
  }

  /** The earlier spawn of a file is the current spawn of any file storing the same vault file and settings. */
  lemma SameSpawnAsCurrent(earlier: LegacySerializableVault.VaultFileState, current: SerializableVault.VaultFileState, catalog: Catalog)
    requires LegacySerializableVault.SavedGunOf(earlier) == SerializableVault.SavedGunOf(current)
    requires earlier.settings == current.settings
    ensures SpawnVaultedGunSpec(earlier, catalog) == VaultUtils.SpawnVaultedGunSpec(current, catalog)
  {
  }

  /**
   * A vault file serialised by the earlier revision spawns exactly as one
   * serialised by the current revision without a live firearm.
   */
  lemma SerializeThenSpawnAgrees(gun: SavedGun, catalog: Catalog)
    requires LegacySerializableVault.Serialize(gun, catalog).Ok?
    ensures SerializableVault.Serialize(gun, None, catalog).Ok?
    ensures SpawnVaultedGunSpec(LegacySerializableVault.Serialize(gun, catalog).value, catalog)
            == VaultUtils.SpawnVaultedGunSpec(SerializableVault.Serialize(gun, None, catalog).value, catalog)
  {
    LegacySerializableVault.AgreesWithCurrent(gun, catalog);
    SameSpawnAsCurrent(LegacySerializableVault.Serialize(gun, catalog).value, SerializableVault.Serialize(gun, None, catalog).value, catalog);
  }
}
