/**
 * `VaultAPI.SpawnGun_Internal`: the spawn routine over a plain `SavedGun`, guarded
 * by the catalog check and run without fire-control settings. The capture half,
 * `VaultAPI.SaveGun`, is `VaultCapture.SaveGun`.
 */
module VaultApi {
  import opened Wrappers
  import opened Host
  import opened SavedGunModel
  import Firearm
  import opened VaultSpawn
  import FireSelector
  import VaultPlaceProofs

  /**
   * The catalog lookups `IM.OD[c.ObjectID]` for every component, in order: the
   * prefabs, or the first id the catalog lacks.
   */
  function Lookups(cs: seq<SavedGunComponent>, n: nat, catalog: Catalog): (r: Result<seq<Prefab>, string>)
    requires n <= |cs|
    ensures r.Ok? <==> forall i :: 0 <= i < n ==> cs[i].ObjectID in catalog
    ensures r.Ok? ==> |r.value| == n && forall i :: 0 <= i < n ==> r.value[i] == catalog[cs[i].ObjectID].prefab
    ensures r.Err? ==> exists i :: 0 <= i < n && cs[i].ObjectID !in catalog && r.error == cs[i].ObjectID
                                   && forall j :: 0 <= j < i ==> cs[j].ObjectID in catalog
  {
    if n == 0 then Ok([])
    else
      match Lookups(cs, n - 1, catalog)
      case Err(id) => Err(id)
      case Ok(ps) =>
        if cs[n - 1].ObjectID in catalog then Ok(ps + [catalog[cs[n - 1].ObjectID].prefab])
        else Err(cs[n - 1].ObjectID)
  }

  /** Every lookup succeeds exactly when the catalog check passes. */
  lemma LookupsIffLoaded(cs: seq<SavedGunComponent>, catalog: Catalog)
    ensures Lookups(cs, |cs|, catalog).Ok? <==> Firearm.AllComponentsLoaded(cs, catalog)
  {
  }

  /** The loop that requests every component's game object, in order; the first missing id throws. */
  method RequestLoads(cs: seq<SavedGunComponent>, catalog: Catalog) returns (r: Result<seq<Prefab>, string>)
    ensures r == Lookups(cs, |cs|, catalog)
  {
    var callbackList: seq<Prefab> := [];
    for i := 0 to |cs|
      invariant Lookups(cs, i, catalog) == Ok(callbackList)
    {
      if cs[i].ObjectID !in catalog {
        LookupErrStays(cs, i + 1, |cs|, catalog);
        return Err(cs[i].ObjectID);
      }
      callbackList := callbackList + [catalog[cs[i].ObjectID].prefab];
    }
    return Ok(callbackList);
  }

  lemma {:induction false} LookupErrStays(cs: seq<SavedGunComponent>, m: nat, n: nat, catalog: Catalog)
    requires m <= n <= |cs| && Lookups(cs, m, catalog).Err?
    ensures Lookups(cs, n, catalog) == Lookups(cs, m, catalog)
    decreases n
  {
    if n > m {
      LookupErrStays(cs, m, n - 1, catalog);
    }
  }

  /** The spawn job of a vault file with catalog entries for all its components. */
  function JobOf(gun: SavedGun, prefabs: seq<Prefab>, settings: Option<FireSelector.FireSettings>): Job
  {
    Job(gun.Components, prefabs, gun.LoadedRoundsInMag, settings)
  }

  /**
   * `SpawnGun_Internal(gun)`: the catalog check throws before anything is
   * instantiated; otherwise the shared spawn routine runs with no settings.
   */
  function SpawnGunSpec(gun: SavedGun, catalog: Catalog): Result<Spawned, Failure>
  {
    if !Firearm.AllComponentsLoaded(gun.Components, catalog) then Err(Failure(ComponentsNotLoaded, 0))
    else
      var prefabs := Lookups(gun.Components, |gun.Components|, catalog).value;
      SpawnSpec(JobOf(gun, prefabs, None), gun.LoadedRoundsInChambers, gun.SavedFlags)
  }

  /** `VaultAPI.SpawnGun_Internal`, after its asset loads have completed. */
  method SpawnGun_Internal(gun: SavedGun, catalog: Catalog) returns (r: Result<Spawned, Failure>)
    ensures r == SpawnGunSpec(gun, catalog)
  {
    if !Firearm.AllComponentsLoaded(gun.Components, catalog) {
      return Err(Failure(ComponentsNotLoaded, 0));
    }
    var prefabs := RequestLoads(gun.Components, catalog);
    LookupsIffLoaded(gun.Components, catalog);
    r := Spawn(JobOf(gun, prefabs.value, None), gun.LoadedRoundsInChambers, gun.SavedFlags);
  }

  /** A file with a component the catalog lacks throws the catalog check's exception and instantiates nothing. */
  lemma MissingComponentThrowsFirst(gun: SavedGun, catalog: Catalog, i: nat)
    requires i < |gun.Components| && gun.Components[i].ObjectID !in catalog
    ensures SpawnGunSpec(gun, catalog) == Err(Failure(ComponentsNotLoaded, 0))
  {
  }

  /**
   * A spawn that succeeds keeps every prefab's fire control as it is: the base gun's
   * control is its prefab's, and it is the latest component flagged as the firearm.
   */
  lemma SpawnGunKeepsControl(gun: SavedGun, catalog: Catalog)
    requires SpawnGunSpec(gun, catalog).Ok?
    ensures var sp := SpawnGunSpec(gun, catalog).value;
            var cs := gun.Components;
            sp.baseGun < |cs| && cs[sp.baseGun].isFirearm && cs[sp.baseGun].ObjectID in catalog
            && catalog[cs[sp.baseGun].ObjectID].prefab.kind == FirearmPart(sp.control)
            && (forall i :: sp.baseGun < i < |cs| ==> !cs[i].isFirearm)
  {
    var prefabs := Lookups(gun.Components, |gun.Components|, catalog).value;
    var job := JobOf(gun, prefabs, None);
    VaultPlaceProofs.SpawnCorrect(job, gun.LoadedRoundsInChambers, gun.SavedFlags, SpawnGunSpec(gun, catalog).value);
  }
}
