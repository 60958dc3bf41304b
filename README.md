# Sodalite, modelled in Dafny

Sodalite is a BepInEx runtime library for the VR game *Hot Dogs, Horseshoes & Hand
Grenades*. This project models its core and proves properties of the model:

- the vault engine: capturing a firearm and its attachments into a saved gun, and
  spawning one back. This covers the staged spawn in `VaultAPI` and its two older
  copies (`VaultUtils`, `VaultUtilites`): the base-gun search, the `validIndexes`
  bookkeeping and the fixed-point attachment loop;
- the saved-gun serialisers (two revisions), the vector serialiser and the JSON
  converters;
- the firearm helpers: fire selector modes, magazine and round selection, and compatible
  magazines;
- the utilities: `ObservableHashSet`, `SafeMultiLock`, the string and list helpers, and
  `AcceptableValueRangeStep`;
- the universal mod panel: config fields, the toggle button, navigation and registries,
  the log pages and the BepInEx log panel;
- the gizmo queues and the line drawer;
- mod discovery from Thunderstore package directories;
- resource injection;
- the lockable panels (two revisions);
- the preloader patcher, which spoofs the Steam ID.

## Conventions

- There is one Dafny module per source file. Helper modules are `Wrappers` (`Option`,
  `Result`), `Host` (opaque game objects, vectors and the object catalog), `CsArith`
  (C# integer and float-to-int semantics) and `Formatting` (`int.ToString`).
- A C# `null` is an `Option`. An exception the source throws is the `Err` of a `Result`,
  never a precondition.
- An object whose fields the source updates is a `class` with `modifies` clauses.
  A static class with static state is one object of a class.
- Floats, vectors and quaternions are opaque values. They are compared for equality only,
  except where the source's arithmetic is modelled on `real` or `int`, which
  `## Left out` lists.
- Anything the model cannot see becomes a parameter of the operation that uses it:
  Unity's scene queries, the asset loader's results, `Random`, the clock and the files
  on disk.

## Behaviour of the code worth knowing

The code behaves as follows in these places, and the model does the same:

- `validIndexes` in the vault spawn is seeded with the list positions of the firearm and
  of the magazine only. It is not seeded with their `Index` values, and not with tray
  items. So an attachment whose parent is a tray item never attaches
  (`VaultPlaceProofs.PlaceSeeds`, `VaultSpawnExamples.TrayParentNeverValid`).
- An attachment whose parent is valid but whose mount index is out of range makes the
  spawn throw. It is not left unattached (`VaultPlaceProofs.ReachableBadMountThrows`).
- The number of passes the attachment loop makes depends on the order of the list, not
  only on the depth of the attachment tree. A chain listed parent-first takes two passes;
  the same chain listed child-first takes one (`VaultSpawnExamples.ChainTakesTwoPasses`,
  `VaultSpawnExamples.ReversedTakesOnePass`).
- The log page's scroll limit counts events, while its offset counts lines.
- An event the filter hides still moves the view (`LogPage.FilteredEventMovesView`).
- Scrolling the mod-panel log page over an empty list sets the offset to -1, or to 0 when
  the scrolled offset would go below 0, because the clamp checks its lower bound first
  (`LogWindow.ScrollOnEmpty`).
- The enum fields cycle through an enum's members in the order the runtime lists them,
  which is ascending unsigned underlying value, not declaration order. For
  `enum E { B = 2, A = 1 }`, `Next` goes from `A` to `B`.
- The legacy `VaultUtilites` copies of `AllComponentsLoaded` and `GetMount` are the same
  as those of `VaultUtils`. They are modelled once, in `VaultUtils`.

## Model

Each row names the member whose contract states the property. An operation that only computes a value (such as `SodaliteUtils.HasFlag`, the `VectorSerializable` wrap and unwrap functions, `SerializableVault.GetSavedGun` or `UniversalModPanel.Breadcrumb`) has no row of its own; the rows of the lemmas about it cite its source lines.

| member | source | states |
|---|---|---|
| VaultSpawn.Step | src/Sodalite/src/Api/Vault.cs:163-217 | one turn of the instantiation loop keeps the staged lists within the components seen so far and configures one more object from its component's flags; a throw reports `j + 1` components instantiated |
| VaultSpawn.Place | src/Sodalite/src/Api/Vault.cs:163-217 | the instantiation loop from component `j` stops at the first exception, after at least one more component, and otherwise leaves a consistent staged state |
| VaultSpawn.Instantiate | src/Sodalite/src/Api/Vault.cs:150-217 | the imperative loop over the components (dictionaries, `validIndexes`, attachment and tray lists, magazine loads, the flag dictionary each object is configured from) computes exactly `Place(job, 0, Fresh)` |
| VaultSpawn.TakeComponent | src/Sodalite/src/Api/Vault.cs:165-216 | one turn of the loop computes `Step`: a repeated `Index` throws, a root or a magazine adds its position to `validIndexes`, a loaded magazine needs a base gun, attachments and tray items are set aside, and a turn that does not throw ends with `ConfigureFromFlagDic` of the component's `Flags` |
| VaultSpawn.Mount | src/Sodalite/src/Api/Vault.cs:237-251 | a successful mount hangs the part on the component named by its `ObjectAttachedTo`, at a mount index inside that parent's mount list, and only when the part carries an attachment component |
| VaultSpawn.RemoveAtShrinks | src/Sodalite/src/Api/Vault.cs:258 | `RemoveAt(k)` removes exactly one occurrence of `pending[k]` and adds nothing |
| VaultSpawn.Scan | src/Sodalite/src/Api/Vault.cs:235-260 | one backward scan only removes parts from the pending list and does not count a pass |
| VaultSpawn.Loop | src/Sodalite/src/Api/Vault.cs:231-261 | the outer loop runs at most `budget` passes, and uses all of them whenever parts stay pending |
| VaultSpawn.Resolve | src/Sodalite/src/Api/Vault.cs:231-261 | the imperative attach loop (`breakIterator` from 200, backward `for`, `RemoveAt(k)`, `validIndexes.Add(Index)`) computes exactly `ResolveSpec` |
| VaultSpawn.Spawn | src/Sodalite/src/Api/Vault.cs:150-272 | the spawn after the catalog lookups (instantiate and configure each object, base-gun check, attach loop, tray list, chambers and flags) computes exactly `SpawnSpec` |
| VaultPlaceProofs.PositionsFrom | src/Sodalite/src/Api/Vault.cs:170-214 | the positions taking one branch of the if/else chain are exactly those from `j` on whose component takes it |
| VaultPlaceProofs.SeedsFrom | src/Sodalite/src/Api/Vault.cs:173-182 | the seeds of `validIndexes` are exactly the list positions of firearm and magazine components |
| VaultPlaceProofs.PositionsNoDup | src/Sodalite/src/Api/Vault.cs:197-203 | every position enters the attachment or tray list at most once |
| VaultPlaceProofs.StepShape | src/Sodalite/src/Api/Vault.cs:166-216 | one turn that does not throw registers a fresh Index, then takes exactly one branch: a root becomes the base gun (null when its prefab has no firearm) and a seed, a magazine becomes a seed and is loaded into the current base gun, an attachment waits, anything else is a tray item; and the object is configured from its component's `Flags` |
| VaultPlaceProofs.StepIndex | src/Sodalite/src/Api/Vault.cs:167 | a turn that does not throw added its component's Index, which was not yet a key, mapped to its position |
| VaultPlaceProofs.StepFlags | src/Sodalite/src/Api/Vault.cs:216 | a turn that does not throw configures its object from exactly its own component's `Flags` |
| VaultPlaceProofs.FlagsOf | src/Sodalite/src/Api/Vault.cs:216 | the `Flags` of the components, position by position |
| VaultPlaceProofs.PlaceFlags | src/Sodalite/src/Api/Vault.cs:163-217 | every turn of the instantiation loop from `j` on configures its object from its own component's `Flags`, in component order |
| VaultPlaceProofs.PlaceConfigures | src/Sodalite/src/Api/Vault.cs:163-217 | after a completed loop the configured flag list is the components' flags in order |
| VaultPlaceProofs.PlaceAttachments | src/Sodalite/src/Api/Vault.cs:195-198 | the attachment list is the attachment positions in component order |
| VaultPlaceProofs.PlaceSeeds | src/Sodalite/src/Api/Vault.cs:173-182 | `validIndexes` starts as the root and magazine positions in component order, never their Index values |
| VaultPlaceProofs.PlaceTrays | src/Sodalite/src/Api/Vault.cs:201-214 | the tray list is the tray positions in component order |
| VaultPlaceProofs.TrayStep | src/Sodalite/src/Api/Vault.cs:203 | one turn adds a tray item exactly for a component that takes the last branch |
| VaultPlaceProofs.PlaceRefills | src/Sodalite/src/Api/Vault.cs:204-213 | a speedloader or clip tray item is refilled from `LoadedRoundsInMag` exactly when that list is non-empty; other tray items are not |
| VaultPlaceProofs.PlaceIndex | src/Sodalite/src/Api/Vault.cs:167 | `dicByIndex.Add` succeeds only for distinct Index values, and the finished dictionary maps every component's Index to it and has no other key |
| VaultPlaceProofs.PlaceFresh | src/Sodalite/src/Api/Vault.cs:167 | when the loop completes from `j`, every remaining Index was new to the dictionary and no two remaining Index values are equal |
| VaultPlaceProofs.PlaceKeys | src/Sodalite/src/Api/Vault.cs:167 | the finished dictionary keeps every earlier entry and maps each remaining component's Index to its position |
| VaultPlaceProofs.PlaceNoOtherKeys | src/Sodalite/src/Api/Vault.cs:167 | the finished dictionary has no key besides the earlier ones and the remaining components' Index values |
| VaultPlaceProofs.PlaceIndexAll | src/Sodalite/src/Api/Vault.cs:163-217 | a completed loop from the start saw pairwise distinct Index values and built a dictionary that maps exactly each Index to its component |
| VaultPlaceProofs.BaseBeforeIsLastRoot | src/Sodalite/src/Api/Vault.cs:170-172 | the base gun is the latest firearm-flagged component exactly when that component's prefab carries a firearm |
| VaultPlaceProofs.PlaceBase | src/Sodalite/src/Api/Vault.cs:170-191 | the final base gun is the latest root; each magazine with a magazine component had a base gun before it and is loaded into that one, in order |
| VaultPlaceProofs.PlaceCorrect | src/Sodalite/src/Api/Vault.cs:163-217 | a completed instantiation loop: distinct Index values, exact `dicByIndex`, attachments, seeds and trays in component order, refills, base gun, magazine loads, and object `j` configured from `Components[j].Flags` for every `j` |
| VaultPlaceProofs.MountedWhere | src/Sodalite/src/Api/Vault.cs:242-243 | a successful mount puts the part on mount `MountAttachedTo` of the component whose Index is its `ObjectAttachedTo` |
| VaultPlaceProofs.SpawnCorrect | src/Sodalite/src/Api/Vault.cs:145-272 | a completed spawn: distinct Index values, base gun is the latest root with a firearm and has the settings applied, magazine loads in order, trays in order and refilled, every object configured from its own component's saved flags, and every attachment either mounted once or left pending |
| VaultPlaceProofs.DuplicateIndexThrows | src/Sodalite/src/Api/Vault.cs:167 | two components with the same Index make the spawn throw |
| VaultPlaceProofs.NoBaseGunThrows | src/Sodalite/src/Api/Vault.cs:220 | the spawn throws unless the latest root carries a firearm |
| VaultPlaceProofs.MagazineBeforeBaseThrows | src/Sodalite/src/Api/Vault.cs:183-185 | a magazine listed before any firearm root makes the spawn throw |
| VaultPlaceProofs.MountedOnce | src/Sodalite/src/Api/Vault.cs:238-258 | an attachment whose parent chain reaches a seed within 200 links appears in the attach log, with the entry its successful mount lookup gives |
| VaultPlaceProofs.ReachableBadMountThrows | src/Sodalite/src/Api/Vault.cs:242-243 | such an attachment with an unknown parent Index, an out-of-range mount index or no attachment component makes the spawn throw; it is not skipped |
| VaultResolveProofs.Parts | src/Sodalite/src/Api/Vault.cs:251 | the attached positions, one per mount, in attach order |
| VaultResolveProofs.Indexes | src/Sodalite/src/Api/Vault.cs:257 | the Index values the attach loop adds to `validIndexes`, one per mount, in attach order |
| VaultResolveProofs.WfStep | src/Sodalite/src/Api/Vault.cs:238-258 | mounting one eligible part keeps the loop invariant: pending and attached parts partition the attachments, `validIndexes` is the seeds followed by the attached Index values, and each attached part's parent was valid before it |
| VaultResolveProofs.ScanWf | src/Sodalite/src/Api/Vault.cs:235-260 | a scan keeps the invariant and only extends the attach log |
| VaultResolveProofs.LoopWf | src/Sodalite/src/Api/Vault.cs:231-261 | the whole loop keeps the invariant |
| VaultResolveProofs.ScanRemovesEligible | src/Sodalite/src/Api/Vault.cs:235-258 | a pending part whose parent is valid when the scan reaches it is mounted and leaves the pending list, so parts mounted earlier in a scan make their children eligible later in the same scan |
| VaultResolveProofs.PassDeepens | src/Sodalite/src/Api/Vault.cs:232-260 | once every part of chain depth `n` is attached, the next pass attaches every part of depth `n + 1` |
| VaultResolveProofs.LoopDepth | src/Sodalite/src/Api/Vault.cs:231-261 | after the loop no part of depth at most the passes run is pending |
| VaultResolveProofs.LogDepth | src/Sodalite/src/Api/Vault.cs:238-257 | the t-th attached part hangs below a seed by at most t + 1 links |
| VaultResolveProofs.ResolveCorrect | src/Sodalite/src/Api/Vault.cs:231-261 | the completed loop runs at most 200 passes (all 200 when parts stay pending), mounts each attachment at most once, keeps `validIndexes` as seeds plus attached Index values, and attaches every part of depth at most 200 |
| VaultResolveProofs.UnattachedIffNoChain | src/Sodalite/src/Api/Vault.cs:231-261 | with at most 200 attachments, a part stays unattached exactly when no parent chain leads from it to a seed (a dangling or -1 parent, a cycle, or a tray item as parent) |
| VaultResolveProofs.LoopSplit | src/Sodalite/src/Api/Vault.cs:232-234 | running `a + b` passes is running `a` passes and then `b` more |
| VaultResolveProofs.AttachedByPass | src/Sodalite/src/Api/Vault.cs:231-261 | every attachment at depth `d` is mounted by pass `d` |
| VaultSpawnExamples.ChainTakesTwoPasses | src/Sodalite/src/Api/Vault.cs:235-258 | a sight listed after the rail it hangs on waits for a second pass, because the backward scan reaches it first |
| VaultSpawnExamples.ChainAttaches | src/Sodalite/src/Api/Vault.cs:231-261 | the attach loop on that gun mounts the rail in the first pass and the sight in the second |
| VaultSpawnExamples.ReversedTakesOnePass | src/Sodalite/src/Api/Vault.cs:235-258 | the same gun with the sight listed before the rail is attached in one pass |
| VaultSpawnExamples.ReversedAttaches | src/Sodalite/src/Api/Vault.cs:235-258 | in that pass the rail is mounted, then the sight further down the same scan |
| VaultSpawnExamples.LoopIdle | src/Sodalite/src/Api/Vault.cs:232-234 | when no pending part is ever eligible, the loop spends its whole budget and attaches nothing |
| VaultSpawnExamples.OrphansInstantiate | src/Sodalite/src/Api/Vault.cs:163-217 | the instantiation loop over the orphan job stages the root as base gun and its only seed, and the four attachments as pending, in order |
| VaultSpawnExamples.OrphansStayUnattached | src/Sodalite/src/Api/Vault.cs:231-261 | attachments with dangling, -1 and cyclic parents stay pending after all 200 passes, and the spawn still completes |
| VaultSpawnExamples.OnTrayInstantiate | src/Sodalite/src/Api/Vault.cs:163-217 | the instantiation loop puts the clip into the tray list (with its refill), not among the seeds, and the attachment among the pending ones |
| VaultSpawnExamples.TrayParentNeverValid | src/Sodalite/src/Api/Vault.cs:201-238 | an attachment on a tray item stays pending, since tray positions are never seeded |
| VaultSpawnExamples.MagazineFirstThrows | src/Sodalite/src/Api/Vault.cs:185 | a magazine listed first throws after one component is instantiated |
| VaultApi.Lookups | src/Sodalite/src/Api/Vault.cs:158 | the catalog lookups succeed exactly when every id is in the catalog, give each component's prefab in order, and otherwise fail at the first missing id |
| VaultApi.LookupsIffLoaded | src/Sodalite/src/Api/Vault.cs:148-158 | the lookups succeed exactly when the catalog check passes |
| VaultApi.RequestLoads | src/Sodalite/src/Api/Vault.cs:158 | the loop requesting every component's game object computes the lookups |
| VaultApi.LookupErrStays | src/Sodalite/src/Api/Vault.cs:158 | once a lookup has failed, later components do not change the error |
| VaultApi.SpawnGun_Internal | src/Sodalite/src/Api/Vault.cs:145-272 | the catalog check, the lookups and the shared spawn, with no fire-control settings applied |
| VaultApi.MissingComponentThrowsFirst | src/Sodalite/src/Api/Vault.cs:148 | a component missing from the catalog throws the check's exception before anything is instantiated |
| VaultApi.SpawnGunKeepsControl | src/Sodalite/src/Api/Vault.cs:170-172 | a successful spawn keeps the base gun's fire control as its prefab has it, and the base gun is the latest firearm-flagged component |
| VaultUtils.SpawnVaultedGun | src/Sodalite/src/Utilities/VaultUtils.cs:141-272 | `GetSavedGun`, the lookups without a catalog check, and the shared spawn with the file's settings applied to each root |
| VaultUtils.AllComponentsLoaded | src/Sodalite/src/Utilities/VaultUtils.cs:307-317 | the early-exit scan returns true exactly when every component id is in the catalog (true for no components) |
| VaultUtils.AllComponentsLoadedSerializable | src/Sodalite/src/Utilities/VaultUtils.cs:285-295 | the same scan over the serializable components |
| VaultUtils.LoadedChecksAgree | src/Sodalite/src/Utilities/VaultUtils.cs:285-317 | the two overloads agree on a file and the vault file it gives back |
| VaultUtils.GetMount | src/Sodalite/src/Utilities/VaultUtils.cs:321-324 | the mount exists exactly when the index is inside the object's mount list |
| VaultUtils.MountUsesGetMount | src/Sodalite/src/Utilities/VaultUtils.cs:245 | the attach loop fails on the mount index exactly when `GetMount` does, and otherwise uses its mount |
| VaultUtils.MissingComponentThrowsFirst | src/Sodalite/src/Utilities/VaultUtils.cs:155-158 | without a catalog check, a missing id throws `KeyNotFoundException` at the first missing id, before anything is instantiated |
| VaultUtils.SpawnAppliesSettings | src/Sodalite/src/Utilities/VaultUtils.cs:170-173 | a successful spawn applies the file's settings to the base gun's fire control |
| VaultUtils.PlaceWithInertSettings | src/Sodalite/src/Utilities/VaultUtils.cs:173 | with both overrides off, applying the settings changes no turn of the loop |
| VaultUtils.SpawnsAgree | src/Sodalite/src/Utilities/VaultUtils.cs:141-272 | with both overrides off and every id in the catalog, this spawn does what `VaultAPI` does with the vault file the file gives back |
| VaultUtilites.SpawnVaultedGun | Sodalite/src/Utilities/VaultUtilites.cs:24-155 | the earlier copy: `GetSavedGun`, every load requested before any instantiation, the shared spawn with the settings applied |
| VaultUtilites.AllComponentsLoadedSerializable | Sodalite/src/Utilities/VaultUtilites.cs:168-178 | true exactly when every component id of the earlier file is in the catalog |
| VaultUtilites.SameSpawnAsCurrent | Sodalite/src/Utilities/VaultUtilites.cs:24-155 | the earlier spawn of a file equals the current spawn of any file with the same vault file and settings |
| VaultUtilites.SerializeThenSpawnAgrees | Sodalite/src/Utilities/VaultUtilites.cs:24-155 | a vault file serialised by the earlier revision spawns exactly as one serialised by the current revision without a live firearm |
| VaultCapture.StoreRounds | src/Sodalite/src/Api/Vault.cs:67-87 | the first `m_numRounds` rounds of a magazine or clip, none for a non-positive count, and an exception exactly when the count runs past the loaded array |
| VaultCapture.LoadedChambers | src/Sodalite/src/Api/Vault.cs:95-98 | the classes of exactly the loaded speedloader chambers, in chamber order |
| VaultCapture.FullSpeedloader | src/Sodalite/src/Api/Vault.cs:95-98 | a fully loaded speedloader gives one round per chamber, in order |
| VaultCapture.ReadStore | src/Sodalite/src/Api/Vault.cs:67-70 | the inner round loop computes `StoreRounds` |
| VaultCapture.ReadChambers | src/Sodalite/src/Api/Vault.cs:95-98 | the chamber loop computes `LoadedChambers` |
| VaultCapture.CaptureObjectMeans | src/Sodalite/src/Api/Vault.cs:43-113 | one turn throws exactly for a missing wrapper, an overrunning round count or an attachment with no mount; otherwise it records `Index = i`, the id, the flags, the pose for `i > 0` only and the flag of the first matching kind |
| VaultCapture.CaptureComponent | src/Sodalite/src/Api/Vault.cs:43-116 | the loop body with its inner round loops computes `CaptureObject` |
| VaultCapture.ErrStays | src/Sodalite/src/Api/Vault.cs:40-117 | once a turn has thrown, the capture's outcome is that exception |
| VaultCapture.CaptureAll | src/Sodalite/src/Api/Vault.cs:40-117 | the capture loop appends components and rounds exactly as `Captured` says |
| VaultCapture.CapturedComponents | src/Sodalite/src/Api/Vault.cs:40-117 | a finished capture has one component per detected object, in detection order, each the result of its own turn |
| VaultCapture.CapturedErr | src/Sodalite/src/Api/Vault.cs:40-117 | the capture throws exactly when some turn throws, and then with the first such exception |
| VaultCapture.HeldRoundsAppend | src/Sodalite/src/Api/Vault.cs:65-101 | the rounds of one more object go after those of the objects before it |
| VaultCapture.CapturedRounds | src/Sodalite/src/Api/Vault.cs:65-101 | `LoadedRoundsInMag` is the concatenation, in detection order, of the magazine's first `m_numRounds`, each clip's rounds and each speedloader's loaded chambers |
| VaultCapture.KindFlagsExclusive | src/Sodalite/src/Api/Vault.cs:59-113 | no component carries two kind flags, and clips and speedloaders carry none |
| VaultCapture.AttachmentParent | src/Sodalite/src/Api/Vault.cs:107-110 | `ObjectAttachedTo` is the first detected position of the mount's owner, and -1 exactly when the owner is not detected |
| VaultCapture.VariantsAgree | src/Sodalite/src/Utilities/VaultUtils.cs:36-110 | when no flag dictionary is null, the `CreateVaultFile` loop builds the same capture as the `SaveGun` loop |
| VaultCapture.SavedGunFrom | src/Sodalite/src/Api/Vault.cs:120-121 | the file stores the capture, the date, and the root's chamber and flag lists; null lists stay null in `SaveGun` and keep the empty defaults in `CreateVaultFile` |
| VaultCapture.SaveGun | src/Sodalite/src/Api/Vault.cs:23-128 | `SaveGun` computes `SaveGunSpec`; the root's rotation is restored when it returns and left at identity when it throws |
| VaultCapture.CreateVaultFile | src/Sodalite/src/Utilities/VaultUtils.cs:23-127 | `CreateVaultFile` succeeds or fails exactly as its specification does, with a fresh serializable file of the specified state, and restores the rotation unless the capture threw |
| VaultCapture.CapturedIndices | src/Sodalite/src/Api/Vault.cs:45 | every component's `Index` is its position and component 0 is the root's |
| VaultCapture.SaveGunRootFirst | src/Sodalite/src/Api/Vault.cs:40-64 | the firearm is component 0, flagged only as the firearm, with no pose offset |
| VaultCapture.CapturesAgree | src/Sodalite/src/Utilities/VaultUtils.cs:36-122 | with no null flag dictionary, chamber list or flag list, both captures record the same vault file |
| VaultCapture.NullWrapperThrows | src/Sodalite/src/Api/Vault.cs:46 | a detected object without an object wrapper makes the capture throw |
| SavedGunModel.ObjectIDs | src/Sodalite/src/Api/Vault.cs:158 | the component ids, one per component, in order |
| SerializableVault.ComponentRoundTrip | src/Sodalite/src/SerializableObjects/SavedGunSerializable.cs:281-313 | converting a component to its serializable form and back gives the same component |
| SerializableVault.SerializableComponentRoundTrip | src/Sodalite/src/SerializableObjects/SavedGunSerializable.cs:281-313 | converting a serializable component to a component and back gives the same serializable component |
| SerializableVault.ToSerializables | src/Sodalite/src/SerializableObjects/SavedGunSerializable.cs:81 | one serializable component per component, in order, each converted |
| SerializableVault.GetGunComponents | src/Sodalite/src/SerializableObjects/SavedGunSerializable.cs:95 | one component per serializable component, in order, each converted back |
| SerializableVault.FirstFirearm | src/Sodalite/src/SerializableObjects/SavedGunSerializable.cs:112-115 | the first position flagged as the firearm, and none exactly when no component is flagged |
| SerializableVault.GetGunObjectOf | src/Sodalite/src/SerializableObjects/SavedGunSerializable.cs:110-118 | the catalog entry of the first firearm component; it throws the no-base-gun exception exactly when no component is flagged, and a key error when that first one's id is missing |
| SerializableVault.SavedGunSerializable.Copy | src/Sodalite/src/SerializableObjects/SavedGunSerializable.cs:80-84 | the new object holds the file's name, converted components, round and flag lists, with the fire-control fields at their defaults |
| SerializableVault.SavedGunSerializable.LoadFirearmProperties | src/Sodalite/src/SerializableObjects/SavedGunSerializable.cs:136-179 | the firearm's modes are appended and its spring values recorded, as the handgun, closed bolt or open bolt branch says; a null firearm changes nothing; an unparsable mode name throws |
| SerializableVault.SavedGunSerializable.LoadFirearmPropertiesFromGun | src/Sodalite/src/SerializableObjects/SavedGunSerializable.cs:125-129 | the load reads the catalog firearm of this object's own components; a missing base gun throws and changes nothing |
| SerializableVault.SavedGunSerializable.ApplyFirearmProperties | src/Sodalite/src/SerializableObjects/SavedGunSerializable.cs:186-259 | the firearm gets the modes and spring values that are overridden, for its kind; a mode name the kind cannot parse throws and leaves the firearm as it was |
| SerializableVault.New | src/Sodalite/src/SerializableObjects/SavedGunSerializable.cs:78-88 | the constructor succeeds or throws exactly as `Serialize` says, loading from the firearm argument or else from the file's base gun |
| SerializableVault.ComponentsRoundTrip | src/Sodalite/src/SerializableObjects/SavedGunSerializable.cs:81-95 | a component list survives conversion and back element by element |
| SerializableVault.GetSavedGunAfterSerialize | src/Sodalite/src/SerializableObjects/SavedGunSerializable.cs:78-102 | `GetSavedGun` gives back the file the object was built from, with only the date reset to its default |
| SerializableVault.SerializeLeavesOverridesOff | src/Sodalite/src/SerializableObjects/SavedGunSerializable.cs:78-88 | the constructor turns no override on, so applying a fresh object to any firearm changes nothing |
| SerializableVault.SerializeWithoutBaseGunThrows | src/Sodalite/src/SerializableObjects/SavedGunSerializable.cs:87-118 | without a firearm argument, a file with no firearm component makes the constructor throw |
| SerializableVault.SerializeOpenBoltModes | src/Sodalite/src/SerializableObjects/SavedGunSerializable.cs:166-177 | loading an open bolt records its modes in order, each with burst amount -1, and its bolt spring values |
| SerializableVault.SerializeBurstModes | src/Sodalite/src/SerializableObjects/SavedGunSerializable.cs:138-164 | loading a handgun or closed bolt records each mode's position, type and burst amount, in order |
| LegacySerializableVault.ComponentRoundTrip | Sodalite/src/SerializableObjects/SavedGunSerializable.cs:235-268 | converting a component to its serializable form and back gives the same component |
| LegacySerializableVault.SerializableComponentRoundTrip | Sodalite/src/SerializableObjects/SavedGunSerializable.cs:235-268 | converting a serializable component back and forth gives the same serializable component |
| LegacySerializableVault.SameComponentAsCurrent | Sodalite/src/SerializableObjects/SavedGunSerializable.cs:235-268 | the earlier component keeps the same values as the current one; only the vector wrapper differs |
| LegacySerializableVault.ToSerializables | Sodalite/src/SerializableObjects/SavedGunSerializable.cs:38 | one serializable component per component, in order |
| LegacySerializableVault.GetGunComponents | Sodalite/src/SerializableObjects/SavedGunSerializable.cs:52 | one component per serializable component, in order |
| LegacySerializableVault.FirstFirearm | Sodalite/src/SerializableObjects/SavedGunSerializable.cs:69-72 | the first position flagged as the firearm, and none exactly when no component is flagged |
| LegacySerializableVault.GetGunObjectOf | Sodalite/src/SerializableObjects/SavedGunSerializable.cs:67-75 | the catalog entry of the first firearm component; no such component throws, a missing id is a key error |
| LegacySerializableVault.SavedGunSerializable.Copy | Sodalite/src/SerializableObjects/SavedGunSerializable.cs:30-41 | the new object holds the copied fields with the fire-control fields at their defaults |
| LegacySerializableVault.SavedGunSerializable.LoadFirearmProperties | Sodalite/src/SerializableObjects/SavedGunSerializable.cs:93-136 | the firearm's modes and spring values are recorded as its kind says; null changes nothing |
| LegacySerializableVault.SavedGunSerializable.LoadFirearmPropertiesFromGun | Sodalite/src/SerializableObjects/SavedGunSerializable.cs:82-86 | the load reads the catalog firearm of this object's components; a missing base gun throws and changes nothing |
| LegacySerializableVault.SavedGunSerializable.ApplyFirearmProperties | Sodalite/src/SerializableObjects/SavedGunSerializable.cs:143-213 | the firearm gets the overridden modes and spring values for its kind, or nothing changes when it throws |
| LegacySerializableVault.New | Sodalite/src/SerializableObjects/SavedGunSerializable.cs:35-44 | the constructor succeeds or throws exactly as `Serialize` says, always loading from the file's base gun |
| LegacySerializableVault.ComponentsRoundTrip | Sodalite/src/SerializableObjects/SavedGunSerializable.cs:38-52 | a component list survives conversion and back element by element |
| LegacySerializableVault.GetSavedGunAfterSerialize | Sodalite/src/SerializableObjects/SavedGunSerializable.cs:35-59 | `GetSavedGun` gives back the file the object was built from, with only the date reset |
| LegacySerializableVault.AgreesWithCurrent | Sodalite/src/SerializableObjects/SavedGunSerializable.cs:35-44 | the earlier constructor throws as the current one does without a firearm argument, or records the same settings and gives back the same file |
| LegacySerializableVault.SerializeWithoutBaseGunThrows | Sodalite/src/SerializableObjects/SavedGunSerializable.cs:43-75 | a file with no firearm component makes the earlier constructor throw |
| FireSelector.ParseModeType | src/Sodalite/src/SerializableObjects/SavedGunSerializable.cs:379-386 | the enum parse succeeds exactly on the five member names and gives back the member of that name |
| FireSelector.ParseTypeName | src/Sodalite/src/SerializableObjects/SavedGunSerializable.cs:333 | every mode type survives `ToString` followed by `Enum.Parse` |
| FireSelector.FromBurstMode | src/Sodalite/src/SerializableObjects/SavedGunSerializable.cs:330-342 | a handgun or closed-bolt mode converts exactly when its type name parses, keeping position, type and burst amount; otherwise it throws with that name |
| FireSelector.FromOpenMode | src/Sodalite/src/SerializableObjects/SavedGunSerializable.cs:344-349 | an open-bolt mode converts exactly when its name parses, with burst amount -1 |
| FireSelector.ToBurstMode | src/Sodalite/src/SerializableObjects/SavedGunSerializable.cs:351-375 | writing a mode back succeeds exactly when the host enum has its name, and the result reads back as the same mode |
| FireSelector.ToOpenMode | src/Sodalite/src/SerializableObjects/SavedGunSerializable.cs:360-366 | writing to an open bolt succeeds exactly when the host enum has the name, and reads back with burst amount -1 |
| FireSelector.FromBurstModes | src/Sodalite/src/SerializableObjects/SavedGunSerializable.cs:140-157 | a host mode array converts exactly when every name parses, element by element; otherwise it throws at the first bad name |
| FireSelector.FromOpenModes | src/Sodalite/src/SerializableObjects/SavedGunSerializable.cs:168-171 | the same for an open bolt's modes |
| FireSelector.ToBurstModes | src/Sodalite/src/SerializableObjects/SavedGunSerializable.cs:195-224 | the mode list is written in full exactly when every name is known to the host, and otherwise throws at the first unknown one |
| FireSelector.ToOpenModes | src/Sodalite/src/SerializableObjects/SavedGunSerializable.cs:241-247 | the same for an open bolt |
| FireSelector.Load | src/Sodalite/src/SerializableObjects/SavedGunSerializable.cs:136-179 | a handgun, closed bolt or open bolt yields its converted modes and its spring values, any other kind yields nothing, and a bad name throws |
| FireSelector.Apply | src/Sodalite/src/SerializableObjects/SavedGunSerializable.cs:186-259 | with no override nothing changes; the apply throws exactly when selectors are overridden on a known receiver and some name is unknown to it; otherwise the receiver keeps its names, gets the spring values only when fire rate is overridden, and keeps its modes unless selectors are |
| FireSelector.BurstModesRoundTrip | src/Sodalite/src/SerializableObjects/SavedGunSerializable.cs:195-201 | modes written to a handgun or closed bolt read back as the same modes |
| FireSelector.OpenModesRoundTrip | src/Sodalite/src/SerializableObjects/SavedGunSerializable.cs:241-247 | modes written to an open bolt read back with every burst amount -1 |
| FireSelector.DropBursts | src/Sodalite/src/SerializableObjects/SavedGunSerializable.cs:348 | the same modes with every burst amount -1 |
| FireSelector.LoadedBurstModesWriteBack | src/Sodalite/src/SerializableObjects/SavedGunSerializable.cs:195-201 | host modes read and written back are the same host modes |
| FireSelector.LoadedOpenModesWriteBack | src/Sodalite/src/SerializableObjects/SavedGunSerializable.cs:241-247 | the same for an open bolt |
| FireSelector.ApplyAfterLoad | src/Sodalite/src/SerializableObjects/SavedGunSerializable.cs:136-259 | loading a firearm and applying the result with both overrides on leaves the firearm as it was |
| FireSelector.ReadBurstModes | src/Sodalite/src/SerializableObjects/SavedGunSerializable.cs:140-157 | the conversion loop computes `FromBurstModes` |
| FireSelector.ReadOpenModes | src/Sodalite/src/SerializableObjects/SavedGunSerializable.cs:168-171 | the open-bolt loop computes `FromOpenModes` |
| FireSelector.WriteBurstModes | src/Sodalite/src/SerializableObjects/SavedGunSerializable.cs:195-224 | the `modeList` loop computes `ToBurstModes` |
| FireSelector.WriteOpenModes | src/Sodalite/src/SerializableObjects/SavedGunSerializable.cs:241-247 | the open-bolt `modeList` loop computes `ToOpenModes` |
| FireSelector.ReadFireControl | src/Sodalite/src/SerializableObjects/SavedGunSerializable.cs:136-179 | the load of a live firearm computes `Load`, and nothing for null |
| FireSelector.WriteFireControl | src/Sodalite/src/SerializableObjects/SavedGunSerializable.cs:186-259 | the firearm's new fire control is what `Apply` says, unchanged when it throws |
| VectorSerializable.Vector2RoundTrip | src/Sodalite/src/SerializableObjects/VectorSerializable.cs:22-31 | a vector wrapped and unwrapped is the same vector |
| VectorSerializable.Vector2WrapRoundTrip | src/Sodalite/src/SerializableObjects/VectorSerializable.cs:22-31 | a record unwrapped and wrapped again is the same record |
| VectorSerializable.Vector3RoundTrip | src/Sodalite/src/SerializableObjects/VectorSerializable.cs:46-56 | a vector wrapped and unwrapped is the same vector |
| VectorSerializable.Vector3WrapRoundTrip | src/Sodalite/src/SerializableObjects/VectorSerializable.cs:46-56 | a record unwrapped and wrapped again is the same record |
| VectorSerializable.DefaultsAreZero | src/Sodalite/src/SerializableObjects/VectorSerializable.cs:20-44 | the parameterless records stand for the zero vectors |
| JsonConverters.WriteJson | src/Sodalite/src/Utilities/JsonConverters.cs:15-19 | anything but a vector throws; a vector is written as its three components joined by commas |
| JsonConverters.JoinThree | src/Sodalite/src/Utilities/JsonConverters.cs:18 | three parts joined by commas are `a,b,c` |
| JsonConverters.ParseAll | src/Sodalite/src/Utilities/JsonConverters.cs:25 | every part parses in order, and the first that does not throws |
| JsonConverters.ReadJson | src/Sodalite/src/Utilities/JsonConverters.cs:21-28 | a non-string token throws; a string is split at commas and every part parsed before the count is checked; exactly three parsable parts give the vector |
| JsonConverters.CanConvert | src/Sodalite/src/Utilities/JsonConverters.cs:30-33 | the converter takes exactly the vector type |
| JsonConverters.ReadAfterWrite | src/Sodalite/src/Utilities/JsonConverters.cs:15-28 | what is written reads back as the same vector when each component's text parses back to it without a comma |
| JsonConverters.CommaInNumberBreaksRead | src/Sodalite/src/Utilities/JsonConverters.cs:18-26 | a number text holding a comma makes the written vector unreadable |
| Firearm.Wrapped | src/Sodalite/src/Api/Firearm.cs:25 | exactly the attachments with an object wrapper, never more than there were |
| Firearm.WrappedAppend | src/Sodalite/src/Api/Firearm.cs:25 | the wrapper filter keeps the attachments' order |
| Firearm.ListedMagazine | src/Sodalite/src/Api/Firearm.cs:24 | the magazine is listed exactly when it is non-null, not integrated and wrapped |
| Firearm.GetAttachedObjects | src/Sodalite/src/Api/Firearm.cs:20-29 | the firearm first, then its listed magazine, then its wrapped attachments in order (the same code is at src/Sodalite/src/Utilities/FirearmExtensions.cs:15-24 and FirearmAPI.cs:16-25) |
| Firearm.AttachedObjectsShape | src/Sodalite/src/Api/Firearm.cs:20-29 | every entry after the firearm has a wrapper and is not a firearm, and every wrapped attachment is listed |
| Firearm.AllComponentsLoaded | src/Sodalite/src/Api/Firearm.cs:37-40 | true exactly when every component id is in the catalog, so true for no components |
| Firearm.Refresh | src/Sodalite/src/Api/Firearm.cs:48 | the lookup `IM.OD[item.ItemID]` gives the catalog entry, and throws a key error for a missing id |
| Firearm.GetCompatibleMagazines | src/Sodalite/src/Api/Firearm.cs:46-50 | the refreshed entry's magazines, clips and speedloaders in that order; a missing id or a null list throws (as does `EnumerateCompatibleAmmoContainers` at src/Sodalite/src/Utilities/FVRObjectExtensions.cs:20-29) |
| Firearm.HasMagazine | src/Sodalite/src/Api/Firearm.cs:70-79 | throws exactly for a missing id, and otherwise tells whether any container list is non-empty (also `HasAmmoContainer`, FVRObjectExtensions.cs:106-115) |
| Firearm.HasAmmo | src/Sodalite/src/Api/Firearm.cs:57-79 | refreshes the entry, answers true for single rounds, and otherwise asks `HasMagazine` of the refreshed entry, which looks up the refreshed `ItemID` again; throws exactly when one of the two lookups it reaches misses (also `HasAmmoObjects`, FVRObjectExtensions.cs:93-98) |
| Firearm.HasMagazineIffContainers | src/Sodalite/src/Api/Firearm.cs:46-79 | where the container list exists, `HasMagazine` is its being non-empty, and on an entry stored under its own `ItemID` implies `HasAmmo` |
| Firearm.NoAmmoMeansNothing | src/Sodalite/src/Api/Firearm.cs:57-79 | `HasAmmo` is false only when both lookups succeed, the refreshed entry lists no rounds and the entry under its `ItemID` lists no containers |
| Firearm.Where | src/Sodalite/src/Api/Firearm.cs:124-127 | `Where` keeps exactly the entries that pass the filter, and produces no more entries than the pool has |
| Firearm.WhereCounts | src/Sodalite/src/Api/Firearm.cs:124-127 | each passing entry occurs in the result as often as in the pool, and a failing one never |
| Firearm.WhereAppend | src/Sodalite/src/Api/Firearm.cs:124-127 | `Where` keeps pool order: filtering a concatenation gives the filtered parts, concatenated |
| Firearm.MinCapacity | src/Sodalite/src/Api/Firearm.cs:124 | the least capacity of a non-empty pool, reached by some entry |
| Firearm.GetSmallestMagazine | src/Sodalite/src/Api/Firearm.cs:121-132 | `Min()` throws exactly when nothing passes the filter; otherwise the result is a filtered entry of least capacity |
| Firearm.SmallestReachesEveryMinimum | src/Sodalite/src/Api/Firearm.cs:127-131 | every filtered entry of least capacity is the result for some draw |
| Firearm.GetNextHighestCapacityMagazine | src/Sodalite/src/Api/Firearm.cs:88-93 | as written: an entry of least capacity among those of capacity at least the current one that pass the filter, and the `Min()` exception exactly when none does |
| Firearm.AtLeastHolds | src/Sodalite/src/Api/Firearm.cs:91-92 | the filter built at these lines keeps exactly the entries at or above the current capacity that pass the caller's filter |
| Firearm.NextHighestReturnsSameCapacity | src/Sodalite/src/Api/Firearm.cs:91-92 | a magazine of exactly the current capacity is the result, so the rule is not one step up |
| Firearm.NextHighestCapacityMagazineStrict | src/Sodalite/src/Api/Firearm.cs:88-93 | corrected: an entry strictly above the current capacity that passes the filter, and the least such; the `Min()` exception exactly when no entry above the current capacity passes the filter |
| Firearm.AboveHolds | src/Sodalite/src/Api/Firearm.cs:88-93 | the corrected filter keeps exactly the entries strictly above the capacity that pass the caller's filter |
| Firearm.CompatibleWithAny | src/Sodalite/src/Api/Firearm.cs:104-109 | the query succeeds exactly when every pool entry's lookup does, and then lists exactly the filtered containers of every entry |
| Firearm.GetMagazineCompatibleWithAny | src/Sodalite/src/Api/Firearm.cs:101-113 | the result is a filtered container of some pool entry; an empty list throws in `GetRandom` |
| Firearm.GetSmallestMagazineFor | src/Sodalite/src/Api/Firearm.cs:140-143 | the lookup error passes through; otherwise one of the firearm's filtered containers of least capacity, and the `Min()` exception exactly when the filter leaves none |
| Firearm.SmallestForReachesEveryMinimum | src/Sodalite/src/Api/Firearm.cs:140-143 | every filtered container of the firearm with least capacity is a possible result |
| Firearm.GetFirearmChambers | src/Sodalite/src/Api/Firearm.cs:151-180 | a listed receiver class gives its chambers, any other an empty array |
| FirearmApi.AboveCapacity | src/Sodalite/src/Api/FirearmAPI.cs:80 | exactly the entries strictly above the capacity |
| FirearmApi.OfCapacity | src/Sodalite/src/Api/FirearmAPI.cs:83 | exactly the entries of one capacity (it is a `Where`, so counts and order are those of `WhereCounts` and `WhereAppend`) |
| FirearmApi.GetNextHighestCapacityMagazine | src/Sodalite/src/Api/FirearmAPI.cs:77-87 | throws exactly when no entry is above the current capacity, and otherwise gives an entry of the least capacity above it |
| FirearmApi.NextHighestReachesEveryCandidate | src/Sodalite/src/Api/FirearmAPI.cs:83-86 | every entry of the least capacity above is the result for some draw |
| FirearmApi.WhereSame | src/Sodalite/src/Api/FirearmAPI.cs:80-83 | two filters that agree everywhere keep the same entries |
| FirearmApi.OfCapacityAbove | src/Sodalite/src/Api/FirearmAPI.cs:80-83 | picking one capacity above the current from the entries above it equals picking it from the pool |
| FirearmApi.AgreesWithStrictRule | src/Sodalite/src/Api/FirearmAPI.cs:77-87 | this copy's rule is the corrected strict rule of `Firearm` with no filter, draw for draw |
| MagazineSelection.AllowedOf | Sodalite/src/Utilities/FirearmUtils.cs:74 | the entries that are not blacklisted, in order |
| MagazineSelection.AllowedOfMembers | Sodalite/src/Utilities/FirearmUtils.cs:74 | an entry is kept exactly when it is listed and not blacklisted |
| MagazineSelection.WithCapacity | Sodalite/src/Utilities/FirearmUtils.cs:86-89 | the entries of one capacity, in order |
| MagazineSelection.WithCapacityMembers | Sodalite/src/Utilities/FirearmUtils.cs:86-89 | an entry is kept exactly when it is listed with that capacity |
| MagazineSelection.AllowedOfAppend | Sodalite/src/Utilities/FirearmUtils.cs:72-74 | one more entry is kept at the end exactly when it is not blacklisted |
| MagazineSelection.WithCapacityAppend | Sodalite/src/Utilities/FirearmUtils.cs:86-89 | one more entry is kept at the end exactly when it has the capacity |
| MagazineSelection.WithCapacityNone | Sodalite/src/Utilities/FirearmUtils.cs:86-89 | no entry of the capacity means none kept |
| MagazineSelection.SmallestMeans | Sodalite/src/Utilities/FirearmUtils.cs:70-90 | the candidates are exactly the allowed entries no allowed entry undercuts, and none exactly when all are blacklisted |
| MagazineSelection.MinCapacityAppend | Sodalite/src/Utilities/FirearmUtils.cs:79 | the least capacity after one more entry |
| MagazineSelection.SmallestSkip | Sodalite/src/Utilities/FirearmUtils.cs:74 | a blacklisted entry leaves the candidates as they are |
| MagazineSelection.SmallestStep | Sodalite/src/Utilities/FirearmUtils.cs:74-89 | one turn of the loop: the first entry starts the list, a smaller one replaces it, an equal one joins it, a larger one is ignored |
| MagazineSelection.GetSmallestCapacityMagazine | Sodalite/src/Utilities/FirearmUtils.cs:65-97 | null exactly for a null list or when every entry is blacklisted; otherwise a random allowed entry of least capacity, drawn from the candidates (identical at FVRObjectExtensions.cs:38-70) |
| MagazineSelection.GetSmallestCapacityMagazineOf | Sodalite/src/Utilities/FirearmUtils.cs:107-110 | the pick over the firearm's own magazine list, without refreshing it: null exactly for a missing list or when every magazine is blacklisted, otherwise an allowed magazine of the least allowed capacity |
| MagazineSelection.GetSmallestCapacityMagazineFor | src/Sodalite/src/Utilities/FVRObjectExtensions.cs:79-85 | the pick over the refreshed catalog entry's magazines; a missing id throws; otherwise null exactly when that list is missing or all blacklisted, else an allowed magazine of the least allowed capacity |
| MagazineSelection.NextStep | Sodalite/src/Utilities/FirearmUtils.cs:144-166 | one turn of the next-highest loop never leaves the list empty |
| MagazineSelection.GetNextHighestCapacityMagazine | Sodalite/src/Utilities/FirearmUtils.cs:135-173 | the loop computes the as-written pick `NextHighestAsWritten` (identical at FVRObjectExtensions.cs:125-163) |
| MagazineSelection.NextCandidatesShape | Sodalite/src/Utilities/FirearmUtils.cs:142-167 | the candidates are allowed entries of one capacity, and there are some exactly when some entry is allowed |
| MagazineSelection.AboveOf | Sodalite/src/Utilities/FirearmUtils.cs:149-156 | the entries strictly above a capacity, in order |
| MagazineSelection.AboveOfMembers | Sodalite/src/Utilities/FirearmUtils.cs:149-156 | an entry is kept exactly when it is listed above the capacity |
| MagazineSelection.TracksStep | Sodalite/src/Utilities/FirearmUtils.cs:146-166 | one allowed entry keeps the loop invariant |
| MagazineSelection.TracksStart | Sodalite/src/Utilities/FirearmUtils.cs:146 | the first allowed entry establishes the loop invariant |
| MagazineSelection.TracksSkip | Sodalite/src/Utilities/FirearmUtils.cs:144 | a blacklisted entry keeps the loop invariant |
| MagazineSelection.NextCandidatesTrack | Sodalite/src/Utilities/FirearmUtils.cs:142-167 | the loop keeps its invariant when the first allowed entry is not below the current capacity |
| MagazineSelection.NextHighestWhenFirstNotBelow | Sodalite/src/Utilities/FirearmUtils.cs:135-173 | with the first allowed entry not below the current one, the result is null exactly when nothing allowed is above, and otherwise an allowed entry of least capacity above, each such entry reachable |
| MagazineSelection.NextHighestAllowed | Sodalite/src/Utilities/FirearmUtils.cs:135-173 | it throws exactly when every entry of a non-empty list is blacklisted, and never returns a blacklisted entry or one of the current capacity |
| MagazineSelection.NextHighestReturnsSmaller | Sodalite/src/Utilities/FirearmUtils.cs:146-170 | a first candidate below the current capacity blocks every larger one: a 5 is returned for a 10 |
| MagazineSelection.NextHighestThrowsWhenAllBlacklisted | Sodalite/src/Utilities/FirearmUtils.cs:144-170 | every candidate blacklisted leaves the list empty, and reading its first entry throws |
| MagazineSelection.NextHighestDoublesFirst | Sodalite/src/Utilities/FirearmUtils.cs:146-166 | the first allowed entry above the current capacity is added twice |
| MagazineSelection.NextHighestCapacityMagazine | Sodalite/src/Utilities/FirearmUtils.cs:125-135 | corrected: a random allowed entry of the least capacity above the current one, null when there is none |
| MagazineSelection.NextHighestAgreesWhenFirstNotBelow | Sodalite/src/Utilities/FirearmUtils.cs:135-173 | with the first allowed entry not below the current one, the code and the corrected rule agree on null and on capacity |
| MagazineSelection.Ceiling | Sodalite/src/Utilities/FirearmUtils.cs:27 | a non-positive maximum means the ceiling 9999, any other maximum is kept |
| MagazineSelection.FitsOf | Sodalite/src/Utilities/FirearmUtils.cs:36-44 | the fitting entries, in order |
| MagazineSelection.FitsOfMembers | Sodalite/src/Utilities/FirearmUtils.cs:36-44 | an entry is kept exactly when it is listed, not blacklisted and within the bounds |
| MagazineSelection.NoneFitAfter | Sodalite/src/Utilities/FirearmUtils.cs:34-45 | no entry after a position fits exactly when the fitting entries after it are none |
| MagazineSelection.RemovedFromMeans | Sodalite/src/Utilities/FirearmUtils.cs:34-45 | the loop throws exactly when some blacklisted entry has no fitting entry after it, and otherwise keeps exactly the fitting entries in order |
| MagazineSelection.RemoveUnfit | Sodalite/src/Utilities/FirearmUtils.cs:33-45 | the backward `RemoveAt` loop computes `RemovedFrom` |
| MagazineSelection.RemovedErr | Sodalite/src/Utilities/FirearmUtils.cs:34-45 | a throw at any position makes the whole loop throw |
| MagazineSelection.GetCompatibleMagazines | Sodalite/src/Utilities/FirearmUtils.cs:21-55 | the method computes the as-written list, early returns and fallback included |
| MagazineSelection.CompatibleMagazinesMeans | Sodalite/src/Utilities/FirearmUtils.cs:21-55 | past the early returns, the list throws exactly when the loop does; otherwise it is the fitting magazines, or else one magazine of the least capacity |
| MagazineSelection.CompatibleMagazinesThrows | Sodalite/src/Utilities/FirearmUtils.cs:36-44 | a blacklisted last magazine is removed and reading its position again throws |
| MagazineSelection.CompatibleMagazinesIgnoresSmallestIfEmpty | Sodalite/src/Utilities/FirearmUtils.cs:47-52 | with `smallestIfEmpty` false, an empty result still gets the smallest magazine |
| MagazineSelection.CompatibleMagazines | Sodalite/src/Utilities/FirearmUtils.cs:11-21 | corrected: empty for a missing or empty list, the whole list with no blacklist or bound, otherwise exactly the fitting magazines, and only when none fits and `smallestIfEmpty` is set at most one allowed magazine of least capacity, none exactly when every one is blacklisted |
| MagazineSelection.HasAmmoObject | Sodalite/src/Utilities/FirearmUtils.cs:119-123 | false for null, otherwise whether any of the four lists has an entry |
| MagazineSelection.HasAmmoObjectIsHasAmmo | Sodalite/src/Utilities/FirearmUtils.cs:119-123 | on an entry that is its own catalog entry, this test agrees with `Firearm.HasAmmo` |
| ObservableHashSet.RemoveFirst | src/Sodalite/src/Utilities/ObservableHashSet.cs:30 | `List.Remove` drops exactly one occurrence of a present item and changes nothing otherwise |
| ObservableHashSet.Added | src/Sodalite/src/Utilities/ObservableHashSet.cs:21-26 | the item is in the list afterwards, appended only when it was absent |
| ObservableHashSet.Inserted | src/Sodalite/src/Utilities/ObservableHashSet.cs:77-80 | `List.Insert` throws outside `0..Count` and otherwise puts the item at the index with the rest shifted up |
| ObservableHashSet.AddKeepsDistinct | src/Sodalite/src/Utilities/ObservableHashSet.cs:21-26 | `Add` keeps a duplicate-free list duplicate-free |
| ObservableHashSet.RemoveKeepsDistinct | src/Sodalite/src/Utilities/ObservableHashSet.cs:28-33 | `Remove` keeps a duplicate-free list duplicate-free and the item is gone |
| ObservableHashSet.RemoveOnDistinct | src/Sodalite/src/Utilities/ObservableHashSet.cs:28-33 | on a duplicate-free list, `Remove` keeps exactly the other items |
| ObservableHashSet.AddThenRemove | src/Sodalite/src/Utilities/ObservableHashSet.cs:21-33 | adding an absent item and removing it gives the list back |
| ObservableHashSet.InsertMayDuplicate | src/Sodalite/src/Utilities/ObservableHashSet.cs:77-80 | `Insert` can put a second copy of an item in the list |
| ObservableHashSet.RunKeepsDistinct | src/Sodalite/src/Utilities/ObservableHashSet.cs:21-39 | no run of `Add`, `Remove` and `RemoveAt` creates a duplicate |
| ObservableHashSet.ObservableHashSet.constructor | src/Sodalite/src/Utilities/ObservableHashSet.cs:15-19 | the list and both event logs start empty |
| ObservableHashSet.ObservableHashSet.Add | src/Sodalite/src/Utilities/ObservableHashSet.cs:21-26 | a present item changes nothing and fires nothing; a new one is appended and fires `ItemAdded` once |
| ObservableHashSet.ObservableHashSet.Remove | src/Sodalite/src/Utilities/ObservableHashSet.cs:28-33 | true exactly when the item was present; then its first occurrence goes and `ItemRemoved` fires once |
| ObservableHashSet.ObservableHashSet.RemoveAt | src/Sodalite/src/Utilities/ObservableHashSet.cs:35-39 | an index at or past the end throws `IndexOutOfRangeException`, a negative one the indexer's exception, and otherwise it is `Remove` of the item there |
| ObservableHashSet.ObservableHashSet.Get | src/Sodalite/src/Utilities/ObservableHashSet.cs:45 | the indexer's getter gives the item at a valid index and throws otherwise |
| ObservableHashSet.ObservableHashSet.Set | src/Sodalite/src/Utilities/ObservableHashSet.cs:46 | the setter overwrites a valid index without a duplicate check and fires nothing |
| ObservableHashSet.ObservableHashSet.Count | src/Sodalite/src/Utilities/ObservableHashSet.cs:49 | the number of items |
| ObservableHashSet.ObservableHashSet.Clear | src/Sodalite/src/Utilities/ObservableHashSet.cs:52-55 | the list is emptied and no event fires |
| ObservableHashSet.ObservableHashSet.Contains | src/Sodalite/src/Utilities/ObservableHashSet.cs:57-60 | true exactly when some position holds the item |
| ObservableHashSet.ObservableHashSet.IndexOf | src/Sodalite/src/Utilities/ObservableHashSet.cs:72-75 | the first position holding the item, or -1 exactly when it is absent |
| ObservableHashSet.ObservableHashSet.Insert | src/Sodalite/src/Utilities/ObservableHashSet.cs:77-80 | the list becomes `Inserted`'s result, without a duplicate check or an event; out of range throws and changes nothing |
| ObservableHashSet.ObservableHashSet.CopyTo | src/Sodalite/src/Utilities/ObservableHashSet.cs:62-65 | the items land in the array from the start index on and nothing else changes; a negative start or a range that does not fit throws before anything is copied |
| SafeMultiLock.LockSet.constructor | src/Sodalite/src/Utilities/SafeMultiLock.cs:11 | the shared set starts empty |
| SafeMultiLock.Lock.constructor | src/Sodalite/src/Utilities/SafeMultiLock.cs:31-35 | a new lock shares the set and adds itself to it |
| SafeMultiLock.Lock.Dispose | src/Sodalite/src/Utilities/SafeMultiLock.cs:37-40 | disposing removes this lock and no other |
| SafeMultiLock.SafeMultiLock.constructor | src/Sodalite/src/Utilities/SafeMultiLock.cs:11 | a fresh empty set of locks |
| SafeMultiLock.SafeMultiLock.IsLocked | src/Sodalite/src/Utilities/SafeMultiLock.cs:16 | locked exactly while some lock is held |
| SafeMultiLock.SafeMultiLock.TakeLock | src/Sodalite/src/Utilities/SafeMultiLock.cs:22-25 | a new lock, distinct from every lock held, is added to the set |
| SafeMultiLock.HeldIff | src/Sodalite/src/Utilities/SafeMultiLock.cs:16-40 | after any run of takes and disposes, a lock is held exactly when it was taken and not disposed since |
| SafeMultiLock.UnlockedIffAllDisposed | src/Sodalite/src/Utilities/SafeMultiLock.cs:16-40 | the state is unlocked exactly when every lock taken has been disposed after it was taken |
| SafeMultiLock.DisposeTwice | src/Sodalite/src/Utilities/SafeMultiLock.cs:37-40 | disposing a lock twice leaves the same locks held as doing it once |
| SafeMultiLock.DisposeOnlyThat | src/Sodalite/src/Utilities/SafeMultiLock.cs:37-40 | disposing one lock leaves every other lock as it was |
| SafeMultiLock.Replay | src/Sodalite/src/Utilities/SafeMultiLock.cs:11-40 | a run of `TakeLock` and `Dispose` calls on the classes leaves in the shared set exactly the locks whose names `Held` gives for that run, and `IsLocked` is true exactly when `Held` is non-empty |
| SodaliteUtils.IndexFrom | src/Sodalite/src/Utilities/SodaliteUtils.cs:192 | `IndexOf('\n', start)` gives the first newline at or after `start`, or -1 exactly when there is none |
| SodaliteUtils.CountLines | src/Sodalite/src/Utilities/SodaliteUtils.cs:184-196 | null throws; otherwise the loop's count is `LineCount`: 0 for the empty string, else one more than the newlines |
| SodaliteUtils.Split | src/Sodalite/src/ModPanel/Pages/LogPage.cs:141 | the pieces between separators are never zero in number and hold no separator |
| SodaliteUtils.SplitJoin | src/Sodalite/src/ModPanel/Pages/LogPage.cs:141 | joining the pieces with the separator gives the string back |
| SodaliteUtils.JoinSplit | src/Sodalite/src/Utilities/JsonConverters.cs:25 | splitting separator-free pieces joined by the separator gives the pieces back |
| SodaliteUtils.SplitPlain | src/Sodalite/src/ModPanel/Pages/LogPage.cs:141 | a string without the separator is one piece |
| SodaliteUtils.SplitPrefix | src/Sodalite/src/ModPanel/Pages/LogPage.cs:141 | a separator-free piece before a separator splits off first |
| SodaliteUtils.SplitLength | src/Sodalite/src/ModPanel/Pages/LogPage.cs:141 | there is one piece more than there are separators |
| SodaliteUtils.CountLinesIsSplitLength | src/Sodalite/src/Utilities/SodaliteUtils.cs:184-196 | a non-empty string counts as many lines as splitting at newlines gives pieces |
| SodaliteUtils.CountLinesJoin | src/Sodalite/src/Utilities/SodaliteUtils.cs:184-196 | joining two non-empty texts with a newline adds their line counts |
| SodaliteUtils.HasFlagZero | src/Sodalite/src/Utilities/SodaliteUtils.cs:89-92 | nothing has the zero flag, and a value has itself exactly when it is not zero |
| SodaliteUtils.HasFlagUnion | src/Sodalite/src/Utilities/SodaliteUtils.cs:89-92 | a combined value has a flag exactly when one of its parts has it |
| SodaliteUtils.GetRandom | src/Sodalite/src/Utilities/SodaliteUtils.cs:97-105 | an empty list throws, and otherwise the result is an element of the list |
| SodaliteUtils.GetRandomReaches | src/Sodalite/src/Utilities/SodaliteUtils.cs:97-105 | every element of a non-empty list is the result for some draw |
| RangeStep.BaseClamp | src/Sodalite/src/ModPanel/AcceptableValueRangeStep.cs:25 | the plain clamp keeps a value in the range and moves any other to the nearer bound |
| RangeStep.RoundHalfEven | src/Sodalite/src/ModPanel/AcceptableValueRangeStep.cs:26 | `Math.Round` gives an integer within half a step of the quotient, the even one on a tie |
| RangeStep.RoundExact | src/Sodalite/src/ModPanel/AcceptableValueRangeStep.cs:26 | a whole number of steps rounds to itself |
| RangeStep.Clamp | src/Sodalite/src/ModPanel/AcceptableValueRangeStep.cs:23-28 | the result is always the minimum plus a whole number of steps |
| RangeStep.IsValid | src/Sodalite/src/ModPanel/AcceptableValueRangeStep.cs:31-35 | valid exactly when in range and a whole number of steps above the minimum; a zero step inside the range throws (division by zero) |
| RangeStep.MultipleIffNoRemainder | src/Sodalite/src/ModPanel/AcceptableValueRangeStep.cs:34 | no remainder exactly when the difference is a whole multiple of the step |
| RangeStep.ValidIsFixedPoint | src/Sodalite/src/ModPanel/AcceptableValueRangeStep.cs:23-35 | `Clamp` leaves every valid value where it is |
| RangeStep.ClampIsValid | src/Sodalite/src/ModPanel/AcceptableValueRangeStep.cs:23-35 | when the step divides the range's width, `Clamp` always gives a valid value |
| RangeStep.ClampLeavesRange | src/Sodalite/src/ModPanel/AcceptableValueRangeStep.cs:23-28 | as written: on `[0, 5]` with step 3, the value 5 clamps to 6, which is out of range and invalid |
| RangeStep.ClampWithinRangeIsValid | src/Sodalite/src/ModPanel/AcceptableValueRangeStep.cs:23-35 | with a positive step, the corrected clamp always gives a valid value and keeps every valid one |
| RangeStep.DescriptionRoundTrip | src/Sodalite/src/ModPanel/AcceptableValueRangeStep.cs:38 | the description names the minimum, the maximum and the step, and reading it gives them back |
| ConfigEntries.GetNames | src/Sodalite/src/ModPanel/Components/ConfigFieldEnum.cs:20 | `Enum.GetNames` lists the member names, one per member, in the order the runtime lists them (ascending unsigned underlying value) |
| ConfigEntries.GetValues | src/Sodalite/src/ModPanel/Components/ConfigFieldList.cs:21 | `Enum.GetValues` lists the member values, one per member, in the order the runtime lists them (ascending unsigned underlying value) |
| ConfigEntries.FirstWithValue | src/Sodalite/src/ModPanel/Components/ConfigFieldEnum.cs:25 | the first member with a value, or -1 exactly when none has it |
| ConfigEntries.GetName | src/Sodalite/src/ModPanel/Components/ConfigFieldEnum.cs:25 | `Enum.GetName` is null exactly for a value no member has, and otherwise the name of a member with that value |
| ConfigEntries.FirstNamed | src/Sodalite/src/ModPanel/Components/ConfigFieldEnum.cs:46 | the position of the member of a name, or -1 exactly when there is none |
| ConfigEntries.Parse | src/Sodalite/src/ModPanel/Components/ConfigFieldEnum.cs:46 | `Enum.Parse` throws `ArgumentException` exactly for an unknown name, and otherwise gives the value of the member of that name |
| ConfigEntries.ParseName | src/Sodalite/src/ModPanel/Components/ConfigFieldEnum.cs:45-46 | parsing a member's name gives that member's value |
| ConfigEntries.GetNameOfParsed | src/Sodalite/src/ModPanel/Components/ConfigFieldEnum.cs:25-46 | without aliases, the name of a parsed value is the name parsed |
| ConfigEntries.IndexOf | src/Sodalite/src/ModPanel/Components/ConfigFieldList.cs:32 | `IndexOf` gives the first position holding the item, or -1 exactly when it is absent |
| ConfigEntries.NameIndex | src/Sodalite/src/ModPanel/Components/ConfigFieldEnum.cs:26 | the index of a possibly null name: a position holding it, found whenever it is listed |
| ConfigEntries.ShownIndexOfParsed | src/Sodalite/src/ModPanel/Components/ConfigFieldEnum.cs:25-26 | without aliases, the index redrawn after writing a member's value is that member's position |
| ConfigEntries.ShownIndexWithAlias | src/Sodalite/src/ModPanel/Components/ConfigFieldEnum.cs:25-26 | with two names for one value, the redrawn index falls back to the first name |
| ConfigEntries.NextIndex | src/Sodalite/src/ModPanel/Components/ConfigFieldEnum.cs:32 | `(index + 1) % Length` moves one on and wraps from the last to the first |
| ConfigEntries.PreviousIndex | src/Sodalite/src/ModPanel/Components/ConfigFieldEnum.cs:38-39 | one back, and below the first to the last |
| ConfigEntries.NextPreviousInverse | src/Sodalite/src/ModPanel/Components/ConfigFieldEnum.cs:30-41 | `Next` and `Previous` undo each other on every index in range |
| ConfigEntries.NextCycles | src/Sodalite/src/ModPanel/Components/ConfigFieldEnum.cs:32 | repeated `Next` counts up and wraps once past the last |
| ConfigEntries.NextFullCircle | src/Sodalite/src/ModPanel/Components/ConfigFieldEnum.cs:32 | as many `Next` presses as there are items come back to the start |
| ConfigFieldEnum.EnumConfigField.constructor | src/Sodalite/src/ModPanel/Components/ConfigFieldEnum.cs:10-14 | no entry, no text, index 0 and no names |
| ConfigFieldEnum.EnumConfigField.Apply | src/Sodalite/src/ModPanel/Components/ConfigFieldEnum.cs:16-21 | the key and description are shown; a non-enum setting throws `InvalidOperationException` (the check at src/Sodalite/src/ModPanel/ConfigFieldBase.cs:33-41), otherwise the names are stored; the index stays until the next redraw |
| ConfigFieldEnum.EnumConfigField.Redraw | src/Sodalite/src/ModPanel/Components/ConfigFieldEnum.cs:23-28 | the text is the name of the entry's value and the index its position, -1 when no member has the value |
| ConfigFieldEnum.EnumConfigField.UpdateFromIndex | src/Sodalite/src/ModPanel/Components/ConfigFieldEnum.cs:43-48 | an index out of range throws before anything is written; otherwise the value parsed from the name is written and the index redrawn from it |
| ConfigFieldEnum.EnumConfigField.Next | src/Sodalite/src/ModPanel/Components/ConfigFieldEnum.cs:30-34 | with no names the modulo divides by zero; otherwise the name one on is written and the index redrawn |
| ConfigFieldEnum.EnumConfigField.Previous | src/Sodalite/src/ModPanel/Components/ConfigFieldEnum.cs:36-41 | with no names the index -1 throws; otherwise the name one back is written and the index redrawn |
| ConfigFieldEnum.NextMovesOneName | src/Sodalite/src/ModPanel/Components/ConfigFieldEnum.cs:30-48 | without aliases, `Next` moves one name on as the index arithmetic says |
| ConfigFieldEnum.NextStuckOnAlias | src/Sodalite/src/ModPanel/Components/ConfigFieldEnum.cs:30-48 | with two names for one value, `Next` from the first comes back to the first, never showing the alias |
| ConfigFieldList.ValuesOf | src/Sodalite/src/ModPanel/Components/ConfigFieldList.cs:20-28 | an enum cycles through all its values, an acceptable-values list through its entries, and anything else keeps the previous list |
| ConfigFieldList.ConfigFieldList.constructor | src/Sodalite/src/ModPanel/Components/ConfigFieldList.cs:12-14 | no entry, index 0 and no values, which satisfies the list invariant |
| ConfigFieldList.ConfigFieldList.Apply | src/Sodalite/src/ModPanel/Components/ConfigFieldList.cs:16-34 | the key and description are shown and the values taken; an empty list throws `ArgumentException`; otherwise the index is the current value's position, -1 when unlisted |
| ConfigFieldList.ConfigFieldList.Redraw | src/Sodalite/src/ModPanel/Components/ConfigFieldList.cs:36-39 | the text is the entry's current value; no entry throws |
| ConfigFieldList.ConfigFieldList.UpdateFromIndex | src/Sodalite/src/ModPanel/Components/ConfigFieldList.cs:54-58 | the value under the index is written and shown; an index out of range throws and writes nothing |
| ConfigFieldList.ConfigFieldList.Next | src/Sodalite/src/ModPanel/Components/ConfigFieldList.cs:41-45 | an empty list divides by zero; otherwise the value one on, around to the first, is written |
| ConfigFieldList.ConfigFieldList.Previous | src/Sodalite/src/ModPanel/Components/ConfigFieldList.cs:47-52 | one value back, around to the last; an empty list leaves the index -1 and throws |
| SodaliteEnumInput.SodaliteEnumInput.constructor | src/Sodalite/src/ModPanel/Components/SodaliteEnumInput.cs:10-14 | no entry, no text, index 0 and no names |
| SodaliteEnumInput.SodaliteEnumInput.Apply | src/Sodalite/src/ModPanel/Components/SodaliteEnumInput.cs:16-24 | a non-enum setting throws; otherwise the names are stored and the index and text move to the name of the current value |
| SodaliteEnumInput.SodaliteEnumInput.UpdateFromIndex | src/Sodalite/src/ModPanel/Components/SodaliteEnumInput.cs:39-44 | an index out of range throws and writes nothing; otherwise the name under the index is shown and its parsed value written |
| SodaliteEnumInput.SodaliteEnumInput.Next | src/Sodalite/src/ModPanel/Components/SodaliteEnumInput.cs:26-30 | with no names the modulo divides by zero; otherwise the index moves one on, around to the first, and that name is written |
| SodaliteEnumInput.SodaliteEnumInput.Previous | src/Sodalite/src/ModPanel/Components/SodaliteEnumInput.cs:32-37 | the index moves one back, around to the last; with no names reading it throws |
| ControlButtonToggle.SodaliteToggleButton.Awake | src/Sodalite/src/ModPanel/Components/ControlButtonToggle.cs:26-32 | the state starts at `BeginEnabled` and is shown; the graphic's tint is remembered, and stays all zero without a graphic; the toggled object starts inactive |
| ControlButtonToggle.SodaliteToggleButton.UpdateState | src/Sodalite/src/ModPanel/Components/ControlButtonToggle.cs:56-63 | the toggled object is active exactly when the state differs from `BeginEnabled`, and the graphic shows its tint when they agree and grey otherwise; absent parts are left alone |
| ControlButtonToggle.SodaliteToggleButton.SetState | src/Sodalite/src/ModPanel/Components/ControlButtonToggle.cs:38-44 | the current value changes and fires nothing; a new value is stored, shown and fired once |
| ControlButtonToggle.SodaliteToggleButton.ToggleState | src/Sodalite/src/ModPanel/Components/ControlButtonToggle.cs:49-54 | the state always flips, is shown and fires with the new value |
| ControlButtonToggle.SodaliteToggleButton.OnPoint | src/Sodalite/src/ModPanel/Components/ControlButtonToggle.cs:87-92 | a released trigger flips the state and fires once; otherwise nothing changes |
| ControlButtonToggle.SodaliteToggleButton.BeginHoverDisplay | src/Sodalite/src/ModPanel/Components/ControlButtonToggle.cs:68-72 | a hover enter is passed on to the button; the state, the fired values and the display stay |
| ControlButtonToggle.SodaliteToggleButton.EndHoverDisplay | src/Sodalite/src/ModPanel/Components/ControlButtonToggle.cs:77-81 | a hover exit is passed on to the button; the state, the fired values and the display stay |
| UniversalModPanel.InKeyOrderCovers | src/Sodalite/src/ModPanel/UniversalModPanel.cs:223-225 | the array built from a config file holds every entry, once per key, and nothing else |
| UniversalModPanel.Keys | src/Sodalite/src/ModPanel/UniversalModPanel.cs:252 | the keys of a dictionary kept in insertion order, one per pair |
| UniversalModPanel.RegisterMissingKeeps | src/Sodalite/src/ModPanel/UniversalModPanel.cs:267-275 | a plugin already registered keeps its entries |
| UniversalModPanel.RegisterMissingDomain | src/Sodalite/src/ModPanel/UniversalModPanel.cs:267-275 | a plugin ends up registered exactly when it was, or one of its config files has entries |
| UniversalModPanel.RegisterMissingEntries | src/Sodalite/src/ModPanel/UniversalModPanel.cs:267-275 | a plugin not registered before gets the entries of one of its config files, in key order |
| UniversalModPanel.EntriesInKeyOrder | src/Sodalite/src/ModPanel/UniversalModPanel.cs:222-225 | the `foreach` over the keys builds the entries in key order |
| UniversalModPanel.Registry.constructor | src/Sodalite/src/ModPanel/UniversalModPanel.cs:52-55 | the four static registries start empty |
| UniversalModPanel.Registry.RegisterPluginSettings | src/Sodalite/src/ModPanel/UniversalModPanel.cs:207-210 | the plugin's entries replace any earlier ones, and the other registries are untouched |
| UniversalModPanel.Registry.RegisterPluginSettingsFile | src/Sodalite/src/ModPanel/UniversalModPanel.cs:217-229 | an empty file registers nothing, any other file its entries in key order |
| UniversalModPanel.Registry.RegisterConfigField | src/Sodalite/src/ModPanel/UniversalModPanel.cs:236-239 | the field's predicate is set, replacing an earlier one |
| UniversalModPanel.Registry.RegisterCustomPage | src/Sodalite/src/ModPanel/UniversalModPanel.cs:248-253 | an empty identifier, a null page and a taken identifier throw and change nothing; otherwise the page is added |
| UniversalModPanel.Registry.AddHomepageButton | src/Sodalite/src/ModPanel/UniversalModPanel.cs:260-265 | empty button text, an empty target and button text already used throw and change nothing; otherwise the button is added |
| UniversalModPanel.Registry.RegisterUnregisteredPluginConfigs | src/Sodalite/src/ModPanel/UniversalModPanel.cs:267-275 | the loop skips registered plugins and registers the config file of any other, as `RegisterMissing` says |
| UniversalModPanel.AddAllSucceeds | src/Sodalite/src/ModPanel/UniversalModPanel.cs:74-87 | adding the pages succeeds exactly when their names are distinct and new |
| UniversalModPanel.AddAllContents | src/Sodalite/src/ModPanel/UniversalModPanel.cs:74-87 | after a successful add, each page is found under its name, the old ones are kept, and nothing else is there |
| UniversalModPanel.PanelPagesFound | src/Sodalite/src/ModPanel/UniversalModPanel.cs:70-87 | the panel wakes with its pages exactly when no two share a name, each prefab page under its object name and a copy of each custom page under its identifier |
| UniversalModPanel.BackUndoesNavigate | src/Sodalite/src/ModPanel/UniversalModPanel.cs:128-171 | Back undoes a navigation away from any page but the home page |
| UniversalModPanel.BackSkipsHome | src/Sodalite/src/ModPanel/UniversalModPanel.cs:128-171 | from the home page, Back after a navigation skips the home page |
| UniversalModPanel.HistoryDepth | src/Sodalite/src/ModPanel/UniversalModPanel.cs:128-171 | a navigation grows the history by at most one page and Back shrinks it by one |
| UniversalModPanel.DisplayNames | src/Sodalite/src/ModPanel/UniversalModPanel.cs:193 | the display names of the pages, in order |
| UniversalModPanel.JoinCons | src/Sodalite/src/ModPanel/UniversalModPanel.cs:193 | `string.Join` puts the separator between a head and a non-empty tail |
| UniversalModPanel.JoinSnoc | src/Sodalite/src/ModPanel/UniversalModPanel.cs:193-194 | `string.Join` puts the separator before one more part at the end |
| UniversalModPanel.BreadcrumbAfterNavigate | src/Sodalite/src/ModPanel/UniversalModPanel.cs:191-196 | as written, the page just left goes first in the breadcrumb, before the older history |
| UniversalModPanel.BreadcrumbOutOfOrder | src/Sodalite/src/ModPanel/UniversalModPanel.cs:191-196 | as written: home, then A, B and C, reads "B / A / C" |
| UniversalModPanel.Reversed | src/Sodalite/src/ModPanel/UniversalModPanel.cs:193 | the history in reverse, oldest first |
| UniversalModPanel.TrailAfterNavigate | src/Sodalite/src/ModPanel/UniversalModPanel.cs:191-196 | corrected: a navigation away from a page but home adds the new page at the end of the path |
| UniversalModPanel.TrailAfterBack | src/Sodalite/src/ModPanel/UniversalModPanel.cs:191-196 | corrected: Back removes the last page of the path and its separator |
| UniversalModPanel.TrailInOrder | src/Sodalite/src/ModPanel/UniversalModPanel.cs:191-196 | corrected: home, then A, B and C, reads "A / B / C" |
| UniversalModPanel.UniversalModPanel.constructor | src/Sodalite/src/ModPanel/UniversalModPanel.cs:57-59 | no pages, no history, no current page |
| UniversalModPanel.UniversalModPanel.NavigateHome | src/Sodalite/src/ModPanel/UniversalModPanel.cs:113-123 | the history is emptied and both buttons disabled; the page "Home" becomes current, and without one the lookup throws |
| UniversalModPanel.UniversalModPanel.NavigateBack | src/Sodalite/src/ModPanel/UniversalModPanel.cs:128-137 | with no history nothing changes; otherwise the top of the history becomes current and the breadcrumb is redrawn |
| UniversalModPanel.UniversalModPanel.Navigate | src/Sodalite/src/ModPanel/UniversalModPanel.cs:154-171 | Home becomes interactable; with no current page this throws; otherwise the current page is pushed unless it is home, and the page becomes current |
| UniversalModPanel.UniversalModPanel.NavigateTo | src/Sodalite/src/ModPanel/UniversalModPanel.cs:144-148 | an unknown name throws and changes nothing; otherwise it navigates to the page of that name |
| UniversalModPanel.UniversalModPanel.ClickHomepageButton | src/Sodalite/src/ModPanel/UniversalModPanel.cs:89-94 | a homepage button navigates to its target page by name |
| UniversalModPanel.UniversalModPanel.Awake | src/Sodalite/src/ModPanel/UniversalModPanel.cs:70-98 | the prefab pages and copies of the custom pages are added (a name taken twice throws), a button for each homepage button, and the panel goes home |
| UniversalModPanel.AddPages | src/Sodalite/src/ModPanel/UniversalModPanel.cs:74-87 | the two page loops compute `PanelPages` |
| LogEvents.Lines | src/Sodalite/src/ModPanel/Pages/LogPage.cs:134-141 | the lines `Split('\n')` cuts an event into are as many as the line count recorded for it |
| LogEvents.LinesAreSplit | src/Sodalite/src/ModPanel/Pages/LogPage.cs:141 | an event with text is drawn as exactly the pieces between its newlines |
| LogEvents.Filtered | src/Sodalite/src/ModPanel/Pages/LogPage.cs:103-110 | the cache rebuilt from the log holds exactly the logged events whose level the filter has, no more of them than were logged |
| LogEvents.FilteredAppend | src/Sodalite/src/ModPanel/Pages/LogPage.cs:88-91 | adding a matching event to the cache as it arrives keeps the cache equal to the filtered log; a non-matching one is not added |
| LogEvents.SetOrClearFlag | src/Sodalite/src/ModPanel/Pages/LogPage.cs:59-63 | a toggle switched on puts all of its levels in the filter, switched off takes them all out, and no other level changes |
| LogEvents.SetThenClear | src/Sodalite/src/ModPanel/Pages/LogPage.cs:59-63 | switching a toggle on and then off leaves the filter without the toggle's levels and otherwise as it was |
| LogEvents.ToggleLevel | src/Sodalite/src/ModPanel/Pages/LogPage.cs:46-49 | after a toggle, an event of one of its levels passes the filter exactly when the toggle is on, and other events pass as before |
| LogWindow.StartIndex | src/Sodalite/src/ModPanel/Pages/ModPanelLogPage.cs:48 | the first event shown lies `maxLines + offset` events before the end, or is the first event when there are fewer |
| LogWindow.Passes | src/Sodalite/src/ModPanel/Pages/ModPanelLogPage.cs:49-50 | the loop makes no pass at all or one fewer than `min(maxLines, count)` |
| LogWindow.Shown | src/Sodalite/src/ModPanel/Pages/ModPanelLogPage.cs:48-54 | the events drawn are as many as the loop makes passes |
| LogWindow.EntriesAppend | src/Sodalite/src/ModPanel/Pages/ModPanelLogPage.cs:50-54 | each pass appends the painted entry of one more event after those before it |
| LogWindow.AppendEntries | src/Sodalite/src/ModPanel/Pages/ModPanelLogPage.cs:50-54 | the loop gives the painted entries of the events it reads, in order, and the exception of reading past the end of the list when it does |
| LogWindow.RenderWindow | src/Sodalite/src/ModPanel/Pages/ModPanelLogPage.cs:47-57 | the text is the entries of the shown events followed by the footer, or the exception of an out-of-range read |
| LogWindow.ShownBound | src/Sodalite/src/ModPanel/Pages/ModPanelLogPage.cs:49-50 | never more than `maxLines - 1` events and never more than `count - 1` are drawn |
| LogWindow.ReadsInBounds | src/Sodalite/src/ModPanel/Pages/ModPanelLogPage.cs:48-52 | no read leaves the list for any offset of -1 or above |
| LogWindow.OffsetBelowMinusOneOverruns | src/Sodalite/src/ModPanel/Pages/ModPanelLogPage.cs:48-52 | an offset of -2 reads past the end and throws |
| LogWindow.NewestNeverShown | src/Sodalite/src/ModPanel/Pages/ModPanelLogPage.cs:48-52 | at any offset of 0 or above the newest event is never drawn |
| LogWindow.SingleEventShowsNothing | src/Sodalite/src/ModPanel/Pages/ModPanelLogPage.cs:49-56 | a log of one event draws no event while the footer claims lines 1 to `maxLines` |
| LogWindow.IntendedShown | src/Sodalite/src/ModPanel/Pages/ModPanelLogPage.cs:48-54 | the intended window holds no more events than the log and than `maxLines` |
| LogWindow.IntendedShowsNewest | src/Sodalite/src/ModPanel/Pages/ModPanelLogPage.cs:48-54 | at offset 0 the intended window holds the newest `min(maxLines, count)` events, ending with the newest |
| LogWindow.IntendedEndsAboveNewest | src/Sodalite/src/ModPanel/Pages/ModPanelLogPage.cs:48-54 | scrolled by `offset`, the intended window is the `maxLines` events that end `offset` events above the newest |
| LogWindow.IntendedExtendsShown | src/Sodalite/src/ModPanel/Pages/ModPanelLogPage.cs:49-50 | the intended window is the drawn events plus the one the loop bound leaves out |
| LogWindow.Direction | src/Sodalite/src/ModPanel/Pages/ModPanelLogPage.cs:30 | the scroll direction is the sign of the axis value: 0, 1 or -1 exactly when it is zero, positive or negative |
| LogWindow.ScrollOffset | src/Sodalite/src/ModPanel/Pages/ModPanelLogPage.cs:32 | with events, the offset after a scroll lies within the log and is the moved offset whenever that does |
| LogWindow.ScrollOnEmpty | src/Sodalite/src/ModPanel/Pages/ModPanelLogPage.cs:32 | with no events the clamp's crossed bounds give 0 for a sum below 0 and -1 otherwise |
| LogWindow.ScrollKeepsOffset | src/Sodalite/src/ModPanel/Pages/ModPanelLogPage.cs:32 | no scroll leaves the offset below -1 |
| LogWindow.ScrollUndo | src/Sodalite/src/ModPanel/Pages/ModPanelLogPage.cs:32 | away from both ends a scroll down undoes a scroll up |
| LogWindow.OffsetAfterEvent | src/Sodalite/src/ModPanel/Pages/ModPanelLogPage.cs:39 | a view at the bottom stays there; a scrolled view's offset grows by one |
| LogWindow.EventKeepsWindow | src/Sodalite/src/ModPanel/Pages/ModPanelLogPage.cs:36-41 | for a scrolled view, one event more and one offset more leave the first shown event where it was |
| LogWindow.EventKeepsOffset | src/Sodalite/src/ModPanel/Pages/ModPanelLogPage.cs:39 | no event takes the offset below -1, and the -1 of an empty scroll becomes 0 |
| LogPage.PaintAll | src/Sodalite/src/ModPanel/Pages/LogPage.cs:153 | each line becomes that line wrapped in its level's colour, one for one |
| LogPage.Painted | src/Sodalite/src/ModPanel/Pages/LogPage.cs:141-153 | an event is drawn as its painted lines, as many as its recorded line count |
| LogPage.Blocks | src/Sodalite/src/ModPanel/Pages/LogPage.cs:131-141 | every cached event becomes the block of its painted lines, one block per event |
| LogPage.WindowIsBlock | src/Sodalite/src/ModPanel/Pages/LogPage.cs:122-156 | the lines drawn are one unbroken run of the cache's lines, ending where the lines skipped by the offset begin |
| LogPage.WindowFills | src/Sodalite/src/ModPanel/Pages/LogPage.cs:124-156 | the window is filled: `MaxLines` lines, or every line above the offset when there are fewer |
| LogPage.WindowBound | src/Sodalite/src/ModPanel/Pages/LogPage.cs:124-155 | no event is started once `MaxLines` lines are out, so the window exceeds `MaxLines` by less than the longest event |
| LogPage.WindowOvershoots | src/Sodalite/src/ModPanel/Pages/LogPage.cs:124-155 | a three-line event in a two-line window is drawn whole |
| LogPage.KeepsPosition | src/Sodalite/src/ModPanel/Pages/LogPage.cs:82-94 | when a matching event arrives, a view scrolled by its line count more draws exactly the lines it drew before |
| LogPage.FilteredEventMovesView | src/Sodalite/src/ModPanel/Pages/LogPage.cs:85-91 | an event the filter holds back still moves a scrolled view by its lines |
| LogPage.TerminatedJoin | src/Sodalite/src/ModPanel/Pages/LogPage.cs:153-159 | removing the final newline leaves the drawn lines joined with newlines |
| LogPage.PrependEvent | src/Sodalite/src/ModPanel/Pages/LogPage.cs:141-155 | an event's lines above the ones still to skip go in front of the text, in order and newline-terminated, and nothing remains to skip |
| LogPage.WalkIsWindow | src/Sodalite/src/ModPanel/Pages/LogPage.cs:124-156 | walking the events from the newest draws the window of the lines above the offset |
| LogPage.EmitEvent | src/Sodalite/src/ModPanel/Pages/LogPage.cs:127-155 | one pass drops an event skipped whole or puts its unskipped lines in front of the text, keeping the text equal to the lines counted |
| LogPage.RenderLines | src/Sodalite/src/ModPanel/Pages/LogPage.cs:120-156 | the loop's text is the newline-terminated window of the cache at the offset |
| LogPage.Render | src/Sodalite/src/ModPanel/Pages/LogPage.cs:120-160 | the text drawn is the window's lines joined by newlines |
| LogPage.UniversalModPanelLogPage.constructor | src/Sodalite/src/ModPanel/Pages/LogPage.cs:24-34 | a new page is at the bottom, with no build-up, an empty cache and no text |
| LogPage.UniversalModPanelLogPage.UpdateText | src/Sodalite/src/ModPanel/Pages/LogPage.cs:116-161 | an inactive page keeps its text unless forced; otherwise the text becomes the window of the cache at the offset |
| LogPage.UniversalModPanelLogPage.RebuildFilterCache | src/Sodalite/src/ModPanel/Pages/LogPage.cs:96-114 | the page goes back to the bottom with the cache equal to the filtered log, and is redrawn even while inactive |
| LogPage.UniversalModPanelLogPage.LogEvent | src/Sodalite/src/ModPanel/Pages/LogPage.cs:82-94 | a scrolled view's offset grows by the event's lines, matching or not; a matching event joins the cache, which stays equal to the filtered log |
| LogPage.UniversalModPanelLogPage.ScrollLimit | src/Sodalite/src/ModPanel/Pages/LogPage.cs:75 | the top of the scroll is the cache's event count less `MaxLines - 1`, or 0 when that is lower |
| LogPage.UniversalModPanelLogPage.Scroll | src/Sodalite/src/ModPanel/Pages/LogPage.cs:66-80 | below one line of build-up nothing moves; otherwise the offset moves by the build-up's whole part within 0 and the top, and the build-up loses one line toward zero |
| LogPage.UniversalModPanelLogPage.SetOrClearFlag | src/Sodalite/src/ModPanel/Pages/LogPage.cs:59-63 | the filter setting gains or loses the toggle's levels; a change rebuilds the cache from the log at the bottom, no change leaves the page alone |
| LogPage.UniversalModPanelLogPage.Start | src/Sodalite/src/ModPanel/Pages/LogPage.cs:36-56 | every toggle shows whether the filter has its levels, and the page is built from the filtered log at the bottom |
| ModPanelLogPage.UniversalModPanelLogPage.constructor | src/Sodalite/src/ModPanel/Pages/ModPanelLogPage.cs:23-26 | a new page has no events, no offset and no text |
| ModPanelLogPage.UniversalModPanelLogPage.UpdateText | src/Sodalite/src/ModPanel/Pages/ModPanelLogPage.cs:43-58 | without events the text stays; with them it becomes the window text, and no read fails |
| ModPanelLogPage.UniversalModPanelLogPage.Scroll | src/Sodalite/src/ModPanel/Pages/ModPanelLogPage.cs:28-34 | with events and a direction the offset becomes the clamped scroll and the window is redrawn; otherwise nothing changes |
| ModPanelLogPage.UniversalModPanelLogPage.LogEvent | src/Sodalite/src/ModPanel/Pages/ModPanelLogPage.cs:36-41 | the offset follows a new event and the window is redrawn |
| BepInExLogPanel.FontChoice | src/Sodalite/src/BepInExLogPanel.cs:63 | the configured font when the system has it, Consolas otherwise |
| BepInExLogPanel.FirstDirectionDecides | src/Sodalite/src/BepInExLogPanel.cs:119-135 | there is no scroll exactly when every hand is within the quiet band; otherwise the first hand outside it decides the sign |
| BepInExLogPanel.PickDirection | src/Sodalite/src/BepInExLogPanel.cs:119-135 | the loop over the hands gives the direction of the first decisive hand |
| BepInExLogPanel.BepInExLogPanel.constructor | src/Sodalite/src/BepInExLogPanel.cs:20-27 | a new panel has no events, settings or widget, and no offset |
| BepInExLogPanel.BepInExLogPanel.UpdateText | src/Sodalite/src/BepInExLogPanel.cs:91-106 | once the events, the line setting and the widget are there, the widget's text becomes the window text without a failing read; otherwise nothing changes |
| BepInExLogPanel.BepInExLogPanel.CreateWithExisting | src/Sodalite/src/BepInExLogPanel.cs:39-75 | the panel takes the log, binds its three settings with their defaults, and returns a fresh scrolling pointable bound to it |
| BepInExLogPanel.BepInExLogPanel.Scroll | src/Sodalite/src/BepInExLogPanel.cs:77-82 | with events and a direction the offset becomes the clamped scroll and the text is redrawn; otherwise nothing changes |
| BepInExLogPanel.BepInExLogPanel.LogEvent | src/Sodalite/src/BepInExLogPanel.cs:84-89 | the offset follows a new event and the text is redrawn |
| BepInExLogPanel.ScrollPointable.constructor | src/Sodalite/src/BepInExLogPanel.cs:111-112 | a new pointable has no panel and no scroll time |
| BepInExLogPanel.ScrollPointable.OnHoverDisplay | src/Sodalite/src/BepInExLogPanel.cs:116-139 | without a panel or within the pause nothing happens; otherwise the time is recorded and the panel scrolls as the first decisive hand asks |
| GizmosInstance.Element.constructor | src/Sodalite/src/Gizmos/Element.cs:7-9 | a new element has an empty points array, is white and is not dashed |
| GizmosInstance.Grow | Sodalite/src/Gizmos/GizmosInstance.cs:133-140 | the grown queue is a new array 4096 longer, with every old element in its old slot and a distinct fresh element in every new slot |
| GizmosInstance.Drawn | Sodalite/src/Gizmos/GizmosInstance.cs:225-235 | the slots drawn are, in increasing order, exactly those below the bound that pass the frustum test when culling is on |
| GizmosInstance.DrawLoop | Sodalite/src/Gizmos/GizmosInstance.cs:225-235 | the draw loop stops at the index or at the end of the queue, whichever comes first, and draws the slots that pass the test |
| GizmosInstance.GizmosInstance.constructor | Sodalite/src/Gizmos/GizmosInstance.cs:32-34 | a new instance has a queue of 4096 slots, index 0 and frame 0 |
| GizmosInstance.GizmosInstance.OnEnable | Sodalite/src/Gizmos/GizmosInstance.cs:149-159 | the queue becomes 4096 fresh distinct elements while the index and the frame are kept |
| GizmosInstance.GizmosInstance.Submit | Sodalite/src/Gizmos/GizmosInstance.cs:120-147 | a new frame restarts at slot 0; a full queue grows by 4096 with old slots kept; exactly the written slot gets the colour (white for none), the caller's points array and the dashed flag, and the index moves by one; a write past the end throws |
| GizmosInstance.GizmosInstance.OnRendered | Sodalite/src/Gizmos/GizmosInstance.cs:193-235 | disabled rendering resets the index to 0; a camera that should not render draws nothing; otherwise only slots below both the index and the queue length are drawn |
| Gizmos.Gizmos.constructor | src/Sodalite/src/Gizmos/Gizmos.cs:22-59 | the buffer is allocated once with the initial `BufferSize` of 4096, and drawing starts enabled |
| Gizmos.Gizmos.SetBufferSize | src/Sodalite/src/Gizmos/Gizmos.cs:22 | setting `BufferSize` records the number and leaves the buffer's length and contents alone |
| Gizmos.Gizmos.SetEnabled | src/Sodalite/src/Gizmos/Gizmos.cs:27 | `Enabled` takes the value and nothing else changes |
| Gizmos.Gizmos.Draw | src/Sodalite/src/Gizmos/Gizmos.cs:64-78 | disabled or without a drawer nothing is submitted; otherwise a fresh array holding exactly the drawer's points is submitted, and a drawer or queue error is thrown |
| Gizmos.Gizmos.Line | src/Sodalite/src/Gizmos/Gizmos.cs:93-96 | an enabled line submits a fresh array of exactly its two end points |
| Gizmos.Gizmos.Lines | src/Sodalite/src/Gizmos/Gizmos.cs:83-88 | disabled nothing is submitted; otherwise the caller's own array is queued, not a copy |
| LineDrawer.Unbox | src/Sodalite/src/Gizmos/LineDrawer.cs:10 | unboxing succeeds exactly for a boxed vector and gives that vector; null and other types throw |
| LineDrawer.LinePoints | src/Sodalite/src/Gizmos/LineDrawer.cs:10-12 | a line exists exactly when the first two arguments are vectors, and its points are those two |
| LineDrawer.Draw | src/Sodalite/src/Gizmos/LineDrawer.cs:8-13 | the first two slots get the two points and 2 is returned, every other slot is left as it was; a bad argument throws after the slots written before it |
| LiveObjects.IndexOf | src/Sodalite/src/Utilities/VaultUtils.cs:105-106 | the first position of an item, and -1 exactly when the list does not hold it |
| Mods.VersionTextRoundTrip | src/Sodalite/src/Api/Mods.cs:110 | the text `Major.Minor.Patch` of a version determines it: reading it back gives the same three numbers |
| Mods.TwoPartVersion | src/Sodalite/src/Api/Mods.cs:112-115 | a plugin version of two parts becomes patch -1, written `1.0.-1` |
| Mods.ConversionKeepsBuild | src/Sodalite/src/Api/Mods.cs:112-115 | the conversion from a plugin version keeps major and minor and makes the build number the patch |
| Mods.OrphanName | src/Sodalite/src/Api/Mods.cs:73-75 | a plugin of no package is given the package name `Unknown-` followed by its own name |
| Mods.ThunderstorePackage.constructor | src/Sodalite/src/Api/Mods.cs:149-155 | the internal constructor records the four values, with the package not enabled and without plugins |
| Mods.ThunderstorePackage.Name | src/Sodalite/src/Api/Mods.cs:119 | the name is the author, a dash and the display name |
| Mods.ThunderstorePackage.ToString | src/Sodalite/src/Api/Mods.cs:142 | the text is the name, a dash, and a version text that reads back as the package's version |
| Mods.TrimStartSpec | src/Sodalite/src/Api/Mods.cs:59 | trimming drops exactly the leading separators and leaves a suffix that does not start with one |
| Mods.DirectoryNameSpec | src/Sodalite/src/Api/Mods.cs:62 | the directory of a path is an error exactly for the empty path, empty without a separator, and otherwise the part before the last separator |
| Mods.PackageDirectoryFails | src/Sodalite/src/Api/Mods.cs:58-62 | the package directory fails exactly for a location shorter than the plugins root, or one with nothing but separators after it |
| Mods.InstalledPackageDirectory | src/Sodalite/src/Api/Mods.cs:57-62 | an assembly in a directory of its own under the plugins root belongs to the package named like that directory |
| Mods.RootPluginDirectory | src/Sodalite/src/Api/Mods.cs:57-63 | an assembly straight in the plugins root has no package directory |
| Mods.KeyedDomain | src/Sodalite/src/Api/Mods.cs:39-42 | a name is a key of the manifest exactly when some installed package has that name |
| Mods.KeyedLast | src/Sodalite/src/Api/Mods.cs:39-42 | a name holds the last installed package of that name: a later duplicate overwrites an earlier one |
| Mods.KeyByName | src/Sodalite/src/Api/Mods.cs:39-42 | the manifest loop keys every installed package by its name, later ones overwriting earlier ones |
| Mods.ModsApi.constructor | src/Sodalite/src/Api/Mods.cs:15-22 | the three registries start empty |
| Mods.ModsApi.Place | src/Sodalite/src/Api/Mods.cs:63-77 | a plugin whose directory names a known package joins it; any other gets a fresh orphan package of its own, stored by its name, and is mapped to it |
| Mods.ModsApi.JoinPackage | src/Sodalite/src/Api/Mods.cs:63-68 | a plugin joins a known package: it is appended to the package's plugins and mapped to the package, and nothing else changes |
| Mods.ModsApi.AddOrphan | src/Sodalite/src/Api/Mods.cs:69-77 | an orphan plugin gets a fresh package named `Unknown`-its name, holding only it, not enabled, with its version, stored under that name |
| Mods.ModsApi.MatchPlugin | src/Sodalite/src/Api/Mods.cs:54-77 | a plugin is listed, its directory is worked out, which may throw, and otherwise it ends up in the lookup; no package name is lost |
| Mods.ModsApi.MatchAll | src/Sodalite/src/Api/Mods.cs:52-78 | the loop lists and maps every plugin, or stops after the first whose directory cannot be worked out, with that exception |
| Mods.ModsApi.Discover | src/Sodalite/src/Api/Mods.cs:24-78 | after clearing, every manifest name is a key, and every plugin is listed and in the lookup, unless the first plugin whose directory fails ends the loop with its exception |
| Game.OfType | src/Sodalite/src/Api/Game.cs:95-96 | the resources of exactly one type: every one of them is of that type and came in, and every one of that type that came in is there |
| Game.InjectAllLists | src/Sodalite/src/Api/Game.cs:36-42 | after any injections, the list of a type is exactly its resources in the order they were injected |
| Game.InjectAllDomain | src/Sodalite/src/Api/Game.cs:38-41 | a type has a list exactly when a resource of that exact type was injected |
| Game.GameApi.constructor | src/Sodalite/src/Api/Game.cs:20 | no resource is injected at first |
| Game.GameApi.InjectResource | src/Sodalite/src/Api/Game.cs:36-42 | the resource goes at the end of the list of its exact runtime type, created if missing, and no other list changes |
| Game.GameApi.LoadAll | src/Sodalite/src/Api/Game.cs:89-100 | the loaded result starts with what the game loaded and ends with the injected resources of that exact type, if there are any |
| Game.GameApi.LoadAllAppendsInjected | src/Sodalite/src/Api/Game.cs:89-100 | loading a type appends every resource ever injected with exactly that type, in injection order, and nothing else |
| Game.GameApi.UninjectedTypeUnchanged | src/Sodalite/src/Api/Game.cs:95-99 | a type nothing was injected for loads only what the game loaded |
| LockablePanel.GetCleanLockablePanel | src/Sodalite/src/Api/LockablePanel.cs:18-23 | each call gives a fresh live panel with the default texture |
| LockablePanel.AppliedTexture | src/Sodalite/src/Api/LockablePanel.cs:86-90 | a new panel's tablet gets the override exactly when it is present and alive |
| LockablePanel.LockablePanel.constructor | src/Sodalite/src/Api/LockablePanel.cs:58-71 | a new lockable panel has no panel, no override and no handler |
| LockablePanel.LockablePanel.Subscribe | src/Sodalite/src/Api/LockablePanel.cs:71 | adding a handler changes nothing but that there is one |
| LockablePanel.LockablePanel.SetTextureOverride | src/Sodalite/src/Api/LockablePanel.cs:64 | setting the override changes nothing else |
| LockablePanel.LockablePanel.GetOrCreatePanel | src/Sodalite/src/Api/LockablePanel.cs:77-97 | a live panel is returned unchanged and nothing fires; otherwise a fresh panel becomes current, gets the live override, and `Configure` fires once with it after the texture is applied |
| LockablePanelLegacy.GetCleanLockablePanelFrom | Sodalite/src/Api/LockablePanel.cs:23-32 | throws the too-early exception exactly when the wrist menu is missing or destroyed, and otherwise gives a fresh live panel |
| LockablePanelLegacy.LegacyLockablePanel.constructor | Sodalite/src/Api/LockablePanel.cs:60-63 | a new lockable panel has no panel, no override and no handler |
| LockablePanelLegacy.LegacyLockablePanel.Subscribe | Sodalite/src/Api/LockablePanel.cs:63 | adding a handler changes nothing but that there is one |
| LockablePanelLegacy.LegacyLockablePanel.SetTextureOverride | Sodalite/src/Api/LockablePanel.cs:62 | setting the override changes nothing else |
| LockablePanelLegacy.LegacyLockablePanel.GetOrCreatePanel | Sodalite/src/Api/LockablePanel.cs:69-89 | a live panel is returned and nothing fires; without a wrist menu the exception leaves everything as it was; otherwise a fresh panel becomes current and `Configure` fires once |
| SodalitePatcher.SteamIdBaseWords | src/Sodalite.Patcher/SodalitePatcher.cs:38-40 | the base constant has a zero low word and the high word `0x01100001` |
| SodalitePatcher.SessionIdWords | src/Sodalite.Patcher/SodalitePatcher.cs:33-40 | the session ID's low 32 bits are the random number and its high 32 bits are `0x01100001` |
| SodalitePatcher.SessionIdInjective | src/Sodalite.Patcher/SodalitePatcher.cs:34-40 | distinct random numbers give distinct session IDs |
| SodalitePatcher.ContainsOccurs | src/Sodalite.Patcher/SodalitePatcher.cs:67 | a line contains the setting exactly when the setting occurs at some position of it |
| SodalitePatcher.SpoofRequestedIff | src/Sodalite.Patcher/SodalitePatcher.cs:63-67 | the hook is asked for exactly when the configuration file exists and one of its lines contains the setting |
| SodalitePatcher.AnyLineSpoofsIff | src/Sodalite.Patcher/SodalitePatcher.cs:66-67 | some line holds the setting exactly when one line at some index contains it |
| SodalitePatcher.NoConfigNoHook | src/Sodalite.Patcher/SodalitePatcher.cs:63-67 | a missing or empty configuration file asks for no hook |
| SodalitePatcher.Patcher.constructor | src/Sodalite.Patcher/SodalitePatcher.cs:28-41 | the session ID is the random number combined with the base, and the getter is not hooked |
| SodalitePatcher.Patcher.SteamId | src/Sodalite.Patcher/SodalitePatcher.cs:89 | once hooked the getter returns the session ID, before that the real ID |
| SodalitePatcher.Patcher.CheckSpoofSteamUserID | src/Sodalite.Patcher/SodalitePatcher.cs:46-87 | without the firstpass assembly or when native loading throws nothing changes; otherwise a requested spoof hooks the getter to the session ID, and no request sets the session ID to what the getter returns: the real ID before the hook, the session ID itself once hooked |
| SodalitePatcher.LogBuffer.constructor | src/Sodalite.Patcher/SodalitePatcher.cs:104-109 | a new buffer holds no events |
| SodalitePatcher.LogBuffer.LogEvent | src/Sodalite.Patcher/SodalitePatcher.cs:116-122 | each event is kept at the end in arrival order, and only the chainloader's start message runs the spoof check; after it the game sees the session ID when spoofing is requested or the getter was already hooked, and the real ID otherwise |
| Formatting.IntToStringRoundTrip | src/Sodalite/src/Api/Mods.cs:110 | the decimal text of any number, negative ones included, reads back as that number |
| CsArith.MathfClamp | src/Sodalite/src/ModPanel/Pages/LogPage.cs:75 | the clamp returns the value inside the bounds, a bound outside them, and the upper bound when the bounds cross and the value is not below the lower |
| CsArith.TruncToInt | src/Sodalite/src/ModPanel/Pages/LogPage.cs:75 | the cast drops the fraction toward zero |

## Left out

- Native memory patching: `FixPluginTypesSerialization.cs`, and the detour and `DynDll` plumbing of `SodalitePatcher.cs`, work on raw native memory and process offsets. The patcher keeps only the outcome: the `nativeLoads` flag and the `hooked` field.
- Pose arithmetic: `GetPositionRelativeToGun`, `LookRotation`, mount transforms, `Math3D.cs` and the float range step are float and quaternion math. Poses are opaque values that are only copied and compared.
- The `yield return` load barrier of the vault spawn is a coroutine. The model takes every requested load as completed, and the loaded prefabs are a parameter.
- `FVRObjectExtensions.GetAllAttachedObjects` is called but its body is not part of this model. Its result is the parameter `detected`, which is required to start with the firearm.
- `GetRandom` draws from Unity's `Random`. The drawn number is a parameter `draw`, reduced into the list's range. An empty list is an error.
- Unity object lifetime becomes an `alive` flag. `Instantiate` is a fresh object, and `Destroy` clears the flag. `CleanPanel`'s hierarchy edits of the lockable panel are left out, because they only touch transforms and components of the copy.
- Renderer objects are not modelled: the GL calls, the material, dash subdivision and camera setup of `GizmosInstance.OnRendered`. `ShouldRenderCamera` and the frustum test are parameters (`shouldRender`, `visible`).
- `GizmosInstance.GetOrCreate`'s scene search for an existing instance is left out. The model passes one queue to the `Gizmos` object.
- `Gizmos.Update` draws `Line(default, default)` each frame for debugging. This is just one more call to `Line`.
- The drawers other than `LineDrawer` (squares, cubes, polygons, spheres and the rest) need trigonometry. `Drawer.Get<T>()`'s reflection lookup is an `Option<DrawerKind>` parameter.
- The `Material`, `DashGap`, `Offset`, `Pass` and `FrustumCulling` properties are plain field accessors and are left out.
- `UniversalModPanel.GetPageOfType` is a reflection lookup and is left out. Unity layout is left out: fonts, `RectTransform`s, prefab instantiation of the homepage buttons, and the pagination bar text.
- C# events and listener registration are kept as logs of invocations (`OnValueChanged`, `Configure`, the set's change events). How handlers are subscribed to `Logger.Listeners`, `Camera.onPostRender` and the UI buttons is left out, as is `LogBuffer.Dispose`.
- `src/Sodalite.Patcher/LogBuffer.cs` is a second, bare listener that only appends. It is left out; the `LogBuffer` of `SodalitePatcher.cs` is modelled.
- Static classes with static state (`ModsAPI`, `GameAPI`, the mod panel's registries, `SafeMultiLock`'s lock set, the patcher) are each one object. Two callers that share one static field share one object of the model.
- `PluginInfo` and the other host objects used as dictionary keys are compared as values, not by reference.
- `SerializableVault.SavedGunSerializable.Copy`: the constructor keeps the file's own `LoadedRoundsInMag`, `LoadedRoundsInChambers` and `SavedFlags` lists (src/Sodalite/src/SerializableObjects/SavedGunSerializable.cs:82-84), and each component keeps its `Flags` dictionary (:293). The model holds these as `seq` and `map` values. It does not capture that the file and the serializable object share one list, so a change made through one is seen through the other. The same holds for `LegacySerializableVault.SavedGunSerializable.Copy`.
- `SerializableVault.GetSavedGunAfterSerialize`: `GetSavedGun` hands the same list and dictionary objects back to the new `SavedGun` (:96-98, :310). The model returns equal values, not shared ones, so it does not capture changes made later through the returned file or through the serializable object. The same holds for `LegacySerializableVault.GetSavedGunAfterSerialize`.
- `MagazineSelection.GetCompatibleMagazines`: with no blacklist and open bounds, the source returns the catalog entry's own `CompatibleMagazines` list (Sodalite/src/Utilities/FirearmUtils.cs:30). The model returns an equal `seq`. It does not capture that a caller who adds to or removes from that result changes the catalog entry. The same holds for `MagazineSelection.CompatibleMagazinesAsWritten` and `MagazineSelection.CompatibleMagazines`.
- In `Mods.cs`, paths are compared after `Path.GetFullPath` normalisation, which the model takes as already done. Only `Path.DirectorySeparatorChar` is modelled as a separator, not the `/` alternative.
- The YAML read of `mods.yml` is left out: the installed packages are an `Option` parameter, none when the file is missing. The diagnostic log messages of `Discover` are left out.
- `GameAPI.PreloadAllAssets` loads asset bundles, and `BetaName` and `BuildId` are read from host files. They are left out.
- From `SodaliteUtils.cs`, the texture and resource loading, `TryCatch`, `AsRGBA` and `IsInstanceOfGenericType` are left out as I/O, colour math or reflection. `HasFlag` is modelled once for all its copies.
- `SodaliteUtils.HasFlag`: the values are taken as 32-bit patterns, so the `OverflowException` that `Convert.ToInt32` raises for a `uint`- or `long`-backed value outside the `int` range is not modelled. The callers in this code pass `int`-backed enums.
- `LogEvents.LogEvent`: an event's level is one of the six single levels. BepInEx's `LogLevel` is a flags enum, and `ManualLogSource.Log` also accepts `None`, `All` and combinations. For such an event the `LogColors[evt.Level]` lookup throws `KeyNotFoundException` (LogPage.cs, ModPanelLogPage.cs and BepInExLogPanel.cs), and the filter `(evt.Level & filter) != 0` passes it when any one of its bits is set. The model does not capture either.
- `ConfigFieldEnum.EnumConfigField.UpdateFromIndex`, `ConfigFieldList.ConfigFieldList.UpdateFromIndex` and `SodaliteEnumInput.SodaliteEnumInput.UpdateFromIndex`: `BoxedValue` is a plain field. The BepInEx setter first clamps the value through the entry's `AcceptableValues`, and raises `SettingChanged` only when the value changes. The write is exact for an enum setting with no acceptable values and for a list setting, whose values the clamp leaves alone. It is not exact for an enum setting that carries a range or a custom `AcceptableValueBase`, and the `SettingChanged` event is not modelled.
- `ConfigEntries.ValueText`: for a `[Flags]` enum, `ToString()` of a value that combines several members gives their names joined by ", ". The model gives the number for any value no single member has.
- `Enum.Parse` and `Enum.GetNames` are a partial map from names to values, given by the caller.
- `GetFirearmChambers`'s list of concrete firearm classes is host type dispatch. The model keeps the firearm kind as a tag, and keeps the empty default case.
- Time is a parameter: `Time.time` in `ScrollPointable.OnHoverDisplay`, and `Time.frameCount` in the gizmo queue.
- `Environment.NewLine` is taken as `"\r\n"`, as on Windows where the game runs.
- `RangeStep.Clamp`: the `float` quotient and `Math.Round` are taken on exact rationals, so `float` rounding error for very large ranges is not modelled.
- `LogPage.UniversalModPanelLogPage.Scroll`: the scroll amount and `_scrollValue` are exact reals, so `float` accumulation error is not modelled.
- `CsArith.TruncToInt`: the result of a cast of a value outside the `int` range is not modelled; the callers only pass small values.
- `GizmosInstance.GizmosInstance.Submit`: the queue index and array lengths are unbounded, so no 32-bit overflow of `_queueIndex` is modelled.
- `Gizmos.Gizmos.Draw`: only the line drawer is modelled, so its contract covers that drawer's argument check and buffer writes.
- `VaultSpawn.TakeComponent`: `ConfigureFromFlagDic` is game code. The model records which flag dictionary each object is configured from (`configured`), not what the object then does with it. Every prefab is taken to carry an `FVRPhysicalObject`, so the null reference a prefab without one would raise is not modelled.
- `RangeStep.Clamp`: `MinValue + steps * Step` and the range width are unbounded integers, so `int` wrap-around for ranges near the 32-bit limits is not modelled.
- `ConfigEntries.NextIndex`: `_index + 1` is an unbounded integer. The index stays within a list's length, so the 32-bit wrap-around is never reached from a valid state; it is not modelled.
- `LockablePanel.GetCleanLockablePanel`: the newer copy instantiates `GM.CurrentOptionsPanel` without a check. The exception that `Object.Instantiate(null)` raises before the options panel exists is not modelled, and a panel is always made.

## Findings

| source | as written | input that shows it | evidently intended | confidence | as-written member | corrected member |
|---|---|---|---|---|---|---|
| src/Sodalite/src/Api/Firearm.cs:88-93 | the next-highest capacity filter is `capacity >= currentCap` | a pool holding one magazine, asked for a capacity step above that magazine's own capacity: the same magazine comes back | a strictly larger capacity (`>`) | not executed | Firearm.NextHighestReturnsSameCapacity | Firearm.NextHighestCapacityMagazineStrict |
| Sodalite/src/Utilities/FirearmUtils.cs:135-173 | `GetNextHighestCapacityMagazine` adds the first candidate twice, throws when every candidate is blacklisted, and can return a smaller magazine | current capacity 10 and candidates of capacity 5 and 15: the 5 comes back. A single candidate that is blacklisted: reading the first entry of the empty list throws | the smallest magazine above the current capacity, or null when there is none | not executed | MagazineSelection.NextHighestReturnsSmaller | MagazineSelection.NextHighestCapacityMagazine |
| Sodalite/src/Utilities/FirearmUtils.cs:21-55 | `GetCompatibleMagazines` keeps scanning after a `RemoveAt`, and ignores `smallestIfEmpty` | a single compatible magazine that is blacklisted: it is removed, and its position is read again, which throws. With `smallestIfEmpty` false and bounds that exclude the only magazine, the smallest one still comes back | the compatible magazines within the bounds, minus the blacklisted ones, with the smallest as a fallback only when `smallestIfEmpty` is set | not executed | MagazineSelection.CompatibleMagazinesThrows | MagazineSelection.CompatibleMagazines |
| src/Sodalite/src/ModPanel/AcceptableValueRangeStep.cs:23-28 | `Clamp` rounds to the nearest step after clamping | range [0, 5] with step 3 and value 5: the result is 6, outside the range | the nearest valid step inside the range | not executed | RangeStep.ClampLeavesRange | RangeStep.ClampWithinRangeIsValid |
| src/Sodalite/src/ModPanel/Pages/ModPanelLogPage.cs:48-54 | the window loop runs to `min(MaxLines, count) - 1`, so it ends one event early | one logged event at offset 0: only the footer is shown | the newest events, up to `MaxLines`, are shown | not executed | LogWindow.NewestNeverShown | LogWindow.IntendedShowsNewest |
| src/Sodalite/src/ModPanel/UniversalModPanel.cs:191-196 | the breadcrumb joins the history stack in its enumeration order, newest first | Home, then A, B and C: the breadcrumb reads `B / A / C` | the trail from the oldest page to the current one | not executed | UniversalModPanel.BreadcrumbOutOfOrder | UniversalModPanel.TrailInOrder |
