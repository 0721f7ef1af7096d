# ProjectMER object registry and lifecycle, in Dafny

This project models the object registry of the ProjectMER map editor and the life cycle of the objects it spawns:

- **MapSchematic** is a named map. It holds twelve `id -> descriptor` dictionaries, one per object kind: Primitives, Lights, Doors, Workstations, ItemSpawnpoints, PlayerSpawnpoints, Capybaras, Texts, Scp079Cameras, ShootingTargets, Schematics and Teleports. It also holds an `IsDirty` flag and `SpawnedObjects`, the list of live handles spawned from it. The model covers adding, removing, merging, reloading, spawning by id and destroying by id.
- **MapEditorObject** is a live handle. It binds a descriptor, a map name, an id and a room. Its update protocol has two paths:
  - refresh every handle with the same id in place;
  - destroy every handle with the id now, then respawn them in a deferred step and restore the player's selection.
- **IndicatorObject** keeps a static table binding indicator markers to handles. It provides spawn-or-update, lookup, destroy, clear and refresh.

## Layout

- `sequences.dfy` (module `Sequences`): small generic facts about sequence slicing and concatenation, used by the proofs.
- `descriptors.dfy` (module `Descriptors`): the values.
  - The twelve kinds, the descriptor, and the twelve dictionaries as the datatype `Catalog`.
  - The search order `SearchOrder`, shared by adding and removing.
  - The two stated assumptions about the dictionary extensions `TryAdd` and `AddRange`.
  - `AddIn`/`RemoveIn`, the chains of `TryAddElement` and `TryRemoveElement` over an order. `RemoveResult` is the removal if-chain written out.
  - `MergeCatalogs`, and the lemmas about all of these.
- `backend.dfy` (module `SceneBackend`): the game engine's answers as lookup tables (`Backend`). From them it derives the handles a spawn creates (`Fanout`, `SpawnPlacements`) and the handles a reload creates, pass by pass (`KindPlacements`, `ReloadUpTo`, `ReloadPlacements`), with their lemmas.
- The classes live in the default module, because they refer to one another:
  - `engine.dfy`: the engine as a log of `Effect`s;
  - `handles.dfy`: filters and searches over handle lists;
  - `indicators.dfy`: the indicator table, `IndicatorRegistry`;
  - `editor.dfy`: `MapUtils.LoadedMaps` and the tool gun's selection table;
  - `map_schematic.dfy` and `map_editor_object.dfy`: the two main classes.

The engine is observed through `Engine.Log`, the effects asked of it in order: indicator spawned, updated or destroyed; object updated or destroyed; vanilla door set up. Ordering properties are stated on this log. Spawning an object is not a log entry: a spawn shows up as the fresh handle it yields, appended to `SpawnedObjects`, and a spawn that yields nothing leaves no trace (see "## Left out").

A map's invariant `MapSchematic.Valid` says that no handle is listed twice and that each of the twelve dictionaries holds only descriptors of its own kind, as the dictionaries' element types guarantee (Features/Serializable/MapSchematic.cs:24-46). Every operation on a map keeps it.

In a few places the code is evidently meant to do something other than what it does. The model follows the code:

- **Adding.** Ids are meant to be unique across all twelve dictionaries, so an add of an id held anywhere should fail. `TryAddElement` only calls each dictionary's `TryAdd`. Under the assumed `TryAdd` behaviour, an id held under another kind is not rejected. `AddIgnoresOtherKinds` exhibits this, and uniqueness across kinds is proved only for ids absent from every dictionary (`AddKeepsUniqueIds`).
- **In-place update order.** One would expect the object to be updated before its indicator. `UpdateCopy` refreshes the indicator first and updates the object second.
- **Re-selection.** The player is meant to end up holding the newly created handle. The code selects the first handle with the id in the list of the map loaded under the handle's map name when the delayed call runs. It searches that map, not the one the respawn went into, and selects nothing when no handle has the id.
- **A missing map in the delayed call.** The delayed call is meant to do nothing when the map is gone. The code does not check for it. Here the map is found whenever the update itself can run (see "## Left out").

## Model

| member | source | states |
|---|---|---|
| Descriptors.TryAdd | Features/Serializable/MapSchematic.cs:135-136 | Assumption about the `TryAdd` extension (not shown): the dictionary of kind `k` accepts `(id, d)` exactly when `d` is of kind `k` and `id` is not yet a key. On success exactly that entry is added; otherwise the dictionary is unchanged. |
| Descriptors.AddRange | Features/Serializable/MapSchematic.cs:52-63 | Assumption about the `AddRange` extension (not shown): the keys become the union, an incoming entry overwrites an existing one, and keys absent from the input keep their values. |
| MapSchematic.constructor | Features/Serializable/MapSchematic.cs:15-18 | A new map has the given name, is not dirty, has twelve empty dictionaries and no handles. |
| MapSchematic.TryAddTo | Features/Serializable/MapSchematic.cs:135-136 | One `TryAdd` on the dictionary of kind `k`: succeeds exactly when the descriptor is of that kind and the id is absent there. Then only that dictionary gains the entry; otherwise nothing changes. The map stays valid. |
| MapSchematic.TryAddElement | Features/Serializable/MapSchematic.cs:130-173 | The result and the new dictionaries are those of the TryAdd chain over SearchOrder. The map is dirty afterwards exactly when the add succeeded or it was dirty before, so a failed add restores the flag. The map stays valid: the descriptor can only land in the dictionary of its own kind. |
| Descriptors.AddInSpec | Features/Serializable/MapSchematic.cs:135-169 | On any order of dictionaries, the chain succeeds exactly when the descriptor's own kind is in the order and lacks the id. Then exactly that dictionary gains the entry; otherwise all twelve are unchanged. |
| Descriptors.AddResultSpec | Features/Serializable/MapSchematic.cs:130-173 | TryAddElement succeeds exactly when the id is not a key of the dictionary of the descriptor's kind. On failure all twelve dictionaries are unchanged; on success only that one gains `id -> d`. |
| Descriptors.AddIgnoresOtherKinds | Features/Serializable/MapSchematic.cs:135-169 | A concrete case: with "a" a primitive, adding "a" as a light succeeds. The dictionaries then share "a", breaking cross-kind uniqueness, and removing "a" does not give the original back. |
| Descriptors.AddKeepsUniqueIds | Features/Serializable/MapSchematic.cs:130-173 | Adding an id absent from every dictionary keeps every id in at most one dictionary. |
| Descriptors.AddKeepsWellKinded | Features/Serializable/MapSchematic.cs:130-173 | After an add, every dictionary still holds only descriptors of its own kind. |
| MapSchematic.TryRemoveElement | Features/Serializable/MapSchematic.cs:175-218 | The result and the new dictionaries are those of the written-out removal chain. The map is dirty exactly when the removal succeeded or it was dirty before. The map stays valid. |
| Descriptors.RemoveResultInOrder | Features/Serializable/MapSchematic.cs:180-214 | The written-out chain is the removal over SearchOrder: Primitives, Lights, Doors, Workstations, ItemSpawnpoints, PlayerSpawnpoints, Capybaras, Texts, Schematics, Scp079Cameras, ShootingTargets, Teleports. |
| Descriptors.RemoveInFound | Features/Serializable/MapSchematic.cs:180-214 | On any order, the removal chain succeeds exactly when some dictionary in the order has the id, and changes nothing when none has. |
| Descriptors.RemoveResultSpec | Features/Serializable/MapSchematic.cs:175-218 | TryRemoveElement returns false exactly when no dictionary has the id, and then all twelve dictionaries are unchanged. |
| Descriptors.RemoveInTakesFirst | Features/Serializable/MapSchematic.cs:180-214 | When position `i` is the first of the order whose dictionary has the id, the chain removes the id from that dictionary only. Earlier and later dictionaries are untouched. |
| Descriptors.RemoveTakesEarliest | Features/Serializable/MapSchematic.cs:180-214 | TryRemoveElement removes the id from the earliest dictionary of SearchOrder that has it, and from no other. |
| Descriptors.RemoveInOnly | Features/Serializable/MapSchematic.cs:180-214 | When only one dictionary has the id, that is the one the chain removes it from. |
| Descriptors.RemoveInShrinks | Features/Serializable/MapSchematic.cs:180-214 | The removal chain only takes entries out: every entry left was there before, with the same value. |
| Descriptors.RemoveShrinks | Features/Serializable/MapSchematic.cs:175-218 | TryRemoveElement only takes entries out. |
| Descriptors.RemoveKeepsUniqueIds | Features/Serializable/MapSchematic.cs:175-218 | A removal never breaks cross-kind uniqueness. |
| Descriptors.RemoveKeepsWellKinded | Features/Serializable/MapSchematic.cs:175-218 | A removal keeps every dictionary of its own kind. |
| Descriptors.AddThenRemove | Features/Serializable/MapSchematic.cs:130-218 | Round trip: when no dictionary has the id, adding `(id, d)` succeeds, and removing `id` afterwards succeeds and gives back exactly the twelve dictionaries from before the add. |
| MapSchematic.Merge | Features/Serializable/MapSchematic.cs:50-66 | The dictionaries become the twelve AddRange merges with the other map's; the result is this map. Only the dictionaries are in the frame, so `IsDirty` and `SpawnedObjects` do not change. Merging two valid maps leaves this one valid. |
| Descriptors.MergeGet | Features/Serializable/MapSchematic.cs:52-63 | Each merged dictionary is the AddRange of the two dictionaries of its kind. |
| Descriptors.MergeEntries | Features/Serializable/MapSchematic.cs:52-63 | After a merge: every entry of the other map is present in the dictionary of its kind with the other map's value; every entry of this map whose key the other lacks keeps its value; the keys are the union. |
| Descriptors.MergeKeepsUniqueIds | Features/Serializable/MapSchematic.cs:50-66 | Merging keeps cross-kind uniqueness when both maps have it and no id sits in the two maps under different kinds. |
| Descriptors.MergeKeepsWellKinded | Features/Serializable/MapSchematic.cs:50-66 | Merging two maps whose dictionaries hold only their own kinds gives one that does too. |
| MapSchematic.SpawnObject | Features/Serializable/MapSchematic.cs:99-116 | The old handles stay, in place, and new handles are appended. The new handles are fresh and bind exactly `SpawnPlacements`: one per room of GetRooms, in room order, for the rooms the descriptor's index admits and where the engine spawn yields an object. |
| MapSchematic.SpawnInRoom | Features/Serializable/MapSchematic.cs:104-111 | For one room: a single new handle bound to `(Name, id, d, room)` is appended when the index test passes and the spawn yields an object; otherwise the list is unchanged. |
| SceneBackend.FanoutSpec | Features/Serializable/MapSchematic.cs:101-113 | A spawn creates no more handles than GetRooms has rooms. Every handle it creates has the map's name, the id, the descriptor, and a room of GetRooms that is eligible. Every eligible room gets a handle. |
| SceneBackend.FanoutRooms | Features/Serializable/MapSchematic.cs:101-113 | Counted room by room: a spawn creates for each eligible room as many handles as the room has places in GetRooms, and none for any other room. A room listed once gets exactly one handle when eligible. |
| SpawnedCarryId | Features/Serializable/MapSchematic.cs:110 | Every handle a spawn of `(id, d)` creates carries that id, the map's name and the descriptor. |
| MapSchematic.DestroyObject | Features/Serializable/MapSchematic.cs:118-128 | The list becomes the old list without the handles with the id, the others keeping their order. Those handles lose their indicators. The effects are their teardown in list order: each handle's indicator, if any, then the handle. Only the list is changed in the map: its name, dictionaries and dirty flag stay. |
| MapSchematic.DestroyIfId | Features/Serializable/MapSchematic.cs:120-127 | One turn of the loop over the copy: a handle with another id stays in place. A handle with the id is taken off the list with `Remove` and destroyed; its indicator binding goes and the teardown grows by that handle. The map's name, dictionaries and dirty flag stay. |
| RemoveFirstAt | Features/Serializable/MapSchematic.cs:125 | `List.Remove` on a handle first occurring between `p` and `q` leaves exactly `p + q`. |
| WithoutIdMembers | Features/Serializable/MapSchematic.cs:118-128 | The handles left by DestroyObject are exactly the old handles with another id, so no handle with the id remains. |
| WithIdMembers | Features/Serializable/MapSchematic.cs:118-128 | The handles DestroyObject destroys are exactly the old handles with the id. |
| WithoutIdDistinct | Features/Serializable/MapSchematic.cs:118-128 | Filtering a list without repeated handles leaves one without repeats. |
| NoneWithId | Features/Serializable/MapSchematic.cs:120-127 | On a list with no handle of the id, DestroyObject's filter keeps everything and selects nothing. |
| AllWithId | Features/Serializable/MapSchematic.cs:120-127 | On a list where every handle has the id, the filter selects everything and keeps nothing. |
| TeardownDestroys | Features/Serializable/MapSchematic.cs:120-127 | Tearing down a list of handles destroys exactly those handles, in list order, each once. So every handle DestroyObject removes, and every handle Reload clears, is destroyed. |
| TeardownOnlyDestroys | Features/Serializable/MapSchematic.cs:70-71 | Tearing down asks the engine only to destroy handles and their indicators. |
| MapSchematic.Reload | Features/Serializable/MapSchematic.cs:68-97 | The old handles lose their indicators. The new list binds exactly the handles of the twelve passes in SearchOrder, with no repeats, and every handle in it is new. The effects are the teardown of every old handle, in order, followed by the vanilla door set-ups of the door pass. When the enumeration visits every entry once (`Enumerates`), the new handles are in SearchOrder kind order. The dictionaries are outside the frame, so a second Reload on the same engine gives the same placements. |
| MapSchematic.DestroyAll | Features/Serializable/MapSchematic.cs:70-71 | Destroy on every handle of the list, in order: each loses its indicator, and the effects are their teardown. |
| MapSchematic.DestroyNext | Features/Serializable/MapSchematic.cs:70-71 | Destroying one more handle after the ones before: the table loses exactly its indicator too, and the effects grow by its teardown. |
| MapSchematic.SpawnPasses | Features/Serializable/MapSchematic.cs:75-96 | From an empty list, the twelve ForEach passes produce fresh handles binding exactly `ReloadPlacements`. The only effects are the door pass's vanilla door set-ups. |
| MapSchematic.ReloadPass | Features/Serializable/MapSchematic.cs:75-96 | The pass at position `n` of SearchOrder extends the handles and effects of the first `n` passes to those of the first `n + 1`: the old handles stay as a prefix, in order, and the rest are fresh. |
| MapSchematic.SpawnKind | Features/Serializable/MapSchematic.cs:75-96 | One ForEach pass over the dictionary of kind `k`, in its enumeration order: the old handles stay as a prefix, the list grows by fresh handles binding that pass's placements, and the effects by its door set-ups. |
| MapSchematic.PassStep | Features/Serializable/MapSchematic.cs:77-87 | Visiting entry `j` of a pass extends its handles and effects from the first `j` entries to the first `j + 1`: the old handles stay as a prefix, and only fresh handles are appended. |
| MapSchematic.VisitEntry | Features/Serializable/MapSchematic.cs:77-87 | For a door whose id names a vanilla door: that door is set up and nothing is spawned. Otherwise the entry is spawned as SpawnObject does. |
| SceneBackend.VanillaDoorIdsMembers | Features/Serializable/MapSchematic.cs:77-87 | A pass hands to vanilla doors exactly the visited door ids that name one. |
| SetUpsUpToDoors | Features/Serializable/MapSchematic.cs:75-96 | Among the twelve passes, only the door pass has effects: its vanilla door set-ups. |
| SceneBackend.KindPlacementsFrom | Features/Serializable/MapSchematic.cs:75-96 | Every handle of a pass comes from a visited entry of its dictionary, with the map's name and an eligible room. No vanilla door id gets a handle. |
| SceneBackend.KindPlacementsOfKind | Features/Serializable/MapSchematic.cs:75-96 | The handles of a pass over a dictionary of one kind are all of that kind. |
| SceneBackend.ReloadUpToFrom | Features/Serializable/MapSchematic.cs:75-96 | Every handle of the first `n` passes comes from the dictionary of its own kind, and that kind is among the first `n` of SearchOrder. The handle is bound to that dictionary's descriptor and an eligible room. No handle belongs to a door id that a vanilla door took. |
| SceneBackend.ReloadPlacementsFrom | Features/Serializable/MapSchematic.cs:68-97 | Reload's handles come only from the map's own dictionaries, with the map's name and eligible rooms. Door ids with a vanilla door contribute none. |
| SceneBackend.KindPlacementsCover | Features/Serializable/MapSchematic.cs:77-87 | The converse for one pass: every visited entry that no vanilla door takes contributes every handle SpawnObject makes for it. |
| SceneBackend.ReloadUpToCover | Features/Serializable/MapSchematic.cs:75-96 | Every entry of a dictionary whose kind is among the first `n` of SearchOrder, unless a vanilla door takes it, contributes all its SpawnObject handles to the first `n` passes. |
| SceneBackend.ReloadPlacementsCover | Features/Serializable/MapSchematic.cs:68-97 | The converse of ReloadPlacementsFrom: every entry of every dictionary that no vanilla door takes contributes all of its SpawnObject handles to Reload's. |
| SceneBackend.ReloadUpToOrdered | Features/Serializable/MapSchematic.cs:75-96 | The first `n` passes spawn only kinds among the first `n` of SearchOrder, and never a handle after one of a later kind. |
| SceneBackend.ReloadOrdered | Features/Serializable/MapSchematic.cs:75-96 | For a catalog whose dictionaries hold only their own kinds (`WellKinded`, part of every valid map) and an enumeration that visits every entry once (`Enumerates`), Reload's handles are in kind order: Primitives, Lights, Doors, Workstations, ItemSpawnpoints, PlayerSpawnpoints, Capybaras, Texts, Schematics, Scp079Cameras, ShootingTargets, Teleports. |
| MapEditorObject.Init | Features/Objects/MapEditorObject.cs:21-29 | The new handle binds the descriptor, map name, id and room it is given. Its kind is defined as its descriptor's kind, for every handle. |
| MapEditorObject.Map | Features/Objects/MapEditorObject.cs:19 | The handle's map is a loaded map, looked up by the handle's map name. |
| MapEditorObject.Destroy | Features/Objects/MapEditorObject.cs:71-75 | The handle's indicator binding, if any, goes and its indicator is destroyed, before the handle's object is destroyed. Afterwards the handle has no indicator. |
| MapEditorObject.UpdateCopy | Features/Objects/MapEditorObject.cs:62-66 | The indicator is spawned or updated before the object is updated. Afterwards a capable handle has exactly one indicator, the same as before if it had one. A handle that is not capable leaves the table unchanged. |
| MapEditorObject.UpdateObjectAndCopies | Features/Objects/MapEditorObject.cs:31-60 | Both paths leave the map dirty. With reloading: a respawn is deferred carrying the map, the descriptor with its previous index set to its index, and a player whose selection has the id (or none if no selection has it). The list loses exactly the handles with the id, which are torn down, and nothing is spawned. Without reloading: nothing is deferred and the list is unchanged. Exactly the handles with the id are updated, in order, each once. Nothing is destroyed. The indicator table keeps every binding it had, and the bound handles gain exactly the capable handles with the id. Either way the map's name and dictionaries stay. |
| MapEditorObject.SelectorOf | Features/Objects/MapEditorObject.cs:38 | `FirstOrDefault` over the selections: a player whose selected handle has the id, or none exactly when no selection has it. |
| MapEditorObject.UpdateCopies | Features/Objects/MapEditorObject.cs:56-59 | Over a copy of the list, exactly the handles with the id get `UpdateCopy`, in list order, each once. The effects only spawn or update indicators and update objects. The table keeps every binding it had, and the bound handles gain exactly the capable handles with the id, each of which has an indicator afterwards. |
| MapEditorObject.UpdateIfId | Features/Objects/MapEditorObject.cs:56-59 | One turn of that loop: for a handle with the id, exactly `UpdateCopy`'s effects and table (the handle's indicator spawned or updated, then the object updated). For any other handle, no effect and the same table. Old bindings are always kept. |
| MapEditorObject.UpdateNext | Features/Objects/MapEditorObject.cs:56-59 | One turn extends the loop's facts about the handles before it (updated handles, effects that destroy nothing, kept bindings, bound handles) to one more handle. |
| InPlaceStep | Features/Objects/MapEditorObject.cs:56-59 | The same step on values: if the turn on one handle keeps bindings and gains at most that handle, the facts about the handles before it extend to that handle. |
| MapEditorObject.CompleteRespawn | Features/Objects/MapEditorObject.cs:45-51 | The delayed call: the noted map spawns the id again from the noted descriptor, as SpawnObject does. When a player was noted, they are given the first handle with the id in the current map's list, or no selection when there is none. When the noted map is the current one and none of its handles had the id (as after the reload path), that is the first respawned handle. |
| FirstWithId | Features/Objects/MapEditorObject.cs:50 | `List.Find`: the position of the first handle with the id, or the length when there is none. |
| FirstWithIdAfter | Features/Objects/MapEditorObject.cs:50 | When the first part of a list has no handle with the id and the second only such handles, `Find` gives the first of the second part. |
| ReloadRespawns | Features/Objects/MapEditorObject.cs:42-50 | After DestroyObject and a respawn: the handles with the id are exactly the respawned ones, the others are the survivors in order, and `Find` lands on the first respawned handle. |
| ToolGunHandler.SelectObject | Features/Objects/MapEditorObject.cs:50 | Assumption about `ToolGunHandler.SelectObject` (not shown): selecting records the handle as the player's selection, and selecting nothing clears it. |
| IndicatorFor | Features/Objects/IndicatorObject.cs:39-42 | With at most one indicator per handle, `First(x => x.Value == h).Key` finds an indicator exactly when `h` is bound, and it is the key bound to `h`. |
| IndicatorRegistry.constructor | Features/Objects/IndicatorObject.cs:10 | The table starts empty. |
| IndicatorRegistry.TryGetIndicator | Features/Objects/IndicatorObject.cs:33-44 | Finds nothing for a handle that is not capable or is not bound. Otherwise it finds the indicator bound to the handle. |
| IndicatorRegistry.TrySpawnOrUpdateIndicator | Features/Objects/IndicatorObject.cs:12-31 | Returns false, changing nothing, exactly when the handle is not capable. On true: the handle's indicator is updated if it had one (same indicator), otherwise a fresh indicator is bound to it. Afterwards lookup succeeds, the set of bound handles gains exactly this handle, and each handle keeps at most one indicator. |
| IndicatorRegistry.TryDestroyIndicator | Features/Objects/IndicatorObject.cs:46-54 | Returns false, changing nothing, exactly when the handle has no indicator. Otherwise it removes exactly that binding and destroys the indicator. Afterwards lookup fails. |
| IndicatorRegistry.ClearIndicators | Features/Objects/IndicatorObject.cs:56-62 | Every bound indicator is destroyed, each once and nothing else, and the table is emptied. The log grows by exactly those destructions. |
| IndicatorRegistry.RefreshIndicators | Features/Objects/IndicatorObject.cs:64-75 | After clearing, the table binds exactly the capable handles of the loaded maps' lists, each to one fresh indicator. The log grows by the destruction of every old indicator, each once, followed only by spawns and updates of indicators of capable loaded handles. |
| IndicatorRegistry.RefreshLoaded | Features/Objects/IndicatorObject.cs:68-74 | The loop over the loaded maps, from an empty table: afterwards the bound handles are exactly the capable handles of loaded maps. The log grows only by spawns and updates of their indicators. |
| IndicatorRegistry.RefreshMap | Features/Objects/IndicatorObject.cs:70-73 | The loop over one map's list: the bound handles grow from the capable handles seen so far to those plus the capable handles of this list. The log grows only by spawns and updates of indicators of this list's capable handles. |
| SpawnedInStep | Features/Objects/IndicatorObject.cs:68-74 | Visiting one more loaded map adds exactly that map's handles to those of the maps visited. |
| MapUtils.Lists | Features/Objects/IndicatorObject.cs:68 | The handle list of every loaded map, by name. |
| UnbindOneMore | Features/Objects/IndicatorObject.cs:51 | Destroying one more handle removes exactly its own indicator binding, if it has one. |
| UnbindKeepsOthers | Features/Objects/IndicatorObject.cs:51 | Removing other handles' bindings keeps at most one indicator per handle and leaves this handle's indicator as it was. |
| BindValues | Features/Objects/IndicatorObject.cs:27 | Binding a new indicator to a handle adds exactly that handle to the bound ones. |

## Left out

- I/O and foreign calls are not modelled: Unity, Mirror and engine calls (`AddComponent`, `BoxCollider`, `NetworkServer.Spawn`, `Destroy(gameObject)`, `SpawnOrUpdateObject`, `SpawnOrUpdateIndicator`, `SetupDoor`). Indicator spawns, updates and destructions, object updates and destructions, and door set-ups become entries of `Engine.Log`. The object spawn `SpawnOrUpdateObject(room)` in SpawnObject does not: it is represented by the fresh handle it yields.
- MapSchematic.Reload and MapSchematic.SpawnObject: because object spawns are not logged, the order of the spawns relative to the vanilla door set-ups during a Reload, and spawn attempts that yield no object, are not captured. The handles spawned, and their order among themselves, are captured through `SpawnedObjects`.
- Engine queries (`GetRooms`, `GetRoomIndex`, whether a spawn returns an object, `Door.Get`, dictionary enumeration order) become the fixed lookup tables of `Backend`. `Engine.Queries` is a constant of the engine, so the answers are fixed for the engine's whole life, not just during one operation. The statement that a second Reload on the same engine gives the same placements depends on this; a scene whose rooms or spawn results change between operations is not modelled. Dictionary enumeration is assumed to visit every entry once, through `Enumerates`.
- The `TryAdd` and `AddRange` dictionary extensions and `ToolGunHandler.SelectObject` are not part of this model. Their behaviour is stated as the assumptions `Descriptors.TryAdd`, `Descriptors.AddRange` and `ToolGunHandler.SelectObject`.
- `ListPool<Room>.Shared.Return(rooms)` in SpawnObject is a pooling call with no visible effect on the registry.
- `Timing.CallDelayed` is not modelled as a timer. UpdateObjectAndCopies returns the captured values (`Respawn`), and `MapEditorObject.CompleteRespawn` is the delayed body, to be called later. The 0.1 s delay and whatever runs in between are not modelled.
- MapEditorObject.UpdateObjectAndCopies: requires the handle's map to be loaded, because `Map` indexes `LoadedMaps` directly and fails otherwise. `TryGetValue` then always finds the map. The null `map` the delayed call would use when the map is missing is not modelled.
- MapEditorObject.CompleteRespawn: requires the map to be loaded only when a player was noted, which is when `Map` is evaluated. It does not model a map unloaded before the delayed call runs.
- MapEditorObject.SelectorOf: `FirstOrDefault` takes the first matching entry in the dictionary's enumeration order. The model takes any matching player, because that order is not visible.
- MapEditorObject.UpdateObjectAndCopies: descriptors are values. Writing `_prevIndex` on the shared descriptor object is modelled as the updated descriptor carried by the deferred respawn. The other handles and the dictionary entry that share the descriptor do not see the change. Edits to descriptor fields in place (position, scale, colour) are left out with it.
- MapEditorObject.Init: the component's parameterless creation through `AddComponent` and `Init` are one constructor. `Init` is only ever called on a fresh component right after `AddComponent`, so the fields are immutable here.
- `IndicatorObject.Update`, which copies the marked object's position every frame, is float geometry and is left out. IndicatorObject is modelled as its own class rather than as a subclass of MapEditorObject. It is never indicator-capable itself, so its `Destroy` only destroys its object.
- The indicator capability `Base is IIndicatorDefinition` is a set of kinds, `IndicatorRegistry.IndicatorKinds`.
- Concurrency is not modelled. The editor is single-threaded, and the tick interleaving during the deferred respawn is not captured.
- The scale command in Commands/Modifying/Scale/SubCommands/Set.cs is not part of this model. It assigns a float field and calls UpdateObjectAndCopies, whose contract covers it.
- MapSchematic.Merge: requires the other map to be a different object. What the unseen `AddRange` does when a dictionary is added into itself, while it is being enumerated, is not known, so merging a map into itself is excluded.
- MapEditorObject.UpdateCopies and the in-place path of MapEditorObject.UpdateObjectAndCopies state the log as exactly one `ObjectUpdated` per handle with the id, in list order, plus indicator spawns and updates only (`UpdatesOnly`). That each copy's indicator effect comes right before its own `ObjectUpdated`, and that a handle with another id gets none, is stated per turn by MapEditorObject.UpdateIfId, not for the whole loop.
- IndicatorRegistry.RefreshIndicators: the effects after clearing are stated as spawns or updates, not spawns alone. After clearing, an update happens only for a handle that occurs more than once among the loaded maps' lists, and the model does not rule that out.
