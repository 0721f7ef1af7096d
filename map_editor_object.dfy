/** A live handle: the component attached to a spawned game object, binding the
    descriptor it was spawned from, the name of its map, its id and its room. */
class MapEditorObject {
  const Base: Descriptor
  /** The kind of the descriptor, its type in the editor: the descriptor's fields can be
      changed in place, its kind cannot. */
  const Kind: Kind := Base.kind
  const MapName: string
  const Id: string
  const Room: Room

  /** AddComponent followed by Init: a new handle bound to the descriptor, the map name,
      the id and the room it is given. Only Init sets them, so they are fixed from then
      on. */
  constructor Init(serializableObject: Descriptor, mapName: string, id: string, room: Room)
    ensures View() == Placement(mapName, id, serializableObject, room)
    ensures Kind == serializableObject.kind
  {
    Base := serializableObject;
    MapName := mapName;
    Id := id;
    Room := room;
  }

  /** What the handle binds. */
  function View(): Placement {
    Placement(MapName, Id, Base, Room)
  }

  /** Map: the loaded map the handle belongs to. */
  function Map(utils: MapUtils): (m: MapSchematic)
    requires MapName in utils.LoadedMaps
    reads utils
    ensures m in utils.LoadedMaps.Values
  {
    utils.LoadedMaps[MapName]
  }

  /** Destroy: the handle's indicator binding goes and its indicator is destroyed, and only
      then its own game object. */
  method Destroy(reg: IndicatorRegistry, engine: Engine)
    requires reg.Valid()
    modifies reg, engine
    ensures reg.Valid()
    ensures reg.Dictionary ==
      if old(reg.TryGetIndicator(this)).Some? then old(reg.Dictionary) - {old(reg.TryGetIndicator(this)).value}
      else old(reg.Dictionary)
    ensures engine.Log == old(engine.Log) + Dropped(old(reg.TryGetIndicator(this))) + [ObjectDestroyed(this)]
    ensures reg.TryGetIndicator(this).None?
  {
    var _ := reg.TryDestroyIndicator(this, engine);
    engine.Emit(ObjectDestroyed(this));
  }

  /** UpdateCopy: the handle's indicator is spawned or updated first, then its game object
      is updated from the descriptor. */
  method UpdateCopy(reg: IndicatorRegistry, engine: Engine)
    requires reg.Valid()
    modifies reg, engine
    ensures reg.Valid()
    ensures Kind in reg.IndicatorKinds ==> reg.TryGetIndicator(this).Some?
    ensures reg.Dictionary ==
      if Kind in reg.IndicatorKinds then old(reg.Dictionary)[reg.TryGetIndicator(this).value := this]
      else old(reg.Dictionary)
    ensures old(reg.TryGetIndicator(this)).Some? ==> reg.TryGetIndicator(this) == old(reg.TryGetIndicator(this))
    ensures Kind in reg.IndicatorKinds && old(reg.TryGetIndicator(this)).None? ==> fresh(reg.TryGetIndicator(this).value)
    ensures reg.Dictionary.Values == if Kind in reg.IndicatorKinds then old(reg.Dictionary).Values + {this} else old(reg.Dictionary).Values
    ensures engine.Log == old(engine.Log) + Touched(old(reg.TryGetIndicator(this)), reg.TryGetIndicator(this), this) + [ObjectUpdated(this)]
  {
    var _ := reg.TrySpawnOrUpdateIndicator(this, engine);
    engine.Emit(ObjectUpdated(this));
  }

  /** UpdateObjectAndCopies: the map is marked dirty, then one of two paths.
      When the descriptor requires reloading, its previous index becomes its index, the
      player whose selection has this id (if any) is noted, the map destroys every handle
      with this id (DestroyObject), and the respawn is left to the deferred step
      CompleteRespawn: nothing is spawned here.
      Otherwise UpdateCopy runs once on each handle of the map with this id, in list
      order, over a copy of the list, and the list stays as it is. */
  method UpdateObjectAndCopies(utils: MapUtils, tool: ToolGunHandler, reg: IndicatorRegistry, engine: Engine)
    returns (deferred: Option<Respawn>, ghost effects: seq<Effect>)
    requires MapName in utils.LoadedMaps
    requires Map(utils).Valid() && reg.Valid()
    modifies Map(utils)`IsDirty, Map(utils)`SpawnedObjects, reg, engine
    ensures Map(utils).Valid() && reg.Valid()
    ensures Map(utils).IsDirty && Map(utils).Name == old(Map(utils).Name) && Map(utils).Tables == old(Map(utils).Tables)
    ensures engine.Log == old(engine.Log) + effects
    ensures deferred.Some? <==> Base.requiresReloading
    ensures Base.requiresReloading ==>
      && deferred.value.schematic == Map(utils)
      && deferred.value.descriptor == Base.(prevIndex := Base.index)
      && SelectionOf(tool.PlayerSelectedObjectDict, Id, deferred.value.player)
      && Map(utils).SpawnedObjects == WithoutId(old(Map(utils).SpawnedObjects), Id)
      && reg.Dictionary == Unbind(old(reg.Dictionary), old(Capable(WithId(Map(utils).SpawnedObjects, Id), reg.IndicatorKinds)))
      && effects == Teardown(old(reg.Dictionary), old(Capable(Map(utils).SpawnedObjects, reg.IndicatorKinds)), WithId(old(Map(utils).SpawnedObjects), Id))
    ensures !Base.requiresReloading ==>
      && Map(utils).SpawnedObjects == old(Map(utils).SpawnedObjects)
      && UpdatedObjects(effects) == WithId(old(Map(utils).SpawnedObjects), Id)
      && UpdatesOnly(effects)
      && Keeps(reg.Dictionary, old(reg.Dictionary))
      && reg.Dictionary.Values == old(reg.Dictionary).Values + Capable(WithId(old(Map(utils).SpawnedObjects), Id), reg.IndicatorKinds)
      && forall h :: h in WithId(old(Map(utils).SpawnedObjects), Id) && h.Kind in reg.IndicatorKinds ==> reg.TryGetIndicator(h).Some?
  {
    var schematic := Map(utils);
    schematic.IsDirty := true;
    if Base.requiresReloading {
      var d := Base.(prevIndex := Base.index);
      var player := SelectorOf(tool);
      ghost var table, cap, hs := reg.Dictionary, Capable(schematic.SpawnedObjects, reg.IndicatorKinds), schematic.SpawnedObjects;
      schematic.DestroyObject(Id, reg, engine);
      deferred, effects := Some(Respawn(schematic, d, player)), Teardown(table, cap, WithId(hs, Id));
      return;
    }
    effects := UpdateCopies(schematic, reg, engine);
    deferred := None;
  }

  /** FirstOrDefault over the selections: a player whose selected handle has this id, or
      none when no selection has it. */
  method SelectorOf(tool: ToolGunHandler) returns (player: Option<Player>)
    ensures SelectionOf(tool.PlayerSelectedObjectDict, Id, player)
  {
    var selected := tool.PlayerSelectedObjectDict;
    if exists q :: q in selected && selected[q].Id == Id {
      var q :| q in selected && selected[q].Id == Id;
      return Some(q);
    }
    return None;
  }

  /** The in-place path: UpdateCopy on each handle of `schematic`'s list with this id, in list
      order. Exactly those handles are updated, each once; nothing is destroyed; the
      indicator table keeps every binding it had and gains indicators for exactly those of
      them that can have one. */
  method UpdateCopies(schematic: MapSchematic, reg: IndicatorRegistry, engine: Engine) returns (ghost effects: seq<Effect>)
    requires reg.Valid()
    modifies reg, engine
    ensures reg.Valid()
    ensures engine.Log == old(engine.Log) + effects
    ensures UpdatedObjects(effects) == WithId(schematic.SpawnedObjects, Id)
    ensures UpdatesOnly(effects)
    ensures Keeps(reg.Dictionary, old(reg.Dictionary))
    ensures reg.Dictionary.Values == old(reg.Dictionary).Values + Capable(WithId(schematic.SpawnedObjects, Id), reg.IndicatorKinds)
    ensures forall h :: h in WithId(schematic.SpawnedObjects, Id) && h.Kind in reg.IndicatorKinds ==> reg.TryGetIndicator(h).Some?
  {
    var snapshot := schematic.SpawnedObjects;
    effects := [];
    AppendNil(engine.Log);
    for i := 0 to |snapshot|
      invariant reg.Valid()
      invariant engine.Log == old(engine.Log) + effects
      invariant UpdatedObjects(effects) == WithId(snapshot[..i], Id)
      invariant UpdatesOnly(effects)
      invariant Keeps(reg.Dictionary, old(reg.Dictionary))
      invariant reg.Dictionary.Values == old(reg.Dictionary).Values + Capable(WithId(snapshot[..i], Id), reg.IndicatorKinds)
    {
      PrefixSnoc(snapshot, i);
      var more := UpdateNext(snapshot[i], reg, engine, snapshot[..i], effects, old(reg.Dictionary), old(engine.Log));
      effects := effects + more;
    }
    PrefixAll(snapshot);
  }

  /** UpdateIfId on `copy` after the handles `done`: the facts of the in-place loop about
      `done` and the effects so far carry over to `done + [copy]`. */
  method UpdateNext(copy: MapEditorObject, reg: IndicatorRegistry, engine: Engine,
                    ghost done: seq<MapEditorObject>, ghost effects: seq<Effect>, ghost table: Bindings, ghost log: seq<Effect>)
    returns (ghost more: seq<Effect>)
    requires reg.Valid()
    requires engine.Log == log + effects
    requires UpdatedObjects(effects) == WithId(done, Id)
    requires UpdatesOnly(effects)
    requires Keeps(reg.Dictionary, table)
    requires reg.Dictionary.Values == table.Values + Capable(WithId(done, Id), reg.IndicatorKinds)
    modifies reg, engine
    ensures reg.Valid()
    ensures engine.Log == log + (effects + more)
    ensures UpdatedObjects(effects + more) == WithId(done + [copy], Id)
    ensures UpdatesOnly(effects + more)
    ensures Keeps(reg.Dictionary, table)
    ensures reg.Dictionary.Values == table.Values + Capable(WithId(done + [copy], Id), reg.IndicatorKinds)
  {
    ghost var mid := reg.Dictionary;
    more := UpdateIfId(copy, reg, engine);
    AppendAssoc(log, effects, more);
    InPlaceStep(copy, Id, reg.IndicatorKinds, done, effects, more, table, mid, reg.Dictionary);
  }

  /** One turn of the in-place loop: UpdateCopy on `copy` when it has this id, nothing
      otherwise. The indicator table keeps every binding it had, and at most the copy's
      own binding is added or renewed. */
  method UpdateIfId(copy: MapEditorObject, reg: IndicatorRegistry, engine: Engine) returns (ghost more: seq<Effect>)
    requires reg.Valid()
    modifies reg, engine
    ensures reg.Valid()
    ensures engine.Log == old(engine.Log) + more
    ensures more ==
      if copy.Id == Id then Touched(old(reg.TryGetIndicator(copy)), reg.TryGetIndicator(copy), copy) + [ObjectUpdated(copy)]
      else []
    ensures copy.Id == Id && copy.Kind in reg.IndicatorKinds ==> reg.TryGetIndicator(copy).Some?
    ensures reg.Dictionary ==
      if copy.Id == Id && copy.Kind in reg.IndicatorKinds then old(reg.Dictionary)[reg.TryGetIndicator(copy).value := copy]
      else old(reg.Dictionary)
    ensures UpdatedObjects(more) == if copy.Id == Id then [copy] else []
    ensures UpdatesOnly(more)
    ensures Keeps(reg.Dictionary, old(reg.Dictionary))
    ensures reg.Dictionary.Values ==
      if copy.Id == Id && copy.Kind in reg.IndicatorKinds then old(reg.Dictionary).Values + {copy}
      else old(reg.Dictionary).Values
  {
    more := [];
    if copy.Id != Id {
      AppendNil(engine.Log);
      return;
    }
    ghost var before := reg.TryGetIndicator(copy);
    copy.UpdateCopy(reg, engine);
    var touched := Touched(before, reg.TryGetIndicator(copy), copy);
    TouchedEffects(before, reg.TryGetIndicator(copy), copy);
    more := touched + [ObjectUpdated(copy)];
    UpdatedObjectsConcat(touched, [ObjectUpdated(copy)]);
    assert [ObjectUpdated(copy)][..0] == [];
    assert touched == [] || touched[..0] == [];
    NilAppend([copy]);
  }

  /** The deferred step of the reload path, the body of the delayed call: the map noted
      spawns this id again from the descriptor noted; then, when a player was noted, the
      map loaded under this handle's map name at that point is searched for its first
      handle with this id, which becomes the player's selection (no selection if there is
      no such handle). */
  method CompleteRespawn(r: Respawn, utils: MapUtils, tool: ToolGunHandler, engine: Engine)
    returns (ghost added: seq<MapEditorObject>)
    requires r.schematic.Valid()
    requires r.player.Some? ==> MapName in utils.LoadedMaps
    modifies r.schematic`SpawnedObjects, tool
    ensures r.schematic.Valid()
    ensures r.schematic.SpawnedObjects == old(r.schematic.SpawnedObjects) + added
    ensures forall h :: h in added ==> fresh(h)
    ensures Views(added) == SpawnPlacements(engine.Queries, r.schematic.Name, Id, r.descriptor)
    ensures r.player.None? ==> tool.PlayerSelectedObjectDict == old(tool.PlayerSelectedObjectDict)
    ensures r.player.Some? ==>
      var list := Map(utils).SpawnedObjects;
      var i := FirstWithId(list, Id);
      tool.PlayerSelectedObjectDict ==
        if i < |list| then old(tool.PlayerSelectedObjectDict)[r.player.value := list[i]]
        else old(tool.PlayerSelectedObjectDict) - {r.player.value}
    ensures r.player.Some? && r.schematic == Map(utils) && (forall h :: h in old(r.schematic.SpawnedObjects) ==> h.Id != Id) ==>
      tool.PlayerSelectedObjectDict ==
        if added != [] then old(tool.PlayerSelectedObjectDict)[r.player.value := added[0]]
        else old(tool.PlayerSelectedObjectDict) - {r.player.value}
  {
    added := r.schematic.SpawnObject(Id, r.descriptor, engine);
    if r.player.Some? {
      var list := Map(utils).SpawnedObjects;
      var i := FirstWithId(list, Id);
      tool.SelectObject(r.player.value, if i < |list| then list[i] else null);
      if r.schematic == Map(utils) && forall h :: h in old(r.schematic.SpawnedObjects) ==> h.Id != Id {
        SpawnedCarryId(added, engine.Queries, r.schematic.Name, Id, r.descriptor);
        FirstWithIdAfter(old(r.schematic.SpawnedObjects), added, Id);
      }
    }
  }
}

/** The handles SpawnObject(id, d) creates all carry that id, the map's name and the
    descriptor they were spawned from. */
lemma SpawnedCarryId(hs: seq<MapEditorObject>, b: Backend, mapName: string, id: string, d: Descriptor)
  requires Views(hs) == SpawnPlacements(b, mapName, id, d)
  ensures forall h :: h in hs ==> h.Id == id && h.MapName == mapName && h.Base == d
{
  ViewsAt(hs);
  FanoutSpec(b, mapName, id, d, b.rooms(d));
  forall h | h in hs
    ensures h.Id == id && h.MapName == mapName && h.Base == d
  {
    var i :| 0 <= i < |hs| && hs[i] == h;
    assert Views(hs)[i] in SpawnPlacements(b, mapName, id, d);
  }
}

/** When no handle of `before` has the id and every handle of `added` has it, the first
    handle with the id is the first of `added`, and there is none when `added` is empty. */
lemma FirstWithIdAfter(before: seq<MapEditorObject>, added: seq<MapEditorObject>, id: string)
  requires forall h :: h in before ==> h.Id != id
  requires forall h :: h in added ==> h.Id == id
  ensures FirstWithId(before + added, id) == |before|
{
  assert forall j :: 0 <= j < |before| ==> (before + added)[j] == before[j];
  if added != [] {
    assert (before + added)[|before|] == added[0];
  }
}

/** The facts of the in-place loop, carried from the handles `done` to `done + [h]`, when
    the turn on `h` had the effects `more` and took the table from `mid` to `now`. */
lemma InPlaceStep(h: MapEditorObject, id: string, kinds: set<Kind>, done: seq<MapEditorObject>,
                  effects: seq<Effect>, more: seq<Effect>, table: Bindings, mid: Bindings, now: Bindings)
  requires UpdatedObjects(effects) == WithId(done, id) && UpdatesOnly(effects)
  requires UpdatedObjects(more) == (if h.Id == id then [h] else []) && UpdatesOnly(more)
  requires Keeps(mid, table) && Keeps(now, mid)
  requires mid.Values == table.Values + Capable(WithId(done, id), kinds)
  requires now.Values == if h.Id == id && h.Kind in kinds then mid.Values + {h} else mid.Values
  ensures UpdatedObjects(effects + more) == WithId(done + [h], id) && UpdatesOnly(effects + more)
  ensures Keeps(now, table)
  ensures now.Values == table.Values + Capable(WithId(done + [h], id), kinds)
{
  LeftOfAppend(done, [h]);
  UpdatedObjectsConcat(effects, more);
  UpdatesOnlyConcat(effects, more);
  KeepsTrans(now, mid, table);
  CapableWithIdSnoc(done, h, id, kinds);
}

/** The two halves of the reload path together: after DestroyObject and CompleteRespawn
    the list is the old one without the id's handles, followed by the respawned ones, all
    with the id, and the first handle with the id is the first respawned one. */
lemma ReloadRespawns(before: seq<MapEditorObject>, added: seq<MapEditorObject>, b: Backend, mapName: string, id: string, d: Descriptor)
  requires Views(added) == SpawnPlacements(b, mapName, id, d)
  ensures WithId(WithoutId(before, id) + added, id) == added
  ensures WithoutId(WithoutId(before, id) + added, id) == WithoutId(before, id)
  ensures FirstWithId(WithoutId(before, id) + added, id) == |WithoutId(before, id)|
{
  var kept := WithoutId(before, id);
  WithoutIdMembers(before, id);
  SpawnedCarryId(added, b, mapName, id, d);
  FirstWithIdAfter(kept, added, id);
  WithIdConcat(kept, added, id);
  WithoutIdConcat(kept, added, id);
  NoneWithId(kept, id);
  AllWithId(added, id);
  NilAppend(added);
  AppendNil(kept);
}

/** What the delayed call of the reload path captures: the map, the descriptor with its
    previous index updated, and the player to select for afterwards. */
datatype Respawn = Respawn(schematic: MapSchematic, descriptor: Descriptor, player: Option<Player>)

/** `player` is a player whose selection has id `id`, or none when no selection has it. */
predicate SelectionOf(selected: map<Player, MapEditorObject>, id: string, player: Option<Player>) {
  match player
  case Some(p) => p in selected && selected[p].Id == id
  case None => forall q :: q in selected ==> selected[q].Id != id
}
