/** A named map: its twelve id -> descriptor dictionaries, whether it has unsaved edits,
    and the live handles spawned from it. */
class MapSchematic {
  var Name: string
  var IsDirty: bool
  var Tables: Catalog
  var SpawnedObjects: seq<MapEditorObject>

  /** A new map of the given name: no edits, twelve empty dictionaries, no handles. */
  constructor(mapName: string)
    ensures Name == mapName && !IsDirty && Tables == EmptyCatalog && SpawnedObjects == []
    ensures Valid()
  {
    Name := mapName;
    IsDirty := false;
    Tables := EmptyCatalog;
    SpawnedObjects := [];
  }

  /** No handle is listed twice, and each dictionary holds only descriptors of its own
      kind, as its element type demands. */
  ghost predicate Valid()
    reads this
  {
    Distinct(SpawnedObjects) && WellKinded(Tables)
  }

  /** Reload: every handle is destroyed, in list order, and the list is cleared; then the
      twelve dictionaries are walked in SearchOrder and each entry is spawned, except that
      a door entry whose id names a vanilla door sets that door up instead. The handles
      are then exactly those of the passes, in pass order, all new; the old handles lose
      their indicators, and the effects are the teardown of the old handles followed by
      the door set-ups. */
  method Reload(reg: IndicatorRegistry, engine: Engine)
    requires Valid() && reg.Valid()
    modifies this`SpawnedObjects, reg, engine
    ensures Valid() && reg.Valid()
    ensures Views(SpawnedObjects) == ReloadPlacements(engine.Queries, Name, Tables)
    ensures Enumerates(engine.Queries) ==> InKindOrder(Views(SpawnedObjects))
    ensures forall h :: h in SpawnedObjects ==> fresh(h)
    ensures reg.Dictionary == Unbind(old(reg.Dictionary), old(Capable(SpawnedObjects, reg.IndicatorKinds)))
    ensures engine.Log == old(engine.Log)
      + Teardown(old(reg.Dictionary), old(Capable(SpawnedObjects, reg.IndicatorKinds)), old(SpawnedObjects))
      + DoorSetUps(PassDoorIds(engine.Queries, Tables, Door))
  {
    DestroyAll(reg, engine);
    SpawnedObjects := [];
    SpawnPasses(engine);
    if Enumerates(engine.Queries) {
      ReloadOrdered(engine.Queries, Name, Tables);
    }
  }

  /** The passes of Reload over the twelve dictionaries, in SearchOrder, starting from an
      empty list. */
  method SpawnPasses(engine: Engine)
    requires SpawnedObjects == [] && WellKinded(Tables)
    modifies this`SpawnedObjects, engine
    ensures Valid()
    ensures Views(SpawnedObjects) == ReloadPlacements(engine.Queries, Name, Tables)
    ensures forall h :: h in SpawnedObjects ==> fresh(h)
    ensures engine.Log == old(engine.Log) + DoorSetUps(PassDoorIds(engine.Queries, Tables, Door))
  {
    ghost var log := engine.Log;
    AppendNil(log);
    for n := 0 to |SearchOrder|
      invariant Valid()
      invariant Views(SpawnedObjects) == ReloadUpTo(engine.Queries, Name, Tables, n)
      invariant forall h :: h in SpawnedObjects ==> fresh(h)
      invariant engine.Log == log + SetUpsUpTo(engine.Queries, Tables, n)
    {
      ReloadPass(n, engine, log);
    }
    SetUpsUpToDoors(engine.Queries, Tables, |SearchOrder|);
  }

  /** The first loop of Reload: Destroy on every handle of SpawnedObjects, in list order.
      Each loses its indicator, and the effects are their teardown; the list itself is
      left as it is. */
  method DestroyAll(reg: IndicatorRegistry, engine: Engine)
    requires Valid() && reg.Valid()
    modifies reg, engine
    ensures reg.Valid()
    ensures reg.Dictionary == Unbind(old(reg.Dictionary), Capable(SpawnedObjects, reg.IndicatorKinds))
    ensures engine.Log == old(engine.Log) + Teardown(old(reg.Dictionary), Capable(SpawnedObjects, reg.IndicatorKinds), SpawnedObjects)
  {
    ghost var table := reg.Dictionary;
    ghost var cap := Capable(SpawnedObjects, reg.IndicatorKinds);
    ghost var seen: seq<MapEditorObject> := [];
    ghost var rest := SpawnedObjects;
    NilAppend(rest);
    for i := 0 to |SpawnedObjects|
      invariant SpawnedObjects == seen + rest && |seen| == i
      invariant reg.Valid()
      invariant reg.Dictionary == Unbind(table, Among(cap, seen))
      invariant engine.Log == old(engine.Log) + Teardown(table, cap, seen)
    {
      var mapEditorObject := SpawnedObjects[i];
      Uncons(rest);
      DistinctStep(seen, mapEditorObject, rest[1..]);
      DestroyNext(mapEditorObject, reg, engine, table, cap, seen, old(engine.Log));
      seen := seen + [mapEditorObject];
      rest := rest[1..];
    }
    AppendNil(seen);
    assert Among(cap, seen) == cap;
  }

  /** Reload's pass over the dictionary at position `n` of SearchOrder, after the passes
      before it: the list grows from the handles of those passes to the handles of those
      and this one, and the effects of this pass follow those of the earlier ones. */
  method ReloadPass(n: nat, engine: Engine, ghost log: seq<Effect>)
    requires Valid() && n < |SearchOrder|
    requires Views(SpawnedObjects) == ReloadUpTo(engine.Queries, Name, Tables, n)
    requires engine.Log == log + SetUpsUpTo(engine.Queries, Tables, n)
    modifies this`SpawnedObjects, engine
    ensures Valid()
    ensures old(SpawnedObjects) <= SpawnedObjects
    ensures forall h :: h in SpawnedObjects ==> h in old(SpawnedObjects) || fresh(h)
    ensures Views(SpawnedObjects) == ReloadUpTo(engine.Queries, Name, Tables, n + 1)
    ensures engine.Log == log + SetUpsUpTo(engine.Queries, Tables, n + 1)
  {
    var k := SearchOrder[n];
    SpawnKind(k, engine);
    AppendAssoc(log, SetUpsUpTo(engine.Queries, Tables, n), DoorSetUps(PassDoorIds(engine.Queries, Tables, k)));
  }

  /** SpawnObject: one new handle of (`id`, `d`) per room of the descriptor's GetRooms, in
      room order, for each room the descriptor's index admits and where the engine spawn
      yields an object. The handles are appended to SpawnedObjects; the ones already there
      stay, in place. */
  method SpawnObject(id: string, serializableObject: Descriptor, engine: Engine) returns (ghost added: seq<MapEditorObject>)
    requires Valid()
    modifies this`SpawnedObjects
    ensures Valid()
    ensures SpawnedObjects == old(SpawnedObjects) + added
    ensures forall h :: h in added ==> fresh(h)
    ensures Views(added) == SpawnPlacements(engine.Queries, Name, id, serializableObject)
  {
    var d := serializableObject;
    var b := engine.Queries;
    var rooms := b.rooms(d);
    added := [];
    AppendNil(SpawnedObjects);
    for j := 0 to |rooms|
      invariant Valid()
      invariant SpawnedObjects == old(SpawnedObjects) + added
      invariant forall h :: h in added ==> fresh(h)
      invariant Views(added) == Fanout(b, Name, id, d, rooms[..j])
    {
      var room := rooms[j];
      PrefixSnoc(rooms, j);
      FanoutSnoc(b, Name, id, d, rooms[..j], room);
      var placed := SpawnInRoom(d, id, room, b);
      ViewsConcat(added, placed);
      AppendAssoc(old(SpawnedObjects), added, placed);
      added := added + placed;
    }
    PrefixAll(rooms);
  }

  /** One turn of SpawnObject's loop: when the descriptor's index admits `room` and the
      engine spawn there yields an object, one new handle bound to (`id`, `d`) in `room` is
      appended to SpawnedObjects; otherwise nothing changes. */
  method SpawnInRoom(d: Descriptor, id: string, room: Room, b: Backend) returns (ghost placed: seq<MapEditorObject>)
    requires Valid()
    modifies this`SpawnedObjects
    ensures Valid()
    ensures SpawnedObjects == old(SpawnedObjects) + placed
    ensures forall h :: h in placed ==> fresh(h)
    ensures Views(placed) == if Eligible(b, d, room) then [Placement(Name, id, d, room)] else []
  {
    placed := [];
    AppendNil(SpawnedObjects);
    if d.index < 0 || d.index == b.roomIndex(room) {
      if !b.spawns(d, room) {
        return;
      }
      var mapEditorObject := new MapEditorObject.Init(d, Name, id, room);
      DistinctSnoc(SpawnedObjects, mapEditorObject);
      SpawnedObjects := SpawnedObjects + [mapEditorObject];
      placed := [mapEditorObject];
    }
  }

  /** One of Reload's ForEach passes, over the entries of the dictionary of kind `k` in
      its enumeration order. */
  method SpawnKind(k: Kind, engine: Engine)
    requires Valid()
    modifies this`SpawnedObjects, engine
    ensures Valid()
    ensures old(SpawnedObjects) <= SpawnedObjects
    ensures forall h :: h in SpawnedObjects ==> h in old(SpawnedObjects) || fresh(h)
    ensures Views(SpawnedObjects) == Views(old(SpawnedObjects)) + Phase(engine.Queries, Name, Tables, k)
    ensures engine.Log == old(engine.Log) + DoorSetUps(PassDoorIds(engine.Queries, Tables, k))
  {
    var b := engine.Queries;
    var es := b.enumerate(Tables.Get(k));
    ghost var before, log := Views(SpawnedObjects), engine.Log;
    AppendNil(before);
    AppendNil(log);
    for j := 0 to |es|
      invariant Valid()
      invariant old(SpawnedObjects) <= SpawnedObjects
      invariant forall h :: h in SpawnedObjects ==> h in old(SpawnedObjects) || fresh(h)
      invariant Views(SpawnedObjects) == before + KindPlacements(b, Name, k, es, j)
      invariant engine.Log == log + DoorSetUps(VanillaDoorIds(b, k, es, j))
    {
      PassStep(k, es, j, engine, before, log);
    }
  }

  /** Visiting the entry `es[j]` of a pass over the dictionary of kind `k` extends the
      handles and the effects of the pass from its first `j` entries to its first `j + 1`. */
  method PassStep(k: Kind, es: seq<(string, Descriptor)>, j: nat, engine: Engine, ghost before: seq<Placement>, ghost log: seq<Effect>)
    requires Valid() && j < |es|
    requires Views(SpawnedObjects) == before + KindPlacements(engine.Queries, Name, k, es, j)
    requires engine.Log == log + DoorSetUps(VanillaDoorIds(engine.Queries, k, es, j))
    modifies this`SpawnedObjects, engine
    ensures Valid()
    ensures old(SpawnedObjects) <= SpawnedObjects
    ensures forall h :: h in SpawnedObjects ==> h in old(SpawnedObjects) || fresh(h)
    ensures Views(SpawnedObjects) == before + KindPlacements(engine.Queries, Name, k, es, j + 1)
    ensures engine.Log == log + DoorSetUps(VanillaDoorIds(engine.Queries, k, es, j + 1))
  {
    var b := engine.Queries;
    var id, d := es[j].0, es[j].1;
    ghost var doors := VanillaDoorIds(b, k, es, j);
    ghost var placed := KindPlacements(b, Name, k, es, j);
    ghost var objects := SpawnedObjects;
    assert KindPlacements(b, Name, k, es, j + 1)
        == placed + if SetsUpVanillaDoor(b, k, id) then [] else SpawnPlacements(b, Name, id, d);
    assert VanillaDoorIds(b, k, es, j + 1) == doors + if SetsUpVanillaDoor(b, k, id) then [id] else [];
    var spawned := VisitEntry(k, id, d, engine);
    ViewsExtend(objects, spawned, before, placed);
    DoorSetUpsExtend(log, doors, id, SetsUpVanillaDoor(b, k, id));
  }

  /** The body of a ForEach pass for the entry (`id`, `d`) of the dictionary of kind `k`:
      for Doors, a vanilla door with that id is set up from the entry and nothing is
      spawned; otherwise, and for every other kind, SpawnObject. */
  method VisitEntry(k: Kind, id: string, d: Descriptor, engine: Engine) returns (ghost spawned: seq<MapEditorObject>)
    requires Valid()
    modifies this`SpawnedObjects, engine
    ensures Valid()
    ensures SpawnedObjects == old(SpawnedObjects) + spawned
    ensures forall h :: h in spawned ==> fresh(h)
    ensures Views(spawned) == if SetsUpVanillaDoor(engine.Queries, k, id) then [] else SpawnPlacements(engine.Queries, Name, id, d)
    ensures engine.Log == old(engine.Log) + if SetsUpVanillaDoor(engine.Queries, k, id) then [VanillaDoorSetUp(id)] else []
  {
    if k == Door && engine.Queries.vanillaDoor(id) {
      engine.Emit(VanillaDoorSetUp(id));
      spawned := [];
      AppendNil(SpawnedObjects);
      return;
    }
    spawned := SpawnObject(id, d, engine);
    AppendNil(old(engine.Log));
  }

  /** DestroyObject: every handle with id `id` is taken off SpawnedObjects and destroyed,
      in list order, over a copy of the list taken first. The other handles stay, in
      order; the destroyed handles lose their indicators. */
  method DestroyObject(id: string, reg: IndicatorRegistry, engine: Engine)
    requires Valid() && reg.Valid()
    modifies this`SpawnedObjects, reg, engine
    ensures Valid() && reg.Valid()
    ensures Name == old(Name) && Tables == old(Tables) && IsDirty == old(IsDirty)
    ensures SpawnedObjects == WithoutId(old(SpawnedObjects), id)
    ensures reg.Dictionary == Unbind(old(reg.Dictionary), old(Capable(WithId(SpawnedObjects, id), reg.IndicatorKinds)))
    ensures engine.Log == old(engine.Log) + Teardown(old(reg.Dictionary), old(Capable(SpawnedObjects, reg.IndicatorKinds)), WithId(old(SpawnedObjects), id))
  {
    var snapshot := SpawnedObjects;
    ghost var kinds := reg.IndicatorKinds;
    ghost var table := reg.Dictionary;
    ghost var cap := Capable(snapshot, kinds);
    ghost var seen: seq<MapEditorObject> := [];
    ghost var rest := snapshot;
    ghost var done: seq<MapEditorObject> := [];
    ghost var kept: seq<MapEditorObject> := [];
    NilAppend(snapshot);
    for i := 0 to |snapshot|
      invariant Name == old(Name) && Tables == old(Tables) && IsDirty == old(IsDirty)
      invariant snapshot == seen + rest && |seen| == i
      invariant done == WithId(seen, id) && kept == WithoutId(seen, id)
      invariant SpawnedObjects == kept + rest
      invariant reg.Valid()
      invariant reg.Dictionary == Unbind(table, Among(cap, done))
      invariant engine.Log == old(engine.Log) + Teardown(table, cap, done)
    {
      var mapEditorObject := snapshot[i];
      Uncons(rest);
      FilterStep(seen, mapEditorObject, rest[1..], id);
      DestroyIfId(mapEditorObject, id, reg, engine, kept, rest[1..], table, cap, done, old(engine.Log));
      seen := seen + [mapEditorObject];
      rest := rest[1..];
      kept := kept + if mapEditorObject.Id != id then [mapEditorObject] else [];
      done := done + if mapEditorObject.Id == id then [mapEditorObject] else [];
    }
    AppendNil(seen);
    AppendNil(kept);
    WithoutIdDistinct(snapshot, id);
    WithIdMembers(snapshot, id);
    assert Among(cap, done) == old(Capable(WithId(SpawnedObjects, id), reg.IndicatorKinds));
  }

  /** One turn of DestroyObject's loop: a handle `h` with another id stays where it is;
      one with the id is taken off SpawnedObjects (Remove) and destroyed as in DestroyNext. */
  method DestroyIfId(h: MapEditorObject, id: string, reg: IndicatorRegistry, engine: Engine,
                     ghost kept: seq<MapEditorObject>, ghost rest: seq<MapEditorObject>,
                     ghost table: Bindings, ghost cap: set<MapEditorObject>, ghost done: seq<MapEditorObject>,
                     ghost log: seq<Effect>)
    requires SpawnedObjects == kept + ([h] + rest) && h !in kept && h !in done
    requires reg.Valid() && OneIndicatorPerHandle(table) && reg.Dictionary == Unbind(table, Among(cap, done))
    requires h in cap <==> h.Kind in reg.IndicatorKinds
    requires engine.Log == log + Teardown(table, cap, done)
    modifies this`SpawnedObjects, reg, engine
    ensures Name == old(Name) && Tables == old(Tables) && IsDirty == old(IsDirty)
    ensures SpawnedObjects == (kept + if h.Id != id then [h] else []) + rest
    ensures reg.Valid()
    ensures reg.Dictionary == Unbind(table, Among(cap, done + if h.Id == id then [h] else []))
    ensures engine.Log == log + Teardown(table, cap, done + if h.Id == id then [h] else [])
  {
    if h.Id != id {
      AppendAssoc(kept, [h], rest);
      AppendNil(done);
      return;
    }
    RemoveFirstAt(kept, h, rest);
    SpawnedObjects := RemoveFirst(SpawnedObjects, h);
    DestroyNext(h, reg, engine, table, cap, done, log);
    AppendNil(kept);
  }

  /** Destroy on one more handle `h`, after the handles `done`, none of them `h`. When the
      table is the original table `table` without the indicators of `done`, and the
      effects so far are their teardown, the table loses the indicator of `h` as well and
      the effects become the teardown of `done` and then `h`. */
  method DestroyNext(h: MapEditorObject, reg: IndicatorRegistry, engine: Engine,
                     ghost table: Bindings, ghost cap: set<MapEditorObject>, ghost done: seq<MapEditorObject>,
                     ghost log: seq<Effect>)
    requires h !in done
    requires reg.Valid() && OneIndicatorPerHandle(table) && reg.Dictionary == Unbind(table, Among(cap, done))
    requires h in cap <==> h.Kind in reg.IndicatorKinds
    requires engine.Log == log + Teardown(table, cap, done)
    modifies reg, engine
    ensures reg.Valid() && reg.Dictionary == Unbind(table, Among(cap, done + [h]))
    ensures engine.Log == log + Teardown(table, cap, done + [h])
  {
    TeardownStep(table, cap, done, h);
    assert reg.TryGetIndicator(h) == IndicatorIn(table, cap, h);
    h.Destroy(reg, engine);
    AppendAssoc(Teardown(table, cap, done), Dropped(IndicatorIn(table, cap, h)), [ObjectDestroyed(h)]);
    AppendAssoc(log, Teardown(table, cap, done), Dropped(IndicatorIn(table, cap, h)) + [ObjectDestroyed(h)]);
    AppendAssoc(log + Teardown(table, cap, done), Dropped(IndicatorIn(table, cap, h)), [ObjectDestroyed(h)]);
  }

  /** `Tables.Get(k).TryAdd(id, d)`. */
  method TryAddTo(k: Kind, id: string, d: Descriptor) returns (ok: bool)
    requires Valid()
    modifies this`Tables
    ensures Valid()
    ensures ok <==> d.kind == k && id !in old(Tables).Get(k)
    ensures Tables == if ok then old(Tables).Put(k, old(Tables).Get(k)[id := d]) else old(Tables)
  {
    var r := TryAdd(k, Tables.Get(k), id, d);
    if r.0 {
      PutKeepsWellKinded(Tables, k, r.1);
      Tables := Tables.Put(k, r.1);
    }
    ok := r.0;
  }

  /** TryAddElement: the dictionaries are offered (`id`, `d`) in SearchOrder and the first
      that accepts it keeps it. The map is marked dirty when one did, and its dirty flag is
      left as it was when none did. */
  method TryAddElement(id: string, serializableObject: Descriptor) returns (ok: bool)
    requires Valid()
    modifies this`Tables, this`IsDirty
    ensures Valid()
    ensures (ok, Tables) == AddResult(old(Tables), id, serializableObject)
    ensures IsDirty == (ok || old(IsDirty))
  {
    ghost var c := Tables;
    var d := serializableObject;
    var dirtyPrevValue := IsDirty;
    IsDirty := true;
    AddResultSpec(c, id, d);

    ok := TryAddTo(Primitive, id, d);
    if ok { return; }
    ok := TryAddTo(Light, id, d);
    if ok { return; }
    ok := TryAddTo(Door, id, d);
    if ok { return; }
    ok := TryAddTo(Workstation, id, d);
    if ok { return; }
    ok := TryAddTo(ItemSpawnpoint, id, d);
    if ok { return; }
    ok := TryAddTo(PlayerSpawnpoint, id, d);
    if ok { return; }
    ok := TryAddTo(Capybara, id, d);
    if ok { return; }
    ok := TryAddTo(Text, id, d);
    if ok { return; }
    ok := TryAddTo(Schematic, id, d);
    if ok { return; }
    ok := TryAddTo(Scp079Camera, id, d);
    if ok { return; }
    ok := TryAddTo(ShootingTarget, id, d);
    if ok { return; }
    ok := TryAddTo(Teleport, id, d);
    if ok { return; }

    IsDirty := dirtyPrevValue;
  }

  /** TryRemoveElement: `id` is removed from the first dictionary of SearchOrder that has
      it. The map is marked dirty when one had it, and its dirty flag is left as it was when
      none had. */
  method TryRemoveElement(id: string) returns (ok: bool)
    requires Valid()
    modifies this`Tables, this`IsDirty
    ensures Valid()
    ensures (ok, Tables) == RemoveResult(old(Tables), id)
    ensures IsDirty == (ok || old(IsDirty))
  {
    ghost var c := Tables;
    var dirtyPrevValue := IsDirty;
    IsDirty := true;
    RemoveKeepsWellKinded(c, id);

    if id in Tables.primitives {
      Tables := Tables.(primitives := Tables.primitives - {id});
      return true;
    }
    if id in Tables.lights {
      Tables := Tables.(lights := Tables.lights - {id});
      return true;
    }
    if id in Tables.doors {
      Tables := Tables.(doors := Tables.doors - {id});
      return true;
    }
    if id in Tables.workstations {
      Tables := Tables.(workstations := Tables.workstations - {id});
      return true;
    }
    if id in Tables.itemSpawnpoints {
      Tables := Tables.(itemSpawnpoints := Tables.itemSpawnpoints - {id});
      return true;
    }
    if id in Tables.playerSpawnpoints {
      Tables := Tables.(playerSpawnpoints := Tables.playerSpawnpoints - {id});
      return true;
    }
    if id in Tables.capybaras {
      Tables := Tables.(capybaras := Tables.capybaras - {id});
      return true;
    }
    if id in Tables.texts {
      Tables := Tables.(texts := Tables.texts - {id});
      return true;
    }
    if id in Tables.schematics {
      Tables := Tables.(schematics := Tables.schematics - {id});
      return true;
    }
    if id in Tables.scp079Cameras {
      Tables := Tables.(scp079Cameras := Tables.scp079Cameras - {id});
      return true;
    }
    if id in Tables.shootingTargets {
      Tables := Tables.(shootingTargets := Tables.shootingTargets - {id});
      return true;
    }
    if id in Tables.teleports {
      Tables := Tables.(teleports := Tables.teleports - {id});
      return true;
    }

    IsDirty := dirtyPrevValue;
    return false;
  }

  /** Merge: AddRange of each of `other`'s dictionaries into this map's dictionary of the
      same kind; this map is returned. */
  method Merge(other: MapSchematic) returns (r: MapSchematic)
    requires other != this
    requires Valid() && other.Valid()
    modifies this`Tables
    ensures Valid()
    ensures r == this
    ensures Tables == MergeCatalogs(old(Tables), other.Tables)
  {
    MergeKeepsWellKinded(Tables, other.Tables);
    Tables := Tables.(primitives := AddRange(Tables.primitives, other.Tables.primitives));
    Tables := Tables.(lights := AddRange(Tables.lights, other.Tables.lights));
    Tables := Tables.(doors := AddRange(Tables.doors, other.Tables.doors));
    Tables := Tables.(workstations := AddRange(Tables.workstations, other.Tables.workstations));
    Tables := Tables.(itemSpawnpoints := AddRange(Tables.itemSpawnpoints, other.Tables.itemSpawnpoints));
    Tables := Tables.(playerSpawnpoints := AddRange(Tables.playerSpawnpoints, other.Tables.playerSpawnpoints));
    Tables := Tables.(capybaras := AddRange(Tables.capybaras, other.Tables.capybaras));
    Tables := Tables.(texts := AddRange(Tables.texts, other.Tables.texts));
    Tables := Tables.(schematics := AddRange(Tables.schematics, other.Tables.schematics));
    Tables := Tables.(scp079Cameras := AddRange(Tables.scp079Cameras, other.Tables.scp079Cameras));
    Tables := Tables.(shootingTargets := AddRange(Tables.shootingTargets, other.Tables.shootingTargets));
    Tables := Tables.(teleports := AddRange(Tables.teleports, other.Tables.teleports));
    return this;
  }
}
