/** A connected player, as the tool gun knows them. */
type Player(==)

/** The maps currently loaded, by name (MapUtils.LoadedMaps). */
class MapUtils {
  var LoadedMaps: map<string, MapSchematic>

  constructor()
    ensures LoadedMaps == map[]
  {
    LoadedMaps := map[];
  }

  /** The handle list of every loaded map, by name. */
  ghost function Lists(): (r: map<string, seq<MapEditorObject>>)
    reads this, LoadedMaps.Values
    ensures r.Keys == LoadedMaps.Keys
    ensures forall name :: name in LoadedMaps ==> r[name] == LoadedMaps[name].SpawnedObjects
  {
    map name | name in LoadedMaps :: LoadedMaps[name].SpawnedObjects
  }

  /** `h` is a live handle of a loaded map. */
  ghost predicate IsLoaded(h: MapEditorObject)
    reads this, LoadedMaps.Values
  {
    SpawnedIn(Lists(), LoadedMaps.Keys, h)
  }
}

/** `h` is listed by one of the maps named in `names`, given the handle lists by name. */
ghost predicate SpawnedIn(lists: map<string, seq<MapEditorObject>>, names: set<string>, h: MapEditorObject)
{
  exists name :: name in names && name in lists && h in lists[name]
}

/** Visiting one more map adds exactly that map's handles: when `seen` lists the handles of
    the maps `names`, `seen` followed by the handles of `name` lists those of both. */
lemma SpawnedInStep(lists: map<string, seq<MapEditorObject>>, names: set<string>, name: string, seen: seq<MapEditorObject>)
  requires name in lists
  requires forall h :: h in seen <==> SpawnedIn(lists, names, h)
  ensures forall h :: h in seen + lists[name] <==> SpawnedIn(lists, names + {name}, h)
{
}

/** The tool gun's record of which handle each player has selected
    (ToolGunHandler.PlayerSelectedObjectDict). */
class ToolGunHandler {
  var PlayerSelectedObjectDict: map<Player, MapEditorObject>

  constructor()
    ensures PlayerSelectedObjectDict == map[]
  {
    PlayerSelectedObjectDict := map[];
  }

  /** Assumed behaviour of ToolGunHandler.SelectObject, which is not part of this model:
      selecting a handle records it as the player's selection, and selecting nothing
      clears the player's selection. */
  method SelectObject(player: Player, h: MapEditorObject?)
    modifies this
    ensures PlayerSelectedObjectDict ==
      if h == null then old(PlayerSelectedObjectDict) - {player} else old(PlayerSelectedObjectDict)[player := h]
  {
    if h == null {
      PlayerSelectedObjectDict := PlayerSelectedObjectDict - {player};
    } else {
      PlayerSelectedObjectDict := PlayerSelectedObjectDict[player := h];
    }
  }
}
