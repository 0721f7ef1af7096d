// The objects of the editor live in this default module, spread over several files: a
// map lists its handles, a handle names its map, and the indicator table points at
// handles, so the classes refer to one another.
import opened Descriptors
import opened SceneBackend
import opened Sequences

/** What the registry asks the engine to do to game objects, in the order it asks. */
datatype Effect =
  | IndicatorSpawned(indicator: IndicatorObject, handle: MapEditorObject)
  | IndicatorUpdated(indicator: IndicatorObject, handle: MapEditorObject)
  | IndicatorDestroyed(indicator: IndicatorObject)
  | ObjectUpdated(handle: MapEditorObject)
  | ObjectDestroyed(handle: MapEditorObject)
  | VanillaDoorSetUp(id: string)

/** The game engine as the registry sees it: the fixed answers of its queries and the log
    of the changes asked of it. */
class Engine {
  const Queries: Backend
  var Log: seq<Effect>

  constructor(b: Backend)
    ensures Queries == b && Log == []
  {
    Queries := b;
    Log := [];
  }

  method Emit(e: Effect)
    modifies this
    ensures Log == old(Log) + [e]
  {
    Log := Log + [e];
  }
}

/** The effects of handing the door ids `ids` to vanilla doors (SetupDoor), in order. */
function DoorSetUps(ids: seq<string>): (r: seq<Effect>)
  ensures |r| == |ids|
{
  if ids == [] then [] else DoorSetUps(ids[..|ids| - 1]) + [VanillaDoorSetUp(ids[|ids| - 1])]
}

lemma DoorSetUpsSnoc(ids: seq<string>, id: string)
  ensures DoorSetUps(ids + [id]) == DoorSetUps(ids) + [VanillaDoorSetUp(id)]
{
  LeftOfAppend(ids, [id]);
}

lemma DoorSetUpsStep(ids: seq<string>, id: string, setUp: bool)
  ensures DoorSetUps(ids + if setUp then [id] else []) == DoorSetUps(ids) + if setUp then [VanillaDoorSetUp(id)] else []
{
  if setUp {
    DoorSetUpsSnoc(ids, id);
  } else {
    AppendNil(ids);
    AppendNil(DoorSetUps(ids));
  }
}

/** After effects `log` and the set-ups of `ids`, one more door id: its set-up, if any,
    follows. */
lemma DoorSetUpsExtend(log: seq<Effect>, ids: seq<string>, id: string, setUp: bool)
  ensures log + DoorSetUps(ids + if setUp then [id] else []) == (log + DoorSetUps(ids)) + if setUp then [VanillaDoorSetUp(id)] else []
{
  DoorSetUpsStep(ids, id, setUp);
  AppendAssoc(log, DoorSetUps(ids), if setUp then [VanillaDoorSetUp(id)] else []);
}

/** The effects of Reload's first `n` passes, one pass after the other in SearchOrder. */
function SetUpsUpTo(b: Backend, c: Catalog, n: nat): seq<Effect>
  requires n <= |SearchOrder|
{
  if n == 0 then [] else SetUpsUpTo(b, c, n - 1) + DoorSetUps(PassDoorIds(b, c, SearchOrder[n - 1]))
}

/** Only the pass over the doors has effects: the vanilla door set-ups. */
lemma {:induction false} SetUpsUpToDoors(b: Backend, c: Catalog, n: nat)
  requires n <= |SearchOrder|
  ensures SetUpsUpTo(b, c, n) == if n > Rank(Door) then DoorSetUps(PassDoorIds(b, c, Door)) else []
{
  if n > 0 {
    var k := SearchOrder[n - 1];
    var prior := SetUpsUpTo(b, c, n - 1);
    assert SetUpsUpTo(b, c, n) == prior + DoorSetUps(PassDoorIds(b, c, k));
    SetUpsUpToDoors(b, c, n - 1);
    RankAt(n - 1);
    if k != Door {
      assert PassDoorIds(b, c, k) == [];
      AppendNil(prior);
    } else {
      NilAppend(DoorSetUps(PassDoorIds(b, c, Door)));
    }
  }
}

/** The effects `log` only update objects and spawn or update indicators: nothing is
    destroyed and no door is set up. */
predicate UpdatesOnly(log: seq<Effect>) {
  forall e :: e in log ==> e.ObjectUpdated? || e.IndicatorSpawned? || e.IndicatorUpdated?
}

lemma UpdatesOnlyConcat(a: seq<Effect>, b: seq<Effect>)
  requires UpdatesOnly(a) && UpdatesOnly(b)
  ensures UpdatesOnly(a + b)
{
}

/** The handles whose objects the effects `log` update, in order. */
function UpdatedObjects(log: seq<Effect>): seq<MapEditorObject>
{
  if log == [] then []
  else
    var e := log[|log| - 1];
    UpdatedObjects(log[..|log| - 1]) + (if e.ObjectUpdated? then [e.handle] else [])
}

lemma {:induction false} UpdatedObjectsConcat(a: seq<Effect>, b: seq<Effect>)
  ensures UpdatedObjects(a + b) == UpdatedObjects(a) + UpdatedObjects(b)
{
  if b != [] {
    UpdatedObjectsConcat(a, b[..|b| - 1]);
    FrontOfAppend(a, b);
  } else {
    AppendNil(a);
    AppendNil(UpdatedObjects(a));
  }
}
