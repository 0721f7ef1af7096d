/** The marker object the editor shows for a handle whose descriptor defines one. It is a
    handle itself whose descriptor is never set, so it is never indicator-capable:
    destroying it finds no indicator of its own and only destroys its game object. */
class IndicatorObject {
  constructor()
  {
  }

  method Destroy(engine: Engine)
    modifies engine
    ensures engine.Log == old(engine.Log) + [IndicatorDestroyed(this)]
  {
    engine.Emit(IndicatorDestroyed(this));
  }
}

/** The binding table: which handle each indicator marks. */
type Bindings = map<IndicatorObject, MapEditorObject>

/** Each handle is marked by at most one indicator. */
ghost predicate OneIndicatorPerHandle(b: Bindings) {
  forall i, j :: i in b && j in b && b[i] == b[j] ==> i == j
}

/** `b` still holds every binding of `a`: nothing was unbound or rebound. */
ghost predicate Keeps(b: Bindings, a: Bindings) {
  forall i :: i in a ==> i in b && b[i] == a[i]
}

lemma KeepsTrans(c: Bindings, b: Bindings, a: Bindings)
  requires Keeps(c, b) && Keeps(b, a)
  ensures Keeps(c, a)
{
}

/** The indicator bound to `h`: the key of the one binding whose value is `h`. */
function IndicatorFor(b: Bindings, h: MapEditorObject): (r: Option<IndicatorObject>)
  requires OneIndicatorPerHandle(b)
  ensures r.Some? <==> h in b.Values
  ensures r.Some? ==> r.value in b && b[r.value] == h
{
  if h in b.Values then
    var i :| i in b && b[i] == h;
    Some(i)
  else None
}

/** `b` without the bindings of the handles `hs`. */
function Unbind(b: Bindings, hs: set<MapEditorObject>): Bindings {
  map i | i in b && b[i] !in hs :: b[i]
}

/** Taking out the bindings of other handles keeps the table one-per-handle and leaves the
    indicator of `h` as it was. */
lemma UnbindKeepsOthers(b: Bindings, hs: set<MapEditorObject>, h: MapEditorObject)
  requires OneIndicatorPerHandle(b) && h !in hs
  ensures OneIndicatorPerHandle(Unbind(b, hs))
  ensures IndicatorFor(Unbind(b, hs), h) == IndicatorFor(b, h)
{
  var u := Unbind(b, hs);
  if h in b.Values {
    var i :| i in b && b[i] == h;
    assert i in u && u[i] == h;
  }
}

/** Taking out the bindings of one more handle `h` takes out exactly the indicator of `h`,
    if it has one. */
lemma UnbindOneMore(b: Bindings, hs: set<MapEditorObject>, h: MapEditorObject)
  requires OneIndicatorPerHandle(b) && h !in hs
  ensures Unbind(b, hs + {h}) ==
    if IndicatorFor(b, h).Some? then Unbind(b, hs) - {IndicatorFor(b, h).value} else Unbind(b, hs)
{
}

/** Binding a new indicator, or rebinding an indicator to the handle it already marks,
    adds exactly that handle to the marked ones. */
lemma BindValues(b: Bindings, i: IndicatorObject, h: MapEditorObject)
  requires i !in b || b[i] == h
  ensures b[i := h].Values == b.Values + {h}
{
  var u := b[i := h];
  forall x | x in b.Values ensures x in u.Values {
    var j: IndicatorObject :| j in b && b[j] == x;
    if j == i {
      assert u[i] == x;
    } else {
      assert u[j] == x;
    }
  }
  assert u[i] == h;
}

/** The effect of spawning or updating an indicator for `h`: none when `h` is left
    without one, an update when it had `before`, a spawn otherwise. */
function Touched(before: Option<IndicatorObject>, after: Option<IndicatorObject>, h: MapEditorObject): seq<Effect> {
  match after
  case None => []
  case Some(i) => if before.Some? then [IndicatorUpdated(i, h)] else [IndicatorSpawned(i, h)]
}

/** Touched only ever spawns or updates an indicator of `h`, and only when `h` has one
    afterwards. */
lemma TouchedEffects(before: Option<IndicatorObject>, after: Option<IndicatorObject>, h: MapEditorObject)
  ensures forall e :: e in Touched(before, after, h) ==>
    after.Some? && e.handle == h && (e.IndicatorSpawned? || e.IndicatorUpdated?)
{
}

/** The effect of destroying the indicator `r`, if any. */
function Dropped(r: Option<IndicatorObject>): seq<Effect> {
  if r.Some? then [IndicatorDestroyed(r.value)] else []
}

/** The indicators of the loaded handles: the static table of IndicatorObject, with the
    descriptor kinds that implement the indicator definition interface. */
class IndicatorRegistry {
  /** The kinds whose descriptors define an indicator. */
  const IndicatorKinds: set<Kind>
  var Dictionary: Bindings

  constructor(kinds: set<Kind>)
    ensures IndicatorKinds == kinds && Dictionary == map[]
    ensures Valid()
  {
    IndicatorKinds := kinds;
    Dictionary := map[];
  }

  ghost predicate Valid()
    reads this
  {
    OneIndicatorPerHandle(Dictionary)
  }

  /** TryGetIndicator: nothing for a handle that cannot have an indicator or has none, and
      otherwise the indicator bound to it. */
  function TryGetIndicator(h: MapEditorObject): (r: Option<IndicatorObject>)
    requires Valid()
    reads this
    ensures r.Some? <==> h.Kind in IndicatorKinds && h in Dictionary.Values
    ensures r.Some? ==> r.value in Dictionary && Dictionary[r.value] == h
  {
    if h.Kind !in IndicatorKinds then None else IndicatorFor(Dictionary, h)
  }

  /** TrySpawnOrUpdateIndicator: false, changing nothing, for a handle that cannot have an
      indicator. Otherwise true: the handle's indicator is updated if it has one, or a new
      one is spawned and bound to it, so that it has exactly one. */
  method TrySpawnOrUpdateIndicator(h: MapEditorObject, engine: Engine) returns (ok: bool)
    requires Valid()
    modifies this, engine
    ensures Valid()
    ensures ok <==> h.Kind in IndicatorKinds
    ensures ok ==> TryGetIndicator(h).Some?
    ensures Dictionary == if ok then old(Dictionary)[TryGetIndicator(h).value := h] else old(Dictionary)
    ensures Dictionary.Values == if ok then old(Dictionary).Values + {h} else old(Dictionary).Values
    ensures old(TryGetIndicator(h)).Some? ==> TryGetIndicator(h) == old(TryGetIndicator(h))
    ensures ok && old(TryGetIndicator(h)).None? ==> fresh(TryGetIndicator(h).value)
    ensures engine.Log == old(engine.Log) + Touched(old(TryGetIndicator(h)), TryGetIndicator(h), h)
  {
    if h.Kind !in IndicatorKinds {
      return false;
    }
    var found := TryGetIndicator(h);
    if found.Some? {
      engine.Emit(IndicatorUpdated(found.value, h));
      BindValues(Dictionary, found.value, h);
      assert Dictionary[found.value := h] == Dictionary;
    } else {
      var indicator := new IndicatorObject();
      engine.Emit(IndicatorSpawned(indicator, h));
      BindValues(Dictionary, indicator, h);
      Dictionary := Dictionary[indicator := h];
      assert Valid();
      var r := IndicatorFor(Dictionary, h);
      assert Dictionary[r.value] == h == Dictionary[indicator];
    }
    return true;
  }

  /** TryDestroyIndicator: false, changing nothing, when `h` has no indicator; otherwise
      exactly its binding goes and its indicator is destroyed. Either way `h` has no
      indicator afterwards. */
  method TryDestroyIndicator(h: MapEditorObject, engine: Engine) returns (ok: bool)
    requires Valid()
    modifies this, engine
    ensures Valid()
    ensures ok <==> old(TryGetIndicator(h)).Some?
    ensures Dictionary == if ok then old(Dictionary) - {old(TryGetIndicator(h)).value} else old(Dictionary)
    ensures engine.Log == old(engine.Log) + Dropped(old(TryGetIndicator(h)))
    ensures TryGetIndicator(h).None?
  {
    var found := TryGetIndicator(h);
    if found.None? {
      return false;
    }
    Dictionary := Dictionary - {found.value};
    found.value.Destroy(engine);
    return true;
  }

  /** ClearIndicators: every bound indicator is destroyed, each once, and the table is
      emptied; `cleared` is what this appends to the log. */
  method ClearIndicators(engine: Engine) returns (ghost cleared: seq<Effect>)
    modifies this, engine
    ensures Valid() && Dictionary == map[]
    ensures engine.Log == old(engine.Log) + cleared
    ensures |cleared| == |old(Dictionary)|
    ensures forall i :: i in old(Dictionary) ==> IndicatorDestroyed(i) in cleared
    ensures forall e :: e in cleared ==> e.IndicatorDestroyed? && e.indicator in old(Dictionary)
  {
    var pending := Dictionary.Keys;
    cleared := [];
    while pending != {}
      invariant pending <= old(Dictionary).Keys
      invariant engine.Log == old(engine.Log) + cleared
      invariant |cleared| + |pending| == |old(Dictionary).Keys|
      invariant forall i :: i in old(Dictionary) && i !in pending ==> IndicatorDestroyed(i) in cleared
      invariant forall e :: e in cleared ==> e.IndicatorDestroyed? && e.indicator in old(Dictionary) && e.indicator !in pending
      decreases |pending|
    {
      var indicator :| indicator in pending;
      indicator.Destroy(engine);
      AppendAssoc(old(engine.Log), cleared, [IndicatorDestroyed(indicator)]);
      cleared := cleared + [IndicatorDestroyed(indicator)];
      pending := pending - {indicator};
    }
    Dictionary := map[];
  }

  /** RefreshIndicators: after clearing the table, every handle of every loaded map that can
      have an indicator gets one, and nothing else has one. The log receives the
      destruction of every old indicator, then only spawns and updates of indicators of
      capable loaded handles. */
  method RefreshIndicators(utils: MapUtils, engine: Engine) returns (ghost cleared: seq<Effect>, ghost refreshed: seq<Effect>)
    modifies this, engine
    ensures Valid()
    ensures forall h :: h in Dictionary.Values <==> h.Kind in IndicatorKinds && utils.IsLoaded(h)
    ensures forall i :: i in Dictionary ==> fresh(i)
    ensures engine.Log == old(engine.Log) + cleared + refreshed
    ensures |cleared| == |old(Dictionary)|
    ensures forall i :: i in old(Dictionary) ==> IndicatorDestroyed(i) in cleared
    ensures forall e :: e in cleared ==> e.IndicatorDestroyed? && e.indicator in old(Dictionary)
    ensures forall e :: e in refreshed ==>
      (e.IndicatorSpawned? || e.IndicatorUpdated?) && e.handle.Kind in IndicatorKinds && utils.IsLoaded(e.handle)
  {
    cleared := ClearIndicators(engine);
    refreshed := RefreshLoaded(utils, engine);
  }

  /** The loop of RefreshIndicators over the loaded maps, from an empty table. */
  method RefreshLoaded(utils: MapUtils, engine: Engine) returns (ghost refreshed: seq<Effect>)
    requires Valid() && Dictionary == map[]
    modifies this, engine
    ensures Valid()
    ensures forall h :: h in Dictionary.Values <==> h.Kind in IndicatorKinds && utils.IsLoaded(h)
    ensures forall i :: i in Dictionary ==> fresh(i)
    ensures engine.Log == old(engine.Log) + refreshed
    ensures forall e :: e in refreshed ==>
      (e.IndicatorSpawned? || e.IndicatorUpdated?) && e.handle.Kind in IndicatorKinds && utils.IsLoaded(e.handle)
  {
    var pending := utils.LoadedMaps.Keys;
    ghost var lists := utils.Lists();
    ghost var visited: set<string> := {};
    ghost var seen: seq<MapEditorObject> := [];
    refreshed := [];
    while pending != {}
      invariant Valid()
      invariant pending + visited == lists.Keys == utils.LoadedMaps.Keys
      invariant Dictionary.Values == Capable(seen, IndicatorKinds)
      invariant forall h :: h in seen <==> SpawnedIn(lists, visited, h)
      invariant forall i :: i in Dictionary ==> fresh(i)
      invariant engine.Log == old(engine.Log) + refreshed
      invariant forall e :: e in refreshed ==>
        (e.IndicatorSpawned? || e.IndicatorUpdated?) && e.handle.Kind in IndicatorKinds && e.handle in seen
      decreases |pending|
    {
      var name :| name in pending;
      var objects := utils.LoadedMaps[name].SpawnedObjects;
      var more := RefreshMap(objects, engine, seen);
      SpawnedInStep(lists, visited, name, seen);
      AppendAssoc(old(engine.Log), refreshed, more);
      refreshed := refreshed + more;
      seen := seen + objects;
      pending := pending - {name};
      visited := visited + {name};
    }
    assert utils.Lists() == lists;
  }

  /** The inner loop of RefreshIndicators: TrySpawnOrUpdateIndicator on every handle of one
      map's list. When the marked handles are the capable ones of `seen`, they are the
      capable ones of `seen` and the list afterwards; the log receives only spawns and
      updates of indicators of the list's capable handles. */
  method RefreshMap(objects: seq<MapEditorObject>, engine: Engine, ghost seen: seq<MapEditorObject>)
    returns (ghost refreshed: seq<Effect>)
    requires Valid()
    requires Dictionary.Values == Capable(seen, IndicatorKinds)
    modifies this, engine
    ensures Valid()
    ensures Dictionary.Values == Capable(seen + objects, IndicatorKinds)
    ensures forall i :: i in Dictionary && i !in old(Dictionary) ==> fresh(i)
    ensures engine.Log == old(engine.Log) + refreshed
    ensures forall e :: e in refreshed ==>
      (e.IndicatorSpawned? || e.IndicatorUpdated?) && e.handle.Kind in IndicatorKinds && e.handle in objects
  {
    refreshed := [];
    AppendNil(engine.Log);
    for j := 0 to |objects|
      invariant Valid()
      invariant Dictionary.Values == Capable(seen + objects[..j], IndicatorKinds)
      invariant forall i :: i in Dictionary && i !in old(Dictionary) ==> fresh(i)
      invariant engine.Log == old(engine.Log) + refreshed
      invariant forall e :: e in refreshed ==>
        (e.IndicatorSpawned? || e.IndicatorUpdated?) && e.handle.Kind in IndicatorKinds && e.handle in objects
    {
      ghost var before := Capable(seen + objects[..j], IndicatorKinds);
      ghost var was := TryGetIndicator(objects[j]);
      var _ := TrySpawnOrUpdateIndicator(objects[j], engine);
      ghost var touched := Touched(was, TryGetIndicator(objects[j]), objects[j]);
      TouchedEffects(was, TryGetIndicator(objects[j]), objects[j]);
      AppendAssoc(old(engine.Log), refreshed, touched);
      refreshed := refreshed + touched;
      assert Capable(seen + objects[..j], IndicatorKinds) == before;
      PrefixSnoc(objects, j);
      AppendAssoc(seen, objects[..j], [objects[j]]);
    }
    PrefixAll(objects);
  }
}
