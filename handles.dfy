// Lists of live handles: the selections SpawnedObjects is searched and filtered by, and
// the effects of destroying a list of handles.

/** No handle occurs twice. */
predicate Distinct(hs: seq<MapEditorObject>)
  decreases |hs|
{
  hs == [] || (hs[|hs| - 1] !in hs[..|hs| - 1] && Distinct(hs[..|hs| - 1]))
}

/** In a list of distinct handles, no handle occurs before its own position. */
lemma {:induction false} DistinctAt(hs: seq<MapEditorObject>, i: nat)
  requires Distinct(hs) && i < |hs|
  ensures hs[i] !in hs[..i]
  decreases |hs|
{
  if i < |hs| - 1 {
    var front := hs[..|hs| - 1];
    DistinctAt(front, i);
    PrefixOfPrefix(hs, |hs| - 1, i);
  }
}

/** The handles of `hs` with id `id`, in list order. */
function WithId(hs: seq<MapEditorObject>, id: string): (r: seq<MapEditorObject>)
  decreases |hs|
  ensures |r| <= |hs|
{
  if hs == [] then []
  else
    var h := hs[|hs| - 1];
    WithId(hs[..|hs| - 1], id) + (if h.Id == id then [h] else [])
}

/** The handles of `hs` with an id other than `id`, in list order. */
function WithoutId(hs: seq<MapEditorObject>, id: string): (r: seq<MapEditorObject>)
  decreases |hs|
  ensures |r| <= |hs|
{
  if hs == [] then []
  else
    var h := hs[|hs| - 1];
    WithoutId(hs[..|hs| - 1], id) + (if h.Id != id then [h] else [])
}

/** Filtering by id keeps the relative order of the handles it keeps: it distributes over
    concatenation. */
lemma {:induction false} WithIdConcat(a: seq<MapEditorObject>, b: seq<MapEditorObject>, id: string)
  ensures WithId(a + b, id) == WithId(a, id) + WithId(b, id)
  decreases |b|
{
  if b == [] {
    AppendNil(a);
    AppendNil(WithId(a, id));
  } else {
    var front, h := b[..|b| - 1], b[|b| - 1];
    WithIdConcat(a, front, id);
    FrontOfAppend(a, b);
    assert (a + b)[|a + b| - 1] == h;
    AppendAssoc(WithId(a, id), WithId(front, id), if h.Id == id then [h] else []);
  }
}

lemma {:induction false} WithoutIdConcat(a: seq<MapEditorObject>, b: seq<MapEditorObject>, id: string)
  ensures WithoutId(a + b, id) == WithoutId(a, id) + WithoutId(b, id)
  decreases |b|
{
  if b == [] {
    AppendNil(a);
    AppendNil(WithoutId(a, id));
  } else {
    var front, h := b[..|b| - 1], b[|b| - 1];
    WithoutIdConcat(a, front, id);
    FrontOfAppend(a, b);
    assert (a + b)[|a + b| - 1] == h;
    AppendAssoc(WithoutId(a, id), WithoutId(front, id), if h.Id != id then [h] else []);
  }
}

/** A list none of whose handles has the id loses nothing to WithoutId and gives nothing
    to WithId. */
lemma {:induction false} NoneWithId(hs: seq<MapEditorObject>, id: string)
  requires forall h :: h in hs ==> h.Id != id
  ensures WithId(hs, id) == [] && WithoutId(hs, id) == hs
  decreases |hs|
{
  if hs != [] {
    var front := hs[..|hs| - 1];
    assert forall h :: h in front ==> h in hs;
    NoneWithId(front, id);
    Unsnoc(hs);
  }
}

/** A list all of whose handles have the id is kept whole by WithId and emptied by
    WithoutId. */
lemma {:induction false} AllWithId(hs: seq<MapEditorObject>, id: string)
  requires forall h :: h in hs ==> h.Id == id
  ensures WithId(hs, id) == hs && WithoutId(hs, id) == []
  decreases |hs|
{
  if hs != [] {
    var front := hs[..|hs| - 1];
    assert forall h :: h in front ==> h in hs;
    AllWithId(front, id);
    Unsnoc(hs);
  }
}

/** WithId keeps exactly the handles with id `id`. */
lemma {:induction false} WithIdMembers(hs: seq<MapEditorObject>, id: string)
  ensures forall h :: h in WithId(hs, id) ==> h in hs && h.Id == id
  ensures forall h :: h in hs && h.Id == id ==> h in WithId(hs, id)
  decreases |hs|
{
  if hs != [] {
    WithIdMembers(hs[..|hs| - 1], id);
    Unsnoc(hs);
  }
}

/** WithoutId keeps exactly the handles with an id other than `id`. */
lemma {:induction false} WithoutIdMembers(hs: seq<MapEditorObject>, id: string)
  ensures forall h :: h in WithoutId(hs, id) ==> h in hs && h.Id != id
  ensures forall h :: h in hs && h.Id != id ==> h in WithoutId(hs, id)
  decreases |hs|
{
  if hs != [] {
    WithoutIdMembers(hs[..|hs| - 1], id);
    Unsnoc(hs);
  }
}

/** A filtered list of distinct handles has distinct handles. */
lemma {:induction false} WithoutIdDistinct(hs: seq<MapEditorObject>, id: string)
  requires Distinct(hs)
  ensures Distinct(WithoutId(hs, id))
  decreases |hs|
{
  if hs != [] {
    var front := hs[..|hs| - 1];
    WithoutIdDistinct(front, id);
    WithoutIdMembers(front, id);
    var r := WithoutId(hs, id);
    if r != WithoutId(front, id) {
      assert r[..|r| - 1] == WithoutId(front, id);
    }
  }
}

/** List.Find: the position of the first handle with id `id`, |hs| if there is none. */
function FirstWithId(hs: seq<MapEditorObject>, id: string): (i: nat)
  ensures i <= |hs|
  ensures i < |hs| ==> hs[i].Id == id
  ensures forall j :: 0 <= j < i ==> hs[j].Id != id
{
  if hs == [] then 0
  else if hs[0].Id == id then 0
  else 1 + FirstWithId(hs[1..], id)
}

/** List.Remove: `hs` without the first occurrence of `x`. */
function RemoveFirst(hs: seq<MapEditorObject>, x: MapEditorObject): seq<MapEditorObject> {
  if hs == [] then []
  else if hs[0] == x then hs[1..]
  else [hs[0]] + RemoveFirst(hs[1..], x)
}

/** Removing `x` from a list where it first occurs between `p` and `q` leaves `p + q`. */
lemma {:induction false} RemoveFirstAt(p: seq<MapEditorObject>, x: MapEditorObject, q: seq<MapEditorObject>)
  requires x !in p
  ensures RemoveFirst(p + ([x] + q), x) == p + q
{
  var s := p + ([x] + q);
  if p == [] {
    NilAppend([x] + q);
    NilAppend(q);
    RestOfAppend([x], q);
  } else {
    var rest := p[1..];
    RestOfAppend(p, [x] + q);
    assert x !in rest;
    RemoveFirstAt(rest, x, q);
    Uncons(p);
    AppendAssoc([p[0]], rest, q);
  }
}

/** What the handles `hs` bind, in list order. */
function Views(hs: seq<MapEditorObject>): (r: seq<Placement>)
  decreases |hs|
  ensures |r| == |hs|
{
  if hs == [] then [] else Views(hs[..|hs| - 1]) + [hs[|hs| - 1].View()]
}

/** Position by position, the views are what the handles bind. */
lemma {:induction false} ViewsAt(hs: seq<MapEditorObject>)
  ensures forall i :: 0 <= i < |hs| ==> Views(hs)[i] == hs[i].View()
  decreases |hs|
{
  if hs != [] {
    ViewsAt(hs[..|hs| - 1]);
  }
}

/** The handles of `hs` whose descriptors can have an indicator. */
function Capable(hs: seq<MapEditorObject>, kinds: set<Kind>): set<MapEditorObject> {
  set h | h in hs && h.Kind in kinds
}

/** One more handle adds itself to the capable ones exactly when its kind is in `kinds`. */
lemma CapableSnoc(hs: seq<MapEditorObject>, h: MapEditorObject, kinds: set<Kind>)
  ensures Capable(hs + [h], kinds) == Capable(hs, kinds) + (if h.Kind in kinds then {h} else {})
{
}

/** The capable handles with id `id` gain `h` exactly when it has the id and can have an
    indicator. */
lemma CapableWithIdSnoc(hs: seq<MapEditorObject>, h: MapEditorObject, id: string, kinds: set<Kind>)
  ensures Capable(WithId(hs + [h], id), kinds) ==
    Capable(WithId(hs, id), kinds) + (if h.Id == id && h.Kind in kinds then {h} else {})
{
  LeftOfAppend(hs, [h]);
  CapableSnoc(WithId(hs, id), h, kinds);
  NilAppend(WithId(hs, id));
}

/** The handles of `hs` that are in `cap`. */
function Among(cap: set<MapEditorObject>, hs: seq<MapEditorObject>): set<MapEditorObject> {
  set h | h in hs && h in cap
}

/** The indicator a destroy finds for `h` in the table `b`, where `cap` holds the handles
    whose descriptors can have an indicator: TryGetIndicator on that table. */
function IndicatorIn(b: Bindings, cap: set<MapEditorObject>, h: MapEditorObject): Option<IndicatorObject>
  requires OneIndicatorPerHandle(b)
{
  if h in cap then IndicatorFor(b, h) else None
}

/** The effects of destroying the handles `hs` one after the other, while the table `b`
    still holds their indicators: each handle's indicator, if any, then the handle. */
function Teardown(b: Bindings, cap: set<MapEditorObject>, hs: seq<MapEditorObject>): seq<Effect>
  requires OneIndicatorPerHandle(b)
  decreases |hs|
{
  if hs == [] then []
  else
    var h := hs[|hs| - 1];
    Teardown(b, cap, hs[..|hs| - 1]) + Dropped(IndicatorIn(b, cap, h)) + [ObjectDestroyed(h)]
}

/** The handles whose objects the effects `log` destroy, in order. */
function DestroyedObjects(log: seq<Effect>): seq<MapEditorObject>
{
  if log == [] then []
  else
    var e := log[|log| - 1];
    DestroyedObjects(log[..|log| - 1]) + (if e.ObjectDestroyed? then [e.handle] else [])
}

lemma {:induction false} DestroyedObjectsConcat(a: seq<Effect>, b: seq<Effect>)
  ensures DestroyedObjects(a + b) == DestroyedObjects(a) + DestroyedObjects(b)
  decreases |b|
{
  if b == [] {
    AppendNil(a);
    AppendNil(DestroyedObjects(a));
  } else {
    var ab, e := a + b, b[|b| - 1];
    DestroyedObjectsConcat(a, b[..|b| - 1]);
    FrontOfAppend(a, b);
    AppendAssoc(DestroyedObjects(a), DestroyedObjects(b[..|b| - 1]), if e.ObjectDestroyed? then [e.handle] else []);
  }
}

/** Tearing down `hs` destroys exactly the handles of `hs`, in list order, each once. */
lemma {:induction false} TeardownDestroys(b: Bindings, cap: set<MapEditorObject>, hs: seq<MapEditorObject>)
  requires OneIndicatorPerHandle(b)
  ensures DestroyedObjects(Teardown(b, cap, hs)) == hs
  decreases |hs|
{
  if hs != [] {
    var front, h := hs[..|hs| - 1], hs[|hs| - 1];
    var done := Teardown(b, cap, front);
    var dropped := Dropped(IndicatorIn(b, cap, h));
    TeardownDestroys(b, cap, front);
    DestroyedObjectsConcat(done, dropped);
    DestroyedObjectsConcat(done + dropped, [ObjectDestroyed(h)]);
    assert DestroyedObjects(dropped) == [] by {
      if dropped != [] {
        assert dropped[..0] == [];
      }
    }
    AppendNil(front);
    assert DestroyedObjects([ObjectDestroyed(h)]) == [h] by {
      assert [ObjectDestroyed(h)][..0] == [];
    }
    Unsnoc(hs);
  }
}

/** Tearing down destroys nothing but handles and their indicators. */
lemma {:induction false} TeardownOnlyDestroys(b: Bindings, cap: set<MapEditorObject>, hs: seq<MapEditorObject>)
  requires OneIndicatorPerHandle(b)
  ensures forall e :: e in Teardown(b, cap, hs) ==> e.ObjectDestroyed? || e.IndicatorDestroyed?
  decreases |hs|
{
  if hs != [] {
    TeardownOnlyDestroys(b, cap, hs[..|hs| - 1]);
  }
}

/** What a list of handles binds distributes over concatenation. */
lemma ViewsConcat(a: seq<MapEditorObject>, b: seq<MapEditorObject>)
  ensures Views(a + b) == Views(a) + Views(b)
{
  var l, r := Views(a + b), Views(a) + Views(b);
  ViewsAt(a + b);
  ViewsAt(a);
  ViewsAt(b);
  assert |l| == |r|;
  forall i | 0 <= i < |l| ensures l[i] == r[i] {
    if i < |a| {
      assert (a + b)[i] == a[i];
    } else {
      assert (a + b)[i] == b[i - |a|];
    }
  }
}

/** Handles `spawned` appended after handles `objects` that bind `before + placed` bind that
    followed by what `spawned` binds. */
lemma ViewsExtend(objects: seq<MapEditorObject>, spawned: seq<MapEditorObject>, before: seq<Placement>, placed: seq<Placement>)
  requires Views(objects) == before + placed
  ensures Views(objects + spawned) == before + (placed + Views(spawned))
{
  ViewsConcat(objects, spawned);
  AppendAssoc(before, placed, Views(spawned));
}

/** Appending a handle appends what it binds. */
lemma ViewsSnoc(hs: seq<MapEditorObject>, x: MapEditorObject)
  ensures Views(hs + [x]) == Views(hs) + [x.View()]
{
  LeftOfAppend(hs, [x]);
}

/** Appending a handle not yet listed keeps the handles distinct. */
lemma DistinctSnoc(hs: seq<MapEditorObject>, x: MapEditorObject)
  requires Distinct(hs) && x !in hs
  ensures Distinct(hs + [x])
{
  LeftOfAppend(hs, [x]);
}

/** Moving the next handle `x` of a list of distinct handles from the part still to visit
    to the part visited: it was not visited before. */
lemma DistinctStep(seen: seq<MapEditorObject>, x: MapEditorObject, rest: seq<MapEditorObject>)
  requires Distinct(seen + ([x] + rest))
  ensures x !in seen
  ensures seen + ([x] + rest) == (seen + [x]) + rest
{
  DistinctAt(seen + ([x] + rest), |seen|);
  LeftOfAppend(seen, [x] + rest);
  AppendAssoc(seen, [x], rest);
}

/** Moving the next handle `x` of a list of distinct handles from the part still to visit
    to the part visited: it goes to one side of the id filter, and it is on neither side
    before. */
lemma FilterStep(seen: seq<MapEditorObject>, x: MapEditorObject, rest: seq<MapEditorObject>, id: string)
  requires Distinct(seen + ([x] + rest))
  ensures WithId(seen + [x], id) == WithId(seen, id) + (if x.Id == id then [x] else [])
  ensures WithoutId(seen + [x], id) == WithoutId(seen, id) + (if x.Id != id then [x] else [])
  ensures x !in WithId(seen, id) && x !in WithoutId(seen, id)
  ensures seen + ([x] + rest) == (seen + [x]) + rest
{
  LeftOfAppend(seen, [x]);
  DistinctAt(seen + ([x] + rest), |seen|);
  LeftOfAppend(seen, [x] + rest);
  AppendAssoc(seen, [x], rest);
  WithIdMembers(seen, id);
  WithoutIdMembers(seen, id);
}

/** Destroying one more handle `h`, not yet destroyed: its indicator in the table that
    remains is its indicator in the original table `b`, the table loses exactly that
    indicator, and the teardown gains its effects. */
lemma TeardownStep(b: Bindings, cap: set<MapEditorObject>, done: seq<MapEditorObject>, h: MapEditorObject)
  requires OneIndicatorPerHandle(b) && h !in done
  ensures OneIndicatorPerHandle(Unbind(b, Among(cap, done)))
  ensures IndicatorFor(Unbind(b, Among(cap, done)), h) == IndicatorFor(b, h)
  ensures Unbind(b, Among(cap, done + [h])) ==
    if IndicatorIn(b, cap, h).Some? then Unbind(b, Among(cap, done)) - {IndicatorIn(b, cap, h).value}
    else Unbind(b, Among(cap, done))
  ensures Teardown(b, cap, done + [h]) == Teardown(b, cap, done) + Dropped(IndicatorIn(b, cap, h)) + [ObjectDestroyed(h)]
{
  UnbindKeepsOthers(b, Among(cap, done), h);
  UnbindOneMore(b, Among(cap, done), h);
  if h in cap {
    assert Among(cap, done + [h]) == Among(cap, done) + {h};
  } else {
    assert Among(cap, done + [h]) == Among(cap, done);
  }
  LeftOfAppend(done, [h]);
}

