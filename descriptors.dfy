/** The registry's value layer: the twelve object kinds, the descriptors a map stores,
    the twelve id -> descriptor dictionaries of a map, and what adding, removing and
    merging do to them. */
module Descriptors {
  import opened Sequences

  datatype Option<T> = None | Some(value: T)

  /** One kind per dictionary of a map. */
  datatype Kind =
    | Primitive | Light | Door | Workstation | ItemSpawnpoint | PlayerSpawnpoint
    | Capybara | Text | Scp079Camera | ShootingTarget | Schematic | Teleport

  /** A serializable descriptor, reduced to the fields the registry's logic reads:
      its kind (the runtime type of the object), the room index it is bound to
      (negative: every matching room), whether an edit needs a full respawn, and the
      index it had before the last respawn. */
  datatype Descriptor = Descriptor(kind: Kind, index: int, requiresReloading: bool, prevIndex: int)

  type Dict = map<string, Descriptor>

  /** The order in which a map searches, removes from, merges and reloads its dictionaries. */
  const SearchOrder: seq<Kind> :=
    [Primitive, Light, Door, Workstation, ItemSpawnpoint, PlayerSpawnpoint,
     Capybara, Text, Schematic, Scp079Camera, ShootingTarget, Teleport]

  /** The twelve dictionaries of a map, in declaration order. */
  datatype Catalog = Catalog(
    primitives: Dict, lights: Dict, doors: Dict, workstations: Dict,
    itemSpawnpoints: Dict, playerSpawnpoints: Dict, capybaras: Dict, texts: Dict,
    scp079Cameras: Dict, shootingTargets: Dict, schematics: Dict, teleports: Dict)
  {
    /** The dictionary of kind `k`. */
    function Get(k: Kind): Dict {
      match k
      case Primitive => primitives case Light => lights case Door => doors
      case Workstation => workstations case ItemSpawnpoint => itemSpawnpoints
      case PlayerSpawnpoint => playerSpawnpoints case Capybara => capybaras case Text => texts
      case Scp079Camera => scp079Cameras case ShootingTarget => shootingTargets
      case Schematic => schematics case Teleport => teleports
    }

    /** The dictionaries with the one of kind `k` replaced by `d`. */
    function Put(k: Kind, d: Dict): Catalog {
      match k
      case Primitive => this.(primitives := d) case Light => this.(lights := d)
      case Door => this.(doors := d) case Workstation => this.(workstations := d)
      case ItemSpawnpoint => this.(itemSpawnpoints := d)
      case PlayerSpawnpoint => this.(playerSpawnpoints := d)
      case Capybara => this.(capybaras := d) case Text => this.(texts := d)
      case Scp079Camera => this.(scp079Cameras := d)
      case ShootingTarget => this.(shootingTargets := d)
      case Schematic => this.(schematics := d) case Teleport => this.(teleports := d)
    }
  }

  /** Replacing one dictionary changes that one only. */
  lemma GetPut(c: Catalog, k: Kind, d: Dict, k': Kind)
    ensures c.Put(k, d).Get(k') == if k' == k then d else c.Get(k')
  {
    if k' != k {
      PutOther(c, k, d, k');
    }
  }

  /** ... it leaves every other dictionary as it was. */
  lemma PutOther(c: Catalog, k: Kind, d: Dict, k': Kind)
    requires k' != k
    ensures c.Put(k, d).Get(k') == c.Get(k')
  {
    var p := c.Put(k, d);
    match k'
    case Primitive => assert p.primitives == c.primitives;
    case Light => assert p.lights == c.lights;
    case Door => assert p.doors == c.doors;
    case Workstation => assert p.workstations == c.workstations;
    case ItemSpawnpoint => assert p.itemSpawnpoints == c.itemSpawnpoints;
    case PlayerSpawnpoint => assert p.playerSpawnpoints == c.playerSpawnpoints;
    case Capybara => assert p.capybaras == c.capybaras;
    case Text => assert p.texts == c.texts;
    case Scp079Camera => assert p.scp079Cameras == c.scp079Cameras;
    case ShootingTarget => assert p.shootingTargets == c.shootingTargets;
    case Schematic => assert p.schematics == c.schematics;
    case Teleport => assert p.teleports == c.teleports;
  }

  lemma GetPutAll(c: Catalog, k: Kind, d: Dict)
    ensures forall k' :: c.Put(k, d).Get(k') == if k' == k then d else c.Get(k')
  {
    forall k' ensures c.Put(k, d).Get(k') == if k' == k then d else c.Get(k') {
      GetPut(c, k, d, k');
    }
  }

  /** Putting back a dictionary, or replacing it twice, is the same as one replacement. */
  lemma PutPut(c: Catalog, k: Kind, d: Dict, e: Dict)
    ensures c.Put(k, d).Put(k, e) == c.Put(k, e)
    ensures c.Put(k, c.Get(k)) == c
  {
  }

  /** The twelve empty dictionaries of a new map. */
  const EmptyCatalog: Catalog :=
    Catalog(map[], map[], map[], map[], map[], map[], map[], map[], map[], map[], map[], map[])

  lemma EmptyCatalogEmpty()
    ensures forall k :: EmptyCatalog.Get(k) == map[]
  {
  }

  /** `id` is a key of some dictionary. */
  predicate Holds(c: Catalog, id: string) {
    exists k :: id in c.Get(k)
  }

  /** No id is a key of two different dictionaries. */
  predicate UniqueIds(c: Catalog) {
    forall id, k1, k2 :: id in c.Get(k1) && id in c.Get(k2) ==> k1 == k2
  }

  /** Every dictionary holds only descriptors of its own kind. */
  predicate WellKinded(c: Catalog) {
    forall k, id :: id in c.Get(k) ==> c.Get(k)[id].kind == k
  }

  /** Assumed behaviour of the Dictionary extension `TryAdd(id, obj)`, which is not part of
      this model: the dictionary of kind `k` takes `d` under `id` exactly when `d` is of
      kind `k` and `id` is not already one of its keys. */
  function TryAdd(k: Kind, dict: Dict, id: string, d: Descriptor): (r: (bool, Dict))
    ensures r.0 <==> d.kind == k && id !in dict
    ensures r.1 == if r.0 then dict[id := d] else dict
  {
    if d.kind == k && id !in dict then (true, dict[id := d]) else (false, dict)
  }

  /** Assumed behaviour of the Dictionary extension `AddRange(other)`, which is not part of
      this model: it stores the entries of `from` one by one, an incoming entry overwriting
      an existing one with the same key. */
  function AddRange(into: Dict, from: Dict): (r: Dict)
    ensures r.Keys == into.Keys + from.Keys
    ensures forall key :: key in from ==> r[key] == from[key]
    ensures forall key :: key in into && key !in from ==> r[key] == into[key]
  {
    into + from
  }

  /** TryAddElement's chain of TryAdd calls over `order`: the first dictionary that
      accepts (`id`, `d`) gets the entry, and the flag says whether one did. */
  function AddIn(order: seq<Kind>, c: Catalog, id: string, d: Descriptor): (bool, Catalog) {
    if order == [] then (false, c)
    else
      var k := order[0];
      if TryAdd(k, c.Get(k), id, d).0 then (true, c.Put(k, TryAdd(k, c.Get(k), id, d).1))
      else AddIn(order[1..], c, id, d)
  }

  /** TryRemoveElement's chain of Remove calls over `order`: `id` is removed from the first
      dictionary that has it, and the flag says whether one had. */
  function RemoveIn(order: seq<Kind>, c: Catalog, id: string): (bool, Catalog) {
    if order == [] then (false, c)
    else
      var k := order[0];
      if id in c.Get(k) then (true, c.Put(k, c.Get(k) - {id}))
      else RemoveIn(order[1..], c, id)
  }

  function AddResult(c: Catalog, id: string, d: Descriptor): (bool, Catalog) {
    AddIn(SearchOrder, c, id, d)
  }

  /** TryRemoveElement's if-chain over the twelve dictionaries, written out in the order of
      the source; RemoveResultInOrder shows it is RemoveIn over SearchOrder. */
  function RemoveResult(c: Catalog, id: string): (bool, Catalog) {
    if id in c.primitives then (true, c.(primitives := c.primitives - {id}))
    else if id in c.lights then (true, c.(lights := c.lights - {id}))
    else if id in c.doors then (true, c.(doors := c.doors - {id}))
    else if id in c.workstations then (true, c.(workstations := c.workstations - {id}))
    else if id in c.itemSpawnpoints then (true, c.(itemSpawnpoints := c.itemSpawnpoints - {id}))
    else if id in c.playerSpawnpoints then (true, c.(playerSpawnpoints := c.playerSpawnpoints - {id}))
    else if id in c.capybaras then (true, c.(capybaras := c.capybaras - {id}))
    else if id in c.texts then (true, c.(texts := c.texts - {id}))
    else if id in c.schematics then (true, c.(schematics := c.schematics - {id}))
    else if id in c.scp079Cameras then (true, c.(scp079Cameras := c.scp079Cameras - {id}))
    else if id in c.shootingTargets then (true, c.(shootingTargets := c.shootingTargets - {id}))
    else if id in c.teleports then (true, c.(teleports := c.teleports - {id}))
    else (false, c)
  }

  /** Merge on the dictionaries: AddRange of each of `b`'s dictionaries into `a`'s. */
  function MergeCatalogs(a: Catalog, b: Catalog): Catalog {
    Catalog(
      AddRange(a.primitives, b.primitives), AddRange(a.lights, b.lights),
      AddRange(a.doors, b.doors), AddRange(a.workstations, b.workstations),
      AddRange(a.itemSpawnpoints, b.itemSpawnpoints),
      AddRange(a.playerSpawnpoints, b.playerSpawnpoints),
      AddRange(a.capybaras, b.capybaras), AddRange(a.texts, b.texts),
      AddRange(a.scp079Cameras, b.scp079Cameras),
      AddRange(a.shootingTargets, b.shootingTargets),
      AddRange(a.schematics, b.schematics), AddRange(a.teleports, b.teleports))
  }

  /** Each merged dictionary is the AddRange of the two of its kind. */
  lemma MergeGet(a: Catalog, b: Catalog, k: Kind)
    ensures MergeCatalogs(a, b).Get(k) == AddRange(a.Get(k), b.Get(k))
  {
    match k
    case Primitive => case Light => case Door => case Workstation =>
    case ItemSpawnpoint => case PlayerSpawnpoint => case Capybara => case Text =>
    case Scp079Camera => case ShootingTarget => case Schematic => case Teleport =>
  }

  /** After a merge, every entry of `b` is in the dictionary of its kind with `b`'s value,
      and every entry of `a` whose key `b` lacks keeps its value. */
  lemma MergeEntries(a: Catalog, b: Catalog)
    ensures forall k, key :: key in b.Get(k) ==> key in MergeCatalogs(a, b).Get(k) && MergeCatalogs(a, b).Get(k)[key] == b.Get(k)[key]
    ensures forall k, key :: key in a.Get(k) && key !in b.Get(k) ==> key in MergeCatalogs(a, b).Get(k) && MergeCatalogs(a, b).Get(k)[key] == a.Get(k)[key]
    ensures forall k :: MergeCatalogs(a, b).Get(k).Keys == a.Get(k).Keys + b.Get(k).Keys
  {
    forall k ensures MergeCatalogs(a, b).Get(k) == AddRange(a.Get(k), b.Get(k)) {
      MergeGet(a, b, k);
    }
  }

  lemma KindInOrder(k: Kind)
    ensures k in SearchOrder
  {
  }

  /** Only the dictionary of the descriptor's own kind can accept it, so the chain succeeds
      exactly when that kind is searched and `id` is not among its keys. */
  lemma {:induction false} AddInSpec(order: seq<Kind>, c: Catalog, id: string, d: Descriptor)
    ensures AddIn(order, c, id, d) ==
      if d.kind in order && id !in c.Get(d.kind) then (true, c.Put(d.kind, c.Get(d.kind)[id := d]))
      else (false, c)
  {
    if order != [] {
      AddInSpec(order[1..], c, id, d);
      assert d.kind in order <==> order[0] == d.kind || d.kind in order[1..];
    }
  }

  /** TryAddElement succeeds exactly when `id` is not a key of the dictionary of the
      descriptor's own kind: an `id` held by a dictionary of another kind is not rejected. */
  lemma AddResultSpec(c: Catalog, id: string, d: Descriptor)
    ensures AddResult(c, id, d).0 <==> id !in c.Get(d.kind)
    ensures AddResult(c, id, d).1 == if id in c.Get(d.kind) then c else c.Put(d.kind, c.Get(d.kind)[id := d])
  {
    KindInOrder(d.kind);
    AddInSpec(SearchOrder, c, id, d);
  }

  /** The removal chain finds `id` exactly when some dictionary of `order` has it, and
      changes nothing when none does. */
  lemma {:induction false} RemoveInFound(order: seq<Kind>, c: Catalog, id: string)
    ensures RemoveIn(order, c, id).0 <==> exists k :: k in order && id in c.Get(k)
    ensures !RemoveIn(order, c, id).0 ==> RemoveIn(order, c, id).1 == c
  {
    if order != [] {
      RemoveInFound(order[1..], c, id);
      if id !in c.Get(order[0]) {
        forall k | k in order && id in c.Get(k) ensures k in order[1..] {
          assert k != order[0];
        }
      }
    }
  }

  /** TryRemoveElement fails, leaving every dictionary as it was, exactly when no
      dictionary has `id`. */
  lemma RemoveResultSpec(c: Catalog, id: string)
    ensures RemoveResult(c, id).0 <==> Holds(c, id)
    ensures !RemoveResult(c, id).0 ==> RemoveResult(c, id).1 == c
  {
    RemoveResultInOrder(c, id);
    RemoveInFound(SearchOrder, c, id);
    if Holds(c, id) {
      var k :| id in c.Get(k);
      KindInOrder(k);
    }
  }

  /** The dictionary the removal chain takes `id` from is the first of `order` that has
      it; every other dictionary, earlier or later, is left as it was. */
  lemma {:induction false} RemoveInTakesFirst(order: seq<Kind>, c: Catalog, id: string, i: nat)
    requires i < |order| && id in c.Get(order[i])
    requires forall j :: 0 <= j < i ==> id !in c.Get(order[j])
    ensures RemoveIn(order, c, id) == (true, c.Put(order[i], c.Get(order[i]) - {id}))
  {
    if i > 0 {
      assert id !in c.Get(order[0]);
      RemoveInTakesFirst(order[1..], c, id, i - 1);
    }
  }

  /** A kind's position in SearchOrder. */
  function Rank(k: Kind): (i: nat)
    ensures i < |SearchOrder|
  {
    match k
    case Primitive => 0 case Light => 1 case Door => 2 case Workstation => 3
    case ItemSpawnpoint => 4 case PlayerSpawnpoint => 5 case Capybara => 6 case Text => 7
    case Schematic => 8 case Scp079Camera => 9 case ShootingTarget => 10 case Teleport => 11
  }

  lemma SearchOrderRanked()
    ensures forall i :: 0 <= i < |SearchOrder| ==> Rank(SearchOrder[i]) == i
  {
  }

  /** A kind sits in SearchOrder at the position its rank names. */
  lemma RankPlaces(k: Kind)
    ensures SearchOrder[Rank(k)] == k
  {
  }

  /** The kind at position `i` of SearchOrder has rank `i`. */
  lemma RankAt(i: nat)
    requires i < |SearchOrder|
    ensures Rank(SearchOrder[i]) == i
  {
    SearchOrderRanked();
  }

  /** TryRemoveElement takes `id` from the earliest dictionary of SearchOrder that has it,
      and leaves all the others as they were. */
  lemma RemoveTakesEarliest(c: Catalog, id: string, k: Kind)
    requires id in c.Get(k)
    requires forall k' :: Rank(k') < Rank(k) ==> id !in c.Get(k')
    ensures RemoveResult(c, id) == (true, c.Put(k, c.Get(k) - {id}))
  {
    RemoveResultInOrder(c, id);
    SearchOrderRanked();
    RemoveInTakesFirst(SearchOrder, c, id, Rank(k));
  }

  /** The removal chain from position `i` of SearchOrder on: a dictionary without `id` is
      passed over, ... */
  lemma RemoveSkip(c: Catalog, id: string, k: Kind)
    requires id !in c.Get(k)
    ensures RemoveIn(SearchOrder[Rank(k)..], c, id) == RemoveIn(SearchOrder[Rank(k) + 1..], c, id)
  {
    assert SearchOrder[Rank(k)..][1..] == SearchOrder[Rank(k) + 1..];
  }

  /** ... the first with `id` gives it up, ... */
  lemma RemoveHit(c: Catalog, id: string, k: Kind)
    requires id in c.Get(k)
    ensures RemoveIn(SearchOrder[Rank(k)..], c, id) == (true, c.Put(k, c.Get(k) - {id}))
  {
  }

  /** ... and past the last position nothing changes. The chain starts at position 0. */
  lemma RemoveEnds(c: Catalog, id: string)
    ensures RemoveIn(SearchOrder, c, id) == RemoveIn(SearchOrder[0..], c, id)
    ensures RemoveIn(SearchOrder[|SearchOrder|..], c, id) == (false, c)
  {
    assert SearchOrder[0..] == SearchOrder;
    assert SearchOrder[|SearchOrder|..] == [];
  }

  /** One position of the chain: the dictionary there gives up `id` or passes it on. */
  lemma RemoveStep(c: Catalog, id: string, k: Kind)
    ensures RemoveIn(SearchOrder[Rank(k)..], c, id) ==
      if id in c.Get(k) then (true, c.Put(k, c.Get(k) - {id})) else RemoveIn(SearchOrder[Rank(k) + 1..], c, id)
  {
    if id in c.Get(k) {
      RemoveHit(c, id, k);
    } else {
      RemoveSkip(c, id, k);
    }
  }

  /** The written-out chain is RemoveIn over SearchOrder. */
  lemma RemoveResultInOrder(c: Catalog, id: string)
    ensures RemoveResult(c, id) == RemoveIn(SearchOrder, c, id)
  {
    RemoveEnds(c, id);
    RemoveStep(c, id, Primitive);
    RemoveStep(c, id, Light);
    RemoveStep(c, id, Door);
    RemoveStep(c, id, Workstation);
    RemoveStep(c, id, ItemSpawnpoint);
    RemoveStep(c, id, PlayerSpawnpoint);
    RemoveStep(c, id, Capybara);
    RemoveStep(c, id, Text);
    RemoveStep(c, id, Schematic);
    RemoveStep(c, id, Scp079Camera);
    RemoveStep(c, id, ShootingTarget);
    RemoveStep(c, id, Teleport);
  }


  /** When `k` is the only dictionary with `id`, the removal chain takes it from `k`. */
  lemma {:induction false} RemoveInOnly(order: seq<Kind>, c: Catalog, id: string, k: Kind)
    requires k in order && id in c.Get(k)
    requires forall k' :: id in c.Get(k') ==> k' == k
    ensures RemoveIn(order, c, id) == (true, c.Put(k, c.Get(k) - {id}))
  {
    if order[0] != k {
      RemoveInOnly(order[1..], c, id, k);
    }
  }

  /** A removal only takes entries out. */
  lemma {:induction false} RemoveInShrinks(order: seq<Kind>, c: Catalog, id: string)
    ensures forall k, key :: key in RemoveIn(order, c, id).1.Get(k) ==> key in c.Get(k) && RemoveIn(order, c, id).1.Get(k)[key] == c.Get(k)[key]
  {
    if order != [] {
      var k := order[0];
      if id in c.Get(k) {
        GetPutAll(c, k, c.Get(k) - {id});
      } else {
        RemoveInShrinks(order[1..], c, id);
      }
    }
  }

  lemma RemoveShrinks(c: Catalog, id: string)
    ensures forall k, key :: key in RemoveResult(c, id).1.Get(k) ==> key in c.Get(k) && RemoveResult(c, id).1.Get(k)[key] == c.Get(k)[key]
  {
    RemoveResultInOrder(c, id);
    RemoveInShrinks(SearchOrder, c, id);
  }

  /** Add/remove duality: when no dictionary has `id`, adding (`id`, `d`) succeeds and
      removing `id` afterwards gives back exactly the dictionaries before the add. */
  lemma AddThenRemove(c: Catalog, id: string, d: Descriptor)
    requires !Holds(c, id)
    ensures AddResult(c, id, d).0
    ensures RemoveResult(AddResult(c, id, d).1, id) == (true, c)
  {
    AddResultSpec(c, id, d);
    var k := d.kind;
    var c' := c.Put(k, c.Get(k)[id := d]);
    GetPutAll(c, k, c.Get(k)[id := d]);
    assert forall k' :: id in c'.Get(k') ==> k' == k;
    KindInOrder(k);
    RemoveResultInOrder(c', id);
    RemoveInOnly(SearchOrder, c', id, k);
    AddThenDrop(c.Get(k), id, d);
    PutPut(c, k, c.Get(k)[id := d], c.Get(k));
  }

  /** Adding a key a dictionary lacks and then removing it gives back the dictionary. */
  lemma AddThenDrop(m: Dict, id: string, d: Descriptor)
    requires id !in m
    ensures m[id := d] - {id} == m
  {
  }

  /** TryAddElement does not reject an `id` that a dictionary of another kind already has:
      with "a" a primitive, adding "a" as a light succeeds, the two dictionaries then share
      "a", and removing "a" takes it from the primitives, not from the lights. */
  lemma AddIgnoresOtherKinds()
    ensures var c := EmptyCatalog.(primitives := map["a" := Descriptor(Primitive, -1, false, -1)]);
            var added := AddResult(c, "a", Descriptor(Light, -1, false, -1));
            && UniqueIds(c)
            && added.0 && !UniqueIds(added.1)
            && RemoveResult(added.1, "a").1 != c
  {
    var light := Descriptor(Light, -1, false, -1);
    var c := EmptyCatalog.(primitives := map["a" := Descriptor(Primitive, -1, false, -1)]);
    forall id: string, k1: Kind, k2: Kind | id in c.Get(k1) && id in c.Get(k2) ensures k1 == k2 {
      assert k1 == Primitive && k2 == Primitive;
    }
    AddResultSpec(c, "a", light);
    var added := AddResult(c, "a", light).1;
    assert "a" in added.Get(Primitive) && "a" in added.Get(Light);
    RemoveTakesEarliest(added, "a", Primitive);
  }

  /** Cross-kind uniqueness is kept by an add only when `id` is absent from every dictionary. */
  lemma AddKeepsUniqueIds(c: Catalog, id: string, d: Descriptor)
    requires UniqueIds(c) && !Holds(c, id)
    ensures UniqueIds(AddResult(c, id, d).1)
  {
    AddResultSpec(c, id, d);
    var r := c.Put(d.kind, c.Get(d.kind)[id := d]);
    GetPutAll(c, d.kind, c.Get(d.kind)[id := d]);
    forall x: string, k1: Kind, k2: Kind | x in r.Get(k1) && x in r.Get(k2) ensures k1 == k2 {
      if x == id {
        assert k1 == d.kind && k2 == d.kind;
      } else {
        assert x in c.Get(k1) && x in c.Get(k2);
      }
    }
  }

  /** A removal never breaks cross-kind uniqueness. */
  lemma RemoveKeepsUniqueIds(c: Catalog, id: string)
    requires UniqueIds(c)
    ensures UniqueIds(RemoveResult(c, id).1)
  {
    var r := RemoveResult(c, id).1;
    RemoveShrinks(c, id);
    forall x: string, k1: Kind, k2: Kind | x in r.Get(k1) && x in r.Get(k2) ensures k1 == k2 {
      assert x in c.Get(k1) && x in c.Get(k2);
    }
  }

  /** An add stores the descriptor in the dictionary of its own kind, so dictionaries keep
      holding only descriptors of their kind. */
  lemma AddKeepsWellKinded(c: Catalog, id: string, d: Descriptor)
    requires WellKinded(c)
    ensures WellKinded(AddResult(c, id, d).1)
  {
    AddResultSpec(c, id, d);
    if id !in c.Get(d.kind) {
      var r := c.Put(d.kind, c.Get(d.kind)[id := d]);
      GetPutAll(c, d.kind, c.Get(d.kind)[id := d]);
      forall k, x | x in r.Get(k) ensures r.Get(k)[x].kind == k {
        if k == d.kind && x == id {
          assert r.Get(k)[x] == d;
        } else {
          assert x in c.Get(k) && r.Get(k)[x] == c.Get(k)[x];
        }
      }
    }
  }

  /** Storing a dictionary of kind `k` as the dictionary of kind `k` keeps the catalog
      well kinded. */
  lemma PutKeepsWellKinded(c: Catalog, k: Kind, m: Dict)
    requires WellKinded(c) && forall id :: id in m ==> m[id].kind == k
    ensures WellKinded(c.Put(k, m))
  {
    GetPutAll(c, k, m);
  }

  lemma RemoveKeepsWellKinded(c: Catalog, id: string)
    requires WellKinded(c)
    ensures WellKinded(RemoveResult(c, id).1)
  {
    RemoveShrinks(c, id);
  }

  /** Merging keeps cross-kind uniqueness only when no id of `b` sits in `a` under a
      different kind; merge itself checks nothing and the last writer wins. */
  lemma MergeKeepsUniqueIds(a: Catalog, b: Catalog)
    requires UniqueIds(a) && UniqueIds(b)
    requires forall id, k1, k2 :: id in a.Get(k1) && id in b.Get(k2) ==> k1 == k2
    ensures UniqueIds(MergeCatalogs(a, b))
  {
    MergeEntries(a, b);
  }

  lemma MergeKeepsWellKinded(a: Catalog, b: Catalog)
    requires WellKinded(a) && WellKinded(b)
    ensures WellKinded(MergeCatalogs(a, b))
  {
    MergeEntries(a, b);
  }
}
