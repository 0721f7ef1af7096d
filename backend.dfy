/** The engine side of the registry, reduced to what the registry's logic reads: which
    rooms a descriptor may go into, a room's index, whether an engine spawn yields an
    object, whether a vanilla door has a given id, and the order in which a dictionary
    enumerates its entries. From these, the handles a spawn or a reload produces. */
module SceneBackend {
  import opened Descriptors
  import opened Sequences

  /** A room of the facility, as the engine reports it. */
  type Room(==,0)

  /** The engine calls the registry makes, fixed for a run, as lookup tables:
      `rooms` is the descriptor's GetRooms, `roomIndex` a room's GetRoomIndex, `spawns`
      whether SpawnOrUpdateObject(room) returns an object (rather than null),
      `vanillaDoor` whether Door.Get(id) finds a door of the base game, and `enumerate`
      the order in which a dictionary's ForEach visits its entries. A descriptor without
      rooms in the table has none, and a room without an index has index -1, which only
      descriptors bound to every room accept. */
  datatype Backend = Backend(
    roomsOf: imap<Descriptor, seq<Room>>,
    roomIndexOf: imap<Room, int>,
    spawning: iset<(Descriptor, Room)>,
    vanillaDoors: iset<string>,
    order: imap<Dict, seq<(string, Descriptor)>>)
  {
    function rooms(d: Descriptor): seq<Room> {
      if d in roomsOf then roomsOf[d] else []
    }

    function roomIndex(r: Room): int {
      if r in roomIndexOf then roomIndexOf[r] else -1
    }

    predicate spawns(d: Descriptor, r: Room) {
      (d, r) in spawning
    }

    predicate vanillaDoor(id: string) {
      id in vanillaDoors
    }

    function enumerate(m: Dict): seq<(string, Descriptor)> {
      if m in order then order[m] else []
    }
  }

  /** `s` lists every entry of `m` exactly once: it lists the entries and nothing else,
      and is as long as there are entries. */
  ghost predicate EnumeratesEntries(s: seq<(string, Descriptor)>, m: Dict) {
    |s| == |m| && forall e :: e in s <==> e in m.Items
  }

  /** Assumed behaviour of Dictionary enumeration: a ForEach visits every entry once. */
  ghost predicate Enumerates(b: Backend) {
    forall m :: EnumeratesEntries(b.enumerate(m), m)
  }

  /** SpawnObject's test for one room: the descriptor is bound to every room (negative
      index) or to this room's index, and the engine spawn yielded an object. */
  predicate Eligible(b: Backend, d: Descriptor, r: Room) {
    (d.index < 0 || d.index == b.roomIndex(r)) && b.spawns(d, r)
  }

  /** What a live handle binds: the map it belongs to, its id, its descriptor, its room. */
  datatype Placement = Placement(mapName: string, id: string, base: Descriptor, room: Room)

  /** The handles SpawnObject creates for rooms `rs`, in room order: one for each place
      an eligible room has in `rs`. */
  function Fanout(b: Backend, mapName: string, id: string, d: Descriptor, rs: seq<Room>): seq<Placement>
  {
    if rs == [] then []
    else
      var r := rs[|rs| - 1];
      Fanout(b, mapName, id, d, rs[..|rs| - 1]) + (if Eligible(b, d, r) then [Placement(mapName, id, d, r)] else [])
  }

  /** One more room: its placement, when it is eligible, follows the ones before. */
  lemma FanoutSnoc(b: Backend, mapName: string, id: string, d: Descriptor, rs: seq<Room>, r: Room)
    ensures Fanout(b, mapName, id, d, rs + [r])
         == Fanout(b, mapName, id, d, rs) + (if Eligible(b, d, r) then [Placement(mapName, id, d, r)] else [])
  {
    LeftOfAppend(rs, [r]);
  }

  /** SpawnObject creates a handle for exactly the eligible rooms, no more handles than
      there are rooms (FanoutRooms counts them room by room). */
  lemma {:induction false} FanoutSpec(b: Backend, mapName: string, id: string, d: Descriptor, rs: seq<Room>)
    ensures |Fanout(b, mapName, id, d, rs)| <= |rs|
    ensures forall p :: p in Fanout(b, mapName, id, d, rs) ==>
      p.mapName == mapName && p.id == id && p.base == d && p.room in rs && Eligible(b, d, p.room)
    ensures forall r :: r in rs && Eligible(b, d, r) ==> Placement(mapName, id, d, r) in Fanout(b, mapName, id, d, rs)
  {
    if rs != [] {
      var front := rs[..|rs| - 1];
      FanoutSpec(b, mapName, id, d, front);
      Unsnoc(rs);
    }
  }

  /** The rooms of the placements `ps`, in order. */
  function RoomsOf(ps: seq<Placement>): (r: seq<Room>)
    ensures |r| == |ps|
  {
    if ps == [] then [] else RoomsOf(ps[..|ps| - 1]) + [ps[|ps| - 1].room]
  }

  lemma RoomsOfSnoc(ps: seq<Placement>, p: Placement)
    ensures RoomsOf(ps + [p]) == RoomsOf(ps) + [p.room]
  {
    LeftOfAppend(ps, [p]);
  }

  /** SpawnObject creates, for each room, as many handles as the room has places in `rs`
      when it is eligible, and none otherwise: a room listed once gets at most one. */
  lemma {:induction false} FanoutRooms(b: Backend, mapName: string, id: string, d: Descriptor, rs: seq<Room>)
    ensures forall r :: multiset(RoomsOf(Fanout(b, mapName, id, d, rs)))[r] == if Eligible(b, d, r) then multiset(rs)[r] else 0
  {
    if rs != [] {
      var front, r := rs[..|rs| - 1], rs[|rs| - 1];
      var before := Fanout(b, mapName, id, d, front);
      FanoutRooms(b, mapName, id, d, front);
      Unsnoc(rs);
      assert multiset(rs) == multiset(front) + multiset{r};
      if Eligible(b, d, r) {
        RoomsOfSnoc(before, Placement(mapName, id, d, r));
      } else {
        AppendNil(before);
      }
    }
  }

  /** The handles SpawnObject(id, d) creates in map `mapName`. */
  function SpawnPlacements(b: Backend, mapName: string, id: string, d: Descriptor): seq<Placement> {
    Fanout(b, mapName, id, d, b.rooms(d))
  }

  /** Does Reload hand `id` of the dictionary of kind `k` to a vanilla door instead of
      spawning it? */
  predicate SetsUpVanillaDoor(b: Backend, k: Kind, id: string) {
    k == Door && b.vanillaDoor(id)
  }

  /** The handles one of Reload's ForEach passes over the dictionary of kind `k` creates
      on visiting the first `n` entries of its enumeration `es`. */
  function KindPlacements(b: Backend, mapName: string, k: Kind, es: seq<(string, Descriptor)>, n: nat): seq<Placement>
    requires n <= |es|
  {
    if n == 0 then []
    else
      var (id, d) := es[n - 1];
      KindPlacements(b, mapName, k, es, n - 1)
        + (if SetsUpVanillaDoor(b, k, id) then [] else SpawnPlacements(b, mapName, id, d))
  }

  /** The ids among the first `n` entries of `es` that the pass hands to vanilla doors, in
      order. */
  function VanillaDoorIds(b: Backend, k: Kind, es: seq<(string, Descriptor)>, n: nat): (r: seq<string>)
    requires n <= |es|
    ensures k != Door ==> r == []
  {
    if n == 0 then []
    else
      var id := es[n - 1].0;
      VanillaDoorIds(b, k, es, n - 1) + (if SetsUpVanillaDoor(b, k, id) then [id] else [])
  }

  /** A pass hands to vanilla doors exactly the visited door ids that name one. */
  lemma {:induction false} VanillaDoorIdsMembers(b: Backend, k: Kind, es: seq<(string, Descriptor)>, n: nat)
    requires n <= |es|
    ensures forall id :: id in VanillaDoorIds(b, k, es, n) <==>
      (exists i :: 0 <= i < n && es[i].0 == id) && SetsUpVanillaDoor(b, k, id)
  {
    if n > 0 {
      VanillaDoorIdsMembers(b, k, es, n - 1);
    }
  }

  /** The ids a whole pass over the dictionary of kind `k` hands to vanilla doors. */
  function PassDoorIds(b: Backend, c: Catalog, k: Kind): seq<string> {
    var es := b.enumerate(c.Get(k));
    VanillaDoorIds(b, k, es, |es|)
  }

  /** The handles of the pass over the dictionary of kind `k`. */
  function Phase(b: Backend, mapName: string, c: Catalog, k: Kind): seq<Placement> {
    var es := b.enumerate(c.Get(k));
    KindPlacements(b, mapName, k, es, |es|)
  }

  /** The handles of Reload's first `n` passes, one pass after the other in SearchOrder. */
  function ReloadUpTo(b: Backend, mapName: string, c: Catalog, n: nat): seq<Placement>
    requires n <= |SearchOrder|
  {
    if n == 0 then [] else ReloadUpTo(b, mapName, c, n - 1) + Phase(b, mapName, c, SearchOrder[n - 1])
  }

  /** The handles a Reload of map `mapName` with dictionaries `c` creates: those of all
      twelve passes. */
  function ReloadPlacements(b: Backend, mapName: string, c: Catalog): seq<Placement> {
    ReloadUpTo(b, mapName, c, |SearchOrder|)
  }

  /** Every handle of a pass is spawned from a visited entry of the pass's dictionary, for
      a room the descriptor is eligible for, and no vanilla door id gets one. */
  lemma {:induction false} KindPlacementsFrom(b: Backend, mapName: string, k: Kind, es: seq<(string, Descriptor)>, n: nat)
    requires n <= |es|
    ensures forall p :: p in KindPlacements(b, mapName, k, es, n) ==>
      && p.mapName == mapName && (p.id, p.base) in es
      && Eligible(b, p.base, p.room) && !SetsUpVanillaDoor(b, k, p.id)
  {
    if n > 0 {
      var (id, d) := es[n - 1];
      KindPlacementsFrom(b, mapName, k, es, n - 1);
      if !SetsUpVanillaDoor(b, k, id) {
        FanoutSpec(b, mapName, id, d, b.rooms(d));
        assert (id, d) in es;
      }
    }
  }

  /** Every handle of the first `n` passes comes from the dictionary of its own kind, one
      of the first `n` of SearchOrder; none belongs to a door id a vanilla door took. */
  lemma {:induction false} ReloadUpToFrom(b: Backend, mapName: string, c: Catalog, n: nat)
    requires n <= |SearchOrder| && Enumerates(b) && WellKinded(c)
    ensures forall p :: p in ReloadUpTo(b, mapName, c, n) ==>
      && p.mapName == mapName && Rank(p.base.kind) < n && p.id in c.Get(p.base.kind)
      && c.Get(p.base.kind)[p.id] == p.base && Eligible(b, p.base, p.room)
      && !(p.base.kind == Door && b.vanillaDoor(p.id))
  {
    if n > 0 {
      var k := SearchOrder[n - 1];
      ReloadUpToFrom(b, mapName, c, n - 1);
      RankAt(n - 1);
      var es := b.enumerate(c.Get(k));
      assert EnumeratesEntries(es, c.Get(k));
      KindPlacementsFrom(b, mapName, k, es, |es|);
      KindPlacementsOfKind(b, mapName, k, c.Get(k), es, |es|);
    }
  }

  /** Reload's handles come from the map's own dictionaries, each with the map's name and
      an eligible room, and a door id a vanilla door took yields no handle. */
  lemma ReloadPlacementsFrom(b: Backend, mapName: string, c: Catalog)
    requires Enumerates(b) && WellKinded(c)
    ensures forall p :: p in ReloadPlacements(b, mapName, c) ==>
      && p.mapName == mapName && p.id in c.Get(p.base.kind) && c.Get(p.base.kind)[p.id] == p.base
      && Eligible(b, p.base, p.room) && !(p.base.kind == Door && b.vanillaDoor(p.id))
  {
    ReloadUpToFrom(b, mapName, c, |SearchOrder|);
  }

  /** The converse of KindPlacementsFrom: a visited entry that no vanilla door takes
      contributes every handle SpawnObject makes for it to the pass. */
  lemma {:induction false} KindPlacementsCover(b: Backend, mapName: string, k: Kind, es: seq<(string, Descriptor)>, n: nat, i: nat)
    requires i < n <= |es| && !SetsUpVanillaDoor(b, k, es[i].0)
    ensures forall p :: p in SpawnPlacements(b, mapName, es[i].0, es[i].1) ==> p in KindPlacements(b, mapName, k, es, n)
  {
    var front := KindPlacements(b, mapName, k, es, n - 1);
    var last := if SetsUpVanillaDoor(b, k, es[n - 1].0) then [] else SpawnPlacements(b, mapName, es[n - 1].0, es[n - 1].1);
    assert KindPlacements(b, mapName, k, es, n) == front + last;
    if i < n - 1 {
      KindPlacementsCover(b, mapName, k, es, n - 1, i);
    } else {
      assert last == SpawnPlacements(b, mapName, es[i].0, es[i].1);
    }
  }

  /** An entry of the dictionary of a kind among the first `n` of SearchOrder, unless a
      vanilla door takes it, contributes its handles to the first `n` passes. */
  lemma {:induction false} ReloadUpToCover(b: Backend, mapName: string, c: Catalog, n: nat, k: Kind, id: string)
    requires n <= |SearchOrder| && Enumerates(b)
    requires Rank(k) < n && id in c.Get(k) && !SetsUpVanillaDoor(b, k, id)
    ensures forall p :: p in SpawnPlacements(b, mapName, id, c.Get(k)[id]) ==> p in ReloadUpTo(b, mapName, c, n)
  {
    if Rank(k) < n - 1 {
      ReloadUpToCover(b, mapName, c, n - 1, k, id);
    } else {
      RankPlaces(k);
      var es := b.enumerate(c.Get(k));
      assert EnumeratesEntries(es, c.Get(k));
      assert (id, c.Get(k)[id]) in c.Get(k).Items;
      var i :| 0 <= i < |es| && es[i] == (id, c.Get(k)[id]);
      KindPlacementsCover(b, mapName, k, es, |es|, i);
    }
  }

  /** The converse of ReloadPlacementsFrom: every entry of every dictionary that no
      vanilla door takes contributes all of its SpawnObject handles to Reload's. */
  lemma ReloadPlacementsCover(b: Backend, mapName: string, c: Catalog, k: Kind, id: string)
    requires Enumerates(b) && id in c.Get(k) && !SetsUpVanillaDoor(b, k, id)
    ensures forall p :: p in SpawnPlacements(b, mapName, id, c.Get(k)[id]) ==> p in ReloadPlacements(b, mapName, c)
  {
    ReloadUpToCover(b, mapName, c, |SearchOrder|, k, id);
  }

  /** Handles of a pass over a well-kinded dictionary are all of the pass's kind. */
  lemma KindPlacementsOfKind(b: Backend, mapName: string, k: Kind, dict: Dict, es: seq<(string, Descriptor)>, n: nat)
    requires n <= |es| && EnumeratesEntries(es, dict)
    requires forall id :: id in dict ==> dict[id].kind == k
    ensures forall p :: p in KindPlacements(b, mapName, k, es, n) ==> p.base.kind == k
  {
    KindPlacementsFrom(b, mapName, k, es, n);
    forall p | p in KindPlacements(b, mapName, k, es, n) ensures p.base.kind == k {
      assert (p.id, p.base) in dict.Items;
    }
  }

  /** No handle comes after one of a later kind of SearchOrder. */
  predicate InKindOrder(ps: seq<Placement>) {
    forall i, j :: 0 <= i < j < |ps| ==> Rank(ps[i].base.kind) <= Rank(ps[j].base.kind)
  }

  lemma ConcatInKindOrder(prev: seq<Placement>, ph: seq<Placement>, n: nat)
    requires InKindOrder(prev) && (forall p :: p in prev ==> Rank(p.base.kind) < n)
    requires forall p :: p in ph ==> Rank(p.base.kind) == n
    ensures InKindOrder(prev + ph)
  {
    var ps := prev + ph;
    forall i, j | 0 <= i < j < |ps| ensures Rank(ps[i].base.kind) <= Rank(ps[j].base.kind) {
      if j < |prev| {
        assert ps[i] == prev[i] && ps[j] == prev[j];
      } else if i < |prev| {
        assert ps[i] in prev && ps[j] in ph;
      } else {
        assert ps[i] in ph && ps[j] in ph;
      }
    }
  }

  /** The first `n` passes spawn only kinds of the first `n` of SearchOrder, in that order. */
  lemma {:induction false} ReloadUpToOrdered(b: Backend, mapName: string, c: Catalog, n: nat)
    requires n <= |SearchOrder| && Enumerates(b) && WellKinded(c)
    ensures forall p :: p in ReloadUpTo(b, mapName, c, n) ==> Rank(p.base.kind) < n
    ensures InKindOrder(ReloadUpTo(b, mapName, c, n))
  {
    if n > 0 {
      var k := SearchOrder[n - 1];
      ReloadUpToOrdered(b, mapName, c, n - 1);
      RankAt(n - 1);
      var es := b.enumerate(c.Get(k));
      KindPlacementsOfKind(b, mapName, k, c.Get(k), es, |es|);
      ConcatInKindOrder(ReloadUpTo(b, mapName, c, n - 1), Phase(b, mapName, c, k), n - 1);
    }
  }

  /** Reload spawns the kinds in SearchOrder: Primitives, Lights, Doors, Workstations,
      ItemSpawnpoints, PlayerSpawnpoints, Capybaras, Texts, Schematics, Scp079Cameras,
      ShootingTargets, Teleports. */
  lemma ReloadOrdered(b: Backend, mapName: string, c: Catalog)
    requires Enumerates(b) && WellKinded(c)
    ensures InKindOrder(ReloadPlacements(b, mapName, c))
  {
    ReloadUpToOrdered(b, mapName, c, |SearchOrder|);
  }
}
