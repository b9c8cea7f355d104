/**
 * src/evemap.rs: the compact map the search runs over. Solar systems are stored densely, indexed by
 * a 16-bit `SolarSystemIndex`, next to a parallel table of extended information, with lookups from
 * names and from the 64-bit Eve ids to those indices. A system's neighbour set is either an inline
 * array of three optional indices or a heap vector.
 */
module EveMap {
  import opened Wrappers

  /** `NUM_IN_PLACE_JUMPS`: neighbour sets up to this size are stored inline. */
  const InPlaceJumps: nat := 3

  type u16 = x: int | 0 <= x < 0x1_0000
  type u64 = x: int | 0 <= x < 0x1_0000_0000_0000_0000

  /** The offset of a solar system in the map's system tables. */
  datatype SolarSystemIndex = SolarSystemIndex(index: u16)

  /** The Eve id of a solar system. */
  datatype SolarSystemId = SolarSystemId(id: u64)

  datatype StargateData = StargateData(stargateId: u64, solarSystemId: SolarSystemId, destinationStargateId: u64)

  /** A parsed solar system and the gates it holds: one entry of `stargates_by_system`. */
  type SystemGates = (SolarSystemId, seq<StargateData>)

  /** `[Option<SolarSystemIndex>; NUM_IN_PLACE_JUMPS]` */
  type InPlaceArray = a: seq<Option<SolarSystemIndex>> | |a| == InPlaceJumps witness [None, None, None]

  datatype Neighbours = InPlace(slots: InPlaceArray) | Vec(values: seq<SolarSystemIndex>)

  /** A system's id and its neighbour set; the set is written once (`OnceCell`), `None` until then. */
  datatype SolarSystemMapItem = SolarSystemMapItem(solarSystemId: SolarSystemId, neighbours: Option<Neighbours>)

  datatype SolarSystemEx = SolarSystemEx(name: string, solarSystemId: SolarSystemId, constellationId: u64, regionId: u64)

  /** Where a stellar item sits in the hierarchy, by the names of its parents. */
  datatype MapType = Region | Constellation(region: string) | SolarSystem(region: string, constellation: string)

  /** A parsed region, constellation or solar system: its id, its name and its kind. */
  datatype StellarItem = StellarItem(id: u64, name: string, kind: MapType)

  // ---------------------------------------------------------------------------------------------
  // Neighbour sets

  /** The `filter_map` over the inline array: the indices present, in slot order. */
  function Present(slots: seq<Option<SolarSystemIndex>>): (r: seq<SolarSystemIndex>)
    ensures |r| <= |slots|
    ensures forall x :: x in r <==> Some(x) in slots
  {
    if |slots| == 0 then []
    else
      var rest := Present(slots[1..]);
      assert forall x :: Some(x) in slots <==> Some(x) == slots[0] || Some(x) in slots[1..];
      match slots[0]
      case Some(x) => [x] + rest
      case None => rest
  }

  /** The members of a neighbour set in stored order; an inline set has at most three. */
  function Values(n: Neighbours): (r: seq<SolarSystemIndex>)
    ensures n.InPlace? ==> |r| <= InPlaceJumps
  {
    match n
    case Vec(v) => v
    case InPlace(a) => Present(a)
  }

  /** `SolarSystemMapItem::get_neighbours`: a system whose set was never written has no neighbours. */
  function GetItemNeighbours(item: SolarSystemMapItem): (r: seq<SolarSystemIndex>)
    ensures item.neighbours.None? ==> r == []
    ensures item.neighbours.Some? && item.neighbours.value.InPlace? ==> |r| <= InPlaceJumps
  {
    match item.neighbours
    case Some(n) => Values(n)
    case None => []
  }

  /** Slots that hold `values` in order and nothing after them give back exactly `values`. */
  lemma {:induction false} PresentPadded(values: seq<SolarSystemIndex>, slots: seq<Option<SolarSystemIndex>>)
    requires |values| <= |slots|
    requires forall k :: 0 <= k < |slots| ==> slots[k] == if k < |values| then Some(values[k]) else None
    ensures Present(slots) == values
    decreases |slots|
  {
    if |slots| > 0 {
      if |values| > 0 {
        PresentPadded(values[1..], slots[1..]);
      } else {
        PresentPadded([], slots[1..]);
      }
    }
  }

  /**
   * `FromIterator for Neighbours`: more than three values go to a `Vec` as they are; otherwise they
   * fill the first slots of the inline array, in order, and the other slots stay `None`. Either way
   * reading the set back gives the values in their original order.
   */
  method FromIter(values: seq<SolarSystemIndex>) returns (n: Neighbours)
    ensures n.Vec? <==> |values| > InPlaceJumps
    ensures n.Vec? ==> n.values == values
    ensures n.InPlace? ==>
              forall k :: 0 <= k < InPlaceJumps ==> n.slots[k] == if k < |values| then Some(values[k]) else None
    ensures Values(n) == values
  {
    if |values| > InPlaceJumps {
      return Vec(values);
    }
    var na := new Option<SolarSystemIndex>[InPlaceJumps](_ => None);
    for i := 0 to |values|
      invariant forall k :: 0 <= k < InPlaceJumps ==> na[k] == if k < i then Some(values[k]) else None
    {
      na[i] := Some(values[i]);
    }
    PresentPadded(values, na[..]);
    n := InPlace(na[..]);
  }

  // ---------------------------------------------------------------------------------------------
  // The map and its read-only queries

  datatype Map = Map(systems: seq<SolarSystemMapItem>, extendedSystems: seq<SolarSystemEx>,
                     nameToId: map<string, u64>, systemIdToIndex: map<SolarSystemId, SolarSystemIndex>)

  /** Every index the id lookup hands out is in range and names a system with that id. */
  ghost predicate LookupSound(systems: seq<SolarSystemMapItem>, lookup: map<SolarSystemId, SolarSystemIndex>) {
    && (forall id :: id in lookup <==> exists i :: 0 <= i < |systems| && systems[i].solarSystemId == id)
    && (forall id :: id in lookup ==> lookup[id].index < |systems| && systems[lookup[id].index].solarSystemId == id)
  }

  /** Every stored neighbour is the index of a system of the map. */
  ghost predicate NeighboursInMap(systems: seq<SolarSystemMapItem>) {
    forall i, x :: 0 <= i < |systems| && x in GetItemNeighbours(systems[i]) ==> x.index < |systems|
  }

  /**
   * What `Map::new` establishes when the system ids are unique: the two tables are aligned and
   * ordered by strictly increasing id, the lookup inverts the table, and neighbours are in range.
   */
  ghost predicate Valid(m: Map) {
    && |m.systems| == |m.extendedSystems| <= 0x1_0000
    && (forall i :: 0 <= i < |m.systems| ==> m.extendedSystems[i].solarSystemId == m.systems[i].solarSystemId)
    && (forall i, j :: 0 <= i < j < |m.systems| ==> m.systems[i].solarSystemId.id < m.systems[j].solarSystemId.id)
    && LookupSound(m.systems, m.systemIdToIndex)
    && NeighboursInMap(m.systems)
  }

  /** `get_solarsystem_id_by_name`: the id recorded for `name`, if any. */
  function GetSolarSystemIdByName(m: Map, name: string): (r: Option<SolarSystemId>)
    ensures r.Some? <==> name in m.nameToId
    ensures r.Some? ==> r.value.id == m.nameToId[name]
  {
    if name in m.nameToId then Some(SolarSystemId(m.nameToId[name])) else None
  }

  /**
   * `get_solarsystem_idx`: the `unwrap` panics on an unknown id, so the id must be known. In a valid
   * map the index names the system with that id.
   */
  function GetSolarSystemIdx(m: Map, id: SolarSystemId): (r: SolarSystemIndex)
    requires id in m.systemIdToIndex
    ensures Valid(m) ==> r.index < |m.systems| && m.systems[r.index].solarSystemId == id
  {
    m.systemIdToIndex[id]
  }

  /**
   * `get_system`: the unchecked read requires an index in range. In a valid map, looking the
   * system's id up again gives back the same index.
   */
  function GetSystem(m: Map, i: SolarSystemIndex): (item: SolarSystemMapItem)
    requires i.index < |m.systems|
    ensures Valid(m) ==> item.solarSystemId in m.systemIdToIndex && GetSolarSystemIdx(m, item.solarSystemId) == i
  {
    var item := m.systems[i.index];
    assert Valid(m) ==> item.solarSystemId in m.systemIdToIndex && m.systemIdToIndex[item.solarSystemId] == i by {
      if Valid(m) {
        var k := m.systemIdToIndex[item.solarSystemId].index;
        assert m.systems[k].solarSystemId.id == m.systems[i.index].solarSystemId.id;
      }
    }
    item
  }

  /** `Map::get_neighbours`: in a valid map every neighbour is itself a system of the map. */
  function GetNeighbours(m: Map, i: SolarSystemIndex): (r: seq<SolarSystemIndex>)
    requires i.index < |m.systems|
    ensures Valid(m) ==> forall x :: x in r ==> x.index < |m.systems|
  {
    GetItemNeighbours(GetSystem(m, i))
  }

  /** `get_extended_solarsystem_info`: in a valid map it describes the same system as `get_system`. */
  function GetExtendedSolarSystemInfo(m: Map, i: SolarSystemIndex): (e: SolarSystemEx)
    requires i.index < |m.extendedSystems|
    ensures Valid(m) ==> e.solarSystemId == GetSystem(m, i).solarSystemId
  {
    m.extendedSystems[i.index]
  }
}
