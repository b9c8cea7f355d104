/**
 * src/evemap.rs, `Map::new` after parsing: from the stellar items and each system's stargates it
 * builds the name table, the dense system tables (ordered by id), the id-to-index lookup, the
 * stargate-to-system table and finally every system's neighbour set. The parsed items arrive as
 * sequences; the parallel parse that produces them is modelled separately, by module MapParse.
 */
module MapBuild {
  import opened Wrappers
  import opened EveMap
  import opened KeySort

  /** The errors `Map::new` returns (`eyre!` messages) once the files are parsed. */
  datatype MapError =
    | ConstellationNotFound(constellation: string, system: string)
    | RegionNotFound(region: string, system: string)
    | IndexOutOfRange
    | NeighboursAlreadySet(ssid: SolarSystemId)

  function ItemKey(x: StellarItem): int { x.id }
  function SystemKey(x: SolarSystemMapItem): int { x.solarSystemId.id }
  function ExKey(x: SolarSystemEx): int { x.solarSystemId.id }

  // ---------------------------------------------------------------------------------------------
  // The name table and the solar systems

  /**
   * `stellar_item_name_to_id`, collected into a `HashMap`: every item's name is a key, and when
   * several items share a name the last of them wins.
   */
  function NameTable(items: seq<StellarItem>): (t: map<string, u64>)
    ensures forall name :: name in t <==> exists k :: 0 <= k < |items| && items[k].name == name
    decreases |items|
  {
    if |items| == 0 then map[]
    else
      var prefix := items[..|items| - 1];
      var last := items[|items| - 1];
      assert forall k :: 0 <= k < |prefix| ==> prefix[k] == items[k];
      NameTable(prefix)[last.name := last.id]
  }

  /** The name table records, for each name, the id of the last item of that name. */
  lemma {:induction false} NameTableLastWins(items: seq<StellarItem>, k: nat)
    requires k < |items| && forall l :: k < l < |items| ==> items[l].name != items[k].name
    ensures NameTable(items)[items[k].name] == items[k].id
    decreases |items|
  {
    if k < |items| - 1 {
      var prefix := items[..|items| - 1];
      assert prefix[k] == items[k];
      assert forall l :: k < l < |prefix| ==> prefix[l] == items[l];
      NameTableLastWins(prefix, k);
    }
  }

  /** The solar-system items, in their original order (their number is `system_count`). */
  function SystemItems(items: seq<StellarItem>): (r: seq<StellarItem>)
    ensures |r| <= |items|
    ensures AllSolarSystems(r)
    decreases |items|
  {
    if |items| == 0 then []
    else
      var prefix := items[..|items| - 1];
      var last := items[|items| - 1];
      assert items == prefix + [last];
      if last.kind.SolarSystem? then SystemItems(prefix) + [last] else SystemItems(prefix)
  }

  predicate AllSolarSystems(s: seq<StellarItem>) {
    forall k :: 0 <= k < |s| ==> s[k].kind.SolarSystem?
  }

  /** The filter keeps exactly the solar systems. */
  lemma {:induction false} SystemItemsMembers(items: seq<StellarItem>)
    ensures forall x :: x in SystemItems(items) <==> x in items && x.kind.SolarSystem?
    decreases |items|
  {
    if |items| > 0 {
      var prefix := items[..|items| - 1];
      assert items == prefix + [items[|items| - 1]];
      SystemItemsMembers(prefix);
    }
  }

  lemma SplitAt<T>(s: seq<T>, i: nat)
    requires i <= |s|
    ensures s[..i] + s[i..] == s
  {
  }

  lemma {:induction false} SystemItemsConcat(a: seq<StellarItem>, b: seq<StellarItem>)
    ensures SystemItems(a + b) == SystemItems(a) + SystemItems(b)
    decreases |b|
  {
    if |b| == 0 {
      assert a + b == a;
    } else {
      var b' := b[..|b| - 1];
      assert (a + b)[..|a + b| - 1] == a + b';
      assert (a + b)[|a + b| - 1] == b[|b| - 1];
      SystemItemsConcat(a, b');
    }
  }

  /**
   * The `SolarSystemEx` of one solar system: the constellation is looked up before the region, and
   * a missing name is an error naming it and the system.
   */
  function ResolveSystem(x: StellarItem, t: map<string, u64>): (r: Result<SolarSystemEx, MapError>)
    requires x.kind.SolarSystem?
    ensures r.Ok? <==> x.kind.constellation in t && x.kind.region in t
    ensures r.Ok? ==> r.value == SolarSystemEx(x.name, SolarSystemId(x.id), t[x.kind.constellation], t[x.kind.region])
    ensures r.Err? && x.kind.constellation !in t ==> r.error == ConstellationNotFound(x.kind.constellation, x.name)
    ensures r.Err? && x.kind.constellation in t ==> r.error == RegionNotFound(x.kind.region, x.name)
  {
    if x.kind.constellation !in t then Err(ConstellationNotFound(x.kind.constellation, x.name))
    else if x.kind.region !in t then Err(RegionNotFound(x.kind.region, x.name))
    else Ok(SolarSystemEx(x.name, SolarSystemId(x.id), t[x.kind.constellation], t[x.kind.region]))
  }

  /** The error of the first system of `s` that does not resolve, if there is one. */
  function FirstUnresolved(s: seq<StellarItem>, t: map<string, u64>): (r: Option<MapError>)
    requires AllSolarSystems(s)
    ensures r.None? <==> forall k :: 0 <= k < |s| ==> ResolveSystem(s[k], t).Ok?
    ensures r.Some? ==>
              exists k :: 0 <= k < |s| && ResolveSystem(s[k], t) == Err(r.value) &&
                forall l :: 0 <= l < k ==> ResolveSystem(s[l], t).Ok?
    decreases |s|
  {
    if |s| == 0 then None
    else
      var prefix := s[..|s| - 1];
      assert forall k :: 0 <= k < |prefix| ==> prefix[k] == s[k];
      match FirstUnresolved(prefix, t)
      case Some(e) => Some(e)
      case None =>
        match ResolveSystem(s[|s| - 1], t)
        case Err(e) => Some(e)
        case Ok(_) => None
  }

  /** The first failure is determined by where it is: any failing system with no failure before it. */
  lemma FirstUnresolvedAt(s: seq<StellarItem>, t: map<string, u64>, k: nat)
    requires AllSolarSystems(s)
    requires k < |s| && ResolveSystem(s[k], t).Err?
    requires forall l :: 0 <= l < k ==> ResolveSystem(s[l], t).Ok?
    ensures FirstUnresolved(s, t) == Some(ResolveSystem(s[k], t).error)
  {
    var r := FirstUnresolved(s, t);
    assert r.Some?;
    var k' :| 0 <= k' < |s| && ResolveSystem(s[k'], t) == Err(r.value) &&
              forall l :: 0 <= l < k' ==> ResolveSystem(s[l], t).Ok?;
    assert k' == k;
  }

  /**
   * The loop over `stellar_items` that fills `solarsystems` and `solarsystems_ex`: one entry per
   * solar system, in order, with its neighbour set not yet written. It stops at the first system
   * whose constellation or region is not a known name.
   */
  method CollectSystems(items: seq<StellarItem>, t: map<string, u64>)
      returns (r: Result<(seq<SolarSystemMapItem>, seq<SolarSystemEx>), MapError>)
    ensures r.Err? ==> FirstUnresolved(SystemItems(items), t) == Some(r.error)
    ensures r.Ok? ==> FirstUnresolved(SystemItems(items), t) == None && Collected(SystemItems(items), t, r.value.0, r.value.1)
  {
    var solarsystems: seq<SolarSystemMapItem> := [];
    var solarsystemsEx: seq<SolarSystemEx> := [];
    ghost var s: seq<StellarItem> := [];
    for i := 0 to |items|
      invariant s == SystemItems(items[..i])
      invariant Collected(s, t, solarsystems, solarsystemsEx)
    {
      SystemItemsStep(items, i);
      var x := items[i];
      if x.kind.SolarSystem? {
        var constellation, region := x.kind.constellation, x.kind.region;
        if constellation !in t || region !in t {
          CollectFails(items, t, i, solarsystems, solarsystemsEx);
          if constellation !in t {
            return Err(ConstellationNotFound(constellation, x.name));
          }
          return Err(RegionNotFound(region, x.name));
        }
        var item := SolarSystemMapItem(SolarSystemId(x.id), None);
        var itemEx := SolarSystemEx(x.name, SolarSystemId(x.id), t[constellation], t[region]);
        CollectedAppend(s, t, solarsystems, solarsystemsEx, x, item, itemEx);
        solarsystems := solarsystems + [item];
        solarsystemsEx := solarsystemsEx + [itemEx];
        s := s + [x];
      }
    }
    assert items[..|items|] == items;
    CollectedResolves(s, t, solarsystems, solarsystemsEx);
    return Ok((solarsystems, solarsystemsEx));
  }

  /**
   * `sys` and `ex` hold one entry per system of `s`, in order: its id with no neighbours yet, and
   * its resolved extended information.
   */
  predicate Collected(s: seq<StellarItem>, t: map<string, u64>, sys: seq<SolarSystemMapItem>, ex: seq<SolarSystemEx>) {
    && |sys| == |ex| == |s|
    && forall k :: 0 <= k < |s| ==>
         && s[k].kind.SolarSystem?
         && sys[k] == SolarSystemMapItem(SolarSystemId(s[k].id), None)
         && ResolveSystem(s[k], t) == Ok(ex[k])
  }

  lemma CollectedAppend(s: seq<StellarItem>, t: map<string, u64>, sys: seq<SolarSystemMapItem>, ex: seq<SolarSystemEx>,
                        x: StellarItem, item: SolarSystemMapItem, itemEx: SolarSystemEx)
    requires Collected(s, t, sys, ex) && x.kind.SolarSystem?
    requires item == SolarSystemMapItem(SolarSystemId(x.id), None) && ResolveSystem(x, t) == Ok(itemEx)
    ensures Collected(s + [x], t, sys + [item], ex + [itemEx])
  {
  }

  /** The collected tables carry the systems' ids, position by position. */
  lemma CollectedKeys(s: seq<StellarItem>, t: map<string, u64>, sys: seq<SolarSystemMapItem>, ex: seq<SolarSystemEx>)
    requires Collected(s, t, sys, ex)
    ensures Keys(sys, SystemKey) == Keys(s, ItemKey) == Keys(ex, ExKey)
  {
  }

  /** When every system has been collected, none failed to resolve. */
  lemma CollectedResolves(s: seq<StellarItem>, t: map<string, u64>, sys: seq<SolarSystemMapItem>, ex: seq<SolarSystemEx>)
    requires Collected(s, t, sys, ex)
    ensures FirstUnresolved(s, t) == None
  {
  }

  /** One more item adds itself to the solar systems exactly when it is one. */
  lemma SystemItemsStep(items: seq<StellarItem>, i: nat)
    requires i < |items|
    ensures SystemItems(items[..i + 1]) ==
              if items[i].kind.SolarSystem? then SystemItems(items[..i]) + [items[i]] else SystemItems(items[..i])
  {
    assert items[..i + 1][..i] == items[..i];
  }

  /** A solar system that does not resolve, after systems that all do, is the first failure. */
  lemma CollectFails(items: seq<StellarItem>, t: map<string, u64>, i: nat,
                     sys: seq<SolarSystemMapItem>, ex: seq<SolarSystemEx>)
    requires i < |items| && items[i].kind.SolarSystem? && ResolveSystem(items[i], t).Err?
    requires Collected(SystemItems(items[..i]), t, sys, ex)
    ensures FirstUnresolved(SystemItems(items), t) == Some(ResolveSystem(items[i], t).error)
  {
    var before := SystemItems(items[..i]);
    SystemItemsStep(items, i);
    SystemItemsConcat(items[..i + 1], items[i + 1..]);
    SplitAt(items, i + 1);
    CollectedResolves(before, t, sys, ex);
    assert (before + [items[i]])[..|before|] == before;
    FirstUnresolvedAppend(before + [items[i]], SystemItems(items[i + 1..]), t);
  }

  /** Systems after a failure do not change which failure comes first. */
  lemma {:induction false} FirstUnresolvedAppend(a: seq<StellarItem>, b: seq<StellarItem>, t: map<string, u64>)
    requires AllSolarSystems(a) && AllSolarSystems(b) && FirstUnresolved(a, t).Some?
    ensures AllSolarSystems(a + b) && FirstUnresolved(a + b, t) == FirstUnresolved(a, t)
    decreases |b|
  {
    if |b| == 0 {
      assert a + b == a;
    } else {
      var b' := b[..|b| - 1];
      assert (a + b)[..|a + b| - 1] == a + b';
      FirstUnresolvedAppend(a, b', t);
    }
  }

  // ---------------------------------------------------------------------------------------------
  // The id lookup and the stargate table

  /**
   * `solarsystem_lookup`, from `enumerate`: every id is mapped to a position holding that id, the
   * last one when an id repeats.
   */
  function Enumerate(systems: seq<SolarSystemMapItem>): (m: map<SolarSystemId, SolarSystemIndex>)
    requires |systems| <= 0x1_0000
    ensures LookupSound(systems, m)
    ensures forall id :: id in m ==> forall j :: m[id].index < j < |systems| ==> systems[j].solarSystemId != id
    decreases |systems|
  {
    if |systems| == 0 then map[]
    else
      var m := Enumerate(systems[..|systems| - 1]);
      EnumerateStep(systems, m);
      m[systems[|systems| - 1].solarSystemId := SolarSystemIndex(|systems| - 1)]
  }

  /** Mapping the last id to the last position extends a sound lookup of the other positions. */
  lemma EnumerateStep(systems: seq<SolarSystemMapItem>, m: map<SolarSystemId, SolarSystemIndex>)
    requires 0 < |systems| <= 0x1_0000
    requires LookupSound(systems[..|systems| - 1], m)
    requires forall id :: id in m ==> forall j :: m[id].index < j < |systems| - 1 ==> systems[j].solarSystemId != id
    ensures var m' := m[systems[|systems| - 1].solarSystemId := SolarSystemIndex(|systems| - 1)];
            && LookupSound(systems, m')
            && forall id :: id in m' ==> forall j :: m'[id].index < j < |systems| ==> systems[j].solarSystemId != id
  {
    var n := |systems| - 1;
    var prefix := systems[..n];
    var last := systems[n].solarSystemId;
    var m' := m[last := SolarSystemIndex(n)];
    forall id ensures id in m' <==> exists i :: 0 <= i < |systems| && systems[i].solarSystemId == id {
      if id in m && id != last {
        var i :| 0 <= i < n && prefix[i].solarSystemId == id;
        assert systems[i].solarSystemId == id;
      }
      if exists i :: 0 <= i < |systems| && systems[i].solarSystemId == id {
        var i :| 0 <= i < |systems| && systems[i].solarSystemId == id;
        if i < n {
          assert prefix[i].solarSystemId == id;
        }
      }
    }
    forall id | id in m' ensures m'[id].index < |systems| && systems[m'[id].index].solarSystemId == id {
      if id != last {
        assert prefix[m[id].index] == systems[m[id].index];
      }
    }
  }

  /** The `try_into` of each position into a 16-bit index fails once there are more than 65536 systems. */
  function IndexLookup(systems: seq<SolarSystemMapItem>): (r: Result<map<SolarSystemId, SolarSystemIndex>, MapError>)
    ensures r.Ok? <==> |systems| <= 0x1_0000
    ensures r.Err? ==> r.error == IndexOutOfRange
    ensures r.Ok? ==> LookupSound(systems, r.value)
  {
    if |systems| > 0x1_0000 then Err(IndexOutOfRange) else Ok(Enumerate(systems))
  }

  /** Every gate of `gates` maps to `idx`, over the entries of `t` (later gates win). */
  function AddGates(t: map<u64, SolarSystemIndex>, gates: seq<StargateData>, idx: SolarSystemIndex)
      : (r: map<u64, SolarSystemIndex>)
    ensures forall g :: g in r <==> g in t || exists l :: 0 <= l < |gates| && gates[l].stargateId == g
    ensures forall g :: g in r ==> r[g] == idx || (g in t && r[g] == t[g])
    ensures forall l :: 0 <= l < |gates| ==> r[gates[l].stargateId] == idx
    ensures forall g :: g in t && (forall l :: 0 <= l < |gates| ==> gates[l].stargateId != g) ==> r[g] == t[g]
    decreases |gates|
  {
    if |gates| == 0 then t
    else
      var prefix := gates[..|gates| - 1];
      var rp := AddGates(t, prefix, idx);
      var r := rp[gates[|gates| - 1].stargateId := idx];
      AddGatesSnoc(t, gates, prefix, idx, rp, r);
      r
  }

  /** Adding one more gate to the table of the gates before it. */
  lemma AddGatesSnoc(t: map<u64, SolarSystemIndex>, gates: seq<StargateData>, prefix: seq<StargateData>,
                     idx: SolarSystemIndex, rp: map<u64, SolarSystemIndex>, r: map<u64, SolarSystemIndex>)
    requires |gates| > 0 && prefix == gates[..|gates| - 1]
    requires forall g :: g in rp <==> g in t || exists l :: 0 <= l < |prefix| && prefix[l].stargateId == g
    requires forall g :: g in rp ==> rp[g] == idx || (g in t && rp[g] == t[g])
    requires forall l :: 0 <= l < |prefix| ==> rp[prefix[l].stargateId] == idx
    requires forall g :: g in t && (forall l :: 0 <= l < |prefix| ==> prefix[l].stargateId != g) ==> rp[g] == t[g]
    requires r == rp[gates[|gates| - 1].stargateId := idx]
    ensures forall g :: g in r <==> g in t || exists l :: 0 <= l < |gates| && gates[l].stargateId == g
    ensures forall g :: g in r ==> r[g] == idx || (g in t && r[g] == t[g])
    ensures forall l :: 0 <= l < |gates| ==> r[gates[l].stargateId] == idx
    ensures forall g :: g in t && (forall l :: 0 <= l < |gates| ==> gates[l].stargateId != g) ==> r[g] == t[g]
  {
    assert forall l :: 0 <= l < |prefix| ==> prefix[l] == gates[l];
  }

  /** Every entry's system is a key of the lookup. */
  predicate EntriesKnownTo(entries: seq<SystemGates>, lookup: map<SolarSystemId, SolarSystemIndex>) {
    forall k :: 0 <= k < |entries| ==> entries[k].0 in lookup
  }

  /** No entry after `k` lists the gate id listed at `entries[k].1[l]`. */
  predicate ListedLast(entries: seq<SystemGates>, k: nat, l: nat)
    requires k < |entries| && l < |entries[k].1|
  {
    forall k2, l2 :: k < k2 < |entries| && 0 <= l2 < |entries[k2].1| ==>
      entries[k2].1[l2].stargateId != entries[k].1[l].stargateId
  }

  /**
   * `stargate_id_to_system_id`: each gate id maps to the index of the system holding it; a gate id
   * listed by several entries maps to the system of the last of them, as `collect` keeps the last
   * value. The `solarsystem_lookup[ssid]` panics on an unknown system, so every system must be known.
   */
  function GateTable(entries: seq<SystemGates>, lookup: map<SolarSystemId, SolarSystemIndex>)
      : (t: map<u64, SolarSystemIndex>)
    requires EntriesKnownTo(entries, lookup)
    ensures forall g :: g in t <==>
              exists k, l :: 0 <= k < |entries| && 0 <= l < |entries[k].1| && entries[k].1[l].stargateId == g
    ensures forall g :: g in t ==> exists k :: 0 <= k < |entries| && t[g] == lookup[entries[k].0]
    ensures forall k, l {:trigger ListedLast(entries, k, l)} ::
              0 <= k < |entries| && 0 <= l < |entries[k].1| && ListedLast(entries, k, l) ==>
                t[entries[k].1[l].stargateId] == lookup[entries[k].0]
    decreases |entries|
  {
    if |entries| == 0 then map[]
    else
      var prefix := entries[..|entries| - 1];
      var last := entries[|entries| - 1];
      var tp := GateTable(prefix, lookup);
      var t := AddGates(tp, last.1, lookup[last.0]);
      GateTableSnoc(entries, prefix, lookup, tp, t);
      t
  }

  /** The gates of one more entry extend the table of the entries before it. */
  lemma GateTableSnoc(entries: seq<SystemGates>, prefix: seq<SystemGates>, lookup: map<SolarSystemId, SolarSystemIndex>,
                      tp: map<u64, SolarSystemIndex>, t: map<u64, SolarSystemIndex>)
    requires |entries| > 0 && EntriesKnownTo(entries, lookup) && prefix == entries[..|entries| - 1]
    requires forall g :: g in tp <==>
               exists k, l :: 0 <= k < |prefix| && 0 <= l < |prefix[k].1| && prefix[k].1[l].stargateId == g
    requires forall g :: g in tp ==> exists k :: 0 <= k < |prefix| && tp[g] == lookup[prefix[k].0]
    requires forall k, l {:trigger ListedLast(prefix, k, l)} ::
               0 <= k < |prefix| && 0 <= l < |prefix[k].1| && ListedLast(prefix, k, l) ==>
                 tp[prefix[k].1[l].stargateId] == lookup[prefix[k].0]
    requires t == AddGates(tp, entries[|entries| - 1].1, lookup[entries[|entries| - 1].0])
    ensures forall g :: g in t <==>
              exists k, l :: 0 <= k < |entries| && 0 <= l < |entries[k].1| && entries[k].1[l].stargateId == g
    ensures forall g :: g in t ==> exists k :: 0 <= k < |entries| && t[g] == lookup[entries[k].0]
    ensures forall k, l {:trigger ListedLast(entries, k, l)} ::
              0 <= k < |entries| && 0 <= l < |entries[k].1| && ListedLast(entries, k, l) ==>
                t[entries[k].1[l].stargateId] == lookup[entries[k].0]
  {
    var last := entries[|entries| - 1];
    assert forall k :: 0 <= k < |prefix| ==> prefix[k] == entries[k];
    forall g | g in t ensures exists k :: 0 <= k < |entries| && t[g] == lookup[entries[k].0] {
      if t[g] == lookup[last.0] {
        assert entries[|entries| - 1] == last;
      }
    }
    forall k, l | 0 <= k < |entries| && 0 <= l < |entries[k].1| && ListedLast(entries, k, l)
      ensures t[entries[k].1[l].stargateId] == lookup[entries[k].0]
    {
      if k < |prefix| {
        assert ListedLast(prefix, k, l);
        assert forall l2 :: 0 <= l2 < |last.1| ==> last.1[l2].stargateId != entries[k].1[l].stargateId;
      }
    }
  }

  /** The `.map(|g| stargate_id_to_system_id[&g.destination_stargate_id])`: each gate's far system. */
  function Destinations(gates: seq<StargateData>, table: map<u64, SolarSystemIndex>): (r: seq<SolarSystemIndex>)
    requires forall l :: 0 <= l < |gates| ==> gates[l].destinationStargateId in table
    ensures |r| == |gates|
    ensures forall l :: 0 <= l < |gates| ==> r[l] == table[gates[l].destinationStargateId]
  {
    seq(|gates|, l requires 0 <= l < |gates| => table[gates[l].destinationStargateId])
  }

  // ---------------------------------------------------------------------------------------------
  // Neighbour sets

  /** No system occurs twice among the first `n` entries. */
  predicate DistinctUpTo(entries: seq<SystemGates>, n: nat)
    requires n <= |entries|
  {
    forall a, b :: 0 <= a < b < n ==> entries[a].0 != entries[b].0
  }

  /** The system of the first entry whose system already had an entry, if there is one. */
  function FirstRepeat(entries: seq<SystemGates>): (r: Option<SolarSystemId>)
    ensures r.None? <==> DistinctUpTo(entries, |entries|)
    ensures r.Some? ==>
              exists k :: 0 <= k < |entries| && entries[k].0 == r.value && DistinctUpTo(entries, k) &&
                exists j :: 0 <= j < k && entries[j].0 == r.value
    decreases |entries|
  {
    if |entries| == 0 then None
    else
      var prefix := entries[..|entries| - 1];
      var id := entries[|entries| - 1].0;
      assert forall k :: 0 <= k < |prefix| ==> prefix[k] == entries[k];
      match FirstRepeat(prefix)
      case Some(r) => Some(r)
      case None => if exists j :: 0 <= j < |prefix| && prefix[j].0 == id then Some(id) else None
  }

  /** The first repeat is determined by where it is: a repeated entry with no repeat before it. */
  lemma FirstRepeatAt(entries: seq<SystemGates>, k: nat, j: nat)
    requires j < k < |entries| && entries[j].0 == entries[k].0 && DistinctUpTo(entries, k)
    ensures FirstRepeat(entries) == Some(entries[k].0)
  {
    var r := FirstRepeat(entries);
    assert r.Some?;
    var k' :| 0 <= k' < |entries| && entries[k'].0 == r.value && DistinctUpTo(entries, k') &&
              exists j :: 0 <= j < k' && entries[j].0 == r.value;
    var j' :| 0 <= j' < k' && entries[j'].0 == r.value;
    assert k' == k;
  }

  /** No system's neighbour set has been written yet. */
  predicate Unwritten(sys: seq<SolarSystemMapItem>) {
    forall i :: 0 <= i < |sys| ==> sys[i].neighbours.None?
  }

  /** A neighbour set has been written, holds `gates`' destinations in order and has the right shape. */
  predicate Stored(item: SolarSystemMapItem, gates: seq<StargateData>, table: map<u64, SolarSystemIndex>) {
    && (forall l :: 0 <= l < |gates| ==> gates[l].destinationStargateId in table)
    && item.neighbours.Some?
    && Values(item.neighbours.value) == Destinations(gates, table)
    && (item.neighbours.value.Vec? <==> |gates| > InPlaceJumps)
  }

  /** Two tables of the same length holding the same ids, position by position. */
  predicate SameIds(a: seq<SolarSystemMapItem>, b: seq<SolarSystemMapItem>) {
    |a| == |b| && forall i :: 0 <= i < |a| ==> a[i].solarSystemId == b[i].solarSystemId
  }

  /** The lookup takes every entry's system to a position holding that system. */
  predicate EntriesIndexed(sys: seq<SolarSystemMapItem>, entries: seq<SystemGates>, lookup: map<SolarSystemId, SolarSystemIndex>) {
    && EntriesKnownTo(entries, lookup)
    && forall k :: 0 <= k < |entries| ==>
         lookup[entries[k].0].index < |sys| && sys[lookup[entries[k].0].index].solarSystemId == entries[k].0
  }

  /**
   * The state after the first `j` entries: their systems are distinct and each holds its entry's
   * destinations, while every other system still holds nothing.
   */
  predicate Written(sys: seq<SolarSystemMapItem>, entries: seq<SystemGates>, lookup: map<SolarSystemId, SolarSystemIndex>,
                    table: map<u64, SolarSystemIndex>, j: nat)
    requires j <= |entries|
  {
    && EntriesIndexed(sys, entries, lookup)
    && DistinctUpTo(entries, j)
    && (forall k :: 0 <= k < j ==> Stored(sys[lookup[entries[k].0].index], entries[k].1, table))
    && (forall i :: 0 <= i < |sys| && (forall k :: 0 <= k < j ==> lookup[entries[k].0].index != i) ==> sys[i].neighbours.None?)
  }

  /** Writing entry `j` into its still-empty system extends the state by one entry. */
  lemma WriteStep(sys: seq<SolarSystemMapItem>, entries: seq<SystemGates>, lookup: map<SolarSystemId, SolarSystemIndex>,
                  table: map<u64, SolarSystemIndex>, j: nat, n: Neighbours)
    requires j < |entries| && Written(sys, entries, lookup, table, j)
    requires sys[lookup[entries[j].0].index].neighbours.None?
    requires forall l :: 0 <= l < |entries[j].1| ==> entries[j].1[l].destinationStargateId in table
    requires Values(n) == Destinations(entries[j].1, table) && (n.Vec? <==> |entries[j].1| > InPlaceJumps)
    ensures var i := lookup[entries[j].0].index;
            var sys' := sys[i := sys[i].(neighbours := Some(n))];
            SameIds(sys, sys') && Written(sys', entries, lookup, table, j + 1)
  {
    var i := lookup[entries[j].0].index;
    var sys' := sys[i := sys[i].(neighbours := Some(n))];
    forall k | 0 <= k < j ensures lookup[entries[k].0].index != i {
      assert Stored(sys[lookup[entries[k].0].index], entries[k].1, table);
    }
    assert DistinctUpTo(entries, j + 1);
    forall k | 0 <= k < j + 1 ensures Stored(sys'[lookup[entries[k].0].index], entries[k].1, table) {
      if k < j {
        assert sys'[lookup[entries[k].0].index] == sys[lookup[entries[k].0].index];
      }
    }
    forall i' | 0 <= i' < |sys'| && (forall k :: 0 <= k < j + 1 ==> lookup[entries[k].0].index != i')
      ensures sys'[i'].neighbours.None?
    {
      assert sys'[i'] == sys[i'];
    }
  }

  /** Meeting an already written system at entry `j` means entry `j` is the first repeat. */
  lemma WriteConflict(sys: seq<SolarSystemMapItem>, entries: seq<SystemGates>, lookup: map<SolarSystemId, SolarSystemIndex>,
                      table: map<u64, SolarSystemIndex>, j: nat)
    requires j < |entries| && Written(sys, entries, lookup, table, j)
    requires sys[lookup[entries[j].0].index].neighbours.Some?
    ensures FirstRepeat(entries) == Some(entries[j].0)
  {
    var k :| 0 <= k < j && lookup[entries[k].0].index == lookup[entries[j].0].index;
    FirstRepeatAt(entries, j, k);
  }

  /**
   * The final loop of `Map::new`: for each entry, in order, collects the destinations of its gates
   * into a neighbour set and writes it once into the entry's system. Writing a system a second
   * time fails (`OnceCell::set`), naming the system: this happens exactly when a system has two
   * entries, at the first such entry. The `[]` lookups panic on a missing key, so each entry's
   * system is known and, for each entry reached, each of its gates' destinations is a known gate.
   */
  method SetNeighbours(systems: array<SolarSystemMapItem>, entries: seq<SystemGates>,
                       lookup: map<SolarSystemId, SolarSystemIndex>, table: map<u64, SolarSystemIndex>)
      returns (r: Result<(), MapError>)
    requires EntriesIndexed(systems[..], entries, lookup)
    requires forall k :: 0 <= k < |entries| && DistinctUpTo(entries, k) ==>
               forall l :: 0 <= l < |entries[k].1| ==> entries[k].1[l].destinationStargateId in table
    requires Unwritten(systems[..])
    modifies systems
    ensures SameIds(old(systems[..]), systems[..])
    ensures r.Err? ==> r.error.NeighboursAlreadySet? && FirstRepeat(entries) == Some(r.error.ssid)
    ensures r.Ok? ==> FirstRepeat(entries) == None && Written(systems[..], entries, lookup, table, |entries|)
  {
    for j := 0 to |entries|
      invariant SameIds(old(systems[..]), systems[..])
      invariant Written(systems[..], entries, lookup, table, j)
    {
      var (ssid, stargates) := entries[j];
      var ssIdx := lookup[ssid];
      var neighbours := FromIter(Destinations(stargates, table));
      if ssIdx.index < systems.Length {
        if systems[ssIdx.index].neighbours.Some? {
          WriteConflict(systems[..], entries, lookup, table, j);
          return Err(NeighboursAlreadySet(ssid));
        }
        WriteStep(systems[..], entries, lookup, table, j, neighbours);
        systems[ssIdx.index] := systems[ssIdx.index].(neighbours := Some(neighbours));
      }
    }
    return Ok(());
  }

  // ---------------------------------------------------------------------------------------------
  // Map::new

  /**
   * What `Map::new` returns as its error, phase by phase: the first system whose parents are not
   * known names, then an index that does not fit 16 bits, then the first system given neighbours
   * twice.
   */
  function BuildError(items: seq<StellarItem>, entries: seq<SystemGates>): (e: Option<MapError>)
    ensures e.None? ==>
              && (forall k :: 0 <= k < |SystemItems(items)| ==> ResolveSystem(SystemItems(items)[k], NameTable(items)).Ok?)
              && |SystemItems(items)| <= 0x1_0000
              && DistinctUpTo(entries, |entries|)
    ensures e == Some(IndexOutOfRange) ==> |SystemItems(items)| > 0x1_0000
  {
    var s := SystemItems(items);
    match FirstUnresolved(s, NameTable(items))
    case Some(e) => Some(e)
    case None =>
      if |s| > 0x1_0000 then Some(IndexOutOfRange)
      else
        match FirstRepeat(entries)
        case Some(id) => Some(NeighboursAlreadySet(id))
        case None => None
  }

  /** The error `BuildError` gives once every system resolves, by the two later phases. */
  lemma BuildErrorAfterCollect(items: seq<StellarItem>, entries: seq<SystemGates>)
    requires FirstUnresolved(SystemItems(items), NameTable(items)) == None
    ensures |SystemItems(items)| > 0x1_0000 ==> BuildError(items, entries) == Some(IndexOutOfRange)
    ensures |SystemItems(items)| <= 0x1_0000 && FirstRepeat(entries).Some? ==>
              BuildError(items, entries) == Some(NeighboursAlreadySet(FirstRepeat(entries).value))
    ensures |SystemItems(items)| <= 0x1_0000 && FirstRepeat(entries).None? ==> BuildError(items, entries) == None
  {
  }

  /**
   * The indexing `[]`s of `Map::new` panic on a missing key. Once the systems are indexed, each
   * entry's system must be one of the solar systems, and each gate of an entry the final loop
   * reaches must lead to a gate held by some entry.
   */
  ghost predicate GatesResolve(items: seq<StellarItem>, entries: seq<SystemGates>) {
    && EntriesAmong(SystemItems(items), entries)
    && (forall k, l :: 0 <= k < |entries| && DistinctUpTo(entries, k) && 0 <= l < |entries[k].1| ==>
          exists k', l' :: 0 <= k' < |entries| && 0 <= l' < |entries[k'].1| &&
            entries[k'].1[l'].stargateId == entries[k].1[l].destinationStargateId)
  }

  /** Every entry's system is one of the solar systems `s`. */
  ghost predicate EntriesAmong(s: seq<StellarItem>, entries: seq<SystemGates>) {
    forall k :: 0 <= k < |entries| ==> HasSystem(s, entries[k].0)
  }

  /** Some item of `s` has the id `id`. */
  ghost predicate HasSystem(s: seq<StellarItem>, id: SolarSystemId) {
    exists p :: 0 <= p < |s| && SolarSystemId(s[p].id) == id
  }

  /** Sorting both tables by id keeps them aligned, given that they were aligned before. */
  lemma SortedAligned(sys: seq<SolarSystemMapItem>, ex: seq<SolarSystemEx>,
                      sys': seq<SolarSystemMapItem>, ex': seq<SolarSystemEx>)
    requires Keys(sys, SystemKey) == Keys(ex, ExKey)
    requires multiset(sys) == multiset(sys') && multiset(ex) == multiset(ex')
    requires SortedBy(sys', SystemKey) && SortedBy(ex', ExKey)
    ensures Keys(sys', SystemKey) == Keys(ex', ExKey)
  {
    PermutationKeys(sys, sys', SystemKey);
    PermutationKeys(ex, ex', ExKey);
    SortedPermutationUnique(Keys(sys', SystemKey), Keys(ex', ExKey));
  }

  /** Sorting distinct ids orders them strictly. */
  lemma SortedStrict(sys: seq<SolarSystemMapItem>, sys': seq<SolarSystemMapItem>)
    requires Distinct(Keys(sys, SystemKey)) && multiset(sys) == multiset(sys') && SortedBy(sys', SystemKey)
    ensures forall i, j :: 0 <= i < j < |sys'| ==> sys'[i].solarSystemId.id < sys'[j].solarSystemId.id
  {
    PermutationKeys(sys, sys', SystemKey);
    PermutationDistinct(Keys(sys, SystemKey), Keys(sys', SystemKey));
    assert forall i :: 0 <= i < |sys'| ==> Keys(sys', SystemKey)[i] == sys'[i].solarSystemId.id;
  }

  /** Every element of a rearrangement is an element of the original. */
  lemma PermutationMembers<T>(s: seq<T>, t: seq<T>)
    requires multiset(s) == multiset(t)
    ensures forall i :: 0 <= i < |t| ==> t[i] in s
  {
    forall i | 0 <= i < |t| ensures t[i] in s {
      assert t[i] in multiset(t);
    }
  }

  /** An id lookup stays sound over a table whose ids did not change. */
  lemma LookupSameIds(a: seq<SolarSystemMapItem>, b: seq<SolarSystemMapItem>, lookup: map<SolarSystemId, SolarSystemIndex>)
    requires |a| == |b| && forall i :: 0 <= i < |a| ==> a[i].solarSystemId == b[i].solarSystemId
    requires LookupSound(a, lookup)
    ensures LookupSound(b, lookup)
  {
  }

  /**
   * When every entry's system holds its destinations and no other system holds anything, every
   * neighbour is an index of the table, because the gate table only hands out lookup results.
   */
  lemma NeighboursBounded(systems: seq<SolarSystemMapItem>, entries: seq<SystemGates>,
                          lookup: map<SolarSystemId, SolarSystemIndex>, table: map<u64, SolarSystemIndex>)
    requires LookupSound(systems, lookup) && EntriesKnownTo(entries, lookup)
    requires forall g :: g in table ==> exists k :: 0 <= k < |entries| && table[g] == lookup[entries[k].0]
    requires Written(systems, entries, lookup, table, |entries|)
    ensures NeighboursInMap(systems)
  {
    forall i, x | 0 <= i < |systems| && x in GetItemNeighbours(systems[i]) ensures x.index < |systems| {
      NeighbourBounded(systems, entries, lookup, table, i, x);
    }
  }

  lemma NeighbourBounded(systems: seq<SolarSystemMapItem>, entries: seq<SystemGates>,
                         lookup: map<SolarSystemId, SolarSystemIndex>, table: map<u64, SolarSystemIndex>,
                         i: nat, x: SolarSystemIndex)
    requires LookupSound(systems, lookup) && EntriesKnownTo(entries, lookup)
    requires forall g :: g in table ==> exists k :: 0 <= k < |entries| && table[g] == lookup[entries[k].0]
    requires Written(systems, entries, lookup, table, |entries|)
    requires i < |systems| && x in GetItemNeighbours(systems[i])
    ensures x.index < |systems|
  {
    var k := WrittenBy(systems, entries, lookup, table, i);
    var gates := entries[k].1;
    var l :| 0 <= l < |gates| && Destinations(gates, table)[l] == x;
    TableBounded(systems, entries, lookup, table, gates[l].destinationStargateId);
  }

  /** A system holding a neighbour set was written by some entry. */
  lemma WrittenBy(systems: seq<SolarSystemMapItem>, entries: seq<SystemGates>,
                  lookup: map<SolarSystemId, SolarSystemIndex>, table: map<u64, SolarSystemIndex>, i: nat)
      returns (k: nat)
    requires Written(systems, entries, lookup, table, |entries|)
    requires i < |systems| && systems[i].neighbours.Some?
    ensures k < |entries| && lookup[entries[k].0].index == i
    ensures Stored(systems[i], entries[k].1, table)
    ensures GetItemNeighbours(systems[i]) == Destinations(entries[k].1, table)
  {
    k :| 0 <= k < |entries| && lookup[entries[k].0].index == i;
  }

  /** Every value of the gate table is the index of a system. */
  lemma TableBounded(systems: seq<SolarSystemMapItem>, entries: seq<SystemGates>,
                     lookup: map<SolarSystemId, SolarSystemIndex>, table: map<u64, SolarSystemIndex>, g: u64)
    requires LookupSound(systems, lookup) && EntriesKnownTo(entries, lookup)
    requires forall g :: g in table ==> exists k :: 0 <= k < |entries| && table[g] == lookup[entries[k].0]
    requires g in table
    ensures table[g].index < |systems|
  {
    var k :| 0 <= k < |entries| && table[g] == lookup[entries[k].0];
  }

  /**
   * The two `sort_unstable_by_key` calls, on fresh copies of the collected tables: each table is
   * rearranged into ascending id order, the two stay aligned, and distinct ids end up strictly
   * ascending.
   */
  method SortTables(sys: seq<SolarSystemMapItem>, ex: seq<SolarSystemEx>)
      returns (systems: array<SolarSystemMapItem>, extended: array<SolarSystemEx>)
    requires Keys(sys, SystemKey) == Keys(ex, ExKey)
    ensures fresh(systems) && fresh(extended)
    ensures multiset(systems[..]) == multiset(sys) && multiset(extended[..]) == multiset(ex)
    ensures SortedBy(systems[..], SystemKey) && Keys(systems[..], SystemKey) == Keys(extended[..], ExKey)
    ensures Distinct(Keys(sys, SystemKey)) ==>
              forall i, j :: 0 <= i < j < systems.Length ==> systems[i].solarSystemId.id < systems[j].solarSystemId.id
  {
    systems := new SolarSystemMapItem[|sys|](i requires 0 <= i < |sys| => sys[i]);
    extended := new SolarSystemEx[|ex|](i requires 0 <= i < |ex| => ex[i]);
    assert systems[..] == sys && extended[..] == ex;
    SortByKey(systems, SystemKey);
    SortByKey(extended, ExKey);
    SortedAligned(sys, ex, systems[..], extended[..]);
    if Distinct(Keys(sys, SystemKey)) {
      SortedStrict(sys, systems[..]);
    }
  }

  /** Every entry names a collected system, so after sorting its id is in the lookup. */
  lemma EntriesKnown(s: seq<StellarItem>, sys: seq<SolarSystemMapItem>, sorted: seq<SolarSystemMapItem>,
                     lookup: map<SolarSystemId, SolarSystemIndex>, entries: seq<SystemGates>)
    requires |sys| == |s| && forall k :: 0 <= k < |s| ==> sys[k].solarSystemId == SolarSystemId(s[k].id)
    requires multiset(sys) == multiset(sorted) && LookupSound(sorted, lookup)
    requires EntriesAmong(s, entries)
    ensures EntriesKnownTo(entries, lookup)
  {
    forall k | 0 <= k < |entries| ensures entries[k].0 in lookup {
      assert HasSystem(s, entries[k].0);
      var p :| 0 <= p < |s| && SolarSystemId(s[p].id) == entries[k].0;
      assert sys[p] in multiset(sorted);
      assert sys[p] in sorted;
      var i :| 0 <= i < |sorted| && sorted[i] == sys[p];
    }
  }

  /** What the tables need before the final loop: indexed entries, known destinations, no sets yet. */
  lemma ReadyToWrite(items: seq<StellarItem>, entries: seq<SystemGates>, sys: seq<SolarSystemMapItem>,
                     ex: seq<SolarSystemEx>, sorted: seq<SolarSystemMapItem>, lookup: map<SolarSystemId, SolarSystemIndex>)
    requires Collected(SystemItems(items), NameTable(items), sys, ex)
    requires multiset(sys) == multiset(sorted) && LookupSound(sorted, lookup)
    requires GatesResolve(items, entries)
    ensures EntriesIndexed(sorted, entries, lookup)
    ensures forall k :: 0 <= k < |entries| && DistinctUpTo(entries, k) ==>
              forall l :: 0 <= l < |entries[k].1| ==> entries[k].1[l].destinationStargateId in GateTable(entries, lookup)
    ensures Unwritten(sorted)
  {
    EntriesKnown(SystemItems(items), sys, sorted, lookup, entries);
    PermutationMembers(sys, sorted);
  }

  /** What a successful `Map::new` builds from `items` and `entries`. */
  ghost predicate BuiltFrom(m: Map, items: seq<StellarItem>, entries: seq<SystemGates>) {
    && m.nameToId == NameTable(items)
    && TablesFrom(m.systems, m.extendedSystems, SystemItems(items), m.nameToId)
    && LookupSound(m.systems, m.systemIdToIndex)
    && EntriesKnownTo(entries, m.systemIdToIndex)
    && Written(m.systems, entries, m.systemIdToIndex, GateTable(entries, m.systemIdToIndex), |entries|)
  }

  /** `e` is the extended information of one of the solar systems `s`. */
  ghost predicate ResolvedAmong(s: seq<StellarItem>, t: map<string, u64>, e: SolarSystemEx)
    requires AllSolarSystems(s)
  {
    exists k :: 0 <= k < |s| && ResolveSystem(s[k], t) == Ok(e)
  }

  /** After the final loop, entry `k`'s system holds the destinations of its gates. */
  lemma WrittenAt(systems: seq<SolarSystemMapItem>, entries: seq<SystemGates>,
                  lookup: map<SolarSystemId, SolarSystemIndex>, table: map<u64, SolarSystemIndex>, k: nat)
    requires Written(systems, entries, lookup, table, |entries|) && k < |entries|
    ensures var i := lookup[entries[k].0].index;
            i < |systems| && systems[i].solarSystemId == entries[k].0 && Stored(systems[i], entries[k].1, table)
  {
  }

  /** Neighbour `l` of a stored set is the system the table gives for gate `l`'s destination. */
  lemma StoredNeighbour(item: SolarSystemMapItem, gates: seq<StargateData>, table: map<u64, SolarSystemIndex>, l: nat)
    requires Stored(item, gates, table) && l < |gates|
    ensures gates[l].destinationStargateId in table
    ensures l < |GetItemNeighbours(item)| && GetItemNeighbours(item)[l] == table[gates[l].destinationStargateId]
  {
  }

  /** A gate id listed last by entry `k` maps to entry `k`'s system. */
  lemma GateTableAt(entries: seq<SystemGates>, lookup: map<SolarSystemId, SolarSystemIndex>, k: nat, l: nat)
    requires EntriesKnownTo(entries, lookup) && k < |entries| && l < |entries[k].1| && ListedLast(entries, k, l)
    ensures entries[k].1[l].stargateId in GateTable(entries, lookup)
    ensures GateTable(entries, lookup)[entries[k].1[l].stargateId] == lookup[entries[k].0]
  {
  }

  /**
   * The neighbour sets the final loop writes, gate by gate: neighbour `l` of an entry's system is
   * what the gate table gives for the destination of the entry's gate `l`. A map `Map::new` returns
   * is written so with `GateTable(entries, lookup)` (`BuiltFrom`), and `GateTableAt` says which
   * system that is: the one of the last entry listing the destination gate.
   */
  lemma WrittenNeighbour(systems: seq<SolarSystemMapItem>, entries: seq<SystemGates>,
                         lookup: map<SolarSystemId, SolarSystemIndex>, table: map<u64, SolarSystemIndex>, k: nat, l: nat)
    requires Written(systems, entries, lookup, table, |entries|)
    requires k < |entries| && l < |entries[k].1|
    ensures var i := lookup[entries[k].0].index;
            && i < |systems| && systems[i].solarSystemId == entries[k].0
            && entries[k].1[l].destinationStargateId in table
            && l < |GetItemNeighbours(systems[i])|
            && GetItemNeighbours(systems[i])[l] == table[entries[k].1[l].destinationStargateId]
  {
    WrittenAt(systems, entries, lookup, table, k);
    StoredNeighbour(systems[lookup[entries[k].0].index], entries[k].1, table, l);
  }

  /** Every extended entry after sorting is the resolution of one of the solar systems. */
  lemma ExtendedResolved(s: seq<StellarItem>, t: map<string, u64>, sys: seq<SolarSystemMapItem>,
                         ex: seq<SolarSystemEx>, extended: seq<SolarSystemEx>)
    requires Collected(s, t, sys, ex) && multiset(ex) == multiset(extended)
    ensures AllSolarSystems(s) && forall i :: 0 <= i < |extended| ==> ResolvedAmong(s, t, extended[i])
  {
    PermutationMembers(ex, extended);
    forall i | 0 <= i < |extended| ensures ResolvedAmong(s, t, extended[i]) {
      var k :| 0 <= k < |ex| && ex[k] == extended[i];
      assert ResolveSystem(s[k], t) == Ok(ex[k]);
    }
  }

  /**
   * The two tables hold the solar systems `s` rearranged into ascending id order, aligned
   * position by position, the extended one holding each system's resolved information.
   */
  ghost predicate TablesFrom(sys: seq<SolarSystemMapItem>, ext: seq<SolarSystemEx>, s: seq<StellarItem>, t: map<string, u64>)
    requires AllSolarSystems(s)
  {
    && |sys| == |ext| == |s| <= 0x1_0000
    && multiset(Keys(sys, SystemKey)) == multiset(Keys(s, ItemKey))
    && Keys(sys, SystemKey) == Keys(ext, ExKey)
    && SortedBy(sys, SystemKey)
    && (forall i :: 0 <= i < |ext| ==> ResolvedAmong(s, t, ext[i]))
  }

  /** The sorted tables, with their ids kept by the final loop, are the tables of the map. */
  lemma SortedTables(s: seq<StellarItem>, t: map<string, u64>, sys: seq<SolarSystemMapItem>, ex: seq<SolarSystemEx>,
                     sorted: seq<SolarSystemMapItem>, final: seq<SolarSystemMapItem>, extended: seq<SolarSystemEx>)
    requires Collected(s, t, sys, ex)
    requires multiset(sys) == multiset(sorted) && multiset(ex) == multiset(extended)
    requires SortedBy(sorted, SystemKey) && Keys(sorted, SystemKey) == Keys(extended, ExKey)
    requires |sorted| <= 0x1_0000 && SameIds(sorted, final)
    ensures AllSolarSystems(s) && TablesFrom(final, extended, s, t)
  {
    CollectedKeys(s, t, sys, ex);
    assert Keys(final, SystemKey) == Keys(sorted, SystemKey);
    PermutationKeys(sys, sorted, SystemKey);
    ExtendedResolved(s, t, sys, ex, extended);
    assert |sorted| == |multiset(sorted)| == |sys|;
    assert |extended| == |multiset(extended)| == |ex|;
  }

  /** The tables as the final loop leaves them make up the map `Map::new` returns. */
  lemma AssembleMap(items: seq<StellarItem>, entries: seq<SystemGates>, sys: seq<SolarSystemMapItem>,
                    ex: seq<SolarSystemEx>, sorted: seq<SolarSystemMapItem>, final: seq<SolarSystemMapItem>,
                    extended: seq<SolarSystemEx>, lookup: map<SolarSystemId, SolarSystemIndex>)
    requires Collected(SystemItems(items), NameTable(items), sys, ex)
    requires multiset(sys) == multiset(sorted) && multiset(ex) == multiset(extended)
    requires SortedBy(sorted, SystemKey) && Keys(sorted, SystemKey) == Keys(extended, ExKey)
    requires |sorted| <= 0x1_0000 && LookupSound(sorted, lookup) && SameIds(sorted, final)
    requires EntriesIndexed(final, entries, lookup)
    requires Written(final, entries, lookup, GateTable(entries, lookup), |entries|)
    ensures BuiltFrom(Map(final, extended, NameTable(items), lookup), items, entries)
  {
    SortedTables(SystemItems(items), NameTable(items), sys, ex, sorted, final, extended);
    LookupSameIds(sorted, final, lookup);
  }

  /** Keys that rearrange distinct keys and never decrease are strictly ascending. */
  lemma StrictKeys(sys: seq<SolarSystemMapItem>, s: seq<StellarItem>)
    requires multiset(Keys(sys, SystemKey)) == multiset(Keys(s, ItemKey)) && Distinct(Keys(s, ItemKey))
    requires SortedBy(sys, SystemKey)
    ensures forall i, j :: 0 <= i < j < |sys| ==> sys[i].solarSystemId.id < sys[j].solarSystemId.id
  {
    var ks := Keys(sys, SystemKey);
    PermutationDistinct(Keys(s, ItemKey), ks);
    assert forall i :: 0 <= i < |sys| ==> ks[i] == sys[i].solarSystemId.id;
  }

  /** Tables with the same keys, position by position, describe the same systems. */
  lemma AlignedKeys(sys: seq<SolarSystemMapItem>, ex: seq<SolarSystemEx>)
    requires Keys(sys, SystemKey) == Keys(ex, ExKey)
    ensures forall i :: 0 <= i < |sys| ==> ex[i].solarSystemId == sys[i].solarSystemId
  {
    forall i | 0 <= i < |sys| ensures ex[i].solarSystemId == sys[i].solarSystemId {
      assert Keys(sys, SystemKey)[i] == Keys(ex, ExKey)[i];
    }
  }

  /** A map built from solar systems with distinct ids is valid. */
  lemma BuiltValid(m: Map, items: seq<StellarItem>, entries: seq<SystemGates>)
    requires BuiltFrom(m, items, entries) && Distinct(Keys(SystemItems(items), ItemKey))
    ensures Valid(m)
  {
    assert TablesFrom(m.systems, m.extendedSystems, SystemItems(items), m.nameToId);
    StrictKeys(m.systems, SystemItems(items));
    AlignedKeys(m.systems, m.extendedSystems);
    NeighboursBounded(m.systems, entries, m.systemIdToIndex, GateTable(entries, m.systemIdToIndex));
  }

  /**
   * The part of `Map::new` after the systems are collected: sorts both tables, indexes the
   * systems by id (failing past 65536 of them), builds the gate table and writes the neighbour
   * sets (failing at the first system given neighbours twice).
   */
  method IndexSystems(items: seq<StellarItem>, entries: seq<SystemGates>, sys: seq<SolarSystemMapItem>, ex: seq<SolarSystemEx>)
      returns (r: Result<Map, MapError>)
    requires Collected(SystemItems(items), NameTable(items), sys, ex)
    requires |SystemItems(items)| <= 0x1_0000 ==> GatesResolve(items, entries)
    ensures |SystemItems(items)| > 0x1_0000 ==> r == Err(IndexOutOfRange)
    ensures |SystemItems(items)| <= 0x1_0000 && FirstRepeat(entries).Some? ==>
              r == Err(NeighboursAlreadySet(FirstRepeat(entries).value))
    ensures |SystemItems(items)| <= 0x1_0000 && FirstRepeat(entries).None? ==>
              r.Ok? && BuiltFrom(r.value, items, entries)
    ensures r.Ok? && Distinct(Keys(SystemItems(items), ItemKey)) ==> Valid(r.value)
  {
    CollectedKeys(SystemItems(items), NameTable(items), sys, ex);
    var systems, extended := SortTables(sys, ex);
    ghost var sorted, ext := systems[..], extended[..];
    assert |sorted| == |multiset(sorted)| == |sys|;

    var lookupResult := IndexLookup(systems[..]);
    if lookupResult.Err? {
      return Err(lookupResult.error);
    }
    var lookup := lookupResult.value;
    ReadyToWrite(items, entries, sys, ex, sorted, lookup);
    var table := GateTable(entries, lookup);
    var written := SetNeighbours(systems, entries, lookup, table);
    if written.Err? {
      return Err(written.error);
    }
    ghost var final := systems[..];
    AssembleMap(items, entries, sys, ex, sorted, final, ext, lookup);
    var m := Map(systems[..], extended[..], NameTable(items), lookup);
    assert m == Map(final, ext, NameTable(items), lookup);
    if Distinct(Keys(SystemItems(items), ItemKey)) {
      BuiltValid(m, items, entries);
    }
    return Ok(m);
  }

  /**
   * `Map::new` from the parsed items and the stargates of each system. It fails exactly as
   * `BuildError` says; otherwise it returns a map built from its inputs (`BuiltFrom`), which is
   * valid when the solar-system ids are unique.
   */
  method MapNew(items: seq<StellarItem>, entries: seq<SystemGates>) returns (r: Result<Map, MapError>)
    requires FirstUnresolved(SystemItems(items), NameTable(items)).None? && |SystemItems(items)| <= 0x1_0000 ==>
               GatesResolve(items, entries)
    ensures r.Err? <==> BuildError(items, entries).Some?
    ensures r.Err? ==> r.error == BuildError(items, entries).value
    ensures r.Ok? ==> BuiltFrom(r.value, items, entries)
    ensures r.Ok? && Distinct(Keys(SystemItems(items), ItemKey)) ==> Valid(r.value)
  {
    var nameToId := NameTable(items);
    var collected := CollectSystems(items, nameToId);
    if collected.Err? {
      return Err(collected.error);
    }
    BuildErrorAfterCollect(items, entries);
    r := IndexSystems(items, entries, collected.value.0, collected.value.1);
  }
}
