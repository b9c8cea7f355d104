/**
 * src/evemap.rs, `parse`, after the YAML record has been decoded: the file's place in the
 * `.../Region/Constellation/System/<kind>.staticdata` hierarchy says what it describes and names
 * it and its parents; the record supplies the id and, for a solar system, its stargates.
 */
module MapParse {
  import opened Wrappers
  import opened EveMap

  // ---------------------------------------------------------------------------------------------
  // `str::rsplitn`

  /** The position of the last `c` in `s`, if there is one. */
  function LastIndexOf(s: string, c: char): (r: Option<nat>)
    ensures r.None? <==> c !in s
    ensures r.Some? ==> r.value < |s| && s[r.value] == c && c !in s[r.value + 1..]
  {
    if |s| == 0 then None
    else if s[|s| - 1] == c then Some(|s| - 1)
    else
      var r := LastIndexOf(s[..|s| - 1], c);
      assert s == s[..|s| - 1] + [s[|s| - 1]];
      if r.Some? then
        assert s[r.value + 1..] == s[..|s| - 1][r.value + 1..] + [s[|s| - 1]];
        r
      else r
  }

  /**
   * `s.rsplitn(n, sep)`, collected: the pieces between occurrences of `sep` taken from the right,
   * at most `n` of them, the last holding whatever is left. There is at least one piece when
   * `n > 0`, only the last may contain `sep`, and it does not when fewer than `n` pieces came out.
   */
  function RSplitN(s: string, n: nat, sep: char): (r: seq<string>)
    ensures n == 0 <==> |r| == 0
    ensures |r| <= n
    ensures forall k :: 0 <= k < |r| - 1 ==> sep !in r[k]
    ensures 0 < |r| < n ==> sep !in r[|r| - 1]
    decreases n
  {
    if n == 0 then []
    else if n == 1 then [s]
    else
      match LastIndexOf(s, sep)
      case None => [s]
      case Some(k) => [s[k + 1..]] + RSplitN(s[..k], n - 1, sep)
  }

  /** The pieces of a right-to-left split put back together, from the left, with `sep` between. */
  function RJoin(parts: seq<string>, sep: char): string
    requires |parts| > 0
  {
    if |parts| == 1 then parts[0] else RJoin(parts[1..], sep) + [sep] + parts[0]
  }

  /** Splitting loses nothing: joining the pieces gives back the string. */
  lemma {:induction false} RSplitNJoin(s: string, n: nat, sep: char)
    requires n > 0
    ensures RJoin(RSplitN(s, n, sep), sep) == s
    decreases n
  {
    if n > 1 {
      var k := LastIndexOf(s, sep);
      if k.Some? {
        var i := k.value;
        var rest := RSplitN(s[..i], n - 1, sep);
        calc {
          RJoin(RSplitN(s, n, sep), sep);
          { RSplitNAt(s, n, sep, i); }
          RJoin([s[i + 1..]] + rest, sep);
          { RJoinCons(s[i + 1..], rest, sep); }
          RJoin(rest, sep) + [sep] + s[i + 1..];
          { RSplitNJoin(s[..i], n - 1, sep); }
          s[..i] + [sep] + s[i + 1..];
          { SplitAround(s, i, sep); }
          s;
        }
      }
    }
  }

  lemma RJoinCons(x: string, rest: seq<string>, sep: char)
    requires |rest| > 0
    ensures RJoin([x] + rest, sep) == RJoin(rest, sep) + [sep] + x
  {
    assert ([x] + rest)[1..] == rest;
  }

  lemma SplitAround<T>(s: seq<T>, i: nat, x: T)
    requires i < |s| && s[i] == x
    ensures s[..i] + [x] + s[i + 1..] == s
  {
  }

  lemma RSplitNAt(s: string, n: nat, sep: char, i: nat)
    requires n > 1 && LastIndexOf(s, sep) == Some(i)
    ensures RSplitN(s, n, sep) == [s[i + 1..]] + RSplitN(s[..i], n - 1, sep)
  {
  }

  /** The last `sep` of `prefix + [sep] + tail`, when `tail` has none, is the one after `prefix`. */
  lemma LastIndexOfAppend(prefix: string, tail: string, sep: char)
    requires sep !in tail
    ensures LastIndexOf(prefix + [sep] + tail, sep) == Some(|prefix|)
  {
    var s := prefix + [sep] + tail;
    assert s[|prefix|] == sep;
  }

  /** A string without `sep` is a single piece. */
  lemma SplitWhole(s: string, n: nat, sep: char)
    requires n > 0 && sep !in s
    ensures RSplitN(s, n, sep) == [s]
  {
  }

  /** The piece after the last `sep` comes out first, and the split carries on to its left. */
  lemma SplitLast(prefix: string, tail: string, n: nat, sep: char)
    requires n > 1 && sep !in tail
    ensures RSplitN(prefix + [sep] + tail, n, sep) == [tail] + RSplitN(prefix, n - 1, sep)
  {
    var s := prefix + [sep] + tail;
    LastIndexOfAppend(prefix, tail, sep);
    assert s[..|prefix|] == prefix && s[|prefix| + 1..] == tail;
  }

  /**
   * The first piece of `prefix + a`, when `a` has no `sep` and `prefix` is empty or ends in `sep`,
   * is `a`: a leading directory does not run into the component after it.
   */
  lemma SplitAfterPrefix(prefix: string, a: string, n: nat, sep: char)
    requires n > 1 && sep !in a
    requires prefix == [] || prefix[|prefix| - 1] == sep
    ensures |RSplitN(prefix + a, n, sep)| > 0 && RSplitN(prefix + a, n, sep)[0] == a
  {
    if prefix == [] {
      assert prefix + a == a;
      SplitWhole(a, n, sep);
    } else {
      var q := prefix[..|prefix| - 1];
      assert prefix + a == q + [sep] + a;
      SplitLast(q, a, n, sep);
    }
  }

  // ---------------------------------------------------------------------------------------------
  // Classifying a file

  /** `StelarItemType`: which of the three kinds of file a record came from. */
  datatype StellarItemType = SolarSystemItem | ConstellationItem | RegionItem

  /** The fields of `UnionSystemData`; the stargates as (stargate id, destination) in map order. */
  datatype UnionSystemData = UnionSystemData(solarSystemId: Option<u64>, constellationId: Option<u64>,
                                             regionId: Option<u64>, stargates: Option<seq<(u64, u64)>>)

  /** The errors of `parse` once the record is decoded (`eyre!` messages in the source). */
  datatype ParseError = MissingIdField(itemType: StellarItemType) | MissingPathItem(i: nat)

  /** The `match path[0]` on the file name. */
  function ItemTypeOf(file: string): (t: Option<StellarItemType>)
    ensures t == Some(SolarSystemItem) <==> file == "solarsystem.staticdata"
    ensures t == Some(ConstellationItem) <==> file == "constellation.staticdata"
    ensures t == Some(RegionItem) <==> file == "region.staticdata"
  {
    if file == "solarsystem.staticdata" then Some(SolarSystemItem)
    else if file == "constellation.staticdata" then Some(ConstellationItem)
    else if file == "region.staticdata" then Some(RegionItem)
    else None
  }

  /** The field holding the id of an item of kind `t`. */
  function IdField(data: UnionSystemData, t: StellarItemType): Option<u64> {
    match t
    case SolarSystemItem => data.solarSystemId
    case ConstellationItem => data.constellationId
    case RegionItem => data.regionId
  }

  /** How many path components an item of kind `t` takes after the file name: its name and parents. */
  function PathItemsNeeded(t: StellarItemType): nat {
    match t
    case SolarSystemItem => 3
    case ConstellationItem => 2
    case RegionItem => 1
  }

  function TypeOf(kind: MapType): StellarItemType {
    match kind
    case SolarSystem(_, _) => SolarSystemItem
    case Constellation(_) => ConstellationItem
    case Region => RegionItem
  }

  /**
   * The stellar item `parse` builds for file `name`: nothing for a file of another kind; else the
   * id field of that kind must be present, and then path components 1, 2 and 3 give the name, the
   * constellation (or a constellation's region) and a system's region, the first one missing an
   * error. So the result is an item exactly when the kind is known, its id present and the path
   * deep enough, and an item's name and parents are the components after the file name.
   */
  function Classify(name: string, data: UnionSystemData): (r: Result<Option<StellarItem>, ParseError>)
    ensures var path := RSplitN(name, 5, '/');
            var t := ItemTypeOf(path[0]);
            && (r == Ok(None) <==> t.None?)
            && (r.Err? && r.error.MissingIdField? <==> t.Some? && IdField(data, t.value).None?)
            && (r.Err? && r.error.MissingIdField? ==> r.error.itemType == t.value)
            && (r.Ok? && r.value.Some? <==>
                  t.Some? && IdField(data, t.value).Some? && |path| > PathItemsNeeded(t.value))
            && (r.Err? && r.error.MissingPathItem? ==>
                  t.Some? && IdField(data, t.value).Some? && r.error.i == |path| <= PathItemsNeeded(t.value))
            && (r.Ok? && r.value.Some? ==>
                  && TypeOf(r.value.value.kind) == t.value
                  && Some(r.value.value.id) == IdField(data, t.value)
                  && r.value.value.name == path[1])
            && (r.Ok? && r.value.Some? && r.value.value.kind.SolarSystem? ==>
                  r.value.value.kind.constellation == path[2] && r.value.value.kind.region == path[3])
            && (r.Ok? && r.value.Some? && r.value.value.kind.Constellation? ==> r.value.value.kind.region == path[2])
  {
    var path := RSplitN(name, 5, '/');
    match ItemTypeOf(path[0])
    case None => Ok(None)
    case Some(t) =>
      match IdField(data, t)
      case None => Err(MissingIdField(t))
      case Some(id) =>
        if |path| < 2 then Err(MissingPathItem(1))
        else
          match t
          case SolarSystemItem =>
            if |path| < 3 then Err(MissingPathItem(2))
            else if |path| < 4 then Err(MissingPathItem(3))
            else Ok(Some(StellarItem(id, path[1], SolarSystem(path[3], path[2]))))
          case ConstellationItem =>
            if |path| < 3 then Err(MissingPathItem(2))
            else Ok(Some(StellarItem(id, path[1], Constellation(path[2]))))
          case RegionItem =>
            Ok(Some(StellarItem(id, path[1], Region)))
  }

  /** No `/` in a path component. */
  predicate Component(s: string) {
    '/' !in s
  }

  /** A directory prefix: empty, or ending in `/`. */
  predicate Directory(prefix: string) {
    prefix == [] || prefix[|prefix| - 1] == '/'
  }

  /** The components of `.../region/file`, from the right, and what lies before them. */
  lemma RegionPath(prefix: string, region: string, file: string, n: nat)
    requires Directory(prefix) && Component(region) && Component(file) && n > 2
    ensures var path := RSplitN(prefix + region + "/" + file, n, '/');
            |path| > 1 && path[0] == file && path[1] == region
  {
    var a := prefix + region;
    SplitLast(a, file, n, '/');
    SplitAfterPrefix(prefix, region, n - 1, '/');
  }

  /** The components of `.../region/constellation/file`, from the right. */
  lemma ConstellationPath(prefix: string, region: string, constellation: string, file: string, n: nat)
    requires Directory(prefix) && Component(region) && Component(constellation) && Component(file) && n > 3
    ensures var path := RSplitN(prefix + region + "/" + constellation + "/" + file, n, '/');
            |path| > 2 && path[0] == file && path[1] == constellation && path[2] == region
  {
    var b := prefix + region + "/" + constellation;
    SplitLast(b, file, n, '/');
    RegionPath(prefix, region, constellation, n - 1);
  }

  /** The components of `.../region/constellation/system/file`, from the right. */
  lemma SystemPath(prefix: string, region: string, constellation: string, system: string, file: string)
    requires Directory(prefix) && Component(region) && Component(constellation) && Component(system) && Component(file)
    ensures var path := RSplitN(prefix + region + "/" + constellation + "/" + system + "/" + file, 5, '/');
            |path| > 3 && path[0] == file && path[1] == system && path[2] == constellation && path[3] == region
  {
    var c := prefix + region + "/" + constellation + "/" + system;
    SplitLast(c, file, 5, '/');
    ConstellationPath(prefix, region, constellation, system, 4);
  }

  /** A solar system file under `.../region/constellation/system/` is that system, with those parents. */
  lemma SystemFile(prefix: string, region: string, constellation: string, system: string, data: UnionSystemData)
    requires Directory(prefix) && Component(region) && Component(constellation) && Component(system)
    requires data.solarSystemId.Some?
    ensures Classify(prefix + region + "/" + constellation + "/" + system + "/" + "solarsystem.staticdata", data)
            == Ok(Some(StellarItem(data.solarSystemId.value, system, SolarSystem(region, constellation))))
  {
    SystemPath(prefix, region, constellation, system, "solarsystem.staticdata");
  }

  /** A constellation file under `.../region/constellation/` is that constellation, in that region. */
  lemma ConstellationFile(prefix: string, region: string, constellation: string, data: UnionSystemData)
    requires Directory(prefix) && Component(region) && Component(constellation)
    requires data.constellationId.Some?
    ensures Classify(prefix + region + "/" + constellation + "/" + "constellation.staticdata", data)
            == Ok(Some(StellarItem(data.constellationId.value, constellation, Constellation(region))))
  {
    ConstellationPath(prefix, region, constellation, "constellation.staticdata", 5);
  }

  /** A region file under `.../region/` is that region. */
  lemma RegionFile(prefix: string, region: string, data: UnionSystemData)
    requires Directory(prefix) && Component(region)
    requires data.regionId.Some?
    ensures Classify(prefix + region + "/" + "region.staticdata", data) == Ok(Some(StellarItem(data.regionId.value, region, Region)))
  {
    RegionPath(prefix, region, "region.staticdata", 5);
  }

  // ---------------------------------------------------------------------------------------------
  // `parse`

  /** What `parse` returns for a file it recognises: the item and, for a solar system, its gates. */
  type Parsed = (StellarItem, Option<SystemGates>)

  /** `gates` are the record's stargates in order, one `StargateData` per gate, all tagged with `ssid`. */
  predicate TaggedGates(gates: seq<StargateData>, ssid: SolarSystemId, stargates: Option<seq<(u64, u64)>>) {
    var listed := if stargates.Some? then stargates.value else [];
    && |gates| == |listed|
    && forall k :: 0 <= k < |gates| ==>
         gates[k] == StargateData(listed[k].0, ssid, listed[k].1)
  }

  /**
   * `parse` on a decoded record: the result is `Classify`'s, and a solar system, and only one,
   * also carries its id and the stargates of its record, each tagged with that id.
   */
  method Parse(name: string, data: UnionSystemData) returns (r: Result<Option<Parsed>, ParseError>)
    ensures r.Err? <==> Classify(name, data).Err?
    ensures r.Err? ==> r.error == Classify(name, data).error
    ensures r == Ok(None) <==> Classify(name, data) == Ok(None)
    ensures r.Ok? && r.value.Some? ==> Classify(name, data) == Ok(Some(r.value.value.0))
    ensures r.Ok? && r.value.Some? ==> (r.value.value.1.Some? <==> r.value.value.0.kind.SolarSystem?)
    ensures r.Ok? && r.value.Some? && r.value.value.1.Some? ==>
              && r.value.value.1.value.0 == SolarSystemId(r.value.value.0.id)
              && TaggedGates(r.value.value.1.value.1, SolarSystemId(r.value.value.0.id), data.stargates)
  {
    var c := Classify(name, data);
    if c.Err? {
      return Err(c.error);
    }
    if c.value.None? {
      return Ok(None);
    }
    var item := c.value.value;
    if !item.kind.SolarSystem? {
      return Ok(Some((item, None)));
    }
    var ssid := SolarSystemId(item.id);
    var stargates: seq<StargateData> := [];
    if data.stargates.Some? {
      var gates := data.stargates.value;
      for i := 0 to |gates|
        invariant |stargates| == i
        invariant forall k :: 0 <= k < i ==> stargates[k] == StargateData(gates[k].0, ssid, gates[k].1)
      {
        stargates := stargates + [StargateData(gates[i].0, ssid, gates[i].1)];
      }
    }
    return Ok(Some((item, Some((ssid, stargates)))));
  }

  /** A file as the static data export lays it out under `sde/fsd/universe/eve`: Jita, in Kimotoro, in The Forge. */
  lemma JitaFile(data: UnionSystemData)
    requires data.solarSystemId.Some?
    ensures Classify("sde/fsd/universe/eve/TheForge/Kimotoro/Jita/solarsystem.staticdata", data)
            == Ok(Some(StellarItem(data.solarSystemId.value, "Jita", SolarSystem("TheForge", "Kimotoro"))))
  {
    var prefix := "sde/fsd/universe/eve/";
    // the file name, put together one piece at a time
    assert prefix + "TheForge" == "sde/fsd/universe/eve/TheForge";
    assert "sde/fsd/universe/eve/TheForge" + "/" == "sde/fsd/universe/eve/TheForge/";
    assert "sde/fsd/universe/eve/TheForge/" + "Kimotoro" == "sde/fsd/universe/eve/TheForge/Kimotoro";
    assert "sde/fsd/universe/eve/TheForge/Kimotoro" + "/" == "sde/fsd/universe/eve/TheForge/Kimotoro/";
    assert "sde/fsd/universe/eve/TheForge/Kimotoro/" + "Jita" == "sde/fsd/universe/eve/TheForge/Kimotoro/Jita";
    assert "sde/fsd/universe/eve/TheForge/Kimotoro/Jita" + "/" == "sde/fsd/universe/eve/TheForge/Kimotoro/Jita/";
    assert "sde/fsd/universe/eve/TheForge/Kimotoro/Jita/" + "solarsystem.staticdata"
        == "sde/fsd/universe/eve/TheForge/Kimotoro/Jita/solarsystem.staticdata";
    SystemFile(prefix, "TheForge", "Kimotoro", "Jita", data);
  }

  /** A solar system file at the top level has no component for its name. */
  lemma BareSystemFile(data: UnionSystemData)
    requires data.solarSystemId.Some?
    ensures Classify("solarsystem.staticdata", data) == Err(MissingPathItem(1))
  {
    SplitWhole("solarsystem.staticdata", 5, '/');
  }
}
