/** The older importer class (model/Importer.py): stamp points and OSM
    entities are merged into an existing database, after an early exit when
    the label already has nodes and no update is forced. The database of
    one label is a map from the merge key to the node's properties. */
module Importer {
  import opened Wrappers
  import opened StampNames
  import opened Thinning

  /* ---------------------------------------------------------------------
     Stamp points (lines 18-37)
     --------------------------------------------------------------------- */

  /** The StampPoint nodes, keyed by the stamp number they are merged on. */
  type StampStore = map<int, StampRecord>

  /** `MERGE (n:StampPoint {id: ...}) ON CREATE SET ...`: a node is created
      only for a number not present yet; an existing node is left as it is. */
  function MergeStamp(store: StampStore, r: StampRecord): StampStore
  {
    if r.stampId in store then store else store[r.stampId := r]
  }

  /** What line 29-31 make of one waypoint: its record, or the error
      `int()` raises on its number. */
  function Parse(w: Waypoint): Result<StampRecord, IntError>
  {
    match ParseWaypointName(w.name)
    case Err(e) => Err(e)
    case Ok(sn) => Ok(StampRecord(sn.stampId, sn.title, w.latitude, w.longitude))
  }

  function ParseAll(ws: seq<Waypoint>): (rs: seq<Result<StampRecord, IntError>>)
    ensures |rs| == |ws| && forall i :: 0 <= i < |ws| ==> rs[i] == Parse(ws[i])
  {
    seq(|ws|, i requires 0 <= i < |ws| => Parse(ws[i]))
  }

  /** The database after the merge loop, and the error raised, if any,
      after the waypoints before it were merged. */
  datatype MergeOutcome = MergeOutcome(store: StampStore, error: Option<IntError>)

  function MergeRecords(store: StampStore, rs: seq<Result<StampRecord, IntError>>): MergeOutcome
    decreases |rs|
  {
    if |rs| == 0 then MergeOutcome(store, None)
    else
      match rs[0]
      case Err(e) => MergeOutcome(store, Some(e))
      case Ok(r) => MergeRecords(MergeStamp(store, r), rs[1..])
  }

  /** Existing nodes are never changed, whatever the waypoints say. */
  lemma {:induction false} MergeKeepsExisting(store: StampStore, rs: seq<Result<StampRecord, IntError>>, id: int)
    requires id in store
    ensures id in MergeRecords(store, rs).store && MergeRecords(store, rs).store[id] == store[id]
    decreases |rs|
  {
    if |rs| > 0 && rs[0].Ok? {
      MergeKeepsExisting(MergeStamp(store, rs[0].value), rs[1..], id);
    }
  }

  /** The merge fails exactly when some name does not parse, and then with
      the error of the first such name. */
  lemma {:induction false} MergeFailsAtFirstBadName(store: StampStore, rs: seq<Result<StampRecord, IntError>>)
    ensures MergeRecords(store, rs).error.None? <==> forall i :: 0 <= i < |rs| ==> rs[i].Ok?
    ensures MergeRecords(store, rs).error.Some? ==>
      exists i :: 0 <= i < |rs| && rs[i] == Err(MergeRecords(store, rs).error.value) &&
        forall j :: 0 <= j < i ==> rs[j].Ok?
    decreases |rs|
  {
    if |rs| > 0 && rs[0].Ok? {
      var rest := rs[1..];
      MergeFailsAtFirstBadName(MergeStamp(store, rs[0].value), rest);
      assert forall i :: 1 <= i < |rs| ==> rs[i] == rest[i - 1];
      if MergeRecords(store, rs).error.Some? {
        var i :| 0 <= i < |rest| && rest[i] == Err(MergeRecords(store, rs).error.value) &&
          forall j :: 0 <= j < i ==> rest[j].Ok?;
        assert rs[i + 1] == rest[i];
      }
    }
  }

  /** Entry `i` parsed to a record with stamp number `id`. */
  predicate Carries(rs: seq<Result<StampRecord, IntError>>, i: int, id: int)
  {
    0 <= i < |rs| && rs[i].Ok? && rs[i].value.stampId == id
  }

  /** A node is added only for a number some waypoint carries, and holds
      the record of the first waypoint carrying it. */
  lemma {:induction false} MergeAddsFirst(store: StampStore, rs: seq<Result<StampRecord, IntError>>, id: int)
    requires id in MergeRecords(store, rs).store && id !in store
    ensures exists i :: (Carries(rs, i, id) && MergeRecords(store, rs).store[id] == rs[i].value &&
      forall j :: 0 <= j < i ==> rs[j].Ok? && !Carries(rs, j, id))
    decreases |rs|
  {
    var r := rs[0].value;
    var rest := rs[1..];
    if id == r.stampId {
      assert Carries(rs, 0, id);
      MergeKeepsExisting(MergeStamp(store, r), rest, id);
    } else {
      MergeAddsFirst(MergeStamp(store, r), rest, id);
      var i :| Carries(rest, i, id) && MergeRecords(MergeStamp(store, r), rest).store[id] == rest[i].value &&
        forall j :: 0 <= j < i ==> rest[j].Ok? && !Carries(rest, j, id);
      assert rs[i + 1] == rest[i];
      assert Carries(rs, i + 1, id);
      forall j | 0 <= j < i + 1 ensures rs[j].Ok? && !Carries(rs, j, id) {
        if j > 0 {
          assert rs[j] == rest[j - 1];
        }
      }
    }
  }

  /** A merge that succeeds has a node for every number a waypoint
      carries. */
  lemma {:induction false} MergeCoversAll(store: StampStore, rs: seq<Result<StampRecord, IntError>>, i: int, id: int)
    requires MergeRecords(store, rs).error.None?
    requires Carries(rs, i, id)
    ensures id in MergeRecords(store, rs).store
    decreases |rs|
  {
    var r := rs[0].value;
    if i == 0 {
      MergeKeepsExisting(MergeStamp(store, r), rs[1..], id);
    } else {
      assert rs[1..][i - 1] == rs[i];
      MergeCoversAll(MergeStamp(store, r), rs[1..], i - 1, id);
    }
  }

  /** Lines 18-37: count the StampPoint nodes; with some present and no
      forced update return 0 and change nothing; otherwise merge every
      waypoint and return the number of waypoints less the nodes that were
      there before. */
  method ImportStampPoints(store: StampStore, waypoints: seq<Waypoint>, forceUpdate: bool)
    returns (newStore: StampStore, r: Result<int, IntError>)
    ensures |store| > 0 && !forceUpdate ==> newStore == store && r == Ok(0)
    ensures !(|store| > 0 && !forceUpdate) ==>
      && newStore == MergeRecords(store, ParseAll(waypoints)).store
      && (r.Ok? <==> MergeRecords(store, ParseAll(waypoints)).error.None?)
      && (r.Ok? ==> r.value == |waypoints| - |store|)
      && (r.Err? ==> MergeRecords(store, ParseAll(waypoints)).error == Some(r.error))
  {
    var current := |store|;
    if current > 0 && !forceUpdate {
      return store, Ok(0);
    }
    newStore := store;
    var k := 0;
    while k < |waypoints|
      invariant k <= |waypoints|
      invariant MergeRecords(store, ParseAll(waypoints)) == MergeRecords(newStore, ParseAll(waypoints)[k..])
    {
      MergeFrom(newStore, waypoints, k);
      var w := waypoints[k];
      var parsed := ParseWaypointName(w.name);
      if parsed.Err? {
        return newStore, Err(parsed.error);
      }
      newStore := MergeStamp(newStore, StampRecord(parsed.value.stampId, parsed.value.title, w.latitude, w.longitude));
      k := k + 1;
    }
    r := Ok(|waypoints| - current);
  }

  /** The merge of the waypoints from `k` on: the error of waypoint `k`,
      or its record merged before the rest. */
  lemma MergeFrom(store: StampStore, ws: seq<Waypoint>, k: int)
    requires 0 <= k < |ws|
    ensures ParseWaypointName(ws[k].name).Err? ==>
      MergeRecords(store, ParseAll(ws)[k..]) == MergeOutcome(store, Some(ParseWaypointName(ws[k].name).error))
    ensures ParseWaypointName(ws[k].name).Ok? ==>
      var sn := ParseWaypointName(ws[k].name).value;
      MergeRecords(store, ParseAll(ws)[k..]) ==
        MergeRecords(MergeStamp(store, StampRecord(sn.stampId, sn.title, ws[k].latitude, ws[k].longitude)), ParseAll(ws)[k + 1..])
  {
    var rs := ParseAll(ws)[k..];
    assert rs[0] == Parse(ws[k]);
    assert rs[1..] == ParseAll(ws)[k + 1..];
  }

  /** No two parsed records share a stamp number. */
  predicate DistinctNumbers(rs: seq<Result<StampRecord, IntError>>)
  {
    forall i, j :: 0 <= i < j < |rs| && rs[i].Ok? && rs[j].Ok? ==> rs[i].value.stampId != rs[j].value.stampId
  }

  /** Into a database without any of the numbers, with distinct numbers
      that all parse, the merge creates one node per waypoint: then, and
      for an empty database, the returned count is the number created. */
  lemma {:induction false} FreshImportCount(store: StampStore, rs: seq<Result<StampRecord, IntError>>)
    requires forall i :: 0 <= i < |rs| ==> rs[i].Ok?
    requires DistinctNumbers(rs)
    requires forall i :: 0 <= i < |rs| ==> rs[i].value.stampId !in store
    ensures |MergeRecords(store, rs).store| == |store| + |rs|
    decreases |rs|
  {
    if |rs| > 0 {
      var rest := rs[1..];
      var r := rs[0].value;
      assert forall i :: 1 <= i < |rs| ==> rs[i] == rest[i - 1];
      var s' := MergeStamp(store, r);
      assert s' == store[r.stampId := r];
      forall i | 0 <= i < |rest| ensures rest[i].value.stampId !in s' {
        assert rest[i] == rs[i + 1];
      }
      FreshImportCount(s', rest);
    }
  }

  /* ---------------------------------------------------------------------
     OSM entities (lines 54-106)
     --------------------------------------------------------------------- */

  /** A node of the Overpass result: its OSM id, `name` tag and position. */
  datatype OsmNode = OsmNode(osmId: int, name: Option<string>, latitude: real, longitude: real)

  /** The properties set on a created BusStop or ParkingLot node. */
  datatype EntityRecord = EntityRecord(osmid: int, latitude: real, longitude: real, name: Option<string>)

  /** The nodes of one label, keyed by their `osmid` property. */
  type EntityStore = map<int, EntityRecord>

  /** `MERGE (n:Tag {osmid: key}) ON CREATE SET ...`. */
  function MergeEntity(store: EntityStore, key: int, r: EntityRecord): EntityStore
  {
    if key in store then store else store[key := r]
  }

  /** Lines 96-102 as written: the entity tuple (name, lat, lon) of line 75
      carries no OSM id, and the loop merges on the list position `id`. */
  function MergeByIndex(store: EntityStore, nodes: seq<OsmNode>, kept: seq<nat>): EntityStore
    requires forall t :: 0 <= t < |kept| ==> kept[t] < |nodes|
  {
    if |kept| == 0 then store
    else
      var i := kept[|kept| - 1];
      MergeEntity(MergeByIndex(store, nodes, kept[..|kept| - 1]), i,
                  EntityRecord(i, nodes[i].latitude, nodes[i].longitude, nodes[i].name))
  }

  /** The merge keyed on each kept node's OSM id, as graph_data.py:361-366
      and GraphData.py:172-177 do it. */
  function MergeByOsmId(store: EntityStore, nodes: seq<OsmNode>, kept: seq<nat>): EntityStore
    requires forall t :: 0 <= t < |kept| ==> kept[t] < |nodes|
  {
    if |kept| == 0 then store
    else
      var n := nodes[kept[|kept| - 1]];
      MergeEntity(MergeByOsmId(store, nodes, kept[..|kept| - 1]), n.osmId,
                  EntityRecord(n.osmId, n.latitude, n.longitude, n.name))
  }

  /** Keyed on the OSM id, every kept node has a node afterwards; an
      existing node is left as it is, a new one carries the first kept
      node with that id; nothing else is added. */
  lemma {:induction false} MergeByOsmIdSpec(store: EntityStore, nodes: seq<OsmNode>, kept: seq<nat>, id: int)
    requires forall t :: 0 <= t < |kept| ==> kept[t] < |nodes|
    ensures id in MergeByOsmId(store, nodes, kept) <==>
      id in store || exists t :: 0 <= t < |kept| && nodes[kept[t]].osmId == id
    ensures id in store ==> MergeByOsmId(store, nodes, kept)[id] == store[id]
    ensures id in MergeByOsmId(store, nodes, kept) && id !in store ==>
      exists t :: 0 <= t < |kept| && nodes[kept[t]].osmId == id &&
        MergeByOsmId(store, nodes, kept)[id] ==
          EntityRecord(id, nodes[kept[t]].latitude, nodes[kept[t]].longitude, nodes[kept[t]].name) &&
        forall u :: 0 <= u < t ==> nodes[kept[u]].osmId != id
  {
    if |kept| > 0 {
      var init := kept[..|kept| - 1];
      MergeByOsmIdSpec(store, nodes, init, id);
      assert forall t :: 0 <= t < |init| ==> init[t] == kept[t];
    }
  }

  /** As written, re-importing with `force_update` merges the first entity
      of the new result onto the node an earlier import created for
      position 0: the new bus stop is not stored, and nothing records its
      OSM id. */
  lemma IndexKeyAsWritten()
    ensures var store := map[0 := EntityRecord(0, 51.0, 10.0, Some("Bahnhof"))];
      var nodes := [OsmNode(4711, Some("Rathaus"), 51.8, 10.6)];
      && MergeByIndex(store, nodes, [0]) == store
      && (forall k :: k in MergeByIndex(store, nodes, [0]) ==> MergeByIndex(store, nodes, [0])[k].osmid != 4711)
  {
    var store := map[0 := EntityRecord(0, 51.0, 10.0, Some("Bahnhof"))];
    var nodes := [OsmNode(4711, Some("Rathaus"), 51.8, 10.6)];
    assert [0][..0] == [];
    assert MergeByIndex(store, nodes, [0]) == MergeEntity(store, 0, EntityRecord(0, 51.8, 10.6, Some("Rathaus")));
  }

  /** Keyed on the OSM id, the same re-import stores the new bus stop. */
  lemma OsmIdKeyStoresNewEntity()
    ensures var store := map[0 := EntityRecord(0, 51.0, 10.0, Some("Bahnhof"))];
      var nodes := [OsmNode(4711, Some("Rathaus"), 51.8, 10.6)];
      MergeByOsmId(store, nodes, [0]) == store[4711 := EntityRecord(4711, 51.8, 10.6, Some("Rathaus"))]
  {
    assert [0][..0] == [];
  }

  /** Lines 54-106: the same early exit as for stamp points; otherwise
      thin the Overpass result by `ignore_radius` (lines 76-94, the
      adjacency `near` standing for the distance test), merge the kept
      entities and return how many were kept less the nodes there before.
      The merge is keyed on the OSM id. */
  method ImportOsmEntities(store: EntityStore, nodes: seq<OsmNode>, near: (nat, nat) -> bool, forceUpdate: bool)
    returns (newStore: EntityStore, kept: seq<nat>, r: int)
    ensures |store| > 0 && !forceUpdate ==> newStore == store && kept == [] && r == 0
    ensures !(|store| > 0 && !forceUpdate) ==>
      && (forall t :: 0 <= t < |kept| ==> kept[t] < |nodes|)
      && Distinct(kept)
      && GreedyRule(near, |nodes|, kept)
      && Independent(near, kept)
      && Dominating(near, |nodes|, kept)
      && newStore == MergeByOsmId(store, nodes, kept)
      && r == |kept| - |store|
  {
    var current := |store|;
    if current > 0 && !forceUpdate {
      return store, [], 0;
    }
    var count;
    kept, count := ThinEntities(|nodes|, near);
    assert forall t :: 0 <= t < |kept| ==> kept[t] < |nodes| by {
      assert forall t :: 0 <= t < |kept| ==> kept[t] in kept;
    }
    newStore := store;
    var k := 0;
    while k < |kept|
      invariant k <= |kept|
      invariant forall t :: 0 <= t < |kept[..k]| ==> kept[..k][t] < |nodes|
      invariant newStore == MergeByOsmId(store, nodes, kept[..k])
    {
      assert kept[..k + 1][..k] == kept[..k];
      var n := nodes[kept[k]];
      newStore := MergeEntity(newStore, n.osmId, EntityRecord(n.osmId, n.latitude, n.longitude, n.name));
      k := k + 1;
    }
    assert kept[..k] == kept;
    r := count - current;
  }
}
