/** The location and distance catalog of model/graph_data.py: lookups of
    nodes by id and the forward and reverse distance maps built from the
    stream of `(from_id, to_id, distance)` rows of the database query. */
module DistanceIndex {
  import opened Wrappers
  import opened Nodes

  /** One row of the `MATCH (s)-[r:TO]->(t)` query. */
  datatype DistanceRecord = DistanceRecord(fromId: Id, toId: Id, distance: real)

  /** `distances[from][to]`, or its transpose `distances_reverse[to][from]`. */
  type DistanceMap = map<Id, map<Id, real>>

  datatype LookupError = NodeNotFound(id: Id) | MissingKey(key: Id)

  /** The three node dictionaries of the catalog, keyed by element id. */
  datatype Catalog = Catalog(stampPoints: map<Id, Node>, busStops: map<Id, Node>, parkingLots: map<Id, Node>)

  /** What the catalog queries produce: each dictionary holds nodes of its
      own kind under their own id. */
  predicate WellFormed(c: Catalog)
  {
    && (forall v :: v in c.stampPoints ==> c.stampPoints[v].StampPoint? && c.stampPoints[v].id == v)
    && (forall v :: v in c.busStops ==> c.busStops[v].BusStop? && c.busStops[v].id == v)
    && (forall v :: v in c.parkingLots ==> c.parkingLots[v].ParkingLot? && c.parkingLots[v].id == v)
  }

  predicate Known(c: Catalog, id: Id)
  {
    id in c.stampPoints || id in c.busStops || id in c.parkingLots
  }

  /** `GraphData.node`: stamp points first, then bus stops, then parking
      lots; any other id raises `ValueError`. */
  function NodeOf(c: Catalog, id: Id): (r: Result<Node, LookupError>)
    ensures r.Ok? <==> Known(c, id)
    ensures r.Err? ==> r.error == NodeNotFound(id)
    ensures id in c.stampPoints ==> r == Ok(c.stampPoints[id])
    ensures id !in c.stampPoints && id in c.busStops ==> r == Ok(c.busStops[id])
    ensures id !in c.stampPoints && id !in c.busStops && id in c.parkingLots ==> r == Ok(c.parkingLots[id])
    ensures WellFormed(c) && r.Ok? ==> r.value.id == id
  {
    if id in c.stampPoints then Ok(c.stampPoints[id])
    else if id in c.busStops then Ok(c.busStops[id])
    else if id in c.parkingLots then Ok(c.parkingLots[id])
    else Err(NodeNotFound(id))
  }

  /** In a well-formed catalog the kind of the node found tells which
      dictionary the id is in. */
  lemma NodeOfKind(c: Catalog, id: Id)
    requires WellFormed(c)
    ensures NodeOf(c, id).Ok? && NodeOf(c, id).value.StampPoint? <==> id in c.stampPoints
    ensures NodeOf(c, id).Ok? && NodeOf(c, id).value.BusStop? <==> id !in c.stampPoints && id in c.busStops
    ensures NodeOf(c, id).Ok? && NodeOf(c, id).value.ParkingLot? <==>
              id !in c.stampPoints && id !in c.busStops && id in c.parkingLots
  {
  }

  /** `GraphData.is_arc`. */
  predicate IsArc(m: DistanceMap, fromId: Id, toId: Id)
  {
    fromId in m && toId in m[fromId]
  }

  /** `GraphData.distance`: the forward distance. A missing arc raises
      `KeyError` with the key the failing lookup used: the source when it
      has no row, otherwise the target. */
  function Distance(m: DistanceMap, fromId: Id, toId: Id): (r: Result<real, LookupError>)
    ensures r.Ok? <==> IsArc(m, fromId, toId)
    ensures r.Ok? ==> r.value == m[fromId][toId]
    ensures r.Err? && fromId !in m ==> r.error == MissingKey(fromId)
    ensures r.Err? && fromId in m ==> r.error == MissingKey(toId)
  {
    if fromId !in m then Err(MissingKey(fromId))
    else if toId !in m[fromId] then Err(MissingKey(toId))
    else Ok(m[fromId][toId])
  }

  /** The distance of the last record read for `(f, t)`, if any. */
  function LastDistance(rs: seq<DistanceRecord>, f: Id, t: Id): Option<real>
  {
    if |rs| == 0 then None
    else if rs[|rs| - 1].fromId == f && rs[|rs| - 1].toId == t then Some(rs[|rs| - 1].distance)
    else LastDistance(rs[..|rs| - 1], f, t)
  }

  /** `LastDistance` finds the record for `(f, t)` that no later record for
      `(f, t)` overrides, and `None` exactly when there is none. */
  lemma {:induction false} LastDistanceIsLast(rs: seq<DistanceRecord>, f: Id, t: Id)
    ensures LastDistance(rs, f, t).None? <==> forall i :: 0 <= i < |rs| ==> !(rs[i].fromId == f && rs[i].toId == t)
    ensures LastDistance(rs, f, t).Some? ==>
              exists i :: 0 <= i < |rs| && rs[i] == DistanceRecord(f, t, LastDistance(rs, f, t).value)
                          && forall j :: i < j < |rs| ==> !(rs[j].fromId == f && rs[j].toId == t)
  {
    if |rs| > 0 {
      var n := |rs| - 1;
      LastDistanceIsLast(rs[..n], f, t);
      if !(rs[n].fromId == f && rs[n].toId == t) {
        assert forall i :: 0 <= i < n ==> rs[..n][i] == rs[i];
        if LastDistance(rs, f, t).Some? {
          var i :| 0 <= i < n && rs[..n][i] == DistanceRecord(f, t, LastDistance(rs, f, t).value)
                    && forall j :: i < j < n ==> !(rs[..n][j].fromId == f && rs[..n][j].toId == t);
          assert rs[i] == DistanceRecord(f, t, LastDistance(rs, f, t).value);
        }
      } else {
        assert rs[n] == DistanceRecord(f, t, LastDistance(rs, f, t).value);
      }
    }
  }

  predicate HasRecordFrom(rs: seq<DistanceRecord>, f: Id)
  {
    exists i :: 0 <= i < |rs| && rs[i].fromId == f
  }

  predicate HasRecordTo(rs: seq<DistanceRecord>, t: Id)
  {
    exists i :: 0 <= i < |rs| && rs[i].toId == t
  }

  /** Stores `d` under `m[a][b]`, creating the inner dictionary on first
      sight of `a`. */
  function Store(m: DistanceMap, a: Id, b: Id, d: real): (r: DistanceMap)
    ensures r.Keys == m.Keys + {a}
    ensures r[a] == (if a in m then m[a] else map[])[b := d]
    ensures forall k :: k in m && k != a ==> r[k] == m[k]
  {
    m[a := (if a in m then m[a] else map[])[b := d]]
  }

  /** The two statements of the loop body that store one distance compute
      `Store`. */
  lemma StoreInSteps(m: DistanceMap, a: Id, b: Id, d: real, m1: DistanceMap, m2: DistanceMap)
    requires m1 == if a !in m then m[a := map[]] else m
    requires a in m1 && m2 == m1[a := m1[a][b := d]]
    ensures m2 == Store(m, a, b, d)
  {
  }

  /** `fwd` holds, for each `(f, t)` read, the last distance read for it. */
  ghost predicate ForwardMatches(rs: seq<DistanceRecord>, fwd: DistanceMap)
  {
    && (forall f, t :: IsArc(fwd, f, t) <==> LastDistance(rs, f, t).Some?)
    && (forall f, t :: IsArc(fwd, f, t) ==> fwd[f][t] == LastDistance(rs, f, t).value)
  }

  /** `rev` is the exact transpose of `fwd`. */
  ghost predicate Transposed(fwd: DistanceMap, rev: DistanceMap)
  {
    && (forall f, t :: IsArc(fwd, f, t) <==> IsArc(rev, t, f))
    && (forall f, t :: IsArc(fwd, f, t) ==> IsArc(rev, t, f) && rev[t][f] == fwd[f][t])
  }

  /** The outer keys of `fwd` are the ids seen as sources, none with an
      empty inner dictionary. */
  ghost predicate SourcesMatch(rs: seq<DistanceRecord>, fwd: DistanceMap)
  {
    && (forall f :: f in fwd <==> HasRecordFrom(rs, f))
    && (forall f :: f in fwd ==> |fwd[f]| > 0)
  }

  /** The outer keys of `rev` are the ids seen as targets, none with an
      empty inner dictionary. */
  ghost predicate TargetsMatch(rs: seq<DistanceRecord>, rev: DistanceMap)
  {
    && (forall t :: t in rev <==> HasRecordTo(rs, t))
    && (forall t :: t in rev ==> |rev[t]| > 0)
  }

  ghost predicate Built(rs: seq<DistanceRecord>, fwd: DistanceMap, rev: DistanceMap)
  {
    ForwardMatches(rs, fwd) && Transposed(fwd, rev) && SourcesMatch(rs, fwd) && TargetsMatch(rs, rev)
  }

  lemma HasRecordFromAppend(rs: seq<DistanceRecord>, r: DistanceRecord, f: Id)
    ensures HasRecordFrom(rs + [r], f) <==> HasRecordFrom(rs, f) || f == r.fromId
  {
    var rs' := rs + [r];
    assert rs'[|rs|] == r;
    if HasRecordFrom(rs, f) {
      var k :| 0 <= k < |rs| && rs[k].fromId == f;
      assert rs'[k] == rs[k];
    }
    if HasRecordFrom(rs', f) && f != r.fromId {
      var k :| 0 <= k < |rs'| && rs'[k].fromId == f;
      assert rs[k] == rs'[k];
    }
  }

  lemma HasRecordToAppend(rs: seq<DistanceRecord>, r: DistanceRecord, t: Id)
    ensures HasRecordTo(rs + [r], t) <==> HasRecordTo(rs, t) || t == r.toId
  {
    var rs' := rs + [r];
    assert rs'[|rs|] == r;
    if HasRecordTo(rs, t) {
      var k :| 0 <= k < |rs| && rs[k].toId == t;
      assert rs'[k] == rs[k];
    }
    if HasRecordTo(rs', t) && t != r.toId {
      var k :| 0 <= k < |rs'| && rs'[k].toId == t;
      assert rs[k] == rs'[k];
    }
  }

  lemma LastDistanceAppend(rs: seq<DistanceRecord>, r: DistanceRecord, f: Id, t: Id)
    ensures LastDistance(rs + [r], f, t) ==
              if f == r.fromId && t == r.toId then Some(r.distance) else LastDistance(rs, f, t)
  {
    assert (rs + [r])[..|rs|] == rs;
  }

  lemma ForwardStep(rs: seq<DistanceRecord>, r: DistanceRecord, fwd: DistanceMap)
    requires ForwardMatches(rs, fwd)
    ensures ForwardMatches(rs + [r], Store(fwd, r.fromId, r.toId, r.distance))
  {
    forall f, t {
      LastDistanceAppend(rs, r, f, t);
    }
  }

  lemma TransposedStep(fwd: DistanceMap, rev: DistanceMap, a: Id, b: Id, d: real)
    requires Transposed(fwd, rev)
    ensures Transposed(Store(fwd, a, b, d), Store(rev, b, a, d))
  {
    var fwd', rev' := Store(fwd, a, b, d), Store(rev, b, a, d);
    forall f, t ensures IsArc(fwd', f, t) <==> IsArc(rev', t, f) {
      if f != a || t != b {
        assert IsArc(fwd', f, t) <==> IsArc(fwd, f, t);
        assert IsArc(rev', t, f) <==> IsArc(rev, t, f);
      }
    }
    forall f, t | IsArc(fwd', f, t) ensures rev'[t][f] == fwd'[f][t] {
      if f != a || t != b {
        assert IsArc(fwd, f, t);
      }
    }
  }

  lemma SourcesStep(rs: seq<DistanceRecord>, r: DistanceRecord, fwd: DistanceMap)
    requires SourcesMatch(rs, fwd)
    ensures SourcesMatch(rs + [r], Store(fwd, r.fromId, r.toId, r.distance))
  {
    var fwd' := Store(fwd, r.fromId, r.toId, r.distance);
    forall f
      ensures f in fwd' <==> HasRecordFrom(rs + [r], f)
    {
      HasRecordFromAppend(rs, r, f);
    }
    assert r.toId in fwd'[r.fromId];
  }

  lemma TargetsStep(rs: seq<DistanceRecord>, r: DistanceRecord, rev: DistanceMap)
    requires TargetsMatch(rs, rev)
    ensures TargetsMatch(rs + [r], Store(rev, r.toId, r.fromId, r.distance))
  {
    var rev' := Store(rev, r.toId, r.fromId, r.distance);
    forall t
      ensures t in rev' <==> HasRecordTo(rs + [r], t)
    {
      HasRecordToAppend(rs, r, t);
    }
    assert r.fromId in rev'[r.toId];
  }

  /** One iteration of the build loop keeps `Built`. */
  lemma BuildStep(records: seq<DistanceRecord>, i: nat, fwd0: DistanceMap, rev0: DistanceMap,
                  fwd1: DistanceMap, rev1: DistanceMap, fwd: DistanceMap, rev: DistanceMap)
    requires i < |records|
    requires Built(records[..i], fwd0, rev0)
    requires fwd1 == if records[i].fromId !in fwd0 then fwd0[records[i].fromId := map[]] else fwd0
    requires rev1 == if records[i].toId !in rev0 then rev0[records[i].toId := map[]] else rev0
    requires records[i].fromId in fwd1 && fwd == fwd1[records[i].fromId := fwd1[records[i].fromId][records[i].toId := records[i].distance]]
    requires records[i].toId in rev1 && rev == rev1[records[i].toId := rev1[records[i].toId][records[i].fromId := records[i].distance]]
    ensures Built(records[..i + 1], fwd, rev)
  {
    var r := records[i];
    assert records[..i + 1] == records[..i] + [r];
    StoreInSteps(fwd0, r.fromId, r.toId, r.distance, fwd1, fwd);
    StoreInSteps(rev0, r.toId, r.fromId, r.distance, rev1, rev);
    ForwardStep(records[..i], r, fwd0);
    TransposedStep(fwd0, rev0, r.fromId, r.toId, r.distance);
    SourcesStep(records[..i], r, fwd0);
    TargetsStep(records[..i], r, rev0);
  }

  /** The `distances` property body (graph_data.py:137-148): one pass over the
      records, creating an inner dictionary on first sight of a key and then
      storing the distance in both directions. */
  method BuildDistances(records: seq<DistanceRecord>) returns (fwd: DistanceMap, rev: DistanceMap)
    ensures forall f, t :: IsArc(fwd, f, t) <==> LastDistance(records, f, t).Some?
    ensures forall f, t :: IsArc(fwd, f, t) ==> fwd[f][t] == LastDistance(records, f, t).value
    ensures forall f, t :: IsArc(fwd, f, t) <==> IsArc(rev, t, f)
    ensures forall f, t :: IsArc(fwd, f, t) ==> IsArc(rev, t, f) && rev[t][f] == fwd[f][t]
    ensures forall f :: f in fwd <==> HasRecordFrom(records, f)
    ensures forall t :: t in rev <==> HasRecordTo(records, t)
    ensures forall f :: f in fwd ==> |fwd[f]| > 0
    ensures forall t :: t in rev ==> |rev[t]| > 0
  {
    fwd, rev := map[], map[];
    var i := 0;
    while i < |records|
      invariant 0 <= i <= |records|
      invariant Built(records[..i], fwd, rev)
    {
      ghost var fwd0, rev0 := fwd, rev;
      if records[i].fromId !in fwd {
        fwd := fwd[records[i].fromId := map[]];
      }
      if records[i].toId !in rev {
        rev := rev[records[i].toId := map[]];
      }
      ghost var fwd1, rev1 := fwd, rev;
      fwd := fwd[records[i].fromId := fwd[records[i].fromId][records[i].toId := records[i].distance]];
      rev := rev[records[i].toId := rev[records[i].toId][records[i].fromId := records[i].distance]];
      BuildStep(records, i, fwd0, rev0, fwd1, rev1, fwd, rev);
      i := i + 1;
    }
    assert records[..i] == records;
  }
}
