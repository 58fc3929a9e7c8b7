/** The older script find_routes.py: its arc filter, its own constraint
    set over `n`, `x` and `e`, and the per-day extraction of distances,
    predecessors and the `visits` list. */
module FindRoutes {
  import opened Wrappers
  import opened Nodes
  import opened Sums
  import opened DistanceIndex
  import opened RoutingModel
  import opened TourExtraction

  /** A bus stop or stamp point as the script keeps it: its id and the name
      printed in `visits`. */
  datatype Place = Place(id: Id, name: string)

  function Ids(ps: seq<Place>): (r: seq<Id>)
    ensures |r| == |ps| && forall k :: 0 <= k < |ps| ==> r[k] == ps[k].id
  {
    seq(|ps|, k requires 0 <= k < |ps| => ps[k].id)
  }

  /* ---------------------------------------------------------------------
     The arc filter (lines 50-66)
     --------------------------------------------------------------------- */

  /** Line 59: the origin, a bus stop or a stamp point. */
  predicate Admitted(origin: Id, busStops: seq<Id>, stampPoints: seq<Id>, v: Id)
  {
    v == origin || v in busStops || v in stampPoints
  }

  /** The records the filter lets through, in order. */
  function Kept(origin: Id, busStops: seq<Id>, stampPoints: seq<Id>, rs: seq<DistanceRecord>): seq<DistanceRecord>
  {
    if |rs| == 0 then []
    else
      var init := Kept(origin, busStops, stampPoints, rs[..|rs| - 1]);
      var r := rs[|rs| - 1];
      if Admitted(origin, busStops, stampPoints, r.fromId) && Admitted(origin, busStops, stampPoints, r.toId)
      then init + [r] else init
  }

  /** A record is kept exactly when both its endpoints are admitted. */
  lemma {:induction false} KeptMembers(origin: Id, busStops: seq<Id>, stampPoints: seq<Id>, rs: seq<DistanceRecord>, r: DistanceRecord)
    ensures r in Kept(origin, busStops, stampPoints, rs) <==>
      r in rs && Admitted(origin, busStops, stampPoints, r.fromId) && Admitted(origin, busStops, stampPoints, r.toId)
  {
    if |rs| > 0 {
      KeptMembers(origin, busStops, stampPoints, rs[..|rs| - 1], r);
      assert rs == rs[..|rs| - 1] + [rs[|rs| - 1]];
    }
  }

  /** `distances`, `edges` and `reverse_edges`. */
  datatype ArcTables = ArcTables(distances: map<(Id, Id), real>, edges: map<Id, seq<Id>>, reverseEdges: map<Id, seq<Id>>)

  /** Lines 61-66: create the list on first use, then append. */
  function Append(m: map<Id, seq<Id>>, k: Id, v: Id): map<Id, seq<Id>>
  {
    m[k := (if k in m then m[k] else []) + [v]]
  }

  /** The tables after reading `rs`, every record of which is kept. */
  function TablesOf(rs: seq<DistanceRecord>): ArcTables
  {
    if |rs| == 0 then ArcTables(map[], map[], map[])
    else
      var t := TablesOf(rs[..|rs| - 1]);
      var r := rs[|rs| - 1];
      ArcTables(t.distances[(r.fromId, r.toId) := r.distance],
                Append(t.edges, r.fromId, r.toId),
                Append(t.reverseEdges, r.toId, r.fromId))
  }

  /** The targets of the records from `f`, in order, repeats included. */
  function TargetsFrom(rs: seq<DistanceRecord>, f: Id): seq<Id>
  {
    if |rs| == 0 then []
    else TargetsFrom(rs[..|rs| - 1], f) + (if rs[|rs| - 1].fromId == f then [rs[|rs| - 1].toId] else [])
  }

  /** The sources of the records into `t`, in order, repeats included. */
  function SourcesInto(rs: seq<DistanceRecord>, t: Id): seq<Id>
  {
    if |rs| == 0 then []
    else SourcesInto(rs[..|rs| - 1], t) + (if rs[|rs| - 1].toId == t then [rs[|rs| - 1].fromId] else [])
  }

  /** The distance table holds each pair read, with the last record's
      distance; `edges[f]` lists the targets read from `f` and
      `reverse_edges[t]` the sources read into `t`, each present exactly
      when some record has that endpoint. */
  lemma {:induction false} TablesOfSpec(rs: seq<DistanceRecord>, f: Id, t: Id)
    ensures (f, t) in TablesOf(rs).distances <==> LastDistance(rs, f, t).Some?
    ensures (f, t) in TablesOf(rs).distances ==> TablesOf(rs).distances[(f, t)] == LastDistance(rs, f, t).value
    ensures f in TablesOf(rs).edges <==> TargetsFrom(rs, f) != []
    ensures f in TablesOf(rs).edges ==> TablesOf(rs).edges[f] == TargetsFrom(rs, f)
    ensures t in TablesOf(rs).reverseEdges <==> SourcesInto(rs, t) != []
    ensures t in TablesOf(rs).reverseEdges ==> TablesOf(rs).reverseEdges[t] == SourcesInto(rs, t)
  {
    if |rs| > 0 {
      TablesOfSpec(rs[..|rs| - 1], f, t);
    }
  }

  /** Lines 55-66. */
  method FilterArcs(origin: Id, busStops: seq<Id>, stampPoints: seq<Id>, records: seq<DistanceRecord>)
    returns (tables: ArcTables)
    ensures tables == TablesOf(Kept(origin, busStops, stampPoints, records))
  {
    tables := ArcTables(map[], map[], map[]);
    var i := 0;
    while i < |records|
      invariant i <= |records|
      invariant tables == TablesOf(Kept(origin, busStops, stampPoints, records[..i]))
    {
      assert records[..i + 1][..i] == records[..i];
      var r := records[i];
      if Admitted(origin, busStops, stampPoints, r.fromId) && Admitted(origin, busStops, stampPoints, r.toId) {
        var kept := Kept(origin, busStops, stampPoints, records[..i]);
        assert (kept + [r])[..|kept|] == kept;
        tables := ArcTables(tables.distances[(r.fromId, r.toId) := r.distance],
                            Append(tables.edges, r.fromId, r.toId),
                            Append(tables.reverseEdges, r.toId, r.fromId));
      }
      i := i + 1;
    }
    assert records[..i] == records;
  }

  /* ---------------------------------------------------------------------
     The constraint set (lines 73-139)
     --------------------------------------------------------------------- */

  /** The origin, the bus stops and stamp points within the radius, and
      the entries of `distances` in its order. */
  datatype RouteInstance = RouteInstance(origin: Place, busStops: seq<Place>, stampPoints: seq<Place>, arcs: seq<Arc>)

  datatype RouteParams = RouteParams(days: int, maxDailyDistance: real, minStamps: int, maxBusDays: int)

  /** `n[day, v]`, `n[sp]` (here `total`), the positions `x[day, sp]` (here
      `pos`) and the arc indicators `e[day, f, t]`. */
  datatype RouteAssignment = RouteAssignment(
    n: (int, Id) -> real, total: Id -> real, pos: (int, Id) -> real, e: (int, Id, Id) -> real)

  function Origin(inst: RouteInstance): Id { inst.origin.id }
  function Buses(inst: RouteInstance): seq<Id> { Ids(inst.busStops) }
  function Stamps(inst: RouteInstance): seq<Id> { Ids(inst.stampPoints) }

  /** Lines 96 and 99: `list(bus_stops.keys()) + [origin[0]]`. */
  function StartIds(inst: RouteInstance): seq<Id> { Buses(inst) + [Origin(inst)] }

  /** Lines 113 and 123: `[origin[0]] + bus ids + stamp ids`. */
  function InSources(inst: RouteInstance): seq<Id> { [Origin(inst)] + Buses(inst) + Stamps(inst) }

  /** Line 114: `[origin[0]] + stamp ids`. */
  function OutTargets(inst: RouteInstance): seq<Id> { [Origin(inst)] + Stamps(inst) }

  /** Every distance is at least zero. */
  predicate NonNegativeDistances(inst: RouteInstance)
  {
    forall k :: 0 <= k < |inst.arcs| ==> 0.0 <= inst.arcs[k].distance
  }

  /** `e[day, f, t]` exists only for the pairs of `distances` (line 91);
      the constraints read it for every pair into a stamp point and every
      pair from a stamp point into the origin, and raise KeyError unless
      all of those are arcs. `arcOf` names the arc of each such pair. */
  predicate Complete(inst: RouteInstance, arcOf: (Id, Id) -> int)
  {
    && (forall f, t :: f in InSources(inst) && t in Stamps(inst) ==>
          0 <= arcOf(f, t) < |inst.arcs| && inst.arcs[arcOf(f, t)].from == f && inst.arcs[arcOf(f, t)].to == t)
    && (forall f :: f in Stamps(inst) ==>
          0 <= arcOf(f, Origin(inst)) < |inst.arcs| &&
          inst.arcs[arcOf(f, Origin(inst))].from == f && inst.arcs[arcOf(f, Origin(inst))].to == Origin(inst))
  }

  /** `n[day, v]` for each `v` of `ids`. */
  function Ns(a: RouteAssignment, day: int, ids: seq<Id>): (r: seq<real>)
    ensures |r| == |ids| && forall k :: 0 <= k < |ids| ==> r[k] == a.n(day, ids[k])
  {
    seq(|ids|, k requires 0 <= k < |ids| => a.n(day, ids[k]))
  }

  /** `n[sp]` for each `sp` of `ids`. */
  function Totals(a: RouteAssignment, ids: seq<Id>): (r: seq<real>)
    ensures |r| == |ids| && forall k :: 0 <= k < |ids| ==> r[k] == a.total(ids[k])
  {
    seq(|ids|, k requires 0 <= k < |ids| => a.total(ids[k]))
  }

  /** `e[day, f, t]` for each `t` of `ts`. */
  function EsFrom(a: RouteAssignment, day: int, f: Id, ts: seq<Id>): (r: seq<real>)
    ensures |r| == |ts| && forall k :: 0 <= k < |ts| ==> r[k] == a.e(day, f, ts[k])
  {
    seq(|ts|, k requires 0 <= k < |ts| => a.e(day, f, ts[k]))
  }

  /** `e[day, f, t]` for each `f` of `fs`. */
  function EsInto(a: RouteAssignment, day: int, fs: seq<Id>, t: Id): (r: seq<real>)
    ensures |r| == |fs| && forall k :: 0 <= k < |fs| ==> r[k] == a.e(day, fs[k], t)
  {
    seq(|fs|, k requires 0 <= k < |fs| => a.e(day, fs[k], t))
  }

  /** `e[day, f, t] * distance` for each arc. */
  function WeightedTerms(a: RouteAssignment, day: int, arcs: seq<Arc>): (r: seq<real>)
    ensures |r| == |arcs| && forall k :: 0 <= k < |arcs| ==> r[k] == a.e(day, arcs[k].from, arcs[k].to) * arcs[k].distance
  {
    seq(|arcs|, k requires 0 <= k < |arcs| => a.e(day, arcs[k].from, arcs[k].to) * arcs[k].distance)
  }

  /** Line 134: `e * distance` over all arcs of the day. */
  function RouteDayDistance(inst: RouteInstance, a: RouteAssignment, day: int): real
  {
    Sum(WeightedTerms(a, day, inst.arcs))
  }

  /** The same solution in the variables of problem_solver.py's model, so
      that its notions (visited on some day, cycles of chosen arcs) apply. */
  function AsParams(p: RouteParams): Params
  {
    Params(p.days, p.maxDailyDistance, p.minStamps, p.maxBusDays, 0)
  }

  function AsAssignment(a: RouteAssignment): Assignment
  {
    Assignment(a.n, a.e, a.pos)
  }

  /** `sum(n[day, v] for day in range(days))`. */
  function DaysVisited(p: RouteParams, a: RouteAssignment, v: Id): real
  {
    Sum(Terms(DayCount(AsParams(p)), day => a.n(day, v)))
  }

  /** Binary `n` (78-82), `n[sp]` (86) and `e` (91); positions in
      `[0, len(stamp_points)]` (83). */
  predicate RouteDomains(inst: RouteInstance, p: RouteParams, a: RouteAssignment)
  {
    && (forall day, v :: 0 <= day < p.days && v in InSources(inst) ==> Binary(a.n(day, v)))
    && (forall v :: v in Stamps(inst) ==> Binary(a.total(v)))
    && BinaryArcs(inst, p, a)
    && (forall day, v :: 0 <= day < p.days && v in Stamps(inst) ==>
          0.0 <= a.pos(day, v) <= |Stamps(inst)| as real)
  }

  /** Binary `e` (line 91). */
  predicate BinaryArcs(inst: RouteInstance, p: RouteParams, a: RouteAssignment)
  {
    forall day, k :: 0 <= day < p.days && 0 <= k < |inst.arcs| ==>
      Binary(a.e(day, inst.arcs[k].from, inst.arcs[k].to))
  }

  /** Line 96: one start among the bus stops and the origin; lines 99-100
      and 117-118: a start leaves along as many arcs into stamp points as
      its visit value. */
  predicate RouteStarts(inst: RouteInstance, p: RouteParams, a: RouteAssignment)
  {
    && (forall day :: 0 <= day < p.days ==> Sum(Ns(a, day, StartIds(inst))) == 1.0)
    && (forall day, f :: 0 <= day < p.days && f in StartIds(inst) ==>
          Sum(EsFrom(a, day, f, Stamps(inst))) == a.n(day, f))
  }

  /** Lines 103-106, on the stamp pairs that have an arc. */
  predicate RouteMtz(inst: RouteInstance, p: RouteParams, a: RouteAssignment)
  {
    forall day, k ::
      (0 <= day < p.days && 0 <= k < |inst.arcs| &&
       inst.arcs[k].from in Stamps(inst) && inst.arcs[k].to in Stamps(inst)) ==>
      a.pos(day, inst.arcs[k].to) >=
        a.pos(day, inst.arcs[k].from) + 1.0 - |Stamps(inst)| as real * (1.0 - a.e(day, inst.arcs[k].from, inst.arcs[k].to))
  }

  /** Line 109: one arc from a stamp point into the origin; lines 112-114:
      into a stamp point as often as out of it; lines 121-123: into a stamp
      point as often as its visit value. */
  predicate RouteFlow(inst: RouteInstance, p: RouteParams, a: RouteAssignment)
  {
    && (forall day :: 0 <= day < p.days ==> Sum(EsInto(a, day, Stamps(inst), Origin(inst))) == 1.0)
    && (forall day, v :: 0 <= day < p.days && v in Stamps(inst) ==>
          Sum(EsInto(a, day, InSources(inst), v)) == Sum(EsFrom(a, day, v, OutTargets(inst))))
    && (forall day, v :: 0 <= day < p.days && v in Stamps(inst) ==>
          Sum(EsInto(a, day, InSources(inst), v)) == a.n(day, v))
  }

  /** Lines 126-127 tie `n[sp]` to the days, line 130 asks for the minimum
      of stamp points, line 134 caps each day, line 137 the bus days. */
  predicate RouteBounds(inst: RouteInstance, p: RouteParams, a: RouteAssignment)
  {
    && (forall v :: v in Stamps(inst) ==> DaysVisited(p, a, v) == a.total(v))
    && Sum(Totals(a, Stamps(inst))) >= p.minStamps as real
    && WithinDailyCap(inst, p, a)
    && Sum(Terms(DayCount(AsParams(p)), day => Sum(Ns(a, day, Buses(inst))))) <= p.maxBusDays as real
  }

  /** Line 134: every day's `e * distance` sum is at most the cap. */
  predicate WithinDailyCap(inst: RouteInstance, p: RouteParams, a: RouteAssignment)
  {
    forall day :: 0 <= day < p.days ==> RouteDayDistance(inst, a, day) <= p.maxDailyDistance
  }

  /** Every constraint of lines 94-137 holds. */
  predicate RouteFeasible(inst: RouteInstance, p: RouteParams, a: RouteAssignment)
  {
    && RouteDomains(inst, p, a)
    && RouteStarts(inst, p, a)
    && RouteMtz(inst, p, a)
    && RouteFlow(inst, p, a)
    && RouteBounds(inst, p, a)
  }

  /* ---------------------------------------------------------------------
     What every feasible assignment satisfies
     --------------------------------------------------------------------- */

  /** Exactly one entry is one and the others are zero. */
  predicate OneHot(s: seq<real>)
  {
    exists k :: 0 <= k < |s| && s[k] == 1.0 && forall j :: 0 <= j < |s| && j != k ==> s[j] == 0.0
  }

  predicate AllZero(s: seq<real>)
  {
    forall j :: 0 <= j < |s| ==> s[j] == 0.0
  }

  /** Every `e` the constraints read is binary. */
  lemma ReadArcBinary(inst: RouteInstance, arcOf: (Id, Id) -> int, p: RouteParams, a: RouteAssignment, day: int, f: Id, t: Id)
    requires Complete(inst, arcOf) && RouteDomains(inst, p, a) && 0 <= day < p.days
    requires (f in InSources(inst) && t in Stamps(inst)) || (f in Stamps(inst) && t == Origin(inst))
    ensures Binary(a.e(day, f, t))
  {
    var k := arcOf(f, t);
    assert inst.arcs[k].from == f && inst.arcs[k].to == t;
  }

  /** A binary sum of one has exactly one term that is one; a binary sum of
      zero has none. */
  lemma BinaryCount(s: seq<real>)
    requires AllBinary(s)
    ensures Sum(s) == 1.0 ==> OneHot(s)
    ensures Sum(s) == 0.0 ==> AllZero(s)
  {
    if Sum(s) == 1.0 {
      SumOneHot(s);
    }
    if Sum(s) == 0.0 {
      SumZeroAllZero(s);
    }
  }

  /** Line 96: on each day exactly one of the bus stops and the origin is
      the start. */
  lemma OneStartPerDay(inst: RouteInstance, p: RouteParams, a: RouteAssignment, day: int)
    requires RouteDomains(inst, p, a) && RouteStarts(inst, p, a)
    requires 0 <= day < p.days
    ensures OneHot(Ns(a, day, StartIds(inst)))
  {
    var s := Ns(a, day, StartIds(inst));
    forall j | 0 <= j < |s| ensures Binary(s[j]) {
      assert StartIds(inst)[j] in InSources(inst);
    }
    BinaryCount(s);
  }

  /** Lines 100 and 118: the start leaves along exactly one arc into a
      stamp point, and a node of `StartIds` that is not the start along
      none. */
  lemma StartLeavesOnce(inst: RouteInstance, arcOf: (Id, Id) -> int, p: RouteParams, a: RouteAssignment, day: int, f: Id)
    requires Complete(inst, arcOf) && RouteDomains(inst, p, a) && RouteStarts(inst, p, a)
    requires 0 <= day < p.days && f in StartIds(inst)
    ensures a.n(day, f) == 1.0 ==> OneHot(EsFrom(a, day, f, Stamps(inst)))
    ensures a.n(day, f) == 0.0 ==> AllZero(EsFrom(a, day, f, Stamps(inst)))
  {
    var s := EsFrom(a, day, f, Stamps(inst));
    forall j | 0 <= j < |s| ensures Binary(s[j]) {
      ReadArcBinary(inst, arcOf, p, a, day, f, Stamps(inst)[j]);
    }
    BinaryCount(s);
  }

  /** Line 109: on each day exactly one stamp point has its arc into the
      origin chosen. */
  lemma OneReturnArc(inst: RouteInstance, arcOf: (Id, Id) -> int, p: RouteParams, a: RouteAssignment, day: int)
    requires Complete(inst, arcOf) && RouteDomains(inst, p, a) && RouteFlow(inst, p, a)
    requires 0 <= day < p.days
    ensures OneHot(EsInto(a, day, Stamps(inst), Origin(inst)))
  {
    var s := EsInto(a, day, Stamps(inst), Origin(inst));
    forall j | 0 <= j < |s| ensures Binary(s[j]) {
      ReadArcBinary(inst, arcOf, p, a, day, Stamps(inst)[j], Origin(inst));
    }
    BinaryCount(s);
  }

  /** Lines 113-114 and 123: a stamp point visited on a day is entered
      once and left once, towards the origin or a stamp point; one not
      visited is neither entered nor left. */
  lemma StampDegree(inst: RouteInstance, arcOf: (Id, Id) -> int, p: RouteParams, a: RouteAssignment, day: int, v: Id)
    requires Complete(inst, arcOf) && RouteDomains(inst, p, a) && RouteFlow(inst, p, a)
    requires 0 <= day < p.days && v in Stamps(inst)
    ensures a.n(day, v) == 1.0 ==>
      OneHot(EsInto(a, day, InSources(inst), v)) && OneHot(EsFrom(a, day, v, OutTargets(inst)))
    ensures a.n(day, v) == 0.0 ==>
      AllZero(EsInto(a, day, InSources(inst), v)) && AllZero(EsFrom(a, day, v, OutTargets(inst)))
  {
    var ins := EsInto(a, day, InSources(inst), v);
    var outs := EsFrom(a, day, v, OutTargets(inst));
    forall j | 0 <= j < |ins| ensures Binary(ins[j]) {
      ReadArcBinary(inst, arcOf, p, a, day, InSources(inst)[j], v);
    }
    forall j | 0 <= j < |outs| ensures Binary(outs[j]) {
      var t := OutTargets(inst)[j];
      if j == 0 {
        ReadArcBinary(inst, arcOf, p, a, day, v, Origin(inst));
      } else {
        assert t in Stamps(inst);
        assert v in InSources(inst);
        ReadArcBinary(inst, arcOf, p, a, day, v, t);
      }
    }
    BinaryCount(ins);
    BinaryCount(outs);
  }

  /** Lines 126-127: `n[sp]` is binary and sums the days, so a stamp point
      is visited on at most one day. */
  lemma StampOnAtMostOneDay(inst: RouteInstance, p: RouteParams, a: RouteAssignment, v: Id, d1: int, d2: int)
    requires RouteDomains(inst, p, a) && RouteBounds(inst, p, a)
    requires v in Stamps(inst)
    requires 0 <= d1 < p.days && 0 <= d2 < p.days && d1 != d2
    ensures !(a.n(d1, v) == 1.0 && a.n(d2, v) == 1.0)
  {
    var col := Terms(DayCount(AsParams(p)), day => a.n(day, v));
    assert v in InSources(inst);
    AtMostOneOne(col, d1, d2);
  }

  /** The days' values of a stamp point sum to one if it is visited on
      some day and to zero otherwise, and so does `n[sp]`. */
  lemma TotalIsVisited(inst: RouteInstance, p: RouteParams, a: RouteAssignment, v: Id)
    requires RouteDomains(inst, p, a) && RouteBounds(inst, p, a)
    requires v in Stamps(inst)
    ensures a.total(v) == if VisitedSomeDay(AsParams(p), AsAssignment(a), v) then 1.0 else 0.0
  {
    var col := Terms(DayCount(AsParams(p)), day => a.n(day, v));
    assert v in InSources(inst);
    SumBinaryAtMostOne(col);
    if VisitedSomeDay(AsParams(p), AsAssignment(a), v) {
      var day :| 0 <= day < p.days && a.n(day, v) == 1.0;
      assert col[day] == 1.0;
    }
  }

  /** Line 130 sums `n[sp]` over the stamp-point list: a feasible plan has
      at least `min_stamps` entries of that list visited on some day. */
  lemma DistinctStampsAtLeastMin(inst: RouteInstance, p: RouteParams, a: RouteAssignment)
    requires RouteDomains(inst, p, a) && RouteBounds(inst, p, a)
    ensures CountVisited(AsParams(p), AsAssignment(a), Stamps(inst)) as real >= p.minStamps as real
  {
    var ids := Stamps(inst);
    var P, A := AsParams(p), AsAssignment(a);
    var ind := k => if 0 <= k < |ids| && VisitedSomeDay(P, A, ids[k]) then 1.0 else 0.0;
    forall k | 0 <= k < |ids| ensures Totals(a, ids)[k] == ind(k) {
      TotalIsVisited(inst, p, a, ids[k]);
    }
    assert Totals(a, ids) == Terms(|ids|, ind);
    CountVisitedAsSum(P, A, ids);
    TermsExt(|ids|, k => if 0 <= k < |ids| && VisitedSomeDay(P, A, ids[k]) then 1.0 else 0.0, ind);
  }

  /** The stamp points are the keys of a dict, so their ids are distinct,
      and a feasible plan covers at least `min_stamps` different ones. */
  lemma DifferentStampsAtLeastMin(inst: RouteInstance, p: RouteParams, a: RouteAssignment)
    requires DistinctIds(Stamps(inst))
    requires RouteDomains(inst, p, a) && RouteBounds(inst, p, a)
    ensures |VisitedSet(AsParams(p), AsAssignment(a), Stamps(inst))| as real >= p.minStamps as real
  {
    DistinctStampsAtLeastMin(inst, p, a);
    CountVisitedIsCard(AsParams(p), AsAssignment(a), Stamps(inst));
  }

  /** The stamp points and the arcs, as problem_solver.py's instance. */
  function StampView(inst: RouteInstance): Instance
  {
    Instance(Stamps(inst), [], [], inst.arcs)
  }

  /** Lines 103-106: no day has a cycle of chosen arcs lying entirely on
      stamp points. */
  lemma NoStampSubtourFR(inst: RouteInstance, p: RouteParams, a: RouteAssignment, day: int, c: seq<Id>)
    requires RouteMtz(inst, p, a) && 0 <= day < p.days
    ensures !StampCycle(StampView(inst), AsAssignment(a), day, c)
  {
    var v, P, A := StampView(inst), AsParams(p), AsAssignment(a);
    assert Mtz(v, P, A);
    if StampCycle(v, A, day, c) {
      var n := |c| - 1;
      MtzAlongPath(v, P, A, day, c, n);
      assert Link(v, A, day, c, n);
      assert (n + 1) % |c| == 0;
      MtzStep(v, P, A, day, c[n], c[0]);
      assert false;
    }
  }

  /* ---------------------------------------------------------------------
     What the script reads back (lines 150-169)
     --------------------------------------------------------------------- */

  /** Lines 158 and 165 read an arc as selected when its value is one. */
  predicate Selected(a: RouteAssignment, day: int, arc: Arc)
  {
    a.e(day, arc.from, arc.to) == 1.0
  }

  /** `prev[day]` once the loop of lines 157-159 has seen `arcs`. */
  function PrevOf(a: RouteAssignment, day: int, arcs: seq<Arc>): map<Id, Id>
  {
    if |arcs| == 0 then map[]
    else
      var m := PrevOf(a, day, arcs[..|arcs| - 1]);
      var last := arcs[|arcs| - 1];
      if Selected(a, day, last) then m[last.to := last.from] else m
  }

  /** `prev[day]` has a key exactly for the targets of selected arcs, and
      maps it to the source of the last selected arc into it. */
  lemma {:induction false} PrevOfSpec(a: RouteAssignment, day: int, arcs: seq<Arc>, t: Id)
    ensures t in PrevOf(a, day, arcs) <==> exists k :: 0 <= k < |arcs| && arcs[k].to == t && Selected(a, day, arcs[k])
    ensures t in PrevOf(a, day, arcs) ==>
      exists k :: 0 <= k < |arcs| && arcs[k].to == t && Selected(a, day, arcs[k]) &&
        arcs[k].from == PrevOf(a, day, arcs)[t] &&
        forall j :: k < j < |arcs| && arcs[j].to == t ==> !Selected(a, day, arcs[j])
  {
    if |arcs| > 0 {
      var init := arcs[..|arcs| - 1];
      PrevOfSpec(a, day, init, t);
      forall k | 0 <= k < |init| ensures init[k] == arcs[k] { }
    }
  }

  /** The distances of the day's selected arcs, added in arc order
      (lines 164-166). */
  function SelectedDistance(a: RouteAssignment, day: int, arcs: seq<Arc>): real
  {
    if |arcs| == 0 then 0.0
    else
      var last := arcs[|arcs| - 1];
      SelectedDistance(a, day, arcs[..|arcs| - 1]) + (if Selected(a, day, last) then last.distance else 0.0)
  }

  /** The names of the stamp points visited on the day, in order
      (lines 160-162). */
  function VisitedNames(a: RouteAssignment, day: int, sps: seq<Place>): seq<string>
  {
    if |sps| == 0 then []
    else
      var last := sps[|sps| - 1];
      VisitedNames(a, day, sps[..|sps| - 1]) + (if a.n(day, last.id) == 1.0 then [last.name] else [])
  }

  /** A name is listed exactly when a stamp point of that name is visited,
      and on binary values the list has as many entries as the day's
      `n` values add up to (the count printed on line 172). */
  lemma {:induction false} VisitedNamesSpec(a: RouteAssignment, day: int, sps: seq<Place>, s: string)
    ensures s in VisitedNames(a, day, sps) <==> exists k :: 0 <= k < |sps| && sps[k].name == s && a.n(day, sps[k].id) == 1.0
    ensures AllBinary(Ns(a, day, Ids(sps))) ==> |VisitedNames(a, day, sps)| as real == Sum(Ns(a, day, Ids(sps)))
  {
    if |sps| > 0 {
      var init := sps[..|sps| - 1];
      var last := sps[|sps| - 1];
      VisitedNamesSpec(a, day, init, s);
      forall k | 0 <= k < |init| ensures init[k] == sps[k] { }
      var ns := Ns(a, day, Ids(sps));
      assert ns == Ns(a, day, Ids(init)) + [a.n(day, last.id)];
      SumAppend(Ns(a, day, Ids(init)), [a.n(day, last.id)]);
      assert Sum([a.n(day, last.id)]) == a.n(day, last.id) by {
        assert [a.n(day, last.id)][1..] == [];
      }
      if AllBinary(ns) {
        assert Binary(ns[|sps| - 1]);
        assert AllBinary(Ns(a, day, Ids(init))) by {
          forall k | 0 <= k < |init| ensures Ns(a, day, Ids(init))[k] == ns[k] { }
        }
      }
    } else {
      assert Ns(a, day, Ids(sps)) == [];
    }
  }

  /** On binary arc values the selected distance is the day's
      `e * distance` sum of line 134. */
  lemma {:induction false} SelectedDistanceIsSum(a: RouteAssignment, day: int, arcs: seq<Arc>)
    requires forall k :: 0 <= k < |arcs| ==> Binary(a.e(day, arcs[k].from, arcs[k].to))
    ensures SelectedDistance(a, day, arcs) == Sum(WeightedTerms(a, day, arcs))
  {
    if |arcs| > 0 {
      var init := arcs[..|arcs| - 1];
      var last := arcs[|arcs| - 1];
      SelectedDistanceIsSum(a, day, init);
      WeightedTermsSplit(a, day, arcs);
      BinaryTimes(a.e(day, last.from, last.to), last.distance);
    }
  }

  /** The weighted terms of all arcs add up to those of all but the last
      plus the last one's. */
  lemma WeightedTermsSplit(a: RouteAssignment, day: int, arcs: seq<Arc>)
    requires |arcs| > 0
    ensures Sum(WeightedTerms(a, day, arcs)) ==
      Sum(WeightedTerms(a, day, arcs[..|arcs| - 1])) + WeightedTerms(a, day, arcs)[|arcs| - 1]
  {
    var init := arcs[..|arcs| - 1];
    var s, s' := WeightedTerms(a, day, arcs), WeightedTerms(a, day, init);
    forall k | 0 <= k < |arcs| - 1 ensures s[k] == s'[k] {
      assert init[k] == arcs[k];
    }
    assert s[..|arcs| - 1] == s';
    assert s == s[..|arcs| - 1] + [s[|arcs| - 1]];
    SumAppend(s', [s[|arcs| - 1]]);
    assert Sum([s[|arcs| - 1]]) == s[|arcs| - 1] by {
      assert [s[|arcs| - 1]][1..] == [];
    }
  }

  /** A binary value times a distance is the distance or zero. */
  lemma BinaryTimes(e: real, d: real)
    requires Binary(e)
    ensures e * d == if e == 1.0 then d else 0.0
  {
  }

  /** Lines 150-166: each day's predecessor map and visited names, then the
      selected distances added per day. */
  method ExtractDays(inst: RouteInstance, p: RouteParams, a: RouteAssignment)
    returns (finalDistances: seq<real>, prev: seq<map<Id, Id>>, visited: seq<seq<string>>)
    ensures |finalDistances| == |prev| == |visited| == DayCount(AsParams(p))
    ensures forall day :: 0 <= day < |prev| ==> prev[day] == PrevOf(a, day, inst.arcs)
    ensures forall day :: 0 <= day < |visited| ==> visited[day] == VisitedNames(a, day, inst.stampPoints)
    ensures forall day :: 0 <= day < |finalDistances| ==> finalDistances[day] == SelectedDistance(a, day, inst.arcs)
  {
    var days := DayCount(AsParams(p));
    finalDistances, prev, visited := [], [], [];
    var day := 0;
    while day < days
      invariant day <= days
      invariant |finalDistances| == |prev| == |visited| == day
      invariant forall d :: 0 <= d < day ==> finalDistances[d] == 0.0
      invariant forall d :: 0 <= d < day ==> prev[d] == PrevOf(a, d, inst.arcs)
      invariant forall d :: 0 <= d < day ==> visited[d] == VisitedNames(a, d, inst.stampPoints)
    {
      var m := DayPrev(a, day, inst.arcs);
      var names := DayNames(a, day, inst.stampPoints);
      finalDistances, prev, visited := finalDistances + [0.0], prev + [m], visited + [names];
      day := day + 1;
    }
    day := 0;
    while day < days
      invariant day <= days && |finalDistances| == days
      invariant forall d :: 0 <= d < day ==> finalDistances[d] == SelectedDistance(a, d, inst.arcs)
      invariant forall d :: day <= d < days ==> finalDistances[d] == 0.0
    {
      finalDistances := AddSelected(finalDistances, a, day, inst.arcs);
      day := day + 1;
    }
  }

  /** Lines 157-159: `prev[day]`, one entry per selected arc, in arc order. */
  method DayPrev(a: RouteAssignment, day: int, arcs: seq<Arc>) returns (m: map<Id, Id>)
    ensures m == PrevOf(a, day, arcs)
  {
    m := map[];
    var k := 0;
    while k < |arcs|
      invariant k <= |arcs|
      invariant m == PrevOf(a, day, arcs[..k])
    {
      assert arcs[..k + 1][..k] == arcs[..k];
      if a.e(day, arcs[k].from, arcs[k].to) == 1.0 {
        m := m[arcs[k].to := arcs[k].from];
      }
      k := k + 1;
    }
    assert arcs[..k] == arcs;
  }

  /** Lines 160-162: the names of the stamp points visited on `day`. */
  method DayNames(a: RouteAssignment, day: int, sps: seq<Place>) returns (names: seq<string>)
    ensures names == VisitedNames(a, day, sps)
  {
    names := [];
    var j := 0;
    while j < |sps|
      invariant j <= |sps|
      invariant names == VisitedNames(a, day, sps[..j])
    {
      assert sps[..j + 1][..j] == sps[..j];
      if a.n(day, sps[j].id) == 1.0 {
        names := names + [sps[j].name];
      }
      j := j + 1;
    }
    assert sps[..j] == sps;
  }

  /** Lines 164-166 for one day: `final_distances[day] += distance` for
      every selected arc; the other days are left alone. */
  method AddSelected(fd: seq<real>, a: RouteAssignment, day: int, arcs: seq<Arc>) returns (fd': seq<real>)
    requires 0 <= day < |fd|
    ensures |fd'| == |fd|
    ensures fd'[day] == fd[day] + SelectedDistance(a, day, arcs)
    ensures forall d :: 0 <= d < |fd| && d != day ==> fd'[d] == fd[d]
  {
    fd' := fd;
    var k := 0;
    while k < |arcs|
      invariant k <= |arcs| && |fd'| == |fd|
      invariant fd'[day] == fd[day] + SelectedDistance(a, day, arcs[..k])
      invariant forall d :: 0 <= d < |fd| && d != day ==> fd'[d] == fd[d]
    {
      assert arcs[..k + 1][..k] == arcs[..k];
      if a.e(day, arcs[k].from, arcs[k].to) == 1.0 {
        fd' := fd'[day := fd'[day] + arcs[k].distance];
      }
      k := k + 1;
    }
    assert arcs[..k] == arcs;
  }

  /** On a feasible assignment each day's selected distance is the
      constrained `e * distance` sum, hence within the daily cap, and never
      negative. */
  lemma DailyDistance(inst: RouteInstance, p: RouteParams, a: RouteAssignment, day: int)
    requires NonNegativeDistances(inst) && BinaryArcs(inst, p, a) && WithinDailyCap(inst, p, a)
    requires 0 <= day < p.days
    ensures SelectedDistance(a, day, inst.arcs) == RouteDayDistance(inst, a, day)
    ensures 0.0 <= SelectedDistance(a, day, inst.arcs) <= p.maxDailyDistance
  {
    SelectedDistanceIsSum(a, day, inst.arcs);
    WeightedNonNegative(a, day, inst.arcs);
  }

  /** Binary values times non-negative distances add up to a non-negative
      sum. */
  lemma WeightedNonNegative(a: RouteAssignment, day: int, arcs: seq<Arc>)
    requires forall k :: 0 <= k < |arcs| ==> Binary(a.e(day, arcs[k].from, arcs[k].to))
    requires forall k :: 0 <= k < |arcs| ==> 0.0 <= arcs[k].distance
    ensures 0.0 <= Sum(WeightedTerms(a, day, arcs))
  {
    var s := WeightedTerms(a, day, arcs);
    forall k | 0 <= k < |s| ensures 0.0 <= s[k] {
      if a.e(day, arcs[k].from, arcs[k].to) == 0.0 {
        assert s[k] == 0.0;
      } else {
        assert s[k] == arcs[k].distance;
      }
    }
    SumNonNegative(s);
  }

  /** `DailyDistance` on every day. */
  lemma EveryDayWithinCap(inst: RouteInstance, p: RouteParams, a: RouteAssignment)
    requires NonNegativeDistances(inst) && BinaryArcs(inst, p, a) && WithinDailyCap(inst, p, a)
    ensures forall day :: 0 <= day < p.days ==> 0.0 <= SelectedDistance(a, day, inst.arcs) <= p.maxDailyDistance
  {
    forall day | 0 <= day < p.days ensures 0.0 <= SelectedDistance(a, day, inst.arcs) <= p.maxDailyDistance {
      DailyDistance(inst, p, a, day);
    }
  }

  /** The total printed on line 169 is at most `days` times the cap. */
  lemma TotalDistance(inst: RouteInstance, p: RouteParams, a: RouteAssignment, finalDistances: seq<real>)
    requires NonNegativeDistances(inst) && BinaryArcs(inst, p, a) && WithinDailyCap(inst, p, a)
    requires |finalDistances| == DayCount(AsParams(p))
    requires forall day :: 0 <= day < |finalDistances| ==> finalDistances[day] == SelectedDistance(a, day, inst.arcs)
    ensures 0.0 <= Sum(finalDistances) <= |finalDistances| as real * p.maxDailyDistance
  {
    EveryDayWithinCap(inst, p, a);
    ListedWithinCap(a, inst.arcs, p.days, p.maxDailyDistance, finalDistances);
  }

  /** The listed daily distances add up to between zero and their number
      times the cap. */
  lemma ListedWithinCap(a: RouteAssignment, arcs: seq<Arc>, days: int, cap: real, finalDistances: seq<real>)
    requires |finalDistances| == if days > 0 then days else 0
    requires forall day :: 0 <= day < |finalDistances| ==> finalDistances[day] == SelectedDistance(a, day, arcs)
    requires forall day :: 0 <= day < days ==> 0.0 <= SelectedDistance(a, day, arcs) <= cap
    ensures 0.0 <= Sum(finalDistances) <= |finalDistances| as real * cap
  {
    SumWithin(finalDistances, cap, |finalDistances|);
  }

  /* ---------------------------------------------------------------------
     The `visits` list (lines 173-186)
     --------------------------------------------------------------------- */

  /** The name of a place, first match in `ps`. */
  function FindName(ps: seq<Place>, v: Id): (r: Option<string>)
    ensures r.Some? <==> v in Ids(ps)
    ensures r.Some? ==> exists k :: 0 <= k < |ps| && ps[k] == Place(v, r.value)
  {
    if |ps| == 0 then None
    else if ps[0].id == v then Some(ps[0].name)
    else
      assert Ids(ps) == [ps[0].id] + Ids(ps[1..]);
      FindName(ps[1..], v)
  }

  /** Lines 177-183: the origin, a bus stop or a stamp point, in that
      order; `None` is the branch that prints ERROR and exits. */
  function NameOf(inst: RouteInstance, v: Id): (r: Option<string>)
    ensures r.None? <==> v !in InSources(inst)
  {
    if v == Origin(inst) then Some(inst.origin.name)
    else if v in Buses(inst) then FindName(inst.busStops, v)
    else FindName(inst.stampPoints, v)
  }

  /** The walk of lines 174-186 from `cur` over the entries `m` has left,
      with `visits` so far; `Err(v)` when it meets an id with no name. */
  function VisitsFrom(inst: RouteInstance, m: map<Id, Id>, cur: Id, visits: seq<string>): Result<seq<string>, Id>
    decreases |m|
  {
    if cur !in m then Ok(visits)
    else
      assert |m - {cur}| < |m| by { assert (m - {cur}).Keys < m.Keys; }
      var next := m[cur];
      match NameOf(inst, next)
      case None => Err(next)
      case Some(s) => VisitsFrom(inst, m - {cur}, next, [s] + visits)
  }

  /** The names of `ids` in reverse order, or the first id without one. */
  function ReversedNames(inst: RouteInstance, ids: seq<Id>): (r: Result<seq<string>, Id>)
    ensures r.Ok? ==> |r.value| == |ids| && forall i :: 0 <= i < |ids| ==> NameOf(inst, ids[i]) == Some(r.value[|ids| - 1 - i])
    ensures r.Ok? <==> forall i :: 0 <= i < |ids| ==> NameOf(inst, ids[i]).Some?
    ensures r.Err? ==> exists i :: (0 <= i < |ids| && ids[i] == r.error && NameOf(inst, ids[i]).None? &&
      forall j :: 0 <= j < i ==> NameOf(inst, ids[j]).Some?)
  {
    if |ids| == 0 then Ok([])
    else
      match NameOf(inst, ids[0])
      case None => Err(ids[0])
      case Some(s) =>
        match ReversedNames(inst, ids[1..])
        case Err(v) =>
          NamesErrStep(inst, ids, v);
          Err(v)
        case Ok(r) =>
          NamesOkStep(inst, ids, s, r);
          Ok(r + [s])
  }

  /** A missing name after the first id is a missing name of `ids`. */
  lemma NamesErrStep(inst: RouteInstance, ids: seq<Id>, v: Id)
    requires |ids| > 0 && NameOf(inst, ids[0]).Some?
    requires exists i :: (0 <= i < |ids[1..]| && ids[1..][i] == v && NameOf(inst, ids[1..][i]).None? &&
      forall j :: 0 <= j < i ==> NameOf(inst, ids[1..][j]).Some?)
    ensures exists i :: (0 <= i < |ids| && ids[i] == v && NameOf(inst, ids[i]).None? &&
      forall j :: 0 <= j < i ==> NameOf(inst, ids[j]).Some?)
  {
    var i :| 0 <= i < |ids[1..]| && ids[1..][i] == v && NameOf(inst, ids[1..][i]).None? &&
      forall j :: 0 <= j < i ==> NameOf(inst, ids[1..][j]).Some?;
    assert ids[i + 1] == v && NameOf(inst, ids[i + 1]).None?;
    forall j | 0 <= j < i + 1 ensures NameOf(inst, ids[j]).Some? {
      if j > 0 {
        assert ids[j] == ids[1..][j - 1];
      }
    }
  }

  /** The names after the first id, reversed, followed by the first name. */
  lemma NamesOkStep(inst: RouteInstance, ids: seq<Id>, s: string, r: seq<string>)
    requires |ids| > 0 && NameOf(inst, ids[0]) == Some(s)
    requires |r| == |ids| - 1
    requires forall i :: 0 <= i < |ids[1..]| ==> NameOf(inst, ids[1..][i]) == Some(r[|ids[1..]| - 1 - i])
    ensures forall i :: 0 <= i < |ids| ==> NameOf(inst, ids[i]) == Some((r + [s])[|ids| - 1 - i])
  {
    forall i | 0 <= i < |ids| ensures NameOf(inst, ids[i]) == Some((r + [s])[|ids| - 1 - i]) {
      if i > 0 {
        assert ids[i] == ids[1..][i - 1];
      }
    }
  }

  /** The walk lists the names along the draining chain in reverse, in
      front of what it had; it fails at the first id of the chain after
      `cur` that has no name. */
  lemma {:induction false} VisitsFollowChain(inst: RouteInstance, m: map<Id, Id>, cur: Id, visits: seq<string>)
    ensures VisitsFrom(inst, m, cur, visits) == Before(ReversedNames(inst, DrainChain(m, cur)[1..]), visits)
    decreases |m|
  {
    if cur in m {
      assert (m - {cur}).Keys < m.Keys;
      var next := m[cur];
      var c' := DrainChain(m - {cur}, next);
      assert DrainChain(m, cur)[1..] == c';
      if NameOf(inst, next).Some? {
        var s := NameOf(inst, next).value;
        VisitsFollowChain(inst, m - {cur}, next, [s] + visits);
        ReversedNamesCons(inst, c', s);
        BeforeTwice(ReversedNames(inst, c'[1..]), [s], visits);
      }
    } else {
      assert DrainChain(m, cur)[1..] == [];
      assert [] + visits == visits;
    }
  }

  /** A list of names placed before `visits`; an error passes through. */
  function Before(r: Result<seq<string>, Id>, visits: seq<string>): Result<seq<string>, Id>
  {
    match r
    case Ok(x) => Ok(x + visits)
    case Err(v) => Err(v)
  }

  /** Placing before `u + w` is placing before `u`, then before `w`. */
  lemma BeforeTwice(r: Result<seq<string>, Id>, u: seq<string>, w: seq<string>)
    ensures Before(r, u + w) == Before(Before(r, u), w)
  {
    if r.Ok? {
      assert r.value + (u + w) == (r.value + u) + w;
    }
  }

  /** One step of `ReversedNames`: the first id's name goes last. */
  lemma ReversedNamesCons(inst: RouteInstance, ids: seq<Id>, s: string)
    requires |ids| > 0 && NameOf(inst, ids[0]) == Some(s)
    ensures ReversedNames(inst, ids) == Before(ReversedNames(inst, ids[1..]), [s])
  {
  }

  /** Lines 173-186 on one day's `prev`: `visits` starts with the origin's
      name, each step pops the current id and puts the name of its
      predecessor in front. `Err(v)` is the `exit()` on an id that is
      neither the origin, a bus stop nor a stamp point. */
  method DrainVisits(inst: RouteInstance, prev: map<Id, Id>) returns (r: Result<seq<string>, Id>)
    ensures r == VisitsFrom(inst, prev, Origin(inst), [inst.origin.name])
  {
    var visits := [inst.origin.name];
    var current := Origin(inst);
    var remaining := prev;
    while current in remaining
      invariant VisitsFrom(inst, prev, Origin(inst), [inst.origin.name]) == VisitsFrom(inst, remaining, current, visits)
      decreases |remaining|
    {
      assert (remaining - {current}).Keys < remaining.Keys;
      var next := remaining[current];
      remaining := remaining - {current};
      current := next;
      var name := NameOf(inst, current);
      if name.None? {
        return Err(current);
      }
      visits := [name.value] + visits;
    }
    return Ok(visits);
  }

  /** The walk takes at most one step per entry of `prev`, each step
      follows an entry, and it stops at a node with no entry left. */
  lemma VisitsSteps(inst: RouteInstance, m: map<Id, Id>)
    ensures var c := DrainChain(m, Origin(inst));
      && Linked(m, c)
      && |c| - 1 <= |m|
      && (c[|c| - 1] !in m || c[|c| - 1] in c[..|c| - 1])
  {
    DrainChainLinks(m, Origin(inst));
    DrainChainBounded(m, Origin(inst));
    DrainChainEnd(m, Origin(inst));
  }

  /** What the `visits` list is: the names along the draining chain `c`
      from the origin, last first, so that it ends with the origin's name
      and each entry names the predecessor (per `VisitsSteps`) of the node
      the next entry names. The walk fails exactly when some node of the
      chain after the origin has no name, and then at such a node. */
  lemma VisitsNames(inst: RouteInstance, m: map<Id, Id>)
    ensures NamesChain(inst, DrainChain(m, Origin(inst)), VisitsFrom(inst, m, Origin(inst), [inst.origin.name]))
  {
    VisitsFollowChain(inst, m, Origin(inst), [inst.origin.name]);
    ChainWalkNames(inst, DrainChain(m, Origin(inst)), VisitsFrom(inst, m, Origin(inst), [inst.origin.name]));
  }

  /** `w` lists the names along the chain `c` from the origin, last first,
      ending with the origin's name; it fails exactly when some node of `c`
      after the origin has no name, and then at such a node. */
  predicate NamesChain(inst: RouteInstance, c: seq<Id>, w: Result<seq<string>, Id>)
  {
    && (w.Ok? <==> forall i :: 1 <= i < |c| ==> c[i] in InSources(inst))
    && (w.Ok? ==>
          && |w.value| == |c|
          && |c| >= 1
          && w.value[|c| - 1] == inst.origin.name
          && forall i :: 0 <= i < |c| ==> NameOf(inst, c[i]) == Some(w.value[|c| - 1 - i]))
    && (w.Err? ==>
          exists i :: 1 <= i < |c| && c[i] == w.error && w.error !in InSources(inst) &&
            forall j :: 1 <= j < i ==> c[j] in InSources(inst))
  }

  /** `VisitsNames` for any chain from the origin and the walk over it. */
  lemma ChainWalkNames(inst: RouteInstance, c: seq<Id>, w: Result<seq<string>, Id>)
    requires |c| >= 1 && c[0] == Origin(inst)
    requires w == Before(ReversedNames(inst, c[1..]), [inst.origin.name])
    ensures NamesChain(inst, c, w)
  {
    ChainNamesDefined(inst, c);
    var names := ReversedNames(inst, c[1..]);
    if names.Ok? {
      ChainNamesOk(inst, c, names.value, w.value);
    } else {
      ChainNamesErr(inst, c, names.error);
    }
  }

  /** The names after the first id exist exactly when every such id is a
      place. */
  lemma ChainNamesDefined(inst: RouteInstance, c: seq<Id>)
    requires |c| >= 1
    ensures ReversedNames(inst, c[1..]).Ok? <==> forall i :: 1 <= i < |c| ==> c[i] in InSources(inst)
  {
    var tail := c[1..];
    assert forall i :: 1 <= i < |c| ==> c[i] == tail[i - 1];
  }

  /** With the origin's name appended, the reversed names of the chain
      after the origin name every id of the chain, last first. */
  lemma ChainNamesOk(inst: RouteInstance, c: seq<Id>, r: seq<string>, vs: seq<string>)
    requires |c| >= 1 && c[0] == Origin(inst)
    requires ReversedNames(inst, c[1..]) == Ok(r)
    requires vs == r + [inst.origin.name]
    ensures |vs| == |c|
    ensures vs[|c| - 1] == inst.origin.name
    ensures forall i :: 0 <= i < |c| ==> NameOf(inst, c[i]) == Some(vs[|c| - 1 - i])
  {
    forall i | 0 <= i < |c| ensures NameOf(inst, c[i]) == Some(vs[|c| - 1 - i]) {
      ChainNameAt(inst, c, r, i);
    }
  }

  /** One position of `ChainNamesOk`. */
  lemma ChainNameAt(inst: RouteInstance, c: seq<Id>, r: seq<string>, i: int)
    requires |c| >= 1 && c[0] == Origin(inst)
    requires ReversedNames(inst, c[1..]) == Ok(r)
    requires 0 <= i < |c|
    ensures |r| + 1 == |c| && NameOf(inst, c[i]) == Some((r + [inst.origin.name])[|c| - 1 - i])
  {
    var tail := c[1..];
    var vs := r + [inst.origin.name];
    if i > 0 {
      var j := |tail| - i;
      assert c[i] == tail[i - 1] && vs[j] == r[j];
      assert NameOf(inst, tail[i - 1]) == Some(r[j]);
    } else {
      assert vs[|c| - 1] == inst.origin.name;
    }
  }

  /** A failure names an id of the chain after the origin that is no
      place. */
  lemma ChainNamesErr(inst: RouteInstance, c: seq<Id>, v: Id)
    requires |c| >= 1
    requires ReversedNames(inst, c[1..]) == Err(v)
    ensures exists i :: (1 <= i < |c| && c[i] == v && v !in InSources(inst) &&
      forall j :: 1 <= j < i ==> c[j] in InSources(inst))
  {
    var tail := c[1..];
    var i :| 0 <= i < |tail| && tail[i] == v && NameOf(inst, tail[i]).None? &&
      forall j :: 0 <= j < i ==> NameOf(inst, tail[j]).Some?;
    assert c[i + 1] == v;
    forall j | 1 <= j < i + 1 ensures c[j] in InSources(inst) {
      assert c[j] == tail[j - 1];
    }
  }
}
