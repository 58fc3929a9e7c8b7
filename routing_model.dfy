/** The mixed-integer model `ProblemSolver.solve` hands to the solver
    (model/problem_solver.py:38-100), as a predicate over a solved
    assignment. The solver itself is not modelled: any assignment the
    predicate accepts is one the solver may return. */
module RoutingModel {
  import opened Nodes
  import opened Sums

  /** One entry `distances[from][to] = distance`. */
  datatype Arc = Arc(from: Id, to: Id, distance: real)

  /** The solver's view of the catalog: the ids of each kind in dict
      iteration order, and the entries of `distances` in iteration order
      (grouped by `from`, as the nested dict yields them). */
  datatype Instance = Instance(stampPoints: seq<Id>, busStops: seq<Id>, parkingLots: seq<Id>, arcs: seq<Arc>)

  datatype Params = Params(days: int, maxDailyDistance: real, minStamps: int, maxBusDays: int, maxParkingDays: int)

  /** Solved values: `x[day, node]`, `y[day, from, to]`, `z[day, stamp]`. */
  datatype Assignment = Assignment(x: (int, Id) -> real, y: (int, Id, Id) -> real, z: (int, Id) -> real)

  /** `range(days)` is empty for a non-positive count. */
  function DayCount(p: Params): nat
  {
    if p.days > 0 then p.days else 0
  }

  predicate DistinctIds(s: seq<Id>)
  {
    forall i, j :: 0 <= i < j < |s| ==> s[i] != s[j]
  }

  /** Ids of different kinds differ, and `distances` holds each pair once
      (it is a nested dict) with a non-negative distance. */
  predicate WellFormed(inst: Instance)
  {
    && DistinctIds(AllNodes(inst))
    && (forall i, j :: 0 <= i < j < |inst.arcs| ==>
          (inst.arcs[i].from, inst.arcs[i].to) != (inst.arcs[j].from, inst.arcs[j].to))
    && (forall i :: 0 <= i < |inst.arcs| ==> 0.0 <= inst.arcs[i].distance)
  }

  /** Every node the model has an `x` variable for. */
  function AllNodes(inst: Instance): seq<Id>
  {
    inst.stampPoints + inst.busStops + inst.parkingLots
  }

  /** Every arc joins two nodes of the catalog; otherwise building the
      constraints raises KeyError. */
  predicate KnownEndpoints(inst: Instance)
  {
    forall k :: 0 <= k < |inst.arcs| ==> inst.arcs[k].from in AllNodes(inst) && inst.arcs[k].to in AllNodes(inst)
  }

  function Starts(inst: Instance): seq<Id>
  {
    inst.busStops + inst.parkingLots
  }

  /* ---------------------------------------------------------------------
     The sums the constraints are made of
     --------------------------------------------------------------------- */

  /** `x[day, v]` for each `v` of `ids`. */
  function Xs(a: Assignment, day: int, ids: seq<Id>): (r: seq<real>)
    ensures |r| == |ids|
  {
    seq(|ids|, k requires 0 <= k < |ids| => a.x(day, ids[k]))
  }

  /** `y[day, f, t]` for the arcs leaving `f`, zero for the others. */
  function OutTerms(inst: Instance, a: Assignment, day: int, f: Id): (r: seq<real>)
    ensures |r| == |inst.arcs|
  {
    seq(|inst.arcs|, k requires 0 <= k < |inst.arcs| =>
      if inst.arcs[k].from == f then a.y(day, f, inst.arcs[k].to) else 0.0)
  }

  /** `y[day, f, t]` for the arcs entering `t`, zero for the others. */
  function InTerms(inst: Instance, a: Assignment, day: int, t: Id): (r: seq<real>)
    ensures |r| == |inst.arcs|
  {
    seq(|inst.arcs|, k requires 0 <= k < |inst.arcs| =>
      if inst.arcs[k].to == t then a.y(day, inst.arcs[k].from, t) else 0.0)
  }

  /** `distances[f][t] * y[day, f, t]` over all arcs. */
  function DistanceTerms(inst: Instance, a: Assignment, day: int): (r: seq<real>)
    ensures |r| == |inst.arcs|
  {
    seq(|inst.arcs|, k requires 0 <= k < |inst.arcs| =>
      inst.arcs[k].distance * a.y(day, inst.arcs[k].from, inst.arcs[k].to))
  }

  /** The distance walked on `day`. */
  function DayDistance(inst: Instance, a: Assignment, day: int): real
  {
    Sum(DistanceTerms(inst, a, day))
  }

  /** `sum(x[day, v] for day in range(days) for v in ids)`. */
  function VisitsOverDays(p: Params, a: Assignment, ids: seq<Id>): real
  {
    Sum(Terms(DayCount(p), day => Sum(Xs(a, day, ids))))
  }

  /** The terms of `lpSum(... for day in range(n) for from_id ... for
      to_id ...)`: the distance terms of day 0, then of day 1, and so on. */
  function AllDayTerms(inst: Instance, a: Assignment, n: nat): seq<real>
  {
    if n == 0 then [] else AllDayTerms(inst, a, n - 1) + DistanceTerms(inst, a, n - 1)
  }

  /** The objective, problem_solver.py:58-61: one flat sum over days and
      arcs. */
  function Objective(inst: Instance, p: Params, a: Assignment): real
  {
    Sum(AllDayTerms(inst, a, DayCount(p)))
  }

  /** The distances of days `0 .. n - 1`, in day order. */
  function DailyDistances(inst: Instance, a: Assignment, n: nat): (r: seq<real>)
    ensures |r| == n && forall day :: 0 <= day < n ==> r[day] == DayDistance(inst, a, day)
  {
    if n == 0 then [] else DailyDistances(inst, a, n - 1) + [DayDistance(inst, a, n - 1)]
  }

  /** `y[day, f, t]` is chosen: an arc of `distances` with value one. */
  predicate Chosen(inst: Instance, a: Assignment, day: int, k: int)
    requires 0 <= k < |inst.arcs|
  {
    a.y(day, inst.arcs[k].from, inst.arcs[k].to) == 1.0
  }

  /* ---------------------------------------------------------------------
     The constraints (problem_solver.py:38-51, 64-100)
     --------------------------------------------------------------------- */

  /** Variable domains: binary `x` and `y`, `z` in `[0, N]`. */
  predicate Domains(inst: Instance, p: Params, a: Assignment)
  {
    && (forall day, k :: 0 <= day < p.days && 0 <= k < |AllNodes(inst)| ==>
          Binary(a.x(day, AllNodes(inst)[k])))
    && (forall day, k :: 0 <= day < p.days && 0 <= k < |inst.arcs| ==>
          Binary(a.y(day, inst.arcs[k].from, inst.arcs[k].to)))
    && (forall day, k :: 0 <= day < p.days && 0 <= k < |inst.stampPoints| ==>
          0.0 <= a.z(day, inst.stampPoints[k]) <= |inst.stampPoints| as real)
  }

  /** One bus stop or parking lot per day (64-67). */
  predicate StartOnce(inst: Instance, p: Params, a: Assignment)
  {
    forall day :: 0 <= day < p.days ==>
      Sum(Xs(a, day, inst.busStops)) + Sum(Xs(a, day, inst.parkingLots)) == 1.0
  }

  /** Flow conservation (69-78): for every node with an outgoing arc the
      chosen outgoing arcs sum to its visit value, and the same for
      incoming arcs. */
  predicate FlowOut(inst: Instance, p: Params, a: Assignment)
  {
    forall day, k :: 0 <= day < p.days && 0 <= k < |inst.arcs| ==>
      Sum(OutTerms(inst, a, day, inst.arcs[k].from)) == a.x(day, inst.arcs[k].from)
  }

  predicate FlowIn(inst: Instance, p: Params, a: Assignment)
  {
    forall day, k :: 0 <= day < p.days && 0 <= k < |inst.arcs| ==>
      Sum(InTerms(inst, a, day, inst.arcs[k].to)) == a.x(day, inst.arcs[k].to)
  }

  /** Miller-Tucker-Zemlin positions on arcs between stamp points (80-85). */
  predicate Mtz(inst: Instance, p: Params, a: Assignment)
  {
    forall day, k ::
      (0 <= day < p.days && 0 <= k < |inst.arcs| &&
       inst.arcs[k].from in inst.stampPoints && inst.arcs[k].to in inst.stampPoints) ==>
      a.z(day, inst.arcs[k].from) + 1.0 <=
        a.z(day, inst.arcs[k].to) + |inst.stampPoints| as real * (1.0 - a.y(day, inst.arcs[k].from, inst.arcs[k].to))
  }

  /** Minimum stamps (88), daily cap (91-94), bus and parking caps (97, 100). */
  predicate Bounds(inst: Instance, p: Params, a: Assignment)
  {
    && VisitsOverDays(p, a, inst.stampPoints) >= p.minStamps as real
    && (forall day :: 0 <= day < p.days ==> DayDistance(inst, a, day) <= p.maxDailyDistance)
    && VisitsOverDays(p, a, inst.busStops) <= p.maxBusDays as real
    && VisitsOverDays(p, a, inst.parkingLots) <= p.maxParkingDays as real
  }

  /** Every constraint of problem_solver.py:38-100 holds. */
  predicate Feasible(inst: Instance, p: Params, a: Assignment)
  {
    && Domains(inst, p, a)
    && StartOnce(inst, p, a)
    && FlowOut(inst, p, a)
    && FlowIn(inst, p, a)
    && Mtz(inst, p, a)
    && Bounds(inst, p, a)
  }

  /* ---------------------------------------------------------------------
     What every feasible assignment satisfies
     --------------------------------------------------------------------- */

  /** `ids[k]` is visited on `day` and no other node of `ids` is. */
  predicate OnlyVisited(a: Assignment, day: int, ids: seq<Id>, k: int)
    requires 0 <= k < |ids|
  {
    a.x(day, ids[k]) == 1.0 && forall j :: 0 <= j < |ids| && j != k ==> a.x(day, ids[j]) == 0.0
  }

  /** Exactly one bus stop or parking lot is visited on each day. */
  lemma ExactlyOneStart(inst: Instance, p: Params, a: Assignment, day: int)
    requires Domains(inst, p, a) && StartOnce(inst, p, a)
    requires 0 <= day < p.days
    ensures exists k :: 0 <= k < |Starts(inst)| && OnlyVisited(a, day, Starts(inst), k)
  {
    var all := AllNodes(inst);
    var s := Xs(a, day, Starts(inst));
    assert Xs(a, day, inst.busStops) + Xs(a, day, inst.parkingLots) == s;
    SumAppend(Xs(a, day, inst.busStops), Xs(a, day, inst.parkingLots));
    forall j | 0 <= j < |s| ensures Binary(s[j]) {
      assert Starts(inst)[j] == all[|inst.stampPoints| + j];
    }
    SumOneHot(s);
    var k :| 0 <= k < |s| && s[k] == 1.0 && forall j :: 0 <= j < |s| && j != k ==> s[j] == 0.0;
    forall j | 0 <= j < |s| && j != k ensures a.x(day, Starts(inst)[j]) == 0.0 {
      assert s[j] == a.x(day, Starts(inst)[j]);
    }
    assert OnlyVisited(a, day, Starts(inst), k);
  }

  /** The one visited start is the only visited bus stop or parking lot:
      any two visited starts of a day are the same node. */
  lemma StartUnique(inst: Instance, p: Params, a: Assignment, day: int, v: Id, w: Id)
    requires WellFormed(inst) && Feasible(inst, p, a)
    requires 0 <= day < p.days
    requires v in Starts(inst) && w in Starts(inst)
    requires a.x(day, v) == 1.0 && a.x(day, w) == 1.0
    ensures v == w
  {
    ExactlyOneStart(inst, p, a, day);
    var k :| 0 <= k < |Starts(inst)| && OnlyVisited(a, day, Starts(inst), k);
    var iv :| 0 <= iv < |Starts(inst)| && Starts(inst)[iv] == v;
    var iw :| 0 <= iw < |Starts(inst)| && Starts(inst)[iw] == w;
  }

  lemma OutTermsBinary(inst: Instance, p: Params, a: Assignment, day: int, f: Id)
    requires Domains(inst, p, a) && 0 <= day < p.days
    ensures AllBinary(OutTerms(inst, a, day, f))
  {
  }

  lemma InTermsBinary(inst: Instance, p: Params, a: Assignment, day: int, t: Id)
    requires Domains(inst, p, a) && 0 <= day < p.days
    ensures AllBinary(InTerms(inst, a, day, t))
  {
  }

  /** Exactly one arc leaving `f` is chosen. */
  predicate OneOutArc(inst: Instance, a: Assignment, day: int, f: Id)
  {
    exists k :: 0 <= k < |inst.arcs| && inst.arcs[k].from == f && Chosen(inst, a, day, k) &&
      (forall j :: 0 <= j < |inst.arcs| && j != k && inst.arcs[j].from == f ==> !Chosen(inst, a, day, j))
  }

  /** No arc leaving `f` is chosen. */
  predicate NoOutArc(inst: Instance, a: Assignment, day: int, f: Id)
  {
    forall j :: 0 <= j < |inst.arcs| && inst.arcs[j].from == f ==> !Chosen(inst, a, day, j)
  }

  /** Exactly one arc entering `t` is chosen. */
  predicate OneInArc(inst: Instance, a: Assignment, day: int, t: Id)
  {
    exists k :: 0 <= k < |inst.arcs| && inst.arcs[k].to == t && Chosen(inst, a, day, k) &&
      (forall j :: 0 <= j < |inst.arcs| && j != k && inst.arcs[j].to == t ==> !Chosen(inst, a, day, j))
  }

  /** No arc entering `t` is chosen. */
  predicate NoInArc(inst: Instance, a: Assignment, day: int, t: Id)
  {
    forall j :: 0 <= j < |inst.arcs| && inst.arcs[j].to == t ==> !Chosen(inst, a, day, j)
  }

  lemma OutSumCounts(inst: Instance, a: Assignment, day: int, f: Id)
    requires AllBinary(OutTerms(inst, a, day, f))
    ensures Sum(OutTerms(inst, a, day, f)) == 1.0 ==> OneOutArc(inst, a, day, f)
    ensures Sum(OutTerms(inst, a, day, f)) == 0.0 ==> NoOutArc(inst, a, day, f)
  {
    var s := OutTerms(inst, a, day, f);
    if Sum(s) == 1.0 {
      SumOneHot(s);
      var k :| 0 <= k < |s| && s[k] == 1.0 && forall j :: 0 <= j < |s| && j != k ==> s[j] == 0.0;
      assert inst.arcs[k].from == f;
      assert Chosen(inst, a, day, k);
      forall j | 0 <= j < |inst.arcs| && j != k && inst.arcs[j].from == f ensures !Chosen(inst, a, day, j) {
        assert s[j] == 0.0;
      }
    }
    if Sum(s) == 0.0 {
      SumZeroAllZero(s);
      forall j | 0 <= j < |inst.arcs| && inst.arcs[j].from == f ensures !Chosen(inst, a, day, j) {
        assert s[j] == 0.0;
      }
    }
  }

  lemma InSumCounts(inst: Instance, a: Assignment, day: int, t: Id)
    requires AllBinary(InTerms(inst, a, day, t))
    ensures Sum(InTerms(inst, a, day, t)) == 1.0 ==> OneInArc(inst, a, day, t)
    ensures Sum(InTerms(inst, a, day, t)) == 0.0 ==> NoInArc(inst, a, day, t)
  {
    var s := InTerms(inst, a, day, t);
    if Sum(s) == 1.0 {
      SumOneHot(s);
      var k :| 0 <= k < |s| && s[k] == 1.0 && forall j :: 0 <= j < |s| && j != k ==> s[j] == 0.0;
      assert inst.arcs[k].to == t;
      assert Chosen(inst, a, day, k);
      forall j | 0 <= j < |inst.arcs| && j != k && inst.arcs[j].to == t ensures !Chosen(inst, a, day, j) {
        assert s[j] == 0.0;
      }
    }
    if Sum(s) == 0.0 {
      SumZeroAllZero(s);
      forall j | 0 <= j < |inst.arcs| && inst.arcs[j].to == t ensures !Chosen(inst, a, day, j) {
        assert s[j] == 0.0;
      }
    }
  }

  /** Flow conservation, read as a count: a node with outgoing arcs has
      exactly one chosen outgoing arc on a day it is visited, and none on
      a day it is not. */
  lemma OutDegreeMatchesVisit(inst: Instance, p: Params, a: Assignment, day: int, i: int)
    requires Domains(inst, p, a) && FlowOut(inst, p, a)
    requires 0 <= day < p.days && 0 <= i < |inst.arcs|
    ensures a.x(day, inst.arcs[i].from) == 1.0 ==> OneOutArc(inst, a, day, inst.arcs[i].from)
    ensures a.x(day, inst.arcs[i].from) == 0.0 ==> NoOutArc(inst, a, day, inst.arcs[i].from)
  {
    OutTermsBinary(inst, p, a, day, inst.arcs[i].from);
    OutSumCounts(inst, a, day, inst.arcs[i].from);
  }

  /** The same count for incoming arcs. */
  lemma InDegreeMatchesVisit(inst: Instance, p: Params, a: Assignment, day: int, i: int)
    requires Domains(inst, p, a) && FlowIn(inst, p, a)
    requires 0 <= day < p.days && 0 <= i < |inst.arcs|
    ensures a.x(day, inst.arcs[i].to) == 1.0 ==> OneInArc(inst, a, day, inst.arcs[i].to)
    ensures a.x(day, inst.arcs[i].to) == 0.0 ==> NoInArc(inst, a, day, inst.arcs[i].to)
  {
    InTermsBinary(inst, p, a, day, inst.arcs[i].to);
    InSumCounts(inst, a, day, inst.arcs[i].to);
  }

  /** A chosen arc's target is visited that day. */
  lemma ChosenTargetVisited(inst: Instance, p: Params, a: Assignment, day: int, k: int)
    requires KnownEndpoints(inst)
    requires Domains(inst, p, a) && FlowIn(inst, p, a)
    requires 0 <= day < p.days && 0 <= k < |inst.arcs|
    requires Chosen(inst, a, day, k)
    ensures a.x(day, inst.arcs[k].to) == 1.0
  {
    var t := inst.arcs[k].to;
    var s := InTerms(inst, a, day, t);
    InTermsBinary(inst, p, a, day, t);
    assert AllNonNegative(s);
    assert s[k] == 1.0;
    SumAtLeastTerm(s, k);
    assert Sum(s) == a.x(day, t);
    assert Binary(a.x(day, t)) by {
      var all := AllNodes(inst);
      var q :| 0 <= q < |all| && all[q] == t;
    }
  }

  /** A chosen arc's source is visited that day, and the arc is the only
      chosen arc leaving it. */
  lemma ChosenSourceVisited(inst: Instance, p: Params, a: Assignment, day: int, k: int)
    requires KnownEndpoints(inst)
    requires Domains(inst, p, a) && FlowOut(inst, p, a)
    requires 0 <= day < p.days && 0 <= k < |inst.arcs|
    requires Chosen(inst, a, day, k)
    ensures a.x(day, inst.arcs[k].from) == 1.0
    ensures forall j :: 0 <= j < |inst.arcs| && inst.arcs[j].from == inst.arcs[k].from && Chosen(inst, a, day, j) ==> j == k
  {
    var f := inst.arcs[k].from;
    OutDegreeMatchesVisit(inst, p, a, day, k);
    assert Binary(a.x(day, f)) by {
      var all := AllNodes(inst);
      var q :| 0 <= q < |all| && all[q] == f;
    }
    assert a.x(day, f) == 1.0;
  }

  /* ---------------------------------------------------------------------
     No subtour among stamp points (problem_solver.py:42, 80-85)
     --------------------------------------------------------------------- */

  /** Some chosen arc of `day` goes from `f` to `t`. */
  predicate ChosenPair(inst: Instance, a: Assignment, day: int, f: Id, t: Id)
  {
    exists k :: 0 <= k < |inst.arcs| && inst.arcs[k].from == f && inst.arcs[k].to == t && Chosen(inst, a, day, k)
  }

  /** The `k`-th step of the closed walk `c` is a chosen arc. */
  predicate Link(inst: Instance, a: Assignment, day: int, c: seq<Id>, k: int)
    requires 0 <= k < |c|
  {
    ChosenPair(inst, a, day, c[k], c[(k + 1) % |c|])
  }

  /** `c` is a closed walk of chosen arcs lying on stamp points only. */
  predicate StampCycle(inst: Instance, a: Assignment, day: int, c: seq<Id>)
  {
    && |c| > 0
    && (forall k :: 0 <= k < |c| ==> c[k] in inst.stampPoints)
    && (forall k :: 0 <= k < |c| ==> Link(inst, a, day, c, k))
  }

  /** Along a chosen stamp-to-stamp arc the position goes up by at least one. */
  lemma MtzStep(inst: Instance, p: Params, a: Assignment, day: int, f: Id, t: Id)
    requires Mtz(inst, p, a) && 0 <= day < p.days
    requires f in inst.stampPoints && t in inst.stampPoints
    requires ChosenPair(inst, a, day, f, t)
    ensures a.z(day, f) + 1.0 <= a.z(day, t)
  {
    var k :| 0 <= k < |inst.arcs| && inst.arcs[k].from == f && inst.arcs[k].to == t && Chosen(inst, a, day, k);
  }

  lemma {:induction false} MtzAlongPath(inst: Instance, p: Params, a: Assignment, day: int, c: seq<Id>, n: nat)
    requires Mtz(inst, p, a) && 0 <= day < p.days
    requires StampCycle(inst, a, day, c)
    requires n < |c|
    ensures a.z(day, c[0]) + n as real <= a.z(day, c[n])
  {
    if n > 0 {
      MtzAlongPath(inst, p, a, day, c, n - 1);
      assert Link(inst, a, day, c, n - 1);
      assert (n - 1 + 1) % |c| == n;
      MtzStep(inst, p, a, day, c[n - 1], c[n]);
    }
  }

  /** With the position constraints in force, no day has a cycle of chosen
      arcs through stamp points only: positions would have to increase all
      the way round. */
  lemma NoStampSubtour(inst: Instance, p: Params, a: Assignment, day: int, c: seq<Id>)
    requires Feasible(inst, p, a) && 0 <= day < p.days
    ensures !StampCycle(inst, a, day, c)
  {
    if StampCycle(inst, a, day, c) {
      var n := |c| - 1;
      MtzAlongPath(inst, p, a, day, c, n);
      assert Link(inst, a, day, c, n);
      assert (n + 1) % |c| == 0;
      MtzStep(inst, p, a, day, c[n], c[0]);
      assert false;
    }
  }

  /* ---------------------------------------------------------------------
     Distances
     --------------------------------------------------------------------- */

  /** The flat sum over the first `n` days and all arcs is the total of
      those days' distances. */
  lemma {:induction false} AllDayTermsSum(inst: Instance, a: Assignment, n: nat)
    ensures Sum(AllDayTerms(inst, a, n)) == Sum(DailyDistances(inst, a, n))
  {
    if n > 0 {
      AllDayTermsSum(inst, a, n - 1);
      var last := DayDistance(inst, a, n - 1);
      SumAppend(AllDayTerms(inst, a, n - 1), DistanceTerms(inst, a, n - 1));
      SumAppend(DailyDistances(inst, a, n - 1), [last]);
      assert Sum([last]) == last + Sum([last][1..]);
    }
  }

  /** The objective is the total of the daily distances. */
  lemma ObjectiveIsDailyTotal(inst: Instance, p: Params, a: Assignment)
    ensures Objective(inst, p, a) == Sum(DailyDistances(inst, a, DayCount(p)))
  {
    AllDayTermsSum(inst, a, DayCount(p));
  }

  /** The objective is the total of the daily distances, each within the
      daily cap, so it is at most `days * maximum_daily_distance`. */
  lemma ObjectiveWithinCaps(inst: Instance, p: Params, a: Assignment)
    requires Feasible(inst, p, a)
    ensures Objective(inst, p, a) <= DayCount(p) as real * p.maxDailyDistance
  {
    ObjectiveIsDailyTotal(inst, p, a);
    SumBounded(DailyDistances(inst, a, DayCount(p)), p.maxDailyDistance);
  }

  /** On a binary assignment a day's distance is never negative. */
  lemma DayDistanceNonNegative(inst: Instance, p: Params, a: Assignment, day: int)
    requires WellFormed(inst) && Domains(inst, p, a) && 0 <= day < p.days
    ensures 0.0 <= DayDistance(inst, a, day)
  {
    var s := DistanceTerms(inst, a, day);
    forall k | 0 <= k < |s| ensures 0.0 <= s[k] {
      assert Binary(a.y(day, inst.arcs[k].from, inst.arcs[k].to));
    }
    SumNonNegative(s);
  }

  /* ---------------------------------------------------------------------
     Stamp points counted once (problem_solver.py:88)
     --------------------------------------------------------------------- */

  /** `v` is visited on some day. */
  ghost predicate VisitedSomeDay(p: Params, a: Assignment, v: Id)
  {
    exists day :: 0 <= day < p.days && a.x(day, v) == 1.0
  }

  /** How many entries of `ids` are visited on some day; for distinct ids,
      the number of different stamp points a plan covers. */
  ghost function CountVisited(p: Params, a: Assignment, ids: seq<Id>): nat
  {
    if |ids| == 0 then 0
    else (if VisitedSomeDay(p, a, ids[0]) then 1 else 0) + CountVisited(p, a, ids[1..])
  }

  /** The constraint problem_solver.py lacks: each stamp point is visited on
      at most one day (the `n[sp]` linking of find_routes.py:85-86, 126-127). */
  predicate StampOnce(inst: Instance, p: Params, a: Assignment)
  {
    forall k :: 0 <= k < |inst.stampPoints| ==>
      Sum(Terms(DayCount(p), day => a.x(day, inst.stampPoints[k]))) <= 1.0
  }

  /** The corrected model: problem_solver.py's constraints plus `StampOnce`. */
  predicate FeasibleUnique(inst: Instance, p: Params, a: Assignment)
  {
    Feasible(inst, p, a) && StampOnce(inst, p, a)
  }

  /** One stamp point, one parking lot, a round trip between them. */
  function RoundTripInstance(): Instance
  {
    Instance(["s"], [], ["p"], [Arc("p", "s", 1.0), Arc("s", "p", 1.0)])
  }

  /** Everything visited, every arc chosen, every position zero. */
  function AllOnes(): Assignment
  {
    Assignment((day, v) => 1.0, (day, f, t) => 1.0, (day, v) => 0.0)
  }

  /** As written, the minimum-stamps constraint counts a stamp point once
      per day it is visited: walking the same round trip on two days
      satisfies `min_stamps = 2` with a single stamp point. */
  lemma DoubleCountingAsWritten()
    ensures Feasible(RoundTripInstance(), Params(2, 2.0, 2, 0, 2), AllOnes())
    ensures CountVisited(Params(2, 2.0, 2, 0, 2), AllOnes(), RoundTripInstance().stampPoints) == 1
  {
    TwoDayFeasible();
    TwoDayOneStamp();
  }

  /** The round trip walked on both days meets every constraint. */
  lemma TwoDayFeasible()
    ensures Feasible(RoundTripInstance(), Params(2, 2.0, 2, 0, 2), AllOnes())
  {
    RoundTripShape(Params(2, 2.0, 2, 0, 2));
    TwoDayBounds();
  }

  /** It visits a single stamp point. */
  lemma TwoDayOneStamp()
    ensures CountVisited(Params(2, 2.0, 2, 0, 2), AllOnes(), RoundTripInstance().stampPoints) == 1
  {
    var p, a := Params(2, 2.0, 2, 0, 2), AllOnes();
    assert VisitedSomeDay(p, a, "s") by {
      assert a.x(0, "s") == 1.0;
    }
    assert ["s"][1..] == [];
  }

  /** The sums of the short sequences the two-day round trip produces. */
  lemma SmallSums()
    ensures Sum([1.0]) == 1.0 && Sum([0.0]) == 0.0
    ensures Sum([1.0, 0.0]) == 1.0 && Sum([0.0, 1.0]) == 1.0
    ensures Sum([1.0, 1.0]) == 2.0 && Sum([0.0, 0.0]) == 0.0
  {
    assert [1.0][1..] == [] && [0.0][1..] == [];
    assert [1.0, 0.0][1..] == [0.0] && [0.0, 1.0][1..] == [1.0];
    assert [1.0, 1.0][1..] == [1.0] && [0.0, 0.0][1..] == [0.0];
  }

  /** Walking the round trip every day meets every constraint but the
      bounds, whatever the number of days. */
  lemma RoundTripShape(p: Params)
    ensures Domains(RoundTripInstance(), p, AllOnes()) && StartOnce(RoundTripInstance(), p, AllOnes())
    ensures FlowOut(RoundTripInstance(), p, AllOnes()) && FlowIn(RoundTripInstance(), p, AllOnes())
    ensures Mtz(RoundTripInstance(), p, AllOnes())
  {
    var inst, a := RoundTripInstance(), AllOnes();
    SmallSums();
    forall day ensures Xs(a, day, ["p"]) == [1.0] && Xs(a, day, []) == [] { }
    forall day ensures OutTerms(inst, a, day, "p") == [1.0, 0.0] && OutTerms(inst, a, day, "s") == [0.0, 1.0] { }
    forall day ensures InTerms(inst, a, day, "s") == [1.0, 0.0] && InTerms(inst, a, day, "p") == [0.0, 1.0] { }
  }

  /** The two-day round trip counts two stamp visits, walks two units a
      day and uses no bus stop. */
  lemma TwoDayBounds()
    ensures Bounds(RoundTripInstance(), Params(2, 2.0, 2, 0, 2), AllOnes())
  {
    var inst, p, a := RoundTripInstance(), Params(2, 2.0, 2, 0, 2), AllOnes();
    SmallSums();
    assert DayCount(p) == 2;
    forall day ensures Xs(a, day, ["s"]) == [1.0] && Xs(a, day, ["p"]) == [1.0] && Xs(a, day, []) == [] { }
    assert Terms(2, day => Sum(Xs(a, day, ["s"]))) == [1.0, 1.0];
    assert Terms(2, day => Sum(Xs(a, day, ["p"]))) == [1.0, 1.0];
    assert Terms(2, day => Sum(Xs(a, day, []))) == [0.0, 0.0];
    forall day ensures DistanceTerms(inst, a, day) == [1.0, 1.0] { }
  }

  /** `Xs` as a family indexed by day and position. */
  function VisitTable(a: Assignment, ids: seq<Id>): (int, int) -> real
  {
    (day, k) => if 0 <= k < |ids| then a.x(day, ids[k]) else 0.0
  }

  lemma {:induction false} CountVisitedAsSum(p: Params, a: Assignment, ids: seq<Id>)
    ensures Sum(Terms(|ids|, k => if 0 <= k < |ids| && VisitedSomeDay(p, a, ids[k]) then 1.0 else 0.0)) ==
      CountVisited(p, a, ids) as real
  {
    if |ids| > 0 {
      var ind := k => if 0 <= k < |ids| && VisitedSomeDay(p, a, ids[k]) then 1.0 else 0.0;
      var ind' := k => if 0 <= k < |ids[1..]| && VisitedSomeDay(p, a, ids[1..][k]) then 1.0 else 0.0;
      SumSplitFirst(|ids|, ind);
      TermsExt(|ids| - 1, k => ind(k + 1), ind');
      CountVisitedAsSum(p, a, ids[1..]);
      TermsExt(|ids|, k => if 0 <= k < |ids| && VisitedSomeDay(p, a, ids[k]) then 1.0 else 0.0, ind);
    } else {
      assert Terms(0, k => if 0 <= k < |ids| && VisitedSomeDay(p, a, ids[k]) then 1.0 else 0.0) == [];
    }
  }

  /** Under `StampOnce` a stamp point's visits over all days add up to one
      if it is visited at all, and to zero otherwise. */
  lemma VisitsOfOneStamp(inst: Instance, p: Params, a: Assignment, k: int)
    requires Domains(inst, p, a) && StampOnce(inst, p, a)
    requires 0 <= k < |inst.stampPoints|
    ensures Sum(Terms(DayCount(p), day => VisitTable(a, inst.stampPoints)(day, k))) ==
      if VisitedSomeDay(p, a, inst.stampPoints[k]) then 1.0 else 0.0
  {
    var v := inst.stampPoints[k];
    var col := Terms(DayCount(p), day => VisitTable(a, inst.stampPoints)(day, k));
    forall day ensures VisitTable(a, inst.stampPoints)(day, k) == a.x(day, v) { }
    TermsExt(DayCount(p), day => VisitTable(a, inst.stampPoints)(day, k), day => a.x(day, v));
    forall day | 0 <= day < |col| ensures Binary(col[day]) {
      assert AllNodes(inst)[k] == v;
    }
    SumBinaryAtMostOne(col);
    if VisitedSomeDay(p, a, v) {
      var day :| 0 <= day < p.days && a.x(day, v) == 1.0;
      assert col[day] == 1.0;
    }
  }

  /** The stamp points among `ids` that are visited on some day. */
  ghost function VisitedSet(p: Params, a: Assignment, ids: seq<Id>): set<Id>
  {
    set v | v in ids && VisitedSomeDay(p, a, v)
  }

  /** Over distinct ids, counting entries is counting different stamp points. */
  lemma {:induction false} CountVisitedIsCard(p: Params, a: Assignment, ids: seq<Id>)
    requires DistinctIds(ids)
    ensures CountVisited(p, a, ids) == |VisitedSet(p, a, ids)|
  {
    if |ids| > 0 {
      var rest := ids[1..];
      assert DistinctIds(rest) by {
        forall i, j | 0 <= i < j < |rest| ensures rest[i] != rest[j] {
          assert rest[i] == ids[i + 1] && rest[j] == ids[j + 1];
        }
      }
      CountVisitedIsCard(p, a, rest);
      assert ids[0] !in rest by {
        forall j | 0 <= j < |rest| ensures rest[j] != ids[0] {
          assert rest[j] == ids[j + 1];
        }
      }
      var head: set<Id> := if VisitedSomeDay(p, a, ids[0]) then {ids[0]} else {};
      var tail := VisitedSet(p, a, rest);
      assert ids == [ids[0]] + rest;
      forall v ensures v in VisitedSet(p, a, ids) <==> v in head + tail {
        assert v in ids <==> v == ids[0] || v in rest;
      }
      assert VisitedSet(p, a, ids) == head + tail;
      assert head !! tail;
      assert |head + tail| == |head| + |tail|;
    }
  }

  /** With the uniqueness constraint, the plan has at least `min_stamps`
      entries of the stamp-point list visited on some day. */
  lemma DistinctStampsCovered(inst: Instance, p: Params, a: Assignment)
    requires FeasibleUnique(inst, p, a)
    ensures CountVisited(p, a, inst.stampPoints) as real >= p.minStamps as real
  {
    var ids := inst.stampPoints;
    var D, K := DayCount(p), |ids|;
    var F := VisitTable(a, ids);
    forall day | 0 <= day < D ensures Sum(Xs(a, day, ids)) == Sum(Terms(K, k => F(day, k))) {
      assert Xs(a, day, ids) == Terms(K, k => F(day, k));
    }
    TermsExt(D, day => Sum(Xs(a, day, ids)), day => Sum(Terms(K, k => F(day, k))));
    SumSwap(D, K, F);
    var ind := k => if 0 <= k < |ids| && VisitedSomeDay(p, a, ids[k]) then 1.0 else 0.0;
    forall k | 0 <= k < K ensures Sum(Terms(D, day => F(day, k))) == ind(k) {
      VisitsOfOneStamp(inst, p, a, k);
    }
    TermsExt(K, k => Sum(Terms(D, day => F(day, k))), ind);
    CountVisitedAsSum(p, a, ids);
    TermsExt(K, k => if 0 <= k < |ids| && VisitedSomeDay(p, a, ids[k]) then 1.0 else 0.0, ind);
  }

  /** In a well-formed instance the stamp-point ids are distinct, so a plan
      meeting the uniqueness constraint covers at least `min_stamps`
      different stamp points. */
  lemma DifferentStampsCovered(inst: Instance, p: Params, a: Assignment)
    requires WellFormed(inst) && FeasibleUnique(inst, p, a)
    ensures |VisitedSet(p, a, inst.stampPoints)| as real >= p.minStamps as real
  {
    var sp := inst.stampPoints;
    assert DistinctIds(sp) by {
      forall i, j | 0 <= i < j < |sp| ensures sp[i] != sp[j] {
        assert AllNodes(inst)[i] == sp[i] && AllNodes(inst)[j] == sp[j];
      }
    }
    DistinctStampsCovered(inst, p, a);
    CountVisitedIsCard(p, a, sp);
  }
}
