/** `ProblemSolver.solve` (model/problem_solver.py:24-133): the checks that
    raise while the program is built, the choice of solver, and the
    extraction of one tour per day from the solver's assignment. The MILP
    itself is RoutingModel; the solver run is a parameter. */
module ProblemSolver {
  import opened Wrappers
  import opened Nodes
  import opened OrderedDicts
  import opened DistanceIndex
  import opened RoutingModel
  import opened TourExtraction

  /* ---------------------------------------------------------------------
     Solver choice (lines 104-108)
     --------------------------------------------------------------------- */

  datatype Solver = Cbc | Prioritized(name: string)

  /** Line 107 as written: `prioritized_solver.available` is PuLP's
      `available` method itself, never called, and a bound method is
      always true. So a named solver that `listSolvers()` lists is chosen
      whether or not it is installed. */
  function SelectSolverAsWritten(prioritized: Option<string>, listed: seq<string>): (r: Solver)
    ensures r.Prioritized? <==> prioritized.Some? && prioritized.value in listed
    ensures r.Prioritized? ==> r.name == prioritized.value
  {
    if prioritized.Some? && prioritized.value in listed then Prioritized(prioritized.value)
    else Cbc
  }

  /** The choice with `available()` called, as intended: CBC unless a
      prioritized solver is named, listed and reports itself available. */
  function SelectSolver(prioritized: Option<string>, listed: seq<string>, available: string -> bool): (r: Solver)
    ensures r.Prioritized? ==> prioritized == Some(r.name) && r.name in listed && available(r.name)
    ensures prioritized.Some? && prioritized.value in listed && available(prioritized.value) ==> r.Prioritized?
  {
    if prioritized.Some? && prioritized.value in listed && available(prioritized.value) then Prioritized(prioritized.value)
    else Cbc
  }

  /** The intended choice is the choice as written, falling back to CBC
      when the solver chosen does not report itself available. */
  lemma SelectSolverRefinesAsWritten(prioritized: Option<string>, listed: seq<string>, available: string -> bool)
    ensures var w := SelectSolverAsWritten(prioritized, listed);
      SelectSolver(prioritized, listed, available) == if w.Prioritized? && available(w.name) then w else Cbc
  {
  }

  /** A named, listed solver that is not installed is still chosen as
      written, and `prob.solve` is handed a solver that cannot run; the
      intended choice falls back to CBC. */
  lemma UnavailableSolverChosen(name: string, listed: seq<string>, available: string -> bool)
    requires name in listed && !available(name)
    ensures SelectSolverAsWritten(Some(name), listed) == Prioritized(name)
    ensures SelectSolver(Some(name), listed, available) == Cbc
  {
  }

  /* ---------------------------------------------------------------------
     Errors raised while the program is built
     --------------------------------------------------------------------- */

  /** Line 57 indexes the first key of an empty distance table; lines 74
      and 78 look up `x[day, id]` for an arc endpoint that is not a node. */
  datatype SolveError = IndexError | KeyError(id: Id)

  /** The catalog and the instance are the same graph data: the id lists
      the solver iterates are the keys of the node dictionaries. */
  predicate Describes(cat: Catalog, inst: Instance)
  {
    && (set v | v in inst.stampPoints) == cat.stampPoints.Keys
    && (set v | v in inst.busStops) == cat.busStops.Keys
    && (set v | v in inst.parkingLots) == cat.parkingLots.Keys
  }

  /** The first arc source that is not a node, scanning arcs in order. */
  function FirstUnknownSource(inst: Instance, from: nat): Option<Id>
    decreases |inst.arcs| - from
  {
    if from >= |inst.arcs| then None
    else if inst.arcs[from].from !in AllNodes(inst) then Some(inst.arcs[from].from)
    else FirstUnknownSource(inst, from + 1)
  }

  /** The first arc target that is not a node, scanning arcs in order. */
  function FirstUnknownTarget(inst: Instance, from: nat): Option<Id>
    decreases |inst.arcs| - from
  {
    if from >= |inst.arcs| then None
    else if inst.arcs[from].to !in AllNodes(inst) then Some(inst.arcs[from].to)
    else FirstUnknownTarget(inst, from + 1)
  }

  lemma {:induction false} FirstUnknownSourceSpec(inst: Instance, from: nat)
    ensures FirstUnknownSource(inst, from).None? <==>
      forall k :: from <= k < |inst.arcs| ==> inst.arcs[k].from in AllNodes(inst)
    ensures FirstUnknownSource(inst, from).Some? ==>
      exists k :: from <= k < |inst.arcs| && inst.arcs[k].from == FirstUnknownSource(inst, from).value &&
        inst.arcs[k].from !in AllNodes(inst)
    decreases |inst.arcs| - from
  {
    if from < |inst.arcs| {
      FirstUnknownSourceSpec(inst, from + 1);
    }
  }

  lemma {:induction false} FirstUnknownTargetSpec(inst: Instance, from: nat)
    ensures FirstUnknownTarget(inst, from).None? <==>
      forall k :: from <= k < |inst.arcs| ==> inst.arcs[k].to in AllNodes(inst)
    ensures FirstUnknownTarget(inst, from).Some? ==>
      exists k :: from <= k < |inst.arcs| && inst.arcs[k].to == FirstUnknownTarget(inst, from).value &&
        inst.arcs[k].to !in AllNodes(inst)
    decreases |inst.arcs| - from
  {
    if from < |inst.arcs| {
      FirstUnknownTargetSpec(inst, from + 1);
    }
  }

  /** What raising while the program is built leaves: IndexError first,
      then a missing source, then a missing target; no day, no lookup. */
  function BuildError(inst: Instance, p: Params): Option<SolveError>
  {
    if |inst.arcs| == 0 then Some(IndexError)
    else if p.days <= 0 then None
    else if FirstUnknownSource(inst, 0).Some? then Some(KeyError(FirstUnknownSource(inst, 0).value))
    else if FirstUnknownTarget(inst, 0).Some? then Some(KeyError(FirstUnknownTarget(inst, 0).value))
    else None
  }

  /** The program is built exactly when there is an arc and, if there is a
      day at all, every arc endpoint is a node; a KeyError names an
      endpoint that is not one. */
  lemma BuildErrorSpec(inst: Instance, p: Params)
    ensures BuildError(inst, p).None? <==> |inst.arcs| > 0 && (p.days <= 0 || KnownEndpoints(inst))
    ensures BuildError(inst, p) == Some(IndexError) <==> |inst.arcs| == 0
    ensures BuildError(inst, p).Some? && BuildError(inst, p).value.KeyError? ==>
      exists k :: 0 <= k < |inst.arcs| && BuildError(inst, p).value.id in {inst.arcs[k].from, inst.arcs[k].to} &&
        BuildError(inst, p).value.id !in AllNodes(inst)
  {
    FirstUnknownSourceSpec(inst, 0);
    FirstUnknownTargetSpec(inst, 0);
  }

  /* ---------------------------------------------------------------------
     Tours (lines 111-133)
     --------------------------------------------------------------------- */

  /** The tour of one day: the draining walk from the start node of `prev`
      (empty when no key of `prev` is a bus stop or a parking lot). */
  function DayTour(cat: Catalog, inst: Instance, a: Assignment, day: int): Walk
  {
    var prev := PrevAfter(a, day, inst.arcs);
    var start := StartOf(Keys(prev), inst.stampPoints);
    if start.None? then Walked([]) else DrainFrom(cat, ToMap(prev), start.value)
  }

  /** With every arc endpoint a node, no lookup on the walk fails. */
  lemma DayTourWalks(cat: Catalog, inst: Instance, a: Assignment, day: int)
    requires Describes(cat, inst) && KnownEndpoints(inst)
    ensures DayTour(cat, inst, a, day).Walked?
  {
    var prev := PrevAfter(a, day, inst.arcs);
    var start := StartOf(Keys(prev), inst.stampPoints);
    if start.Some? {
      var m := ToMap(prev);
      var v := start.value;
      StartOfIsFirst(Keys(prev), inst.stampPoints);
      assert v in m;
      DrainChainLinks(m, v);
      var c := DrainChain(m, v);
      forall i | 0 <= i < |c| ensures Known(cat, c[i]) {
        if i == 0 {
          PrevMapEntries(a, day, inst.arcs, v);
        } else {
          PrevMapEntries(a, day, inst.arcs, c[i - 1]);
          assert m[c[i - 1]] == c[i];
        }
      }
      DrainFromNodes(cat, m, v);
    }
  }

  /** Line 74: the first arc source with no `x` variable. */
  method FindUnknownSource(inst: Instance) returns (u: Option<Id>)
    ensures u == FirstUnknownSource(inst, 0)
  {
    var k := 0;
    while k < |inst.arcs|
      invariant k <= |inst.arcs|
      invariant FirstUnknownSource(inst, 0) == FirstUnknownSource(inst, k)
    {
      if inst.arcs[k].from !in AllNodes(inst) {
        return Some(inst.arcs[k].from);
      }
      k := k + 1;
    }
    return None;
  }

  /** Line 78: the first arc target with no `x` variable. */
  method FindUnknownTarget(inst: Instance) returns (u: Option<Id>)
    ensures u == FirstUnknownTarget(inst, 0)
  {
    var k := 0;
    while k < |inst.arcs|
      invariant k <= |inst.arcs|
      invariant FirstUnknownTarget(inst, 0) == FirstUnknownTarget(inst, k)
    {
      if inst.arcs[k].to !in AllNodes(inst) {
        return Some(inst.arcs[k].to);
      }
      k := k + 1;
    }
    return None;
  }

  /** Lines 112-132: one tour per day, each the draining walk of `DayTour`. */
  method ExtractTours(cat: Catalog, inst: Instance, p: Params, a: Assignment) returns (tours: seq<seq<Node>>)
    requires Describes(cat, inst) && (p.days > 0 ==> KnownEndpoints(inst))
    ensures |tours| == DayCount(p)
    ensures forall d :: 0 <= d < |tours| ==> Walked(tours[d]) == DayTour(cat, inst, a, d)
  {
    tours := [];
    var day := 0;
    while day < p.days
      invariant 0 <= day <= DayCount(p)
      invariant |tours| == day
      invariant forall d :: 0 <= d < day ==> Walked(tours[d]) == DayTour(cat, inst, a, d)
    {
      var tour := OneDayTour(cat, inst, a, day);
      tours := tours + [tour];
      day := day + 1;
    }
  }

  /** Lines 113-132 for one day: build `prev`, find the start, walk. */
  method OneDayTour(cat: Catalog, inst: Instance, a: Assignment, day: int) returns (tour: seq<Node>)
    requires Describes(cat, inst) && KnownEndpoints(inst)
    ensures Walked(tour) == DayTour(cat, inst, a, day)
  {
    var prev := BuildPrev(inst.arcs, a, day);
    var start := FindStart(prev, inst.stampPoints);
    var w := DrainTour(cat, ToMap(prev), start);
    DayTourWalks(cat, inst, a, day);
    tour := w.tour;
  }

  /** `Solution(tours)`: the tours of days `0 .. days - 1`, in order. */
  datatype Solution = Solution(tours: seq<seq<Node>>)

  /** `solve`: `solution(s)` is what solver `s` assigns to this program.
      As on line 109, the solver's status is never looked at. */
  method Solve(cat: Catalog, inst: Instance, p: Params,
               prioritized: Option<string>, listed: seq<string>, available: string -> bool,
               solution: Solver -> Assignment)
    returns (r: Result<Solution, SolveError>)
    requires Describes(cat, inst)
    ensures BuildError(inst, p).Some? ==> r == Err(BuildError(inst, p).value)
    ensures BuildError(inst, p).None? ==> r.Ok?
    ensures r.Ok? ==>
      var a := solution(SelectSolver(prioritized, listed, available));
      && |r.value.tours| == DayCount(p)
      && forall d :: 0 <= d < |r.value.tours| ==> Walked(r.value.tours[d]) == DayTour(cat, inst, a, d)
  {
    if |inst.arcs| == 0 {
      return Err(IndexError);
    }
    if p.days > 0 {
      var missingSource := FindUnknownSource(inst);
      if missingSource.Some? {
        return Err(KeyError(missingSource.value));
      }
      var missingTarget := FindUnknownTarget(inst);
      if missingTarget.Some? {
        return Err(KeyError(missingTarget.value));
      }
      FirstUnknownSourceSpec(inst, 0);
      FirstUnknownTargetSpec(inst, 0);
    }
    var a := solution(SelectSolver(prioritized, listed, available));
    var tours := ExtractTours(cat, inst, p, a);
    r := Ok(Solution(tours));
  }
}
