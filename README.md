# harz-hiking: a Dafny model of the route planner's core

harz-hiking plans multi-day hikes through the Harzer Wandernadel, a network
of stamp points. A Neo4j catalog holds the stamp points, bus stops and
parking lots, and the walking distances between them. A mixed-integer
program then chooses one tour per day. Each tour starts at a bus stop or a
parking lot (in the older script: the hiker's origin or a bus stop). The
hiker must collect a minimum number of stamps, stay under a daily distance
cap, and respect caps on bus and parking days.

This project models the logic in the middle of that pipeline and proves
what it guarantees. The pieces are:

- **DistanceIndex** (`distance_index.dfy`): the distance dictionaries that
  `GraphData.distances` builds from the distance query rows. It also models
  the `node`, `is_arc` and `distance` lookups. `BuildDistances` is the
  imperative loop that builds them.
- **RoutingModel** (`routing_model.dfy`): the constraints of
  `ProblemSolver.solve`, as predicates over a solved assignment. The
  lemmas state what any feasible assignment must satisfy:
  - exactly one start per day;
  - flow conservation read as arc counts;
  - no cycle made of stamp points only;
  - distances within the caps.
- **OrderedDicts** (`ordered_dicts.dfy`): Python dicts keep insertion
  order, and the tour extraction relies on it.
- **TourExtraction** (`tour_extraction.dfy`): how `solve` rebuilds each
  day's tour from the solver's values:
  - the `prev` dict;
  - the first non-stamp key, which becomes the start;
  - the walk along `prev`.
- **ProblemSolver** (`problem_solver.dfy`): `solve` as one method. It builds
  the program, raising `IndexError` or `KeyError` as the Python does; picks
  a solver; then extracts the tours.
- **FindRoutes** (`find_routes.dfy`): the older script `find_routes.py`.
  It models the arc filter, its own constraint set (which does count each
  stamp point once), the readback of the solved values, and the `visits`
  walk. That walk pops entries, and the model proves it ends.
- **Thinning** (`thinning.dfy`): the greedy radius thinning of OSM bus
  stops and parking lots:
  - adjacency lists built by the nested pair loops;
  - the order by descending degree (Python's stable `sorted`);
  - the keep/delete loop.

  The result is proved to be a maximal independent set of the "closer
  than the radius" graph, chosen in that degree order.
- **StampNames** (`stamp_names.dfy`): reading a stamp waypoint's number and
  title out of its GPX name (`int(name[3:6])`, `name[7:]`). Python's
  `int()` is modelled with whitespace stripping and underscore digit
  groups.
- **Importer** (`importer.dfy`): the older importer class. It exits early
  when nodes already exist, merges with `MERGE ... ON CREATE SET`, and
  returns a count of the form "length of list minus nodes already present".

Python's solver library, Neo4j and the OSM services are not called, and
neither is the geodesic distance. What they produce becomes an input:
- the query rows;
- the solved assignment, as a function from variables to values;
- the list of installed solvers;
- the closeness test between two entities.

Some of the code's behaviour is easy to misread; the model follows the code:
- `solve` never reads the solver status (line 109), so an infeasible
  program is not reported separately.
- A day whose `prev` has no non-stamp key gets an empty tour, not an
  error.
- The tour walk follows `prev.get` with no stop at the start node.
- problem_solver.py's minimum-stamps constraint counts visits. It does not
  count distinct stamp points.
- problem_solver.py has no home nodes: its start nodes are bus stops and
  parking lots (line 39 leaves the origin as a TODO).

## Model

| member | source | states |
|---|---|---|
| DistanceIndex.NodeOf | model/graph_data.py:114-125 | `node(id)` finds the node exactly when the id is in one of the three dictionaries. It looks in stamp points first, then bus stops, then parking lots. Otherwise it fails with `ValueError` naming the id. |
| DistanceIndex.NodeOfKind | model/graph_data.py:114-125 | In a well-formed catalog, the kind of the node returned tells which dictionary holds the id. |
| DistanceIndex.IsArc | model/graph_data.py:165-169 | `is_arc(f, t)`: `f` has a row in `distances` and `t` is one of its targets. |
| DistanceIndex.Distance | model/graph_data.py:165-175 | `distance(f, t)` succeeds exactly when `is_arc(f, t)`. Then it returns `distances[f][t]`. Otherwise it raises `KeyError` with the key whose lookup fails: `f` when it has no row, else `t`. |
| DistanceIndex.LastDistanceIsLast | model/graph_data.py:139-148 | The distance kept for a pair is the one of the last query row for that pair. There is none exactly when no row has that pair. |
| DistanceIndex.BuildDistances | model/graph_data.py:137-148 | After the loop, `distances` has an arc exactly for the pairs read, holding the last row's distance. `distances_reverse` is its exact transpose. Outer keys are exactly the sources (targets) seen, and no inner dict is empty. |
| Thinning.BuildAdjacency | model/graph_data.py:338-348 | Each entity's list holds exactly the other entities close to it, in increasing order. |
| Thinning.DegreeOrder | model/graph_data.py:349-350 | `indizes_sorted` lists every index exactly once, highest degree first, ties kept in index order (stable sort). |
| Thinning.SortedUnique | model/graph_data.py:349-350 | Only one sequence of the given indices is sorted by this order, so the stable sort's result is determined. |
| Thinning.DegreesMatch | model/graph_data.py:349-350 | The sort key `len(adjacent_entities[i])` equals the number of entities close to `i`. |
| Thinning.Greedy | model/graph_data.py:352-358 | A position of the order is kept exactly when no earlier kept entity lists it as a neighbour. The kept list stays in sorted order. |
| Thinning.GreedyRuleFromPositions | model/graph_data.py:349-358 | The loop's per-position rule, read on entities: an entity is kept exactly when no kept entity of higher rank is close to it. |
| Thinning.GreedyRuleMaximalIndependent | model/graph_data.py:352-358 | Entities kept by the greedy rule are pairwise far apart, and every dropped entity is close to a kept one. |
| Thinning.ThinEntities | model/graph_data.py:337-358 | The thinned list has distinct indices in degree order, follows the greedy rule, and is independent and dominating. Its length is the count returned on line 369. GraphData.py:150-169 is the same code. |
| StampNames.Slice | model/graph_data.py:260 | `s[lo:hi]` clamps past-the-end bounds: length and characters as Python's slice. |
| StampNames.Drop | model/graph_data.py:261 | `s[lo:]` is the suffix after `lo`, or empty past the end. |
| StampNames.PyInt | model/graph_data.py:260 | `int(s)` succeeds exactly when the stripped text is a decimal literal with optional sign and single underscores between digits. Otherwise it raises `ValueError` with the text. |
| StampNames.PyIntPad3 | model/graph_data.py:260 | `int()` reads back every zero-padded three-digit number. |
| StampNames.PyIntIgnoresSpaces | model/graph_data.py:260 | Surrounding whitespace changes neither whether `int()` succeeds nor its value. |
| StampNames.ParseWaypointName | model/graph_data.py:260-261 | The name parses exactly when `int(name[3:6])` succeeds. The stamp number is that value and the title is `name[7:]`. A failure carries the slice. |
| StampNames.NameRoundTrip | model/graph_data.py:260-261 | A name made of three characters, a padded stamp number, a separator and a title parses back to that number and that title. |
| StampNames.SeparatorRejected | model/graph_data.py:260 | A name whose fourth character is an information separator (U+001C to U+001F) is rejected with the `ValueError` of its slice, because `int()` does not strip it: `"000\x1c12 Title"` is not stamp 12. |
| StampNames.ShortNameRejected | model/graph_data.py:260 | A name of at most three characters raises `ValueError` on the empty slice. |
| StampNames.TitleIsSuffix | model/graph_data.py:261 | A parsed name has at least four characters, and the title is exactly what follows the first seven. |
| StampNames.ImportStampPoints | model/graph_data.py:255-267 | One StampPoint per waypoint, in file order, with the parsed number and title and the waypoint's position. The waypoint count is returned. A bad name stops the import at that waypoint with its error. |
| OrderedDicts.PutGet | model/problem_solver.py:119 | After `prev[t] = f`, `t` maps to `f` and every other key is unchanged. |
| OrderedDicts.PutUnique | model/problem_solver.py:119 | Assignment keeps the keys of the dict distinct. |
| OrderedDicts.ToMapSize | model/problem_solver.py:131 | The dict's map view has no more entries than the dict. |
| RoutingModel.Feasible | model/problem_solver.py:38-100 | The constraint set. It has binary `x` and `y` with `z` in `[0, N]` (38-51) and one start per day (64-67). Flow conservation holds at each node with outgoing or incoming arcs (69-78), and MTZ positions on stamp arcs (80-85). Then the minimum stamps (88), the daily cap (91-94) and the bus and parking caps (97, 100). |
| RoutingModel.Objective | model/problem_solver.py:58-61 | The objective: one flat sum of `distance * y[day, f, t]`, over days and then over the arcs in `distances` order. |
| RoutingModel.ExactlyOneStart | model/problem_solver.py:64-67 | On every day exactly one bus stop or parking lot is visited. |
| RoutingModel.StartUnique | model/problem_solver.py:64-67 | Two visited start nodes of one day are the same node. |
| RoutingModel.OutSumCounts | model/problem_solver.py:69-74 | A binary outgoing sum of one means exactly one chosen outgoing arc; a sum of zero means none. |
| RoutingModel.InSumCounts | model/problem_solver.py:75-78 | The same count for incoming arcs. |
| RoutingModel.OutDegreeMatchesVisit | model/problem_solver.py:69-74 | A node with outgoing arcs has exactly one chosen outgoing arc on a day it is visited, and none otherwise. |
| RoutingModel.InDegreeMatchesVisit | model/problem_solver.py:75-78 | A node with incoming arcs has exactly one chosen incoming arc on a day it is visited, and none otherwise. |
| RoutingModel.ChosenTargetVisited | model/problem_solver.py:75-78 | The target of a chosen arc is visited that day. |
| RoutingModel.ChosenSourceVisited | model/problem_solver.py:69-74 | The source of a chosen arc is visited that day, and it is the only chosen arc leaving that source. |
| RoutingModel.MtzStep | model/problem_solver.py:80-85 | Along a chosen arc between stamp points, the position rises by at least one. |
| RoutingModel.MtzAlongPath | model/problem_solver.py:80-85 | After `n` steps along chosen stamp arcs, the position has risen by at least `n`. |
| RoutingModel.NoStampSubtour | model/problem_solver.py:80-85 | A feasible assignment has no closed walk of chosen arcs on stamp points only. |
| RoutingModel.AllDayTermsSum | model/problem_solver.py:58-61 | The flat sum over the first `n` days equals the total of those days' distances. |
| RoutingModel.ObjectiveIsDailyTotal | model/problem_solver.py:58-94 | The objective equals the total of the daily sums that lines 91-94 cap. |
| RoutingModel.ObjectiveWithinCaps | model/problem_solver.py:58-94 | The objective is at most `days` times the daily cap. |
| RoutingModel.DayDistanceNonNegative | model/problem_solver.py:91-94 | With binary arc values and non-negative distances, each day's distance is non-negative. |
| RoutingModel.DoubleCountingAsWritten | model/problem_solver.py:87-88 | A two-day plan visiting the only stamp point on both days satisfies every constraint with `min_stamps = 2`, although it covers one stamp point. |
| RoutingModel.CountVisitedAsSum | model/problem_solver.py:88 | The number of stamp-point list entries visited on some day is a sum of zero/one indicators. |
| RoutingModel.VisitsOfOneStamp | model/problem_solver.py:88 | Once each stamp point is visited on at most one day, its visits over all days add up to one or zero, according to whether it is visited at all. |
| RoutingModel.DistinctStampsCovered | model/problem_solver.py:87-88 | With that uniqueness constraint added, a feasible plan has at least `min_stamps` entries of the stamp-point list visited on some day. |
| RoutingModel.CountVisitedIsCard | model/problem_solver.py:88 | Over distinct ids the number of entries visited on some day equals the number of different stamp points visited. |
| RoutingModel.DifferentStampsCovered | model/problem_solver.py:87-88 | In a well-formed instance, with the uniqueness constraint added, a feasible plan visits at least `min_stamps` different stamp points. |
| TourExtraction.PrevAfter | model/problem_solver.py:115-119 | `prev` once the nested loop has seen the arcs. Each arc valued above one half sets `prev[to] = from`, in place when `to` is a key, otherwise at the end of the dict. |
| TourExtraction.LastPickedIntoIsLast | model/problem_solver.py:116-119 | The predecessor stored for a node comes from the last picked arc into it (a later one overwrites). There is none exactly when no picked arc enters it. |
| TourExtraction.FirstTargetsMembers | model/problem_solver.py:116-119 | A node is a key of `prev` exactly when some arc into it has a value above one half. |
| TourExtraction.PrevAfterSpec | model/problem_solver.py:115-119 | `prev` has distinct keys, ordered by the first picked arc into each, and each value comes from the last such arc. |
| TourExtraction.BuildPrev | model/problem_solver.py:115-119 | The loop produces that dict: its keys, their order and their values. |
| TourExtraction.StartOf | model/problem_solver.py:121-125 | The start search over the keys of `prev`: the first key that is not a stamp point, or `None`. |
| TourExtraction.StartOfIsFirst | model/problem_solver.py:121-125 | The start is the first key of `prev` that is not a stamp point, or `None` when every key is one. |
| TourExtraction.FindStart | model/problem_solver.py:121-125 | The loop with its `break` finds exactly that start. |
| TourExtraction.StartIsVisitedStart | model/problem_solver.py:121-125 | On a feasible assignment, the start found is the day's one visited bus stop or parking lot. |
| TourExtraction.WalkFrom | model/problem_solver.py:127-131 | The walk as written, for at most `fuel` steps. It appends `node(id)` and follows `prev.get` until `None`. It ends in `LookupFailed` when `node()` raises and in `OutOfFuel` when the steps run out. |
| TourExtraction.WalkTour | model/problem_solver.py:127-131 | The walk as written, `node_id = prev.get(node_id)` on `prev` viewed as a map, run for a bounded number of steps, computes `WalkFrom`. |
| TourExtraction.ClosedWalkNeverEnds | model/problem_solver.py:127-131 | When every predecessor has an entry of its own, the walk as written never stops. |
| TourExtraction.WalkedFollowsPrev | model/problem_solver.py:127-131 | A walk that ends lists the nodes reached by 0, 1, 2, ... predecessor steps, and the last of them has no predecessor. |
| TourExtraction.AcyclicWalkEnds | model/problem_solver.py:127-131 | On an acyclic `prev` over known nodes, the walk as written ends. |
| TourExtraction.AcyclicWalkDrains | model/problem_solver.py:127-131 | On an acyclic `prev`, the walk as written and the draining walk give the same result. |
| TourExtraction.DrainChain | find_routes.py:175-176 | The ids of the draining walk from `v`. Each step pops the current key and moves to its value, and the walk stops at an id with no entry left. |
| TourExtraction.DrainFrom | model/problem_solver.py:127-131 | The corrected walk: `node(id)` for each id of the draining chain, failing at the first lookup that raises. |
| TourExtraction.DrainChainBounded | find_routes.py:175-176 | The draining walk takes at most one step per entry of the dict. |
| TourExtraction.DrainChainLinks | find_routes.py:175-176 | Each step of the draining walk follows an entry of the original dict. |
| TourExtraction.DrainChainEnd | find_routes.py:175-176 | The draining walk stops at a node that has no entry left. |
| TourExtraction.DrainFromNodes | model/problem_solver.py:130 | A draining walk over known nodes ends. Its tour is the looked-up node of each id on the chain. |
| TourExtraction.DrainTour | model/problem_solver.py:127-131 | The corrected walk: it pops each entry it follows, so it ends. |
| TourExtraction.PrevMapEntries | model/problem_solver.py:115-119 | A node has an entry exactly when a picked arc enters it, and its predecessor is the source of such an arc. |
| TourExtraction.PickedIsChosen | model/problem_solver.py:118 | On binary values, reading an arc as `> 0.5` agrees with it being chosen. |
| TourExtraction.VisitedHasEntry | model/problem_solver.py:75-78 | A visited node that some arc enters has an entry in `prev`. |
| TourExtraction.PrevMapClosed | model/problem_solver.py:69-78 | On a feasible day on which every node is entered by some arc, every node with an entry is visited, and so is its predecessor, which has an entry too. |
| TourExtraction.PrevMapInjective | model/problem_solver.py:69-74 | On a feasible day, distinct entries have distinct predecessors. |
| TourExtraction.StartFound | model/problem_solver.py:121-125 | When every node is entered by some arc, the start search succeeds on a feasible day and finds a key of `prev`. |
| TourExtraction.FeasiblePrevShape | model/problem_solver.py:112-125 | On a feasible day on which every node is entered by some arc, `prev` is closed and injective over known nodes, and the start is one of its keys. |
| TourExtraction.FeasibleWalkNeverEnds | model/problem_solver.py:127-131 | As written, the walk never ends on any day meeting the domain, start and flow constraints (so on every feasible day) when every node is entered by some arc. |
| TourExtraction.DrainEndsAt | find_routes.py:175-176 | The draining walk ends at the one node with no entry, when the walk cannot reach any other. |
| TourExtraction.DrainReturns | model/problem_solver.py:127-131 | On a closed, injective `prev`, the draining walk from a key returns to that key after at least one step. |
| TourExtraction.ChainInKeys | model/problem_solver.py:127-131 | Every id on the draining walk over a closed `prev` is a key. |
| TourExtraction.ClosedDrainTour | model/problem_solver.py:127-131 | On a closed, injective `prev` over known nodes, the corrected tour begins and ends at the start node and has between 2 and `|prev| + 1` nodes. |
| TourExtraction.FeasibleDrainReturns | model/problem_solver.py:112-131 | On any day meeting the domain, start and flow constraints on which every node is entered by some arc, the corrected tour exists, starts and ends at the start node, and has at most `|prev| + 1` nodes. |
| TourExtraction.RoundTripFeasible | model/problem_solver.py:38-100 | A one-day plan, parking lot to stamp point and back, satisfies every constraint. |
| TourExtraction.RoundTripPrev | model/problem_solver.py:115-119 | That plan's `prev` is `{s: p, p: s}`, in that order. |
| TourExtraction.RoundTripWalkNeverEnds | model/problem_solver.py:127-131 | On that feasible plan the start is the parking lot, and the walk as written never ends. |
| TourExtraction.RoundTripDrainTour | model/problem_solver.py:127-131 | On the same plan the corrected walk gives parking lot, stamp point, parking lot. |
| ProblemSolver.SelectSolverAsWritten | model/problem_solver.py:104-108 | As written, the prioritized solver is chosen exactly when it is named and listed, because the uncalled `available` method is always true. Otherwise CBC. |
| ProblemSolver.SelectSolver | model/problem_solver.py:104-108 | As intended, the prioritized solver is chosen exactly when it is named, listed and reports itself available. Otherwise CBC. |
| ProblemSolver.SelectSolverRefinesAsWritten | model/problem_solver.py:104-108 | The intended choice is the as-written choice, falling back to CBC when that solver is not available. |
| ProblemSolver.UnavailableSolverChosen | model/problem_solver.py:106-107 | A named, listed solver that is not installed is chosen as written, while the intended choice is CBC. |
| ProblemSolver.FirstUnknownSourceSpec | model/problem_solver.py:70-74 | It finds the first arc, in order, whose source is not a node, or nothing when every source is a node. |
| ProblemSolver.FirstUnknownTargetSpec | model/problem_solver.py:75-78 | It finds the first arc, in order, whose target is not a node, or nothing when every target is a node. |
| ProblemSolver.FindUnknownSource | model/problem_solver.py:70-74 | The scan over the arcs returns the first unknown source, as `FirstUnknownSource` defines it. |
| ProblemSolver.FindUnknownTarget | model/problem_solver.py:75-78 | The scan over the arcs returns the first unknown target, as `FirstUnknownTarget` defines it. |
| ProblemSolver.BuildError | model/problem_solver.py:57-78 | What building the program raises. With no arc it is `IndexError`. With at least one day it is `KeyError` for the first unknown arc source, then the first unknown target. Otherwise nothing. |
| ProblemSolver.BuildErrorSpec | model/problem_solver.py:57-78 | Building fails with `IndexError` exactly when there is no arc. With at least one day, it fails with `KeyError` on an arc endpoint that is not a node, and otherwise succeeds. |
| ProblemSolver.DayTour | model/problem_solver.py:113-131 | One day's tour: `prev` from the picked arcs, the start found in it, and the corrected draining walk from that start. With no start the tour is empty. |
| ProblemSolver.DayTourWalks | model/problem_solver.py:127-131 | When every arc endpoint is a node, no lookup on a day's corrected walk fails. |
| ProblemSolver.OneDayTour | model/problem_solver.py:113-132 | Building `prev`, finding the start and walking give the day's `DayTour`, and the walk does not fail when every arc endpoint is a node. |
| ProblemSolver.ExtractTours | model/problem_solver.py:111-133 | One tour per day, in day order, each the day's `DayTour`. |
| ProblemSolver.Solve | model/problem_solver.py:24-133 | It returns exactly the build error when there is one. Otherwise it returns one tour per day, each the corrected walk over the selected solver's assignment. |
| FindRoutes.Kept | find_routes.py:55-59 | The query rows the filter lets through, in order: those whose both ends are the origin, a bus stop or a stamp point. |
| FindRoutes.KeptMembers | find_routes.py:59 | A distance row is kept exactly when both its ends are the origin, a bus stop or a stamp point. |
| FindRoutes.TablesOf | find_routes.py:60-66 | `distances`, `edges` and `reverse_edges` after the kept rows. Each row sets the pair's distance and appends to both lists, creating a list on first use. |
| FindRoutes.TablesOfSpec | find_routes.py:60-66 | `distances` holds each pair kept, with the last row's distance. `edges[f]` and `reverse_edges[t]` list the targets from `f` and the sources into `t` in order, repeats included, and exist exactly when that list is non-empty. |
| FindRoutes.FilterArcs | find_routes.py:53-66 | The loop produces exactly those tables from the rows it keeps. |
| FindRoutes.RouteFeasible | find_routes.py:94-137 | The constraint set: binary variables, one start per day and the start's single arc into the stamp points, MTZ positions on stamp arcs, and the return arc and stamp flow. Then the visit totals, the minimum stamps, the daily cap and the bus-day cap. |
| FindRoutes.ReadArcBinary | find_routes.py:88-91 | Every arc variable a constraint reads exists and is binary, when every pair read has an arc. |
| FindRoutes.OneStartPerDay | find_routes.py:96 | Each day exactly one of the bus stops and the origin is the start. |
| FindRoutes.StartLeavesOnce | find_routes.py:99-100 | The start leaves along exactly one arc into a stamp point; every other candidate start leaves along none. |
| FindRoutes.OneReturnArc | find_routes.py:109 | Each day exactly one stamp point has its arc into the origin chosen. |
| FindRoutes.StampDegree | find_routes.py:112-123 | A stamp point visited on a day is entered once and left once, and one not visited is neither entered nor left. |
| FindRoutes.StampOnAtMostOneDay | find_routes.py:126-127 | No stamp point is visited on two different days. |
| FindRoutes.TotalIsVisited | find_routes.py:126-127 | `n[sp]` is one exactly when the stamp point is visited on some day. |
| FindRoutes.DistinctStampsAtLeastMin | find_routes.py:126-130 | A feasible plan has at least `min_stamps` entries of the stamp-point list visited on some day. |
| FindRoutes.DifferentStampsAtLeastMin | find_routes.py:126-130 | When the stamp-point ids are distinct, as dict keys are, a feasible plan visits at least `min_stamps` different stamp points. |
| FindRoutes.NoStampSubtourFR | find_routes.py:103-106 | No day has a closed walk of chosen arcs on stamp points only. |
| FindRoutes.PrevOf | find_routes.py:157-159 | `prev[day]` once the loop has seen the arcs: each arc with value one sets `prev[day][to] = from`. |
| FindRoutes.PrevOfSpec | find_routes.py:157-159 | `prev[day]` has a key exactly for the targets of arcs whose value is one. Its value is the source of the last such arc. |
| FindRoutes.VisitedNames | find_routes.py:160-162 | The names of the stamp points with `n[day, sp] == 1`, in stamp point order. |
| FindRoutes.VisitedNamesSpec | find_routes.py:160-162 | A name is listed exactly when a stamp point of that name is visited. On binary values the list is as long as the count printed on line 172. |
| FindRoutes.SelectedDistance | find_routes.py:164-166 | The distances of the day's arcs with value one, added in arc order. |
| FindRoutes.SelectedDistanceIsSum | find_routes.py:164-166 | On binary values, the distance added up over selected arcs equals the weighted sum of line 134. |
| FindRoutes.DayPrev | find_routes.py:155-159 | The loop over the arcs builds `prev[day]` as `PrevOf` defines it: each selected arc's target maps to the source of the last selected arc into it. |
| FindRoutes.DayNames | find_routes.py:160-162 | The loop over the stamp points lists the visited names in order, as `VisitedNames` defines them. |
| FindRoutes.AddSelected | find_routes.py:164-166 | `final_distances[day]` grows by the selected distance of that day; no other day changes. |
| FindRoutes.ExtractDays | find_routes.py:150-166 | The readback gives, per day, the predecessor map, the visited names and the selected distance. |
| FindRoutes.DailyDistance | find_routes.py:164-166 | On any plan with binary arc variables and within the daily cap, each day's distance equals the constrained sum and lies between zero and the daily cap. |
| FindRoutes.WeightedNonNegative | find_routes.py:134 | Binary values times non-negative distances add up to a non-negative total. |
| FindRoutes.TotalDistance | find_routes.py:169 | The total distance printed is between zero and `days` times the cap. |
| FindRoutes.FindName | find_routes.py:177-183 | A place's name is found exactly when its id is listed, and it is that place's name. |
| FindRoutes.NameOf | find_routes.py:177-183 | A node has a name exactly when it is the origin, a bus stop or a stamp point. |
| FindRoutes.ReversedNames | find_routes.py:173-183 | Names of a chain, inserted at the front: they succeed exactly when each id has a name, in reverse order. Otherwise they name the first id without one. |
| FindRoutes.VisitsFrom | find_routes.py:173-186 | The `visits` loop from `cur`: pop the entry, move to its value, and put that node's name in front. It returns `Err` at a node with no name. |
| FindRoutes.VisitsFollowChain | find_routes.py:173-186 | The walk's result is the reversed names of the draining chain from the origin, placed before the initial list. |
| FindRoutes.DrainVisits | find_routes.py:173-186 | The `visits` loop computes exactly that walk, starting from the origin's name. |
| FindRoutes.VisitsSteps | find_routes.py:175-176 | The walk follows entries of `prev` and takes at most one step per entry, so it ends. It stops where no entry is left. |
| FindRoutes.VisitsNames | find_routes.py:173-183 | `visits` is the chain's names in reverse, ending with the origin's. An `ERROR` exit names the first node of the chain after the origin that is neither the origin, a bus stop nor a stamp point. |
| Importer.MergeStamp | model/Importer.py:32-33 | `MERGE (n:StampPoint {id: ...}) ON CREATE SET ...`: a node is created only for a new number; an existing node is left as it is. |
| Importer.MergeRecords | model/Importer.py:28-34 | The merge loop over parsed waypoints, in order. It stops at the first name that `int()` rejects, with that error, after merging the ones before it. |
| Importer.MergeKeepsExisting | model/Importer.py:32-33 | `MERGE ... ON CREATE SET` never changes a node that already exists. |
| Importer.MergeFailsAtFirstBadName | model/Importer.py:29-34 | The import fails exactly when some waypoint name does not parse, with the first such error. |
| Importer.MergeAddsFirst | model/Importer.py:32-33 | A new node exists only for a number some waypoint carries, and it holds the first such waypoint's data. |
| Importer.MergeCoversAll | model/Importer.py:29-34 | After a successful import every number carried has a node. |
| Importer.ImportStampPoints | model/Importer.py:18-37 | With nodes present and no `force_update`, nothing changes and 0 is returned. Otherwise the merged database and, on success, the waypoint count minus the nodes already present. |
| Importer.FreshImportCount | model/Importer.py:36 | Into a database without any of the numbers, with distinct numbers, the database grows by exactly the waypoint count. |
| Importer.MergeByIndex | model/Importer.py:96-102 | The merge as written: each kept entity is merged under its list position as `osmid`. |
| Importer.MergeByOsmId | model/graph_data.py:361-366 | The corrected merge: each kept entity is merged under its OSM id. |
| Importer.MergeByOsmIdSpec | model/graph_data.py:361-367 | Keyed on the OSM id, a node exists afterwards exactly when it existed or some kept entity has that id. Existing nodes are unchanged, and a new one holds the first such entity's data. |
| Importer.IndexKeyAsWritten | model/Importer.py:96-102 | As written, with a node stored under `osmid` 0, a re-import leaves the database unchanged and loses the new bus stop with OSM id 4711. |
| Importer.OsmIdKeyStoresNewEntity | model/graph_data.py:361-367 | Keyed on the OSM id, the same re-import stores the bus stop 4711. |
| Importer.ImportOsmEntities | model/Importer.py:54-106 | With nodes present and no `force_update`: nothing changes, and 0 is returned. Otherwise the thinned entities have all the properties `ThinEntities` proves, they are merged on their OSM id, and the count is the kept number minus the nodes already present. |

## Left out

- Neo4j, Cypher and the GPX, Overpass and osmnx libraries are not modelled. The query results are inputs (distance rows, waypoints, OSM nodes), and a database label is a map from its merge key to the node's properties.
- The map file, `_create_map`, `_simplify_map`, the convex hull, `import_data`'s control flow and the `import_distances` / `_import_missing_distances` scripts are outside the core and are not modelled.
- The geodesic and great-circle tests in the thinning are left out (floating point). The closeness relation between two entity indices is an input `near`.
- The MILP solver is not run. A solution is an input function from variables to values, and the variables' bounds are predicates over it (`Domains`, `RouteDomains`). Optimality and the objective's minimization are not modelled.
- The prints, the timing, `computeIIS` and the IIS file writes of find_routes.py are left out. Its `exit()` after `ERROR` becomes the `Err` result of `DrainVisits`.
- Floating-point values are `real`. The readbacks `> 0.5` and `== 1` are exact comparisons on reals, not on solver floats.
- The home nodes, `ignore_stamp_ids` and the home-distance cache of the wider code are not part of this model.
- The catalog's lazy loading and caching of properties is not modelled. The dictionaries are values.
- StampNames.ImportStampPoints: a waypoint without a name (`None` in gpxpy) raises `TypeError` on `name[3:6]`. Names are always strings in the model.
- Python's `int()` also accepts non-ASCII whitespace (for instance U+0085, U+00A0 and U+2003) and non-ASCII decimal digits. The model handles the ASCII whitespace `int()` strips (blank, `\t`, `\n`, `\v`, `\f`, `\r`) and the digits `0`-`9`. Like Python, it rejects the information separators U+001C to U+001F around a number, even though `str.isspace()` accepts them.
- The order in which a dict of dicts is iterated is an input: `Instance.arcs` and `RouteInstance.arcs` list the arcs in that order.
- TourExtraction.WalkTour: the walk as written runs with a step bound (`fuel`). Running out of steps (`OutOfFuel`) stands for a loop that does not end.
- FindRoutes.ReadArcBinary: the `KeyError` that find_routes.py raises when a constraint reads a pair with no distance is not produced. The lemmas assume `Complete`, which states that every pair read has an arc.
- FindRoutes.VisitsNames: find_routes.py leaves some arc variables unconstrained (for instance bus stop to origin, stamp point to bus stop). So no theorem states that its walk returns a full tour on a feasible day; only what the walk computes is proved.
- ProblemSolver.BuildErrorSpec: the `KeyError` for an unknown target names the first such target in arc order. Python iterates `distances_reverse`, whose key order can differ, so on an instance with two unknown targets the id named may differ. Python's `KeyError` also carries the whole missing key `(0, id)` of `x[day, id]`; `SolveError.KeyError` carries only the id.
- ProblemSolver.BuildError: it names an unknown target in arc order, not in `distances_reverse` order, and its `KeyError` carries the id rather than the tuple `(0, id)`, as on the line above.
- TourExtraction.PrevMapClosed: it assumes that every node is entered by some arc. problem_solver.py:75-78 constrains only nodes with incoming arcs, so a node no arc enters is never forced to have an entry itself.
- TourExtraction.FeasiblePrevShape: it assumes that every node is entered by some arc. Without this, a plan can be feasible with a chain rather than a cycle. For example, take parking lot `p`, stamp points `s` and `t`, and the only arcs `p→s` and `s→t`, all chosen. Then `prev = {s: p, t: s}`, and `p`, the predecessor of `s`, has no entry.
- TourExtraction.FeasibleDrainReturns: it assumes that every node is entered by some arc. On the same `p→s→t` plan, every key of `prev` is a stamp point, so no start is found and the tour is empty (lines 121-125).
- ProblemSolver.Solve: it extracts tours with the corrected draining walk, and it picks the solver with `available()` called (see Findings). The walk as written is `TourExtraction.WalkTour`, and the choice as written is `ProblemSolver.SelectSolverAsWritten`.
- ProblemSolver.ExtractTours: each tour is the corrected `DayTour`, not the loop of lines 127-131 as written (see Findings).
- ProblemSolver.OneDayTour: it walks with the corrected draining walk, not the loop of lines 127-131 as written (see Findings).
- ProblemSolver.DayTourWalks: it is about the corrected draining walk, not the loop of lines 127-131 as written (see Findings).
- Importer.ImportOsmEntities: it merges on the OSM id, the corrected key (see Findings). The merge as written is `Importer.MergeByIndex`.

## Findings

| source | as written | input that shows it | evidently intended | confidence | as-written member | corrected member |
|---|---|---|---|---|---|---|
| model/problem_solver.py:127-131 | The tour walk follows `prev.get(node_id)`. On a feasible day on which every node has an incoming arc, flow conservation makes `prev` a closed cycle through the start, so `node_id` never becomes `None` and the loop does not end. | One day, one parking lot `p`, one stamp point `s`, arcs `p→s` and `s→p` both chosen (`RoundTripInstance`). `prev = {s: p, p: s}`, the start is `p`, and the walk goes around forever. | Stop once the walk is back at the start, as find_routes.py does by popping each entry it follows. The tour is parking lot, stamp point, parking lot. | high (not executed) | TourExtraction.RoundTripWalkNeverEnds, TourExtraction.FeasibleWalkNeverEnds | TourExtraction.RoundTripDrainTour, TourExtraction.FeasibleDrainReturns, TourExtraction.DrainTour |
| model/problem_solver.py:88 | The minimum-stamps constraint sums `x[day, sp]` over days and stamp points, so a stamp point visited on two days counts twice. Nothing forbids the repeat. | Two days, one stamp point, `min_stamps = 2` (`DoubleCountingAsWritten`). The plan visits the same stamp point twice, is feasible, and covers one stamp. | Each stamp point counts once: a stamp point appears in at most one tour, as find_routes.py:126-127 enforce. | high (not executed) | RoutingModel.DoubleCountingAsWritten | RoutingModel.DistinctStampsCovered |
| model/Importer.py:96-102 | The entities are `(name, lat, lon)` tuples, and the `MERGE` key `osmid` is the entity's position in the list, not its OSM id. A re-import with `force_update` then matches unrelated nodes already stored under small numbers. | The database holds a bus stop under `osmid` 0; Overpass returns one bus stop with OSM id 4711 (`IndexKeyAsWritten`). The merge matches the old node, and 4711 is never stored. | Merge on the node's OSM id, as graph_data.py:361-366 and GraphData.py:172-177 do. | medium (not executed) | Importer.IndexKeyAsWritten, Importer.MergeByIndex | Importer.OsmIdKeyStoresNewEntity, Importer.MergeByOsmIdSpec, Importer.ImportOsmEntities |
| model/problem_solver.py:107 | `if prioritized_solver.available:` reads PuLP's `available` method without calling it. A bound method is always true, so a named solver that `listSolvers()` lists is chosen even when it is not installed. | `prioritized = "GUROBI"`, listed, and `available()` false because Gurobi is not installed (`UnavailableSolverChosen`). GUROBI is chosen, and `prob.solve` is handed a solver that cannot run. | Call `available()` and fall back to CBC when it is false. | medium (not executed) | ProblemSolver.SelectSolverAsWritten, ProblemSolver.UnavailableSolverChosen | ProblemSolver.SelectSolver, ProblemSolver.SelectSolverRefinesAsWritten, ProblemSolver.Solve |
