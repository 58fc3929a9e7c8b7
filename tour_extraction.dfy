/** Rebuilding each day's tour from a solved assignment
    (model/problem_solver.py:112-133): the predecessor dict `prev`, the
    start node, and the walk along predecessors. */
module TourExtraction {
  import opened Wrappers
  import opened Nodes
  import opened Sums
  import opened OrderedDicts
  import opened DistanceIndex
  import opened RoutingModel

  /* ---------------------------------------------------------------------
     The predecessor dict (lines 115-119)
     --------------------------------------------------------------------- */

  /** Line 118 reads an arc as chosen when its value exceeds one half. */
  predicate Picked(a: Assignment, day: int, arc: Arc)
  {
    a.y(day, arc.from, arc.to) > 0.5
  }

  /** `prev` once the loop has seen `arcs`. */
  function PrevAfter(a: Assignment, day: int, arcs: seq<Arc>): Dict
  {
    if |arcs| == 0 then []
    else
      var d := PrevAfter(a, day, arcs[..|arcs| - 1]);
      var last := arcs[|arcs| - 1];
      if Picked(a, day, last) then Put(d, last.to, last.from) else d
  }

  /** The source of the last picked arc into `t`, if any. */
  function LastPickedInto(a: Assignment, day: int, arcs: seq<Arc>, t: Id): Option<Id>
  {
    if |arcs| == 0 then None
    else if arcs[|arcs| - 1].to == t && Picked(a, day, arcs[|arcs| - 1]) then Some(arcs[|arcs| - 1].from)
    else LastPickedInto(a, day, arcs[..|arcs| - 1], t)
  }

  /** The targets of picked arcs, each where it first occurs. */
  function FirstTargets(a: Assignment, day: int, arcs: seq<Arc>): seq<Id>
  {
    if |arcs| == 0 then []
    else
      var ts := FirstTargets(a, day, arcs[..|arcs| - 1]);
      var last := arcs[|arcs| - 1];
      if Picked(a, day, last) && last.to !in ts then ts + [last.to] else ts
  }

  /** A later picked arc into the same node overwrites an earlier one:
      `LastPickedInto` is the source of the last picked arc into `t`, and
      is empty exactly when no picked arc enters `t`. */
  lemma {:induction false} LastPickedIntoIsLast(a: Assignment, day: int, arcs: seq<Arc>, t: Id)
    ensures LastPickedInto(a, day, arcs, t).None? <==>
      forall k :: 0 <= k < |arcs| && arcs[k].to == t ==> !Picked(a, day, arcs[k])
    ensures LastPickedInto(a, day, arcs, t).Some? ==>
      exists k :: 0 <= k < |arcs| && arcs[k].to == t && Picked(a, day, arcs[k]) &&
        arcs[k].from == LastPickedInto(a, day, arcs, t).value &&
        (forall j :: k < j < |arcs| && arcs[j].to == t ==> !Picked(a, day, arcs[j]))
  {
    if |arcs| > 0 {
      var init := arcs[..|arcs| - 1];
      LastPickedIntoIsLast(a, day, init, t);
      forall k | 0 <= k < |init| ensures init[k] == arcs[k] { }
    }
  }

  /** A node is a target in `FirstTargets` exactly when a picked arc
      enters it. */
  lemma {:induction false} FirstTargetsMembers(a: Assignment, day: int, arcs: seq<Arc>, t: Id)
    ensures t in FirstTargets(a, day, arcs) <==> exists k :: 0 <= k < |arcs| && arcs[k].to == t && Picked(a, day, arcs[k])
  {
    if |arcs| > 0 {
      var init := arcs[..|arcs| - 1];
      FirstTargetsMembers(a, day, init, t);
      forall k | 0 <= k < |init| ensures init[k] == arcs[k] { }
    }
  }

  /** `prev`: distinct keys in order of first picked arc into them; each
      key's value is the source of the last picked arc into it. */
  lemma {:induction false} PrevAfterSpec(a: Assignment, day: int, arcs: seq<Arc>)
    ensures UniqueKeys(PrevAfter(a, day, arcs))
    ensures Keys(PrevAfter(a, day, arcs)) == FirstTargets(a, day, arcs)
    ensures forall t :: Get(PrevAfter(a, day, arcs), t) == LastPickedInto(a, day, arcs, t)
  {
    if |arcs| > 0 {
      var init := arcs[..|arcs| - 1];
      var last := arcs[|arcs| - 1];
      PrevAfterSpec(a, day, init);
      if Picked(a, day, last) {
        PutUnique(PrevAfter(a, day, init), last.to, last.from);
        forall t ensures Get(PrevAfter(a, day, arcs), t) == LastPickedInto(a, day, arcs, t) {
          PutGet(PrevAfter(a, day, init), last.to, last.from, t);
        }
      }
    }
  }

  /** The loop of lines 115-119. */
  method BuildPrev(arcs: seq<Arc>, a: Assignment, day: int) returns (prev: Dict)
    ensures prev == PrevAfter(a, day, arcs)
    ensures UniqueKeys(prev)
    ensures Keys(prev) == FirstTargets(a, day, arcs)
    ensures forall t :: Get(prev, t) == LastPickedInto(a, day, arcs, t)
  {
    prev := [];
    var k := 0;
    while k < |arcs|
      invariant k <= |arcs|
      invariant prev == PrevAfter(a, day, arcs[..k])
    {
      assert arcs[..k + 1][..k] == arcs[..k];
      if a.y(day, arcs[k].from, arcs[k].to) > 0.5 {
        prev := Put(prev, arcs[k].to, arcs[k].from);
      }
      k := k + 1;
    }
    assert arcs[..k] == arcs;
    PrevAfterSpec(a, day, arcs);
  }

  /* ---------------------------------------------------------------------
     The start node (lines 121-125)
     --------------------------------------------------------------------- */

  /** The first key that is not a stamp point. */
  function StartOf(keys: seq<Id>, stampPoints: seq<Id>): Option<Id>
  {
    if |keys| == 0 then None
    else if keys[0] !in stampPoints then Some(keys[0])
    else StartOf(keys[1..], stampPoints)
  }

  lemma {:induction false} StartOfIsFirst(keys: seq<Id>, stampPoints: seq<Id>)
    ensures StartOf(keys, stampPoints).None? <==> forall i :: 0 <= i < |keys| ==> keys[i] in stampPoints
    ensures StartOf(keys, stampPoints).Some? ==>
      exists i :: 0 <= i < |keys| && keys[i] == StartOf(keys, stampPoints).value && keys[i] !in stampPoints &&
        (forall j :: 0 <= j < i ==> keys[j] in stampPoints)
  {
    if |keys| > 0 && keys[0] in stampPoints {
      StartOfIsFirst(keys[1..], stampPoints);
      if StartOf(keys, stampPoints).Some? {
        var i :| 0 <= i < |keys[1..]| && keys[1..][i] == StartOf(keys, stampPoints).value && keys[1..][i] !in stampPoints &&
          (forall j :: 0 <= j < i ==> keys[1..][j] in stampPoints);
        assert keys[i + 1] == keys[1..][i];
      }
    }
  }

  /** The loop of lines 121-125, leaving with `break` at the first key that
      is not a stamp point. */
  method FindStart(prev: Dict, stampPoints: seq<Id>) returns (start: Option<Id>)
    ensures start == StartOf(Keys(prev), stampPoints)
  {
    start := None;
    var i := 0;
    while i < |prev|
      invariant i <= |prev|
      invariant StartOf(Keys(prev), stampPoints) == StartOf(Keys(prev)[i..], stampPoints)
    {
      assert Keys(prev)[i..][1..] == Keys(prev)[i + 1..];
      if prev[i].0 !in stampPoints {
        start := Some(prev[i].0);
        return;
      }
      i := i + 1;
    }
  }

  /** On a feasible assignment the start key is the day's visited bus stop
      or parking lot. */
  lemma StartIsVisitedStart(inst: Instance, p: Params, a: Assignment, day: int)
    requires RoutingModel.WellFormed(inst) && KnownEndpoints(inst) && Feasible(inst, p, a)
    requires 0 <= day < p.days
    requires StartOf(Keys(PrevAfter(a, day, inst.arcs)), inst.stampPoints).Some?
    ensures var v := StartOf(Keys(PrevAfter(a, day, inst.arcs)), inst.stampPoints).value;
      v in Starts(inst) && a.x(day, v) == 1.0
  {
    var keys := Keys(PrevAfter(a, day, inst.arcs));
    var v := StartOf(keys, inst.stampPoints).value;
    StartOfIsFirst(keys, inst.stampPoints);
    PrevAfterSpec(a, day, inst.arcs);
    FirstTargetsMembers(a, day, inst.arcs, v);
    var k :| 0 <= k < |inst.arcs| && inst.arcs[k].to == v && Picked(a, day, inst.arcs[k]);
    assert Binary(a.y(day, inst.arcs[k].from, inst.arcs[k].to));
    ChosenTargetVisited(inst, p, a, day, k);
    assert v in AllNodes(inst);
  }

  /* ---------------------------------------------------------------------
     The walk as written (lines 127-131)
     --------------------------------------------------------------------- */

  /** How a walk ends: with its tour, with `node()` raising ValueError on
      an unknown id, or still running when the step bound is used up. */
  datatype Walk = Walked(tour: seq<Node>) | LookupFailed(id: Id) | OutOfFuel

  function Concat(tour: seq<Node>, w: Walk): Walk
  {
    if w.Walked? then Walked(tour + w.tour) else w
  }

  /** `prev.get(v)` on the dict viewed as a map. */
  function Next(m: map<Id, Id>, v: Id): Option<Id>
  {
    if v in m then Some(m[v]) else None
  }

  /** The first `fuel` steps of `while node_id is not None: tour.append(node(node_id));
      node_id = prev.get(node_id)`. */
  function WalkFrom(cat: Catalog, m: map<Id, Id>, node: Option<Id>, fuel: nat): Walk
    decreases fuel
  {
    if node.None? then Walked([])
    else if fuel == 0 then OutOfFuel
    else match NodeOf(cat, node.value)
      case Err(_) => LookupFailed(node.value)
      case Ok(n) => Concat([n], WalkFrom(cat, m, Next(m, node.value), fuel - 1))
  }

  lemma ConcatAssoc(s: seq<Node>, t: seq<Node>, w: Walk)
    ensures Concat(s, Concat(t, w)) == Concat(s + t, w)
  {
    if w.Walked? {
      assert s + (t + w.tour) == (s + t) + w.tour;
    }
  }

  lemma ConcatNil(w: Walk)
    ensures Concat([], w) == w
  {
    if w.Walked? {
      assert [] + w.tour == w.tour;
    }
  }

  /** One step of the walk from `v`, with `tour` walked before it. */
  lemma WalkStep(cat: Catalog, m: map<Id, Id>, v: Id, fuel: nat, tour: seq<Node>)
    requires fuel > 0
    ensures NodeOf(cat, v).Err? ==> Concat(tour, WalkFrom(cat, m, Some(v), fuel)) == LookupFailed(v)
    ensures NodeOf(cat, v).Ok? ==>
      Concat(tour, WalkFrom(cat, m, Some(v), fuel)) == Concat(tour + [NodeOf(cat, v).value], WalkFrom(cat, m, Next(m, v), fuel - 1))
  {
    if NodeOf(cat, v).Ok? {
      ConcatAssoc(tour, [NodeOf(cat, v).value], WalkFrom(cat, m, Next(m, v), fuel - 1));
    }
  }

  /** Lines 127-131, run for at most `fuel` steps, on `prev` viewed as a
      map (`prev.get` does not depend on the dict's order). */
  method WalkTour(cat: Catalog, m: map<Id, Id>, start: Option<Id>, fuel: nat) returns (w: Walk)
    ensures w == WalkFrom(cat, m, start, fuel)
  {
    var tour: seq<Node> := [];
    var node := start;
    var steps := 0;
    ConcatNil(WalkFrom(cat, m, start, fuel));
    while node.Some? && steps < fuel
      invariant steps <= fuel
      invariant WalkFrom(cat, m, start, fuel) == Concat(tour, WalkFrom(cat, m, node, fuel - steps))
    {
      var r := NodeOf(cat, node.value);
      if r.Err? {
        return LookupFailed(node.value);
      }
      WalkStep(cat, m, node.value, fuel - steps, tour);
      tour := tour + [r.value];
      node := Next(m, node.value);
      steps := steps + 1;
    }
    if node.None? {
      w := Walked(tour);
      assert tour + [] == tour;
    } else {
      w := OutOfFuel;
    }
  }

  /** Every predecessor in `m` has an entry of its own. */
  predicate Closed(m: map<Id, Id>)
  {
    m.Values <= m.Keys
  }

  /** Distinct entries have distinct predecessors. */
  predicate Injective(m: map<Id, Id>)
  {
    forall w1, w2 :: w1 in m && w2 in m && m[w1] == m[w2] ==> w1 == w2
  }

  /** A walk that can always follow a predecessor to a known node never
      stops. */
  lemma {:induction false} ClosedWalkNeverEnds(cat: Catalog, m: map<Id, Id>, u: Id, fuel: nat)
    requires u in m && Closed(m)
    requires forall w :: w in m ==> Known(cat, w)
    ensures WalkFrom(cat, m, Some(u), fuel) == OutOfFuel
    decreases fuel
  {
    if fuel > 0 {
      assert m[u] in m.Values;
      ClosedWalkNeverEnds(cat, m, m[u], fuel - 1);
    }
  }

  /* ---------------------------------------------------------------------
     Acyclic predecessor maps
     --------------------------------------------------------------------- */

  /** The node `k` predecessor steps before `v`. */
  function Iter(m: map<Id, Id>, v: Id, k: nat): Option<Id>
    decreases k
  {
    if k == 0 then Some(v) else if v in m then Iter(m, m[v], k - 1) else None
  }

  /** No node is its own predecessor after any positive number of steps. */
  ghost predicate Acyclic(m: map<Id, Id>)
  {
    forall v, k :: k >= 1 ==> Iter(m, v, k) != Some(v)
  }

  lemma {:induction false} IterSubmap(m: map<Id, Id>, v: Id, u: Id, k: nat)
    requires Iter(m - {v}, u, k).Some?
    ensures Iter(m, u, k) == Iter(m - {v}, u, k)
    decreases k
  {
    if k > 0 {
      IterSubmap(m, v, m[u], k - 1);
    }
  }

  lemma AcyclicRemove(m: map<Id, Id>, v: Id)
    requires Acyclic(m)
    ensures Acyclic(m - {v})
  {
    forall u, k | k >= 1 ensures Iter(m - {v}, u, k) != Some(u) {
      if Iter(m - {v}, u, k).Some? {
        IterSubmap(m, v, u, k);
      }
    }
  }

  /** A walk that never meets `v` is the same without `v`'s entry. */
  lemma {:induction false} WalkIgnoresUnreached(cat: Catalog, m: map<Id, Id>, v: Id, u: Id, fuel: nat)
    requires forall k :: 0 <= k < fuel ==> Iter(m, u, k) != Some(v)
    ensures WalkFrom(cat, m, Some(u), fuel) == WalkFrom(cat, m - {v}, Some(u), fuel)
    decreases fuel
  {
    if fuel > 0 {
      assert Iter(m, u, 0) == Some(u);
      assert Next(m, u) == Next(m - {v}, u);
      if u in m {
        forall k | 0 <= k < fuel - 1 ensures Iter(m, m[u], k) != Some(v) {
          assert Iter(m, u, k + 1) == Iter(m, m[u], k);
        }
        WalkIgnoresUnreached(cat, m, v, m[u], fuel - 1);
      }
    }
  }


  /** A walk that ends gives the tour of lines 127-131: it starts at the
      start node, each next element is the predecessor of the previous
      one, and it stops at a node with no predecessor. */
  lemma {:induction false} WalkedFollowsPrev(cat: Catalog, m: map<Id, Id>, v: Id, fuel: nat)
    requires WalkFrom(cat, m, Some(v), fuel).Walked?
    ensures var t := WalkFrom(cat, m, Some(v), fuel).tour;
      && 1 <= |t| <= fuel
      && (forall i :: 0 <= i < |t| ==> Iter(m, v, i).Some? && NodeOf(cat, Iter(m, v, i).value) == Ok(t[i]))
      && Iter(m, v, |t| - 1).Some? && Iter(m, v, |t| - 1).value !in m
    decreases fuel
  {
    var n := NodeOf(cat, v).value;
    if v in m {
      WalkedFollowsPrev(cat, m, m[v], fuel - 1);
      var t' := WalkFrom(cat, m, Some(m[v]), fuel - 1).tour;
      var t := WalkFrom(cat, m, Some(v), fuel).tour;
      assert t == [n] + t';
      forall i | 0 <= i < |t| ensures Iter(m, v, i).Some? && NodeOf(cat, Iter(m, v, i).value) == Ok(t[i]) {
        if i > 0 {
          assert Iter(m, v, i) == Iter(m, m[v], i - 1);
        }
      }
      assert Iter(m, v, |t| - 1) == Iter(m, m[v], |t'| - 1);
    } else {
      assert WalkFrom(cat, m, Next(m, v), fuel - 1) == Walked([]);
    }
  }

  /** On an acyclic dict over known nodes the walk as written ends once
      it may take more steps than the dict has entries. */
  lemma AcyclicWalkEnds(cat: Catalog, m: map<Id, Id>, v: Id, fuel: nat)
    requires Acyclic(m) && fuel > |m|
    requires Known(cat, v) && forall w :: w in m ==> Known(cat, w) && Known(cat, m[w])
    ensures WalkFrom(cat, m, Some(v), fuel).Walked?
  {
    AcyclicWalkDrains(cat, m, v, fuel);
    var c := DrainChain(m, v);
    DrainChainLinks(m, v);
    forall u | u in c ensures Known(cat, u) {
      var i :| 0 <= i < |c| && c[i] == u;
      if i > 0 {
        assert c[i - 1] in m && m[c[i - 1]] == c[i];
      }
    }
    DrainFromNodes(cat, m, v);
  }
  /* ---------------------------------------------------------------------
     The draining walk: every step removes the key it reads, as
     find_routes.py:175-176 does with `prev[day].pop(current)`
     --------------------------------------------------------------------- */

  /** The ids the draining walk from `v` visits. */
  function DrainChain(m: map<Id, Id>, v: Id): (c: seq<Id>)
    ensures |c| >= 1 && c[0] == v
    decreases |m|
  {
    if v in m then
      assert |m - {v}| < |m| by { assert (m - {v}).Keys < m.Keys; }
      [v] + DrainChain(m - {v}, m[v])
    else [v]
  }

  /** The draining walk, looking each id up as it goes. */
  function DrainFrom(cat: Catalog, m: map<Id, Id>, v: Id): Walk
    decreases |m|
  {
    match NodeOf(cat, v)
    case Err(_) => LookupFailed(v)
    case Ok(n) =>
      if v in m then
        assert |m - {v}| < |m| by { assert (m - {v}).Keys < m.Keys; }
        Concat([n], DrainFrom(cat, m - {v}, m[v]))
      else Walked([n])
  }

  /** The draining walk takes at most one step per entry of the dict. */
  lemma {:induction false} DrainChainBounded(m: map<Id, Id>, v: Id)
    ensures |DrainChain(m, v)| <= |m| + 1
    decreases |m|
  {
    if v in m {
      assert (m - {v}).Keys < m.Keys;
      DrainChainBounded(m - {v}, m[v]);
    }
  }

  /** Each element of `c` after the first is the predecessor of the one
      before it. */
  predicate Linked(m: map<Id, Id>, c: seq<Id>)
  {
    forall i :: 0 <= i < |c| - 1 ==> c[i] in m && m[c[i]] == c[i + 1]
  }

  /** The draining walk only follows entries of the original dict. */
  lemma {:induction false} DrainChainLinks(m: map<Id, Id>, v: Id)
    ensures Linked(m, DrainChain(m, v))
    decreases |m|
  {
    if v in m {
      assert (m - {v}).Keys < m.Keys;
      var c := DrainChain(m, v);
      var c' := DrainChain(m - {v}, m[v]);
      DrainChainLinks(m - {v}, m[v]);
      assert c == [v] + c';
      forall i | 0 <= i < |c| - 1 ensures c[i] in m && m[c[i]] == c[i + 1] {
        if i > 0 {
          assert c[i] == c'[i - 1] && c[i + 1] == c'[i];
          assert c'[i - 1] in m - {v} && (m - {v})[c'[i - 1]] == c'[i];
        } else {
          assert c[1] == c'[0] == m[v];
        }
      }
    }
  }

  /** The walk stops at a node with no predecessor left: either it never
      had one, or its entry was already drained earlier on the walk. */
  lemma {:induction false} DrainChainEnd(m: map<Id, Id>, v: Id)
    ensures var c := DrainChain(m, v);
      c[|c| - 1] !in m || c[|c| - 1] in c[..|c| - 1]
    decreases |m|
  {
    if v in m {
      assert (m - {v}).Keys < m.Keys;
      DrainChainEnd(m - {v}, m[v]);
      var c := DrainChain(m, v);
      var c' := DrainChain(m - {v}, m[v]);
      assert c == [v] + c';
      assert c[|c| - 1] == c'[|c'| - 1];
      if c'[|c'| - 1] in c'[..|c'| - 1] {
        assert c'[..|c'| - 1] == c[1..|c| - 1];
      } else if c[|c| - 1] in m {
        assert c[|c| - 1] == v;
      }
    }
  }

  /** On an acyclic dict with enough fuel the walk as written and the
      draining walk agree: the correction changes only cyclic cases. */
  lemma {:induction false} AcyclicWalkDrains(cat: Catalog, m: map<Id, Id>, v: Id, fuel: nat)
    requires Acyclic(m) && fuel > |m|
    ensures WalkFrom(cat, m, Some(v), fuel) == DrainFrom(cat, m, v)
    decreases |m|
  {
    if NodeOf(cat, v).Ok? && v in m {
      assert (m - {v}).Keys < m.Keys;
      forall k | 0 <= k < fuel - 1 ensures Iter(m, m[v], k) != Some(v) {
        assert Iter(m, v, k + 1) == Iter(m, m[v], k);
      }
      WalkIgnoresUnreached(cat, m, v, m[v], fuel - 1);
      AcyclicRemove(m, v);
      AcyclicWalkDrains(cat, m - {v}, m[v], fuel - 1);
    } else if NodeOf(cat, v).Ok? {
      assert WalkFrom(cat, m, Next(m, v), fuel - 1) == Walked([]);
    }
  }

  /** The ids of a draining walk over known nodes give its tour. */
  lemma {:induction false} DrainFromNodes(cat: Catalog, m: map<Id, Id>, v: Id)
    requires forall u :: u in DrainChain(m, v) ==> Known(cat, u)
    ensures DrainFrom(cat, m, v).Walked?
    ensures var c := DrainChain(m, v);
      var t := DrainFrom(cat, m, v).tour;
      |t| == |c| && forall i :: 0 <= i < |c| ==> NodeOf(cat, c[i]) == Ok(t[i])
    decreases |m|
  {
    assert v in DrainChain(m, v);
    if v in m {
      assert (m - {v}).Keys < m.Keys;
      DrainFromNodes(cat, m - {v}, m[v]);
    }
  }

  /** The corrected walk: like find_routes.py's, each step pops the entry it
      follows, so the walk always ends. */
  method DrainTour(cat: Catalog, prev: map<Id, Id>, start: Option<Id>) returns (w: Walk)
    ensures start.None? ==> w == Walked([])
    ensures start.Some? ==> w == DrainFrom(cat, prev, start.value)
  {
    if start.None? {
      return Walked([]);
    }
    var remaining := prev;
    var node := start.value;
    var tour: seq<Node> := [];
    while true
      invariant DrainFrom(cat, prev, start.value) == Concat(tour, DrainFrom(cat, remaining, node))
      decreases |remaining|
    {
      var r := NodeOf(cat, node);
      if r.Err? {
        return LookupFailed(node);
      }
      if node !in remaining {
        return Walked(tour + [r.value]);
      }
      var next := remaining[node];
      assert (remaining - {node}).Keys < remaining.Keys;
      ConcatAssoc(tour, [r.value], DrainFrom(cat, remaining - {node}, next));
      remaining := remaining - {node};
      tour := tour + [r.value];
      node := next;
    }
  }

  /* ---------------------------------------------------------------------
     `prev` on a feasible assignment
     --------------------------------------------------------------------- */

  /** Every node is the target of some arc, as in a complete distance
      table: `entering(v)` names one arc into `v`. */
  predicate EveryNodeEntered(inst: Instance, entering: Id -> int)
  {
    forall v :: v in AllNodes(inst) ==> 0 <= entering(v) < |inst.arcs| && inst.arcs[entering(v)].to == v
  }

  /** The day's `prev` with its order forgotten. */
  function PrevMap(a: Assignment, day: int, arcs: seq<Arc>): map<Id, Id>
  {
    ToMap(PrevAfter(a, day, arcs))
  }

  /** A node has an entry exactly when a picked arc enters it, and the
      entry is the source of such an arc. */
  lemma PrevMapEntries(a: Assignment, day: int, arcs: seq<Arc>, w: Id)
    ensures w in PrevMap(a, day, arcs) <==> exists k :: 0 <= k < |arcs| && arcs[k].to == w && Picked(a, day, arcs[k])
    ensures w in PrevMap(a, day, arcs) ==>
      exists k :: 0 <= k < |arcs| && arcs[k].to == w && arcs[k].from == PrevMap(a, day, arcs)[w] && Picked(a, day, arcs[k])
  {
    PrevAfterSpec(a, day, arcs);
    FirstTargetsMembers(a, day, arcs, w);
    LastPickedIntoIsLast(a, day, arcs, w);
  }

  /** With binary arc values, reading an arc as picked (`> 0.5`) and
      reading it as chosen (`== 1`) agree. */
  lemma PickedIsChosen(inst: Instance, p: Params, a: Assignment, day: int, k: int)
    requires Domains(inst, p, a) && 0 <= day < p.days && 0 <= k < |inst.arcs|
    ensures Picked(a, day, inst.arcs[k]) <==> Chosen(inst, a, day, k)
  {
    assert Binary(a.y(day, inst.arcs[k].from, inst.arcs[k].to));
  }

  /** A visited node that some arc enters has an entry in `prev`. */
  lemma VisitedHasEntry(inst: Instance, entering: Id -> int, p: Params, a: Assignment, day: int, v: Id)
    requires Domains(inst, p, a) && FlowIn(inst, p, a) && 0 <= day < p.days
    requires EveryNodeEntered(inst, entering)
    requires v in AllNodes(inst) && a.x(day, v) == 1.0
    ensures v in PrevMap(a, day, inst.arcs)
  {
    var j := entering(v);
    InDegreeMatchesVisit(inst, p, a, day, j);
    var k :| 0 <= k < |inst.arcs| && inst.arcs[k].to == v && Chosen(inst, a, day, k);
    PickedIsChosen(inst, p, a, day, k);
    PrevMapEntries(a, day, inst.arcs, v);
  }

  /** On a feasible day every node with an entry is visited, and its
      predecessor has an entry too. */
  lemma PrevMapClosed(inst: Instance, entering: Id -> int, p: Params, a: Assignment, day: int, w: Id)
    requires KnownEndpoints(inst) && EveryNodeEntered(inst, entering) && 0 <= day < p.days
    requires Domains(inst, p, a) && FlowOut(inst, p, a) && FlowIn(inst, p, a)
    requires w in PrevMap(a, day, inst.arcs)
    ensures w in AllNodes(inst) && a.x(day, w) == 1.0
    ensures PrevMap(a, day, inst.arcs)[w] in PrevMap(a, day, inst.arcs)
  {
    var m := PrevMap(a, day, inst.arcs);
    PrevMapEntries(a, day, inst.arcs, w);
    var k :| 0 <= k < |inst.arcs| && inst.arcs[k].to == w && inst.arcs[k].from == m[w] && Picked(a, day, inst.arcs[k]);
    PickedIsChosen(inst, p, a, day, k);
    ChosenTargetVisited(inst, p, a, day, k);
    ChosenSourceVisited(inst, p, a, day, k);
    VisitedHasEntry(inst, entering, p, a, day, m[w]);
  }

  /** On a feasible day distinct entries have distinct predecessors: a
      visited node leaves along one chosen arc only. */
  lemma PrevMapInjective(inst: Instance, p: Params, a: Assignment, day: int, w1: Id, w2: Id)
    requires KnownEndpoints(inst) && Domains(inst, p, a) && FlowOut(inst, p, a) && 0 <= day < p.days
    requires w1 in PrevMap(a, day, inst.arcs) && w2 in PrevMap(a, day, inst.arcs)
    requires PrevMap(a, day, inst.arcs)[w1] == PrevMap(a, day, inst.arcs)[w2]
    ensures w1 == w2
  {
    var m := PrevMap(a, day, inst.arcs);
    PrevMapEntries(a, day, inst.arcs, w1);
    PrevMapEntries(a, day, inst.arcs, w2);
    var k1 :| 0 <= k1 < |inst.arcs| && inst.arcs[k1].to == w1 && inst.arcs[k1].from == m[w1] && Picked(a, day, inst.arcs[k1]);
    var k2 :| 0 <= k2 < |inst.arcs| && inst.arcs[k2].to == w2 && inst.arcs[k2].from == m[w2] && Picked(a, day, inst.arcs[k2]);
    PickedIsChosen(inst, p, a, day, k1);
    PickedIsChosen(inst, p, a, day, k2);
    ChosenSourceVisited(inst, p, a, day, k1);
  }

  /** On a feasible day where every node is entered, the start search
      finds a key: the day's start node. */
  lemma StartFound(inst: Instance, entering: Id -> int, p: Params, a: Assignment, day: int)
    requires DistinctIds(AllNodes(inst)) && EveryNodeEntered(inst, entering)
    requires Domains(inst, p, a) && StartOnce(inst, p, a) && FlowIn(inst, p, a) && 0 <= day < p.days
    ensures StartOf(Keys(PrevAfter(a, day, inst.arcs)), inst.stampPoints).Some?
    ensures StartOf(Keys(PrevAfter(a, day, inst.arcs)), inst.stampPoints).value in PrevMap(a, day, inst.arcs)
  {
    var keys := Keys(PrevAfter(a, day, inst.arcs));
    ExactlyOneStart(inst, p, a, day);
    var q :| 0 <= q < |Starts(inst)| && OnlyVisited(a, day, Starts(inst), q);
    var s := Starts(inst)[q];
    var all := AllNodes(inst);
    assert all[|inst.stampPoints| + q] == s;
    assert s !in inst.stampPoints by {
      forall i | 0 <= i < |inst.stampPoints| ensures inst.stampPoints[i] != s {
        assert all[i] == inst.stampPoints[i];
      }
    }
    VisitedHasEntry(inst, entering, p, a, day, s);
    assert s in keys;
    StartOfIsFirst(keys, inst.stampPoints);
  }

  /** On a feasible day `prev` is closed and injective, every entry is a
      known node, and the start search finds one of its keys. Only the
      domains, the one-start constraint and flow conservation are needed. */
  lemma FeasiblePrevShape(inst: Instance, entering: Id -> int, p: Params, a: Assignment, day: int, cat: Catalog)
    requires DistinctIds(AllNodes(inst)) && KnownEndpoints(inst) && EveryNodeEntered(inst, entering)
    requires Domains(inst, p, a) && StartOnce(inst, p, a) && FlowOut(inst, p, a) && FlowIn(inst, p, a)
    requires 0 <= day < p.days
    requires forall v :: v in AllNodes(inst) ==> Known(cat, v)
    ensures Closed(PrevMap(a, day, inst.arcs)) && Injective(PrevMap(a, day, inst.arcs))
    ensures forall w :: w in PrevMap(a, day, inst.arcs) ==> Known(cat, w)
    ensures StartOf(Keys(PrevAfter(a, day, inst.arcs)), inst.stampPoints).Some?
    ensures StartOf(Keys(PrevAfter(a, day, inst.arcs)), inst.stampPoints).value in PrevMap(a, day, inst.arcs)
  {
    StartFound(inst, entering, p, a, day);
    PrevMapIsClosed(inst, entering, p, a, day, cat);
    PrevMapIsInjective(inst, p, a, day);
  }

  /** Every entry of a feasible day's `prev` is a known node, and so is
      every predecessor. */
  lemma PrevMapIsClosed(inst: Instance, entering: Id -> int, p: Params, a: Assignment, day: int, cat: Catalog)
    requires KnownEndpoints(inst) && EveryNodeEntered(inst, entering) && 0 <= day < p.days
    requires Domains(inst, p, a) && FlowOut(inst, p, a) && FlowIn(inst, p, a)
    requires forall v :: v in AllNodes(inst) ==> Known(cat, v)
    ensures Closed(PrevMap(a, day, inst.arcs))
    ensures forall w :: w in PrevMap(a, day, inst.arcs) ==> Known(cat, w)
  {
    var m := PrevMap(a, day, inst.arcs);
    forall w | w in m ensures Known(cat, w) {
      PrevMapClosed(inst, entering, p, a, day, w);
    }
    forall x | x in m.Values ensures x in m {
      var w :| w in m && m[w] == x;
      PrevMapClosed(inst, entering, p, a, day, w);
    }
  }

  /** A feasible day's `prev` never gives two entries one predecessor. */
  lemma PrevMapIsInjective(inst: Instance, p: Params, a: Assignment, day: int)
    requires KnownEndpoints(inst) && Domains(inst, p, a) && FlowOut(inst, p, a) && 0 <= day < p.days
    ensures Injective(PrevMap(a, day, inst.arcs))
  {
    var m := PrevMap(a, day, inst.arcs);
    forall w1, w2 | w1 in m && w2 in m && m[w1] == m[w2] ensures w1 == w2 {
      PrevMapInjective(inst, p, a, day, w1, w2);
    }
  }

  /** The walk as written never ends on a feasible day: `prev` holds a
      closed cycle through the start node. */
  lemma FeasibleWalkNeverEnds(inst: Instance, entering: Id -> int, p: Params, a: Assignment, day: int, cat: Catalog, fuel: nat)
    requires DistinctIds(AllNodes(inst)) && KnownEndpoints(inst) && EveryNodeEntered(inst, entering)
    requires Domains(inst, p, a) && StartOnce(inst, p, a) && FlowOut(inst, p, a) && FlowIn(inst, p, a)
    requires 0 <= day < p.days
    requires forall v :: v in AllNodes(inst) ==> Known(cat, v)
    ensures WalkFrom(cat, PrevMap(a, day, inst.arcs), StartOf(Keys(PrevAfter(a, day, inst.arcs)), inst.stampPoints), fuel) == OutOfFuel
  {
    FeasiblePrevShape(inst, entering, p, a, day, cat);
    ClosedWalkNeverEnds(cat, PrevMap(a, day, inst.arcs), StartOf(Keys(PrevAfter(a, day, inst.arcs)), inst.stampPoints).value, fuel);
  }

  /** The draining walk from `u` ends at `v0` when every predecessor left
      is a key or `v0`, no key's predecessor is `u`, and predecessors are
      distinct. */
  lemma {:induction false} DrainEndsAt(m: map<Id, Id>, u: Id, v0: Id)
    requires v0 !in m && (u in m || u == v0)
    requires m.Values <= m.Keys + {v0} && u !in m.Values && Injective(m)
    ensures var c := DrainChain(m, u); c[|c| - 1] == v0
    decreases |m|
  {
    if u in m {
      var m' := m - {u};
      assert m'.Keys < m.Keys;
      assert m[u] in m.Values;
      forall x | x in m'.Values ensures x in m'.Keys + {v0} {
        var w :| w in m' && m'[w] == x;
        assert m[w] in m.Values;
      }
      assert m[u] !in m'.Values by {
        forall w | w in m' ensures m'[w] != m[u] {
          assert w != u && m'[w] == m[w];
        }
      }
      DrainEndsAt(m', m[u], v0);
      assert DrainChain(m, u) == [u] + DrainChain(m', m[u]);
    }
  }

  /** On a closed, injective predecessor map the draining walk from a key
      comes back to it. */
  lemma DrainReturns(m: map<Id, Id>, v: Id)
    requires v in m && Closed(m) && Injective(m)
    ensures var c := DrainChain(m, v); |c| >= 2 && c[|c| - 1] == v
  {
    var m' := m - {v};
    assert m[v] in m.Values;
    forall x | x in m'.Values ensures x in m'.Keys + {v} {
      var w :| w in m' && m'[w] == x;
      assert m[w] in m.Values;
    }
    assert m[v] !in m'.Values by {
      forall w | w in m' ensures m'[w] != m[v] {
        assert w != v && m'[w] == m[w];
      }
    }
    DrainEndsAt(m', m[v], v);
    assert DrainChain(m, v) == [v] + DrainChain(m', m[v]);
  }

  /** Every id on a draining walk over a closed map is a key. */
  lemma {:induction false} ChainInKeys(m: map<Id, Id>, c: seq<Id>, i: nat)
    requires |c| > 0 && c[0] in m && Linked(m, c) && Closed(m)
    requires i < |c|
    ensures c[i] in m
  {
    if i > 0 {
      ChainInKeys(m, c, i - 1);
      assert m[c[i - 1]] in m.Values;
    }
  }

  /** The draining walk from `v` ends with a tour of at least two and at
      most `bound` nodes that begins and ends at `v`'s node. */
  predicate ReturnTour(cat: Catalog, m: map<Id, Id>, v: Id, bound: int)
  {
    var w := DrainFrom(cat, m, v);
    && w.Walked? && 2 <= |w.tour| <= bound
    && NodeOf(cat, v) == Ok(w.tour[0]) && NodeOf(cat, v) == Ok(w.tour[|w.tour| - 1])
  }

  lemma ReturnTourLooser(cat: Catalog, m: map<Id, Id>, v: Id, b1: int, b2: int)
    requires ReturnTour(cat, m, v, b1) && b1 <= b2
    ensures ReturnTour(cat, m, v, b2)
  {
  }

  /** On a closed, injective map of known nodes the draining walk from a
      key yields a tour of at most one node per entry plus the return,
      beginning and ending at that key's node. */
  lemma ClosedDrainTour(cat: Catalog, m: map<Id, Id>, v: Id)
    requires v in m && Closed(m) && Injective(m)
    requires forall w :: w in m ==> Known(cat, w)
    ensures ReturnTour(cat, m, v, |m| + 1)
  {
    DrainReturns(m, v);
    DrainChainLinks(m, v);
    DrainChainBounded(m, v);
    var c := DrainChain(m, v);
    forall u | u in c ensures Known(cat, u) {
      var i :| 0 <= i < |c| && c[i] == u;
      ChainInKeys(m, c, i);
    }
    DrainFromNodes(cat, m, v);
  }

  /** The corrected walk on a feasible day: it ends, its tour has at most
      one node per entry of `prev` plus the return to the start, and it
      begins and ends at the start node. */
  lemma FeasibleDrainReturns(inst: Instance, entering: Id -> int, p: Params, a: Assignment, day: int, cat: Catalog)
    requires DistinctIds(AllNodes(inst)) && KnownEndpoints(inst) && EveryNodeEntered(inst, entering)
    requires Domains(inst, p, a) && StartOnce(inst, p, a) && FlowOut(inst, p, a) && FlowIn(inst, p, a)
    requires 0 <= day < p.days
    requires forall v :: v in AllNodes(inst) ==> Known(cat, v)
    ensures StartOf(Keys(PrevAfter(a, day, inst.arcs)), inst.stampPoints).Some?
    ensures ReturnTour(cat, PrevMap(a, day, inst.arcs), StartOf(Keys(PrevAfter(a, day, inst.arcs)), inst.stampPoints).value,
                       |PrevAfter(a, day, inst.arcs)| + 1)
  {
    FeasiblePrevShape(inst, entering, p, a, day, cat);
    var m := PrevMap(a, day, inst.arcs);
    var v := StartOf(Keys(PrevAfter(a, day, inst.arcs)), inst.stampPoints).value;
    ClosedDrainTour(cat, m, v);
    ToMapSize(PrevAfter(a, day, inst.arcs));
    ReturnTourLooser(cat, m, v, |m| + 1, |PrevAfter(a, day, inst.arcs)| + 1);
  }

  /* ---------------------------------------------------------------------
     A one-day round trip through a parking lot
     --------------------------------------------------------------------- */

  function RoundTripParams(): Params
  {
    Params(1, 2.0, 1, 0, 1)
  }

  function RoundTripCatalog(): Catalog
  {
    Catalog(map["s" := StampPoint("s", 51.8, 10.6, 1, 1, "Stempel")], map[],
            map["p" := ParkingLot("p", 51.7, 10.5, 2)])
  }

  lemma RoundTripFeasible()
    ensures Feasible(RoundTripInstance(), RoundTripParams(), AllOnes())
  {
    RoundTripShape(RoundTripParams());
    OneDayBounds();
  }

  /** The one-day round trip counts one stamp visit, walks two units and
      uses no bus stop. */
  lemma OneDayBounds()
    ensures Bounds(RoundTripInstance(), RoundTripParams(), AllOnes())
  {
    var inst, p, a := RoundTripInstance(), RoundTripParams(), AllOnes();
    SmallSums();
    assert DayCount(p) == 1;
    forall day ensures Xs(a, day, ["s"]) == [1.0] && Xs(a, day, ["p"]) == [1.0] && Xs(a, day, []) == [] { }
    assert Terms(1, day => Sum(Xs(a, day, ["s"]))) == [1.0];
    assert Terms(1, day => Sum(Xs(a, day, ["p"]))) == [1.0];
    assert Terms(1, day => Sum(Xs(a, day, []))) == [0.0];
    forall day ensures DistanceTerms(inst, a, day) == [1.0, 1.0] { }
  }

  /** The plan's `prev` for its one day. */
  lemma RoundTripPrev()
    ensures PrevAfter(AllOnes(), 0, RoundTripInstance().arcs) == [("s", "p"), ("p", "s")]
    ensures ToMap(PrevAfter(AllOnes(), 0, RoundTripInstance().arcs)) == map["s" := "p", "p" := "s"]
  {
    RoundTripPrevList();
    TwoEntryMap();
  }

  /** The loop records `s`'s predecessor, then `p`'s. */
  lemma RoundTripPrevList()
    ensures PrevAfter(AllOnes(), 0, RoundTripInstance().arcs) == [("s", "p"), ("p", "s")]
  {
    var a, arcs := AllOnes(), RoundTripInstance().arcs;
    var first := arcs[..1];
    assert first == [Arc("p", "s", 1.0)] && first[..0] == [];
    assert PrevAfter(a, 0, first) == Put([], "s", "p") == [("s", "p")];
    assert Put([("s", "p")], "p", "s") == [("s", "p")] + Put([], "p", "s") by {
      assert [("s", "p")][1..] == [];
    }
    assert arcs[..|arcs| - 1] == first;
  }

  /** The two entries as a map. */
  lemma TwoEntryMap()
    ensures ToMap([("s", "p"), ("p", "s")]) == map["s" := "p", "p" := "s"]
  {
    var d := [("s", "p"), ("p", "s")];
    assert d[1..] == [("p", "s")] && d[1..][1..] == [];
    assert Keys(d) == ["s", "p"];
    assert Get(d, "s") == Some("p") && Get(d, "p") == Some("s");
    assert ToMap(d).Keys == {"s", "p"};
  }

  /** As written: on this feasible plan `prev` is a two-node cycle, the
      start search picks the parking lot, and the walk never ends. */
  lemma RoundTripWalkNeverEnds(fuel: nat)
    ensures Feasible(RoundTripInstance(), RoundTripParams(), AllOnes())
    ensures PrevAfter(AllOnes(), 0, RoundTripInstance().arcs) == [("s", "p"), ("p", "s")]
    ensures StartOf(Keys(PrevAfter(AllOnes(), 0, RoundTripInstance().arcs)), ["s"]) == Some("p")
    ensures var prev := PrevAfter(AllOnes(), 0, RoundTripInstance().arcs);
      WalkFrom(RoundTripCatalog(), ToMap(prev), Some("p"), fuel) == OutOfFuel
  {
    RoundTripFeasible();
    RoundTripPrev();
    TwoCycleStart();
    TwoCycleNeverEnds(fuel);
  }

  /** The first key of `[("s", "p"), ("p", "s")]` that is not a stamp point. */
  lemma TwoCycleStart()
    ensures StartOf(Keys([("s", "p"), ("p", "s")]), ["s"]) == Some("p")
  {
    var d := [("s", "p"), ("p", "s")];
    assert Keys(d) == ["s", "p"] by {
      assert d[1..] == [("p", "s")] && d[1..][1..] == [];
    }
    assert ["s", "p"][1..] == ["p"];
  }

  /** The walk as written around `{s: p, p: s}` from `p` never ends. */
  lemma TwoCycleNeverEnds(fuel: nat)
    ensures WalkFrom(RoundTripCatalog(), map["s" := "p", "p" := "s"], Some("p"), fuel) == OutOfFuel
  {
    var m := map["s" := "p", "p" := "s"];
    assert Closed(m) by {
      forall x | x in m.Values ensures x in m.Keys {
        var w :| w in m && m[w] == x;
      }
    }
    ClosedWalkNeverEnds(RoundTripCatalog(), m, "p", fuel);
  }

  /** Corrected: the draining walk on the same plan leaves the parking lot,
      visits the stamp point and comes back. */
  lemma RoundTripDrainTour()
    ensures var prev := PrevAfter(AllOnes(), 0, RoundTripInstance().arcs);
      DrainFrom(RoundTripCatalog(), ToMap(prev), "p") ==
        Walked([ParkingLot("p", 51.7, 10.5, 2), StampPoint("s", 51.8, 10.6, 1, 1, "Stempel"), ParkingLot("p", 51.7, 10.5, 2)])
  {
    RoundTripPrev();
    DrainTwoCycle();
  }

  /** The draining walk around `{s: p, p: s}` from `p`. */
  lemma DrainTwoCycle()
    ensures DrainFrom(RoundTripCatalog(), map["s" := "p", "p" := "s"], "p") ==
      Walked([ParkingLot("p", 51.7, 10.5, 2), StampPoint("s", 51.8, 10.6, 1, 1, "Stempel"), ParkingLot("p", 51.7, 10.5, 2)])
  {
    var m := map["s" := "p", "p" := "s"];
    assert m - {"p"} == map["s" := "p"];
    assert map["s" := "p"] - {"s"} == map[];
  }
}
