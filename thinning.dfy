/** Greedy thinning of OSM entities that lie closer together than
    `ignore_radius` (`_import_osm_entities` in model/graph_data.py, repeated in
    model/GraphData.py and model/Importer.py). Entities are the indices
    `0 .. n-1`; the distance test is the input relation `near`, asked once
    for each pair `i < j` as the source does. */
module Thinning {

  /** Entities `i` and `j` are adjacent: different, and the pair test
      (asked with the smaller index first) says they are close. */
  predicate Adjacent(near: (nat, nat) -> bool, i: nat, j: nat)
  {
    i != j && (if i < j then near(i, j) else near(j, i))
  }

  predicate StrictlyIncreasing(s: seq<nat>)
  {
    forall p, q :: 0 <= p < q < |s| ==> s[p] < s[q]
  }

  predicate Distinct(s: seq<nat>)
  {
    forall p, q :: 0 <= p < q < |s| ==> s[p] != s[q]
  }

  /* ---------------------------------------------------------------------
     Adjacency lists (graph_data.py:338-348)
     --------------------------------------------------------------------- */

  /** The pair `{a, b}` has been tested once the nested loops have reached
      outer index `i` and inner index `j`. */
  predicate Tested(i: nat, j: nat, a: nat, b: nat)
  {
    var lo, hi := if a < b then a else b, if a < b then b else a;
    lo < i || (lo == i && hi < j)
  }

  ghost predicate AdjacencySoFar(n: nat, near: (nat, nat) -> bool, adj: seq<seq<nat>>, i: nat, j: nat)
  {
    && |adj| == n
    && (forall k, m: nat :: 0 <= k < n ==> (m in adj[k] <==> m < n && Adjacent(near, k, m) && Tested(i, j, k, m)))
    && (forall k :: 0 <= k < n ==> StrictlyIncreasing(adj[k]))
  }

  lemma AppendLarger(s: seq<nat>, x: nat)
    requires StrictlyIncreasing(s)
    requires forall m :: m in s ==> m < x
    ensures StrictlyIncreasing(s + [x])
  {
    var s' := s + [x];
    forall p, q | 0 <= p < q < |s'|
      ensures s'[p] < s'[q]
    {
      if q == |s| {
        assert s'[p] == s[p] && s[p] in s;
      }
    }
  }

  /** One inner iteration: the pair `(i, j)` is tested and, when close,
      appended both ways. */
  lemma AdjacencyStep(n: nat, near: (nat, nat) -> bool, adj: seq<seq<nat>>, i: nat, j: nat)
    requires i < j < n
    requires AdjacencySoFar(n, near, adj, i, j)
    ensures near(i, j) ==> AdjacencySoFar(n, near, adj[i := adj[i] + [j]][j := adj[j] + [i]], i, j + 1)
    ensures !near(i, j) ==> AdjacencySoFar(n, near, adj, i, j + 1)
  {
    forall k: nat, m: nat | 0 <= k < n && !(k == i && m == j) && !(k == j && m == i)
      ensures Tested(i, j + 1, k, m) <==> Tested(i, j, k, m)
    {
    }
    if near(i, j) {
      assert forall m :: m in adj[i] ==> m < j by {
        forall m | m in adj[i] ensures m < j {
          assert Tested(i, j, i, m);
        }
      }
      assert forall m :: m in adj[j] ==> m < i by {
        forall m | m in adj[j] ensures m < i {
          assert Tested(i, j, j, m);
        }
      }
      AppendLarger(adj[i], j);
      AppendLarger(adj[j], i);
    }
  }

  /** At the end of an inner loop the next outer index starts. */
  lemma AdjacencyNextRow(n: nat, near: (nat, nat) -> bool, adj: seq<seq<nat>>, i: nat)
    requires i < n
    requires AdjacencySoFar(n, near, adj, i, n)
    ensures AdjacencySoFar(n, near, adj, i + 1, i + 2)
  {
  }

  /** The nested loops of graph_data.py:338-348: each pair `i < j` is tested
      once and, when close, appended to both lists. */
  method BuildAdjacency(n: nat, near: (nat, nat) -> bool) returns (adj: seq<seq<nat>>)
    ensures |adj| == n
    ensures forall k, m: nat :: 0 <= k < n ==> (m in adj[k] <==> m < n && Adjacent(near, k, m))
    ensures forall k :: 0 <= k < n ==> StrictlyIncreasing(adj[k])
  {
    adj := seq(n, _ => []);
    assert forall k :: 0 <= k < n ==> adj[k] == [];
    var i := 0;
    while i < n - 1
      invariant n == 0 ==> i == 0
      invariant n > 0 ==> i <= n - 1
      invariant AdjacencySoFar(n, near, adj, i, i + 1)
    {
      var j := i + 1;
      while j < n
        invariant i + 1 <= j <= n
        invariant AdjacencySoFar(n, near, adj, i, j)
      {
        AdjacencyStep(n, near, adj, i, j);
        if near(i, j) {
          adj := adj[i := adj[i] + [j]];
          adj := adj[j := adj[j] + [i]];
        }
        j := j + 1;
      }
      AdjacencyNextRow(n, near, adj, i);
      i := i + 1;
    }
  }

  /* ---------------------------------------------------------------------
     Degree order (graph_data.py:349-350): `sorted(range(n), key=degree,
     reverse=True)`. Python's sort is stable even when reversed, so ties
     keep ascending index order; `Before` is that strict total order.
     --------------------------------------------------------------------- */

  predicate Before(adj: seq<seq<nat>>, a: nat, b: nat)
  {
    a < |adj| && b < |adj| && (|adj[a]| > |adj[b]| || (|adj[a]| == |adj[b]| && a < b))
  }

  predicate Sorted(adj: seq<seq<nat>>, s: seq<nat>)
  {
    forall p, q :: 0 <= p < q < |s| ==> Before(adj, s[p], s[q])
  }

  lemma SortedDistinct(adj: seq<seq<nat>>, s: seq<nat>)
    requires Sorted(adj, s)
    ensures Distinct(s)
  {
  }

  /** Insert `x` into a sorted sequence at its place. */
  function InsertByDegree(adj: seq<seq<nat>>, s: seq<nat>, x: nat): (r: seq<nat>)
    requires x < |adj| && x !in s
    requires forall y :: y in s ==> y < |adj|
    requires Sorted(adj, s)
    ensures |r| == |s| + 1
    ensures forall y :: y in r <==> y in s || y == x
    ensures Sorted(adj, r)
  {
    if |s| == 0 then [x]
    else if Before(adj, x, s[0]) then
      assert forall y :: y in s ==> Before(adj, x, y) by {
        forall y | y in s ensures Before(adj, x, y) {
          var q :| 0 <= q < |s| && s[q] == y;
          if q > 0 { assert Before(adj, s[0], s[q]); }
        }
      }
      [x] + s
    else
      var t := InsertByDegree(adj, s[1..], x);
      assert forall y :: y in t ==> Before(adj, s[0], y) by {
        forall y | y in t ensures Before(adj, s[0], y) {
          assert s[0] in s;
          if y != x {
            var q :| 1 <= q < |s| && s[q] == y;
            assert Before(adj, s[0], s[q]);
          }
        }
      }
      [s[0]] + t
  }

  /** The indices `0 .. k-1` in degree order. */
  function SortPrefix(adj: seq<seq<nat>>, k: nat): (r: seq<nat>)
    requires k <= |adj|
    ensures |r| == k
    ensures forall y: nat :: y in r <==> y < k
    ensures Sorted(adj, r)
  {
    if k == 0 then [] else InsertByDegree(adj, SortPrefix(adj, k - 1), k - 1)
  }

  /** `indizes_sorted`: every entity, highest degree first, ties by index. */
  function DegreeOrder(adj: seq<seq<nat>>): (r: seq<nat>)
    ensures |r| == |adj|
    ensures forall y: nat :: y in r <==> y < |adj|
    ensures Sorted(adj, r)
  {
    SortPrefix(adj, |adj|)
  }

  lemma EmptyIfNoMembers(t: seq<nat>)
    ensures (forall y :: y !in t) ==> t == []
  {
    if t != [] {
      assert t[0] in t;
    }
  }

  /** The head of a sorted sequence comes before every other element. */
  lemma SortedHead(adj: seq<seq<nat>>, s: seq<nat>, y: nat)
    requires Sorted(adj, s) && y in s
    ensures y == s[0] || Before(adj, s[0], y)
  {
  }

  /** There is only one sequence of given elements sorted by `Before`, so
      `DegreeOrder` is exactly what Python's stable sort produces. */
  lemma {:induction false} SortedUnique(adj: seq<seq<nat>>, s: seq<nat>, t: seq<nat>)
    requires Sorted(adj, s) && Sorted(adj, t)
    requires forall y :: y in s <==> y in t
    ensures s == t
    decreases |s|
  {
    if |s| == 0 {
      EmptyIfNoMembers(t);
    } else {
      assert s[0] in t && t[0] in t;
      SortedHead(adj, s, t[0]);
      SortedHead(adj, t, s[0]);
      forall y ensures y in s[1..] <==> y in t[1..] {
        if y in s[1..] {
          var q :| 1 <= q < |s| && s[q] == y;
          assert Before(adj, s[0], y);
          assert y in t;
        }
        if y in t[1..] {
          var q :| 1 <= q < |t| && t[q] == y;
          assert Before(adj, t[0], y);
          assert y in s;
        }
      }
      SortedUnique(adj, s[1..], t[1..]);
      assert s == [s[0]] + s[1..];
      assert t == [t[0]] + t[1..];
    }
  }

  /* ---------------------------------------------------------------------
     Greedy selection (graph_data.py:351-357)
     --------------------------------------------------------------------- */

  /** Every listed entity is an index of `adj`. */
  predicate InRange(adj: seq<seq<nat>>, s: seq<nat>)
  {
    forall q :: 0 <= q < |s| ==> s[q] < |adj|
  }

  /** Position `q` of `order` is not blocked: no entity kept at an earlier
      position lists `order[q]` as a neighbour. */
  ghost predicate NotBlocked(adj: seq<seq<nat>>, order: seq<nat>, kept: seq<nat>, q: nat)
    requires q < |order|
    requires InRange(adj, order)
  {
    forall r :: 0 <= r < q ==> order[r] in kept ==> order[q] !in adj[order[r]]
  }

  ghost predicate GreedySoFar(adj: seq<seq<nat>>, order: seq<nat>, kept: seq<nat>, deleted: seq<nat>, p: nat)
    requires p <= |order|
    requires InRange(adj, order)
  {
    && Sorted(adj, kept)
    && (forall y :: y in kept ==> y in order[..p])
    && (forall q :: 0 <= q < p ==> (order[q] in kept <==> NotBlocked(adj, order, kept, q)))
    && (forall x :: x in deleted <==> exists k :: k in kept && k < |adj| && x in adj[k])
  }

  /** Keeping `order[p]`, whose neighbours are then appended to `deleted`. */
  lemma GreedyKeep(adj: seq<seq<nat>>, order: seq<nat>, kept: seq<nat>, deleted: seq<nat>, p: nat)
    requires p < |order|
    requires InRange(adj, order)
    requires Sorted(adj, order)
    requires GreedySoFar(adj, order, kept, deleted, p)
    requires order[p] !in deleted
    ensures GreedySoFar(adj, order, kept + [order[p]], deleted + adj[order[p]], p + 1)
  {
    var i := order[p];
    var kept' := kept + [i];
    forall t | 0 <= t < |kept| ensures Before(adj, kept[t], i) {
      assert kept[t] in order[..p];
      var q :| 0 <= q < p && order[q] == kept[t];
    }
    forall q | 0 <= q < p ensures order[q] != i {
      assert Before(adj, order[q], order[p]);
    }
    forall q | 0 <= q < p
      ensures NotBlocked(adj, order, kept', q) == NotBlocked(adj, order, kept, q)
    {
    }
    assert NotBlocked(adj, order, kept', p) by {
      forall r | 0 <= r < p && order[r] in kept' ensures i !in adj[order[r]] {
        assert order[r] in kept;
      }
    }
    assert order[..p + 1] == order[..p] + [i];
  }

  /** Skipping `order[p]`, which a kept entity has deleted. */
  lemma GreedySkip(adj: seq<seq<nat>>, order: seq<nat>, kept: seq<nat>, deleted: seq<nat>, p: nat)
    requires p < |order|
    requires InRange(adj, order)
    requires Sorted(adj, order)
    requires GreedySoFar(adj, order, kept, deleted, p)
    requires order[p] in deleted
    ensures GreedySoFar(adj, order, kept, deleted, p + 1)
  {
    DeletedIsBlocked(adj, order, kept, deleted, p);
    assert order[..p + 1] == order[..p] + [order[p]];
  }

  /** A deleted entity is blocked by the kept entity that deleted it, and
      is not kept. */
  lemma DeletedIsBlocked(adj: seq<seq<nat>>, order: seq<nat>, kept: seq<nat>, deleted: seq<nat>, p: nat)
    requires p < |order|
    requires InRange(adj, order)
    requires Sorted(adj, order)
    requires GreedySoFar(adj, order, kept, deleted, p)
    requires order[p] in deleted
    ensures order[p] !in kept && !NotBlocked(adj, order, kept, p)
  {
    var i := order[p];
    var k :| k in kept && i in adj[k];
    assert k in order[..p];
    var r :| 0 <= r < p && order[r] == k;
    forall q | 0 <= q < p ensures order[q] != i {
      assert Before(adj, order[q], order[p]);
    }
  }

  /** The selection loop: walk `order`, keep an entity unless it has been
      deleted, and delete the neighbours of every kept entity. An entity is
      kept exactly when no entity kept before it is its neighbour. */
  method Greedy(adj: seq<seq<nat>>, order: seq<nat>) returns (kept: seq<nat>)
    requires forall i :: 0 <= i < |adj| ==> forall m :: m in adj[i] ==> m < |adj|
    requires InRange(adj, order)
    requires Sorted(adj, order)
    ensures Sorted(adj, kept)
    ensures forall y :: y in kept ==> y in order
    ensures forall q :: 0 <= q < |order| ==> (order[q] in kept <==> NotBlocked(adj, order, kept, q))
  {
    kept := [];
    var deleted: seq<nat> := [];
    var p := 0;
    while p < |order|
      invariant p <= |order|
      invariant GreedySoFar(adj, order, kept, deleted, p)
    {
      var i := order[p];
      if i !in deleted {
        GreedyKeep(adj, order, kept, deleted, p);
        kept := kept + [i];
        ghost var deleted0 := deleted;
        var m := 0;
        while m < |adj[i]|
          invariant m <= |adj[i]|
          invariant deleted == deleted0 + adj[i][..m]
        {
          deleted := deleted + [adj[i][m]];
          m := m + 1;
        }
        assert adj[i][..m] == adj[i];
      } else {
        GreedySkip(adj, order, kept, deleted, p);
      }
      p := p + 1;
    }
    assert order[..p] == order;
  }

  /* ---------------------------------------------------------------------
     The thinning as a whole, stated on `near` alone
     --------------------------------------------------------------------- */

  /** Number of entities close to `i`. */
  ghost function Degree(near: (nat, nat) -> bool, n: nat, i: nat): nat
  {
    |set j: nat | j < n && Adjacent(near, i, j)|
  }

  /** Higher degree first, ties by lower index. */
  ghost predicate DegreeBefore(near: (nat, nat) -> bool, n: nat, a: nat, b: nat)
  {
    Degree(near, n, a) > Degree(near, n, b) || (Degree(near, n, a) == Degree(near, n, b) && a < b)
  }

  /** The greedy rule: an entity is kept exactly when no kept entity that
      precedes it in degree order is close to it. */
  ghost predicate GreedyRule(near: (nat, nat) -> bool, n: nat, kept: seq<nat>)
  {
    forall i: nat :: i < n ==>
      (i in kept <==> forall k :: k in kept && DegreeBefore(near, n, k, i) ==> !Adjacent(near, k, i))
  }

  ghost predicate Independent(near: (nat, nat) -> bool, kept: seq<nat>)
  {
    forall a, b :: a in kept && b in kept ==> !Adjacent(near, a, b)
  }

  ghost predicate Dominating(near: (nat, nat) -> bool, n: nat, kept: seq<nat>)
  {
    forall i: nat :: i < n && i !in kept ==> exists k :: k in kept && Adjacent(near, k, i)
  }

  /** The entities kept by the greedy rule are pairwise far apart, and
      every dropped entity is close to a kept one: a maximal independent
      set of the closeness graph. */
  lemma GreedyRuleMaximalIndependent(near: (nat, nat) -> bool, n: nat, kept: seq<nat>)
    requires forall k :: k in kept ==> k < n
    requires GreedyRule(near, n, kept)
    ensures Independent(near, kept)
    ensures Dominating(near, n, kept)
  {
    forall a, b | a in kept && b in kept ensures !Adjacent(near, a, b) {
      if a != b {
        if DegreeBefore(near, n, a, b) {
          assert !Adjacent(near, a, b);
        } else {
          assert DegreeBefore(near, n, b, a);
          assert !Adjacent(near, b, a);
        }
      }
    }
  }

  lemma {:induction false} StrictlyIncreasingCard(s: seq<nat>)
    requires StrictlyIncreasing(s)
    ensures |set x: nat | x in s| == |s|
  {
    if |s| > 0 {
      var init := s[..|s| - 1];
      var last := s[|s| - 1];
      assert StrictlyIncreasing(init);
      StrictlyIncreasingCard(init);
      forall k | 0 <= k < |init| ensures init[k] < last {
        assert init[k] == s[k];
      }
      LastIsNew(s, init, last);
    } else {
      assert (set x: nat | x in s) == {};
    }
  }

  /** An element above all of `init` adds one new element to its set. */
  lemma LastIsNew(s: seq<nat>, init: seq<nat>, last: nat)
    requires s == init + [last]
    requires forall k :: 0 <= k < |init| ==> init[k] < last
    ensures (set x: nat | x in s) == (set x: nat | x in init) + {last}
    ensures last !in (set x: nat | x in init)
  {
  }

  /** The built lists have the lengths the degree counts. */
  lemma DegreesMatch(n: nat, near: (nat, nat) -> bool, adj: seq<seq<nat>>, i: nat)
    requires i < n && |adj| == n
    requires forall k, m: nat :: 0 <= k < n ==> (m in adj[k] <==> m < n && Adjacent(near, k, m))
    requires StrictlyIncreasing(adj[i])
    ensures |adj[i]| == Degree(near, n, i)
  {
    StrictlyIncreasingCard(adj[i]);
    assert (set x: nat | x in adj[i]) == (set j: nat | j < n && Adjacent(near, i, j));
  }

  /** Greedy's per-position characterization, read back on entities. */
  lemma GreedyRuleFromPositions(n: nat, near: (nat, nat) -> bool, adj: seq<seq<nat>>, order: seq<nat>, kept: seq<nat>)
    requires |adj| == n
    requires forall k, m: nat :: 0 <= k < n ==> (m in adj[k] <==> m < n && Adjacent(near, k, m))
    requires forall k :: 0 <= k < n ==> StrictlyIncreasing(adj[k])
    requires InRange(adj, order) && Sorted(adj, order)
    requires forall y: nat :: y in order <==> y < n
    requires forall y :: y in kept ==> y in order
    requires forall q :: 0 <= q < |order| ==> (order[q] in kept <==> NotBlocked(adj, order, kept, q))
    ensures GreedyRule(near, n, kept)
  {
    forall a: nat, b: nat | a < n && b < n
      ensures Before(adj, a, b) <==> DegreeBefore(near, n, a, b)
    {
      DegreesMatch(n, near, adj, a);
      DegreesMatch(n, near, adj, b);
    }
    forall i: nat | i < n
      ensures i in kept <==> forall k :: k in kept && DegreeBefore(near, n, k, i) ==> !Adjacent(near, k, i)
    {
      assert i in order;
      var q :| 0 <= q < |order| && order[q] == i;
      forall k | k in kept
        ensures DegreeBefore(near, n, k, i) <==> exists r :: 0 <= r < q && order[r] == k
      {
        var r :| 0 <= r < |order| && order[r] == k;
        if r < q {
          assert Before(adj, order[r], order[q]);
        } else if r > q {
          assert Before(adj, order[q], order[r]);
        }
      }
    }
  }

  /** `_import_osm_entities`' thinning (graph_data.py:337-358, returning
      the count at line 369): keep the entities the greedy rule selects in
      degree order, and return how many were kept. */
  method ThinEntities(n: nat, near: (nat, nat) -> bool) returns (kept: seq<nat>, count: nat)
    ensures count == |kept|
    ensures forall k :: k in kept ==> k < n
    ensures Distinct(kept)
    ensures forall p, q :: 0 <= p < q < |kept| ==> DegreeBefore(near, n, kept[p], kept[q])
    ensures GreedyRule(near, n, kept)
    ensures Independent(near, kept)
    ensures Dominating(near, n, kept)
  {
    var adj := BuildAdjacency(n, near);
    var order := DegreeOrder(adj);
    assert InRange(adj, order) by {
      forall q | 0 <= q < |order| ensures order[q] < |adj| {
        assert order[q] in order;
      }
    }
    kept := Greedy(adj, order);
    SortedDistinct(adj, kept);
    GreedyRuleFromPositions(n, near, adj, order, kept);
    GreedyRuleMaximalIndependent(near, n, kept);
    forall p, q | 0 <= p < q < |kept| ensures DegreeBefore(near, n, kept[p], kept[q]) {
      assert Before(adj, kept[p], kept[q]);
      DegreesMatch(n, near, adj, kept[p]);
      DegreesMatch(n, near, adj, kept[q]);
    }
    count := |kept|;
  }
}
