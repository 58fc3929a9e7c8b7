/** Finite sums of solver values, the `lpSum`/`quicksum` of the routing
    models, and the facts about sums of 0/1 values that the routing lemmas
    rest on. */
module Sums {

  function Sum(s: seq<real>): real
  {
    if |s| == 0 then 0.0 else s[0] + Sum(s[1..])
  }

  /** The value a binary decision variable may take. */
  predicate Binary(v: real)
  {
    v == 0.0 || v == 1.0
  }

  predicate AllBinary(s: seq<real>)
  {
    forall i :: 0 <= i < |s| ==> Binary(s[i])
  }

  predicate AllNonNegative(s: seq<real>)
  {
    forall i :: 0 <= i < |s| ==> 0.0 <= s[i]
  }

  lemma {:induction false} SumAppend(a: seq<real>, b: seq<real>)
    ensures Sum(a + b) == Sum(a) + Sum(b)
  {
    if |a| > 0 {
      assert (a + b)[1..] == a[1..] + b;
      SumAppend(a[1..], b);
    } else {
      assert a + b == b;
    }
  }

  lemma {:induction false} SumNonNegative(s: seq<real>)
    requires AllNonNegative(s)
    ensures 0.0 <= Sum(s)
  {
    if |s| > 0 {
      SumNonNegative(s[1..]);
    }
  }

  /** A sum of non-negative values bounds each of its terms, and any two. */
  lemma {:induction false} SumAtLeastTwoTerms(s: seq<real>, i: nat, j: nat)
    requires AllNonNegative(s)
    requires i < |s| && j < |s| && i != j
    ensures s[i] + s[j] <= Sum(s)
  {
    if i == 0 {
      SumAtLeastTerm(s[1..], j - 1);
    } else if j == 0 {
      SumAtLeastTerm(s[1..], i - 1);
    } else {
      SumAtLeastTwoTerms(s[1..], i - 1, j - 1);
      SumNonNegative(s[1..]);
    }
  }

  lemma {:induction false} SumAtLeastTerm(s: seq<real>, i: nat)
    requires AllNonNegative(s)
    requires i < |s|
    ensures s[i] <= Sum(s)
  {
    if i == 0 {
      SumNonNegative(s[1..]);
    } else {
      SumAtLeastTerm(s[1..], i - 1);
    }
  }

  /** Binary terms summing to zero are all zero. */
  lemma {:induction false} SumZeroAllZero(s: seq<real>)
    requires AllBinary(s)
    requires Sum(s) == 0.0
    ensures forall i :: 0 <= i < |s| ==> s[i] == 0.0
  {
    if |s| > 0 {
      SumNonNegative(s[1..]);
      SumZeroAllZero(s[1..]);
      assert forall i :: 1 <= i < |s| ==> s[i] == s[1..][i - 1];
    }
  }

  /** Binary terms summing to one: exactly one term is one. */
  lemma {:induction false} SumOneHot(s: seq<real>)
    requires AllBinary(s)
    requires Sum(s) == 1.0
    ensures exists k :: 0 <= k < |s| && s[k] == 1.0 && forall j :: 0 <= j < |s| && j != k ==> s[j] == 0.0
  {
    SumNonNegative(s[1..]);
    assert forall i :: 1 <= i < |s| ==> s[i] == s[1..][i - 1];
    if s[0] == 1.0 {
      SumZeroAllZero(s[1..]);
      assert forall j :: 0 <= j < |s| && j != 0 ==> s[j] == 0.0;
    } else {
      SumOneHot(s[1..]);
      var k :| 0 <= k < |s[1..]| && s[1..][k] == 1.0 && forall j :: 0 <= j < |s[1..]| && j != k ==> s[1..][j] == 0.0;
      assert s[k + 1] == 1.0;
      assert forall j :: 0 <= j < |s| && j != k + 1 ==> s[j] == 0.0;
    }
  }

  /** Binary terms summing to at most one: no two terms are one. */
  lemma AtMostOneOne(s: seq<real>, i: nat, j: nat)
    requires AllBinary(s)
    requires Sum(s) <= 1.0
    requires i < |s| && j < |s| && i != j
    ensures !(s[i] == 1.0 && s[j] == 1.0)
  {
    SumAtLeastTwoTerms(s, i, j);
  }

  /** Terms each at most `c` sum to at most `|s| * c`. */
  lemma {:induction false} SumBounded(s: seq<real>, c: real)
    requires forall i :: 0 <= i < |s| ==> s[i] <= c
    ensures Sum(s) <= |s| as real * c
  {
    if |s| > 0 {
      SumBounded(s[1..], c);
    }
  }

  /** `n` terms each between zero and `c` add up to between zero and `n * c`. */
  lemma SumWithin(s: seq<real>, c: real, n: nat)
    requires |s| == n
    requires forall i :: 0 <= i < |s| ==> 0.0 <= s[i] <= c
    ensures 0.0 <= Sum(s) <= n as real * c
  {
    SumBounded(s, c);
    SumNonNegative(s);
  }

  /** The terms `f(0) .. f(n-1)`. */
  function Terms(n: nat, f: int -> real): (r: seq<real>)
    ensures |r| == n && forall i :: 0 <= i < n ==> r[i] == f(i)
  {
    seq(n, i => f(i))
  }

  /** Summing two families term by term. */
  lemma {:induction false} SumPointwise(n: nat, f: int -> real, g: int -> real)
    ensures Sum(Terms(n, i => f(i) + g(i))) == Sum(Terms(n, f)) + Sum(Terms(n, g))
  {
    if n > 0 {
      var f', g' := i => f(i + 1), i => g(i + 1);
      SumPointwise(n - 1, f', g');
      assert Terms(n, i => f(i) + g(i))[1..] == Terms(n - 1, i => f'(i) + g'(i));
      assert Terms(n, f)[1..] == Terms(n - 1, f');
      assert Terms(n, g)[1..] == Terms(n - 1, g');
    }
  }

  lemma SumSplitFirst(n: nat, f: int -> real)
    requires n > 0
    ensures Sum(Terms(n, f)) == f(0) + Sum(Terms(n - 1, i => f(i + 1)))
  {
    assert Terms(n, f)[1..] == Terms(n - 1, i => f(i + 1));
  }

  lemma TermsExt(n: nat, f: int -> real, g: int -> real)
    requires forall i :: 0 <= i < n ==> f(i) == g(i)
    ensures Terms(n, f) == Terms(n, g)
  {
  }

  lemma ColumnSplit(m: nat, f: (int, int) -> real, j: int)
    requires m > 0
    ensures Sum(Terms(m, i => f(i, j))) == f(0, j) + Sum(Terms(m - 1, i => f(i + 1, j)))
  {
    var g := i => f(i, j);
    SumSplitFirst(m, g);
    TermsExt(m - 1, i => g(i + 1), i => f(i + 1, j));
    TermsExt(m, i => f(i, j), g);
  }

  /** The first row of a double sum, split off. */
  lemma RowsSplit(m: nat, n: nat, f: (int, int) -> real, g: (int, int) -> real)
    requires m > 0
    requires forall i, j :: g(i, j) == f(i + 1, j)
    ensures Sum(Terms(m, i => Sum(Terms(n, j => f(i, j))))) ==
      Sum(Terms(n, j => f(0, j))) + Sum(Terms(m - 1, i => Sum(Terms(n, j => g(i, j)))))
  {
    var R := i => Sum(Terms(n, j => f(i, j)));
    var R' := i => Sum(Terms(n, j => g(i, j)));
    TermsExt(m, i => Sum(Terms(n, j => f(i, j))), R);
    SumSplitFirst(m, R);
    var S := i => R(i + 1);
    forall i | 0 <= i < m - 1 ensures S(i) == R'(i) {
      TermsExt(n, j => f(i + 1, j), j => g(i, j));
    }
    TermsExt(m - 1, i => R(i + 1), R');
  }

  /** The first column of every row of a double sum, split off. */
  lemma ColumnsSplit(m: nat, n: nat, f: (int, int) -> real, g: (int, int) -> real)
    requires m > 0
    requires forall i, j :: g(i, j) == f(i + 1, j)
    ensures Sum(Terms(n, j => Sum(Terms(m, i => f(i, j))))) ==
      Sum(Terms(n, j => f(0, j))) + Sum(Terms(n, j => Sum(Terms(m - 1, i => g(i, j)))))
  {
    var C := j => Sum(Terms(m, i => f(i, j)));
    var first := j => f(0, j);
    var rest := j => Sum(Terms(m - 1, i => g(i, j)));
    forall j | 0 <= j < n ensures C(j) == first(j) + rest(j) {
      ColumnSplit(m, f, j);
      TermsExt(m - 1, i => f(i + 1, j), i => g(i, j));
    }
    TermsExt(n, C, j => first(j) + rest(j));
    SumPointwise(n, first, rest);
    TermsExt(n, j => Sum(Terms(m, i => f(i, j))), C);
    TermsExt(n, j => f(0, j), first);
    TermsExt(n, j => Sum(Terms(m - 1, i => g(i, j))), rest);
  }

  /** A double sum may be taken in either order. */
  lemma {:induction false} SumSwap(m: nat, n: nat, f: (int, int) -> real)
    ensures Sum(Terms(m, i => Sum(Terms(n, j => f(i, j))))) == Sum(Terms(n, j => Sum(Terms(m, i => f(i, j)))))
  {
    if m == 0 {
      SumZeroTerms(n, j => Sum(Terms(m, i => f(i, j))));
    } else {
      var g := (i, j) => f(i + 1, j);
      RowsSplit(m, n, f, g);
      ColumnsSplit(m, n, f, g);
      SumSwap(m - 1, n, g);
    }
  }

  lemma {:induction false} SumZeroTerms(n: nat, f: int -> real)
    requires forall i :: 0 <= i < n ==> f(i) == 0.0
    ensures Sum(Terms(n, f)) == 0.0
  {
    if n > 0 {
      SumZeroTerms(n - 1, i => f(i + 1));
      assert Terms(n, f)[1..] == Terms(n - 1, i => f(i + 1));
    }
  }

  /** Binary terms summing to at most one sum to one exactly when some term
      is one. */
  lemma {:induction false} SumBinaryAtMostOne(s: seq<real>)
    requires AllBinary(s) && Sum(s) <= 1.0
    ensures Sum(s) == if exists i :: 0 <= i < |s| && s[i] == 1.0 then 1.0 else 0.0
  {
    if |s| > 0 {
      assert AllNonNegative(s[1..]);
      SumNonNegative(s[1..]);
      SumBinaryAtMostOne(s[1..]);
      if s[0] == 1.0 {
        assert Sum(s[1..]) == 0.0;
      } else {
        assert (exists i :: 0 <= i < |s| && s[i] == 1.0) <==> (exists i :: 0 <= i < |s[1..]| && s[1..][i] == 1.0) by {
          if exists i :: 0 <= i < |s| && s[i] == 1.0 {
            var i :| 0 <= i < |s| && s[i] == 1.0;
            assert s[1..][i - 1] == 1.0;
          }
        }
      }
    }
  }
}
