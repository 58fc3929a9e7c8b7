/** Python dicts keep their keys in insertion order, and assigning to a key
    that is already present keeps its place. `problem_solver.py` relies on
    that order when it takes the first non-stamp key of `prev`. A dict is
    modelled as its entry list. */
module OrderedDicts {
  import opened Wrappers
  import opened Nodes

  /** Both `prev`'s keys and values are node ids. */
  type Dict = seq<(Id, Id)>

  function Keys(d: Dict): (r: seq<Id>)
    ensures |r| == |d|
    ensures forall i :: 0 <= i < |d| ==> r[i] == d[i].0
  {
    if |d| == 0 then [] else [d[0].0] + Keys(d[1..])
  }

  predicate UniqueKeys(d: Dict)
  {
    forall i, j :: 0 <= i < j < |d| ==> d[i].0 != d[j].0
  }

  /** `d.get(k)`. */
  function Get(d: Dict, k: Id): (r: Option<Id>)
    ensures r.Some? <==> k in Keys(d)
    ensures r.Some? ==> exists i :: 0 <= i < |d| && d[i] == (k, r.value)
  {
    if |d| == 0 then None
    else if d[0].0 == k then Some(d[0].1)
    else Get(d[1..], k)
  }

  /** `d[k] = v`: overwrite in place, or append a new key. */
  function Put(d: Dict, k: Id, v: Id): (r: Dict)
    ensures Keys(r) == if k in Keys(d) then Keys(d) else Keys(d) + [k]
  {
    if |d| == 0 then [(k, v)]
    else if d[0].0 == k then [(k, v)] + d[1..]
    else
      var rest := Put(d[1..], k, v);
      assert Keys([d[0]] + rest) == [d[0].0] + Keys(rest) by {
        assert ([d[0]] + rest)[1..] == rest;
      }
      [d[0]] + rest
  }

  /** After `d[k] = v`, `k` maps to `v` and every other key is unchanged. */
  lemma {:induction false} PutGet(d: Dict, k: Id, v: Id, j: Id)
    ensures Get(Put(d, k, v), j) == if j == k then Some(v) else Get(d, j)
  {
    if |d| > 0 {
      if d[0].0 == k {
        assert ([(k, v)] + d[1..])[1..] == d[1..];
      } else {
        PutGet(d[1..], k, v, j);
        assert ([d[0]] + Put(d[1..], k, v))[1..] == Put(d[1..], k, v);
      }
    }
  }

  /** Assignment keeps the keys distinct. */
  lemma PutUnique(d: Dict, k: Id, v: Id)
    requires UniqueKeys(d)
    ensures UniqueKeys(Put(d, k, v))
  {
    var r := Put(d, k, v);
    forall i, j | 0 <= i < j < |r| ensures r[i].0 != r[j].0 {
      assert Keys(r)[i] == r[i].0 && Keys(r)[j] == r[j].0;
      if k !in Keys(d) && j == |d| {
        assert r[i].0 == Keys(d)[i];
      } else {
        assert Keys(r)[i] == Keys(d)[i] && Keys(r)[j] == Keys(d)[j];
      }
    }
  }

  /** The dict as a plain map, order forgotten. */
  function ToMap(d: Dict): (r: map<Id, Id>)
    ensures forall k :: k in r <==> k in Keys(d)
    ensures forall k :: k in r ==> Get(d, k) == Some(r[k])
  {
    map k | k in Keys(d) :: Get(d, k).value
  }

  /** A sequence has at least as many positions as distinct elements. */
  lemma {:induction false} ElementsCard(s: seq<Id>)
    ensures |set x | x in s| <= |s|
  {
    if |s| > 0 {
      ElementsCard(s[1..]);
      assert (set x | x in s) == {s[0]} + (set x | x in s[1..]);
    }
  }

  /** The map view has no more entries than the dict. */
  lemma ToMapSize(d: Dict)
    ensures |ToMap(d)| <= |d|
  {
    ElementsCard(Keys(d));
    assert ToMap(d).Keys == set x | x in Keys(d);
  }
}
