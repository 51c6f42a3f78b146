/**
 * Maya multi-instance ("array") attributes. Element `k` of an array exists
 * when `a[k]` is `Some`; positions past the end, like `None` entries, are
 * elements that do not exist. `Indices` is what `getAttr(..., multiIndices=True)`
 * reports: the existing element indices in increasing order.
 */
module Sparse {
  import opened Wrappers

  type Multi<T> = seq<Option<T>>

  function Indices<T>(a: Multi<T>): (r: seq<nat>)
    ensures forall j :: 0 <= j < |r| ==> r[j] < |a| && a[r[j]].Some?
    ensures forall i, j :: 0 <= i < j < |r| ==> r[i] < r[j]
    ensures forall k :: 0 <= k < |a| && a[k].Some? ==> k in r
    ensures |r| <= |a|
  {
    if a == [] then []
    else
      var front := Indices(a[..|a| - 1]);
      front + (if a[|a| - 1].Some? then [|a| - 1] else [])
  }

  /** The values of the existing elements in index order (`get_attr_array(..., as_value=True)`). */
  function Values<T>(a: Multi<T>): (r: seq<T>)
    ensures |r| == |Indices(a)|
    ensures forall j :: 0 <= j < |r| ==> a[Indices(a)[j]] == Some(r[j])
  {
    if a == [] then []
    else
      var front := Values(a[..|a| - 1]);
      front + (if a[|a| - 1].Some? then [a[|a| - 1].value] else [])
  }

  function Count<T>(a: Multi<T>): nat
  {
    |Indices(a)|
  }

  /**
   * The tool's default slot when no index is given:
   * `len(getAttr(attr, multiIndices=True) or [0]) - 1`. Slot 0 for an array
   * without elements; otherwise a slot no later than the last existing
   * element, and that element itself when the array has no holes.
   */
  function DefaultSlot<T>(a: Multi<T>): (r: nat)
    ensures Count(a) == 0 ==> r == 0
    ensures Count(a) > 0 ==> r < Count(a) && r <= Indices(a)[Count(a) - 1]
    ensures IsDense(a) && a != [] ==> r == |a| - 1 && a[r].Some?
  {
    if Count(a) == 0 then 0
    else
      IndicesAtLeast(a, Count(a) - 1);
      IndicesWithoutHoles(a);
      Count(a) - 1
  }

  /** The `j`-th existing index is at least `j`. */
  lemma {:induction false} IndicesAtLeast<T>(a: Multi<T>, j: nat)
    requires j < |Indices(a)|
    ensures Indices(a)[j] >= j
    decreases j
  {
    if j > 0 {
      IndicesAtLeast(a, j - 1);
    }
  }

  /** An array without holes lists every index below its length. */
  lemma {:induction false} IndicesWithoutHoles<T>(a: Multi<T>)
    ensures IsDense(a) ==> Indices(a) == seq(|a|, k => k)
  {
    if a != [] && IsDense(a) {
      var front := a[..|a| - 1];
      assert IsDense(front) by {
        forall k | 0 <= k < |front| ensures front[k].Some? {
          assert front[k] == a[k];
        }
      }
      IndicesWithoutHoles(front);
      assert Indices(a) == Indices(front) + [|a| - 1];
    }
  }

  /** The value of element `k`, if it exists. */
  function At<T>(a: Multi<T>, k: int): (r: Option<T>)
    ensures r.Some? <==> 0 <= k < |a| && a[k].Some?
  {
    if 0 <= k < |a| then a[k] else None
  }

  /** `setAttr` on element `k`: creates it if needed, nothing else changes. */
  function Put<T>(a: Multi<T>, k: nat, v: T): (r: Multi<T>)
    ensures At(r, k) == Some(v)
    ensures forall j :: j != k ==> At(r, j) == At(a, j)
    ensures |r| == if k < |a| then |a| else k + 1
  {
    if k < |a| then a[k := Some(v)]
    else a + seq(k - |a|, _ => None) + [Some(v)]
  }

  /** Writing the value an element already holds changes nothing. */
  lemma PutSame<T>(a: Multi<T>, k: nat, v: T)
    requires At(a, k) == Some(v)
    ensures Put(a, k, v) == a
  {
  }

  /** `removeMultiInstance` of element `k`. */
  function Remove<T>(a: Multi<T>, k: nat): (r: Multi<T>)
    ensures At(r, k).None?
    ensures forall j :: j != k ==> At(r, j) == At(a, j)
    ensures |r| == |a|
  {
    if k < |a| then a[k := None] else a
  }

  /** Elements `0 .. |vals| - 1` holding `vals`, and nothing else. */
  function Dense<T>(vals: seq<T>): (r: Multi<T>)
    ensures |r| == |vals| && forall k :: 0 <= k < |vals| ==> r[k] == Some(vals[k])
  {
    seq(|vals|, k requires 0 <= k < |vals| => Some(vals[k]))
  }

  predicate IsDense<T>(a: Multi<T>)
  {
    forall k :: 0 <= k < |a| ==> a[k].Some?
  }

  /** A dense array reports indices `0 .. n - 1` and exactly its values. */
  lemma DenseReads<T>(vals: seq<T>)
    ensures Indices(Dense(vals)) == seq(|vals|, k => k)
    ensures Values(Dense(vals)) == vals
    ensures Count(Dense(vals)) == |vals|
  {
    DenseIndices(vals);
    DenseValues(vals);
  }

  lemma {:induction false} DenseIndices<T>(vals: seq<T>)
    ensures Indices(Dense(vals)) == seq(|vals|, k => k)
  {
    if vals != [] {
      var front := vals[..|vals| - 1];
      var d := Dense(vals);
      assert d[..|d| - 1] == Dense(front);
      assert d[|d| - 1].Some?;
      DenseIndices(front);
      assert Indices(d) == Indices(Dense(front)) + [|vals| - 1];
      assert seq(|front|, k => k) + [|vals| - 1] == seq(|vals|, k => k);
    }
  }

  lemma DenseValues<T>(vals: seq<T>)
    ensures Values(Dense(vals)) == vals
  {
    var d := Dense(vals);
    DenseIndices(vals);
    var v := Values(d);
    forall j | 0 <= j < |vals| ensures v[j] == vals[j] {
      assert Indices(d)[j] == j;
    }
  }

  /** Writing one slot past the end of a dense array appends a value. */
  lemma PutAppends<T>(vals: seq<T>, v: T)
    ensures Put(Dense(vals), |vals|, v) == Dense(vals + [v])
  {
    assert Put(Dense(vals), |vals|, v) == Dense(vals) + [Some(v)];
  }

  /** Writing inside a dense array replaces that value. */
  lemma PutReplaces<T>(vals: seq<T>, k: nat, v: T)
    requires k < |vals|
    ensures Put(Dense(vals), k, v) == Dense(vals[k := v])
  {
  }

  /** Elements `0 .. count - 1` exist and no other does. */
  predicate Filled<T>(a: Multi<T>, count: nat)
  {
    count <= |a| && forall k :: 0 <= k < |a| ==> (a[k].Some? <==> k < count)
  }

  /** The values of a filled array are its first `count` elements, in order. */
  lemma {:induction false} FilledValues<T>(a: Multi<T>, count: nat)
    requires Filled(a, count)
    ensures |Values(a)| == count
    ensures forall k :: 0 <= k < count ==> a[k] == Some(Values(a)[k])
  {
    if a != [] {
      var front := a[..|a| - 1];
      if count == |a| {
        assert Filled(front, count - 1);
        FilledValues(front, count - 1);
        assert Values(a) == Values(front) + [a[|a| - 1].value];
      } else {
        assert Filled(front, count);
        FilledValues(front, count);
        assert Values(a) == Values(front);
      }
    }
  }

  /** Writing the first missing element of a filled array fills one more. */
  lemma FilledPut<T>(a: Multi<T>, count: nat, v: T)
    requires Filled(a, count)
    ensures Filled(Put(a, count, v), count + 1)
  {
    var r := Put(a, count, v);
    forall k | 0 <= k < |r| ensures r[k].Some? <==> k < count + 1 {
      assert At(r, k) == r[k];
      if k != count && k < |a| {
        assert At(a, k) == a[k];
      }
    }
  }
}
