/**
 * Python dictionaries keep insertion order: assigning to a key that is
 * already present overwrites its value where it stands, a new key goes to
 * the end. Both `dict` and `OrderedDict` behave this way for the operations
 * the tool uses.
 */
module OrderedDict {
  import opened Wrappers

  type Dict<K(==,!new), V> = seq<(K, V)>

  function Keys<K(==,!new), V>(d: Dict<K, V>): (r: seq<K>)
    ensures |r| == |d| && forall i :: 0 <= i < |d| ==> r[i] == d[i].0
  {
    seq(|d|, i requires 0 <= i < |d| => d[i].0)
  }

  predicate UniqueKeys<K(==,!new), V>(d: Dict<K, V>)
  {
    forall i, j :: 0 <= i < j < |d| ==> d[i].0 != d[j].0
  }

  /** The position of the first entry for `k`. */
  function Find<K(==,!new), V>(d: Dict<K, V>, k: K): (r: Option<nat>)
    ensures r.None? <==> k !in Keys(d)
    ensures r.Some? ==> r.value < |d| && d[r.value].0 == k
    ensures r.Some? ==> forall j :: 0 <= j < r.value ==> d[j].0 != k
  {
    if d == [] then None
    else if d[0].0 == k then Some(0)
    else
      match Find(d[1..], k)
      case None =>
        assert forall j :: 0 <= j < |d| ==> Keys(d)[j] != k by {
          forall j | 0 <= j < |d| ensures Keys(d)[j] != k {
            if j > 0 {
              assert d[j] == d[1..][j - 1];
              assert Keys(d[1..])[j - 1] != k;
            }
          }
        }
        None
      case Some(i) =>
        assert d[i + 1] == d[1..][i];
        assert forall j :: 1 <= j < i + 1 ==> d[j] == d[1..][j - 1];
        Some(i + 1)
  }

  /** The first entry for `k` is at `i`. */
  lemma FindIs<K(!new), V>(d: Dict<K, V>, k: K, i: nat)
    requires i < |d| && d[i].0 == k
    requires forall j :: 0 <= j < i ==> d[j].0 != k
    ensures Find(d, k) == Some(i)
  {
    assert Keys(d)[i] == k;
  }

  /** No entry has key `k`. */
  lemma FindNone<K(!new), V>(d: Dict<K, V>, k: K)
    requires forall j :: 0 <= j < |d| ==> d[j].0 != k
    ensures Find(d, k) == None
  {
  }

  /** With unique keys, the first entry for the key at position `i` is that entry. */
  lemma FindAt<K(!new), V>(d: Dict<K, V>, i: nat)
    requires UniqueKeys(d) && i < |d|
    ensures Find(d, d[i].0) == Some(i)
  {
    FindIs(d, d[i].0, i);
  }

  /** `d.get(k)`. */
  function Lookup<K(==,!new), V>(d: Dict<K, V>, k: K): (r: Option<V>)
    ensures r.None? <==> k !in Keys(d)
    ensures r.Some? ==> (k, r.value) in d
  {
    match Find(d, k)
    case None => None
    case Some(i) => Some(d[i].1)
  }

  /** In a dictionary with unique keys, the entry at position `i` is what a lookup of its key finds. */
  lemma LookupAt<K(!new), V>(d: Dict<K, V>, i: nat)
    requires UniqueKeys(d) && i < |d|
    ensures Lookup(d, d[i].0) == Some(d[i].1)
  {
    FindAt(d, i);
  }

  /** `d[k] = v`. */
  function Put<K(==,!new), V>(d: Dict<K, V>, k: K, v: V): (r: Dict<K, V>)
    ensures k in Keys(d) ==> Keys(r) == Keys(d)
    ensures k !in Keys(d) ==> Keys(r) == Keys(d) + [k] && r == d + [(k, v)]
    ensures Lookup(r, k) == Some(v)
    ensures forall k' :: k' != k ==> Lookup(r, k') == Lookup(d, k')
  {
    match Find(d, k)
    case None =>
      var r := d + [(k, v)];
      FindIs(r, k, |d|);
      assert forall k' :: k' != k ==> Find(r, k') == Find(d, k') by {
        forall k' | k' != k ensures Find(r, k') == Find(d, k') {
          PutFindOther(d, r, k, k');
        }
      }
      r
    case Some(i) =>
      var r := d[i := (k, v)];
      FindIs(r, k, i);
      assert forall k' :: k' != k ==> Find(r, k') == Find(d, k') by {
        forall k' | k' != k ensures Find(r, k') == Find(d, k') {
          PutFindOther(d, r, k, k');
        }
      }
      r
  }

  /** Entries for `k'` sit at the same places in `d` and `r`, in front of whatever `r` adds with key `k`. */
  lemma PutFindOther<K(!new), V>(d: Dict<K, V>, r: Dict<K, V>, k: K, k': K)
    requires k' != k && |d| <= |r|
    requires forall j :: 0 <= j < |d| ==> (r[j].0 == k' <==> d[j].0 == k')
    requires forall j :: |d| <= j < |r| ==> r[j].0 == k
    ensures Find(r, k') == Find(d, k')
  {
    match Find(d, k')
    case None =>
      FindNone(r, k');
    case Some(i) =>
      FindIs(r, k', i);
  }

  /** Putting keeps keys unique. */
  lemma PutKeepsUnique<K(!new), V>(d: Dict<K, V>, k: K, v: V)
    requires UniqueKeys(d)
    ensures UniqueKeys(Put(d, k, v))
  {
    var r := Put(d, k, v);
    forall i, j | 0 <= i < j < |r| ensures r[i].0 != r[j].0 {
      assert Keys(r)[i] == r[i].0 && Keys(r)[j] == r[j].0;
      if k !in Keys(d) {
        assert Keys(r) == Keys(d) + [k];
        if j < |d| {
          assert Keys(d)[i] == d[i].0 && Keys(d)[j] == d[j].0;
        }
      } else {
        assert Keys(d)[i] == d[i].0 && Keys(d)[j] == d[j].0;
      }
    }
  }

  /**
   * `d.pop(k)` of a present key: its entry removed, the others kept in
   * order. Python raises KeyError for an absent key; that error is not
   * modelled, and `d` is returned as it is, since the only caller has
   * checked that the key is present.
   */
  function Remove<K(==,!new), V>(d: Dict<K, V>, k: K): (r: Dict<K, V>)
    ensures forall x :: x in r ==> x in d
    ensures k !in Keys(d) ==> r == d
    ensures k in Keys(d) ==> |r| == |d| - 1
  {
    match Find(d, k)
    case None => d
    case Some(i) =>
      var r := d[..i] + d[i + 1..];
      assert forall x :: x in r ==> x in d by {
        forall x | x in r ensures x in d {
          var m :| 0 <= m < |r| && r[m] == x;
          if m < i {
            assert d[m] == x;
          } else {
            assert d[m + 1] == x;
          }
        }
      }
      r
  }

  /** With unique keys, removing the key at position `i` erases that one entry. */
  lemma RemoveAt<K(!new), V>(d: Dict<K, V>, i: nat)
    requires UniqueKeys(d) && i < |d|
    ensures Remove(d, d[i].0) == d[..i] + d[i + 1..]
  {
    FindAt(d, i);
  }

  /** Removing keeps keys unique, leaves the key absent and every other lookup as it was. */
  lemma RemoveLookups<K(!new), V>(d: Dict<K, V>, k: K)
    requires UniqueKeys(d)
    ensures UniqueKeys(Remove(d, k))
    ensures Lookup(Remove(d, k), k) == None
    ensures forall k' :: k' != k ==> Lookup(Remove(d, k), k') == Lookup(d, k')
  {
    match Find(d, k)
    case None =>
    case Some(i) =>
      RemoveUnique(d, i);
      forall k' | k' != k ensures Lookup(Remove(d, k), k') == Lookup(d, k') {
        RemoveFindOther(d, i, k');
      }
  }

  /** Erasing an entry of a dictionary with unique keys removes its key and no other. */
  lemma RemoveUnique<K(!new), V>(d: Dict<K, V>, i: nat)
    requires UniqueKeys(d) && i < |d|
    ensures UniqueKeys(d[..i] + d[i + 1..])
    ensures d[i].0 !in Keys(d[..i] + d[i + 1..])
  {
    var r := d[..i] + d[i + 1..];
    assert forall j :: 0 <= j < i ==> r[j] == d[j];
    assert forall j :: i <= j < |r| ==> r[j] == d[j + 1];
    assert forall j :: 0 <= j < |r| ==> Keys(r)[j] != d[i].0;
  }

  /** Erasing the entry at `i` moves the first entry for another key by at most one place. */
  lemma RemoveFindOther<K(!new), V>(d: Dict<K, V>, i: nat, k': K)
    requires i < |d| && d[i].0 != k'
    ensures Lookup(d[..i] + d[i + 1..], k') == Lookup(d, k')
  {
    var r := d[..i] + d[i + 1..];
    assert forall j :: 0 <= j < i ==> r[j] == d[j];
    assert forall j :: i <= j < |r| ==> r[j] == d[j + 1];
    match Find(d, k')
    case None =>
      FindNone(r, k');
    case Some(a) =>
      if a < i {
        FindIs(r, k', a);
      } else {
        FindIs(r, k', a - 1);
      }
  }

  /**
   * A dictionary built from entries whose values are computed in turn (a
   * comprehension, or a loop of `d[k] = v`): each value is put under its
   * key, in order, and the first computation that raises ends it.
   */
  function Gather<K(==,!new), V>(entries: seq<(K, Result<V>)>): Result<Dict<K, V>>
    decreases |entries|
  {
    if entries == [] then Ok([])
    else
      match Gather(entries[..|entries| - 1])
      case Err(e) => Err(e)
      case Ok(out) =>
        var last := entries[|entries| - 1];
        match last.1
        case Err(e) => Err(e)
        case Ok(v) => Ok(Put(out, last.0, v))
  }

  /** One more entry whose value was computed adds it under its key. */
  lemma GatherStep<K(!new), V>(entries: seq<(K, Result<V>)>, i: nat, out: Dict<K, V>)
    requires i < |entries| && Gather(entries[..i]) == Ok(out) && entries[i].1.Ok?
    ensures Gather(entries[..i + 1]) == Ok(Put(out, entries[i].0, entries[i].1.value))
  {
    var upto := entries[..i + 1];
    assert upto[..|upto| - 1] == entries[..i];
  }

  /** Once a value raises, the whole dictionary fails with its error, whatever follows. */
  lemma {:induction false} GatherStops<K(!new), V>(entries: seq<(K, Result<V>)>, n: nat)
    requires 0 < n <= |entries| && Gather(entries[..n - 1]).Ok? && entries[n - 1].1.Err?
    ensures Gather(entries) == Err(entries[n - 1].1.error)
    decreases |entries|
  {
    if n < |entries| {
      var init := entries[..|entries| - 1];
      assert init[..n - 1] == entries[..n - 1] && init[n - 1] == entries[n - 1];
      GatherStops(init, n);
    } else {
      assert entries[..n - 1] == entries[..|entries| - 1];
    }
  }

  /** Every value is computed. */
  predicate AllMade<K(==,!new), V>(entries: seq<(K, Result<V>)>)
  {
    forall i :: 0 <= i < |entries| ==> entries[i].1.Ok?
  }

  lemma AllMadeSnoc<K(!new), V>(entries: seq<(K, Result<V>)>)
    requires entries != []
    ensures AllMade(entries) <==> AllMade(entries[..|entries| - 1]) && entries[|entries| - 1].1.Ok?
  {
    var init := entries[..|entries| - 1];
    assert forall i :: 0 <= i < |init| ==> init[i] == entries[i];
  }

  /** The dictionary is built exactly when every value is computed. */
  lemma {:induction false} GatherOk<K(!new), V>(entries: seq<(K, Result<V>)>)
    ensures Gather(entries).Ok? <==> AllMade(entries)
    decreases |entries|
  {
    if entries != [] {
      var init := entries[..|entries| - 1];
      GatherOk(init);
      AllMadeSnoc(entries);
      assert Gather(entries).Ok? <==> Gather(init).Ok? && entries[|entries| - 1].1.Ok?;
    }
  }

  /** Keys of their own: every value is stored once, in order, under its key. */
  lemma {:induction false} GatherKeys<K(!new), V>(entries: seq<(K, Result<V>)>)
    requires AllMade(entries)
    requires forall i, j :: 0 <= i < j < |entries| ==> entries[i].0 != entries[j].0
    ensures Gather(entries).Ok?
    ensures |Gather(entries).value| == |entries|
    ensures forall i :: 0 <= i < |entries| ==> Gather(entries).value[i] == (entries[i].0, entries[i].1.value)
    decreases |entries|
  {
    if entries != [] {
      var init := entries[..|entries| - 1];
      var last := entries[|entries| - 1];
      AllMadeSnoc(entries);
      assert forall i :: 0 <= i < |init| ==> init[i] == entries[i];
      GatherKeys(init);
      var out := Gather(init).value;
      forall j | 0 <= j < |out| ensures Keys(out)[j] != last.0 {
        assert out[j].0 == entries[j].0;
      }
      var r := out + [(last.0, last.1.value)];
      assert Gather(entries).value == r;
      forall i | 0 <= i < |entries| ensures r[i] == (entries[i].0, entries[i].1.value) {
        if i < |out| {
          assert r[i] == out[i] == (init[i].0, init[i].1.value);
          assert init[i] == entries[i];
        } else {
          assert i == |init| && r[i] == (last.0, last.1.value);
        }
      }
    }
  }
}
