/**
 * The attribute helpers of `v2/model/utils.py`: reading array attributes,
 * finding a free element, setting or connecting a plug, and making message
 * connections. The host answers (`getAttr`, `listConnections`,
 * `connectAttr`) are the arguments.
 */
module MayaUtils {
  import opened Wrappers
  import opened Sparse
  import opened Host
  import opened Text

  datatype AttrValue =
    | MatrixValue(m: Matrix)     // a Python list handed to a matrix attribute
    | FloatValue(f: real)
    | IntValue(i: int)
    | StringValue(s: string)     // a plug name such as "node.attr"
    | BoolValue(b: bool)
    | NoValue                    // message attributes carry no value

  /** An element of an array attribute: its value and the plugs `listConnections` reports for it. */
  datatype Element = Element(value: AttrValue, connections: seq<string>)

  /** `listConnections(attr[k], plugs=True) or []`; an element that does not exist has none. */
  function ConnectionsAt(arr: Multi<Element>, k: int): seq<string>
  {
    match At(arr, k)
    case None => []
    case Some(e) => e.connections
  }

  // ---------------------------------------------------------------- counting

  predicate Distinct(s: seq<nat>)
  {
    forall i, j :: 0 <= i < j < |s| ==> s[i] != s[j]
  }

  /** The indices `0 .. n - 1`. */
  function Range(n: nat): (r: set<nat>)
    ensures forall x: nat :: x in r <==> x < n
  {
    if n == 0 then {} else Range(n - 1) + {n - 1}
  }

  lemma {:induction false} RangeCard(n: nat)
    ensures |Range(n)| == n
  {
    if n > 0 {
      RangeCard(n - 1);
      var below := Range(n - 1);
      assert n - 1 !in below;
      assert Range(n) == below + {n - 1};
    }
  }

  lemma {:induction false} SubsetCard(a: set<nat>, b: set<nat>)
    requires a <= b
    ensures |a| <= |b|
    decreases |a|
  {
    if a != {} {
      var x :| x in a;
      SubsetCard(a - {x}, b - {x});
    }
  }

  function Elems(s: seq<nat>): (r: set<nat>)
    ensures forall x :: x in r <==> x in s
  {
    if s == [] then {} else {s[0]} + Elems(s[1..])
  }

  lemma {:induction false} DistinctCard(s: seq<nat>)
    requires Distinct(s)
    ensures |Elems(s)| == |s|
  {
    if s != [] {
      DistinctCard(s[1..]);
      assert s[0] !in Elems(s[1..]);
    }
  }

  /** A list of distinct indices, all drawn from `bound`, is no longer than `bound`. */
  lemma Pigeonhole(s: seq<nat>, bound: set<nat>)
    requires Distinct(s) && forall x :: x in s ==> x in bound
    ensures |s| <= |bound|
  {
    DistinctCard(s);
    SubsetCard(Elems(s), bound);
  }

  // ---------------------------------------------- get_next_available_index

  /** One past the highest existing element (0 for an empty array). */
  function Bound(arr: Multi<Element>): nat
  {
    var ix := Indices(arr);
    if ix == [] then 0 else ix[|ix| - 1] + 1
  }

  lemma BoundCovers(arr: Multi<Element>, k: nat)
    requires k >= Bound(arr)
    ensures ConnectionsAt(arr, k) == []
  {
    var ix := Indices(arr);
    forall j | 0 <= j < |ix| ensures ix[j] < Bound(arr) {
      if j < |ix| - 1 {
        assert ix[j] < ix[|ix| - 1];
      }
    }
    assert k !in ix;
  }

  /**
   * `get_next_available_index_in_array`: the indices list is extended while it
   * is being iterated (every position `i` that is neither the element seen at
   * that position nor already listed is appended), which turns it into exactly
   * `0 .. Bound - 1`; after sorting, the first position without connections is
   * the answer, or the length when every element is connected. So the result is
   * the smallest element index with no connections.
   */
  method NextAvailableIndex(arr: Multi<Element>) returns (r: nat)
    ensures r <= Bound(arr)
    ensures ConnectionsAt(arr, r) == []
    ensures forall k :: 0 <= k < r ==> ConnectionsAt(arr, k) != []
  {
    var indices := FillMissing(arr);
    var n := |indices|;
    // `indices.sort()`: 0, 1, ..., n - 1 is a sorted rearrangement of the list (FillSorts),
    // and the only one (SortedFill).
    var sorted := seq(n, q => q);
    FillSorts(indices);
    r := FirstFree(arr, sorted);
  }

  /** A list is sorted when no element is larger than a later one. */
  predicate Sorted(s: seq<nat>)
  {
    forall i, j :: 0 <= i < j < |s| ==> s[i] <= s[j]
  }

  /** In a list without repetitions every value occurs at most once. */
  lemma {:induction false} DistinctOnce(s: seq<nat>)
    requires Distinct(s)
    ensures forall v :: multiset(s)[v] <= 1
  {
    if s != [] {
      var rest := s[1..];
      assert s == [s[0]] + rest;
      assert Distinct(rest) by {
        forall i, j | 0 <= i < j < |rest| ensures rest[i] != rest[j] {
          assert rest[i] == s[i + 1] && rest[j] == s[j + 1];
        }
      }
      DistinctOnce(rest);
      assert s[0] !in rest by {
        forall k | 0 <= k < |rest| ensures rest[k] != s[0] {
          assert rest[k] == s[k + 1];
        }
      }
      assert multiset(s) == multiset{s[0]} + multiset(rest);
    }
  }

  /** A sorted list without repetitions of `n` indices below `n` is `0, 1, ..., n - 1`. */
  lemma {:induction false} StrictRange(t: seq<nat>)
    requires Sorted(t) && Distinct(t) && forall x :: x in t ==> x < |t|
    ensures forall k :: 0 <= k < |t| ==> t[k] == k
  {
    var n := |t|;
    forall k | 0 <= k < n ensures t[k] == k {
      Above(t, k);
      Below(t, k);
    }
  }

  lemma {:induction false} Above(t: seq<nat>, k: nat)
    requires Sorted(t) && Distinct(t) && k < |t|
    ensures t[k] >= k
    decreases k
  {
    if k > 0 {
      Above(t, k - 1);
      assert t[k - 1] <= t[k] && t[k - 1] != t[k];
    }
  }

  lemma {:induction false} Below(t: seq<nat>, k: nat)
    requires Sorted(t) && Distinct(t) && k < |t| && forall x :: x in t ==> x < |t|
    ensures t[k] <= k
    decreases |t| - k
  {
    if k < |t| - 1 {
      Below(t, k + 1);
      assert t[k] <= t[k + 1] && t[k] != t[k + 1];
    } else {
      assert t[k] in t;
    }
  }

  /**
   * What `indices.sort()` makes of the filled list: any sorted rearrangement
   * of a list holding each index below its length once is `0, 1, ..., n - 1`.
   */
  lemma SortedFill(indices: seq<nat>, t: seq<nat>)
    requires Distinct(indices) && forall q :: 0 <= q < |indices| ==> q in indices
    requires multiset(t) == multiset(indices) && Sorted(t)
    ensures t == seq(|indices|, q => q)
  {
    FilledIsRange(indices);
    DistinctOnce(indices);
    assert |t| == |indices| by {
      assert |multiset(t)| == |t| && |multiset(indices)| == |indices|;
    }
    forall x | x in t ensures x < |t| {
      assert x in multiset(t);
      assert x in indices;
    }
    forall i, j | 0 <= i < j < |t| ensures t[i] != t[j] {
      if t[i] == t[j] {
        Twice(t, i, j);
      }
    }
    StrictRange(t);
  }

  /** `0, 1, ..., n - 1` is a sorted rearrangement of a list holding each index below its length `n` once. */
  lemma FillSorts(indices: seq<nat>)
    requires Distinct(indices) && forall q :: 0 <= q < |indices| ==> q in indices
    ensures Sorted(seq(|indices|, q => q))
    ensures multiset(seq(|indices|, q => q)) == multiset(indices)
  {
    var range := seq(|indices|, q => q);
    FilledIsRange(indices);
    DistinctOnce(indices);
    DistinctOnce(range);
    forall v ensures multiset(range)[v] == multiset(indices)[v] {
      assert v in range <==> v in indices by {
        if v in indices {
          assert range[v] == v;
        }
      }
    }
    assert multiset(range) == multiset(indices);
  }

  /** A value at two positions occurs at least twice. */
  lemma Twice(t: seq<nat>, i: nat, j: nat)
    requires i < j < |t| && t[i] == t[j]
    ensures multiset(t)[t[i]] >= 2
  {
    assert t == t[..j] + t[j..];
    assert t[i] in t[..j];
    assert t[j..][0] == t[j];
    assert multiset(t) == multiset(t[..j]) + multiset(t[j..]);
  }

  /** The append-while-iterating loop: afterwards the list holds every index below `Bound`, once. */
  method FillMissing(arr: Multi<Element>) returns (indices: seq<nat>)
    ensures |indices| == Bound(arr)
    ensures Distinct(indices) && forall q :: 0 <= q < Bound(arr) ==> q in indices
  {
    var original := Indices(arr);
    var bound := Bound(arr);
    IndicesBelowBound(arr);
    indices := original;
    var i: nat := 0;
    var pos := 0;
    while pos < |indices|
      invariant i == pos && FillInvariant(original, indices, pos, bound)
      decreases bound - pos
    {
      var next := if indices[pos] != i && i !in indices then indices + [i] else indices;
      FillStep(original, indices, pos, bound, next);
      indices := next;
      i := i + 1;
      pos := pos + 1;
    }
    FilledIsRange(indices);
    if original != [] {
      assert original[|original| - 1] in indices;
    }
  }

  /** What holds of the list after `pos` steps of the loop in `FillMissing`. */
  predicate FillInvariant(original: seq<nat>, indices: seq<nat>, pos: nat, bound: nat)
  {
    && pos <= |indices| <= bound
    && |original| <= |indices| && indices[..|original|] == original
    && Distinct(indices)
    && (forall x :: x in indices ==> x < bound)
    && (forall q :: 0 <= q < pos ==> q in indices)
  }

  /** One step of that loop: `pos` is appended when neither listed nor in place. */
  lemma FillStep(original: seq<nat>, indices: seq<nat>, pos: nat, bound: nat, next: seq<nat>)
    requires FillInvariant(original, indices, pos, bound) && pos < |indices|
    requires next == if indices[pos] != pos && pos !in indices then indices + [pos] else indices
    ensures FillInvariant(original, next, pos + 1, bound)
  {
    if next != indices {
      RoomForMissing(indices, pos, bound);
      assert next[..|indices|] == indices;
      assert next[..|original|] == indices[..|original|];
      assert pos in next;
      forall x | x in next ensures x < bound {
        if x != pos {
          assert x in indices;
        }
      }
    } else {
      assert pos in indices;
    }
  }

  /** The scan over the sorted list: the first index without connections, else the length. */
  method FirstFree(arr: Multi<Element>, sorted: seq<nat>) returns (r: nat)
    requires |sorted| == Bound(arr) && forall q :: 0 <= q < |sorted| ==> sorted[q] == q
    ensures r <= Bound(arr)
    ensures ConnectionsAt(arr, r) == []
    ensures forall k :: 0 <= k < r ==> ConnectionsAt(arr, k) != []
  {
    var n := |sorted|;
    var target := n;
    var k := 0;
    while k < n
      invariant 0 <= k <= n
      invariant forall q :: 0 <= q < k ==> ConnectionsAt(arr, q) != []
    {
      if ConnectionsAt(arr, sorted[k]) == [] {
        target := k;
        break;
      }
      k := k + 1;
    }
    if target == n {
      BoundCovers(arr, n);
    }
    r := target;
  }

  /** The existing indices are distinct, lie below `Bound` and number at most `Bound`. */
  lemma IndicesBelowBound(arr: Multi<Element>)
    ensures Distinct(Indices(arr))
    ensures forall x :: x in Indices(arr) ==> x < Bound(arr)
    ensures |Indices(arr)| <= Bound(arr)
  {
    var original := Indices(arr);
    forall x | x in original ensures x < Bound(arr) {
      var j :| 0 <= j < |original| && original[j] == x;
      if j < |original| - 1 {
        assert original[j] < original[|original| - 1];
      }
    }
    Pigeonhole(original, Range(Bound(arr)));
    RangeCard(Bound(arr));
  }

  /** An index below the bound that is not listed leaves room to list it. */
  lemma RoomForMissing(indices: seq<nat>, i: nat, bound: nat)
    requires Distinct(indices) && forall x :: x in indices ==> x < bound
    requires i < bound && i !in indices
    ensures |indices| + 1 <= bound
  {
    Pigeonhole(indices, Range(bound) - {i});
    RangeCard(bound);
  }

  /** Distinct values that include every index below their count are exactly those indices. */
  lemma FilledIsRange(indices: seq<nat>)
    requires Distinct(indices)
    requires forall q :: 0 <= q < |indices| ==> q in indices
    ensures forall x :: x in indices ==> x < |indices|
  {
    var n := |indices|;
    forall x | x in indices ensures x < n {
      if x >= n {
        Pigeonhole(seq(n, q => q) + [x], Elems(indices));
        DistinctCard(indices);
      }
    }
  }

  // --------------------------------------------------- is_connected_to_array

  /**
   * `is_connected_to_array`: the first existing element of the array whose
   * connections include `attribute`; `None` when there is none or when the
   * array attribute cannot be read (`arr` is `None`).
   */
  method IsConnectedToArray(attribute: string, arr: Option<Multi<Element>>) returns (r: Option<nat>)
    ensures r.Some? ==> arr.Some? && attribute in ConnectionsAt(arr.value, r.value)
    ensures r.Some? ==> forall k :: 0 <= k < r.value ==> attribute !in ConnectionsAt(arr.value, k)
    ensures r.None? && arr.Some? ==> forall k :: attribute !in ConnectionsAt(arr.value, k)
  {
    if arr.None? {
      return None;
    }
    var a := arr.value;
    var indices := Indices(a);
    var j := 0;
    while j < |indices|
      invariant 0 <= j <= |indices|
      invariant forall k :: 0 <= k < (if j < |indices| then indices[j] else |a|) ==> attribute !in ConnectionsAt(a, k)
    {
      var i := indices[j];
      if attribute in ConnectionsAt(a, i) {
        return Some(i);
      }
      forall k | i < k < (if j + 1 < |indices| then indices[j + 1] else |a|)
        ensures attribute !in ConnectionsAt(a, k)
      {
        forall m | 0 <= m < |indices| ensures indices[m] != k {
          if m < j {
            assert indices[m] < i;
          } else if m > j + 1 {
            assert indices[j + 1] < indices[m];
          }
        }
        assert k !in indices;
      }
      j := j + 1;
    }
    forall k ensures attribute !in ConnectionsAt(a, k) {
      if 0 <= k < |a| {
      }
    }
    return None;
  }

  // -------------------------------------------------------------- get_attr

  datatype AttrRead = Plugs(plugs: seq<string>) | Value(value: AttrValue) | NothingRead

  /**
   * `get_attr`: the connected plugs when there are some and the value was not
   * asked for, the value when it was, and nothing otherwise.
   */
  function GetAttr(connections: seq<string>, value: AttrValue, asValue: bool): (r: AttrRead)
    ensures asValue <==> r == Value(value)
    ensures r.Plugs? <==> !asValue && connections != []
    ensures r.Plugs? ==> r.plugs == connections
    ensures r.NothingRead? <==> !asValue && connections == []
  {
    if connections != [] && !asValue then Plugs(connections)
    else if asValue then Value(value)
    else NothingRead
  }

  datatype ArrayRead = PlugList(plugs: seq<string>) | ValueList(values: seq<AttrValue>)

  function ValuesOf(es: seq<Element>): (r: seq<AttrValue>)
    ensures |r| == |es| && forall j :: 0 <= j < |es| ==> r[j] == es[j].value
  {
    if es == [] then [] else [es[0].value] + ValuesOf(es[1..])
  }

  function ConnectionsOf(es: seq<Element>): seq<string>
  {
    if es == [] then [] else es[0].connections + ConnectionsOf(es[1..])
  }

  lemma ConnectionsOfSnoc(es: seq<Element>, e: Element)
    ensures ConnectionsOf(es + [e]) == ConnectionsOf(es) + e.connections
  {
    if es != [] {
      assert (es + [e])[1..] == es[1..] + [e];
      ConnectionsOfSnoc(es[1..], e);
    }
  }

  /** Reading one more element extends both gathered lists by that element. */
  lemma ReadStep(es: seq<Element>, j: nat)
    requires j < |es|
    ensures ValuesOf(es[..j + 1]) == ValuesOf(es[..j]) + [es[j].value]
    ensures ConnectionsOf(es[..j + 1]) == ConnectionsOf(es[..j]) + es[j].connections
  {
    assert es[..j + 1] == es[..j] + [es[j]];
    ConnectionsOfSnoc(es[..j], es[j]);
  }

  /**
   * `get_attr_array`: with `asValue` the values of every existing element in
   * index order; otherwise all their connected plugs, or an empty value list
   * when nothing is connected (`connected_plugs or values`).
   */
  method GetAttrArray(arr: Multi<Element>, asValue: bool) returns (r: ArrayRead)
    ensures asValue ==> r == ValueList(ValuesOf(Values(arr)))
    ensures !asValue && ConnectionsOf(Values(arr)) != [] ==> r == PlugList(ConnectionsOf(Values(arr)))
    ensures !asValue && ConnectionsOf(Values(arr)) == [] ==> r == ValueList([])
  {
    var indices := Indices(arr);
    var elements := Values(arr);
    var connectedPlugs: seq<string> := [];
    var values: seq<AttrValue> := [];
    var j := 0;
    while j < |indices|
      invariant 0 <= j <= |indices|
      invariant asValue ==> values == ValuesOf(elements[..j]) && connectedPlugs == []
      invariant !asValue ==> values == [] && connectedPlugs == ConnectionsOf(elements[..j])
    {
      var element := At(arr, indices[j]).value;
      assert element == elements[j];
      ReadStep(elements, j);
      var connections := element.connections;
      if connections != [] && !asValue {
        connectedPlugs := connectedPlugs + connections;
      } else if asValue {
        values := values + [element.value];
      }
      j := j + 1;
    }
    assert elements[..j] == elements;
    if connectedPlugs != [] {
      r := PlugList(connectedPlugs);
    } else {
      r := ValueList(values);
    }
  }

  // --------------------------------------------------- set_attr_or_connect

  datatype AttrWrite =
    | SetTyped(attr: string, value: AttrValue, typeName: string)   // setAttr(..., type=attr_type)
    | Connect(source: string, destination: string)                 // connectAttr(source, destination)
    | AlreadyConnected                                             // isConnected said yes
    | SetPlain(attr: string, value: AttrValue)                     // setAttr(attr, value)

  /**
   * `set_attr_or_connect`: a list handed to a matrix attribute is set with its
   * type; a string is a plug to connect, from `attr` when `output` and into it
   * otherwise, unless that connection already exists; anything else is set
   * as it is. `alreadyConnected` is the host's `isConnected` answer and
   * `hostAccepts` whether the host's `isConnected`/`connectAttr` calls
   * succeed; a refusal is reported as PoseWranglerAttributeError.
   */
  function SetAttrOrConnect(attr: string, value: AttrValue, attrType: Option<string>, output: bool,
                            alreadyConnected: bool, hostAccepts: bool): (r: Result<AttrWrite>)
    ensures r.Err? <==> value.StringValue? && !(attrType == Some("matrix") && value.MatrixValue?) && !hostAccepts
    ensures r.Err? ==> r.error == PoseWranglerAttributeError
    ensures r == Ok(SetTyped(attr, value, "matrix")) <==> attrType == Some("matrix") && value.MatrixValue?
    ensures r.Ok? && r.value.Connect? ==>
      value.StringValue? && !alreadyConnected &&
      r.value == (if output then Connect(attr, value.s) else Connect(value.s, attr))
    ensures r.Ok? && r.value.SetPlain? ==> !value.StringValue? && r.value == SetPlain(attr, value)
    ensures value.StringValue? && hostAccepts ==>
      r == Ok(if alreadyConnected then AlreadyConnected
              else if output then Connect(attr, value.s) else Connect(value.s, attr))
    ensures !value.StringValue? && !(attrType == Some("matrix") && value.MatrixValue?) ==> r == Ok(SetPlain(attr, value))
  {
    if attrType == Some("matrix") && value.MatrixValue? then Ok(SetTyped(attr, value, "matrix"))
    else if value.StringValue? then
      if !hostAccepts then Err(PoseWranglerAttributeError)
      else if alreadyConnected then Ok(AlreadyConnected)
      else if output then Ok(Connect(attr, value.s))
      else Ok(Connect(value.s, attr))
    else Ok(SetPlain(attr, value))
  }

  // --------------------------------------------------------- message_connect

  /** An attribute of a node: its type name (`getAttr(..., type=1)`) and its elements when it is an array. */
  datatype AttrInfo = AttrInfo(typeName: string, elements: Multi<Element>)

  type AttrTable = map<(string, string), AttrInfo>

  datatype Link = Linked(source: string, destination: string) | NotLinked

  /** `addAttr(..., attributeType='message')` when the attribute is missing. */
  function EnsureMessageAttr(attrs: AttrTable, key: (string, string)): (r: AttrTable)
    ensures key in r && (key in attrs ==> r == attrs)
    ensures key !in attrs ==> r == attrs[key := AttrInfo("message", [])]
  {
    if key in attrs then attrs else attrs[key := AttrInfo("message", [])]
  }

  function ElementSuffix(index: nat): string
  {
    "[" + NatToString(index) + "]"
  }

  /**
   * `message_connect`: splits both plugs at their first '.', creates missing
   * attributes as message attributes, refuses attributes of another type,
   * picks the next free element for an array end and connects with force.
   * A failed connection (`hostAccepts` false) is logged and reported as
   * `NotLinked`; a plug without '.' raises ValueError before anything changes.
   */
  method MessageConnect(attrs: AttrTable, fromAttribute: string, toAttribute: string,
                        inArray: bool, outArray: bool, hostAccepts: bool)
    returns (r: Result<Link>, attrs': AttrTable)
    ensures SplitOnce(fromAttribute, '.').Err? || SplitOnce(toAttribute, '.').Err? <==> r == Err(ValueError)
    ensures r == Err(ValueError) ==> attrs' == attrs
    ensures forall key :: key in attrs ==> key in attrs' && attrs'[key] == attrs[key]
    ensures forall key :: key in attrs' && key !in attrs ==> attrs'[key] == AttrInfo("message", [])
    ensures r != Err(ValueError) ==>
      var fromKey := SplitOnce(fromAttribute, '.').value;
      var toKey := SplitOnce(toAttribute, '.').value;
      fromKey in attrs' && toKey in attrs' &&
      (r == Err(MessageConnectionError) <==>
         attrs'[fromKey].typeName != "message" || attrs'[toKey].typeName != "message") &&
      (r.Ok? ==> (r.value.Linked? <==> hostAccepts)) &&
      (r.Ok? && r.value.Linked? && !inArray ==> r.value.source == fromAttribute) &&
      (r.Ok? && r.value.Linked? && !outArray ==> r.value.destination == toAttribute) &&
      (r.Ok? && r.value.Linked? && inArray ==>
         exists k: nat :: r.value.source == fromAttribute + ElementSuffix(k) &&
           ConnectionsAt(attrs'[fromKey].elements, k) == [] &&
           forall q :: 0 <= q < k ==> ConnectionsAt(attrs'[fromKey].elements, q) != []) &&
      (r.Ok? && r.value.Linked? && outArray ==>
         exists k: nat :: r.value.destination == toAttribute + ElementSuffix(k) &&
           ConnectionsAt(attrs'[toKey].elements, k) == [] &&
           forall q :: 0 <= q < k ==> ConnectionsAt(attrs'[toKey].elements, q) != [])
  {
    attrs' := attrs;
    var fromSplit := SplitOnce(fromAttribute, '.');
    var toSplit := SplitOnce(toAttribute, '.');
    if fromSplit.Err? || toSplit.Err? {
      return Err(ValueError), attrs';
    }
    var fromKey := fromSplit.value;
    var toKey := toSplit.value;
    attrs' := EnsureMessageAttr(attrs', fromKey);
    attrs' := EnsureMessageAttr(attrs', toKey);
    assert fromKey in attrs' && toKey in attrs';
    if attrs'[fromKey].typeName != "message" || attrs'[toKey].typeName != "message" {
      return Err(MessageConnectionError), attrs';
    }
    var source := fromAttribute;
    var destination := toAttribute;
    if inArray {
      var k := NextAvailableIndex(attrs'[fromKey].elements);
      source := fromAttribute + ElementSuffix(k);
    }
    if outArray {
      var k := NextAvailableIndex(attrs'[toKey].elements);
      destination := toAttribute + ElementSuffix(k);
    }
    if hostAccepts {
      r := Ok(Linked(source, destination));
    } else {
      r := Ok(NotLinked);
    }
  }
}
