/**
 * `upgrade_scene` (`v1/upgrade.py`): every first-generation solver of the
 * scene becomes one record of the second-generation file format, under
 * its name with `_UE4RBFSolver` turned into `_UERBFSolver`. A record holds
 * the readable keyable attributes of the solver, its transforms, five
 * solver settings read explicitly, and one entry per pose in sorted name
 * order, with `base_pose` renamed `default`.
 *
 * The scene is given as functions: the solver read as a pose driver, its
 * keyable attributes, the value of an attribute (absent when reading it
 * raises), and the object-space matrix of a transform while the solver
 * holds a pose.
 */
module Upgrade {
  import opened Wrappers
  import Text
  import OD = OrderedDict
  import Legacy

  type Matrix = seq<real>

  datatype Scene = Scene(
    solvers: seq<string>,                          // cmds.ls(type='UE4RBFSolverNode')
    rigOf: string -> Legacy.Rig,                   // UE4PoseDriver(existing_interpolator=solver)
    keyable: string -> seq<string>,                // cmds.listAttr(solver, keyable=True)
    read: (string, string) -> Option<real>,        // cmds.getAttr(node + "." + attr), None when it raises
    matrix: (string, string, string) -> Matrix)    // xform of a transform with the solver in a pose

  /** One pose of the new format. */
  datatype PoseRecord = PoseRecord(
    drivers: seq<Matrix>,
    driven: OD.Dict<string, Matrix>,
    functionType: string,
    scaleFactor: real,
    distanceMethod: string)

  /** The values a solver record holds. */
  datatype Field =
    | Name(name: string)
    | Value(value: real)
    | Transforms(names: seq<string>)
    | Poses(poses: OD.Dict<string, PoseRecord>)

  type Record = OD.Dict<string, Field>

  type Output = OD.Dict<string, Record>

  const OldSuffix := "_UE4RBFSolver"
  const NewSuffix := "_UERBFSolver"
  const DefaultPose := "default"

  /** The settings `upgrade_scene` reads by name, in the order it stores them. */
  const Settings := ["mode", "radius", "weightThreshold", "automaticRadius", "distanceMethod"]

  /** The record key of a solver. */
  function NewName(solver: string): string
  {
    Text.Replace(solver, OldSuffix, NewSuffix)
  }

  // ------------------------------------------------------------ sorting

  /** Python's `a <= b` on strings: code point by code point, a prefix first. */
  predicate NotAfter(a: string, b: string)
    decreases |a|
  {
    a == [] || (b != [] && (a[0] < b[0] || (a[0] == b[0] && NotAfter(a[1..], b[1..]))))
  }

  lemma {:induction false} NotAfterTotal(a: string, b: string)
    ensures NotAfter(a, b) || NotAfter(b, a)
    decreases |a|
  {
    if a != [] && b != [] && a[0] == b[0] {
      NotAfterTotal(a[1..], b[1..]);
    }
  }

  lemma {:induction false} NotAfterAntisymmetric(a: string, b: string)
    requires NotAfter(a, b) && NotAfter(b, a)
    ensures a == b
    decreases |a|
  {
    if a != [] {
      NotAfterAntisymmetric(a[1..], b[1..]);
      assert a == [a[0]] + a[1..] && b == [b[0]] + b[1..];
    }
  }

  lemma {:induction false} NotAfterTransitive(a: string, b: string, c: string)
    requires NotAfter(a, b) && NotAfter(b, c)
    ensures NotAfter(a, c)
    decreases |a|
  {
    if a != [] && a[0] == b[0] && b[0] == c[0] {
      NotAfterTransitive(a[1..], b[1..], c[1..]);
    }
  }

  predicate SortedNames(xs: seq<string>)
  {
    forall i, j :: 0 <= i < j < |xs| ==> NotAfter(xs[i], xs[j])
  }

  function Insert(x: string, xs: seq<string>): seq<string>
    decreases |xs|
  {
    if xs == [] then [x]
    else if NotAfter(x, xs[0]) then [x] + xs
    else [xs[0]] + Insert(x, xs[1..])
  }

  /** Python's `sorted` on a list of strings. */
  function Sort(xs: seq<string>): seq<string>
    decreases |xs|
  {
    if xs == [] then [] else Insert(xs[0], Sort(xs[1..]))
  }

  /** Inserting keeps the elements and puts the new one among them. */
  lemma {:induction false} InsertPerm(x: string, xs: seq<string>)
    ensures multiset(Insert(x, xs)) == multiset(xs) + multiset{x}
    decreases |xs|
  {
    if xs != [] && !NotAfter(x, xs[0]) {
      InsertPerm(x, xs[1..]);
      assert xs == [xs[0]] + xs[1..];
    }
  }

  /** A name no later than every element of a sorted list can go in front of it. */
  lemma SortedCons(y: string, r: seq<string>)
    requires SortedNames(r) && forall k :: 0 <= k < |r| ==> NotAfter(y, r[k])
    ensures SortedNames([y] + r)
  {
    var s := [y] + r;
    forall i, j | 0 <= i < j < |s| ensures NotAfter(s[i], s[j]) {
      assert s[j] == r[j - 1];
      if i > 0 {
        assert s[i] == r[i - 1];
      }
    }
  }

  /** The tail of a sorted list is sorted and comes after its head. */
  lemma SortedTail(xs: seq<string>)
    requires xs != [] && SortedNames(xs)
    ensures SortedNames(xs[1..]) && forall k :: 0 <= k < |xs| - 1 ==> NotAfter(xs[0], xs[1..][k])
  {
    var t := xs[1..];
    forall i, j | 0 <= i < j < |t| ensures NotAfter(t[i], t[j]) {
      assert t[i] == xs[i + 1] && t[j] == xs[j + 1];
    }
    forall k | 0 <= k < |t| ensures NotAfter(xs[0], t[k]) {
      assert t[k] == xs[k + 1];
    }
  }

  /** A lower bound of a name and of a list bounds the list with the name inserted. */
  lemma {:induction false} InsertBelow(x: string, xs: seq<string>, lo: string)
    requires NotAfter(lo, x) && forall k :: 0 <= k < |xs| ==> NotAfter(lo, xs[k])
    ensures forall k :: 0 <= k < |Insert(x, xs)| ==> NotAfter(lo, Insert(x, xs)[k])
    decreases |xs|
  {
    if xs != [] && !NotAfter(x, xs[0]) {
      var t := xs[1..];
      forall k | 0 <= k < |t| ensures NotAfter(lo, t[k]) {
        assert t[k] == xs[k + 1];
      }
      InsertBelow(x, t, lo);
      var r := [xs[0]] + Insert(x, t);
      forall k | 0 <= k < |r| ensures NotAfter(lo, r[k]) {
        if k > 0 {
          assert r[k] == Insert(x, t)[k - 1];
        }
      }
    } else if xs != [] {
      var r := [x] + xs;
      forall k | 0 <= k < |r| ensures NotAfter(lo, r[k]) {
        if k > 0 {
          assert r[k] == xs[k - 1];
        }
      }
    }
  }

  /** Inserting into a sorted list keeps it sorted. */
  lemma {:induction false} InsertSorted(x: string, xs: seq<string>)
    requires SortedNames(xs)
    ensures SortedNames(Insert(x, xs))
    decreases |xs|
  {
    if xs != [] && NotAfter(x, xs[0]) {
      forall k | 0 <= k < |xs| ensures NotAfter(x, xs[k]) {
        if k > 0 {
          NotAfterTransitive(x, xs[0], xs[k]);
        }
      }
      SortedCons(x, xs);
    } else if xs != [] {
      var t := xs[1..];
      SortedTail(xs);
      InsertSorted(x, t);
      NotAfterTotal(x, xs[0]);
      InsertBelow(x, t, xs[0]);
      SortedCons(xs[0], Insert(x, t));
    }
  }

  /** `sorted` gives a sorted rearrangement of its argument. */
  lemma {:induction false} SortCorrect(xs: seq<string>)
    ensures SortedNames(Sort(xs)) && multiset(Sort(xs)) == multiset(xs)
    decreases |xs|
  {
    if xs != [] {
      SortCorrect(xs[1..]);
      InsertSorted(xs[0], Sort(xs[1..]));
      InsertPerm(xs[0], Sort(xs[1..]));
      assert xs == [xs[0]] + xs[1..];
    }
  }

  // ------------------------------------------------------------ dictionary loops

  lemma SplitLast<T>(xs: seq<T>)
    requires xs != []
    ensures xs == xs[..|xs| - 1] + [xs[|xs| - 1]]
  {
  }

  /** The name itself, as the key of an entry. */
  function Same(n: string): string
  {
    n
  }

  /** The key of each name, in order. */
  function KeysOf(names: seq<string>, key: string -> string): (r: seq<string>)
    ensures |r| == |names| && forall i :: 0 <= i < |names| ==> r[i] == key(names[i])
  {
    seq(|names|, i requires 0 <= i < |names| => key(names[i]))
  }

  /** Different names have different keys. */
  predicate Injective(names: seq<string>, key: string -> string)
  {
    forall i, j :: 0 <= i < j < |names| ==> key(names[i]) != key(names[j])
  }

  /** Every name has a value. */
  predicate Total<V>(names: seq<string>, value: string -> Option<V>)
  {
    forall n :: n in names ==> value(n).Some?
  }

  /**
   * The loop `for n in names: d[key(n)] = value(n)`, in order, where a name
   * whose value is None is skipped.
   */
  function PutEach<V>(d: OD.Dict<string, V>, names: seq<string>, key: string -> string, value: string -> Option<V>): OD.Dict<string, V>
    decreases |names|
  {
    if names == [] then d
    else
      var prev := PutEach(d, names[..|names| - 1], key, value);
      var n := names[|names| - 1];
      match value(n)
      case None => prev
      case Some(v) => OD.Put(prev, key(n), v)
  }

  lemma InjectiveInit(names: seq<string>, key: string -> string)
    requires names != [] && Injective(names, key)
    ensures var init := names[..|names| - 1];
      Injective(init, key) && key(names[|names| - 1]) !in KeysOf(init, key)
  {
    var init := names[..|names| - 1];
    forall i, j | 0 <= i < j < |init| ensures key(init[i]) != key(init[j]) {
      assert init[i] == names[i] && init[j] == names[j];
    }
    forall i | 0 <= i < |init| ensures KeysOf(init, key)[i] != key(names[|names| - 1]) {
      assert init[i] == names[i];
    }
  }

  lemma KeysOfSnoc(names: seq<string>, key: string -> string)
    requires names != []
    ensures KeysOf(names, key) == KeysOf(names[..|names| - 1], key) + [key(names[|names| - 1])]
  {
    var init := names[..|names| - 1];
    var r := KeysOf(init, key) + [key(names[|names| - 1])];
    forall i | 0 <= i < |names| ensures KeysOf(names, key)[i] == r[i] {
      if i < |init| {
        assert init[i] == names[i];
      }
    }
  }

  lemma TotalInit<V>(names: seq<string>, value: string -> Option<V>)
    requires names != [] && Total(names, value)
    ensures Total(names[..|names| - 1], value) && value(names[|names| - 1]).Some?
  {
    SplitLast(names);
  }

  /** A key that no name has keeps what it held. */
  lemma {:induction false} PutEachOthers<V>(d: OD.Dict<string, V>, names: seq<string>, key: string -> string, value: string -> Option<V>, k: string)
    requires forall n :: n in names ==> key(n) != k
    ensures OD.Lookup(PutEach(d, names, key, value), k) == OD.Lookup(d, k)
    decreases |names|
  {
    if names != [] {
      SplitLast(names);
      PutEachOthers(d, names[..|names| - 1], key, value, k);
    }
  }

  /** From nothing, names that all have values and distinct keys give one entry each, in their order. */
  lemma {:induction false} PutEachKeys<V>(names: seq<string>, key: string -> string, value: string -> Option<V>)
    requires Total(names, value) && Injective(names, key)
    ensures OD.Keys(PutEach([], names, key, value)) == KeysOf(names, key)
    decreases |names|
  {
    if names != [] {
      var init := names[..|names| - 1];
      InjectiveInit(names, key);
      TotalInit(names, value);
      PutEachKeys(init, key, value);
      KeysOfSnoc(names, key);
    }
  }

  /** With distinct keys, every name that has a value finds it under its key. */
  lemma {:induction false} PutEachLookup<V>(d: OD.Dict<string, V>, names: seq<string>, key: string -> string, value: string -> Option<V>)
    requires Injective(names, key)
    ensures forall n :: n in names && value(n).Some? ==> OD.Lookup(PutEach(d, names, key, value), key(n)) == value(n)
    decreases |names|
  {
    if names != [] {
      var init := names[..|names| - 1];
      var m := names[|names| - 1];
      SplitLast(names);
      InjectiveInit(names, key);
      PutEachLookup(d, init, key, value);
      forall n | n in names && value(n).Some? ensures OD.Lookup(PutEach(d, names, key, value), key(n)) == value(n) {
        if n != m {
          var i :| 0 <= i < |init| && init[i] == n;
          assert KeysOf(init, key)[i] == key(n);
        }
      }
    }
  }

  /**
   * The reads `d[n] = value(n)` over the names in order, stopping with a
   * `ValueError` at the first name that cannot be read.
   */
  function ReadEach<V>(d: OD.Dict<string, V>, names: seq<string>, value: string -> Option<V>): Result<OD.Dict<string, V>>
    decreases |names|
  {
    if names == [] then Ok(d)
    else
      match value(names[0])
      case None => Err(ValueError)
      case Some(v) => ReadEach(OD.Put(d, names[0], v), names[1..], value)
  }

  lemma TotalCons<V>(names: seq<string>, value: string -> Option<V>)
    requires names != []
    ensures Total(names, value) <==> value(names[0]).Some? && Total(names[1..], value)
  {
    assert names == [names[0]] + names[1..];
  }

  lemma NotInTail<T>(x: T, xs: seq<T>)
    requires xs != [] && x !in xs
    ensures x != xs[0] && x !in xs[1..]
  {
    forall j | 0 <= j < |xs| - 1 ensures xs[1..][j] != x {
      assert xs[1..][j] == xs[j + 1];
    }
  }

  /** The reads go through exactly when every name can be read. */
  lemma {:induction false} ReadEachOk<V>(d: OD.Dict<string, V>, names: seq<string>, value: string -> Option<V>)
    ensures ReadEach(d, names, value).Ok? <==> Total(names, value)
    decreases |names|
  {
    if names != [] {
      TotalCons(names, value);
      if value(names[0]).Some? {
        ReadEachOk(OD.Put(d, names[0], value(names[0]).value), names[1..], value);
      }
    }
  }

  /** A key that is not read keeps what it held. */
  lemma {:induction false} ReadEachOthers<V>(d: OD.Dict<string, V>, names: seq<string>, value: string -> Option<V>, k: string)
    requires ReadEach(d, names, value).Ok? && k !in names
    ensures OD.Lookup(ReadEach(d, names, value).value, k) == OD.Lookup(d, k)
    decreases |names|
  {
    if names != [] {
      var d' := OD.Put(d, names[0], value(names[0]).value);
      assert ReadEach(d, names, value) == ReadEach(d', names[1..], value);
      NotInTail(k, names);
      ReadEachOthers(d', names[1..], value, k);
      assert OD.Lookup(d', k) == OD.Lookup(d, k);
    }
  }

  /** After reading distinct names, each holds the value read. */
  lemma {:induction false} ReadEachValues<V>(d: OD.Dict<string, V>, names: seq<string>, value: string -> Option<V>)
    requires Legacy.Distinct(names) && ReadEach(d, names, value).Ok?
    ensures forall n :: n in names ==> OD.Lookup(ReadEach(d, names, value).value, n) == value(n)
    decreases |names|
  {
    if names != [] {
      var x, rest := names[0], names[1..];
      assert value(x).Some?;
      var d' := OD.Put(d, x, value(x).value);
      assert ReadEach(d, names, value) == ReadEach(d', rest, value);
      assert names == [x] + rest;
      Legacy.DistinctTail(x, rest);
      ReadEachValues(d', rest, value);
      ReadEachOthers(d', rest, value, x);
      var r := ReadEach(d', rest, value).value;
      assert OD.Lookup(r, x) == value(x);
      forall n | n in names ensures OD.Lookup(r, n) == value(n) {
        if n != x {
          assert n in rest;
        }
      }
    }
  }

  // ------------------------------------------------------------ poses

  /** `base_pose` becomes `default`; every other pose keeps its name. */
  function PoseKey(pose: string): string
  {
    if pose == Legacy.BasePose then DefaultPose else pose
  }

  /** The object-space matrix of each transform with the solver in the pose. */
  function MatrixOf(s: Scene, solver: string, pose: string): string -> Option<Matrix>
  {
    t => Some(s.matrix(solver, pose, t))
  }

  /** The `{transform: xform(transform) ...}` comprehension over the driven transforms. */
  function DrivenMatrices(s: Scene, solver: string, pose: string, driven: seq<string>): OD.Dict<string, Matrix>
  {
    PutEach([], driven, Same, MatrixOf(s, solver, pose))
  }

  /** One driven matrix per distinct driven transform, in order, each the transform's own. */
  lemma DrivenMatricesKeys(s: Scene, solver: string, pose: string, driven: seq<string>)
    requires Legacy.Distinct(driven)
    ensures OD.Keys(DrivenMatrices(s, solver, pose, driven)) == driven
    ensures forall t :: t in driven ==> OD.Lookup(DrivenMatrices(s, solver, pose, driven), t) == Some(s.matrix(solver, pose, t))
  {
    var f := MatrixOf(s, solver, pose);
    assert Injective(driven, Same);
    assert Total(driven, f);
    PutEachKeys(driven, Same, f);
    PutEachLookup([], driven, Same, f);
    assert KeysOf(driven, Same) == driven;
  }

  /** The record of one pose: the driving transform's matrix and the driven ones, with fixed options. */
  function PoseRecordOf(s: Scene, solver: string, rig: Legacy.Rig, pose: string): PoseRecord
  {
    PoseRecord([s.matrix(solver, pose, rig.driving)], DrivenMatrices(s, solver, pose, rig.driven),
      "DefaultFunctionType", 1.0, "DefaultMethod")
  }

  function PoseRecordFn(s: Scene, solver: string, rig: Legacy.Rig): string -> Option<PoseRecord>
  {
    p => Some(PoseRecordOf(s, solver, rig, p))
  }

  /** The pose loop over the names in the order given. */
  function PoseRecords(s: Scene, solver: string, rig: Legacy.Rig, names: seq<string>): OD.Dict<string, PoseRecord>
  {
    PutEach([], names, PoseKey, PoseRecordFn(s, solver, rig))
  }

  /** Distinct names among which `default` and `base_pose` do not meet keep distinct new names. */
  lemma PoseKeyInjective(names: seq<string>)
    requires Legacy.Distinct(names) && !(DefaultPose in names && Legacy.BasePose in names)
    ensures Injective(names, PoseKey)
  {
    forall i, j | 0 <= i < j < |names| ensures PoseKey(names[i]) != PoseKey(names[j]) {
      assert names[i] in names && names[j] in names;
    }
  }

  /**
   * For distinct names among which `default` and `base_pose` do not meet,
   * the poses are stored one per name, in the order given, each under its
   * new name with its own record.
   */
  lemma PoseRecordsKeys(s: Scene, solver: string, rig: Legacy.Rig, names: seq<string>)
    requires Legacy.Distinct(names)
    requires !(DefaultPose in names && Legacy.BasePose in names)
    ensures OD.Keys(PoseRecords(s, solver, rig, names)) == KeysOf(names, PoseKey)
    ensures forall p :: p in names ==> OD.Lookup(PoseRecords(s, solver, rig, names), PoseKey(p)) == Some(PoseRecordOf(s, solver, rig, p))
  {
    var f := PoseRecordFn(s, solver, rig);
    PoseKeyInjective(names);
    assert Total(names, f);
    PutEachKeys(names, PoseKey, f);
    PutEachLookup([], names, PoseKey, f);
  }

  // ------------------------------------------------------------ solver record

  /** A read of one of the solver's attributes, as the record stores it; None when `getAttr` raises. */
  function ReadFn(s: Scene, solver: string): string -> Option<Field>
  {
    a => match s.read(solver, a) case None => None case Some(v) => Some(Value(v))
  }

  /** The keyable-attribute loop: each readable attribute copied under its own name, in order. */
  function KeyableCopies(rec: Record, s: Scene, solver: string, attrs: seq<string>): Record
  {
    PutEach(rec, attrs, Same, ReadFn(s, solver))
  }

  /** The five explicit reads, each stored under its name; one that raises stops the upgrade. */
  function ExplicitSettings(rec: Record, s: Scene, solver: string, names: seq<string>): Result<Record>
  {
    ReadEach(rec, names, ReadFn(s, solver))
  }

  /** The record as it stands before the explicit reads: name, keyable copies and transforms. */
  function Linked(s: Scene, solver: string): Record
  {
    var rig := s.rigOf(solver);
    var copied := KeyableCopies([("solver_name", Name(NewName(solver)))], s, solver, s.keyable(solver));
    OD.Put(OD.Put(copied, "drivers", Transforms([rig.driving])), "driven_transforms", Transforms(rig.driven))
  }

  /** The record of one solver, or the error of an explicit read. */
  function RecordOf(s: Scene, solver: string): Result<Record>
  {
    var rig := s.rigOf(solver);
    match ExplicitSettings(Linked(s, solver), s, solver, Settings)
    case Err(e) => Err(e)
    case Ok(stored) =>
      Ok(OD.Put(stored, "poses", Poses(PoseRecords(s, solver, rig, Sort(Legacy.PoseNames(rig))))))
  }

  /** Each solver with its new name and its record. */
  function Entries(s: Scene, solvers: seq<string>): (r: seq<(string, Result<Record>)>)
    ensures |r| == |solvers| && forall i :: 0 <= i < |solvers| ==> r[i] == (NewName(solvers[i]), RecordOf(s, solvers[i]))
  {
    seq(|solvers|, i requires 0 <= i < |solvers| => (NewName(solvers[i]), RecordOf(s, solvers[i])))
  }

  /** The output of the solver loop. */
  function UpgradeOf(s: Scene, solvers: seq<string>): Result<Output>
  {
    OD.Gather(Entries(s, solvers))
  }

  // ------------------------------------------------------------ the upgrade as a procedure

  /** The keyable-attribute loop of one solver. */
  method CopyKeyable(rec0: Record, s: Scene, solver: string, attrs: seq<string>) returns (rec: Record)
    ensures rec == KeyableCopies(rec0, s, solver, attrs)
  {
    rec := rec0;
    var i := 0;
    while i < |attrs|
      invariant 0 <= i <= |attrs|
      invariant rec == KeyableCopies(rec0, s, solver, attrs[..i])
    {
      assert attrs[..i + 1][..i] == attrs[..i];
      match s.read(solver, attrs[i]) {
        case None =>
        case Some(v) => rec := OD.Put(rec, attrs[i], Value(v));
      }
      i := i + 1;
    }
    assert attrs[..i] == attrs;
  }

  /** The explicit reads, stopping at the first that raises. */
  method ReadSettings(rec0: Record, s: Scene, solver: string, names: seq<string>) returns (r: Result<Record>)
    ensures r == ExplicitSettings(rec0, s, solver, names)
  {
    var rec := rec0;
    var k := 0;
    while k < |names|
      invariant 0 <= k <= |names|
      invariant ExplicitSettings(rec0, s, solver, names) == ExplicitSettings(rec, s, solver, names[k..])
    {
      assert names[k..][1..] == names[k + 1..];
      match s.read(solver, names[k]) {
        case None => return Err(ValueError);
        case Some(v) => rec := OD.Put(rec, names[k], Value(v));
      }
      k := k + 1;
    }
    r := Ok(rec);
  }

  /** The pose loop of one solver, over its pose names in sorted order. */
  method CollectPoses(s: Scene, solver: string, rig: Legacy.Rig, names: seq<string>) returns (poses: OD.Dict<string, PoseRecord>)
    ensures poses == PoseRecords(s, solver, rig, names)
  {
    poses := [];
    var j := 0;
    while j < |names|
      invariant 0 <= j <= |names|
      invariant poses == PoseRecords(s, solver, rig, names[..j])
    {
      assert names[..j + 1][..j] == names[..j];
      poses := OD.Put(poses, PoseKey(names[j]), PoseRecordOf(s, solver, rig, names[j]));
      j := j + 1;
    }
    assert names[..j] == names;
  }

  /** One iteration of the solver loop. */
  method UpgradeSolver(s: Scene, solver: string) returns (r: Result<Record>)
    ensures r == RecordOf(s, solver)
  {
    var rig := s.rigOf(solver);
    var rec := CopyKeyable([("solver_name", Name(NewName(solver)))], s, solver, s.keyable(solver));
    rec := OD.Put(rec, "drivers", Transforms([rig.driving]));
    rec := OD.Put(rec, "driven_transforms", Transforms(rig.driven));
    r := ReadSettings(rec, s, solver, Settings);
    if r.Ok? {
      var poses := CollectPoses(s, solver, rig, Sort(Legacy.PoseNames(rig)));
      r := Ok(OD.Put(r.value, "poses", Poses(poses)));
    }
  }

  /** `upgrade_scene` up to the file it writes: the output dictionary, or the error that stopped it. */
  method UpgradeScene(s: Scene) returns (r: Result<Output>)
    ensures r == UpgradeOf(s, s.solvers)
  {
    var solvers := s.solvers;
    ghost var entries := Entries(s, solvers);
    var out: Output := [];
    var i := 0;
    while i < |solvers|
      invariant i <= |solvers| && OD.Gather(entries[..i]) == Ok(out)
    {
      var rec := UpgradeSolver(s, solvers[i]);
      if rec.Err? {
        OD.GatherStops(entries, i + 1);
        return Err(rec.error);
      }
      OD.GatherStep(entries, i, out);
      out := OD.Put(out, NewName(solvers[i]), rec.value);
      i := i + 1;
    }
    assert entries[..i] == entries;
    r := Ok(out);
  }

  // ------------------------------------------------------------ properties

  /**
   * When every solver's record can be made and the new names differ, the
   * output holds one entry per solver, in the order listed, under its new
   * name with its record.
   */
  lemma UpgradeKeys(s: Scene)
    requires forall i :: 0 <= i < |s.solvers| ==> RecordOf(s, s.solvers[i]).Ok?
    requires forall i, j :: 0 <= i < j < |s.solvers| ==> NewName(s.solvers[i]) != NewName(s.solvers[j])
    ensures UpgradeOf(s, s.solvers).Ok?
    ensures |UpgradeOf(s, s.solvers).value| == |s.solvers|
    ensures forall i :: 0 <= i < |s.solvers| ==>
      UpgradeOf(s, s.solvers).value[i] == (NewName(s.solvers[i]), RecordOf(s, s.solvers[i]).value)
  {
    var entries := Entries(s, s.solvers);
    OD.GatherKeys(entries);
  }

  /** The upgrade fails exactly when some solver's record cannot be made. */
  lemma UpgradeFails(s: Scene)
    ensures UpgradeOf(s, s.solvers).Err? <==> exists i :: 0 <= i < |s.solvers| && RecordOf(s, s.solvers[i]).Err?
  {
    var entries := Entries(s, s.solvers);
    OD.GatherOk(entries);
    if UpgradeOf(s, s.solvers).Err? {
      var i :| 0 <= i < |entries| && entries[i].1.Err?;
      assert RecordOf(s, s.solvers[i]).Err?;
    }
  }

  lemma UniqueKeysDistinct<V>(d: OD.Dict<string, V>)
    requires OD.UniqueKeys(d)
    ensures Legacy.Distinct(OD.Keys(d))
  {
  }

  /** A list is without repetition exactly when no element is counted twice. */
  lemma {:induction false} DistinctCounts<T>(a: seq<T>)
    ensures Legacy.Distinct(a) <==> forall x :: multiset(a)[x] <= 1
    decreases |a|
  {
    if a != [] {
      var t := a[1..];
      DistinctCounts(t);
      assert a == [a[0]] + t;
      assert multiset(a) == multiset{a[0]} + multiset(t);
      if Legacy.Distinct(a) {
        forall i, j | 0 <= i < j < |t| ensures t[i] != t[j] {
          assert t[i] == a[i + 1] && t[j] == a[j + 1];
        }
        forall k | 0 <= k < |t| ensures t[k] != a[0] {
          assert t[k] == a[k + 1];
        }
        assert a[0] !in multiset(t);
      } else {
        var i, j :| 0 <= i < j < |a| && a[i] == a[j];
        if i == 0 {
          assert a[j] == t[j - 1];
          assert a[0] in multiset(t);
          assert multiset(a)[a[0]] >= 2;
        } else {
          assert t[i - 1] == a[i] && t[j - 1] == a[j];
          assert !Legacy.Distinct(t);
          var x :| multiset(t)[x] > 1;
          assert multiset(a)[x] > 1;
        }
      }
    }
  }

  /** The five setting names differ from each other and from the fixed keys of a record. */
  lemma SettingsKeys()
    ensures Legacy.Distinct(Settings)
    ensures forall k :: k in Settings ==> k != "solver_name" && k != "drivers" && k != "driven_transforms" && k != "poses"
  {
    assert forall i :: 0 <= i < |Settings| ==> |Settings[i]| != 11 && |Settings[i]| != 7 && |Settings[i]| != 17 && |Settings[i]| != 5;
  }

  /** A solver record holds its solver's driving transform and driven transforms. */
  lemma RecordTransforms(s: Scene, solver: string)
    requires RecordOf(s, solver).Ok?
    ensures var rec := RecordOf(s, solver).value; var rig := s.rigOf(solver);
      && OD.Lookup(rec, "drivers") == Some(Transforms([rig.driving]))
      && OD.Lookup(rec, "driven_transforms") == Some(Transforms(rig.driven))
  {
    var linked := Linked(s, solver);
    var f := ReadFn(s, solver);
    SettingsKeys();
    ReadEachOthers(linked, Settings, f, "drivers");
    ReadEachOthers(linked, Settings, f, "driven_transforms");
  }

  /** A solver record holds the five settings as read, whatever a keyable copy held before. */
  lemma RecordSettings(s: Scene, solver: string)
    requires RecordOf(s, solver).Ok?
    ensures forall a :: a in Settings ==>
      s.read(solver, a).Some? && OD.Lookup(RecordOf(s, solver).value, a) == Some(Value(s.read(solver, a).value))
  {
    var rig := s.rigOf(solver);
    var linked := Linked(s, solver);
    var f := ReadFn(s, solver);
    SettingsKeys();
    ReadEachOk(linked, Settings, f);
    ReadEachValues(linked, Settings, f);
    var stored := ReadEach(linked, Settings, f).value;
    assert RecordOf(s, solver).value == OD.Put(stored, "poses", Poses(PoseRecords(s, solver, rig, Sort(Legacy.PoseNames(rig)))));
  }

  /** A solver record holds its poses in sorted order under their new names. */
  lemma RecordPoseTable(s: Scene, solver: string)
    requires RecordOf(s, solver).Ok?
    ensures var rig := s.rigOf(solver);
      OD.Lookup(RecordOf(s, solver).value, "poses") == Some(Poses(PoseRecords(s, solver, rig, Sort(Legacy.PoseNames(rig)))))
  {
  }

  /**
   * The solver's new name is its record's `solver_name` unless a readable
   * keyable attribute has that very name.
   */
  lemma RecordName(s: Scene, solver: string)
    requires RecordOf(s, solver).Ok? && "solver_name" !in s.keyable(solver)
    ensures OD.Lookup(RecordOf(s, solver).value, "solver_name") == Some(Name(NewName(solver)))
  {
    var named := [("solver_name", Name(NewName(solver)))];
    var f := ReadFn(s, solver);
    OD.LookupAt(named, 0);
    PutEachOthers(named, s.keyable(solver), Same, f, "solver_name");
    SettingsKeys();
    ReadEachOthers(Linked(s, solver), Settings, f, "solver_name");
  }

  /**
   * The poses of a record are the solver's, in sorted order, with
   * `base_pose` renamed `default`, each with its own record, when the
   * solver has no pose named `default` besides its base pose.
   */
  lemma RecordPoses(s: Scene, solver: string)
    requires var names := Legacy.PoseNames(s.rigOf(solver)); !(DefaultPose in names && Legacy.BasePose in names)
    ensures var rig := s.rigOf(solver); var sorted := Sort(Legacy.PoseNames(rig));
      && SortedNames(sorted) && multiset(sorted) == multiset(Legacy.PoseNames(rig))
      && OD.Keys(PoseRecords(s, solver, rig, sorted)) == KeysOf(sorted, PoseKey)
      && forall p :: p in Legacy.PoseNames(rig) ==>
           OD.Lookup(PoseRecords(s, solver, rig, sorted), PoseKey(p)) == Some(PoseRecordOf(s, solver, rig, p))
  {
    var rig := s.rigOf(solver);
    var names := Legacy.PoseNames(rig);
    var sorted := Sort(names);
    SortCorrect(names);
    Legacy.PoseTableKeys(rig.attrs, rig.links);
    UniqueKeysDistinct(Legacy.PoseTable(rig.attrs, rig.links));
    DistinctCounts(names);
    DistinctCounts(sorted);
    forall x | x in sorted ensures x in names {
      assert x in multiset(sorted);
    }
    forall x | x in names ensures x in sorted {
      assert x in multiset(names);
    }
    PoseRecordsKeys(s, solver, rig, sorted);
  }
}
