/**
 * The pose network of one `UERBFSolverNode` (`RBFNode`, `v2/model/api.py`)
 * as a value: its drivers with their rest matrices, its controllers, its
 * `targets` (one per pose), how many `outputs` elements exist, and the pose
 * blenders connected to its `poseBlenders` attribute, in connection order.
 *
 * Targets are kept dense: every operation that removes targets removes all
 * of them, from index 0 up, before anything is added again.
 */
module SolverModel {
  import opened Wrappers
  import opened Sparse
  import opened Host
  import opened BlenderModel
  import OD = OrderedDict

  /** One element of `targets`: the pose name, driver and controller matrices, and `targetEnable`. */
  datatype Target = Target(name: string, values: seq<Matrix>, controllers: seq<Matrix>, enabled: bool)

  datatype Network = Network(
    name: string,
    drivers: seq<string>,
    rest: seq<Matrix>,
    controllers: seq<string>,
    targets: seq<Target>,
    outputs: nat,
    blenders: seq<Blender>)

  /** The `driven` entry of a pose record: driven transform to recorded matrix. */
  type Driven = OD.Dict<Option<string>, Option<Matrix>>

  /** What `pose(name)` returns (the option fields and blend shapes are not modelled). */
  datatype PoseRecord = PoseRecord(drivers: seq<Matrix>, controllers: seq<Matrix>, driven: Driven, enabled: bool)

  type Poses = OD.Dict<string, PoseRecord>

  /** A freshly created solver. */
  function EmptyNetwork(name: string): Network
  {
    Network(name, [], [], [], [], 0, [])
  }

  /** A blender whose driven transform is a transform of the scene. */
  predicate Ready(b: Blender, scene: Scene)
  {
    b.driven.Some? && scene.IsTransform(b.driven.value)
  }

  /** Every driver, controller and driven transform the network refers to is a transform of the scene. */
  predicate Coherent(n: Network, scene: Scene)
  {
    (forall i :: 0 <= i < |n.drivers| ==> scene.IsTransform(n.drivers[i])) &&
    (forall i :: 0 <= i < |n.controllers| ==> scene.IsTransform(n.controllers[i])) &&
    (forall j :: 0 <= j < |n.blenders| ==> Ready(n.blenders[j], scene))
  }

  predicate Named(n: Network)
  {
    forall i :: 0 <= i < |n.targets| ==> n.targets[i].name != ""
  }

  predicate UniqueNames(n: Network)
  {
    forall i, j :: 0 <= i < j < |n.targets| ==> n.targets[i].name != n.targets[j].name
  }

  /** The invariant the tool keeps: every pose is named, no name twice. */
  predicate Valid(n: Network)
  {
    Named(n) && UniqueNames(n)
  }

  /** A target `pose()` can read: one matrix per driver, one per controller. */
  predicate TargetWellFormed(n: Network, t: Target)
  {
    t.values != [] && |t.values| == |n.drivers| && |t.controllers| == |n.controllers|
  }

  predicate WellFormed(n: Network)
  {
    forall i :: 0 <= i < |n.targets| ==> TargetWellFormed(n, n.targets[i])
  }

  predicate DistinctDriven(bs: seq<Blender>)
  {
    forall i, j :: 0 <= i < j < |bs| ==> bs[i].driven != bs[j].driven
  }

  // ----------------------------------------------------------- queries

  /** `pose_index`: the first target with this name, or -1. */
  function PoseIndex(ts: seq<Target>, name: string): (r: int)
    ensures -1 <= r < |ts|
    ensures r == -1 <==> forall i :: 0 <= i < |ts| ==> ts[i].name != name
    ensures r >= 0 ==> ts[r].name == name && forall i :: 0 <= i < r ==> ts[i].name != name
  {
    if ts == [] then -1
    else if ts[0].name == name then 0
    else
      var k := PoseIndex(ts[1..], name);
      if k == -1 then -1 else k + 1
  }

  /** The `driven` part of `pose()`: each blender's slot `index`, keyed by its driven transform. */
  function DrivenRecord(bs: seq<Blender>, index: int): Driven
  {
    if bs == [] then []
    else OD.Put(DrivenRecord(bs[..|bs| - 1], index), bs[|bs| - 1].driven, GetPose(bs[|bs| - 1], index))
  }

  /** One entry per blender, in connection order. */
  function DrivenEntries(bs: seq<Blender>, index: int): (r: Driven)
    ensures |r| == |bs|
  {
    seq(|bs|, j requires 0 <= j < |bs| => (bs[j].driven, GetPose(bs[j], index)))
  }

  /** The record of target `i` as `pose()` assembles it. */
  function RecordAt(n: Network, i: nat): PoseRecord
    requires i < |n.targets|
  {
    PoseRecord(n.targets[i].values, n.targets[i].controllers, DrivenRecord(n.blenders, i), n.targets[i].enabled)
  }

  /** `pose()` on a known index: an empty or short driver list raises InvalidPose, a controller mismatch RuntimeError. */
  function PoseAt(n: Network, i: nat): (r: Result<PoseRecord>)
    requires i < |n.targets|
    ensures r.Ok? <==> TargetWellFormed(n, n.targets[i])
    ensures r.Ok? ==> r.value == RecordAt(n, i)
    ensures r.Err? && (n.targets[i].values == [] || |n.targets[i].values| != |n.drivers|) ==> r.error == InvalidPose
    ensures r.Err? && n.targets[i].values != [] && |n.targets[i].values| == |n.drivers| ==> r.error == RuntimeError
  {
    var t := n.targets[i];
    if t.values == [] then Err(InvalidPose)
    else if |t.values| != |n.drivers| then Err(InvalidPose)
    else if |t.controllers| != |n.controllers| then Err(RuntimeError)
    else Ok(RecordAt(n, i))
  }

  /** `pose(name)`: an unknown name raises InvalidPose. */
  function Pose(n: Network, name: string): (r: Result<PoseRecord>)
    ensures PoseIndex(n.targets, name) == -1 ==> r == Err(InvalidPose)
    ensures PoseIndex(n.targets, name) >= 0 ==> r == PoseAt(n, PoseIndex(n.targets, name))
  {
    var i := PoseIndex(n.targets, name);
    if i == -1 then Err(InvalidPose) else PoseAt(n, i)
  }

  /** The loop of `poses()` over the first `m` targets; unnamed targets are skipped. */
  function PosesUpTo(n: Network, m: nat): (r: Result<Poses>)
    requires m <= |n.targets|
  {
    if m == 0 then Ok([])
    else
      match PosesUpTo(n, m - 1)
      case Err(e) => Err(e)
      case Ok(d) => PosesStep(n, d, m - 1)
  }

  /** One iteration of that loop: target `i` joins the dictionary under its name. */
  function PosesStep(n: Network, d: Poses, i: nat): (r: Result<Poses>)
    requires i < |n.targets|
  {
    var name := n.targets[i].name;
    if name == "" then Ok(d)
    else
      match Pose(n, name)
      case Err(e) => Err(e)
      case Ok(p) => Ok(OD.Put(d, name, p))
  }

  /** The keys of `poses()` over the first `m` targets are exactly their non-empty names. */
  lemma {:induction false} PosesKeysNamed(n: Network, m: nat)
    requires m <= |n.targets| && PosesUpTo(n, m).Ok?
    ensures forall k :: k in OD.Keys(PosesUpTo(n, m).value) ==> k != "" && 0 <= PoseIndex(n.targets, k) < m
    ensures forall i :: 0 <= i < m && n.targets[i].name != "" ==> n.targets[i].name in OD.Keys(PosesUpTo(n, m).value)
  {
    if m > 0 {
      var i := m - 1;
      var prev := PosesUpTo(n, i);
      assert prev.Ok?;
      PosesKeysNamed(n, i);
      PosesKeysStep(n, i, prev.value);
    }
  }

  /** Target `i` joins the keys under its name, if it has one, and nothing else changes in them. */
  lemma PosesKeysStep(n: Network, i: nat, d: Poses)
    requires i < |n.targets| && PosesUpTo(n, i) == Ok(d) && PosesUpTo(n, i + 1).Ok?
    requires forall k :: k in OD.Keys(d) ==> k != "" && 0 <= PoseIndex(n.targets, k) < i
    requires forall j :: 0 <= j < i && n.targets[j].name != "" ==> n.targets[j].name in OD.Keys(d)
    ensures forall k :: k in OD.Keys(PosesUpTo(n, i + 1).value) ==> k != "" && 0 <= PoseIndex(n.targets, k) < i + 1
    ensures forall j :: 0 <= j < i + 1 && n.targets[j].name != "" ==> n.targets[j].name in OD.Keys(PosesUpTo(n, i + 1).value)
  {
    var name := n.targets[i].name;
    var r := PosesUpTo(n, i + 1).value;
    assert PosesUpTo(n, i + 1) == PosesStep(n, d, i);
    if name != "" {
      var p := Pose(n, name).value;
      assert r == OD.Put(d, name, p);
      assert forall k :: k in OD.Keys(r) ==> k in OD.Keys(d) || k == name;
      assert forall k :: k in OD.Keys(d) ==> k in OD.Keys(r);
    }
  }

  /** `poses()`. */
  function AllPoses(n: Network): Result<Poses>
  {
    PosesUpTo(n, |n.targets|)
  }

  /** `has_pose`: membership in `poses()`, which may raise. */
  function HasPose(n: Network, name: string): (r: Result<bool>)
    ensures r.Ok? <==> AllPoses(n).Ok?
    ensures r.Ok? ==> (r.value <==> name != "" && PoseIndex(n.targets, name) >= 0)
  {
    match AllPoses(n)
    case Err(e) => Err(e)
    case Ok(d) =>
      PosesKeysNamed(n, |n.targets|);
      Ok(name in OD.Keys(d))
  }

  /** What `poses()` returns on a valid, well-formed network: every target's record, in index order. */
  function Records(n: Network): (r: Poses)
    ensures |r| == |n.targets|
  {
    seq(|n.targets|, i requires 0 <= i < |n.targets| => (n.targets[i].name, RecordAt(n, i)))
  }

  // ----------------------------------------------------------- lemmas

  lemma DrivenEntriesSnoc(bs: seq<Blender>, index: int)
    requires bs != []
    ensures DrivenEntries(bs[..|bs| - 1], index) + [(bs[|bs| - 1].driven, GetPose(bs[|bs| - 1], index))]
            == DrivenEntries(bs, index)
  {
  }

  lemma DrivenEntriesUnique(bs: seq<Blender>, index: int)
    requires DistinctDriven(bs)
    ensures OD.UniqueKeys(DrivenEntries(bs, index))
  {
  }

  /** With distinct driven transforms, the `driven` record has one entry per blender, in order. */
  lemma {:induction false} DrivenRecordDistinct(bs: seq<Blender>, index: int)
    requires DistinctDriven(bs)
    ensures DrivenRecord(bs, index) == DrivenEntries(bs, index)
    ensures OD.UniqueKeys(DrivenRecord(bs, index))
  {
    DrivenEntriesUnique(bs, index);
    if bs != [] {
      var front := bs[..|bs| - 1];
      var last := bs[|bs| - 1];
      assert DistinctDriven(front);
      DrivenRecordDistinct(front, index);
      var d := DrivenEntries(front, index);
      assert last.driven !in OD.Keys(d) by {
        forall j | 0 <= j < |d| ensures OD.Keys(d)[j] != last.driven {
          assert OD.Keys(d)[j] == front[j].driven == bs[j].driven;
        }
      }
      assert DrivenRecord(bs, index) == OD.Put(d, last.driven, GetPose(last, index));
      DrivenEntriesSnoc(bs, index);
    }
  }

  /** Each blender's entry in the `driven` record is its slot `index`. */
  lemma DrivenLookup(bs: seq<Blender>, index: int, j: nat)
    requires DistinctDriven(bs) && j < |bs|
    ensures OD.Lookup(DrivenRecord(bs, index), bs[j].driven) == Some(GetPose(bs[j], index))
  {
    DrivenRecordDistinct(bs, index);
    OD.LookupAt(DrivenEntries(bs, index), j);
  }

  /** In a valid network the first target with a name is the only one. */
  lemma IndexOfName(n: Network, i: nat)
    requires UniqueNames(n) && i < |n.targets|
    ensures PoseIndex(n.targets, n.targets[i].name) == i
  {
  }

  /** The records' keys are the target names. */
  lemma RecordKeys(n: Network)
    ensures OD.Keys(Records(n)) == seq(|n.targets|, i requires 0 <= i < |n.targets| => n.targets[i].name)
  {
  }

  lemma RecordsSnoc(n: Network, i: nat)
    requires i < |n.targets|
    ensures Records(n)[..i] + [(n.targets[i].name, RecordAt(n, i))] == Records(n)[..i + 1]
  {
  }

  lemma NameNotEarlier(n: Network, i: nat)
    requires UniqueNames(n) && i < |n.targets|
    ensures n.targets[i].name !in OD.Keys(Records(n)[..i])
  {
    var d := Records(n)[..i];
    forall k | 0 <= k < |d| ensures OD.Keys(d)[k] != n.targets[i].name {
      assert OD.Keys(d)[k] == d[k].0 == n.targets[k].name;
    }
  }

  /** Putting target `i` after the records of the targets before it appends its record. */
  lemma RecordsPrefixPut(n: Network, i: nat)
    requires UniqueNames(n) && i < |n.targets|
    ensures OD.Put(Records(n)[..i], n.targets[i].name, RecordAt(n, i)) == Records(n)[..i + 1]
  {
    NameNotEarlier(n, i);
    RecordsSnoc(n, i);
  }

  /** On a valid, well-formed network, `pose()` of a target's name is that target's record. */
  lemma PoseOfTarget(n: Network, i: nat)
    requires Valid(n) && WellFormed(n) && i < |n.targets|
    ensures n.targets[i].name != "" && Pose(n, n.targets[i].name) == Ok(RecordAt(n, i))
  {
    IndexOfName(n, i);
    assert TargetWellFormed(n, n.targets[i]);
  }

  /** One more target of a valid, well-formed network adds its record at the end. */
  lemma PosesUpToNext(n: Network, i: nat)
    requires Valid(n) && WellFormed(n) && i < |n.targets|
    requires PosesUpTo(n, i) == Ok(Records(n)[..i])
    ensures PosesUpTo(n, i + 1) == Ok(Records(n)[..i + 1])
  {
    PoseOfTarget(n, i);
    RecordsPrefixPut(n, i);
  }

  lemma {:induction false} PosesUpToExact(n: Network, m: nat)
    requires Valid(n) && WellFormed(n) && m <= |n.targets|
    ensures PosesUpTo(n, m) == Ok(Records(n)[..m])
  {
    if m > 0 {
      var i := m - 1;
      PosesUpToExact(n, i);
      PosesUpToNext(n, i);
    }
  }

  /** `poses()` on a valid, well-formed network returns every target, named and in order. */
  lemma PosesExact(n: Network)
    requires Valid(n) && WellFormed(n)
    ensures AllPoses(n) == Ok(Records(n))
    ensures OD.UniqueKeys(Records(n))
  {
    PosesUpToExact(n, |n.targets|);
    assert Records(n)[..|n.targets|] == Records(n);
  }

  /** `has_pose` on a valid, well-formed network is "some target carries this name". */
  lemma HasPoseExact(n: Network, name: string)
    requires Valid(n) && WellFormed(n)
    ensures HasPose(n, name) == Ok(PoseIndex(n.targets, name) >= 0)
  {
    PosesExact(n);
    RecordKeys(n);
    var i := PoseIndex(n.targets, name);
    if i >= 0 {
      assert OD.Keys(Records(n))[i] == name;
    }
  }

  // ----------------------------------------------------------- add_pose

  /** `"{solver}.outputs[{index}]"`. */
  function OutputPlug(n: Network, index: nat): string
  {
    ElementPlug(n.name + ".outputs", index)
  }

  /** `add_pose` reads the drivers' current matrices when drivers are given without matrices. */
  function DriverMatrices(drivers: seq<string>, matrices: Option<seq<Matrix>>, scene: Scene): Result<Option<seq<Matrix>>>
  {
    if drivers != [] && matrices.None? then
      match LocalMatrices(scene, drivers)
      case Err(e) => Err(e)
      case Ok(ms) => Ok(Some(ms))
    else Ok(matrices)
  }

  /** The driven matrix supplied for a blender's transform, when there is one (`driven_matrices.get(...)` is truthy). */
  function SuppliedMatrix(driven: Driven, b: Blender): Option<Matrix>
  {
    var found := OD.Lookup(driven, b.driven);
    if found.Some? then found.value else None
  }

  /** What a blender records for the new pose: the supplied matrix, else the driven transform's current one. */
  function RecordedMatrix(driven: Driven, b: Blender, scene: Scene): Result<Matrix>
  {
    match SuppliedMatrix(driven, b)
    case Some(m) => Ok(m)
    case None => DrivenMatrix(b, scene)
  }

  /**
   * One blender's part of `add_pose`: record slot `index`, then connect
   * weight `index` to the solver output, a connection the host is taken to
   * accept.
   */
  function AddPoseToBlender(b: Blender, index: nat, name: string, driven: Driven, plug: string, scene: Scene): (r: Result<Blender>)
    ensures r.Ok? <==> RecordedMatrix(driven, b, scene).Ok?
    ensures r.Ok? ==> r.value == b.(poses := Put(b.poses, index, RecordedMatrix(driven, b, scene).value),
                                     weights := Put(b.weights, index, if plug != "" then WeightPlug(plug) else WeightValue(0.0)))
  {
    var recorded :=
      match SuppliedMatrix(driven, b)
      case Some(m) => SetPose(b, index, name, true, Some(m), scene)
      case None => AddPoseFromCurrent(b, name, index, scene);
    match recorded
    case Err(e) => Err(e)
    case Ok(b') => SetWeight(b', index, plug, 0.0, true)
  }

  /**
   * `add_pose`. The checks come in this order: reading the drivers' matrices,
   * no drivers (InvalidPose), a taken name (InvalidPose), no matrices at all
   * (TypeError from `len(None)`), a wrong number of driver matrices
   * (InvalidPose), a wrong number of controller matrices (InvalidPose). Only
   * then is target `num_poses()` written and every blender given the pose.
   * `controller_matrices=None` is the empty sequence; `driven_matrices` is `driven`.
   */
  function AddPose(n: Network, name: string, drivers: seq<string>, matrices: Option<seq<Matrix>>, cms: seq<Matrix>,
                   driven: Driven, enable: bool, scene: Scene): (r: Result<Network>)
    ensures DriverMatrices(drivers, matrices, scene).Err? ==> r.Err?
    ensures DriverMatrices(drivers, matrices, scene).Ok? && n.drivers == [] ==> r == Err(InvalidPose)
    ensures n.drivers != [] && HasPose(n, name) == Ok(true) ==> r.Err?
    ensures r.Ok? ==> HasPose(n, name) == Ok(false)
    ensures r.Ok? && name != "" ==> PoseIndex(n.targets, name) == -1
    ensures r.Ok? ==> DriverMatrices(drivers, matrices, scene).Ok? && DriverMatrices(drivers, matrices, scene).value.Some?
    ensures r.Ok? ==> |DriverMatrices(drivers, matrices, scene).value.value| == |n.drivers| && |cms| == |n.controllers|
    ensures r.Ok? ==> r == Added(n, name, DriverMatrices(drivers, matrices, scene).value.value, cms, driven, enable, scene)
    ensures && DriverMatrices(drivers, matrices, scene).Ok? && DriverMatrices(drivers, matrices, scene).value.Some?
            && n.drivers != [] && HasPose(n, name) == Ok(false)
            && |DriverMatrices(drivers, matrices, scene).value.value| == |n.drivers| && |cms| == |n.controllers|
            ==> r == Added(n, name, DriverMatrices(drivers, matrices, scene).value.value, cms, driven, enable, scene)
  {
    match DriverMatrices(drivers, matrices, scene)
    case Err(e) => Err(e)
    case Ok(ms) =>
      if n.drivers == [] then Err(InvalidPose)
      else
        match HasPose(n, name)
        case Err(e) => Err(e)
        case Ok(taken) =>
          if taken then Err(InvalidPose)
          else if ms.None? then Err(TypeError)
          else if |ms.value| != |n.drivers| then Err(InvalidPose)
          else if |cms| != |n.controllers| then Err(InvalidPose)
          else Added(n, name, ms.value, cms, driven, enable, scene)
  }

  /** What `add_pose` writes once its checks have passed. */
  function Added(n: Network, name: string, ms: seq<Matrix>, cms: seq<Matrix>, driven: Driven, enable: bool, scene: Scene)
    : (r: Result<Network>)
    ensures r.Ok? <==> forall j :: 0 <= j < |n.blenders| ==> RecordedMatrix(driven, n.blenders[j], scene).Ok?
    ensures r.Ok? ==> r.value == n.(targets := n.targets + [Target(name, ms, cms, enable)],
                                     outputs := if n.outputs <= |n.targets| then |n.targets| + 1 else n.outputs,
                                     blenders := r.value.blenders)
    ensures r.Ok? ==> |r.value.blenders| == |n.blenders|
    ensures r.Ok? ==> forall j :: 0 <= j < |n.blenders| ==>
      AddPoseToBlender(n.blenders[j], |n.targets|, name, driven, OutputPlug(n, |n.targets|), scene) == Ok(r.value.blenders[j])
  {
    var index := |n.targets|;
    match MapResult(n.blenders, b => AddPoseToBlender(b, index, name, driven, OutputPlug(n, index), scene))
    case Err(e) => Err(e)
    case Ok(bs) =>
      Ok(n.(targets := n.targets + [Target(name, ms, cms, enable)],
            outputs := if n.outputs <= index then index + 1 else n.outputs,
            blenders := bs))
  }

  /** Blender slots `0 .. count - 1` hold a pose and weight `k` is connected to output `k`. */
  predicate InStep(n: Network, b: Blender, count: nat)
  {
    Filled(b.poses, count) && forall k :: 0 <= k < count ==> At(b.weights, k) == Some(WeightPlug(OutputPlug(n, k)))
  }

  /** The lockstep between the solver's targets, its outputs and every blender's pose and weight slots. */
  predicate Lockstep(n: Network)
  {
    n.outputs >= |n.targets| && forall j :: 0 <= j < |n.blenders| ==> InStep(n, n.blenders[j], |n.targets|)
  }

  /**
   * A successful `add_pose` appends the target at index `num_poses()` and
   * leaves the earlier ones as they were; output `num_poses()` exists
   * afterwards; every blender records slot `num_poses()` from the supplied
   * driven matrix, else from its driven transform, and connects its weight
   * there to that output. Nothing else changes.
   */
  lemma AddPoseAppends(n: Network, name: string, drivers: seq<string>, matrices: Option<seq<Matrix>>, cms: seq<Matrix>,
                       driven: Driven, enable: bool, scene: Scene, j: nat)
    requires AddPose(n, name, drivers, matrices, cms, driven, enable, scene).Ok?
    requires j < |n.blenders|
    ensures var r := AddPose(n, name, drivers, matrices, cms, driven, enable, scene).value;
      && r.targets == n.targets + [Target(name, DriverMatrices(drivers, matrices, scene).value.value, cms, enable)]
      && r == n.(targets := r.targets, outputs := r.outputs, blenders := r.blenders)
      && r.outputs == (if n.outputs <= |n.targets| then |n.targets| + 1 else n.outputs)
      && |r.blenders| == |n.blenders|
      && RecordedMatrix(driven, n.blenders[j], scene).Ok?
      && r.blenders[j] == n.blenders[j].(
           poses := Put(n.blenders[j].poses, |n.targets|, RecordedMatrix(driven, n.blenders[j], scene).value),
           weights := Put(n.blenders[j].weights, |n.targets|, WeightPlug(OutputPlug(n, |n.targets|))))
  {
  }

  /** With every driven transform present, every blender can record the new pose. */
  lemma AddedOk(n: Network, name: string, ms: seq<Matrix>, cms: seq<Matrix>, driven: Driven, enable: bool, scene: Scene)
    requires Coherent(n, scene)
    ensures Added(n, name, ms, cms, driven, enable, scene).Ok?
  {
    forall j | 0 <= j < |n.blenders| ensures RecordedMatrix(driven, n.blenders[j], scene).Ok? {
      assert Ready(n.blenders[j], scene);
    }
  }

  /**
   * On a valid, well-formed network whose nodes all exist, `add_pose` fails
   * exactly on its checks: the drivers' matrices cannot be read, there are
   * no drivers, the name is taken, no matrices, or a count mismatch.
   */
  lemma AddPoseSucceeds(n: Network, name: string, drivers: seq<string>, matrices: Option<seq<Matrix>>, cms: seq<Matrix>,
                        driven: Driven, enable: bool, scene: Scene)
    requires Valid(n) && WellFormed(n) && Coherent(n, scene)
    ensures AddPose(n, name, drivers, matrices, cms, driven, enable, scene).Ok? <==>
      && DriverMatrices(drivers, matrices, scene).Ok?
      && n.drivers != []
      && (name == "" || PoseIndex(n.targets, name) == -1)
      && DriverMatrices(drivers, matrices, scene).value.Some?
      && |DriverMatrices(drivers, matrices, scene).value.value| == |n.drivers|
      && |cms| == |n.controllers|
  {
    HasPoseExact(n, name);
    var dm := DriverMatrices(drivers, matrices, scene);
    if dm.Ok? && dm.value.Some? {
      AddedOk(n, name, dm.value.value, cms, driven, enable, scene);
    }
  }

  /**
   * Appending a target of a new, non-empty name keeps the names valid, and
   * the new pose is found at index `num_poses()`.
   */
  lemma AddedKeepsNames(n: Network, name: string, ms: seq<Matrix>, cms: seq<Matrix>, driven: Driven, enable: bool,
                        scene: Scene)
    requires Valid(n) && name != "" && PoseIndex(n.targets, name) == -1
    requires Added(n, name, ms, cms, driven, enable, scene).Ok?
    ensures Valid(Added(n, name, ms, cms, driven, enable, scene).value)
    ensures PoseIndex(Added(n, name, ms, cms, driven, enable, scene).value.targets, name) == |n.targets|
  {
    var t := Target(name, ms, cms, enable);
    var r := Added(n, name, ms, cms, driven, enable, scene).value;
    assert r.targets == n.targets + [t];
    PoseIndexAppend(n.targets, t);
    ValidAppend(n, r, t);
  }

  lemma ValidAppend(n: Network, r: Network, t: Target)
    requires Valid(n) && t.name != "" && PoseIndex(n.targets, t.name) == -1
    requires r.targets == n.targets + [t]
    ensures Valid(r)
  {
    assert forall i :: 0 <= i < |n.targets| ==> r.targets[i] == n.targets[i];
  }

  /** A name no target carries is found at the end once a target with it is appended. */
  lemma PoseIndexAppend(ts: seq<Target>, t: Target)
    requires PoseIndex(ts, t.name) == -1
    ensures PoseIndex(ts + [t], t.name) == |ts|
    ensures forall i :: 0 <= i < |ts| ==> (ts + [t])[i] == ts[i]
  {
    var us := ts + [t];
    assert us[|ts|] == t;
  }

  /** Appending a target with one matrix per driver and per controller keeps the network well formed. */
  lemma AddedKeepsShape(n: Network, name: string, ms: seq<Matrix>, cms: seq<Matrix>, driven: Driven, enable: bool,
                        scene: Scene)
    requires WellFormed(n) && ms != [] && |ms| == |n.drivers| && |cms| == |n.controllers|
    requires Added(n, name, ms, cms, driven, enable, scene).Ok?
    ensures WellFormed(Added(n, name, ms, cms, driven, enable, scene).value)
  {
    var r := Added(n, name, ms, cms, driven, enable, scene).value;
    assert forall i :: 0 <= i < |n.targets| ==> r.targets[i] == n.targets[i];
  }

  /** Appending keeps the lockstep, the blenders' driven transforms and the nodes referred to. */
  lemma AddedKeepsLockstep(n: Network, name: string, ms: seq<Matrix>, cms: seq<Matrix>, driven: Driven, enable: bool,
                           scene: Scene)
    requires Lockstep(n) && Added(n, name, ms, cms, driven, enable, scene).Ok?
    ensures var r := Added(n, name, ms, cms, driven, enable, scene).value;
      && Lockstep(r)
      && (forall j :: 0 <= j < |r.blenders| ==> r.blenders[j].driven == n.blenders[j].driven)
      && (DistinctDriven(n.blenders) ==> DistinctDriven(r.blenders))
      && (Coherent(n, scene) ==> Coherent(r, scene))
  {
    var r := Added(n, name, ms, cms, driven, enable, scene).value;
    var c := |n.targets|;
    forall j | 0 <= j < |r.blenders|
      ensures InStep(r, r.blenders[j], c + 1) && r.blenders[j].driven == n.blenders[j].driven
    {
      var b := n.blenders[j];
      InStepPut(n, r, b, c, RecordedMatrix(driven, b, scene).value);
    }
    LockstepFrom(n, r);
  }

  /** A blender in step with `count` targets is in step with one more once it records slot `count`. */
  lemma InStepPut(n: Network, r: Network, b: Blender, count: nat, m: Matrix)
    requires InStep(n, b, count) && r.name == n.name
    ensures InStep(r, b.(poses := Put(b.poses, count, m), weights := Put(b.weights, count, WeightPlug(OutputPlug(n, count)))),
                   count + 1)
  {
    FilledPut(b.poses, count, m);
  }

  /** The network-wide facts follow from each blender's. */
  lemma LockstepFrom(n: Network, r: Network)
    requires |r.blenders| == |n.blenders| && r.drivers == n.drivers && r.controllers == n.controllers
    requires r.outputs >= |r.targets|
    requires forall j :: 0 <= j < |r.blenders| ==> InStep(r, r.blenders[j], |r.targets|)
    requires forall j :: 0 <= j < |r.blenders| ==> r.blenders[j].driven == n.blenders[j].driven
    ensures Lockstep(r)
    ensures DistinctDriven(n.blenders) ==> DistinctDriven(r.blenders)
    ensures forall scene: Scene :: Coherent(n, scene) ==> Coherent(r, scene)
  {
    forall scene: Scene | Coherent(n, scene) ensures Coherent(r, scene) {
      assert forall j :: 0 <= j < |r.blenders| ==> Ready(n.blenders[j], scene);
    }
  }

  /**
   * A successful `add_pose` of a new, non-empty name keeps the network
   * valid, well formed, in lockstep with its blenders, referring to
   * existing nodes, and the new pose is found at index `num_poses()`.
   */
  lemma AddPoseKeeps(n: Network, name: string, drivers: seq<string>, matrices: Option<seq<Matrix>>, cms: seq<Matrix>,
                     driven: Driven, enable: bool, scene: Scene)
    requires Valid(n) && WellFormed(n) && Lockstep(n) && name != ""
    requires AddPose(n, name, drivers, matrices, cms, driven, enable, scene).Ok?
    ensures var r := AddPose(n, name, drivers, matrices, cms, driven, enable, scene).value;
      && Valid(r) && WellFormed(r) && Lockstep(r)
      && PoseIndex(r.targets, name) == |n.targets|
      && |r.targets| == |n.targets| + 1
      && (DistinctDriven(n.blenders) ==> DistinctDriven(r.blenders))
      && (Coherent(n, scene) ==> Coherent(r, scene))
  {
    var ms := DriverMatrices(drivers, matrices, scene).value.value;
    AddedKeepsNames(n, name, ms, cms, driven, enable, scene);
    AddedKeepsShape(n, name, ms, cms, driven, enable, scene);
    AddedKeepsLockstep(n, name, ms, cms, driven, enable, scene);
  }
}
