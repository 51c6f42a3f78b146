/**
 * `RBFNode.delete_pose` (`v2/model/api.py`): every target is removed, each
 * pose blender drops the pose's slot, and the surviving poses are added
 * back one by one from the records `poses()` returned beforehand.
 */
module SolverDelete {
  import opened Wrappers
  import opened Sparse
  import opened Host
  import opened BlenderModel
  import opened SolverModel
  import OD = OrderedDict

  /** Each blender's `delete_pose(index=i)`, in connection order; the first error stops the loop. */
  function DeleteFromBlenders(bs: seq<Blender>, i: nat): (r: Result<seq<Blender>>)
    ensures r.Ok? <==> forall j :: 0 <= j < |bs| ==> BlenderModel.DeletePose(bs[j], i, "").0.Ok?
    ensures r.Ok? ==> |r.value| == |bs| && forall j :: 0 <= j < |bs| ==> r.value[j] == BlenderModel.DeletePose(bs[j], i, "").1
  {
    MapResult(bs, (b: Blender) =>
      var d := BlenderModel.DeletePose(b, i, "");
      if d.0.Ok? then Ok(d.1) else Err(d.0.error))
  }

  /**
   * The loop adding the surviving poses back: `add_pose` of each name with
   * its recorded driver and controller matrices, driven matrices and
   * enable flag, in the order of the records.
   */
  function ReAdd(n: Network, recs: Poses, scene: Scene): Result<Network>
    decreases |recs|
  {
    if recs == [] then Ok(n)
    else
      var p := recs[0].1;
      match AddPose(n, recs[0].0, [], Some(p.drivers), p.controllers, p.driven, p.enabled, scene)
      case Err(e) => Err(e)
      case Ok(m) => ReAdd(m, recs[1..], scene)
  }

  /**
   * `delete_pose`: an unknown name raises InvalidPose (and a `poses()` that
   * raises passes its error on). The records of all poses are read, every
   * target removed, the named record dropped, every blender's slot for the
   * pose deleted, and the other records added back.
   */
  function DeletePose(n: Network, name: string, scene: Scene): (r: Result<Network>)
    ensures HasPose(n, name) == Ok(false) ==> r == Err(InvalidPose)
  {
    match HasPose(n, name)
    case Err(e) => Err(e)
    case Ok(found) =>
      if !found then Err(InvalidPose)
      else
        var i := PoseIndex(n.targets, name) as nat;
        var survivors := OD.Remove(AllPoses(n).value, name);
        match DeleteFromBlenders(n.blenders, i)
        case Err(e) => Err(e)
        case Ok(bs) => ReAdd(n.(targets := [], blenders := bs), survivors, scene)
  }

  /**
   * The source's target loop removes `range(len(poses))`: on a network whose
   * targets carry distinct names that is every target, as the model removes.
   */
  lemma RemovedRangeIsEveryTarget(n: Network)
    requires Valid(n) && WellFormed(n)
    ensures AllPoses(n).Ok? && |AllPoses(n).value| == |n.targets|
  {
    PosesExact(n);
  }

  /** Every blender with the slots after `i` moved down by one. */
  function ShiftedBlenders(bs: seq<Blender>, i: nat): (r: seq<Blender>)
    ensures |r| == |bs|
  {
    seq(|bs|, j requires 0 <= j < |bs| => bs[j].(poses := Shifted(bs[j].poses, i)))
  }

  /** The target the `k`-th survivor of deleting target `i` was. */
  function Source(i: nat, k: nat): nat
  {
    if k < i then k else k + 1
  }

  /** The invariants `delete_pose` relies on. */
  predicate Deletable(n: Network, i: nat)
  {
    Valid(n) && WellFormed(n) && Lockstep(n) && DistinctDriven(n.blenders) && i < |n.targets|
  }

  /** On a network in lockstep every blender can drop slot `i`, moving the later ones down. */
  lemma DeleteFromBlendersShifts(n: Network, i: nat)
    requires Lockstep(n) && i < |n.targets|
    ensures DeleteFromBlenders(n.blenders, i) == Ok(ShiftedBlenders(n.blenders, i))
  {
    forall j | 0 <= j < |n.blenders|
      ensures BlenderModel.DeletePose(n.blenders[j], i, "") == (Done, ShiftedBlenders(n.blenders, i)[j])
    {
      assert InStep(n, n.blenders[j], |n.targets|);
      DeleteShifts(n.blenders[j], |n.targets|, i);
    }
    var r := DeleteFromBlenders(n.blenders, i);
    assert r.value == ShiftedBlenders(n.blenders, i);
  }

  /** The records `delete_pose` adds back: those of every target but `i`, in order. */
  lemma SurvivorRecords(n: Network, i: nat)
    requires Valid(n) && WellFormed(n) && i < |n.targets|
    ensures HasPose(n, n.targets[i].name) == Ok(true)
    ensures PoseIndex(n.targets, n.targets[i].name) == i
    ensures OD.Remove(AllPoses(n).value, n.targets[i].name) == Erase(Records(n), i)
  {
    HasPoseExact(n, n.targets[i].name);
    PosesExact(n);
    IndexOfName(n, i);
    assert Records(n)[i].0 == n.targets[i].name;
    OD.RemoveAt(Records(n), i);
  }

  /**
   * `t` can be added back to `net`: its name is new, its matrices fit, its
   * output exists, and every blender already holds the matrix recorded in
   * `driven` in the next slot, with its weight there connected.
   */
  predicate Refillable(net: Network, t: Target, driven: Driven)
  {
    && Valid(net) && WellFormed(net) && t.name != "" && PoseIndex(net.targets, t.name) == -1
    && net.drivers != [] && TargetWellFormed(net, t) && net.outputs > |net.targets|
    && forall j :: 0 <= j < |net.blenders| ==>
      && SuppliedMatrix(driven, net.blenders[j]).Some?
      && At(net.blenders[j].poses, |net.targets|) == SuppliedMatrix(driven, net.blenders[j])
      && At(net.blenders[j].weights, |net.targets|) == Some(WeightPlug(OutputPlug(net, |net.targets|)))
  }

  /**
   * Adding one pose whose slot every blender already holds, with its weight
   * connected, changes only the targets: `add_pose` writes what is there.
   */
  lemma ReAddOne(net: Network, t: Target, driven: Driven, scene: Scene)
    requires Refillable(net, t, driven)
    ensures AddPose(net, t.name, [], Some(t.values), t.controllers, driven, t.enabled, scene)
            == Ok(net.(targets := net.targets + [t]))
  {
    HasPoseExact(net, t.name);
    ReAddedOk(net, t, driven, scene);
    var r := Added(net, t.name, t.values, t.controllers, driven, t.enabled, scene);
    forall j | 0 <= j < |net.blenders| ensures r.value.blenders[j] == net.blenders[j] {
      ReAddedSlot(net, t, driven, scene, j);
    }
    assert r.value.blenders == net.blenders;
  }

  /** Every blender of a refillable network supplies its recorded matrix, so re-adding succeeds. */
  lemma ReAddedOk(net: Network, t: Target, driven: Driven, scene: Scene)
    requires Refillable(net, t, driven)
    ensures Added(net, t.name, t.values, t.controllers, driven, t.enabled, scene).Ok?
  {
    forall j | 0 <= j < |net.blenders| ensures RecordedMatrix(driven, net.blenders[j], scene).Ok? {
      assert SuppliedMatrix(driven, net.blenders[j]).Some?;
    }
  }

  /** Re-adding leaves blender `j` as it was: its slot already holds the matrix and the weight connection. */
  lemma ReAddedSlot(net: Network, t: Target, driven: Driven, scene: Scene, j: nat)
    requires Refillable(net, t, driven) && j < |net.blenders|
    requires Added(net, t.name, t.values, t.controllers, driven, t.enabled, scene).Ok?
    ensures Added(net, t.name, t.values, t.controllers, driven, t.enabled, scene).value.blenders[j] == net.blenders[j]
  {
    var c := |net.targets|;
    var b := net.blenders[j];
    var m := SuppliedMatrix(driven, b).value;
    assert RecordedMatrix(driven, b, scene) == Ok(m);
    assert |OutputPlug(net, c)| > 0;
    PutSame(b.poses, c, m);
    PutSame(b.weights, c, WeightPlug(OutputPlug(net, c)));
  }

  /** The network once every target is gone, the blenders have dropped slot `i` and `k` survivors are back. */
  function Partial(n: Network, i: nat, k: nat): Network
    requires i < |n.targets| && k < |n.targets|
  {
    n.(targets := Erase(n.targets, i)[..k], blenders := ShiftedBlenders(n.blenders, i))
  }

  /** The first `k` survivors are targets of distinct, increasing sources, none of them `Source(i, k)`. */
  lemma PartialTargets(n: Network, i: nat, k: nat)
    requires i < |n.targets| && k < |n.targets|
    ensures forall a :: 0 <= a < k ==> Partial(n, i, k).targets[a] == n.targets[Source(i, a)]
    ensures k < |n.targets| - 1 ==> Erase(n.targets, i)[k] == n.targets[Source(i, k)]
    ensures k < |n.targets| - 1 ==> forall a :: 0 <= a < k ==> Source(i, a) < Source(i, k) < |n.targets|
  {
  }

  /** A prefix of the survivors is valid and well formed, and the next survivor's name is free. */
  lemma PartialValid(n: Network, i: nat, k: nat)
    requires Valid(n) && WellFormed(n) && i < |n.targets| && k < |n.targets| - 1
    ensures Valid(Partial(n, i, k)) && WellFormed(Partial(n, i, k))
    ensures PoseIndex(Partial(n, i, k).targets, n.targets[Source(i, k)].name) == -1
  {
    PartialTargets(n, i, k);
    var ts := Partial(n, i, k).targets;
    var src := Source(i, k);
    assert forall a :: 0 <= a < k ==> ts[a].name != n.targets[src].name;
    assert forall a, b :: 0 <= a < b < k ==> Source(i, a) < Source(i, b);
  }

  /** After dropping slot `i` of a blender holding `count` poses, slot `k` holds what slot `Source(i, k)` held. */
  lemma ShiftedSlot(b: Blender, count: nat, i: nat, k: nat)
    requires Filled(b.poses, count) && i < count && k < count - 1
    ensures b.poses[Source(i, k)].Some? && At(Shifted(b.poses, i), k) == b.poses[Source(i, k)]
  {
  }

  /** Every shifted blender holds survivor `k`'s recorded matrix in slot `k`, and its weight there is connected. */
  lemma PartialSlots(n: Network, i: nat, k: nat)
    requires Deletable(n, i) && k < |n.targets| - 1
    ensures var net := Partial(n, i, k); var src := Source(i, k);
      forall j :: 0 <= j < |net.blenders| ==>
        && SuppliedMatrix(RecordAt(n, src).driven, net.blenders[j]).Some?
        && At(net.blenders[j].poses, k) == SuppliedMatrix(RecordAt(n, src).driven, net.blenders[j])
        && At(net.blenders[j].weights, k) == Some(WeightPlug(OutputPlug(net, k)))
  {
    var net := Partial(n, i, k);
    var src := Source(i, k);
    var rec := DrivenRecord(n.blenders, src);
    assert OutputPlug(net, k) == OutputPlug(n, k);
    forall j | 0 <= j < |net.blenders|
      ensures && SuppliedMatrix(rec, net.blenders[j]).Some?
              && At(net.blenders[j].poses, k) == SuppliedMatrix(rec, net.blenders[j])
              && At(net.blenders[j].weights, k) == Some(WeightPlug(OutputPlug(n, k)))
    {
      var b := n.blenders[j];
      assert InStep(n, b, |n.targets|);
      ShiftedSlot(b, |n.targets|, i, k);
      DrivenLookup(n.blenders, src, j);
      assert net.blenders[j] == b.(poses := Shifted(b.poses, i));
    }
  }

  /** Adding survivor `k` back extends the prefix by one target and writes nothing else. */
  lemma SurvivorReady(n: Network, i: nat, k: nat, scene: Scene)
    requires Deletable(n, i) && k < |n.targets| - 1
    ensures var s := Erase(Records(n), i)[k];
      AddPose(Partial(n, i, k), s.0, [], Some(s.1.drivers), s.1.controllers, s.1.driven, s.1.enabled, scene)
      == Ok(Partial(n, i, k + 1))
  {
    var src := Source(i, k);
    var t := n.targets[src];
    SurvivorRefillable(n, i, k);
    ReAddOne(Partial(n, i, k), t, RecordAt(n, src).driven, scene);
    SurvivorStep(n, i, k);
  }

  /** Survivor `k` can be added back once the `k` before it are. */
  lemma SurvivorRefillable(n: Network, i: nat, k: nat)
    requires Deletable(n, i) && k < |n.targets| - 1
    ensures Refillable(Partial(n, i, k), n.targets[Source(i, k)], RecordAt(n, Source(i, k)).driven)
  {
    PartialTargets(n, i, k);
    PartialValid(n, i, k);
    PartialSlots(n, i, k);
    assert TargetWellFormed(n, n.targets[0]) && TargetWellFormed(n, n.targets[Source(i, k)]);
  }

  /** Survivor `k`'s record is target `Source(i, k)`'s, and appending that target gives the next prefix. */
  lemma SurvivorStep(n: Network, i: nat, k: nat)
    requires i < |n.targets| && k < |n.targets| - 1
    ensures Erase(Records(n), i)[k] == (n.targets[Source(i, k)].name, RecordAt(n, Source(i, k)))
    ensures Partial(n, i, k).(targets := Partial(n, i, k).targets + [n.targets[Source(i, k)]]) == Partial(n, i, k + 1)
  {
    PartialTargets(n, i, k);
    assert Erase(n.targets, i)[..k] + [n.targets[Source(i, k)]] == Erase(n.targets, i)[..k + 1];
  }

  /** Adding back the survivors from the `k`-th on completes the erased target list. */
  lemma {:induction false} ReAddFrom(n: Network, i: nat, k: nat, scene: Scene)
    requires Deletable(n, i) && k <= |n.targets| - 1
    ensures ReAdd(Partial(n, i, k), Erase(Records(n), i)[k..], scene)
            == Ok(n.(targets := Erase(n.targets, i), blenders := ShiftedBlenders(n.blenders, i)))
    decreases |n.targets| - k
  {
    if k == |n.targets| - 1 {
      assert Erase(n.targets, i)[..k] == Erase(n.targets, i);
    } else {
      var recs := Erase(Records(n), i);
      SurvivorReady(n, i, k, scene);
      assert recs[k..][0] == recs[k] && recs[k..][1..] == recs[k + 1..];
      ReAddFirst(Partial(n, i, k), recs[k..], Partial(n, i, k + 1), scene);
      ReAddFrom(n, i, k + 1, scene);
    }
  }

  /** When the first record is added successfully, the loop goes on from the network it gives. */
  lemma ReAddFirst(n: Network, recs: Poses, m: Network, scene: Scene)
    requires recs != []
    requires AddPose(n, recs[0].0, [], Some(recs[0].1.drivers), recs[0].1.controllers, recs[0].1.driven, recs[0].1.enabled, scene) == Ok(m)
    ensures ReAdd(n, recs, scene) == ReAdd(m, recs[1..], scene)
  {
  }

  /**
   * On a valid, well-formed network in lockstep with blenders of distinct
   * driven transforms, `delete_pose` of a pose erases its target and keeps
   * the others in order with their matrices and enable flags, and every
   * blender drops that slot, moving the later ones down; nothing else
   * changes, not even the weights or outputs.
   */
  lemma DeletePoseErases(n: Network, name: string, scene: Scene)
    requires Valid(n) && WellFormed(n) && Lockstep(n) && DistinctDriven(n.blenders)
    requires name != "" && PoseIndex(n.targets, name) >= 0
    ensures var i := PoseIndex(n.targets, name) as nat;
      DeletePose(n, name, scene) == Ok(n.(targets := Erase(n.targets, i), blenders := ShiftedBlenders(n.blenders, i)))
  {
    var i := PoseIndex(n.targets, name) as nat;
    var recs := Erase(Records(n), i);
    var bs := ShiftedBlenders(n.blenders, i);
    SurvivorRecords(n, i);
    assert HasPose(n, name) == Ok(true) && OD.Remove(AllPoses(n).value, name) == recs;
    DeleteFromBlendersShifts(n, i);
    ReAddFrom(n, i, 0, scene);
    assert recs[0..] == recs;
    assert Partial(n, i, 0) == n.(targets := [], blenders := bs);
  }

  /** On a valid, well-formed network, `delete_pose` of a name no pose carries raises InvalidPose. */
  lemma DeletePoseUnknown(n: Network, name: string, scene: Scene)
    requires Valid(n) && WellFormed(n) && (name == "" || PoseIndex(n.targets, name) == -1)
    ensures DeletePose(n, name, scene) == Err(InvalidPose)
  {
    HasPoseExact(n, name);
  }

  /**
   * After `delete_pose` the network is still valid, well formed and in
   * lockstep, its blenders' driven transforms are unchanged, it has one
   * pose fewer, and the name is gone.
   */
  lemma DeletePoseKeeps(n: Network, name: string, scene: Scene)
    requires Valid(n) && WellFormed(n) && Lockstep(n) && DistinctDriven(n.blenders)
    requires name != "" && PoseIndex(n.targets, name) >= 0
    ensures DeletePose(n, name, scene).Ok?
    ensures var r := DeletePose(n, name, scene).value;
      && Valid(r) && WellFormed(r) && Lockstep(r) && DistinctDriven(r.blenders)
      && |r.targets| == |n.targets| - 1 && r.outputs == n.outputs
      && PoseIndex(r.targets, name) == -1
  {
    var i := PoseIndex(n.targets, name) as nat;
    DeletePoseErases(n, name, scene);
    ErasedKeeps(n, n.(targets := Erase(n.targets, i), blenders := ShiftedBlenders(n.blenders, i)), i);
  }

  /** Erasing target `i` and shifting every blender keeps the network's invariants. */
  lemma ErasedKeeps(n: Network, r: Network, i: nat)
    requires Deletable(n, i)
    requires r == n.(targets := Erase(n.targets, i), blenders := ShiftedBlenders(n.blenders, i))
    ensures Valid(r) && WellFormed(r) && Lockstep(r) && DistinctDriven(r.blenders)
    ensures PoseIndex(r.targets, n.targets[i].name) == -1
  {
    ErasedValid(n, r, i);
    forall j | 0 <= j < |r.blenders| ensures InStep(r, r.blenders[j], |r.targets|) {
      var b := n.blenders[j];
      assert InStep(n, b, |n.targets|);
      DeleteShifts(b, |n.targets|, i);
      assert r.blenders[j] == b.(poses := Shifted(b.poses, i));
    }
    assert forall j :: 0 <= j < |r.blenders| ==> r.blenders[j].driven == n.blenders[j].driven;
  }

  /** Erasing one target keeps the names valid, the targets well formed, and its name is then unknown. */
  lemma ErasedValid(n: Network, r: Network, i: nat)
    requires Valid(n) && WellFormed(n) && i < |n.targets|
    requires r.targets == Erase(n.targets, i) && r.drivers == n.drivers && r.controllers == n.controllers
    ensures Valid(r) && WellFormed(r)
    ensures PoseIndex(r.targets, n.targets[i].name) == -1
  {
    assert forall k :: 0 <= k < |r.targets| ==> r.targets[k] == n.targets[Source(i, k)];
    assert forall a, b :: 0 <= a < b < |r.targets| ==> Source(i, a) < Source(i, b);
  }
}
