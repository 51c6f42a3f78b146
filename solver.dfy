/**
 * `RBFNode` (`v2/model/api.py`) as an object whose fields are the solver
 * node's attributes and its connected pose blenders. Each method does what
 * the Python method does, step by step, and is proved to end in the state
 * the value model (`SolverModel`, `SolverPoses`, `SolverDelete`,
 * `SolverWiring`) gives for the operation.
 */
module Solver {
  import opened Wrappers
  import opened Host
  import opened BlenderModel
  import opened SolverModel
  import SolverPoses
  import SolverDelete
  import SolverWiring
  import OD = OrderedDict

  /** The operation's result is the model's, and so is the new state when it succeeds. */
  predicate Settled(r: Outcome, now: Network, expected: Result<Network>)
  {
    match expected
    case Ok(m) => r == Done && now == m
    case Err(e) => r == Err(e)
  }

  /** The operation's result and new state are the model's; a failure changes nothing. */
  predicate Applied(r: Outcome, now: Network, expected: Result<Network>, before: Network)
  {
    match expected
    case Ok(m) => r == Done && now == m
    case Err(e) => r == Err(e) && now == before
  }

  class RbfNode {
    var name: string
    var drivers: seq<string>
    var rest: seq<Matrix>
    var controllers: seq<string>
    var targets: seq<Target>
    var outputs: nat
    var blenders: seq<Blender>

    function Net(): Network
      reads this
    {
      Network(name, drivers, rest, controllers, targets, outputs, blenders)
    }

    /** `RBFNode.create`: a solver with nothing connected. */
    constructor (nodeName: string)
      ensures Net() == EmptyNetwork(nodeName)
    {
      name := nodeName;
      drivers := [];
      rest := [];
      controllers := [];
      targets := [];
      outputs := 0;
      blenders := [];
    }

    /**
     * The loop over `listConnections(poseBlenders)` that applies one blender
     * operation to each blender in turn. A failure stops it: the blenders
     * before the failing one have been changed, the others not.
     */
    method ForEachBlender(f: Blender -> Result<Blender>) returns (r: Outcome)
      modifies this
      ensures Net() == old(Net()).(blenders := blenders) && |blenders| == |old(blenders)|
      ensures MapResult(old(blenders), f).Ok? ==> r == Done && blenders == MapResult(old(blenders), f).value
      ensures MapResult(old(blenders), f).Err? ==> r == Err(MapResult(old(blenders), f).error)
      ensures r.Err? ==> exists k ::
        && 0 <= k < |blenders| && f(old(blenders)[k]).Err? && blenders[k..] == old(blenders)[k..]
        && forall q :: 0 <= q < k ==> f(old(blenders)[q]) == Ok(blenders[q])
    {
      ghost var before := blenders;
      ghost var all := MapResult(before, f);
      var j := 0;
      while j < |blenders|
        invariant 0 <= j <= |blenders| == |before|
        invariant Net() == old(Net()).(blenders := blenders)
        invariant blenders[j..] == before[j..]
        invariant forall q :: 0 <= q < j ==> f(before[q]) == Ok(blenders[q])
      {
        assert blenders[j] == before[j];
        var b := f(blenders[j]);
        if b.Err? {
          assert all.Err?;
          ghost var k :| 0 <= k < |before| && f(before[k]) == Err(all.error) && forall q :: 0 <= q < k ==> f(before[q]).Ok?;
          assert k == j;
          return Err(b.error);
        }
        blenders := blenders[j := b.value];
        j := j + 1;
      }
      assert all.Ok? && blenders == all.value;
      r := Done;
    }

    /**
     * `add_pose`: the checks first, then every blender records the slot at
     * index `num_poses()` and connects its weight there to the new output;
     * then the target is written.
     */
    method AddPose(poseName: string, ds: seq<string>, matrices: Option<seq<Matrix>>, cms: seq<Matrix>,
                   driven: Driven, enable: bool, scene: Scene) returns (r: Outcome)
      modifies this
      ensures Settled(r, Net(), SolverModel.AddPose(old(Net()), poseName, ds, matrices, cms, driven, enable, scene))
      ensures r.Err? && (forall j :: 0 <= j < |old(blenders)| ==> RecordedMatrix(driven, old(blenders)[j], scene).Ok?)
              ==> Net() == old(Net())
    {
      var ms := DriverMatrices(ds, matrices, scene);
      if ms.Err? {
        return Err(ms.error);
      }
      if drivers == [] {
        return Err(InvalidPose);
      }
      var taken := HasPose(Net(), poseName);
      if taken.Err? {
        return Err(taken.error);
      }
      if taken.value || ms.value.None? || |ms.value.value| != |drivers| || |cms| != |controllers| {
        return if taken.value then Err(InvalidPose) else if ms.value.None? then Err(TypeError) else Err(InvalidPose);
      }
      ghost var n := Net();
      var index := |targets|;
      var plug := OutputPlug(Net(), index);
      r := ForEachBlender(b => AddPoseToBlender(b, index, poseName, driven, plug, scene));
      if r.Err? {
        return;
      }
      targets := targets + [Target(poseName, ms.value.value, cms, enable)];
      if outputs <= index {
        outputs := index + 1;
      }
      assert Net() == SolverModel.Added(n, poseName, ms.value.value, cms, driven, enable, scene).value;
    }

    /**
     * `update_pose`: an unknown name raises RuntimeError; otherwise the
     * target's matrices are overwritten, then every blender re-records the
     * pose's slot from its driven transform.
     */
    method UpdatePose(poseName: string, ds: seq<string>, matrices: Option<seq<Matrix>>, cms: seq<Matrix>, scene: Scene)
      returns (r: Outcome)
      modifies this
      ensures Settled(r, Net(), SolverPoses.UpdatePose(old(Net()), poseName, ds, matrices, cms, scene))
    {
      var ms := DriverMatrices(ds, matrices, scene);
      if ms.Err? {
        return Err(ms.error);
      }
      var found := HasPose(Net(), poseName);
      if found.Err? {
        return Err(found.error);
      }
      if !found.value {
        return Err(RuntimeError);
      }
      var i := PoseIndex(targets, poseName);
      if ms.value.None? {
        return Err(TypeError);
      }
      ghost var n := Net();
      targets := targets[i := SolverPoses.Updated(targets[i], ms.value.value, cms)];
      r := ForEachBlender(b => SetPose(b, i, "", true, None, scene));
      assert r.Ok? ==> Net() == SolverPoses.Rewritten(n, i, ms.value.value, cms, blenders);
    }

    /** `add_pose_from_current`: the current matrices of the drivers and controllers, as a new pose or an update. */
    method AddPoseFromCurrent(poseName: string, update: bool, scene: Scene) returns (r: Outcome)
      modifies this
      ensures Settled(r, Net(), SolverPoses.AddPoseFromCurrent(old(Net()), poseName, update, scene))
    {
      var ms := LocalMatrices(scene, drivers);
      if ms.Err? {
        return Err(ms.error);
      }
      var cms := SolverPoses.ControllerMatrices(Net(), scene);
      if cms.Err? {
        return Err(cms.error);
      }
      if update {
        r := UpdatePose(poseName, drivers, Some(ms.value), cms.value, scene);
      } else {
        r := AddPose(poseName, drivers, Some(ms.value), cms.value, [], true, scene);
      }
    }

    /**
     * `delete_pose`: with the records of all poses read first, every target
     * is removed from the last one down, the pose's record dropped, every
     * blender's slot deleted, and the other records added back in order.
     */
    method DeletePose(poseName: string, scene: Scene) returns (r: Outcome)
      modifies this
      ensures Settled(r, Net(), SolverDelete.DeletePose(old(Net()), poseName, scene))
    {
      var found := HasPose(Net(), poseName);
      if found.Err? {
        return Err(found.error);
      }
      if !found.value {
        return Err(InvalidPose);
      }
      var poses := AllPoses(Net()).value;
      var index := PoseIndex(targets, poseName) as nat;
      ghost var n := Net();
      ClearTargets();
      poses := OD.Remove(poses, poseName);
      r := ForEachBlender((b: Blender) =>
        var d := BlenderModel.DeletePose(b, index, "");
        if d.0.Ok? then Ok(d.1) else Err(d.0.error));
      if r.Err? {
        return;
      }
      assert SolverDelete.ReAdd(Net(), poses, scene) == SolverDelete.DeletePose(n, poseName, scene);
      r := ReAddPoses(poses, scene);
    }

    /** `removeMultiInstance` of every target, from the last index down. */
    method ClearTargets()
      modifies this
      ensures Net() == old(Net()).(targets := [])
    {
      var k := |targets|;
      while k > 0
        invariant 0 <= k <= |old(targets)| && targets == old(targets)[..k]
        invariant Net() == old(Net()).(targets := targets)
      {
        targets := targets[..k - 1];
        k := k - 1;
      }
    }

    /** The loop of `delete_pose` that adds each surviving record back with `add_pose`. */
    method ReAddPoses(poses: Poses, scene: Scene) returns (r: Outcome)
      modifies this
      ensures Settled(r, Net(), SolverDelete.ReAdd(old(Net()), poses, scene))
    {
      ghost var expected := SolverDelete.ReAdd(Net(), poses, scene);
      var q := 0;
      while q < |poses|
        invariant 0 <= q <= |poses|
        invariant SolverDelete.ReAdd(Net(), poses[q..], scene) == expected
      {
        var p := poses[q].1;
        ghost var before := Net();
        r := AddPose(poses[q].0, [], Some(p.drivers), p.controllers, p.driven, p.enabled, scene);
        assert poses[q..][0] == poses[q] && poses[q..][1..] == poses[q + 1..];
        if r.Err? {
          return;
        }
        SolverDelete.ReAddFirst(before, poses[q..], Net(), scene);
        q := q + 1;
      }
      r := Done;
    }

    /** `is_pose_muted`: a name is looked up when no index is given; neither raises InvalidPoseIndex. */
    method IsPoseMuted(poseName: string, index: int) returns (r: Result<bool>)
      ensures r == SolverPoses.IsPoseMuted(Net(), poseName, index)
    {
      var i := index;
      if index < 0 && poseName != "" {
        i := PoseIndex(targets, poseName);
      } else if poseName == "" && index < 0 {
        return Err(InvalidPoseIndex);
      }
      if !(0 <= i < |targets|) {
        return Err(RuntimeError);
      }
      r := Ok(!targets[i].enabled);
    }

    /** `mute_pose`: writes `targetEnable` of the resolved index and returns the new enabled state. */
    method MutePose(poseName: string, index: int, mute: Option<bool>) returns (r: Result<bool>)
      modifies this
      ensures match SolverPoses.MutePose(old(Net()), poseName, index, mute)
              case Ok(res) => r == Ok(res.0) && Net() == res.1
              case Err(e) => r == Err(e) && Net() == old(Net())
    {
      var i := index;
      if index < 0 && poseName != "" {
        i := PoseIndex(targets, poseName);
      } else if poseName == "" && index < 0 {
        return Err(InvalidPoseIndex);
      }
      var muted: bool;
      if mute.None? {
        var current := IsPoseMuted("", i);
        if current.Err? {
          return Err(current.error);
        }
        muted := !current.value;
      } else {
        muted := mute.value;
      }
      if !(0 <= i < |targets|) {
        return Err(RuntimeError);
      }
      targets := targets[i := targets[i].(enabled := !muted)];
      r := Ok(!muted);
    }

    /** `rename_pose`: without poses nothing happens; an unknown index or a taken name raises RuntimeError. */
    method RenamePose(index: int, poseName: string) returns (r: Outcome)
      modifies this
      ensures Applied(r, Net(), SolverPoses.RenamePose(old(Net()), index, poseName), old(Net()))
    {
      if targets == [] {
        return Done;
      }
      if !(0 <= index < |targets|) {
        return Err(RuntimeError);
      }
      var taken := HasPose(Net(), poseName);
      if taken.Err? {
        return Err(taken.error);
      }
      if taken.value {
        return Err(RuntimeError);
      }
      targets := targets[index := targets[index].(name := poseName)];
      r := Done;
    }

    /** `edit_solver`: every blender's `edit` is set, in connection order. */
    method EditSolver(edit: bool, scene: Scene) returns (r: Outcome)
      modifies this
      ensures Settled(r, Net(), SolverPoses.EditSolver(old(Net()), edit, scene))
    {
      r := ForEachBlender(b => SetEdit(b, edit, scene));
    }

    /** `get_solver_edit_status`: the first blender found editing answers True. */
    method GetSolverEditStatus() returns (r: bool)
      ensures r <==> SolverPoses.EditStatus(Net())
    {
      var j := 0;
      while j < |blenders|
        invariant 0 <= j <= |blenders|
        invariant forall q :: 0 <= q < j ==> !IsEditing(blenders[q])
      {
        if IsEditing(blenders[j]) {
          return true;
        }
        j := j + 1;
      }
      r := false;
    }

    /**
     * `add_driver`: refused once more than one pose exists; otherwise each
     * node in turn is checked, connected at index `num_drivers()` and given
     * its current matrix as rest matrix. A refused node stops the loop.
     */
    method AddDriver(nodes: seq<string>, scene: Scene) returns (r: Outcome)
      modifies this
      ensures (r, Net()) == SolverWiring.AddDriver(old(Net()), nodes, scene)
    {
      if |targets| > 1 {
        return Err(RuntimeError);
      }
      ghost var n := Net();
      var ds, rs := drivers, rest;
      var k := 0;
      while k < |nodes|
        invariant 0 <= k <= |nodes| && Net() == n
        invariant SolverWiring.Connect(ds, nodes[k..], scene) == SolverWiring.Connect(n.drivers, nodes, scene)
        invariant RestsOf(rs, n.rest, ds, |n.drivers|, scene)
      {
        var node := nodes[k];
        if !scene.Exists(node) || !scene.IsTransform(node) || node in ds {
          ConnectRefused(ds, nodes, k, scene);
          AddDriverResult(n, nodes, Err(RuntimeError), ds, rs, scene);
          drivers, rest := ds, rs;
          return Err(RuntimeError);
        }
        ConnectAccepted(ds, nodes, k, scene);
        RestStep(n.rest, rs, ds, |n.drivers|, node, scene);
        ds := ds + [node];
        rs := rs + [scene.transforms[node]];
        k := k + 1;
      }
      AddDriverResult(n, nodes, Done, ds, rs, scene);
      drivers, rest := ds, rs;
      r := Done;
    }

    /** `add_controller`: refused once any pose exists; otherwise each node in turn is checked and connected. */
    method AddController(nodes: seq<string>, scene: Scene) returns (r: Outcome)
      modifies this
      ensures (r, Net()) == SolverWiring.AddController(old(Net()), nodes, scene)
    {
      if |targets| > 0 {
        return Err(RuntimeError);
      }
      ghost var n := Net();
      var k := 0;
      while k < |nodes|
        invariant 0 <= k <= |nodes|
        invariant SolverWiring.Connect(controllers, nodes[k..], scene) == SolverWiring.Connect(n.controllers, nodes, scene)
        invariant Net() == n.(controllers := controllers)
      {
        var node := nodes[k];
        if !scene.Exists(node) || !scene.IsTransform(node) || node in controllers {
          ConnectRefused(controllers, nodes, k, scene);
          return Err(RuntimeError);
        }
        ConnectAccepted(controllers, nodes, k, scene);
        controllers := controllers + [node];
        k := k + 1;
      }
      r := Done;
    }

    /**
     * `remove_drivers`: walking the drivers from the last index down, each
     * one is disconnected (with its rest matrix and every target) and kept
     * unless it is to be removed; the kept ones are then reconnected at
     * indices 0, 1, ... with their current matrices as rest matrices, and
     * `default` is re-captured when any driver is left.
     */
    method RemoveDrivers(nodes: seq<string>, scene: Scene) returns (r: Outcome)
      requires forall i :: 0 <= i < |drivers| ==> scene.Exists(drivers[i])
      requires SolverWiring.Rested(Net())
      modifies this
      ensures Settled(r, Net(), SolverWiring.RemoveDrivers(old(Net()), nodes, scene))
    {
      var removed := SolverWiring.ExistingNodes(nodes, scene);
      var remaining := DisconnectDrivers(removed);
      r := ReconnectDrivers(remaining, scene);
      if r.Ok? && drivers != [] {
        r := AddPoseFromCurrent("default", false, scene);
      }
    }

    /** The first loop of `remove_drivers`: every driver, its rest matrix and every target are disconnected. */
    method DisconnectDrivers(removed: seq<string>) returns (remaining: seq<string>)
      requires SolverWiring.Rested(Net())
      modifies this
      ensures remaining == SolverWiring.Remaining(old(drivers), removed)
      ensures Net() == old(Net()).(drivers := [], rest := [], targets := if old(drivers) != [] then [] else old(targets))
    {
      ghost var n := Net();
      var existing, rests := drivers, rest;
      remaining := [];
      var index := |existing|;
      while index > 0
        invariant 0 <= index <= |existing|
        invariant drivers == existing[..index] && rest == rests[..index]
        invariant targets == if index < |existing| then [] else n.targets
        invariant name == n.name && controllers == n.controllers && outputs == n.outputs && blenders == n.blenders
        invariant remaining + SolverWiring.Remaining(existing[..index], removed) == SolverWiring.Remaining(existing, removed)
      {
        var driver := existing[index - 1];
        drivers := existing[..index - 1];
        rest := rests[..index - 1];
        targets := [];
        RemainingStep(existing, index, removed, remaining);
        remaining := remaining + (if driver in removed then [] else [driver]);
        index := index - 1;
      }
    }

    /** The second loop of `remove_drivers`: the kept drivers are connected again, each with its current matrix as rest matrix. */
    method ReconnectDrivers(remaining: seq<string>, scene: Scene) returns (r: Outcome)
      requires drivers == [] && rest == []
      modifies this
      ensures LocalMatrices(scene, remaining).Ok? ==>
        r == Done && Net() == old(Net()).(drivers := remaining, rest := LocalMatrices(scene, remaining).value)
      ensures LocalMatrices(scene, remaining).Err? ==> r == Err(NodeNotFound)
    {
      ghost var n := Net();
      var rs: seq<Matrix> := [];
      var j := 0;
      while j < |remaining|
        invariant 0 <= j <= |remaining| && |rs| == j
        invariant Net() == n.(drivers := remaining[..j], rest := rs)
        invariant forall q :: 0 <= q < j ==> scene.IsTransform(remaining[q]) && rs[q] == scene.transforms[remaining[q]]
      {
        drivers := remaining[..j + 1];
        var m := LocalMatrix(scene, remaining[j]);
        if m.Err? {
          return Err(m.error);
        }
        rs := rs + [m.value];
        rest := rs;
        j := j + 1;
      }
      assert remaining[..j] == remaining;
      r := Done;
    }

    /**
     * `add_driven_transforms`: a node already driving a blender is skipped;
     * for any other a blender is created, its weights connected to the
     * solver's outputs and its edit mode set. A failure stops the loop.
     */
    method AddDrivenTransforms(nodes: seq<string>, edit: bool, elsewhere: set<string>, scene: Scene) returns (r: Outcome)
      modifies this
      ensures (r, Net()) == SolverWiring.AddDrivenTransforms(old(Net()), nodes, edit, elsewhere, scene)
    {
      ghost var expected := SolverWiring.AddDrivenTransforms(Net(), nodes, edit, elsewhere, scene);
      var k := 0;
      while k < |nodes|
        invariant 0 <= k <= |nodes|
        invariant SolverWiring.AddDrivenTransforms(Net(), nodes[k..], edit, elsewhere, scene) == expected
      {
        var node := nodes[k];
        assert nodes[k..][0] == node && nodes[k..][1..] == nodes[k + 1..];
        if !SolverWiring.Connected(Net(), elsewhere, node) {
          var b := SolverWiring.NewBlender(Net(), node, edit, scene);
          if b.Err? {
            return Err(b.error);
          }
          blenders := blenders + [b.value];
        }
        k := k + 1;
      }
      r := Done;
    }
  }

  /** The rest matrices are the old ones followed by the current matrices of the drivers from `start` on. */
  predicate RestsOf(rs: seq<Matrix>, prior: seq<Matrix>, ds: seq<string>, start: nat, scene: Scene)
  {
    && start <= |ds| && (forall i :: start <= i < |ds| ==> ds[i] in scene.transforms)
    && rs == prior + SolverPoses.CurrentMatrices(scene, ds[start..])
  }

  /** What the connection loop of `add_driver` leaves is what the model gives. */
  lemma AddDriverResult(n: Network, nodes: seq<string>, o: Outcome, ds: seq<string>, rs: seq<Matrix>, scene: Scene)
    requires |n.targets| <= 1 && SolverWiring.Connect(n.drivers, nodes, scene) == (o, ds)
    requires RestsOf(rs, n.rest, ds, |n.drivers|, scene)
    ensures SolverWiring.AddDriver(n, nodes, scene) == (o, n.(drivers := ds, rest := rs))
  {
  }

  /** Connecting one more driver appends its current matrix to the rest matrices. */
  lemma RestStep(prior: seq<Matrix>, rs: seq<Matrix>, ds: seq<string>, start: nat, node: string, scene: Scene)
    requires RestsOf(rs, prior, ds, start, scene) && node in scene.transforms
    ensures RestsOf(rs + [scene.transforms[node]], prior, ds + [node], start, scene)
  {
    assert (ds + [node])[start..] == ds[start..] + [node];
    CurrentSnoc(scene, ds[start..], node);
  }

  /** `CurrentMatrices` of one more transform. */
  lemma CurrentSnoc(scene: Scene, ns: seq<string>, x: string)
    requires (forall i :: 0 <= i < |ns| ==> ns[i] in scene.transforms) && x in scene.transforms
    ensures SolverPoses.CurrentMatrices(scene, ns + [x]) == SolverPoses.CurrentMatrices(scene, ns) + [scene.transforms[x]]
  {
  }

  /** A node the connection loop refuses ends it with RuntimeError. */
  lemma ConnectRefused(existing: seq<string>, nodes: seq<string>, k: nat, scene: Scene)
    requires k < |nodes| && (!scene.Exists(nodes[k]) || !scene.IsTransform(nodes[k]) || nodes[k] in existing)
    ensures SolverWiring.Connect(existing, nodes[k..], scene) == (Err(RuntimeError), existing)
  {
    assert nodes[k..][0] == nodes[k];
  }

  /** A node the connection loop accepts is appended, and the loop goes on with the next one. */
  lemma ConnectAccepted(existing: seq<string>, nodes: seq<string>, k: nat, scene: Scene)
    requires k < |nodes| && scene.IsTransform(nodes[k]) && nodes[k] !in existing
    ensures SolverWiring.Connect(existing, nodes[k..], scene) == SolverWiring.Connect(existing + [nodes[k]], nodes[k + 1..], scene)
  {
    assert nodes[k..][0] == nodes[k] && nodes[k..][1..] == nodes[k + 1..];
  }

  /** One step of the walk from the last driver down: the kept list grows by the driver at `index - 1` when it stays. */
  lemma RemainingStep(existing: seq<string>, index: nat, removed: seq<string>, remaining: seq<string>)
    requires 0 < index <= |existing|
    ensures var driver := existing[index - 1];
      (remaining + (if driver in removed then [] else [driver])) + SolverWiring.Remaining(existing[..index - 1], removed)
      == remaining + SolverWiring.Remaining(existing[..index], removed)
  {
    assert existing[..index][..index - 1] == existing[..index - 1];
  }
}
