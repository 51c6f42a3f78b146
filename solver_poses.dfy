/**
 * The `RBFNode` operations that change existing poses in place
 * (`v2/model/api.py`): `update_pose`, `add_pose_from_current`, muting,
 * renaming, and switching the blenders in and out of edit mode.
 */
module SolverPoses {
  import opened Wrappers
  import opened Sparse
  import opened Host
  import opened BlenderModel
  import opened SolverModel

  // -------------------------------------------------------- update_pose

  /** Writing `written` over `prior` from element 0: later elements of a longer `prior` survive. */
  function Overlay<T>(prior: seq<T>, written: seq<T>): (r: seq<T>)
    ensures |r| == if |written| < |prior| then |prior| else |written|
    ensures forall k :: 0 <= k < |written| ==> r[k] == written[k]
    ensures forall k :: |written| <= k < |prior| ==> r[k] == prior[k]
  {
    if |written| < |prior| then written + prior[|written|..] else written
  }

  /** The target after `update_pose`: the driver matrices, and the controller matrices when any are given, overwritten. */
  function Updated(t: Target, ms: seq<Matrix>, cms: seq<Matrix>): Target
  {
    t.(values := Overlay(t.values, ms), controllers := if cms != [] then Overlay(t.controllers, cms) else t.controllers)
  }

  /**
   * `update_pose`: an unknown name raises RuntimeError, no matrices a
   * TypeError; otherwise the target at the pose's index is overwritten and
   * every blender re-records that slot from its driven transform.
   */
  function UpdatePose(n: Network, name: string, drivers: seq<string>, matrices: Option<seq<Matrix>>, cms: seq<Matrix>,
                      scene: Scene): (r: Result<Network>)
    ensures DriverMatrices(drivers, matrices, scene).Err? ==> r.Err?
    ensures DriverMatrices(drivers, matrices, scene).Ok? && HasPose(n, name) == Ok(false) ==> r == Err(RuntimeError)
    ensures r.Ok? ==> HasPose(n, name) == Ok(true) && DriverMatrices(drivers, matrices, scene).Ok?
    ensures r.Ok? ==> DriverMatrices(drivers, matrices, scene).value.Some?
    ensures r.Ok? ==> r.value == Rewritten(n, PoseIndex(n.targets, name), DriverMatrices(drivers, matrices, scene).value.value,
                                           cms, r.value.blenders)
    ensures DriverMatrices(drivers, matrices, scene).Ok? && DriverMatrices(drivers, matrices, scene).value.Some?
            && HasPose(n, name) == Ok(true) ==>
            (r.Ok? <==> forall j :: 0 <= j < |n.blenders| ==> DrivenMatrix(n.blenders[j], scene).Ok?)
  {
    match DriverMatrices(drivers, matrices, scene)
    case Err(e) => Err(e)
    case Ok(ms) =>
      match HasPose(n, name)
      case Err(e) => Err(e)
      case Ok(found) =>
        if !found then Err(RuntimeError)
        else
          var i := PoseIndex(n.targets, name);
          if ms.None? then Err(TypeError)
          else
            match MapResult(n.blenders, b => SetPose(b, i, "", true, None, scene))
            case Err(e) => Err(e)
            case Ok(bs) => Ok(Rewritten(n, i, ms.value, cms, bs))
  }

  /** The network with target `i` updated and the given blenders. */
  function Rewritten(n: Network, i: int, ms: seq<Matrix>, cms: seq<Matrix>, bs: seq<Blender>): Network
  {
    if 0 <= i < |n.targets| then n.(targets := n.targets[i := Updated(n.targets[i], ms, cms)], blenders := bs)
    else n.(blenders := bs)
  }

  /**
   * On a valid, well-formed network whose nodes all exist, `update_pose`
   * succeeds exactly when the matrices can be had and a pose has the name.
   */
  lemma UpdatePoseSucceeds(n: Network, name: string, drivers: seq<string>, matrices: Option<seq<Matrix>>,
                           cms: seq<Matrix>, scene: Scene)
    requires Valid(n) && WellFormed(n) && Coherent(n, scene)
    ensures UpdatePose(n, name, drivers, matrices, cms, scene).Ok? <==>
      && DriverMatrices(drivers, matrices, scene).Ok?
      && DriverMatrices(drivers, matrices, scene).value.Some?
      && name != "" && PoseIndex(n.targets, name) >= 0
  {
    HasPoseExact(n, name);
    assert forall j :: 0 <= j < |n.blenders| ==> Ready(n.blenders[j], scene);
  }

  /**
   * A successful `update_pose` keeps the pose at its index and the number of
   * poses; only that target's matrices change, and every blender's slot at
   * that index now holds its driven transform's current matrix.
   */
  lemma UpdatePoseWrites(n: Network, name: string, drivers: seq<string>, matrices: Option<seq<Matrix>>,
                         cms: seq<Matrix>, scene: Scene, j: nat)
    requires UpdatePose(n, name, drivers, matrices, cms, scene).Ok? && j < |n.blenders|
    ensures var r := UpdatePose(n, name, drivers, matrices, cms, scene).value;
      var i := PoseIndex(n.targets, name);
      && 0 <= i < |n.targets|
      && r.targets == n.targets[i := Updated(n.targets[i], DriverMatrices(drivers, matrices, scene).value.value, cms)]
      && |r.blenders| == |n.blenders|
      && DrivenMatrix(n.blenders[j], scene).Ok?
      && r.blenders[j] == n.blenders[j].(poses := Put(n.blenders[j].poses, i, DrivenMatrix(n.blenders[j], scene).value))
  {
    var i := PoseIndex(n.targets, name);
    var f := b => SetPose(b, i, "", true, None, scene);
    var bs := MapResult(n.blenders, f);
    assert bs.Ok? && f(n.blenders[j]) == Ok(bs.value[j]);
  }

  /**
   * A successful `update_pose` with one matrix per driver and, when any are
   * given, one per controller keeps the network valid, well formed and in
   * lockstep with its blenders; names and indices do not move.
   */
  lemma UpdatePoseKeeps(n: Network, name: string, drivers: seq<string>, matrices: Option<seq<Matrix>>,
                        cms: seq<Matrix>, scene: Scene)
    requires Valid(n) && WellFormed(n) && Lockstep(n)
    requires UpdatePose(n, name, drivers, matrices, cms, scene).Ok?
    requires |DriverMatrices(drivers, matrices, scene).value.value| == |n.drivers|
    requires cms == [] || |cms| == |n.controllers|
    ensures var r := UpdatePose(n, name, drivers, matrices, cms, scene).value;
      && Valid(r) && WellFormed(r) && Lockstep(r)
      && |r.targets| == |n.targets|
      && (forall k :: 0 <= k < |n.targets| ==> r.targets[k].name == n.targets[k].name)
  {
    var r := UpdatePose(n, name, drivers, matrices, cms, scene).value;
    var i := PoseIndex(n.targets, name);
    var c := |n.targets|;
    forall j | 0 <= j < |n.blenders| ensures InStep(r, r.blenders[j], c) && r.blenders[j].driven == n.blenders[j].driven {
      UpdatePoseWrites(n, name, drivers, matrices, cms, scene, j);
      assert InStep(n, n.blenders[j], c);
      FilledOverwrite(n.blenders[j].poses, c, i, DrivenMatrix(n.blenders[j], scene).value);
    }
    UpdatedShape(n, r, i, DriverMatrices(drivers, matrices, scene).value.value, cms);
    LockstepFrom(n, r);
  }

  /** Overwriting an existing element keeps an array filled. */
  lemma FilledOverwrite<T>(a: Multi<T>, count: nat, i: nat, v: T)
    requires Filled(a, count) && i < count
    ensures Filled(Put(a, i, v), count)
  {
    var r := Put(a, i, v);
    forall k | 0 <= k < |r| ensures r[k].Some? <==> k < count {
      assert At(r, k) == r[k] && (k != i ==> At(a, k) == a[k]);
    }
  }

  /** Updating one target with well-sized matrices keeps names, validity and well-formedness. */
  lemma UpdatedShape(n: Network, r: Network, i: nat, ms: seq<Matrix>, cms: seq<Matrix>)
    requires Valid(n) && WellFormed(n) && i < |n.targets|
    requires r.targets == n.targets[i := Updated(n.targets[i], ms, cms)]
    requires r.drivers == n.drivers && r.controllers == n.controllers
    requires |ms| == |n.drivers| && (cms == [] || |cms| == |n.controllers|)
    ensures Valid(r) && WellFormed(r)
    ensures forall k :: 0 <= k < |n.targets| ==> r.targets[k].name == n.targets[k].name
  {
    assert TargetWellFormed(n, n.targets[i]);
  }

  // ------------------------------------------------ add_pose_from_current

  /** The controllers' current matrices when there are controllers (`None`, the empty list, otherwise). */
  function ControllerMatrices(n: Network, scene: Scene): Result<seq<Matrix>>
  {
    if n.controllers != [] then LocalMatrices(scene, n.controllers) else Ok([])
  }

  /**
   * `add_pose_from_current`: the drivers' and controllers' current matrices
   * become a new pose, or replace the named one when `update` is set.
   */
  function AddPoseFromCurrent(n: Network, name: string, update: bool, scene: Scene): (r: Result<Network>)
    ensures LocalMatrices(scene, n.drivers).Err? ==> r == Err(NodeNotFound)
    ensures LocalMatrices(scene, n.drivers).Ok? && ControllerMatrices(n, scene).Ok? ==>
      r == (if update then UpdatePose(n, name, n.drivers, Some(LocalMatrices(scene, n.drivers).value),
                                      ControllerMatrices(n, scene).value, scene)
            else AddPose(n, name, n.drivers, Some(LocalMatrices(scene, n.drivers).value),
                         ControllerMatrices(n, scene).value, [], true, scene))
  {
    match LocalMatrices(scene, n.drivers)
    case Err(e) => Err(e)
    case Ok(ms) =>
      match ControllerMatrices(n, scene)
      case Err(e) => Err(e)
      case Ok(cms) =>
        if update then UpdatePose(n, name, n.drivers, Some(ms), cms, scene)
        else AddPose(n, name, n.drivers, Some(ms), cms, [], true, scene)
  }

  /** The current local matrices of transforms of the scene, in order. */
  function CurrentMatrices(scene: Scene, ns: seq<string>): seq<Matrix>
    requires forall i :: 0 <= i < |ns| ==> ns[i] in scene.transforms
  {
    seq(|ns|, i requires 0 <= i < |ns| => scene.transforms[ns[i]])
  }

  /**
   * On a valid, well-formed network whose nodes all exist and which has
   * drivers, `add_pose_from_current` of a new name appends a pose holding
   * exactly the drivers' and controllers' current matrices, enabled.
   */
  lemma AddPoseFromCurrentRecords(n: Network, name: string, scene: Scene)
    requires Valid(n) && WellFormed(n) && Coherent(n, scene) && n.drivers != []
    requires name == "" || PoseIndex(n.targets, name) == -1
    ensures AddPoseFromCurrent(n, name, false, scene).Ok?
    ensures AddPoseFromCurrent(n, name, false, scene).value.targets ==
      n.targets + [Target(name, CurrentMatrices(scene, n.drivers), CurrentMatrices(scene, n.controllers), true)]
    ensures AddPoseFromCurrent(n, name, false, scene).value.drivers == n.drivers
    ensures AddPoseFromCurrent(n, name, false, scene).value.controllers == n.controllers
  {
    var ms := LocalMatrices(scene, n.drivers).value;
    var cms := ControllerMatrices(n, scene).value;
    assert ms == CurrentMatrices(scene, n.drivers);
    assert cms == CurrentMatrices(scene, n.controllers);
    AddPoseSucceeds(n, name, n.drivers, Some(ms), cms, [], true, scene);
  }

  // -------------------------------------------------------------- muting

  /**
   * The index `mute_pose` and `is_pose_muted` work on: a name is looked up
   * when no index is given, and neither raises InvalidPoseIndex. An unknown
   * name gives -1.
   */
  function ResolveIndex(n: Network, name: string, index: int): (r: Result<int>)
    ensures r.Err? <==> index < 0 && name == ""
    ensures r.Err? ==> r.error == InvalidPoseIndex
    ensures r.Ok? && index < 0 ==> r.value == PoseIndex(n.targets, name)
    ensures r.Ok? && index >= 0 ==> r.value == index
  {
    if index < 0 && name != "" then Ok(PoseIndex(n.targets, name))
    else if name == "" && index < 0 then Err(InvalidPoseIndex)
    else Ok(index)
  }

  /** `is_pose_muted`: the negation of `targetEnable`; an index with no target raises RuntimeError. */
  function IsPoseMuted(n: Network, name: string, index: int): (r: Result<bool>)
    ensures index < 0 && name == "" ==> r == Err(InvalidPoseIndex)
    ensures r.Ok? <==> ResolveIndex(n, name, index).Ok? && 0 <= ResolveIndex(n, name, index).value < |n.targets|
    ensures r.Ok? ==> r.value == !n.targets[ResolveIndex(n, name, index).value].enabled
  {
    match ResolveIndex(n, name, index)
    case Err(e) => Err(e)
    case Ok(i) => if 0 <= i < |n.targets| then Ok(!n.targets[i].enabled) else Err(RuntimeError)
  }

  /**
   * `mute_pose`: `targetEnable` becomes `not mute`, which is returned.
   * Without `mute` the pose's current state is flipped; that first asks
   * `is_pose_muted` by index, so an unknown name raises InvalidPoseIndex.
   */
  function MutePose(n: Network, name: string, index: int, mute: Option<bool>): (r: Result<(bool, Network)>)
    ensures index < 0 && name == "" ==> r == Err(InvalidPoseIndex)
    ensures r.Ok? ==> ResolveIndex(n, name, index).Ok? && 0 <= ResolveIndex(n, name, index).value < |n.targets|
    ensures r.Ok? ==> var i := ResolveIndex(n, name, index).value;
      && r.value.0 == (if mute.Some? then !mute.value else !n.targets[i].enabled)
      && r.value.1 == n.(targets := n.targets[i := n.targets[i].(enabled := r.value.0)])
    ensures ResolveIndex(n, name, index).Ok? && 0 <= ResolveIndex(n, name, index).value < |n.targets| ==> r.Ok?
  {
    match ResolveIndex(n, name, index)
    case Err(e) => Err(e)
    case Ok(i) =>
      var m := if mute.Some? then Ok(mute.value) else
        match IsPoseMuted(n, "", i)
        case Err(e) => Err(e)
        case Ok(muted) => Ok(!muted);
      match m
      case Err(e) => Err(e)
      case Ok(mu) =>
        if 0 <= i < |n.targets| then Ok((!mu, n.(targets := n.targets[i := n.targets[i].(enabled := !mu)])))
        else Err(RuntimeError)
  }

  /** Muting changes only the flag: names, indices, matrices and blenders stay as they were. */
  lemma MuteKeeps(n: Network, name: string, index: int, mute: Option<bool>)
    requires MutePose(n, name, index, mute).Ok?
    ensures var r := MutePose(n, name, index, mute).value.1;
      && |r.targets| == |n.targets|
      && (forall k :: 0 <= k < |n.targets| ==>
            r.targets[k].name == n.targets[k].name && r.targets[k].values == n.targets[k].values
            && r.targets[k].controllers == n.targets[k].controllers)
      && r.blenders == n.blenders && r.drivers == n.drivers && r.controllers == n.controllers
      && (Valid(n) ==> Valid(r)) && (WellFormed(n) ==> WellFormed(r)) && (Lockstep(n) ==> Lockstep(r))
      && IsPoseMuted(r, name, index) == Ok(!MutePose(n, name, index, mute).value.0)
  {
    var i := ResolveIndex(n, name, index).value;
    var r := MutePose(n, name, index, mute).value.1;
    EnabledOnly(n, r, i, MutePose(n, name, index, mute).value.0);
    assert ResolveIndex(r, name, index) == ResolveIndex(n, name, index);
  }

  /** Setting one target's flag keeps every name, matrix and blender, and every invariant of the network. */
  lemma EnabledOnly(n: Network, r: Network, i: nat, e: bool)
    requires i < |n.targets| && r == n.(targets := n.targets[i := n.targets[i].(enabled := e)])
    ensures |r.targets| == |n.targets|
    ensures forall k :: 0 <= k < |n.targets| ==>
      r.targets[k].name == n.targets[k].name && r.targets[k].values == n.targets[k].values
      && r.targets[k].controllers == n.targets[k].controllers
    ensures forall name :: PoseIndex(r.targets, name) == PoseIndex(n.targets, name)
    ensures (Valid(n) ==> Valid(r)) && (WellFormed(n) ==> WellFormed(r)) && (Lockstep(n) ==> Lockstep(r))
  {
    forall name ensures PoseIndex(r.targets, name) == PoseIndex(n.targets, name) {
      SameNamesSameIndex(n.targets, r.targets, name);
    }
  }

  /** Targets with the same names in the same order give every name the same index. */
  lemma {:induction false} SameNamesSameIndex(ts: seq<Target>, us: seq<Target>, name: string)
    requires |ts| == |us| && forall k :: 0 <= k < |ts| ==> ts[k].name == us[k].name
    ensures PoseIndex(us, name) == PoseIndex(ts, name)
  {
    if ts != [] && ts[0].name != name {
      SameNamesSameIndex(ts[1..], us[1..], name);
    }
  }

  /** Toggling a pose twice restores the network and reports the original state. */
  lemma ToggleTwice(n: Network, name: string, index: int)
    requires MutePose(n, name, index, None).Ok?
    ensures var once := MutePose(n, name, index, None).value.1;
      var i := ResolveIndex(n, name, index).value;
      MutePose(once, name, index, None) == Ok((n.targets[i].enabled, n))
  {
    var once := MutePose(n, name, index, None).value.1;
    var i := ResolveIndex(n, name, index).value;
    MuteKeeps(n, name, index, None);
    assert ResolveIndex(once, name, index) == Ok(i);
    assert once.targets[i := once.targets[i].(enabled := n.targets[i].enabled)] == n.targets;
  }

  /** Muting and then unmuting leaves the pose enabled, with everything else as it was. */
  lemma MuteThenUnmute(n: Network, name: string, index: int)
    requires MutePose(n, name, index, Some(true)).Ok?
    ensures var muted := MutePose(n, name, index, Some(true)).value.1;
      var i := ResolveIndex(n, name, index).value;
      MutePose(muted, name, index, Some(false)) == Ok((true, n.(targets := n.targets[i := n.targets[i].(enabled := true)])))
  {
    var muted := MutePose(n, name, index, Some(true)).value.1;
    var i := ResolveIndex(n, name, index).value;
    MuteKeeps(n, name, index, Some(true));
    assert ResolveIndex(muted, name, index) == Ok(i);
    assert muted.targets[i := muted.targets[i].(enabled := true)] == n.targets[i := n.targets[i].(enabled := true)];
  }

  // ------------------------------------------------------------ renaming

  /**
   * `rename_pose`: with no poses nothing happens; an index with no target
   * or a name already in use raises RuntimeError; otherwise the target is
   * renamed.
   */
  function RenamePose(n: Network, index: int, name: string): (r: Result<Network>)
    ensures n.targets == [] ==> r == Ok(n)
    ensures n.targets != [] && !(0 <= index < |n.targets|) ==> r == Err(RuntimeError)
    ensures n.targets != [] && HasPose(n, name) == Ok(true) ==> r == Err(RuntimeError)
    ensures r.Ok? && n.targets != [] ==>
      && HasPose(n, name) == Ok(false) && 0 <= index < |n.targets|
      && r.value == n.(targets := n.targets[index := n.targets[index].(name := name)])
  {
    if n.targets == [] then Ok(n)
    else if !(0 <= index < |n.targets|) then Err(RuntimeError)
    else
      match HasPose(n, name)
      case Err(e) => Err(e)
      case Ok(taken) =>
        if taken then Err(RuntimeError)
        else Ok(n.(targets := n.targets[index := n.targets[index].(name := name)]))
  }

  /**
   * On a valid, well-formed network renaming to a new, non-empty name
   * succeeds exactly for an existing index, keeps the network valid, well
   * formed and in lockstep, and the pose is then found under its new name.
   */
  lemma RenameKeeps(n: Network, index: int, name: string)
    requires Valid(n) && WellFormed(n) && n.targets != [] && name != "" && PoseIndex(n.targets, name) == -1
    ensures RenamePose(n, index, name).Ok? <==> 0 <= index < |n.targets|
    ensures RenamePose(n, index, name).Ok? ==> var r := RenamePose(n, index, name).value;
      && Valid(r) && WellFormed(r) && (Lockstep(n) ==> Lockstep(r))
      && PoseIndex(r.targets, name) == index
  {
    HasPoseExact(n, name);
    if 0 <= index < |n.targets| {
      RenamedNames(n, RenamePose(n, index, name).value, index, name);
    }
  }

  /** Giving one target a name no target carries keeps the network valid and finds the target under it. */
  lemma RenamedNames(n: Network, r: Network, index: nat, name: string)
    requires Valid(n) && WellFormed(n) && name != "" && PoseIndex(n.targets, name) == -1 && index < |n.targets|
    requires r == n.(targets := n.targets[index := n.targets[index].(name := name)])
    ensures Valid(r) && WellFormed(r) && (Lockstep(n) ==> Lockstep(r))
    ensures PoseIndex(r.targets, name) == index
  {
    assert r.targets[index].name == name;
    assert forall k :: 0 <= k < |n.targets| && k != index ==> r.targets[k] == n.targets[k];
  }

  // --------------------------------------------------------- edit mode

  /** `edit_solver`: every blender's `edit` set in turn; the first failure is raised. */
  function EditSolver(n: Network, edit: bool, scene: Scene): (r: Result<Network>)
    ensures r.Ok? <==> forall j :: 0 <= j < |n.blenders| ==> SetEdit(n.blenders[j], edit, scene).Ok?
    ensures r.Ok? ==> r.value == n.(blenders := r.value.blenders) && |r.value.blenders| == |n.blenders|
    ensures r.Ok? ==> forall j :: 0 <= j < |n.blenders| ==> SetEdit(n.blenders[j], edit, scene) == Ok(r.value.blenders[j])
  {
    match MapResult(n.blenders, b => SetEdit(b, edit, scene))
    case Err(e) => Err(e)
    case Ok(bs) => Ok(n.(blenders := bs))
  }

  /** `get_solver_edit_status`: some blender is in edit mode. */
  predicate EditStatus(n: Network)
  {
    exists j :: 0 <= j < |n.blenders| && IsEditing(n.blenders[j])
  }

  /**
   * On a network whose driven transforms all exist, `edit_solver(edit)`
   * succeeds, and afterwards the solver reports edit mode exactly when
   * `edit` is set and it has a blender. Only the blenders' edit state changes.
   */
  lemma EditThenStatus(n: Network, edit: bool, scene: Scene)
    requires Coherent(n, scene)
    ensures EditSolver(n, edit, scene).Ok?
    ensures EditStatus(EditSolver(n, edit, scene).value) <==> edit && n.blenders != []
    ensures var r := EditSolver(n, edit, scene).value;
      (Lockstep(n) ==> Lockstep(r)) && (forall j :: 0 <= j < |n.blenders| ==> r.blenders[j].driven == n.blenders[j].driven)
  {
    forall j | 0 <= j < |n.blenders| ensures SetEdit(n.blenders[j], edit, scene).Ok? {
      assert Ready(n.blenders[j], scene);
    }
    var r := EditSolver(n, edit, scene).value;
    forall j | 0 <= j < |n.blenders| ensures IsEditing(r.blenders[j]) == edit && r.blenders[j].driven == n.blenders[j].driven {
      assert Ready(n.blenders[j], scene);
    }
    if edit && n.blenders != [] {
      assert IsEditing(r.blenders[0]);
    }
    assert forall j :: 0 <= j < |n.blenders| ==> InStep(n, n.blenders[j], |n.targets|) ==> InStep(r, r.blenders[j], |r.targets|);
  }
}
