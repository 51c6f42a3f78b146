/**
 * The inputs and outputs of an `RBFNode` (`v2/model/api.py`): drivers with
 * their rest matrices (`add_driver`, `remove_drivers`), controllers
 * (`add_controller`) and the pose blenders of driven transforms
 * (`add_driven_transforms`).
 */
module SolverWiring {
  import opened Wrappers
  import opened Sparse
  import opened Host
  import opened BlenderModel
  import opened SolverModel
  import opened SolverPoses

  predicate NoDuplicates(s: seq<string>)
  {
    forall i, j :: 0 <= i < j < |s| ==> s[i] != s[j]
  }

  /** Every rest matrix belongs to a driver: `inputsRest` runs alongside `inputs`. */
  predicate Rested(n: Network)
  {
    |n.rest| == |n.drivers|
  }

  // ---------------------------------------------- drivers and controllers

  /** Nodes the connection loop accepts one after another: transforms not yet connected, each once. */
  predicate Connectable(existing: seq<string>, nodes: seq<string>, scene: Scene)
  {
    forall i :: 0 <= i < |nodes| ==> scene.IsTransform(nodes[i]) && nodes[i] !in existing && nodes[i] !in nodes[..i]
  }

  /** Unfolding `Connectable` at the first node. */
  lemma ConnectableCons(existing: seq<string>, nodes: seq<string>, scene: Scene)
    requires nodes != []
    ensures Connectable(existing, nodes, scene) <==>
      scene.IsTransform(nodes[0]) && nodes[0] !in existing && Connectable(existing + [nodes[0]], nodes[1..], scene)
  {
    var rest := nodes[1..];
    forall i | 0 < i < |nodes|
      ensures (nodes[i] !in existing && nodes[i] !in nodes[..i]) <==>
              (rest[i - 1] !in existing + [nodes[0]] && rest[i - 1] !in rest[..i - 1])
    {
      assert nodes[..i] == [nodes[0]] + rest[..i - 1];
    }
    if scene.IsTransform(nodes[0]) && nodes[0] !in existing && Connectable(existing + [nodes[0]], rest, scene) {
      forall i | 0 <= i < |nodes|
        ensures scene.IsTransform(nodes[i]) && nodes[i] !in existing && nodes[i] !in nodes[..i]
      {
        if i > 0 {
          assert rest[i - 1] == nodes[i];
        }
      }
    }
    if Connectable(existing, nodes, scene) {
      forall i | 0 <= i < |rest|
        ensures scene.IsTransform(rest[i]) && rest[i] !in existing + [nodes[0]] && rest[i] !in rest[..i]
      {
        assert rest[i] == nodes[i + 1];
      }
    }
  }

  /**
   * The loop `add_driver` and `add_controller` share: each node must exist,
   * be a transform and not be connected yet, else RuntimeError; it is then
   * connected at the next index. Nodes before a refused one stay connected.
   */
  function Connect(existing: seq<string>, nodes: seq<string>, scene: Scene): (r: (Outcome, seq<string>))
    ensures r.0.Ok? <==> Connectable(existing, nodes, scene)
    ensures r.0.Err? ==> r.0.error == RuntimeError
    ensures |existing| <= |r.1| <= |existing| + |nodes|
    ensures r.0.Ok? ==> |r.1| == |existing| + |nodes|
    ensures r.1 == existing + nodes[..|r.1| - |existing|]
    ensures r.0.Err? ==>
      && |r.1| - |existing| < |nodes|
      && (!scene.IsTransform(nodes[|r.1| - |existing|]) || nodes[|r.1| - |existing|] in r.1)
    ensures forall i :: |existing| <= i < |r.1| ==> scene.IsTransform(r.1[i])
    ensures NoDuplicates(existing) ==> NoDuplicates(r.1)
    decreases |nodes|
  {
    if nodes == [] then (Done, existing)
    else
      var node := nodes[0];
      ConnectableCons(existing, nodes, scene);
      if !scene.Exists(node) then (Err(RuntimeError), existing)
      else if !scene.IsTransform(node) then (Err(RuntimeError), existing)
      else if node in existing then (Err(RuntimeError), existing)
      else
        var r := Connect(existing + [node], nodes[1..], scene);
        PrefixShift(existing, nodes, |r.1| - |existing| - 1);
        NoDuplicatesSnoc(existing, node);
        r
  }

  lemma PrefixShift(existing: seq<string>, nodes: seq<string>, m: nat)
    requires m < |nodes|
    ensures existing + [nodes[0]] + nodes[1..][..m] == existing + nodes[..m + 1]
  {
    assert nodes[..m + 1] == [nodes[0]] + nodes[1..][..m];
  }

  lemma NoDuplicatesSnoc(s: seq<string>, x: string)
    requires x !in s
    ensures NoDuplicates(s) ==> NoDuplicates(s + [x])
  {
  }

  /**
   * `add_driver`: refused outright once more than one pose exists; each
   * accepted driver is connected at index `num_drivers()` and gets its
   * current local matrix as rest matrix.
   */
  function AddDriver(n: Network, nodes: seq<string>, scene: Scene): (r: (Outcome, Network))
    ensures |n.targets| > 1 ==> r == (Err(RuntimeError), n)
    ensures |n.targets| <= 1 ==> (r.0.Ok? <==> Connectable(n.drivers, nodes, scene))
    ensures r.0.Err? ==> r.0.error == RuntimeError
  {
    if |n.targets| > 1 then (Err(RuntimeError), n)
    else
      var (o, ds) := Connect(n.drivers, nodes, scene);
      (o, n.(drivers := ds, rest := n.rest + CurrentMatrices(scene, ds[|n.drivers|..])))
  }

  /**
   * A driver list `add_driver` accepts is appended at indices
   * `num_drivers()` onwards, with the current matrices as rest matrices,
   * and nothing else changes.
   */
  lemma AddDriverAppends(n: Network, nodes: seq<string>, scene: Scene)
    requires |n.targets| <= 1 && Connectable(n.drivers, nodes, scene)
    ensures forall i :: 0 <= i < |nodes| ==> nodes[i] in scene.transforms
    ensures AddDriver(n, nodes, scene).0.Ok?
    ensures AddDriver(n, nodes, scene).1 == n.(drivers := n.drivers + nodes, rest := n.rest + CurrentMatrices(scene, nodes))
    ensures Rested(n) ==> Rested(AddDriver(n, nodes, scene).1)
    ensures NoDuplicates(n.drivers) ==> NoDuplicates(AddDriver(n, nodes, scene).1.drivers)
  {
    var c := Connect(n.drivers, nodes, scene);
    assert c.1[|n.drivers|..] == nodes;
  }

  /**
   * When `add_driver` refuses a node, the nodes before it stay connected
   * with their rest matrices, and the refused node is not a transform or is
   * connected already.
   */
  lemma AddDriverStopsAtRefused(n: Network, nodes: seq<string>, scene: Scene)
    requires |n.targets| <= 1 && AddDriver(n, nodes, scene).0.Err?
    ensures var r := AddDriver(n, nodes, scene).1; var k := |r.drivers| - |n.drivers|;
      && 0 <= k < |nodes|
      && (forall i :: 0 <= i < k ==> nodes[i] in scene.transforms)
      && r == n.(drivers := n.drivers + nodes[..k], rest := n.rest + CurrentMatrices(scene, nodes[..k]))
      && (!scene.IsTransform(nodes[k]) || nodes[k] in n.drivers + nodes[..k])
  {
    var ds := Connect(n.drivers, nodes, scene).1;
    var k := |ds| - |n.drivers|;
    assert ds[|n.drivers|..] == nodes[..k];
  }

  /**
   * Why drivers are added before poses: once one pose exists, a new driver
   * leaves that pose one matrix short, and `pose()` refuses it.
   */
  lemma AddDriverStalesPose(n: Network, nodes: seq<string>, scene: Scene)
    requires WellFormed(n) && |n.targets| == 1 && nodes != [] && Connectable(n.drivers, nodes, scene)
    ensures Pose(AddDriver(n, nodes, scene).1, n.targets[0].name) == Err(InvalidPose)
  {
    AddDriverAppends(n, nodes, scene);
    assert TargetWellFormed(n, n.targets[0]);
  }

  /** `add_controller`: refused as soon as any pose exists; no rest matrix is kept for controllers. */
  function AddController(n: Network, nodes: seq<string>, scene: Scene): (r: (Outcome, Network))
    ensures |n.targets| > 0 ==> r == (Err(RuntimeError), n)
    ensures |n.targets| == 0 ==> (r.0.Ok? <==> Connectable(n.controllers, nodes, scene))
    ensures r.0.Err? ==> r.0.error == RuntimeError
  {
    if |n.targets| > 0 then (Err(RuntimeError), n)
    else
      var (o, cs) := Connect(n.controllers, nodes, scene);
      (o, n.(controllers := cs))
  }

  /**
   * `add_controller` on a solver without poses appends the accepted nodes,
   * stopping at the first refused one, and changes nothing else; the
   * solver stays well formed since it has no pose to go stale.
   */
  lemma AddControllerAppends(n: Network, nodes: seq<string>, scene: Scene)
    requires |n.targets| == 0
    ensures var r := AddController(n, nodes, scene); var k := |r.1.controllers| - |n.controllers|;
      && 0 <= k <= |nodes|
      && r.1 == n.(controllers := n.controllers + nodes[..k])
      && (r.0.Ok? ==> k == |nodes|)
      && (r.0.Err? ==> k < |nodes| && (!scene.IsTransform(nodes[k]) || nodes[k] in n.controllers + nodes[..k]))
      && WellFormed(r.1) && Valid(r.1)
  {
  }

  // ------------------------------------------------------- remove_drivers

  /** The given names that `cmds.ls` finds. */
  function ExistingNodes(nodes: seq<string>, scene: Scene): (r: seq<string>)
    ensures forall x :: x in r <==> x in nodes && scene.Exists(x)
  {
    if nodes == [] then []
    else (if scene.Exists(nodes[0]) then [nodes[0]] else []) + ExistingNodes(nodes[1..], scene)
  }

  /**
   * The list `remove_drivers` builds by walking the drivers from the last
   * index down and keeping each one that is not to be removed.
   */
  function Remaining(drivers: seq<string>, removed: seq<string>): seq<string>
  {
    if drivers == [] then []
    else
      var last := drivers[|drivers| - 1];
      (if last in removed then [] else [last]) + Remaining(drivers[..|drivers| - 1], removed)
  }

  /** The drivers not to be removed, in their order. */
  function Kept(drivers: seq<string>, removed: seq<string>): seq<string>
  {
    if drivers == [] then []
    else (if drivers[0] in removed then [] else [drivers[0]]) + Kept(drivers[1..], removed)
  }

  function Reversed<T>(s: seq<T>): (r: seq<T>)
    ensures |r| == |s|
  {
    seq(|s|, i requires 0 <= i < |s| => s[|s| - 1 - i])
  }

  /** The drivers kept are the ones not to be removed. */
  lemma {:induction false} KeptMembers(drivers: seq<string>, removed: seq<string>)
    ensures forall x :: x in Kept(drivers, removed) <==> x in drivers && x !in removed
    decreases |drivers|
  {
    if drivers != [] {
      KeptMembers(drivers[1..], removed);
      assert drivers == [drivers[0]] + drivers[1..];
    }
  }

  lemma ReversedSnoc<T>(s: seq<T>, x: T)
    ensures Reversed(s + [x]) == [x] + Reversed(s)
  {
  }

  lemma {:induction false} KeptSnoc(drivers: seq<string>, x: string, removed: seq<string>)
    ensures Kept(drivers + [x], removed) == Kept(drivers, removed) + (if x in removed then [] else [x])
    decreases |drivers|
  {
    if drivers != [] {
      assert (drivers + [x])[1..] == drivers[1..] + [x];
      KeptSnoc(drivers[1..], x, removed);
    }
  }

  /** The drivers are reconnected at indices `0 .. k - 1` in the reverse of their original order. */
  lemma {:induction false} RemainingIsReversedKept(drivers: seq<string>, removed: seq<string>)
    ensures Remaining(drivers, removed) == Reversed(Kept(drivers, removed))
    decreases |drivers|
  {
    if drivers != [] {
      var front := drivers[..|drivers| - 1];
      var last := drivers[|drivers| - 1];
      var x := if last in removed then [] else [last];
      RemainingIsReversedKept(front, removed);
      assert Remaining(drivers, removed) == x + Remaining(front, removed);
      assert front + [last] == drivers;
      KeptSnoc(front, last, removed);
      assert Kept(drivers, removed) == Kept(front, removed) + x;
      if last in removed {
        assert Kept(front, removed) + x == Kept(front, removed);
      } else {
        ReversedSnoc(Kept(front, removed), last);
      }
    }
  }

  /**
   * `remove_drivers`. Every existing driver is walked from the last index
   * down; each walk step disconnects it and removes every target, and
   * keeps it when it is not among the (existing) nodes given. The kept
   * drivers are reconnected at indices `0 .. k - 1` with their current
   * matrices as rest matrices, and `default` is captured from the current
   * state when any driver is left. Blender slots are not touched by the
   * removal itself.
   */
  function RemoveDrivers(n: Network, nodes: seq<string>, scene: Scene): (r: Result<Network>)
    requires forall i :: 0 <= i < |n.drivers| ==> scene.Exists(n.drivers[i])
  {
    var removed := ExistingNodes(nodes, scene);
    var remaining := Remaining(n.drivers, removed);
    var cleared := if n.drivers != [] then [] else n.targets;
    match LocalMatrices(scene, remaining)
    case Err(e) => Err(e)
    case Ok(rest) =>
      var reconnected := n.(drivers := remaining, rest := rest, targets := cleared);
      if remaining != [] then SolverPoses.AddPoseFromCurrent(reconnected, "default", false, scene) else Ok(reconnected)
  }

  /**
   * On a solver whose nodes are all transforms of the scene,
   * `remove_drivers` keeps exactly the drivers not named, in reverse order,
   * with their current matrices as rest matrices. With drivers left, the
   * only pose is `default`, holding the current matrices, and every blender
   * has re-recorded slot 0 from its driven transform; with none left, no
   * pose remains and the blenders are untouched.
   */
  lemma RemoveDriversResult(n: Network, nodes: seq<string>, scene: Scene)
    requires Coherent(n, scene)
    ensures forall i :: 0 <= i < |n.drivers| ==> scene.Exists(n.drivers[i])
    ensures RemoveDrivers(n, nodes, scene).Ok?
    ensures var r := RemoveDrivers(n, nodes, scene).value;
      && r.drivers == Reversed(Kept(n.drivers, nodes))
      && Rested(r)
      && r.controllers == n.controllers && r.name == n.name
      && (forall i :: 0 <= i < |r.drivers| ==> r.drivers[i] in scene.transforms)
      && r.rest == CurrentMatrices(scene, r.drivers)
      && (n.drivers == [] ==> r == n.(rest := []))
      && (n.drivers != [] && r.drivers == [] ==> r.targets == [] && r.blenders == n.blenders)
      && (r.drivers != [] ==>
            r.targets == [Target("default", CurrentMatrices(scene, r.drivers), CurrentMatrices(scene, n.controllers), true)])
  {
    RemainingDrivers(n, nodes, scene);
    var remaining := Remaining(n.drivers, ExistingNodes(nodes, scene));
    var rest := LocalMatrices(scene, remaining).value;
    assert rest == CurrentMatrices(scene, remaining);
    if remaining != [] {
      var reconnected := n.(drivers := remaining, rest := rest, targets := []);
      assert Coherent(reconnected, scene);
      AddPoseFromCurrentRecords(reconnected, "default", scene);
    }
  }

  /** The drivers `remove_drivers` keeps are the ones not named, reversed, and all are transforms. */
  lemma RemainingDrivers(n: Network, nodes: seq<string>, scene: Scene)
    requires Coherent(n, scene)
    ensures var remaining := Remaining(n.drivers, ExistingNodes(nodes, scene));
      && remaining == Reversed(Kept(n.drivers, nodes))
      && forall i :: 0 <= i < |remaining| ==> remaining[i] in scene.transforms
  {
    var removed := ExistingNodes(nodes, scene);
    RemainingIsReversedKept(n.drivers, removed);
    KeptExisting(n.drivers, nodes, removed, scene);
    var k := Kept(n.drivers, nodes);
    KeptTransforms(n.drivers, nodes, scene);
    assert forall i :: 0 <= i < |k| ==> Reversed(k)[|k| - 1 - i] == k[i];
  }

  lemma {:induction false} KeptTransforms(drivers: seq<string>, removed: seq<string>, scene: Scene)
    requires forall i :: 0 <= i < |drivers| ==> scene.IsTransform(drivers[i])
    ensures forall i :: 0 <= i < |Kept(drivers, removed)| ==> Kept(drivers, removed)[i] in scene.transforms
    decreases |drivers|
  {
    if drivers != [] {
      KeptTransforms(drivers[1..], removed, scene);
    }
  }

  /** Filtering by the existing names that were given is filtering by the names given, for existing drivers. */
  lemma {:induction false} KeptExisting(drivers: seq<string>, nodes: seq<string>, removed: seq<string>, scene: Scene)
    requires forall i :: 0 <= i < |drivers| ==> scene.Exists(drivers[i])
    requires forall x :: x in removed <==> x in nodes && scene.Exists(x)
    ensures Kept(drivers, removed) == Kept(drivers, nodes)
    decreases |drivers|
  {
    if drivers != [] {
      KeptExisting(drivers[1..], nodes, removed, scene);
    }
  }

  // ----------------------------------------------- add_driven_transforms

  /** `find_by_transform` finds a blender: the node drives one of this solver's blenders or one elsewhere. */
  predicate Connected(n: Network, elsewhere: set<string>, node: string)
  {
    node in elsewhere || exists j :: 0 <= j < |n.blenders| && n.blenders[j].driven == Some(node)
  }

  /**
   * One blender as `add_driven_transforms` sets it up: created on the node
   * (which records its current matrix as base pose), every output of the
   * solver connected to the weight of the same index, then `edit` set.
   */
  function NewBlender(n: Network, node: string, edit: bool, scene: Scene): (r: Result<Blender>)
    ensures r.Ok? <==> scene.IsTransform(node)
    ensures r.Ok? ==> r.value.driven == Some(node) && IsEditing(r.value) == edit
    ensures r.Ok? ==> r.value.poses == [Some(scene.transforms[node])]
    ensures r.Ok? ==> r.value.weights == ConnectedWeights([], n.name + ".outputs", n.outputs)
  {
    match CreateBlender(Some(node), scene)
    case Err(e) => Err(e)
    case Ok(b) =>
      var wired := b.(weights := ConnectedWeights(b.weights, n.name + ".outputs", n.outputs));
      SetEdit(wired, edit, scene)
  }

  /**
   * `add_driven_transforms`: nodes already driving a blender are skipped;
   * every other node gets a new blender, appended to `poseBlenders`. A node
   * that is not a transform stops the loop with the blenders before it kept.
   */
  function AddDrivenTransforms(n: Network, nodes: seq<string>, edit: bool, elsewhere: set<string>, scene: Scene)
    : (r: (Outcome, Network))
    decreases |nodes|
  {
    if nodes == [] then (Done, n)
    else if Connected(n, elsewhere, nodes[0]) then AddDrivenTransforms(n, nodes[1..], edit, elsewhere, scene)
    else
      match NewBlender(n, nodes[0], edit, scene)
      case Err(e) => (Err(e), n)
      case Ok(b) => AddDrivenTransforms(n.(blenders := n.blenders + [b]), nodes[1..], edit, elsewhere, scene)
  }

  /**
   * `add_driven_transforms` only appends blenders, each one set up by
   * `NewBlender`; the solver's own state and its earlier blenders stay as
   * they were.
   */
  lemma {:induction false} AddDrivenAppends(n: Network, nodes: seq<string>, edit: bool, elsewhere: set<string>,
                                            scene: Scene)
    ensures var r := AddDrivenTransforms(n, nodes, edit, elsewhere, scene).1;
      && r == n.(blenders := r.blenders)
      && |n.blenders| <= |r.blenders|
      && r.blenders[..|n.blenders|] == n.blenders
      && (forall j :: |n.blenders| <= j < |r.blenders| ==>
            r.blenders[j].driven.Some? && NewBlender(n, r.blenders[j].driven.value, edit, scene) == Ok(r.blenders[j]))
    decreases |nodes|
  {
    if nodes == [] {
    } else if Connected(n, elsewhere, nodes[0]) {
      AddDrivenAppends(n, nodes[1..], edit, elsewhere, scene);
    } else if NewBlender(n, nodes[0], edit, scene).Ok? {
      var b := NewBlender(n, nodes[0], edit, scene).value;
      var m := n.(blenders := n.blenders + [b]);
      AddDrivenAppends(m, nodes[1..], edit, elsewhere, scene);
      var r := AddDrivenTransforms(m, nodes[1..], edit, elsewhere, scene).1;
      assert r.blenders[..|n.blenders|] == r.blenders[..|m.blenders|][..|n.blenders|];
      assert r.blenders[|n.blenders|] == b;
    }
  }

  /** Nodes already connected are skipped and a new blender's node is connected, so driven transforms stay distinct. */
  lemma {:induction false} AddDrivenDistinct(n: Network, nodes: seq<string>, edit: bool, elsewhere: set<string>,
                                             scene: Scene)
    requires DistinctDriven(n.blenders)
    ensures DistinctDriven(AddDrivenTransforms(n, nodes, edit, elsewhere, scene).1.blenders)
    decreases |nodes|
  {
    if nodes == [] {
    } else if Connected(n, elsewhere, nodes[0]) {
      AddDrivenDistinct(n, nodes[1..], edit, elsewhere, scene);
    } else if NewBlender(n, nodes[0], edit, scene).Ok? {
      var b := NewBlender(n, nodes[0], edit, scene).value;
      var m := n.(blenders := n.blenders + [b]);
      assert forall j :: 0 <= j < |n.blenders| ==> n.blenders[j].driven != b.driven;
      assert DistinctDriven(m.blenders);
      AddDrivenDistinct(m, nodes[1..], edit, elsewhere, scene);
    }
  }

  /** Appending a blender for `node` connects it and keeps every earlier connection. */
  lemma ConnectedAfterAppend(n: Network, b: Blender, elsewhere: set<string>, x: string)
    ensures Connected(n.(blenders := n.blenders + [b]), elsewhere, x) <==> Connected(n, elsewhere, x) || b.driven == Some(x)
  {
    var m := n.(blenders := n.blenders + [b]);
    if Connected(n, elsewhere, x) && x !in elsewhere {
      var j :| 0 <= j < |n.blenders| && n.blenders[j].driven == Some(x);
      assert m.blenders[j] == n.blenders[j];
    }
    if b.driven == Some(x) {
      assert m.blenders[|n.blenders|] == b;
    }
    if Connected(m, elsewhere, x) && x !in elsewhere {
      var j :| 0 <= j < |m.blenders| && m.blenders[j].driven == Some(x);
      if j < |n.blenders| {
        assert n.blenders[j] == m.blenders[j];
      }
    }
  }

  /**
   * `add_driven_transforms` fails exactly when a node of the list that no
   * blender drives is not a transform, and when it succeeds every node of
   * the list drives a blender.
   */
  lemma {:induction false} AddDrivenCovers(n: Network, nodes: seq<string>, edit: bool, elsewhere: set<string>,
                                           scene: Scene)
    ensures var r := AddDrivenTransforms(n, nodes, edit, elsewhere, scene);
      && (r.0.Ok? <==> forall i :: 0 <= i < |nodes| ==> Connected(n, elsewhere, nodes[i]) || scene.IsTransform(nodes[i]))
      && (r.0.Ok? ==> forall i :: 0 <= i < |nodes| ==> Connected(r.1, elsewhere, nodes[i]))
    decreases |nodes|
  {
    if nodes == [] {
    } else if Connected(n, elsewhere, nodes[0]) {
      AddDrivenCovers(n, nodes[1..], edit, elsewhere, scene);
      var r := AddDrivenTransforms(n, nodes, edit, elsewhere, scene);
      if r.0.Ok? {
        AddDrivenKeepsConnected(n, nodes[1..], edit, elsewhere, scene, nodes[0]);
      }
      assert forall i :: 1 <= i < |nodes| ==> nodes[i] == nodes[1..][i - 1];
    } else if NewBlender(n, nodes[0], edit, scene).Ok? {
      var b := NewBlender(n, nodes[0], edit, scene).value;
      var m := n.(blenders := n.blenders + [b]);
      AddDrivenCovers(m, nodes[1..], edit, elsewhere, scene);
      forall x ensures Connected(m, elsewhere, x) <==> Connected(n, elsewhere, x) || x == nodes[0] {
        ConnectedAfterAppend(n, b, elsewhere, x);
      }
      var r := AddDrivenTransforms(n, nodes, edit, elsewhere, scene);
      if r.0.Ok? {
        AddDrivenKeepsConnected(m, nodes[1..], edit, elsewhere, scene, nodes[0]);
      }
      assert forall i :: 1 <= i < |nodes| ==> nodes[i] == nodes[1..][i - 1];
    }
  }

  /** A node connected before stays connected. */
  lemma AddDrivenKeepsConnected(n: Network, nodes: seq<string>, edit: bool, elsewhere: set<string>, scene: Scene,
                                x: string)
    requires Connected(n, elsewhere, x)
    ensures Connected(AddDrivenTransforms(n, nodes, edit, elsewhere, scene).1, elsewhere, x)
  {
    AddDrivenAppends(n, nodes, edit, elsewhere, scene);
    var r := AddDrivenTransforms(n, nodes, edit, elsewhere, scene).1;
    if x !in elsewhere {
      var j :| 0 <= j < |n.blenders| && n.blenders[j].driven == Some(x);
      assert r.blenders[j] == r.blenders[..|n.blenders|][j];
    }
  }

  /**
   * Driven transforms added once the solver holds exactly its first pose
   * (the usual `default`) are in lockstep with it: the new blender's base
   * pose sits in slot 0 and its weight 0 is connected to output 0.
   */
  lemma AddDrivenKeepsLockstep(n: Network, nodes: seq<string>, edit: bool, elsewhere: set<string>, scene: Scene)
    requires Lockstep(n) && |n.targets| == 1
    ensures Lockstep(AddDrivenTransforms(n, nodes, edit, elsewhere, scene).1)
  {
    AddDrivenAppends(n, nodes, edit, elsewhere, scene);
    var r := AddDrivenTransforms(n, nodes, edit, elsewhere, scene).1;
    forall j | 0 <= j < |r.blenders| ensures InStep(r, r.blenders[j], 1) {
      if j < |n.blenders| {
        assert r.blenders[j] == n.blenders[j];
        assert InStep(n, n.blenders[j], 1);
      } else {
        var b := r.blenders[j];
        assert At(b.weights, 0) == Some(WeightPlug(ElementPlug(n.name + ".outputs", 0)));
      }
    }
  }
}
