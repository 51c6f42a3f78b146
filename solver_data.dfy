/**
 * `RBFNode.data()` and `RBFNode.create_from_data` (`v2/model/api.py`): a
 * solver's setup as a record, and a solver built up from such a record
 * through `add_driver`, `add_controller`, `add_driven_transforms` and
 * `add_pose`.
 */
module SolverData {
  import opened Wrappers
  import opened Host
  import opened BlenderModel
  import opened SolverModel
  import SolverPoses
  import SolverWiring
  import Solver
  import OD = OrderedDict

  /** The part of `data()` the model keeps: the name, drivers, driven transforms, controllers and poses. */
  datatype SolverRecord = SolverRecord(
    solverName: string,
    drivers: seq<string>,
    drivenTransforms: seq<Option<string>>,
    controllers: seq<string>,
    poses: Poses)

  /** `driven_nodes(UEPoseBlenderNode)`: the driven transform of each blender, in connection order. */
  function DrivenTransforms(bs: seq<Blender>): (r: seq<Option<string>>)
    ensures |r| == |bs|
  {
    seq(|bs|, j requires 0 <= j < |bs| => bs[j].driven)
  }

  /** `data()`: the record, or the error `poses()` raises. */
  function Data(n: Network): (r: Result<SolverRecord>)
    ensures r.Ok? <==> AllPoses(n).Ok?
  {
    match AllPoses(n)
    case Err(e) => Err(e)
    case Ok(poses) => Ok(SolverRecord(n.name, n.drivers, DrivenTransforms(n.blenders), n.controllers, poses))
  }

  /** The targets a list of pose records describes, in order. */
  function Targets(poses: Poses): (r: seq<Target>)
    ensures |r| == |poses|
  {
    seq(|poses|, i requires 0 <= i < |poses| =>
      Target(poses[i].0, poses[i].1.drivers, poses[i].1.controllers, poses[i].1.enabled))
  }

  /**
   * On a valid, well-formed solver `data()` succeeds and lists every pose
   * under its name, in index order, with its matrices and enable flag.
   */
  lemma DataOfValid(n: Network)
    requires Valid(n) && WellFormed(n)
    ensures Data(n).Ok?
    ensures var d := Data(n).value;
      && d.solverName == n.name && d.drivers == n.drivers && d.controllers == n.controllers
      && d.drivenTransforms == DrivenTransforms(n.blenders)
      && d.poses == Records(n) && OD.UniqueKeys(d.poses)
      && Targets(d.poses) == n.targets
  {
    PosesExact(n);
  }

  /** What `create_from_data` reads from `data()`, without the records' driven part. */
  lemma DataShape(n: Network)
    requires Valid(n) && WellFormed(n)
    ensures Data(n).Ok?
    ensures var d := Data(n).value;
      && d.solverName == n.name && d.drivers == n.drivers && d.controllers == n.controllers
      && d.drivenTransforms == DrivenTransforms(n.blenders)
      && OD.UniqueKeys(d.poses) && Targets(d.poses) == n.targets
  {
    DataOfValid(n);
  }

  // ------------------------------------------------- create_from_data

  /** The nodes of `nodes` not in `existing`, each once, in order of first occurrence. */
  function Unseen(existing: seq<string>, nodes: seq<string>): (r: seq<string>)
    ensures forall i :: 0 <= i < |r| ==> r[i] in nodes && r[i] !in existing
    decreases |nodes|
  {
    if nodes == [] then []
    else if nodes[0] in existing then Unseen(existing, nodes[1..])
    else [nodes[0]] + Unseen(existing + [nodes[0]], nodes[1..])
  }

  /** The drivers loop: `add_driver` for each driver `has_driver` does not find. A refusal ends it. */
  function AddMissingDrivers(n: Network, nodes: seq<string>, scene: Scene): Result<Network>
    decreases |nodes|
  {
    if nodes == [] then Ok(n)
    else if nodes[0] in n.drivers then AddMissingDrivers(n, nodes[1..], scene)
    else
      var (o, m) := SolverWiring.AddDriver(n, [nodes[0]], scene);
      if o.Err? then Err(o.error) else AddMissingDrivers(m, nodes[1..], scene)
  }

  /** The controllers loop: `add_controller` for each controller `has_controller` does not find. */
  function AddMissingControllers(n: Network, nodes: seq<string>, scene: Scene): Result<Network>
    decreases |nodes|
  {
    if nodes == [] then Ok(n)
    else if nodes[0] in n.controllers then AddMissingControllers(n, nodes[1..], scene)
    else
      var (o, m) := SolverWiring.AddController(n, [nodes[0]], scene);
      if o.Err? then Err(o.error) else AddMissingControllers(m, nodes[1..], scene)
  }

  /** The driven transforms up to the first missing one. */
  function Present(ts: seq<Option<string>>): (r: seq<string>)
    ensures |r| <= |ts|
    ensures forall i :: 0 <= i < |r| ==> ts[i] == Some(r[i])
    ensures |r| < |ts| ==> ts[|r|].None?
  {
    if ts == [] || ts[0].None? then [] else [ts[0].value] + Present(ts[1..])
  }

  /**
   * The driven step: `add_driven_transforms(edit=False)` when the list is
   * not empty. The host query on a missing transform (`None`) raises, after
   * the transforms before it have been given their blenders.
   */
  function AddDriven(n: Network, ts: seq<Option<string>>, elsewhere: set<string>, scene: Scene): Result<Network>
  {
    if ts == [] then Ok(n)
    else
      var names := Present(ts);
      var (o, m) := SolverWiring.AddDrivenTransforms(n, names, false, elsewhere, scene);
      if o.Err? then Err(o.error)
      else if |names| < |ts| then Err(TypeError)
      else Ok(m)
  }

  /** The poses loop: `add_pose` for each record in order, with the record's driver and controller matrices. */
  function AddPoses(n: Network, drivers: seq<string>, poses: Poses, scene: Scene): Result<Network>
    decreases |poses|
  {
    if poses == [] then Ok(n)
    else
      var (name, p) := poses[0];
      match AddPose(n, name, drivers, Some(p.drivers), p.controllers, p.driven, p.enabled, scene)
      case Err(e) => Err(e)
      case Ok(m) => AddPoses(m, drivers, poses[1..], scene)
  }

  /** `create_from_data` on the solver `n` of the record's name: drivers, controllers, driven transforms, poses. */
  function CreateFromData(n: Network, data: SolverRecord, elsewhere: set<string>, scene: Scene): Result<Network>
  {
    match AddMissingDrivers(n, data.drivers, scene)
    case Err(e) => Err(e)
    case Ok(n1) =>
      match AddMissingControllers(n1, data.controllers, scene)
      case Err(e) => Err(e)
      case Ok(n2) =>
        match AddDriven(n2, data.drivenTransforms, elsewhere, scene)
        case Err(e) => Err(e)
        case Ok(n3) => AddPoses(n3, data.drivers, data.poses, scene)
  }

  /**
   * `create_from_data`: the solver of the record's name is used when it
   * exists (`existing`), else created; then every step runs in turn on it
   * and the first failure ends the load.
   */
  method Load(data: SolverRecord, existing: Solver.RbfNode?, elsewhere: set<string>, scene: Scene)
    returns (node: Solver.RbfNode, r: Outcome)
    requires existing != null ==> existing.name == data.solverName
    modifies existing
    ensures existing != null ==> node == existing
    ensures existing == null ==> fresh(node)
    ensures Solver.Settled(r, node.Net(), CreateFromData(
      if existing != null then old(existing.Net()) else EmptyNetwork(data.solverName), data, elsewhere, scene))
  {
    if existing == null {
      node := new Solver.RbfNode(data.solverName);
    } else {
      node := existing;
    }
    ghost var start := node.Net();
    r := LoadDrivers(node, data.drivers, scene);
    if r.Err? {
      return;
    }
    r := LoadControllers(node, data.controllers, scene);
    if r.Err? {
      return;
    }
    r := LoadDriven(node, data.drivenTransforms, elsewhere, scene);
    if r.Err? {
      return;
    }
    r := LoadPoses(node, data.drivers, data.poses, scene);
  }

  /** The drivers loop of `create_from_data`. */
  method LoadDrivers(node: Solver.RbfNode, drivers: seq<string>, scene: Scene) returns (r: Outcome)
    modifies node
    ensures Solver.Settled(r, node.Net(), AddMissingDrivers(old(node.Net()), drivers, scene))
  {
    ghost var start := node.Net();
    var k := 0;
    while k < |drivers|
      invariant 0 <= k <= |drivers|
      invariant AddMissingDrivers(node.Net(), drivers[k..], scene) == AddMissingDrivers(start, drivers, scene)
    {
      var driver := drivers[k];
      assert drivers[k..][0] == driver && drivers[k..][1..] == drivers[k + 1..];
      if driver !in node.drivers {
        r := node.AddDriver([driver], scene);
        if r.Err? {
          return;
        }
      }
      k := k + 1;
    }
    r := Done;
  }

  /** The controllers loop of `create_from_data`. */
  method LoadControllers(node: Solver.RbfNode, controllers: seq<string>, scene: Scene) returns (r: Outcome)
    modifies node
    ensures Solver.Settled(r, node.Net(), AddMissingControllers(old(node.Net()), controllers, scene))
  {
    ghost var start := node.Net();
    var k := 0;
    while k < |controllers|
      invariant 0 <= k <= |controllers|
      invariant AddMissingControllers(node.Net(), controllers[k..], scene) == AddMissingControllers(start, controllers, scene)
    {
      var controller := controllers[k];
      assert controllers[k..][0] == controller && controllers[k..][1..] == controllers[k + 1..];
      if controller !in node.controllers {
        r := node.AddController([controller], scene);
        if r.Err? {
          return;
        }
      }
      k := k + 1;
    }
    r := Done;
  }

  /** The driven transforms step of `create_from_data`. */
  method LoadDriven(node: Solver.RbfNode, ts: seq<Option<string>>, elsewhere: set<string>, scene: Scene)
    returns (r: Outcome)
    modifies node
    ensures Solver.Settled(r, node.Net(), AddDriven(old(node.Net()), ts, elsewhere, scene))
  {
    r := Done;
    if ts != [] {
      var names := Present(ts);
      r := node.AddDrivenTransforms(names, false, elsewhere, scene);
      if r.Ok? {
        r := if |names| < |ts| then Err(TypeError) else Done;
      }
    }
  }

  /** The poses loop of `create_from_data`. */
  method LoadPoses(node: Solver.RbfNode, drivers: seq<string>, poses: Poses, scene: Scene) returns (r: Outcome)
    modifies node
    ensures Solver.Settled(r, node.Net(), AddPoses(old(node.Net()), drivers, poses, scene))
  {
    ghost var start := node.Net();
    var k := 0;
    while k < |poses|
      invariant 0 <= k <= |poses|
      invariant AddPoses(node.Net(), drivers, poses[k..], scene) == AddPoses(start, drivers, poses, scene)
    {
      var (poseName, p) := poses[k];
      ghost var before := node.Net();
      assert poses[k..][0] == (poseName, p) && poses[k..][1..] == poses[k + 1..];
      r := node.AddPose(poseName, drivers, Some(p.drivers), p.controllers, p.driven, p.enabled, scene);
      if r.Err? {
        return;
      }
      AddPosesStep(before, drivers, poses[k..], scene, node.Net());
      k := k + 1;
    }
    assert poses[k..] == [];
    assert AddPoses(node.Net(), drivers, [], scene) == Ok(node.Net());
    r := Done;
  }

  // ------------------------------------------------------------ lemmas

  /** `Unseen` keeps exactly the nodes not in `existing`, each once. */
  lemma {:induction false} UnseenMembers(existing: seq<string>, nodes: seq<string>)
    ensures forall x :: x in Unseen(existing, nodes) <==> x in nodes && x !in existing
    ensures SolverWiring.NoDuplicates(Unseen(existing, nodes))
    decreases |nodes|
  {
    if nodes != [] {
      var x := nodes[0];
      if x in existing {
        UnseenMembers(existing, nodes[1..]);
        assert forall y :: y in nodes <==> y == x || y in nodes[1..];
      } else {
        UnseenMembers(existing + [x], nodes[1..]);
        assert forall y :: y in nodes <==> y == x || y in nodes[1..];
        var u := Unseen(existing + [x], nodes[1..]);
        assert x !in u;
      }
    }
  }

  /** Nodes given once each and none of them in `existing` are all unseen, in their order. */
  lemma {:induction false} UnseenOfFresh(existing: seq<string>, nodes: seq<string>)
    requires SolverWiring.NoDuplicates(nodes) && forall i :: 0 <= i < |nodes| ==> nodes[i] !in existing
    ensures Unseen(existing, nodes) == nodes
    decreases |nodes|
  {
    if nodes != [] {
      var x := nodes[0];
      assert forall i :: 0 <= i < |nodes[1..]| ==> nodes[1..][i] == nodes[i + 1] && nodes[i + 1] != x;
      UnseenOfFresh(existing + [x], nodes[1..]);
      assert [x] + nodes[1..] == nodes;
    }
  }

  /**
   * While the solver holds at most one pose, the drivers loop of
   * `create_from_data` connects every listed transform it does not have
   * yet, once, in list order, each with its current matrix as rest matrix.
   */
  lemma {:induction false} AddMissingDriversAppends(n: Network, nodes: seq<string>, scene: Scene)
    requires |n.targets| <= 1 && forall i :: 0 <= i < |nodes| ==> nodes[i] in scene.transforms
    ensures var u := Unseen(n.drivers, nodes);
      AddMissingDrivers(n, nodes, scene) ==
      Ok(n.(drivers := n.drivers + u, rest := n.rest + LocalMatrices(scene, u).value))
    decreases |nodes|
  {
    if nodes == [] {
      assert n.(drivers := n.drivers + [], rest := n.rest + []) == n;
    } else if nodes[0] in n.drivers {
      assert AddMissingDrivers(n, nodes, scene) == AddMissingDrivers(n, nodes[1..], scene);
      assert Unseen(n.drivers, nodes) == Unseen(n.drivers, nodes[1..]);
      AddMissingDriversAppends(n, nodes[1..], scene);
    } else {
      var m := AddOneDriver(n, nodes[0], scene);
      AddMissingDriversAppends(m, nodes[1..], scene);
      DriversStep(n, nodes, scene, m);
    }
  }

  /** One connected driver followed by the rest of the loop is the whole loop. */
  lemma DriversStep(n: Network, nodes: seq<string>, scene: Scene, m: Network)
    requires nodes != [] && nodes[0] !in n.drivers && forall i :: 0 <= i < |nodes| ==> nodes[i] in scene.transforms
    requires SolverWiring.AddDriver(n, [nodes[0]], scene).0.Ok? && SolverWiring.AddDriver(n, [nodes[0]], scene).1 == m
    requires m == n.(drivers := n.drivers + [nodes[0]], rest := n.rest + [scene.transforms[nodes[0]]])
    requires var u := Unseen(m.drivers, nodes[1..]);
      AddMissingDrivers(m, nodes[1..], scene) ==
      Ok(m.(drivers := m.drivers + u, rest := m.rest + LocalMatrices(scene, u).value))
    ensures var u := Unseen(n.drivers, nodes);
      AddMissingDrivers(n, nodes, scene) ==
      Ok(n.(drivers := n.drivers + u, rest := n.rest + LocalMatrices(scene, u).value))
  {
    var x := nodes[0];
    assert AddMissingDrivers(n, nodes, scene) == AddMissingDrivers(m, nodes[1..], scene);
    var u := Unseen(m.drivers, nodes[1..]);
    var cu := LocalMatrices(scene, u).value;
    var all := Unseen(n.drivers, nodes);
    assert all == [x] + u;
    assert all[1..] == u;
    assert LocalMatrices(scene, all).value == [scene.transforms[x]] + cu;
    AppendAssoc(n.drivers, [x], u);
    AppendAssoc(n.rest, [scene.transforms[x]], cu);
  }

  lemma AppendAssoc<T>(a: seq<T>, b: seq<T>, c: seq<T>)
    ensures a + b + c == a + (b + c)
  {
  }

  /** `add_driver` of one transform not connected yet appends it with its current matrix. */
  lemma AddOneDriver(n: Network, x: string, scene: Scene) returns (m: Network)
    requires |n.targets| <= 1 && x in scene.transforms && x !in n.drivers
    ensures SolverWiring.AddDriver(n, [x], scene).0.Ok? && SolverWiring.AddDriver(n, [x], scene).1 == m
    ensures m == n.(drivers := n.drivers + [x], rest := n.rest + [scene.transforms[x]])
  {
    assert SolverWiring.Connectable(n.drivers, [x], scene) by {
      assert [x][..0] == [];
    }
    SolverWiring.AddDriverAppends(n, [x], scene);
    m := SolverWiring.AddDriver(n, [x], scene).1;
    assert SolverPoses.CurrentMatrices(scene, [x]) == [scene.transforms[x]];
  }

  /** On a solver without poses, the controllers loop connects every listed transform it lacks, once, in order. */
  lemma {:induction false} AddMissingControllersAppends(n: Network, nodes: seq<string>, scene: Scene)
    requires |n.targets| == 0 && forall i :: 0 <= i < |nodes| ==> nodes[i] in scene.transforms
    ensures AddMissingControllers(n, nodes, scene) == Ok(n.(controllers := n.controllers + Unseen(n.controllers, nodes)))
    decreases |nodes|
  {
    if nodes == [] {
      assert n.(controllers := n.controllers + []) == n;
    } else {
      var x := nodes[0];
      if x in n.controllers {
        assert AddMissingControllers(n, nodes, scene) == AddMissingControllers(n, nodes[1..], scene);
        assert Unseen(n.controllers, nodes) == Unseen(n.controllers, nodes[1..]);
        AddMissingControllersAppends(n, nodes[1..], scene);
      } else {
        assert SolverWiring.Connectable(n.controllers, [x], scene) by {
          assert [x][..0] == [];
        }
        SolverWiring.AddControllerAppends(n, [x], scene);
        var m := SolverWiring.AddController(n, [x], scene).1;
        assert m == n.(controllers := n.controllers + [x]) by {
          assert [x][..1] == [x];
        }
        assert AddMissingControllers(n, nodes, scene) == AddMissingControllers(m, nodes[1..], scene);
        AddMissingControllersAppends(m, nodes[1..], scene);
        var u := Unseen(m.controllers, nodes[1..]);
        assert Unseen(n.controllers, nodes) == [x] + u;
        AppendAssoc(n.controllers, [x], u);
      }
    }
  }

  /**
   * `add_driven_transforms` of distinct transforms none of which drives a
   * blender yet gives each its own new blender, appended in list order.
   */
  lemma {:induction false} AddDrivenFresh(n: Network, names: seq<string>, elsewhere: set<string>, scene: Scene)
    requires SolverWiring.NoDuplicates(names)
    requires forall i :: 0 <= i < |names| ==> scene.IsTransform(names[i]) && !SolverWiring.Connected(n, elsewhere, names[i])
    ensures var r := SolverWiring.AddDrivenTransforms(n, names, false, elsewhere, scene);
      && r.0.Ok?
      && r.1 == n.(blenders := r.1.blenders)
      && |r.1.blenders| == |n.blenders| + |names|
      && r.1.blenders[..|n.blenders|] == n.blenders
      && forall i :: 0 <= i < |names| ==> SolverWiring.NewBlender(n, names[i], false, scene) == Ok(r.1.blenders[|n.blenders| + i])
    decreases |names|
  {
    if names != [] {
      var x := names[0];
      var b := SolverWiring.NewBlender(n, x, false, scene).value;
      var m := n.(blenders := n.blenders + [b]);
      forall i | 0 <= i < |names[1..]|
        ensures scene.IsTransform(names[1..][i]) && !SolverWiring.Connected(m, elsewhere, names[1..][i])
      {
        assert names[1..][i] == names[i + 1] != x;
        SolverWiring.ConnectedAfterAppend(n, b, elsewhere, names[i + 1]);
      }
      AddDrivenFresh(m, names[1..], elsewhere, scene);
      assert SolverWiring.AddDrivenTransforms(n, names, false, elsewhere, scene) ==
             SolverWiring.AddDrivenTransforms(m, names[1..], false, elsewhere, scene);
      DrivenFreshJoin(n, names, b, SolverWiring.AddDrivenTransforms(m, names[1..], false, elsewhere, scene).1.blenders, scene);
    }
  }

  /** The blenders after the first one, made on the solver with one more blender, are made alike on the solver before. */
  lemma DrivenFreshJoin(n: Network, names: seq<string>, b: Blender, bs: seq<Blender>, scene: Scene)
    requires names != [] && SolverWiring.NewBlender(n, names[0], false, scene) == Ok(b)
    requires |bs| == |n.blenders| + |names| && bs[..|n.blenders| + 1] == n.blenders + [b]
    requires forall i :: 0 <= i < |names[1..]| ==>
      SolverWiring.NewBlender(n.(blenders := n.blenders + [b]), names[1..][i], false, scene) == Ok(bs[|n.blenders| + 1 + i])
    ensures bs[..|n.blenders|] == n.blenders
    ensures forall i :: 0 <= i < |names| ==> SolverWiring.NewBlender(n, names[i], false, scene) == Ok(bs[|n.blenders| + i])
  {
    assert bs[..|n.blenders|] == bs[..|n.blenders| + 1][..|n.blenders|];
    forall i | 0 <= i < |names| ensures SolverWiring.NewBlender(n, names[i], false, scene) == Ok(bs[|n.blenders| + i]) {
      if i == 0 {
        assert bs[|n.blenders|] == bs[..|n.blenders| + 1][|n.blenders|];
      } else {
        assert names[i] == names[1..][i - 1];
      }
    }
  }

  /** Records `add_pose` can take on `n`: new non-empty names, one matrix per driver, one per controller. */
  predicate Fits(n: Network, poses: Poses)
  {
    forall i :: 0 <= i < |poses| ==>
      && poses[i].0 != "" && PoseIndex(n.targets, poses[i].0) == -1
      && poses[i].1.drivers != [] && |poses[i].1.drivers| == |n.drivers| && |poses[i].1.controllers| == |n.controllers|
  }

  /**
   * The poses loop of `create_from_data` over records that fit the solver
   * appends one target per record, in order, with the record's name,
   * matrices and enable flag; drivers, controllers and the blenders' driven
   * transforms stay as they were.
   */
  lemma {:induction false} AddPosesAppends(n: Network, drivers: seq<string>, poses: Poses, scene: Scene)
    requires Valid(n) && WellFormed(n) && Coherent(n, scene)
    requires OD.UniqueKeys(poses) && Fits(n, poses)
    ensures var r := AddPoses(n, drivers, poses, scene);
      && r.Ok?
      && r.value == n.(targets := n.targets + Targets(poses), outputs := r.value.outputs, blenders := r.value.blenders)
      && DrivenTransforms(r.value.blenders) == DrivenTransforms(n.blenders)
    decreases |poses|
  {
    if poses == [] {
      assert n.targets + Targets(poses) == n.targets;
    } else {
      var m := AddFirstPose(n, drivers, poses, scene);
      AddPosesAppends(m, drivers, poses[1..], scene);
      PosesJoin(n, m, drivers, poses, scene);
    }
  }

  /** The first pose and the rest of the loop together. */
  lemma PosesJoin(n: Network, m: Network, drivers: seq<string>, poses: Poses, scene: Scene)
    requires poses != []
    requires AddPoses(n, drivers, poses, scene) == AddPoses(m, drivers, poses[1..], scene)
    requires m == n.(targets := n.targets + [Targets(poses)[0]], outputs := m.outputs, blenders := m.blenders)
    requires DrivenTransforms(m.blenders) == DrivenTransforms(n.blenders)
    requires var r := AddPoses(m, drivers, poses[1..], scene);
      && r.Ok?
      && r.value == m.(targets := m.targets + Targets(poses[1..]), outputs := r.value.outputs, blenders := r.value.blenders)
      && DrivenTransforms(r.value.blenders) == DrivenTransforms(m.blenders)
    ensures var r := AddPoses(n, drivers, poses, scene);
      && r.Ok?
      && r.value == n.(targets := n.targets + Targets(poses), outputs := r.value.outputs, blenders := r.value.blenders)
      && DrivenTransforms(r.value.blenders) == DrivenTransforms(n.blenders)
  {
    var r := AddPoses(m, drivers, poses[1..], scene).value;
    TargetsCons(poses);
    AppendAssoc(n.targets, [Targets(poses)[0]], Targets(poses[1..]));
    assert r.targets == n.targets + Targets(poses);
    assert r.name == n.name && r.drivers == n.drivers && r.rest == n.rest && r.controllers == n.controllers;
  }

  lemma TargetsCons(poses: Poses)
    requires poses != []
    ensures Targets(poses) == [Targets(poses)[0]] + Targets(poses[1..])
  {
  }

  /** The first iteration of the poses loop on records that fit: the rest still fit the grown solver. */
  lemma AddFirstPose(n: Network, drivers: seq<string>, poses: Poses, scene: Scene) returns (m: Network)
    requires Valid(n) && WellFormed(n) && Coherent(n, scene)
    requires poses != [] && OD.UniqueKeys(poses) && Fits(n, poses)
    ensures AddPoses(n, drivers, poses, scene) == AddPoses(m, drivers, poses[1..], scene)
    ensures m == n.(targets := n.targets + [Targets(poses)[0]], outputs := m.outputs, blenders := m.blenders)
    ensures DrivenTransforms(m.blenders) == DrivenTransforms(n.blenders)
    ensures Valid(m) && WellFormed(m) && Coherent(m, scene)
    ensures OD.UniqueKeys(poses[1..]) && Fits(m, poses[1..])
  {
    var (name, p) := poses[0];
    assert DriverMatrices(drivers, Some(p.drivers), scene) == Ok(Some(p.drivers));
    AddPoseSucceeds(n, name, drivers, Some(p.drivers), p.controllers, p.driven, p.enabled, scene);
    var r := Added(n, name, p.drivers, p.controllers, p.driven, p.enabled, scene);
    m := r.value;
    AddedKeepsNames(n, name, p.drivers, p.controllers, p.driven, p.enabled, scene);
    AddedKeepsShape(n, name, p.drivers, p.controllers, p.driven, p.enabled, scene);
    AddedKeepsDriven(n, name, p.drivers, p.controllers, p.driven, p.enabled, scene);
    assert AddPose(n, name, drivers, Some(p.drivers), p.controllers, p.driven, p.enabled, scene) == Ok(m);
    AddPosesStep(n, drivers, poses, scene, m);
    var t := Target(name, p.drivers, p.controllers, p.enabled);
    assert Targets(poses)[0] == t;
    FitsTail(n, m, t, poses);
  }

  /** One step of the poses loop. */
  lemma AddPosesStep(n: Network, drivers: seq<string>, poses: Poses, scene: Scene, m: Network)
    requires poses != []
    requires AddPose(n, poses[0].0, drivers, Some(poses[0].1.drivers), poses[0].1.controllers, poses[0].1.driven,
                     poses[0].1.enabled, scene) == Ok(m)
    ensures AddPoses(n, drivers, poses, scene) == AddPoses(m, drivers, poses[1..], scene)
  {
  }

  /** Once the first record is added, the others still fit: their names differ from it. */
  lemma FitsTail(n: Network, m: Network, t: Target, poses: Poses)
    requires poses != [] && OD.UniqueKeys(poses) && Fits(n, poses)
    requires m.targets == n.targets + [t] && t.name == poses[0].0
    requires m.drivers == n.drivers && m.controllers == n.controllers
    ensures OD.UniqueKeys(poses[1..]) && Fits(m, poses[1..])
  {
    forall i | 1 <= i < |poses| ensures PoseIndex(m.targets, poses[i].0) == -1 {
      assert poses[i].0 != poses[0].0;
      assert PoseIndex(n.targets, poses[i].0) == -1;
    }
    forall i | 0 <= i < |poses[1..]| ensures poses[1..][i] == poses[i + 1] { }
  }

  /** `add_pose` changes no blender's driven transform, so every transform referred to stays one. */
  lemma AddedKeepsDriven(n: Network, name: string, ms: seq<Matrix>, cms: seq<Matrix>, driven: Driven, enable: bool,
                         scene: Scene)
    requires Added(n, name, ms, cms, driven, enable, scene).Ok?
    ensures var r := Added(n, name, ms, cms, driven, enable, scene).value;
      && DrivenTransforms(r.blenders) == DrivenTransforms(n.blenders)
      && (Coherent(n, scene) ==> Coherent(r, scene))
  {
    var r := Added(n, name, ms, cms, driven, enable, scene).value;
    forall j | 0 <= j < |n.blenders| ensures r.blenders[j].driven == n.blenders[j].driven {
      assert AddPoseToBlender(n.blenders[j], |n.targets|, name, driven, OutputPlug(n, |n.targets|), scene) == Ok(r.blenders[j]);
    }
  }

  // ------------------------------------------------------- round trip

  /**
   * `create_from_data(data())` into a fresh solver rebuilds a valid solver:
   * the same name, drivers, controllers and poses (in order, with their
   * matrices and enable flags) and one blender per driven transform, in the
   * same order. The rest matrices are read again from the scene, as
   * `add_driver` does.
   */
  lemma RebuiltFromData(n: Network, scene: Scene)
    requires Valid(n) && WellFormed(n) && Coherent(n, scene) && DistinctDriven(n.blenders)
    requires SolverWiring.NoDuplicates(n.drivers) && SolverWiring.NoDuplicates(n.controllers)
    ensures Data(n).Ok?
    ensures var r := CreateFromData(EmptyNetwork(n.name), Data(n).value, {}, scene);
      && r.Ok?
      && r.value.name == n.name
      && r.value.drivers == n.drivers
      && r.value.rest == LocalMatrices(scene, n.drivers).value
      && r.value.controllers == n.controllers
      && r.value.targets == n.targets
      && DrivenTransforms(r.value.blenders) == DrivenTransforms(n.blenders)
  {
    DataShape(n);
    var q := Rebuilt(n, Data(n).value, scene);
  }

  /** The steps of `create_from_data` one after another on the record of `n`. */
  lemma Rebuilt(n: Network, d: SolverRecord, scene: Scene) returns (q: Network)
    requires Valid(n) && WellFormed(n) && Coherent(n, scene) && DistinctDriven(n.blenders)
    requires SolverWiring.NoDuplicates(n.drivers) && SolverWiring.NoDuplicates(n.controllers)
    requires d.solverName == n.name && d.drivers == n.drivers && d.controllers == n.controllers
    requires d.drivenTransforms == DrivenTransforms(n.blenders) && OD.UniqueKeys(d.poses) && Targets(d.poses) == n.targets
    ensures CreateFromData(EmptyNetwork(n.name), d, {}, scene) == Ok(q)
    ensures q.name == n.name && q.drivers == n.drivers && q.controllers == n.controllers && q.targets == n.targets
    ensures q.rest == LocalMatrices(scene, n.drivers).value
    ensures DrivenTransforms(q.blenders) == DrivenTransforms(n.blenders)
  {
    var n1, n2 := RebuiltWiring(n, scene);
    var n3 := RebuiltDriven(n, n2, scene);
    CreateChain(EmptyNetwork(n.name), d, {}, scene, n1, n2, n3);
    RebuiltFits(n, n3, d.poses);
    AddPosesAppends(n3, n.drivers, d.poses, scene);
    q := AddPoses(n3, n.drivers, d.poses, scene).value;
    assert [] + Targets(d.poses) == n.targets;
    assert q.name == n.name && q.drivers == n.drivers && q.controllers == n.controllers && q.targets == n.targets;
    assert q.rest == LocalMatrices(scene, n.drivers).value;
  }

  /** The drivers and controllers loops on a fresh solver connect the recorded ones, in their order. */
  lemma RebuiltWiring(n: Network, scene: Scene) returns (n1: Network, n2: Network)
    requires Coherent(n, scene)
    requires SolverWiring.NoDuplicates(n.drivers) && SolverWiring.NoDuplicates(n.controllers)
    ensures AddMissingDrivers(EmptyNetwork(n.name), n.drivers, scene) == Ok(n1)
    ensures AddMissingControllers(n1, n.controllers, scene) == Ok(n2)
    ensures n2 == Network(n.name, n.drivers, LocalMatrices(scene, n.drivers).value, n.controllers, [], 0, [])
  {
    var e := EmptyNetwork(n.name);
    AddMissingDriversAppends(e, n.drivers, scene);
    UnseenOfFresh([], n.drivers);
    var rest := LocalMatrices(scene, n.drivers).value;
    assert [] + n.drivers == n.drivers && [] + rest == rest;
    n1 := e.(drivers := n.drivers, rest := rest);
    AddMissingControllersAppends(n1, n.controllers, scene);
    UnseenOfFresh([], n.controllers);
    assert [] + n.controllers == n.controllers;
    n2 := n1.(controllers := n.controllers);
  }

  /** The steps of `create_from_data` before the poses loop, once they succeed. */
  lemma CreateChain(n: Network, data: SolverRecord, elsewhere: set<string>, scene: Scene, n1: Network, n2: Network, n3: Network)
    requires AddMissingDrivers(n, data.drivers, scene) == Ok(n1)
    requires AddMissingControllers(n1, data.controllers, scene) == Ok(n2)
    requires AddDriven(n2, data.drivenTransforms, elsewhere, scene) == Ok(n3)
    ensures CreateFromData(n, data, elsewhere, scene) == AddPoses(n3, data.drivers, data.poses, scene)
  {
  }

  /** The driven step on a solver without blenders gives one new blender per recorded driven transform, in order. */
  lemma RebuiltDriven(n: Network, n2: Network, scene: Scene) returns (n3: Network)
    requires Coherent(n, scene) && DistinctDriven(n.blenders) && n2.blenders == [] && Coherent(n2, scene)
    ensures AddDriven(n2, DrivenTransforms(n.blenders), {}, scene) == Ok(n3)
    ensures n3 == n2.(blenders := n3.blenders)
    ensures DrivenTransforms(n3.blenders) == DrivenTransforms(n.blenders)
    ensures Coherent(n3, scene)
  {
    var ts := DrivenTransforms(n.blenders);
    if ts == [] {
      n3 := n2;
    } else {
      var names := DrivenNames(n, scene);
      AddDrivenFresh(n2, names, {}, scene);
      n3 := SolverWiring.AddDrivenTransforms(n2, names, false, {}, scene).1;
      FreshBlenders(n2, names, n3.blenders, scene);
    }
  }

  /** The driven transforms of distinct blenders on scene transforms, as names: all present, each once. */
  lemma DrivenNames(n: Network, scene: Scene) returns (names: seq<string>)
    requires Coherent(n, scene) && DistinctDriven(n.blenders)
    ensures names == Present(DrivenTransforms(n.blenders)) && |names| == |n.blenders|
    ensures forall i :: 0 <= i < |names| ==> n.blenders[i].driven == Some(names[i]) && scene.IsTransform(names[i])
    ensures SolverWiring.NoDuplicates(names)
  {
    var ts := DrivenTransforms(n.blenders);
    names := Present(ts);
    if |names| < |ts| {
      assert false;
    }
    forall i, j | 0 <= i < j < |names| ensures names[i] != names[j] {
      assert ts[i] == n.blenders[i].driven && ts[j] == n.blenders[j].driven;
    }
  }

  /** Blenders each made by `NewBlender` on the listed names drive those names, ready in the scene. */
  lemma FreshBlenders(n2: Network, names: seq<string>, bs: seq<Blender>, scene: Scene)
    requires |bs| == |n2.blenders| + |names| && n2.blenders == []
    requires forall i :: 0 <= i < |names| ==> SolverWiring.NewBlender(n2, names[i], false, scene) == Ok(bs[|n2.blenders| + i])
    ensures forall j :: 0 <= j < |bs| ==> bs[j].driven == Some(names[j]) && Ready(bs[j], scene)
  {
    forall j | 0 <= j < |bs| ensures bs[j].driven == Some(names[j]) && Ready(bs[j], scene) {
      assert SolverWiring.NewBlender(n2, names[j], false, scene) == Ok(bs[|n2.blenders| + j]);
    }
  }

  /** The records `data()` lists fit a solver with the same drivers and controllers and no poses. */
  lemma RebuiltFits(n: Network, n3: Network, poses: Poses)
    requires Valid(n) && WellFormed(n) && Targets(poses) == n.targets
    requires n3.targets == [] && n3.drivers == n.drivers && n3.controllers == n.controllers
    ensures Fits(n3, poses)
  {
    forall i | 0 <= i < |poses|
      ensures && poses[i].0 != "" && PoseIndex(n3.targets, poses[i].0) == -1
              && poses[i].1.drivers != [] && |poses[i].1.drivers| == |n3.drivers| && |poses[i].1.controllers| == |n3.controllers|
    {
      assert Targets(poses)[i] == n.targets[i];
      assert TargetWellFormed(n, n.targets[i]);
    }
  }

  /**
   * `create_from_data(data())` onto the very solver it came from: every
   * driver, controller and driven transform is already there and skipped,
   * and the first pose is refused because the solver has a pose of that
   * name.
   */
  lemma ReloadOntoSelf(n: Network, elsewhere: set<string>, scene: Scene)
    requires Valid(n) && WellFormed(n) && Coherent(n, scene) && n.targets != []
    ensures Data(n).Ok?
    ensures CreateFromData(n, Data(n).value, elsewhere, scene) == Err(InvalidPose)
  {
    DataShape(n);
    var d := Data(n).value;
    PresentDriversSkipped(n, n.drivers, scene);
    PresentControllersSkipped(n, n.controllers, scene);
    ReloadDriven(n, elsewhere, scene);
    CreateChain(n, d, elsewhere, scene, n, n, n);
    TakenRefused(n, d.drivers, d.poses, scene);
  }

  /** The poses loop stops at once, with `InvalidPose`, when the solver already has the first record's pose. */
  lemma TakenRefused(n: Network, drivers: seq<string>, poses: Poses, scene: Scene)
    requires Valid(n) && WellFormed(n) && n.targets != [] && poses != []
    requires Targets(poses)[0] == n.targets[0]
    ensures AddPoses(n, drivers, poses, scene) == Err(InvalidPose)
  {
    var (name, p) := poses[0];
    assert name == n.targets[0].name && p.drivers == n.targets[0].values;
    assert TargetWellFormed(n, n.targets[0]);
    HasPoseExact(n, name);
    assert DriverMatrices(drivers, Some(p.drivers), scene) == Ok(Some(p.drivers));
    assert AddPose(n, name, drivers, Some(p.drivers), p.controllers, p.driven, p.enabled, scene) == Err(InvalidPose);
  }

  /** The drivers loop skips every driver the solver already has. */
  lemma {:induction false} PresentDriversSkipped(n: Network, nodes: seq<string>, scene: Scene)
    requires forall x :: x in nodes ==> x in n.drivers
    ensures AddMissingDrivers(n, nodes, scene) == Ok(n)
    decreases |nodes|
  {
    if nodes != [] {
      assert nodes[0] in nodes;
      assert forall x :: x in nodes[1..] ==> x in nodes;
      PresentDriversSkipped(n, nodes[1..], scene);
    }
  }

  /** The controllers loop skips every controller the solver already has. */
  lemma {:induction false} PresentControllersSkipped(n: Network, nodes: seq<string>, scene: Scene)
    requires forall x :: x in nodes ==> x in n.controllers
    ensures AddMissingControllers(n, nodes, scene) == Ok(n)
    decreases |nodes|
  {
    if nodes != [] {
      assert nodes[0] in nodes;
      assert forall x :: x in nodes[1..] ==> x in nodes;
      PresentControllersSkipped(n, nodes[1..], scene);
    }
  }

  /** The driven step on the solver's own driven transforms changes nothing. */
  lemma ReloadDriven(n: Network, elsewhere: set<string>, scene: Scene)
    requires Coherent(n, scene)
    ensures AddDriven(n, DrivenTransforms(n.blenders), elsewhere, scene) == Ok(n)
  {
    var ts := DrivenTransforms(n.blenders);
    if ts != [] {
      var names := Present(ts);
      if |names| < |ts| {
        assert false;
      }
      forall i | 0 <= i < |names| ensures SolverWiring.Connected(n, elsewhere, names[i]) {
        assert n.blenders[i].driven == ts[i];
      }
      ConnectedSkipped(n, names, elsewhere, scene);
    }
  }

  /** `add_driven_transforms` of transforms that all drive a blender already does nothing. */
  lemma {:induction false} ConnectedSkipped(n: Network, names: seq<string>, elsewhere: set<string>, scene: Scene)
    requires forall i :: 0 <= i < |names| ==> SolverWiring.Connected(n, elsewhere, names[i])
    ensures SolverWiring.AddDrivenTransforms(n, names, false, elsewhere, scene) == (Done, n)
    decreases |names|
  {
    if names != [] {
      assert SolverWiring.Connected(n, elsewhere, names[0]);
      ConnectedSkipped(n, names[1..], elsewhere, scene);
    }
  }
}
