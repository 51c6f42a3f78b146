/**
 * The session facade `UERBFAPI` (`v2/main.py`): the solvers of the scene,
 * the current solver, the loaded extensions and, when there is a window,
 * the list of solvers it shows. Solvers are `Solver.RbfNode` objects; two
 * of them are the same solver when their names agree, as `RBFNode.__eq__`
 * compares `str(self)`.
 */
module Session {
  import opened Wrappers
  import opened Host
  import opened SolverModel
  import SolverPoses
  import SolverDelete
  import SolverWiring
  import Solver
  import SolverData
  import Text
  import OD = OrderedDict

  /** What is handed to the `current_solver` setter: a solver wrapper or any other object. */
  datatype Candidate = SolverNode(node: Solver.RbfNode) | NotASolver

  /** `PoseWranglerContext`: the new current solver and every solver of the scene. */
  datatype Context = Context(current: Solver.RbfNode, solvers: seq<Solver.RbfNode>)

  /** One `on_context_changed` call per extension, in loading order, all carrying `ctx`. */
  function Notices(extensions: seq<string>, ctx: Context): (r: seq<(string, Context)>)
    ensures |r| == |extensions|
    ensures forall i :: 0 <= i < |r| ==> r[i] == (extensions[i], ctx)
  {
    seq(|extensions|, i requires 0 <= i < |extensions| => (extensions[i], ctx))
  }

  // ------------------------------------------------------------ add_drivers

  /**
   * `add_drivers` on one solver: refused with InvalidPoseIndex once more
   * than one pose exists; otherwise an existing `default` pose is deleted,
   * the drivers are added and `default` is captured again from the current
   * matrices.
   */
  function AddDriversTo(n: Network, nodes: seq<string>, scene: Scene): (r: Result<Network>)
    ensures |n.targets| > 1 ==> r == Err(InvalidPoseIndex)
  {
    if |n.targets| > 1 then Err(InvalidPoseIndex)
    else
      match HasPose(n, "default")
      case Err(e) => Err(e)
      case Ok(has) =>
        match (if has then SolverDelete.DeletePose(n, "default", scene) else Ok(n))
        case Err(e) => Err(e)
        case Ok(m) =>
          var (o, m') := SolverWiring.AddDriver(m, nodes, scene);
          if o.Err? then Err(o.error) else SolverPoses.AddPoseFromCurrent(m', "default", false, scene)
  }

  /**
   * Starting from no pose or from `default` alone, adding drivers the
   * solver accepts leaves exactly one pose, `default`, holding the current
   * matrices of all drivers (old and new) and of the controllers; the new
   * drivers follow the old ones.
   */
  lemma AddDriversLeavesDefault(n: Network, nodes: seq<string>, scene: Scene)
    requires Valid(n) && WellFormed(n) && Lockstep(n) && DistinctDriven(n.blenders) && Coherent(n, scene)
    requires n.targets == [] || (|n.targets| == 1 && n.targets[0].name == "default")
    requires SolverWiring.Connectable(n.drivers, nodes, scene) && n.drivers + nodes != []
    ensures AddDriversTo(n, nodes, scene).Ok?
    ensures var r := AddDriversTo(n, nodes, scene).value;
      && r.drivers == n.drivers + nodes
      && (forall i :: 0 <= i < |r.drivers| ==> r.drivers[i] in scene.transforms)
      && r.targets == [Target("default", SolverPoses.CurrentMatrices(scene, r.drivers),
                              SolverPoses.CurrentMatrices(scene, n.controllers), true)]
  {
    HasPoseExact(n, "default");
    var m := Cleared(n, scene);
    var m' := DriversAppended(m, nodes, scene);
    SolverPoses.AddPoseFromCurrentRecords(m', "default", scene);
    AddDriversSteps(n, nodes, scene, m, m');
    var r := SolverPoses.AddPoseFromCurrent(m', "default", false, scene).value;
    assert r.drivers == m'.drivers && r.controllers == n.controllers;
  }

  /** `add_drivers` is its three steps in turn once the pose count allows it. */
  lemma AddDriversSteps(n: Network, nodes: seq<string>, scene: Scene, m: Network, m': Network)
    requires |n.targets| <= 1 && HasPose(n, "default").Ok?
    requires (if HasPose(n, "default").value then SolverDelete.DeletePose(n, "default", scene) else Ok(n)) == Ok(m)
    requires SolverWiring.AddDriver(m, nodes, scene).0.Ok? && SolverWiring.AddDriver(m, nodes, scene).1 == m'
    ensures AddDriversTo(n, nodes, scene) == SolverPoses.AddPoseFromCurrent(m', "default", false, scene)
  {
  }

  /** The second step of `add_drivers` on a solver without poses: the drivers are appended and all are transforms. */
  lemma DriversAppended(m: Network, nodes: seq<string>, scene: Scene) returns (m': Network)
    requires m.targets == [] && Coherent(m, scene) && SolverWiring.Connectable(m.drivers, nodes, scene)
    ensures SolverWiring.AddDriver(m, nodes, scene).0.Ok? && SolverWiring.AddDriver(m, nodes, scene).1 == m'
    ensures m'.drivers == m.drivers + nodes && m'.controllers == m.controllers && m'.targets == []
    ensures Valid(m') && WellFormed(m') && Coherent(m', scene)
  {
    SolverWiring.AddDriverAppends(m, nodes, scene);
    m' := SolverWiring.AddDriver(m, nodes, scene).1;
    forall i | 0 <= i < |m'.drivers| ensures scene.IsTransform(m'.drivers[i]) {
      if i >= |m.drivers| {
        assert m'.drivers[i] == nodes[i - |m.drivers|];
      }
    }
  }

  /** What the first part of `add_drivers` leaves: the solver without its `default` pose. */
  lemma Cleared(n: Network, scene: Scene) returns (m: Network)
    requires Valid(n) && WellFormed(n) && Lockstep(n) && DistinctDriven(n.blenders) && Coherent(n, scene)
    requires n.targets == [] || (|n.targets| == 1 && n.targets[0].name == "default")
    requires HasPose(n, "default") == Ok(PoseIndex(n.targets, "default") >= 0)
    ensures (if HasPose(n, "default").value then SolverDelete.DeletePose(n, "default", scene) else Ok(n)) == Ok(m)
    ensures m.targets == [] && m.drivers == n.drivers && m.controllers == n.controllers && Coherent(m, scene)
  {
    if n.targets == [] {
      m := n;
    } else {
      SolverDelete.DeletePoseErases(n, "default", scene);
      m := n.(targets := [], blenders := SolverDelete.ShiftedBlenders(n.blenders, 0));
      assert BlenderModel.Erase(n.targets, 0) == [];
      forall j | 0 <= j < |m.blenders| ensures Ready(m.blenders[j], scene) {
        assert Ready(n.blenders[j], scene);
      }
    }
  }

  // ------------------------------------------------------- solvers by name

  /** `get_rbf_solver_by_name`: the first solver whose name equals `name` ignoring case. */
  function SolverByName(solvers: seq<Solver.RbfNode>, name: string): (r: Option<nat>)
    reads solvers
    ensures r.None? <==> forall i :: 0 <= i < |solvers| ==> Text.Lower(solvers[i].name) != Text.Lower(name)
    ensures r.Some? ==> r.value < |solvers| && Text.Lower(solvers[r.value].name) == Text.Lower(name)
    ensures r.Some? ==> forall i :: 0 <= i < r.value ==> Text.Lower(solvers[i].name) != Text.Lower(name)
  {
    if solvers == [] then None
    else if Text.Lower(solvers[0].name) == Text.Lower(name) then Some(0)
    else
      match SolverByName(solvers[1..], name)
      case None => None
      case Some(k) => Some(k + 1)
  }

  /** The solvers of the scene other than the one named `name`. */
  function Without(solvers: seq<Solver.RbfNode>, name: string): (r: seq<Solver.RbfNode>)
    reads solvers
    ensures forall i :: 0 <= i < |r| ==> r[i] in solvers && r[i].name != name
    ensures forall i :: 0 <= i < |solvers| && solvers[i].name != name ==> solvers[i] in r
    ensures |r| <= |solvers|
  {
    if solvers == [] then []
    else (if solvers[0].name == name then [] else [solvers[0]]) + Without(solvers[1..], name)
  }

  // -------------------------------------------------------- serialisation

  /** The `deserialize` filter: every entry when no names are given, else the entries whose key is named. */
  predicate Wanted(key: string, names: seq<string>)
  {
    (names != [] && key in names) || names == []
  }

  /** The entries `deserialize` hands to `create_from_data`, in the order of the document. */
  function Selected<V>(data: seq<(string, V)>, names: seq<string>): (r: seq<(string, V)>)
    ensures |r| <= |data|
  {
    if data == [] then []
    else (if Wanted(data[0].0, names) then [data[0]] else []) + Selected(data[1..], names)
  }

  /** An entry is loaded exactly when it is in the document and, given names, its key is one of them. */
  lemma {:induction false} SelectedMembers<V>(data: seq<(string, V)>, names: seq<string>, e: (string, V))
    ensures e in Selected(data, names) <==> e in data && (names == [] || e.0 in names)
  {
    if data != [] {
      SelectedMembers(data[1..], names, e);
      assert e in data <==> e == data[0] || e in data[1..];
    }
  }

  /** Without names everything is loaded. */
  lemma {:induction false} SelectedAll<V>(data: seq<(string, V)>)
    ensures Selected(data, []) == data
  {
    if data != [] {
      SelectedAll(data[1..]);
    }
  }

  /** Selecting with a list and then with a sub-list of it is selecting with the sub-list. */
  lemma {:induction false} SelectedNarrows<V>(data: seq<(string, V)>, names: seq<string>, fewer: seq<string>)
    requires fewer != [] && forall x :: x in fewer ==> x in names
    ensures Selected(Selected(data, names), fewer) == Selected(data, fewer)
  {
    if data != [] {
      SelectedNarrows(data[1..], names, fewer);
      var all, rest := Selected(data, names), Selected(data[1..], names);
      if Wanted(data[0].0, names) {
        assert all == [data[0]] + rest;
        assert all[0] == data[0] && all[1..] == rest;
      } else {
        assert all == rest;
        assert !Wanted(data[0].0, fewer);
      }
    }
  }

  /** The solvers `serialize` covers: the given ones, or every solver of the scene when none are given. */
  function Chosen(given: seq<Network>, all: seq<Network>): (r: seq<Network>)
    ensures given != [] ==> r == given
    ensures given == [] ==> r == all
  {
    if given != [] then given else all
  }

  /** Each solver under `str(solver)`, with its `data()`. */
  function Records(ns: seq<Network>): (r: seq<(string, Result<SolverData.SolverRecord>)>)
    ensures |r| == |ns| && forall i :: 0 <= i < |ns| ==> r[i] == (ns[i].name, SolverData.Data(ns[i]))
  {
    seq(|ns|, i requires 0 <= i < |ns| => (ns[i].name, SolverData.Data(ns[i])))
  }

  /** `serialize(solvers)`: the comprehension over the solvers covered; a `data()` that raises ends it. */
  function Serialize(given: seq<Network>, all: seq<Network>): Result<OD.Dict<string, SolverData.SolverRecord>>
  {
    OD.Gather(Records(Chosen(given, all)))
  }

  /** `serialize` fails exactly when the `data()` of some solver covered raises. */
  lemma SerializeFails(given: seq<Network>, all: seq<Network>)
    ensures var ns := Chosen(given, all);
      Serialize(given, all).Err? <==> exists i :: 0 <= i < |ns| && SolverData.Data(ns[i]).Err?
  {
    OD.GatherOk(Records(Chosen(given, all)));
  }

  /**
   * `serialize` of valid solvers with distinct names: one entry per solver
   * covered, under its name and in order, holding its `data()` record.
   */
  lemma SerializeValid(given: seq<Network>, all: seq<Network>)
    requires var ns := Chosen(given, all); forall i :: 0 <= i < |ns| ==> Valid(ns[i]) && WellFormed(ns[i])
    requires var ns := Chosen(given, all); forall i, j :: 0 <= i < j < |ns| ==> ns[i].name != ns[j].name
    ensures var ns := Chosen(given, all);
      && Serialize(given, all).Ok?
      && (forall i :: 0 <= i < |ns| ==> SolverData.Data(ns[i]).Ok?)
      && |Serialize(given, all).value| == |ns|
      && forall i :: 0 <= i < |ns| ==> Serialize(given, all).value[i] == (ns[i].name, SolverData.Data(ns[i]).value)
  {
    var ns := Chosen(given, all);
    forall i | 0 <= i < |ns| ensures SolverData.Data(ns[i]).Ok? {
      SolverData.DataOfValid(ns[i]);
    }
    SerializeMade(ns);
  }

  /** Solvers with distinct names whose `data()` succeeds give one entry each, in order. */
  lemma SerializeMade(ns: seq<Network>)
    requires forall i :: 0 <= i < |ns| ==> SolverData.Data(ns[i]).Ok?
    requires forall i, j :: 0 <= i < j < |ns| ==> ns[i].name != ns[j].name
    ensures OD.Gather(Records(ns)).Ok?
    ensures |OD.Gather(Records(ns)).value| == |ns|
    ensures forall i :: 0 <= i < |ns| ==> OD.Gather(Records(ns)).value[i] == (ns[i].name, SolverData.Data(ns[i]).value)
  {
    OD.GatherKeys(Records(ns));
  }

  class PoseWranglerApi {
    /** The solver nodes of the scene, in the order `RBFNode.find_all` lists them. */
    var solvers: seq<Solver.RbfNode>
    var current: Solver.RbfNode?
    /** The loaded extensions, by name, in loading order. */
    var extensions: seq<string>
    /** Every context the extensions have received, in order. */
    var delivered: seq<(string, Context)>
    /** Whether a window is shown, and the solvers it lists with their edit status. */
    var hasView: bool
    var listed: seq<(string, bool)>

    /**
     * The `current_solver` setter: anything but a solver raises
     * InvalidSolverError and changes nothing; a solver becomes current and
     * every extension is told, in order, with the scene's solvers.
     */
    method SetCurrentSolver(c: Candidate) returns (r: Outcome)
      modifies this
      ensures solvers == old(solvers) && extensions == old(extensions) && hasView == old(hasView) && listed == old(listed)
      ensures c.NotASolver? ==> r == Err(InvalidSolverError) && current == old(current) && delivered == old(delivered)
      ensures c.SolverNode? ==>
        && r == Done && current == c.node
        && delivered == old(delivered) + Notices(extensions, Context(c.node, solvers))
    {
      if c.NotASolver? {
        return Err(InvalidSolverError);
      }
      current := c.node;
      var ctx := Context(c.node, solvers);
      var k := 0;
      while k < |extensions|
        invariant 0 <= k <= |extensions|
        invariant solvers == old(solvers) && extensions == old(extensions) && current == c.node
        invariant hasView == old(hasView) && listed == old(listed)
        invariant delivered == old(delivered) + Notices(extensions[..k], ctx)
      {
        assert Notices(extensions[..k + 1], ctx) == Notices(extensions[..k], ctx) + [(extensions[k], ctx)];
        delivered := delivered + [(extensions[k], ctx)];
        k := k + 1;
      }
      assert extensions[..k] == extensions;
      r := Done;
    }

    /**
     * `delete_rbf_solver`: the given solver, else the current one, is
     * deleted from the scene; the current solver is cleared only when it is
     * the deleted one. Without either, `None.delete()` raises AttributeError.
     */
    method DeleteRbfSolver(solver: Solver.RbfNode?) returns (r: Outcome)
      modifies this
      ensures var s := if solver != null then solver else old(current);
        && (s == null ==> r == Err(AttributeError) && solvers == old(solvers) && current == old(current))
        && (s != null ==>
              && r == Done && solvers == Without(old(solvers), s.name)
              && current == (if old(current) != null && old(current).name == s.name then null else old(current)))
      ensures extensions == old(extensions) && delivered == old(delivered)
    {
      var s := if solver != null then solver else current;
      if s == null {
        return Err(AttributeError);
      }
      solvers := Without(solvers, s.name);
      if current != null && current.name == s.name {
        current := null;
      }
      r := Done;
    }

    /**
     * `edit_solver`: the given solver, else the current one, enters or
     * leaves edit mode and then becomes the current solver.
     */
    method EditSolver(edit: bool, solver: Solver.RbfNode?, scene: Scene) returns (r: Outcome)
      modifies this, if solver != null then {solver} else {current}
      ensures var s := if solver != null then solver else old(current);
        && (s == null ==> r == Err(AttributeError))
        && (s != null ==> match SolverPoses.EditSolver(old(s.Net()), edit, scene)
              case Ok(m) => r == Done && s.Net() == m && current == s
              case Err(e) => r == Err(e))
        && (s != null && r.Ok? ==> delivered == old(delivered) + Notices(extensions, Context(s, solvers)))
      ensures r.Err? ==> current == old(current) && delivered == old(delivered)
      ensures solvers == old(solvers) && extensions == old(extensions) && hasView == old(hasView) && listed == old(listed)
    {
      var s := if solver != null then solver else current;
      if s == null {
        return Err(AttributeError);
      }
      r := s.EditSolver(edit, scene);
      if r.Err? {
        return;
      }
      r := SetCurrentSolver(SolverNode(s));
    }

    /**
     * `create_pose`: a pose from the current position on the given solver,
     * else the current one, which then becomes the current solver.
     */
    method CreatePose(poseName: string, solver: Solver.RbfNode?, scene: Scene) returns (r: Outcome)
      modifies this, if solver != null then {solver} else {current}
      ensures var s := if solver != null then solver else old(current);
        && (s == null ==> r == Err(AttributeError))
        && (s != null ==> match SolverPoses.AddPoseFromCurrent(old(s.Net()), poseName, false, scene)
              case Ok(m) => r == Done && s.Net() == m && current == s
              case Err(e) => r == Err(e))
      ensures solvers == old(solvers) && extensions == old(extensions) && hasView == old(hasView) && listed == old(listed)
    {
      var s := if solver != null then solver else current;
      if s == null {
        return Err(AttributeError);
      }
      r := s.AddPoseFromCurrent(poseName, false, scene);
      if r.Err? {
        return;
      }
      r := SetCurrentSolver(SolverNode(s));
    }

    /**
     * `add_drivers`: on the given solver, else the current one; when it
     * succeeds the solver becomes the current one.
     */
    method AddDrivers(nodes: seq<string>, solver: Solver.RbfNode?, scene: Scene) returns (r: Outcome)
      modifies this, if solver != null then {solver} else {current}
      ensures var s := if solver != null then solver else old(current);
        && (s == null ==> r == Err(AttributeError))
        && (s != null ==> match AddDriversTo(old(s.Net()), nodes, scene)
              case Ok(m) => r == Done && s.Net() == m && current == s
              case Err(e) => r == Err(e))
    {
      var s := if solver != null then solver else current;
      if s == null {
        return Err(AttributeError);
      }
      if |s.targets| > 1 {
        return Err(InvalidPoseIndex);
      }
      var has := HasPose(s.Net(), "default");
      if has.Err? {
        return Err(has.error);
      }
      if has.value {
        r := s.DeletePose("default", scene);
        if r.Err? {
          return;
        }
      }
      r := s.AddDriver(nodes, scene);
      if r.Err? {
        return;
      }
      r := s.AddPoseFromCurrent("default", false, scene);
      if r.Err? {
        return;
      }
      r := SetCurrentSolver(SolverNode(s));
    }

    /**
     * `_load_view`: with a window, the list is rebuilt from the scene's
     * solvers in order; the first solver found in edit mode keeps it and
     * every later one is made to leave it through `edit_solver`, which makes
     * it the current solver and tells the extensions, so at most one is
     * listed as editing. Without a window nothing happens.
     */
    method LoadView(scene: Scene) returns (r: Outcome)
      requires forall i, j :: 0 <= i < j < |solvers| ==> solvers[i] != solvers[j]
      modifies this, solvers
      ensures solvers == old(solvers) && extensions == old(extensions)
      ensures !old(hasView) ==> r == Done && listed == old(listed) && unchanged(solvers)
      ensures old(hasView) ==> Listing(listed, old(Statuses(solvers)))
      ensures r.Ok? && old(hasView) ==> |listed| == |solvers|
      ensures r.Ok? && old(hasView) ==> forall i :: 0 <= i < |solvers| ==>
        listed[i].0 == solvers[i].name == old(solvers[i].name)
      ensures r.Ok? && old(hasView) ==> forall i :: 0 <= i < |solvers| ==>
        Settled(old(solvers[i].Net()), solvers[i].Net(), Clash(old(Statuses(solvers)), i),
                SolverPoses.EditSolver(old(solvers[i].Net()), false, scene))
    {
      if !hasView {
        return Done;
      }
      ghost var status, start := Statuses(solvers), Nets(solvers);
      ghost var nets, noneYet;
      r, nets, noneYet := Relist(scene, status, start);
      if r.Ok? {
        ViewSettled(status, start, nets, listed, scene, noneYet);
      }
    }

    /**
     * The loop of `_load_view` over the scene's solvers, whose networks are
     * `start` before it and `nets` after it, and whose edit statuses are `status`.
     */
    method Relist(scene: Scene, ghost status: seq<bool>, ghost start: seq<Network>) returns (r: Outcome, ghost nets: seq<Network>, ghost noneYet: bool)
      requires hasView && forall i, j :: 0 <= i < j < |solvers| ==> solvers[i] != solvers[j]
      requires NetsAre(solvers, start) && |status| == |start|
      requires forall i :: 0 <= i < |status| ==> status[i] == SolverPoses.EditStatus(start[i])
      modifies this, solvers
      ensures solvers == old(solvers) && extensions == old(extensions)
      ensures Listing(listed, status)
      ensures r.Ok? ==> Loading(solvers, |solvers|, noneYet, status, start, Left(start, scene), nets, listed)
    {
      noneYet := true;
      listed := [];
      var all := solvers;
      var existing: Solver.RbfNode? := null;
      var k := 0;
      ghost var left := Left(start, scene);
      nets := start;
      while k < |all|
        invariant 0 <= k <= |all| && all == solvers == old(solvers) && hasView && extensions == old(extensions)
        invariant forall i, j :: 0 <= i < j < |all| ==> all[i] != all[j]
        invariant noneYet == (existing == null) && Loading(all, k, noneYet, status, start, left, nets, listed)
      {
        LeftAt(start, scene, k);
        ghost var next;
        var found := existing != null;
        var edit;
        edit, r, next := ListSolver(all, k, found, scene, status, start, left, nets);
        if r.Err? {
          return;
        }
        if edit {
          existing := all[k];
        }
        noneYet, nets := !found && !edit, next;
        k := k + 1;
      }
      r := Done;
    }

    /**
     * The body of `_load_view`'s loop for one solver: its edit status is
     * read, and when an earlier solver is already editing and so is this
     * one, `edit_solver(edit=False)` makes it leave edit mode, makes it
     * current and tells the extensions. `edit` is what it is listed with.
     */
    method Visit(solver: Solver.RbfNode, editorFound: bool, scene: Scene) returns (edit: bool, r: Outcome)
      modifies this, solver
      ensures solvers == old(solvers) && hasView == old(hasView) && listed == old(listed) && extensions == old(extensions)
      ensures r.Ok? ==> edit == (!editorFound && SolverPoses.EditStatus(old(solver.Net())))
      ensures r.Ok? && editorFound && SolverPoses.EditStatus(old(solver.Net())) ==>
        && SolverPoses.EditSolver(old(solver.Net()), false, scene) == Ok(solver.Net())
        && current == solver && delivered == old(delivered) + Notices(extensions, Context(solver, solvers))
      ensures !(editorFound && SolverPoses.EditStatus(old(solver.Net()))) ==>
        r == Done && solver.Net() == old(solver.Net()) && current == old(current) && delivered == old(delivered)
    {
      edit := solver.GetSolverEditStatus();
      r := Done;
      if editorFound && edit {
        r := EditSolver(false, solver, scene);
        if r.Err? {
          return;
        }
        edit := false;
      }
    }

    /**
     * One pass of the `_load_view` loop over the solver `all[k]`: its edit
     * status is read; when an earlier solver is already editing, it is made
     * to leave edit mode. It is then listed with its status. `nets` and
     * `after` are the solvers' networks before and after.
     */
    method ListSolver(all: seq<Solver.RbfNode>, k: nat, editorFound: bool, scene: Scene,
                      ghost status: seq<bool>, ghost start: seq<Network>, ghost left: seq<Result<Network>>, ghost nets: seq<Network>)
      returns (edit: bool, r: Outcome, ghost after: seq<Network>)
      requires k < |all| && Loading(all, k, !editorFound, status, start, left, nets, listed)
      requires all == solvers
      requires forall i, j :: 0 <= i < j < |all| ==> all[i] != all[j]
      requires status[k] == SolverPoses.EditStatus(start[k]) && left[k] == SolverPoses.EditSolver(start[k], false, scene)
      modifies this, all[k]
      ensures solvers == old(solvers) && hasView == old(hasView)
      ensures r.Ok? ==> edit == (!editorFound && status[k])
      ensures r.Ok? ==> listed == old(listed) + [(all[k].name, edit)]
      ensures r.Ok? ==> current == (if Clash(status, k) then all[k] else old(current))
      ensures r.Ok? ==> delivered == old(delivered) + (if Clash(status, k) then Notices(extensions, Context(all[k], all)) else [])
      ensures extensions == old(extensions)
      ensures r.Ok? ==> Loading(all, k + 1, !editorFound && !edit, status, start, left, after, listed)
      ensures r.Err? ==> listed == old(listed)
    {
      ClashIsFound(listed, status, !editorFound);
      var solver := all[k];
      after := nets;
      edit, r := Visit(solver, editorFound, scene);
      if r.Err? {
        return;
      }
      assert forall i :: 0 <= i < |all| && i != k ==> all[i].Net() == nets[i] by {
        assert forall i :: 0 <= i < |all| && i != k ==> all[i] != solver;
      }
      LoadedStep(k, !editorFound, status, start, left, nets, listed, solver.Net(), (solver.name, edit));
      after := nets[k := solver.Net()];
      assert NetsAre(all, after);
      listed := listed + [(solver.name, edit)];
      r := Done;
    }

  }

  /** Whether each solver is in edit mode (`get_solver_edit_status`). */
  ghost function Statuses(solvers: seq<Solver.RbfNode>): (r: seq<bool>)
    reads solvers
    ensures |r| == |solvers|
    ensures forall i :: 0 <= i < |solvers| ==> r[i] == SolverPoses.EditStatus(solvers[i].Net())
  {
    if solvers == [] then []
    else [SolverPoses.EditStatus(solvers[0].Net())] + Statuses(solvers[1..])
  }

  /**
   * `_load_view`'s loop after `k` solvers: they are listed as `Scanned`
   * says, the solvers' networks are `nets`, the first `k` of them settled
   * and the rest as they started.
   */
  ghost predicate Loading(all: seq<Solver.RbfNode>, k: nat, noneYet: bool, status: seq<bool>, start: seq<Network>,
                          left: seq<Result<Network>>, nets: seq<Network>, listed: seq<(string, bool)>)
    reads all
  {
    |all| == |status| && NetsAre(all, nets) && Loaded(k, noneYet, status, start, left, nets, listed)
  }

  /** The values `Loading` keeps. */
  predicate Loaded(k: nat, noneYet: bool, status: seq<bool>, start: seq<Network>,
                   left: seq<Result<Network>>, nets: seq<Network>, listed: seq<(string, bool)>)
  {
    && k <= |status| == |start| == |left| == |nets|
    && |listed| == k && Scanned(listed, status, noneYet)
    && (forall i :: 0 <= i < k ==> listed[i].0 == start[i].name)
    && (forall i :: 0 <= i < k ==> Settled(start[i], nets[i], Clash(status, i), left[i]))
    && (forall i :: k <= i < |nets| ==> nets[i] == start[i])
  }

  /** One more solver listed and settled. */
  lemma LoadedStep(k: nat, noneYet: bool, status: seq<bool>, start: seq<Network>,
                   left: seq<Result<Network>>, nets: seq<Network>, listed: seq<(string, bool)>, next: Network, entry: (string, bool))
    requires Loaded(k, noneYet, status, start, left, nets, listed) && k < |status|
    requires entry.1 <==> noneYet && status[k]
    requires entry.0 == start[k].name
    requires Settled(start[k], next, Clash(status, k), left[k])
    ensures Loaded(k + 1, noneYet && !entry.1, status, start, left, nets[k := next], listed + [entry])
  {
    ListingStep(listed, status, noneYet, entry.0, entry.1);
    SettledStep(start, nets, next, status, left, k);
  }

  /** The solvers' networks are `nets`. */
  ghost predicate NetsAre(solvers: seq<Solver.RbfNode>, nets: seq<Network>)
    reads solvers
  {
    |solvers| == |nets| && forall i :: 0 <= i < |solvers| ==> solvers[i].Net() == nets[i]
  }

  /** Each solver's network. */
  ghost function Nets(solvers: seq<Solver.RbfNode>): (r: seq<Network>)
    reads solvers
    ensures |r| == |solvers| && forall i :: 0 <= i < |solvers| ==> r[i] == solvers[i].Net()
  {
    if solvers == [] then [] else [solvers[0].Net()] + Nets(solvers[1..])
  }

  /**
   * A solver's network across `_load_view`: one that clashes with an earlier
   * editor has left edit mode (`left` is the result of leaving it), every
   * other one is as it was.
   */
  predicate Settled(before: Network, after: Network, clash: bool, left: Result<Network>)
  {
    if clash then left == Ok(after) else after == before
  }

  /** The solver at `i` is editing while an earlier one already is. */
  predicate Clash(status: seq<bool>, i: nat)
    requires i < |status|
  {
    FirstEditor(status) < i && status[i]
  }

  /** With `k` solvers listed, the next one clashes exactly when it is editing and an earlier one was. */
  lemma ClashIsFound(listed: seq<(string, bool)>, status: seq<bool>, noneYet: bool)
    requires Scanned(listed, status, noneYet) && |listed| < |status|
    ensures Clash(status, |listed|) <==> !noneYet && status[|listed|]
  {
  }

  /**
   * After `_load_view`'s loop every solver is listed under its name, which
   * leaving edit mode keeps, and has settled.
   */
  lemma ViewSettled(status: seq<bool>, start: seq<Network>, nets: seq<Network>, listed: seq<(string, bool)>, scene: Scene, noneYet: bool)
    requires Loaded(|status|, noneYet, status, start, Left(start, scene), nets, listed)
    ensures |listed| == |status|
    ensures forall i :: 0 <= i < |status| ==> listed[i].0 == nets[i].name == start[i].name
    ensures forall i :: 0 <= i < |status| ==>
      Settled(start[i], nets[i], Clash(status, i), SolverPoses.EditSolver(start[i], false, scene))
  {
    forall i | 0 <= i < |status| ensures Left(start, scene)[i] == SolverPoses.EditSolver(start[i], false, scene) {
      LeftAt(start, scene, i);
    }
  }

  /** What leaving edit mode gives each network. */
  ghost function Left(nets: seq<Network>, scene: Scene): (r: seq<Result<Network>>)
    ensures |r| == |nets|
  {
    if nets == [] then [] else [SolverPoses.EditSolver(nets[0], false, scene)] + Left(nets[1..], scene)
  }

  lemma {:induction false} LeftAt(nets: seq<Network>, scene: Scene, i: nat)
    requires i < |nets|
    ensures Left(nets, scene)[i] == SolverPoses.EditSolver(nets[i], false, scene)
    decreases i
  {
    if i > 0 {
      LeftAt(nets[1..], scene, i - 1);
    }
  }

  /** The networks after one more solver of `_load_view`'s loop has settled. */
  lemma SettledStep(start: seq<Network>, nets: seq<Network>, next: Network, status: seq<bool>,
                    left: seq<Result<Network>>, k: nat)
    requires k < |nets| == |start| == |status| == |left|
    requires forall i :: 0 <= i < k ==> Settled(start[i], nets[i], Clash(status, i), left[i])
    requires forall i :: k <= i < |nets| ==> nets[i] == start[i]
    requires Settled(start[k], next, Clash(status, k), left[k])
    ensures forall i :: 0 <= i <= k ==> Settled(start[i], nets[k := next][i], Clash(status, i), left[i])
    ensures forall i :: k < i < |nets| ==> nets[k := next][i] == start[i]
  {
  }

  /** The index of the first solver in edit mode, or the number of solvers when none is. */
  function FirstEditor(status: seq<bool>): (r: nat)
    ensures r <= |status|
    ensures forall q :: 0 <= q < r ==> !status[q]
    ensures r < |status| ==> status[r]
  {
    if status == [] || status[0] then 0 else 1 + FirstEditor(status[1..])
  }

  /** The listed edit flags: exactly the first solver that was editing is listed as editing. */
  predicate Listing(listed: seq<(string, bool)>, status: seq<bool>)
  {
    |listed| <= |status| && forall i :: 0 <= i < |listed| ==> (listed[i].1 <==> i == FirstEditor(status))
  }

  /** A listing so far, and whether none of the solvers listed so far was editing. */
  predicate Scanned(listed: seq<(string, bool)>, status: seq<bool>, noneYet: bool)
  {
    Listing(listed, status) && (noneYet <==> |listed| <= FirstEditor(status))
  }

  /** One more solver listed: editing when it is and none before it was. */
  lemma ListingStep(listed: seq<(string, bool)>, status: seq<bool>, noneBefore: bool, name: string, edit: bool)
    requires Scanned(listed, status, noneBefore) && |listed| < |status|
    requires edit <==> noneBefore && status[|listed|]
    ensures Scanned(listed + [(name, edit)], status, noneBefore && !edit)
  {
  }

  /** A solver is listed as editing exactly when it is and no solver before it is. */
  lemma ListingIsFirstEditing(listed: seq<(string, bool)>, status: seq<bool>)
    requires Listing(listed, status)
    ensures forall i :: 0 <= i < |listed| ==> (listed[i].1 <==> status[i] && forall q :: 0 <= q < i ==> !status[q])
  {
  }

  /** A listing names at most one solver as editing. */
  lemma ListingHasOneEditor(listed: seq<(string, bool)>, status: seq<bool>)
    requires Listing(listed, status)
    ensures forall i, j :: 0 <= i < j < |listed| ==> !(listed[i].1 && listed[j].1)
  {
  }
}
