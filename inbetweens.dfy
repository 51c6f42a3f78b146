/**
 * The `GenerateInbetweens` extension (`v2/extensions/generate_inbetweens.py`):
 * the driven and driver transforms of the current solver are copied, then
 * pasted back `count` times at decreasing multipliers, and a pose is created
 * at each of those positions.
 *
 * The scene the solver reads (its transforms' local matrices) follows the
 * channels the paste writes; `sceneOf` is that correspondence, which the
 * model does not compute.
 */
module Inbetweens {
  import opened Wrappers
  import opened Host
  import opened SolverModel
  import SolverPoses
  import SolverWiring
  import Text
  import Solver
  import Session
  import CopyPaste

  /** `1.0 / float(count + 1)`: the step between consecutive multipliers. */
  function Increment(count: int): real
    requires count + 1 != 0
  {
    1.0 / (count + 1) as real
  }

  /** The multiplier of the `i`-th in-between: 1 less `i + 1` increments. */
  function Multiplier(i: nat, count: int): real
    requires count + 1 != 0
  {
    1.0 - (i + 1) as real * Increment(count)
  }

  /** The `i`-th pose's multiplier is `(count - i) / (count + 1)`. */
  lemma MultiplierClosedForm(i: nat, count: int)
    requires count + 1 != 0
    ensures Multiplier(i, count) == (count - i) as real / (count + 1) as real
  {
    var c := (count + 1) as real;
    calc {
      Multiplier(i, count);
      1.0 - (i + 1) as real * (1.0 / c);
      c / c - (i + 1) as real / c;
      (c - (i + 1) as real) / c;
    }
  }

  /**
   * The in-betweens lie strictly between the copied position (multiplier 1)
   * and the rest position (multiplier 0), and move towards rest one
   * increment at a time.
   */
  lemma MultiplierRange(i: nat, count: int)
    requires i < count
    ensures 0.0 < Multiplier(i, count) < 1.0
    ensures i + 1 < count ==> Multiplier(i + 1, count) == Multiplier(i, count) - Increment(count) < Multiplier(i, count)
    ensures i + 1 == count ==> Multiplier(i, count) == Increment(count)
  {
    MultiplierClosedForm(i, count);
    var c := (count + 1) as real;
    assert 0.0 < (count - i) as real < c;
    assert Increment(count) > 0.0;
    if i + 1 == count {
      assert (count - i) as real == 1.0;
    }
  }

  /** The running multiplier after `k` passes: `1.0` less `k` increments. */
  function Running(k: nat, count: int): real
    requires count + 1 != 0
  {
    1.0 - k as real * Increment(count)
  }

  /** One increment less than the running multiplier is the `k`-th in-between's, and the running one after it. */
  lemma NextMultiplier(k: nat, count: int)
    requires count + 1 != 0
    ensures Running(k, count) - Increment(count) == Multiplier(k, count) == Running(k + 1, count)
  {
    var inc := Increment(count);
    assert (k + 1) as real * inc == k as real * inc + inc;
  }

  /** `"{pose_prefix}_{i}"`. */
  function PoseName(prefix: string, i: nat): string
  {
    prefix + "_" + Text.NatToString(i)
  }

  /** Different in-betweens get different names. */
  lemma PoseNameInjective(prefix: string, i: nat, j: nat)
    requires PoseName(prefix, i) == PoseName(prefix, j)
    ensures i == j
  {
    var p := prefix + "_";
    assert PoseName(prefix, i)[|p|..] == Text.NatToString(i);
    assert PoseName(prefix, j)[|p|..] == Text.NatToString(j);
  }

  /** The names of the poses created from the `k`-th in-between on. */
  function InbetweenNames(prefix: string, k: nat, count: int): (r: seq<string>)
    ensures |r| == if k < count then count - k else 0
    ensures forall j :: 0 <= j < |r| ==> r[j] == PoseName(prefix, k + j)
    decreases count - k
  {
    if k >= count then [] else [PoseName(prefix, k)] + InbetweenNames(prefix, k + 1, count)
  }

  /** The in-between names are all different. */
  lemma InbetweenNamesDistinct(prefix: string, k: nat, count: int)
    ensures SolverWiring.NoDuplicates(InbetweenNames(prefix, k, count))
  {
    var r := InbetweenNames(prefix, k, count);
    forall i, j | 0 <= i < j < |r| ensures r[i] != r[j] {
      if r[i] == r[j] {
        PoseNameInjective(prefix, k + i, k + j);
      }
    }
  }

  function TargetNames(ts: seq<Target>): (r: seq<string>)
    ensures |r| == |ts| && forall i :: 0 <= i < |ts| ==> r[i] == ts[i].name
  {
    seq(|ts|, i requires 0 <= i < |ts| => ts[i].name)
  }

  /** `paste_driven_trs` then `edit_solver(edit=True)` when the solver is not editing. */
  function Edited(n: Network, scene: Scene): (r: Result<Network>)
    ensures SolverPoses.EditStatus(n) ==> r == Ok(n)
    ensures !SolverPoses.EditStatus(n) ==> r == SolverPoses.EditSolver(n, true, scene)
  {
    if SolverPoses.EditStatus(n) then Ok(n) else SolverPoses.EditSolver(n, true, scene)
  }

  /** The driven store, then the driver store, pasted at one multiplier; the first failure ends it. */
  function PasteBoth(driven: CopyPaste.Store, driver: CopyPaste.Store, m: real, ch: CopyPaste.Channels)
    : (Outcome, CopyPaste.Channels)
  {
    var (o1, ch1) := CopyPaste.Paste(driven, m, ch);
    if o1.Err? then (o1, ch1) else CopyPaste.Paste(driver, m, ch1)
  }

  /** What one run of the loop works with: the name prefix, the two stores copied before it, and the scene the channels give. */
  datatype Plan = Plan(prefix: string, driven: CopyPaste.Store, driver: CopyPaste.Store,
                       sceneOf: CopyPaste.Channels -> Scene)

  /**
   * The `k`-th pass of the loop of `generate_inbetweens`: the solver is put
   * in edit mode unless it already edits, the copied driven and driver
   * values are pasted at the multiplier `mult`, and a pose named after `k`
   * is created from the position reached (`create_pose`, which adds rather
   * than updates). An exception ends the loop.
   */
  function Inbetween(n: Network, ch: CopyPaste.Channels, k: nat, mult: real, p: Plan)
    : (Outcome, Network, CopyPaste.Channels)
  {
    match Edited(n, p.sceneOf(ch))
    case Err(e) => (Err(e), n, ch)
    case Ok(n1) =>
      var (o, ch2) := PasteBoth(p.driven, p.driver, mult, ch);
      if o.Err? then (o, n1, ch2)
      else
        match SolverPoses.AddPoseFromCurrent(n1, PoseName(p.prefix, k), false, p.sceneOf(ch2))
        case Err(e) => (Err(e), n1, ch2)
        case Ok(n2) => (Done, n2, ch2)
  }

  /** One pass of a loop: network, channels, pass number and multiplier to outcome, network and channels. */
  type Pass = (Network, CopyPaste.Channels, nat, real) -> (Outcome, Network, CopyPaste.Channels)

  function PassOf(p: Plan): Pass
  {
    (n: Network, ch: CopyPaste.Channels, k: nat, mult: real) => Inbetween(n, ch, k, mult, p)
  }

  /**
   * The loop from the `k`-th in-between on, with the multiplier at `mult`
   * before the pass: each pass first lowers it by `inc`.
   */
  function Run(n: Network, ch: CopyPaste.Channels, k: nat, count: int, mult: real, inc: real, pass: Pass)
    : (Outcome, Network, CopyPaste.Channels)
    decreases count - k
  {
    if k >= count then (Done, n, ch)
    else
      var (o, n2, ch2) := pass(n, ch, k, mult - inc);
      if o.Err? then (o, n2, ch2) else Run(n2, ch2, k + 1, count, mult - inc, inc, pass)
  }

  /** The same loop, each pass at its closed-form multiplier. */
  function RunAt(n: Network, ch: CopyPaste.Channels, k: nat, count: int, pass: Pass)
    : (Outcome, Network, CopyPaste.Channels)
    requires count + 1 != 0
    decreases count - k
  {
    if k >= count then (Done, n, ch)
    else
      var (o, n2, ch2) := pass(n, ch, k, Multiplier(k, count));
      if o.Err? then (o, n2, ch2) else RunAt(n2, ch2, k + 1, count, pass)
  }

  /**
   * Lowering the multiplier by the increment once per pass, from 1, gives
   * every pass its closed-form multiplier.
   */
  lemma {:induction false} RunIsRunAt(n: Network, ch: CopyPaste.Channels, k: nat, count: int, pass: Pass)
    requires count + 1 != 0
    ensures Run(n, ch, k, count, Running(k, count), Increment(count), pass) == RunAt(n, ch, k, count, pass)
    decreases count - k
  {
    if k < count {
      NextMultiplier(k, count);
      var (o, n2, ch2) := pass(n, ch, k, Multiplier(k, count));
      if o.Ok? {
        RunIsRunAt(n2, ch2, k + 1, count, pass);
      }
    }
  }

  /** Every pass that completes appends exactly one pose, named after its number, and keeps drivers and controllers. */
  ghost predicate Appends(pass: Pass, prefix: string)
  {
    forall n, ch, k, mult :: pass(n, ch, k, mult).0.Ok? ==>
      var m := pass(n, ch, k, mult).1;
      && TargetNames(m.targets) == TargetNames(n.targets) + [PoseName(prefix, k)]
      && n.targets <= m.targets
      && m.drivers == n.drivers && m.controllers == n.controllers
  }

  /** `add_pose_from_current` appends one pose under the given name and keeps drivers and controllers. */
  lemma AddPoseFromCurrentAppends(n: Network, name: string, scene: Scene)
    requires SolverPoses.AddPoseFromCurrent(n, name, false, scene).Ok?
    ensures var m := SolverPoses.AddPoseFromCurrent(n, name, false, scene).value;
      && TargetNames(m.targets) == TargetNames(n.targets) + [name]
      && n.targets <= m.targets
      && m.drivers == n.drivers && m.controllers == n.controllers
  {
    var m := SolverPoses.AddPoseFromCurrent(n, name, false, scene).value;
    assert |m.targets| == |n.targets| + 1 && m.targets[..|n.targets|] == n.targets && m.targets[|n.targets|].name == name;
  }

  /** A pass of `generate_inbetweens` that completes appends one pose, named after `k`, and keeps drivers and controllers. */
  lemma InbetweenAppends(n: Network, ch: CopyPaste.Channels, k: nat, mult: real, p: Plan)
    requires Inbetween(n, ch, k, mult, p).0.Ok?
    ensures var m := Inbetween(n, ch, k, mult, p).1;
      && TargetNames(m.targets) == TargetNames(n.targets) + [PoseName(p.prefix, k)]
      && n.targets <= m.targets
      && m.drivers == n.drivers && m.controllers == n.controllers
  {
    var n1 := Edited(n, p.sceneOf(ch)).value;
    assert n1.targets == n.targets && n1.drivers == n.drivers && n1.controllers == n.controllers;
    var ch2 := PasteBoth(p.driven, p.driver, mult, ch).1;
    AddPoseFromCurrentAppends(n1, PoseName(p.prefix, k), p.sceneOf(ch2));
  }

  lemma InbetweensAppend(p: Plan)
    ensures Appends(PassOf(p), p.prefix)
  {
    forall n, ch, k, mult | PassOf(p)(n, ch, k, mult).0.Ok?
      ensures var m := PassOf(p)(n, ch, k, mult).1;
        && TargetNames(m.targets) == TargetNames(n.targets) + [PoseName(p.prefix, k)]
        && n.targets <= m.targets
        && m.drivers == n.drivers && m.controllers == n.controllers
    {
      InbetweenAppends(n, ch, k, mult, p);
    }
  }

  /**
   * A run that completes adds exactly the in-betweens' poses, in order, after
   * the existing ones, and keeps the drivers and the controllers.
   */
  lemma {:induction false} RunAddsPoses(n: Network, ch: CopyPaste.Channels, k: nat, count: int, mult: real, inc: real,
                                        pass: Pass, prefix: string)
    requires Appends(pass, prefix)
    requires Run(n, ch, k, count, mult, inc, pass).0.Ok?
    ensures var m := Run(n, ch, k, count, mult, inc, pass).1;
      && n.targets <= m.targets
      && TargetNames(m.targets) == TargetNames(n.targets) + InbetweenNames(prefix, k, count)
      && m.drivers == n.drivers && m.controllers == n.controllers
    decreases count - k
  {
    if k < count {
      var (_, n2, ch2) := pass(n, ch, k, mult - inc);
      RunAddsPoses(n2, ch2, k + 1, count, mult - inc, inc, pass, prefix);
      var m := Run(n2, ch2, k + 1, count, mult - inc, inc, pass).1;
      NamesJoin(TargetNames(n.targets), PoseName(prefix, k), InbetweenNames(prefix, k + 1, count),
                TargetNames(n2.targets), TargetNames(m.targets), InbetweenNames(prefix, k, count));
    }
  }

  /** A completed pass, at `next == mult - inc`, continues with the next in-between. */
  lemma RunStep(n: Network, ch: CopyPaste.Channels, k: nat, count: int, mult: real, inc: real, next: real, pass: Pass)
    requires k < count && next == mult - inc
    requires pass(n, ch, k, next).0.Ok?
    ensures var (_, n2, ch2) := pass(n, ch, k, next);
      Run(n, ch, k, count, mult, inc, pass) == Run(n2, ch2, k + 1, count, next, inc, pass)
  {
  }

  /** A pass that fails ends the run with its outcome. */
  lemma RunStop(n: Network, ch: CopyPaste.Channels, k: nat, count: int, mult: real, inc: real, next: real, pass: Pass)
    requires k < count && next == mult - inc
    requires pass(n, ch, k, next).0.Err?
    ensures Run(n, ch, k, count, mult, inc, pass).0 == pass(n, ch, k, next).0
  {
  }

  lemma NamesJoin(a: seq<string>, x: string, b: seq<string>, a2: seq<string>, m: seq<string>, all: seq<string>)
    requires a2 == a + [x] && m == a2 + b && all == [x] + b
    ensures m == a + all
  {
  }

  /** One pass of the loop on the API: the paste of both stores, then `create_pose` on the solver. */
  method InbetweenStep(api: Session.PoseWranglerApi, store: CopyPaste.CopyPasteTrs, s: Solver.RbfNode,
                       k: nat, mult: real, prefix: string,
                       ch: CopyPaste.Channels, sceneOf: CopyPaste.Channels -> Scene)
    returns (r: Outcome, after: CopyPaste.Channels)
    requires api.current == s
    modifies api, s
    ensures r == Inbetween(old(s.Net()), ch, k, mult, Plan(prefix, store.driven, store.driver, sceneOf)).0
    ensures r.Ok? ==>
      (Done, s.Net(), after) == Inbetween(old(s.Net()), ch, k, mult, Plan(prefix, store.driven, store.driver, sceneOf))
    ensures r.Ok? ==> api.current == s
  {
    ghost var n := s.Net();
    r, after := CopyPaste.PasteDrivenTrs(api, store, null, mult, sceneOf(ch), ch);
    if r.Err? {
      return;
    }
    assert Edited(n, sceneOf(ch)) == Ok(s.Net());
    r, after := CopyPaste.PasteDriverTrs(store, mult, after);
    if r.Err? {
      return;
    }
    r := api.CreatePose(PoseName(prefix, k), s, sceneOf(after));
  }

  /**
   * `generate_inbetweens`. Without a loaded BakePosesToTimeline extension,
   * or without a current solver, the first call on `None` raises
   * AttributeError. The driven transforms' translate, rotate and scale and
   * the drivers' rotate and scale are copied, `count + 1 == 0` raises
   * ZeroDivisionError, and then each in-between is pasted and recorded as a
   * pose of the current solver.
   */
  method GenerateInbetweens(api: Session.PoseWranglerApi, store: CopyPaste.CopyPasteTrs, count: int, prefix: string,
                            ch: CopyPaste.Channels, sceneOf: CopyPaste.Channels -> Scene)
    returns (r: Outcome, after: CopyPaste.Channels)
    modifies api, api.current, store
    ensures "BakePosesToTimeline" !in old(api.extensions) ==> r == Err(AttributeError)
    ensures "BakePosesToTimeline" in old(api.extensions) && old(api.current) == null ==> r == Err(AttributeError)
    ensures var s := old(api.current);
      "BakePosesToTimeline" in old(api.extensions) && s != null ==>
        var (o1, driven) := CopyPaste.CopyFrom([], CopyPaste.DrivenNames(old(s.blenders)), CopyPaste.Trs, ch);
        var (o2, driver) := CopyPaste.CopyFrom([], old(s.drivers), CopyPaste.RotateScale, ch);
        && (o1.Err? ==> r == o1)
        && (o1.Ok? && o2.Err? ==> r == o2)
        && (o1.Ok? && o2.Ok? && count + 1 == 0 ==> r == Err(ZeroDivisionError))
        && (o1.Ok? && o2.Ok? && count + 1 != 0 ==>
              var run := Run(old(s.Net()), ch, 0, count, 1.0, Increment(count), PassOf(Plan(prefix, driven, driver, sceneOf)));
              && r == run.0
              && (r.Ok? ==> (Done, s.Net(), after) == run && api.current == s)
              && store.driven == driven && store.driver == driver)
  {
    after := ch;
    if "BakePosesToTimeline" !in api.extensions {
      return Err(AttributeError), after;
    }
    var s := api.current;
    if s == null {
      return Err(AttributeError), after;
    }
    r := CopyPaste.CopyDrivenTrs(api, store, s, ch);
    if r.Err? {
      return;
    }
    r := CopyPaste.CopyDriverTrs(api, store, s, ch);
    if r.Err? {
      return;
    }
    if count + 1 == 0 {
      return Err(ZeroDivisionError), after;
    }
    r, after := PasteInbetweens(api, store, s, count, prefix, ch, sceneOf);
  }

  /** The loop of `generate_inbetweens`: `count` passes, the multiplier one increment lower each time. */
  method PasteInbetweens(api: Session.PoseWranglerApi, store: CopyPaste.CopyPasteTrs, s: Solver.RbfNode,
                         count: int, prefix: string, ch: CopyPaste.Channels, sceneOf: CopyPaste.Channels -> Scene)
    returns (r: Outcome, after: CopyPaste.Channels)
    requires count + 1 != 0 && api.current == s
    modifies api, s
    ensures r == Run(old(s.Net()), ch, 0, count, 1.0, Increment(count), PassOf(Plan(prefix, store.driven, store.driver, sceneOf))).0
    ensures r.Ok? ==>
      (Done, s.Net(), after) == Run(old(s.Net()), ch, 0, count, 1.0, Increment(count), PassOf(Plan(prefix, store.driven, store.driver, sceneOf)))
    ensures r.Ok? ==> api.current == s
  {
    var inc := Increment(count);
    var mult := 1.0;
    ghost var p := Plan(prefix, store.driven, store.driver, sceneOf);
    ghost var pass := PassOf(p);
    ghost var goal := Run(s.Net(), ch, 0, count, mult, inc, pass);
    after := ch;
    var k := 0;
    while k < count
      invariant 0 <= k
      invariant api.current == s
      invariant Run(s.Net(), after, k, count, mult, inc, pass) == goal
      decreases count - k
    {
      ghost var n := s.Net();
      ghost var chk := after;
      ghost var before := mult;
      mult := mult - inc;
      r, after := InbetweenStep(api, store, s, k, mult, prefix, after, sceneOf);
      if r.Err? {
        RunStop(n, chk, k, count, before, inc, mult, pass);
        return;
      }
      RunStep(n, chk, k, count, before, inc, mult, pass);
      k := k + 1;
    }
    r := Done;
  }
}
