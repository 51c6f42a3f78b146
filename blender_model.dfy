/**
 * The state of a `UEPoseBlenderNode` and what each of its operations makes
 * of that state (`v2/model/pose_blender.py`). The node records one matrix
 * per pose slot (`poses`), one weight per slot (`weights`), a base pose, an
 * input matrix and an envelope; editing is off exactly while decomposeMatrix
 * nodes connect its output to the driven transform.
 */
module BlenderModel {
  import opened Wrappers
  import opened Sparse
  import opened Host
  import MayaUtils

  datatype Weight = WeightPlug(plug: string) | WeightValue(value: real)

  /** The envelope attribute: its default, a set value or a connected plug. */
  datatype Envelope = EnvelopeDefault | EnvelopeValue(value: real) | EnvelopePlug(plug: string)

  /** What the envelope setter accepts: a Python float, a Python int or a plug name. */
  datatype EnvelopeInput = FloatInput(f: real) | IntInput(i: int) | PlugInput(plug: string)

  datatype Blender = Blender(
    driven: Option<string>,       // the transform connected to `drivenTransform`
    poses: Multi<Matrix>,
    weights: Multi<Weight>,
    basePose: Option<Matrix>,
    inMatrix: Option<Matrix>,
    decompose: nat,               // decomposeMatrix nodes fed by `outMatrix`
    envelope: Envelope)

  /** A freshly created node, before anything is connected or set. */
  function EmptyBlender(driven: Option<string>): Blender
  {
    Blender(driven, [], [], None, None, 0, EnvelopeDefault)
  }

  // ------------------------------------------------------------ edit

  /** The `edit` getter: editable without a driven transform or without output connections. */
  predicate IsEditing(b: Blender)
  {
    b.driven.None? || b.decompose == 0
  }

  /**
   * The `edit` setter through the `out_matrix` setter. Without a driven
   * transform nothing happens. Turning editing on reads the driven
   * transform's matrix (failing when it is not a transform), deletes the
   * decomposeMatrix nodes and puts the same matrix back. Turning it off
   * refuses a driven node that is not a transform (InvalidNodeType) and
   * otherwise adds one more decomposeMatrix node.
   */
  function SetEdit(b: Blender, value: bool, scene: Scene): (r: Result<Blender>)
    ensures b.driven.None? ==> r == Ok(b)
    ensures r.Ok? ==> r.value == b.(decompose := r.value.decompose)
    ensures b.driven.Some? ==> (r.Ok? <==> scene.IsTransform(b.driven.value))
    ensures r.Ok? ==> IsEditing(r.value) == (value || b.driven.None?)
  {
    match b.driven
    case None => Ok(b)
    case Some(t) =>
      if value then
        match LocalMatrix(scene, t)
        case Err(e) => Err(e)
        case Ok(_) => Ok(b.(decompose := 0))
      else if !scene.IsTransform(t) then Err(InvalidNodeType)
      else Ok(b.(decompose := b.decompose + 1))
  }

  /** `__enter__`: `edit = True`. */
  function Enter(b: Blender, scene: Scene): Result<Blender>
  {
    SetEdit(b, true, scene)
  }

  /** `__exit__`: `edit = not edit`. */
  function Exit(b: Blender, scene: Scene): Result<Blender>
  {
    SetEdit(b, !IsEditing(b), scene)
  }

  /**
   * A `with blender:` block whose body leaves the node alone ends with
   * editing off, unless there is no driven transform, when the getter
   * reports True throughout; with a driven transform that is a transform
   * neither step fails.
   */
  lemma WithBlockLeavesEditOff(b: Blender, scene: Scene)
    ensures b.driven.Some? && scene.IsTransform(b.driven.value) ==>
      Enter(b, scene).Ok? && Exit(Enter(b, scene).value, scene).Ok?
    ensures Enter(b, scene).Ok? && Exit(Enter(b, scene).value, scene).Ok? ==>
      IsEditing(Exit(Enter(b, scene).value, scene).value) == b.driven.None?
  {
    if Enter(b, scene).Ok? {
      var inside := Enter(b, scene).value;
      assert IsEditing(inside);
      assert inside.driven == b.driven;
    }
  }

  // ----------------------------------------------------------- poses

  /** `get_pose(index)`: the recorded matrix, `None` for a slot that does not exist. */
  function GetPose(b: Blender, index: int): (r: Option<Matrix>)
    ensures r.Some? <==> 0 <= index < |b.poses| && b.poses[index].Some?
  {
    At(b.poses, index)
  }

  /** `get_poses`: the recorded matrices in slot order. */
  function GetPoses(b: Blender): seq<Matrix>
  {
    Values(b.poses)
  }

  /** `cmds.xform(driven_transform, query=True, matrix=True)`: fails without a driven transform. */
  function DrivenMatrix(b: Blender, scene: Scene): (r: Result<Matrix>)
    ensures r.Ok? <==> b.driven.Some? && scene.IsTransform(b.driven.value)
    ensures r.Ok? ==> r.value == scene.transforms[b.driven.value]
  {
    match b.driven
    case None => Err(RuntimeError)
    case Some(t) => LocalMatrix(scene, t)
  }

  /** The slot a negative index stands for: `len(indices or [0]) - 1`. */
  function Slot<T>(a: Multi<T>, index: int): (r: nat)
    ensures index >= 0 ==> r == index
    ensures index < 0 ==> r == DefaultSlot(a)
  {
    if index < 0 then DefaultSlot(a) else index
  }

  /**
   * `set_pose`. A negative index with a pose name changes nothing; otherwise
   * the slot (defaulted as `Slot` says) receives the given matrix or, without
   * one, the driven transform's current matrix. `overwrite` has no effect.
   */
  function SetPose(b: Blender, index: int, poseName: string, overwrite: bool, matrix: Option<Matrix>,
                   scene: Scene): (r: Result<Blender>)
    ensures index < 0 && poseName != "" ==> r == Ok(b)
    ensures !(index < 0 && poseName != "") ==>
      (r.Ok? <==> matrix.Some? || DrivenMatrix(b, scene).Ok?)
    ensures r.Ok? && !(index < 0 && poseName != "") ==>
      r.value == b.(poses := Put(b.poses, Slot(b.poses, index),
                                 if matrix.Some? then matrix.value else DrivenMatrix(b, scene).value))
  {
    if index < 0 && poseName != "" then Ok(b)
    else
      var slot := Slot(b.poses, index);
      match (if matrix.Some? then Ok(matrix.value) else DrivenMatrix(b, scene))
      case Err(e) => Err(e)
      case Ok(m) => Ok(b.(poses := Put(b.poses, slot, m)))
  }

  /** The overwrite flag of `set_pose` is never consulted. */
  lemma SetPoseIgnoresOverwrite(b: Blender, index: int, poseName: string, matrix: Option<Matrix>, scene: Scene)
    ensures SetPose(b, index, poseName, true, matrix, scene) == SetPose(b, index, poseName, false, matrix, scene)
  {
  }

  /**
   * `add_pose_from_current`: the slot is defaulted first, then a missing
   * driven transform raises PoseBlenderPoseError; otherwise the slot records
   * the driven transform's current matrix.
   */
  function AddPoseFromCurrent(b: Blender, poseName: string, index: int, scene: Scene): (r: Result<Blender>)
    ensures b.driven.None? ==> r == Err(PoseBlenderPoseError)
    ensures r.Ok? <==> DrivenMatrix(b, scene).Ok?
    ensures r.Ok? ==> r.value == b.(poses := Put(b.poses, Slot(b.poses, index), DrivenMatrix(b, scene).value))
  {
    var slot := Slot(b.poses, index);
    match b.driven
    case None => Err(PoseBlenderPoseError)
    case Some(t) =>
      match LocalMatrix(scene, t)
      case Err(e) => Err(e)
      case Ok(m) => SetPose(b, slot, poseName, true, Some(m), scene)
  }

  /** The `base_pose` setter: basePose, inMatrix and pose slot 0 all receive the matrix. */
  function SetBasePose(b: Blender, m: Matrix): (r: Blender)
    ensures r.basePose == Some(m) && r.inMatrix == Some(m)
    ensures r == b.(basePose := Some(m), inMatrix := Some(m), poses := Put(b.poses, 0, m))
  {
    b.(basePose := Some(m), inMatrix := Some(m), poses := Put(b.poses, 0, m))
  }

  /** The `base_pose` getter: the pose in slot 0. */
  function BasePose(b: Blender): Option<Matrix>
  {
    GetPose(b, 0)
  }

  /** The base pose read back after setting it is the matrix set, and the other slots keep theirs. */
  lemma BasePoseRoundTrip(b: Blender, m: Matrix)
    ensures BasePose(SetBasePose(b, m)) == Some(m)
    ensures forall k :: k != 0 ==> GetPose(SetBasePose(b, m), k) == GetPose(b, k)
  {
  }

  /**
   * A node created for a driven transform: the base pose setter applied to
   * that transform's current matrix. Without a transform the node is empty.
   */
  function CreateBlender(driven: Option<string>, scene: Scene): (r: Result<Blender>)
    ensures driven.None? ==> r == Ok(EmptyBlender(None))
    ensures driven.Some? ==> (r.Ok? <==> scene.IsTransform(driven.value))
    ensures r.Ok? && driven.Some? ==> r.value == SetBasePose(EmptyBlender(driven), scene.transforms[driven.value])
  {
    match driven
    case None => Ok(EmptyBlender(None))
    case Some(t) =>
      match LocalMatrix(scene, t)
      case Err(e) => Err(e)
      case Ok(m) => Ok(SetBasePose(EmptyBlender(driven), m))
  }

  // ------------------------------------------------------ delete_pose

  /** Python's `list.pop(index)` position on a list of length `n`, `None` for an IndexError. */
  function PopPosition(n: nat, index: int): (r: Option<nat>)
    ensures r.Some? <==> -(n as int) <= index < n
    ensures r.Some? ==> r.value < n && (r.value == index || r.value == index + n)
  {
    if -(n as int) <= index < 0 then Some(index + n)
    else if 0 <= index < n then Some(index)
    else None
  }

  /** Slots `0 .. n - 1` removed, the rest as they were. */
  function Cleared<T>(a: Multi<T>, n: nat): (r: Multi<T>)
    ensures |r| == |a|
  {
    seq(|a|, k requires 0 <= k < |a| => if k < n then None else a[k])
  }

  /** Slots `0 .. |vals| - 1` set to `vals` on top of `a`. */
  function Refilled<T>(a: Multi<T>, vals: seq<T>): (r: Multi<T>)
    ensures |r| == if |vals| <= |a| then |a| else |vals|
    ensures forall k :: 0 <= k < |vals| ==> r[k] == Some(vals[k])
    ensures forall k :: |vals| <= k < |a| ==> r[k] == a[k]
  {
    var len := if |vals| <= |a| then |a| else |vals|;
    seq(len, k requires 0 <= k < len => if k < |vals| then Some(vals[k]) else a[k])
  }

  function Erase<T>(s: seq<T>, i: nat): (r: seq<T>)
    requires i < |s|
    ensures |r| == |s| - 1
    ensures forall k :: 0 <= k < i ==> r[k] == s[k]
    ensures forall k :: i <= k < |r| ==> r[k] == s[k + 1]
  {
    s[..i] + s[i + 1..]
  }

  /**
   * `delete_pose` on a node. A negative index without a name raises
   * InvalidPoseIndex and changes nothing. Otherwise it removes slots
   * `0 .. n - 1`, `n` being the number of recorded matrices; an index that
   * Python's `pop` rejects then raises IndexError with those slots gone;
   * any other index drops that matrix and writes the rest back from slot 0.
   */
  function DeletePose(b: Blender, index: int, poseName: string): (r: (Outcome, Blender))
    ensures index < 0 && poseName == "" ==> r == (Err(InvalidPoseIndex), b)
    ensures !(index < 0 && poseName == "") && PopPosition(|GetPoses(b)|, index).None? ==>
      r == (Err(IndexError), b.(poses := Cleared(b.poses, |GetPoses(b)|)))
    ensures r.0.Ok? <==> !(index < 0 && poseName == "") && PopPosition(|GetPoses(b)|, index).Some?
    ensures r.0.Ok? ==> r.1 == b.(poses := Refilled(Cleared(b.poses, |GetPoses(b)|),
                                                    Erase(GetPoses(b), PopPosition(|GetPoses(b)|, index).value)))
  {
    if index < 0 && poseName == "" then (Err(InvalidPoseIndex), b)
    else
      var vals := GetPoses(b);
      var cleared := Cleared(b.poses, |vals|);
      match PopPosition(|vals|, index)
      case None => (Err(IndexError), b.(poses := cleared))
      case Some(i) => (Done, b.(poses := Refilled(cleared, Erase(vals, i))))
  }

  /** Clearing a dense array and writing one value fewer back leaves one empty slot at the end. */
  lemma RefilledAfterClear<T>(vals: seq<T>, rest: seq<T>)
    requires |rest| + 1 == |vals|
    ensures Refilled(Cleared(Dense(vals), |vals|), rest) == Dense(rest) + [None]
  {
    var after := Refilled(Cleared(Dense(vals), |vals|), rest);
    assert |after| == |vals|;
    forall k | 0 <= k < |vals| ensures after[k] == (Dense(rest) + [None])[k] {
      if k < |rest| {
        assert after[k] == Some(rest[k]);
      } else {
        assert after[k] == Cleared(Dense(vals), |vals|)[k];
      }
    }
  }

  /** Deleting slot `i` of a dense node leaves the erased list dense, followed by one empty slot. */
  lemma DeleteFromDenseState(vals: seq<Matrix>, b: Blender, i: nat)
    requires b.poses == Dense(vals) && i < |vals|
    ensures DeletePose(b, i, "") == (Done, b.(poses := Dense(Erase(vals, i)) + [None]))
  {
    DenseReads(vals);
    assert GetPoses(b) == vals;
    assert PopPosition(|vals|, i) == Some(i);
    RefilledAfterClear(vals, Erase(vals, i));
  }

  /**
   * On a node whose slots are exactly its matrices (the state the solver
   * keeps), deleting slot `i` leaves the matrices with the `i`-th one erased
   * and every later one moved down a slot.
   */
  lemma DeleteFromDense(vals: seq<Matrix>, b: Blender, i: nat)
    requires b.poses == Dense(vals) && i < |vals|
    ensures DeletePose(b, i, "").0 == Done
    ensures GetPoses(DeletePose(b, i, "").1) == Erase(vals, i)
    ensures forall k :: 0 <= k < |vals| - 1 ==> GetPose(DeletePose(b, i, "").1, k) == Some(vals[if k < i then k else k + 1])
    ensures GetPose(DeletePose(b, i, "").1, |vals| - 1) == None
  {
    DeleteFromDenseState(vals, b, i);
    var rest := Erase(vals, i);
    ValuesSnocNone(Dense(rest));
    DenseReads(rest);
  }

  /** Every slot from `i` on takes the value of the slot after it; the last one becomes empty. */
  function Shifted<T>(a: Multi<T>, i: nat): (r: Multi<T>)
    ensures |r| == |a|
  {
    seq(|a|, k requires 0 <= k < |a| => if k < i then a[k] else if k + 1 < |a| then a[k + 1] else None)
  }

  /**
   * Deleting slot `i` of a node whose slots `0 .. count - 1` are exactly its
   * poses moves every later pose down one slot, and the node then has
   * exactly `count - 1` poses.
   */
  lemma DeleteShifts(b: Blender, count: nat, i: nat)
    requires Filled(b.poses, count) && i < count
    ensures DeletePose(b, i, "") == (Done, b.(poses := Shifted(b.poses, i)))
    ensures Filled(Shifted(b.poses, i), count - 1)
  {
    FilledValues(b.poses, count);
    assert PopPosition(|GetPoses(b)|, i) == Some(i);
    RefillShifts(b.poses, GetPoses(b), i);
  }

  /** On an array holding exactly `vals`, clearing and writing back all values but the `i`-th is the shift. */
  lemma RefillShifts<T>(a: Multi<T>, vals: seq<T>, i: nat)
    requires Filled(a, |vals|) && i < |vals|
    requires forall k :: 0 <= k < |vals| ==> a[k] == Some(vals[k])
    ensures Refilled(Cleared(a, |vals|), Erase(vals, i)) == Shifted(a, i)
    ensures Filled(Shifted(a, i), |vals| - 1)
  {
    var rest := Erase(vals, i);
    var cleared := Cleared(a, |vals|);
    var after := Refilled(cleared, rest);
    forall k | 0 <= k < |a| ensures after[k] == Shifted(a, i)[k] {
      if k < |rest| {
        assert after[k] == Some(rest[k]);
      } else {
        assert after[k] == cleared[k];
      }
    }
  }

  lemma ValuesSnocNone<T>(a: Multi<T>)
    ensures Values(a + [None]) == Values(a)
  {
    assert (a + [None])[..|a|] == a;
  }

  // ---------------------------------------------------------- weights

  /**
   * `set_weight`: the slot (defaulted as for poses) is connected to the given
   * attribute when one is named, otherwise set to the float value. A
   * connection the host refuses (`hostAccepts` false) raises
   * PoseWranglerAttributeError, as `set_attr_or_connect` does, and changes nothing.
   */
  function SetWeight(b: Blender, index: int, inFloatAttr: string, floatValue: real, hostAccepts: bool): (r: Result<Blender>)
    ensures r.Err? <==> inFloatAttr != "" && !hostAccepts
    ensures r.Err? ==> r.error == PoseWranglerAttributeError
    ensures r.Ok? ==> r.value == b.(weights := r.value.weights)
    ensures r.Ok? ==>
      At(r.value.weights, Slot(b.weights, index)) ==
        Some(if inFloatAttr != "" then WeightPlug(inFloatAttr) else WeightValue(floatValue))
    ensures r.Ok? ==> forall k :: k != Slot(b.weights, index) ==> At(r.value.weights, k) == At(b.weights, k)
  {
    if inFloatAttr != "" && !hostAccepts then Err(PoseWranglerAttributeError)
    else
      Ok(b.(weights := Put(b.weights, Slot(b.weights, index),
                           if inFloatAttr != "" then WeightPlug(inFloatAttr) else WeightValue(floatValue))))
  }

  /** The plug name of element `i` of an array attribute. */
  function ElementPlug(attr: string, i: nat): string
  {
    attr + MayaUtils.ElementSuffix(i)
  }

  /** Weight slots `0 .. count - 1` connected to the matching elements of `attr`. */
  function ConnectedWeights(w: Multi<Weight>, attr: string, count: nat): (r: Multi<Weight>)
    ensures forall k :: 0 <= k < count ==> At(r, k) == Some(WeightPlug(ElementPlug(attr, k)))
    ensures forall k :: k >= count ==> At(r, k) == At(w, k)
    decreases count
  {
    if count == 0 then w
    else Put(ConnectedWeights(w, attr, count - 1), count - 1, WeightPlug(ElementPlug(attr, count - 1)))
  }

  /** Weight slots `0 .. |floats| - 1` set to `floats`. */
  function SetWeightValues(w: Multi<Weight>, floats: seq<real>): (r: Multi<Weight>)
    ensures forall k :: 0 <= k < |floats| ==> At(r, k) == Some(WeightValue(floats[k]))
    ensures forall k :: k >= |floats| ==> At(r, k) == At(w, k)
    decreases |floats|
  {
    if floats == [] then w
    else Put(SetWeightValues(w, floats[..|floats| - 1]), |floats| - 1, WeightValue(floats[|floats| - 1]))
  }

  /**
   * `set_weights`. A named array attribute wins: one element per existing
   * index of it, at least one (`sourceCount` is how many indices it has);
   * a refused connection raises at the first element, before anything is
   * connected. Otherwise a non-empty float list is written from slot 0.
   */
  function SetWeights(b: Blender, inFloatArrayAttr: string, sourceCount: nat, floats: seq<real>, hostAccepts: bool): (r: Result<Blender>)
    ensures r.Err? <==> inFloatArrayAttr != "" && !hostAccepts
    ensures r.Err? ==> r.error == PoseWranglerAttributeError
    ensures r.Ok? ==> r.value == b.(weights := r.value.weights)
    ensures r.Ok? && inFloatArrayAttr != "" ==>
      r.value.weights == ConnectedWeights(b.weights, inFloatArrayAttr, if sourceCount == 0 then 1 else sourceCount)
    ensures inFloatArrayAttr == "" ==> r == Ok(b.(weights := SetWeightValues(b.weights, floats)))
  {
    if inFloatArrayAttr != "" then
      if !hostAccepts then Err(PoseWranglerAttributeError)
      else Ok(b.(weights := ConnectedWeights(b.weights, inFloatArrayAttr, if sourceCount == 0 then 1 else sourceCount)))
    else if floats != [] then Ok(b.(weights := SetWeightValues(b.weights, floats)))
    else Ok(b)
  }

  // --------------------------------------------------------- envelope

  /** `min(max(0.0, x), 1.0)`. */
  function ClampUnit(x: real): (r: real)
    ensures 0.0 <= r <= 1.0
    ensures 0.0 <= x <= 1.0 ==> r == x
  {
    if x < 0.0 then 0.0 else if x > 1.0 then 1.0 else x
  }

  /**
   * The envelope setter's clamp as written: only floats are clamped, since
   * the int branch also asks for `0 > value > 1`, which no number satisfies.
   */
  function EnvelopeAsWritten(v: EnvelopeInput): (r: EnvelopeInput)
    ensures v.FloatInput? ==> r == FloatInput(ClampUnit(v.f))
    ensures !v.FloatInput? ==> r == v
  {
    match v
    case FloatInput(f) => FloatInput(ClampUnit(f))
    case IntInput(i) => if 0 > i && i > 1 then FloatInput(ClampUnit(i as real)) else v
    case PlugInput(_) => v
  }

  /** An int envelope of 5 is stored as 5, outside the [0, 1] range floats are held to. */
  lemma EnvelopeIntPassesUnclamped()
    ensures EnvelopeAsWritten(IntInput(5)) == IntInput(5)
    ensures EnvelopeAsWritten(FloatInput(5.0)) == FloatInput(1.0)
  {
  }

  /** The clamp as evidently intended: every number is held to [0, 1]; plugs pass. */
  function EnvelopeIntended(v: EnvelopeInput): (r: EnvelopeInput)
    ensures v.PlugInput? ==> r == v
    ensures !v.PlugInput? ==> r.FloatInput? && 0.0 <= r.f <= 1.0
    ensures v.FloatInput? ==> r == EnvelopeAsWritten(v)
    ensures v.IntInput? && 0 <= v.i <= 1 ==> r == FloatInput(v.i as real)
  {
    match v
    case FloatInput(f) => FloatInput(ClampUnit(f))
    case IntInput(i) => FloatInput(ClampUnit(i as real))
    case PlugInput(_) => v
  }

  /**
   * The envelope setter as written: the value after `EnvelopeAsWritten` is
   * set, so a float is held to [0, 1] while an int is stored as it is; a
   * plug is connected to the envelope (skipped when already connected; a
   * refused connection raises PoseWranglerAttributeError).
   */
  function SetEnvelope(b: Blender, v: EnvelopeInput, hostAccepts: bool): (r: Result<Blender>)
    ensures r.Err? <==> v.PlugInput? && !hostAccepts
    ensures r.Err? ==> r.error == PoseWranglerAttributeError
    ensures r.Ok? ==> r.value == b.(envelope := r.value.envelope)
    ensures r.Ok? && v.PlugInput? ==> r.value.envelope == EnvelopePlug(v.plug)
    ensures v.FloatInput? ==> r.Ok? && r.value.envelope.EnvelopeValue? && 0.0 <= r.value.envelope.value <= 1.0
    ensures v.FloatInput? && 0.0 <= v.f <= 1.0 ==> r == Ok(b.(envelope := EnvelopeValue(v.f)))
    ensures v.IntInput? ==> r == Ok(b.(envelope := EnvelopeValue(v.i as real)))
  {
    var given := EnvelopeAsWritten(v);
    var value := match given
      case FloatInput(f) => MayaUtils.FloatValue(f)
      case IntInput(i) => MayaUtils.IntValue(i)
      case PlugInput(p) => MayaUtils.StringValue(p);
    var alreadyConnected := v.PlugInput? && b.envelope == EnvelopePlug(v.plug);
    match MayaUtils.SetAttrOrConnect("envelope", value, None, false, alreadyConnected, hostAccepts)
    case Err(e) => Err(e)
    case Ok(write) =>
      match given
      case PlugInput(p) => Ok(b.(envelope := EnvelopePlug(p)))
      case FloatInput(f) => Ok(b.(envelope := EnvelopeValue(f)))
      case IntInput(i) => Ok(b.(envelope := EnvelopeValue(i as real)))
  }

  /** Through the setter as written, `envelope = 5` stores 5 while `envelope = 5.0` stores 1. */
  lemma SetEnvelopeIntUnclamped(b: Blender, hostAccepts: bool)
    ensures SetEnvelope(b, IntInput(5), hostAccepts) == Ok(b.(envelope := EnvelopeValue(5.0)))
    ensures SetEnvelope(b, FloatInput(5.0), hostAccepts) == Ok(b.(envelope := EnvelopeValue(1.0)))
  {
    EnvelopeIntPassesUnclamped();
  }

  /**
   * The setter with the clamp as evidently intended: every number, int or
   * float, is held to [0, 1].
   */
  function SetEnvelopeIntended(b: Blender, v: EnvelopeInput, hostAccepts: bool): (r: Result<Blender>)
    ensures r.Err? <==> v.PlugInput? && !hostAccepts
    ensures r.Ok? ==> r.value == b.(envelope := r.value.envelope)
    ensures r.Ok? && v.PlugInput? ==> r.value.envelope == EnvelopePlug(v.plug)
    ensures !v.PlugInput? ==> r.Ok? && r.value.envelope.EnvelopeValue? && 0.0 <= r.value.envelope.value <= 1.0
    ensures v.FloatInput? ==> r == SetEnvelope(b, v, hostAccepts)
  {
    match EnvelopeIntended(v)
    case FloatInput(f) => Ok(b.(envelope := EnvelopeValue(f)))
    case IntInput(i) => Ok(b.(envelope := EnvelopeValue(i as real)))
    case PlugInput(p) => if hostAccepts then Ok(b.(envelope := EnvelopePlug(p))) else Err(PoseWranglerAttributeError)
  }
}
