/**
 * `UEPoseBlenderNode` (`v2/model/pose_blender.py`) as an object whose
 * fields are the node's attributes. Every operation is proved to leave the
 * node in the state `BlenderModel` gives for it.
 */
module PoseBlending {
  import opened Wrappers
  import opened Sparse
  import opened Host
  import opened BlenderModel

  /** The new state when the operation succeeds, the old one when it fails. */
  predicate Applied(r: Outcome, now: Blender, expected: Result<Blender>, before: Blender)
  {
    match expected
    case Ok(b) => r == Done && now == b
    case Err(e) => r == Err(e) && now == before
  }

  class PoseBlenderNode {
    var driven: Option<string>
    var poses: Multi<Matrix>
    var weights: Multi<Weight>
    var basePose: Option<Matrix>
    var inMatrix: Option<Matrix>
    var decompose: nat
    var envelope: Envelope

    function State(): Blender
      reads this
    {
      Blender(driven, poses, weights, basePose, inMatrix, decompose, envelope)
    }

    /** A node with nothing connected or set. */
    constructor (drivenTransform: Option<string>)
      ensures State() == EmptyBlender(drivenTransform)
    {
      driven := drivenTransform;
      poses := [];
      weights := [];
      basePose := None;
      inMatrix := None;
      decompose := 0;
      envelope := EnvelopeDefault;
    }

    /** The `edit` getter. */
    predicate Edit()
      reads this
      ensures Edit() <==> IsEditing(State())
    {
      driven.None? || decompose == 0
    }

    /** The `edit` setter. */
    method SetEdit(value: bool, scene: Scene) returns (r: Outcome)
      modifies this
      ensures Applied(r, State(), BlenderModel.SetEdit(old(State()), value, scene), old(State()))
      ensures r.Ok? ==> Edit() == (value || driven.None?)
    {
      if driven.None? {
        return Done;
      }
      var transform := driven.value;
      if value {
        var current := LocalMatrix(scene, transform);
        if current.Err? {
          return Err(current.error);
        }
        decompose := 0;
      } else {
        if !scene.IsTransform(transform) {
          return Err(InvalidNodeType);
        }
        decompose := decompose + 1;
      }
      r := Done;
    }

    /** `__enter__`. */
    method Enter(scene: Scene) returns (r: Outcome)
      modifies this
      ensures Applied(r, State(), BlenderModel.Enter(old(State()), scene), old(State()))
    {
      r := SetEdit(true, scene);
    }

    /** `__exit__`. */
    method Exit(scene: Scene) returns (r: Outcome)
      modifies this
      ensures Applied(r, State(), BlenderModel.Exit(old(State()), scene), old(State()))
    {
      var editing := Edit();
      r := SetEdit(!editing, scene);
    }

    function GetPose(index: int): (r: Option<Matrix>)
      reads this
      ensures r == BlenderModel.GetPose(State(), index)
    {
      At(poses, index)
    }

    /** `set_pose`. */
    method SetPose(index: int, poseName: string, overwrite: bool, matrix: Option<Matrix>, scene: Scene)
      returns (r: Outcome)
      modifies this
      ensures Applied(r, State(), BlenderModel.SetPose(old(State()), index, poseName, overwrite, matrix, scene), old(State()))
    {
      var slot := index;
      if index < 0 {
        if poseName != "" {
          return Done;
        }
        slot := DefaultSlot(poses);
      }
      var m: Matrix;
      if matrix.None? {
        var current := DrivenMatrix(State(), scene);
        if current.Err? {
          return Err(current.error);
        }
        m := current.value;
      } else {
        m := matrix.value;
      }
      poses := Put(poses, slot, m);
      r := Done;
    }

    /** `add_pose_from_current`. */
    method AddPoseFromCurrent(poseName: string, index: int, scene: Scene) returns (r: Outcome)
      modifies this
      ensures Applied(r, State(), BlenderModel.AddPoseFromCurrent(old(State()), poseName, index, scene), old(State()))
    {
      var slot := index;
      if index < 0 {
        slot := DefaultSlot(poses);
      }
      if driven.None? {
        return Err(PoseBlenderPoseError);
      }
      var current := LocalMatrix(scene, driven.value);
      if current.Err? {
        return Err(current.error);
      }
      r := SetPose(slot, poseName, true, Some(current.value), scene);
    }

    /** The `base_pose` setter. */
    method SetBasePose(m: Matrix)
      modifies this
      ensures State() == BlenderModel.SetBasePose(old(State()), m)
    {
      basePose := Some(m);
      inMatrix := Some(m);
      var _ := SetPose(0, "", true, Some(m), Scene(map[], {}));
    }

    /** The removal loop of `delete_pose`: slots `n - 1` down to `0` are removed. */
    method ClearSlots(n: nat)
      modifies this
      ensures State() == old(State()).(poses := Cleared(old(poses), n))
    {
      var i := n;
      while i > 0
        invariant 0 <= i <= n && |poses| == |old(poses)|
        invariant forall k :: 0 <= k < |poses| ==> poses[k] == (if i <= k < n then None else old(poses)[k])
        invariant State() == old(State()).(poses := poses)
      {
        i := i - 1;
        poses := Remove(poses, i);
      }
    }

    /** The re-set loop of `delete_pose`: `set_pose(index=k, matrix=rest[k])` for every `k`. */
    method WriteBack(rest: seq<Matrix>)
      modifies this
      ensures State() == old(State()).(poses := Refilled(old(poses), rest))
    {
      var j := 0;
      while j < |rest|
        invariant 0 <= j <= |rest|
        invariant poses == Refilled(old(poses), rest[..j])
        invariant State() == old(State()).(poses := poses)
      {
        assert Put(Refilled(old(poses), rest[..j]), j, rest[j]) == Refilled(old(poses), rest[..j + 1]);
        poses := Put(poses, j, rest[j]);
        j := j + 1;
      }
      assert rest[..j] == rest;
    }

    /**
     * `delete_pose`: the recorded matrices are copied, slots `0 .. n - 1`
     * removed from the last down, the copy popped, and the rest written back.
     */
    method DeletePose(index: int, poseName: string) returns (r: Outcome)
      modifies this
      ensures (r, State()) == BlenderModel.DeletePose(old(State()), index, poseName)
    {
      if index < 0 && poseName == "" {
        return Err(InvalidPoseIndex);
      }
      var copied := Values(poses);
      ClearSlots(|copied|);
      var position := PopPosition(|copied|, index);
      if position.None? {
        return Err(IndexError);
      }
      WriteBack(Erase(copied, position.value));
      r := Done;
    }

    /** `set_weight`. */
    method SetWeight(index: int, inFloatAttr: string, floatValue: real, hostAccepts: bool) returns (r: Outcome)
      modifies this
      ensures Applied(r, State(), BlenderModel.SetWeight(old(State()), index, inFloatAttr, floatValue, hostAccepts), old(State()))
    {
      var slot := index;
      if index < 0 {
        slot := DefaultSlot(weights);
      }
      if inFloatAttr != "" && !hostAccepts {
        return Err(PoseWranglerAttributeError);
      }
      weights := Put(weights, slot, if inFloatAttr != "" then WeightPlug(inFloatAttr) else WeightValue(floatValue));
      r := Done;
    }

    /** `set_weights`: one `set_weight` per element, plugs taking priority over floats. */
    method SetWeights(inFloatArrayAttr: string, sourceCount: nat, floats: seq<real>, hostAccepts: bool) returns (r: Outcome)
      modifies this
      ensures Applied(r, State(), BlenderModel.SetWeights(old(State()), inFloatArrayAttr, sourceCount, floats, hostAccepts), old(State()))
    {
      r := Done;
      if inFloatArrayAttr != "" {
        var count := if sourceCount == 0 then 1 else sourceCount;
        ghost var w0 := weights;
        var i := 0;
        while i < count
          invariant 0 <= i <= count && weights == ConnectedWeights(w0, inFloatArrayAttr, i)
          invariant State() == old(State()).(weights := weights)
          invariant hostAccepts || i == 0
        {
          var o := SetWeight(i, ElementPlug(inFloatArrayAttr, i), 0.0, hostAccepts);
          if o.Err? {
            return o;
          }
          i := i + 1;
        }
      } else if floats != [] {
        ghost var w0 := weights;
        var i := 0;
        while i < |floats|
          invariant 0 <= i <= |floats| && weights == SetWeightValues(w0, floats[..i])
          invariant State() == old(State()).(weights := weights)
        {
          assert floats[..i + 1][..i] == floats[..i];
          var o := SetWeight(i, "", floats[i], hostAccepts);
          i := i + 1;
        }
        assert floats[..i] == floats;
      }
    }

    /** The envelope setter: only a float is clamped before it is set. */
    method SetEnvelope(v: EnvelopeInput, hostAccepts: bool) returns (r: Outcome)
      modifies this
      ensures Applied(r, State(), BlenderModel.SetEnvelope(old(State()), v, hostAccepts), old(State()))
    {
      r := Done;
      var given := EnvelopeAsWritten(v);
      match given
      case PlugInput(p) =>
        if !hostAccepts {
          return Err(PoseWranglerAttributeError);
        }
        envelope := EnvelopePlug(p);
      case FloatInput(f) =>
        envelope := EnvelopeValue(f);
      case IntInput(i) =>
        envelope := EnvelopeValue(i as real);
    }
  }

  /**
   * `UEPoseBlenderNode.create`: a new node, connected to the driven transform
   * when one is given and then holding its current matrix as base pose.
   */
  method Create(drivenTransform: Option<string>, scene: Scene) returns (r: Result<PoseBlenderNode>)
    ensures r.Ok? <==> CreateBlender(drivenTransform, scene).Ok?
    ensures r.Ok? ==> fresh(r.value) && r.value.State() == CreateBlender(drivenTransform, scene).value
  {
    var node := new PoseBlenderNode(drivenTransform);
    if drivenTransform.Some? {
      var current := LocalMatrix(scene, drivenTransform.value);
      if current.Err? {
        return Err(current.error);
      }
      node.SetBasePose(current.value);
    }
    r := Ok(node);
  }
}
