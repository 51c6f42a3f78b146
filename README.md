# poseWrangler in Dafny

This project models the pose-driver core of poseWrangler, a Maya tool for radial-basis-function pose drivers. In its terms:

- **v2 solver.** A `UERBFSolverNode` (an `RBFNode`) reads the matrices of its drivers. Each of its `targets` is one pose. The solver feeds one output per pose into every `UEPoseBlenderNode` connected to it. A pose blender records, for its driven transform, one matrix and one weight per pose slot.
- **v2 API.** The solver's API adds, updates, deletes, renames, mutes and mirrors poses. It wires drivers, controllers and driven transforms, and serialises the solver to a dictionary and rebuilds it from one.
- **Session and mirroring.** The `UEPoseWrangler` session object tracks the current solver and finds solvers by name. A mirror mapping translates left-side names into right-side names.
- **Extensions.** Two extensions copy and paste transform values and generate in-between poses.
- **v1.** The `UE4PoseDriver` records each pose as matrix nodes connected to a `stored_pose_<name>` message attribute of its solver. A JSON import rebuilds pose drivers. `upgrade.py` converts v1 solvers into the v2 data format.

Maya is not modelled as a program. The scene is a value (`Host.Scene` and the per-module scene types). Each answer the tool asks of Maya is part of that value or a parameter:

- `getAttr(..., multiIndices=True)`;
- `listConnections`;
- `xform`;
- `objExists`;
- whether `connectAttr` accepts a connection.

Each operation is a function from the old state to the new state or to an error: the `Result` type carries the exception class the tool would raise. Where the source mutates an object in place, there is a second form as well: a class with those fields and methods, whose `ensures` ties the new state to the function. This applies to the pose blender node, the mirror mapping, the session, the copy/paste store, the v1 pose driver and the loops of the upgrade.

Modules follow the source files:

| module | source |
|---|---|
| `Sparse`, `Host`, `Text`, `OrderedDict`, `Wrappers` | Maya array attributes, the scene, Python strings and dictionaries, results |
| `MayaUtils` | `v2/model/utils.py` |
| `BlenderModel`, `PoseBlending` | `v2/model/pose_blender.py` |
| `Mirroring` | `model/mirror_mapping.py` and the mirror helpers of `v2/model/api.py` |
| `SolverModel`, `SolverPoses`, `SolverWiring`, `SolverDelete`, `SolverData`, `Solver` | `v2/model/api.py` |
| `Session` | `v2/main.py` |
| `CopyPaste` | `v2/extensions/copy_paste_trs.py` |
| `Inbetweens` | `v2/extensions/generate_inbetweens.py` |
| `Legacy`, `LegacyImport` | `v1/poseWrangler.py` |
| `Upgrade` | `v1/upgrade.py` |

## Model

| member | source | states |
|---|---|---|
| Sparse.Indices | epic_pose_wrangler/v2/model/utils.py:133 | the existing element indices of an array attribute, strictly increasing, and every existing element is listed |
| Sparse.Values | epic_pose_wrangler/v2/model/utils.py:228-238 | one value per existing index, in index order, each the value stored at that index |
| Sparse.DefaultSlot | epic_pose_wrangler/v2/model/pose_blender.py:375-377 | the index `pose_index` falls back to: 0 for an empty array; otherwise a position of the index list, below the element count and no larger than the highest index; on a dense array the last element, which exists |
| Sparse.Put | epic_pose_wrangler/v2/model/pose_blender.py:389-392 | `setAttr` on one element: that element holds the value, every other element is unchanged, the array grows only to reach it |
| Sparse.PutSame | epic_pose_wrangler/v2/model/pose_blender.py:389-392 | writing the value an element already holds leaves the array as it was |
| Sparse.Remove | epic_pose_wrangler/v2/model/pose_blender.py:421-423 | `removeMultiInstance`: that element no longer exists and every other element is unchanged |
| Host.LocalMatrix | epic_pose_wrangler/v2/model/pose_blender.py:357-358 | `xform` of a transform: its current local matrix, or NodeNotFound exactly when the node is not a transform |
| Host.LocalMatrices | epic_pose_wrangler/v2/model/api.py:714-715 | the current local matrices of several transforms, in order; it fails exactly when one of them is not a transform |
| MayaUtils.IsConnectedToArray | epic_pose_wrangler/v2/model/utils.py:114-129 | the first existing element whose connections include the attribute; `None` when the array cannot be read or no element is connected to it |
| MayaUtils.NextAvailableIndex | epic_pose_wrangler/v2/model/utils.py:132-148 | the smallest element index without connections; every smaller index has connections |
| MayaUtils.FillMissing | epic_pose_wrangler/v2/model/utils.py:134-140 | appending to the index list while iterating it yields exactly the indices below one past the highest existing element, each once |
| MayaUtils.FillStep | epic_pose_wrangler/v2/model/utils.py:136-139 | one iteration of that loop keeps the list distinct and bounded and lists every position up to the iteration |
| MayaUtils.FirstFree | epic_pose_wrangler/v2/model/utils.py:141-148 | the scan over the sorted list finds the first element without connections, else the list's length |
| MayaUtils.SortedFill | epic_pose_wrangler/v2/model/utils.py:134-140 | `indices.sort()` of the filled list: any sorted rearrangement of a list holding each index below its length once is `0, 1, ..., n - 1` |
| MayaUtils.FillSorts | epic_pose_wrangler/v2/model/utils.py:134-140 | `0, 1, ..., n - 1` is a sorted rearrangement (same multiset) of a list holding each index below its length once, so it is what `indices.sort()` returns (unique by `SortedFill`) |
| MayaUtils.Pigeonhole | epic_pose_wrangler/v2/model/utils.py:136-139 | a list of distinct indices drawn from a set is no longer than the set, which bounds how far the appending loop can grow the list |
| MayaUtils.GetAttr | epic_pose_wrangler/v2/model/utils.py:197-211 | the value when it is asked for; the connected plugs when some exist and the value is not asked for; nothing otherwise (both directions) |
| MayaUtils.GetAttrArray | epic_pose_wrangler/v2/model/utils.py:214-238 | with `as_value`, the values of the existing elements in index order; otherwise all their connected plugs, or an empty list when none is connected |
| MayaUtils.SetAttrOrConnect | epic_pose_wrangler/v2/model/utils.py:241-277 | a list given to a matrix attribute is set with its type, and only then; a string raises PoseWranglerAttributeError exactly when the host refuses, is otherwise reported as already connected when it is, and else connected in the direction `output` names; anything else is set plainly (each branch in both directions) |
| MayaUtils.EnsureMessageAttr | epic_pose_wrangler/v2/model/utils.py:159-163 | a missing attribute is added as an empty message attribute; an existing one is left alone |
| MayaUtils.MessageConnect | epic_pose_wrangler/v2/model/utils.py:151-189 | a plug without '.' raises ValueError and changes nothing; missing attributes are created and existing ones kept; a non-message end raises MessageConnectionError; otherwise the plugs are connected when the host accepts, with an array end at its next free element |
| Text.Lower | epic_pose_wrangler/v2/main.py:230 | lowers ASCII capitals only: the length is kept, each ASCII capital becomes its lower-case letter and every other character is kept |
| Text.SplitOnce | epic_pose_wrangler/v2/model/utils.py:156-157 | `split('.', 1)` into two names: ValueError exactly when the separator is missing, else the two parts rejoined around it give the input and the first holds no separator |
| Text.AfterLast | epic_pose_wrangler/v1/poseWrangler.py:310 | `split(c)[-1]` is the suffix after the last `c` and holds no `c` |
| Text.BeforeFirst | epic_pose_wrangler/v1/poseWrangler.py:310 | `split(c)[0]` is the prefix before the first `c` and holds no `c` |
| Text.ParseFormattedIndex | epic_pose_wrangler/v1/poseWrangler.py:310 | an index formatted into a plug name and read back with `int` is the same index |
| Text.ReplaceAbsent | epic_pose_wrangler/v1/upgrade.py:23 | `replace` of a pattern the string does not hold returns the string unchanged |
| Text.ReplaceBack | epic_pose_wrangler/v1/poseWrangler.py:819-826 | exchanging a side token for the other and back gives the original name when it held no opposite token |
| OrderedDict.Lookup | epic_pose_wrangler/v2/model/api.py:753 | `dict.get`: `None` exactly when the key is absent, else a value stored under the key |
| OrderedDict.Put | epic_pose_wrangler/v2/model/api.py:702 | `d[k] = v`: an existing key keeps its place, a new key goes to the end; the key maps to the value and every other lookup is unchanged |
| OrderedDict.PutKeepsUnique | epic_pose_wrangler/v2/model/api.py:692-704 | assignment never gives a key two entries |
| OrderedDict.Remove | epic_pose_wrangler/v2/model/api.py:1014 | `pop(k)` of a present key removes its entry and keeps the others in order (its only caller, `delete_pose`, has checked `has_pose` first); the absent-key case is the model's own |
| OrderedDict.RemoveLookups | epic_pose_wrangler/v2/model/api.py:1014 | after removal the key is absent, keys stay unique and every other lookup is unchanged |
| BlenderModel.IsEditing | epic_pose_wrangler/v2/model/pose_blender.py:167-177 | the `edit` getter: true without a driven transform or without output connections |
| BlenderModel.SetEdit | epic_pose_wrangler/v2/model/pose_blender.py:179-194 | without a driven transform nothing changes; otherwise it succeeds exactly when the driven node is a transform, touches only the decomposeMatrix connections and leaves the getter reporting the value set |
| BlenderModel.WithBlockLeavesEditOff | epic_pose_wrangler/v2/model/pose_blender.py:107-122 | a `with` block over a node with a driven transform cannot fail and ends with editing off; a node without one reports editing throughout |
| BlenderModel.GetPose | epic_pose_wrangler/v2/model/pose_blender.py:321-331 | the recorded matrix of a slot, `None` exactly for a slot that does not exist |
| BlenderModel.DrivenMatrix | epic_pose_wrangler/v2/model/pose_blender.py:380-381 | the driven transform's current matrix; fails exactly when there is no driven transform or it is not a transform |
| BlenderModel.Slot | epic_pose_wrangler/v2/model/pose_blender.py:371-377 | a non-negative index is used as given and a negative one is replaced by the default slot |
| BlenderModel.SetPose | epic_pose_wrangler/v2/model/pose_blender.py:362-392 | a negative index with a pose name changes nothing; otherwise the slot receives the given matrix or the driven transform's current one, failing exactly when neither exists, and nothing else changes |
| BlenderModel.SetPoseIgnoresOverwrite | epic_pose_wrangler/v2/model/pose_blender.py:384-387 | `overwrite` has no effect on the outcome |
| BlenderModel.AddPoseFromCurrent | epic_pose_wrangler/v2/model/pose_blender.py:340-360 | no driven transform raises PoseBlenderPoseError; it succeeds exactly when the driven matrix can be read, which then fills the defaulted slot |
| BlenderModel.SetBasePose | epic_pose_wrangler/v2/model/pose_blender.py:224-235 | the base pose, the input matrix and pose slot 0 receive the matrix; nothing else changes |
| BlenderModel.BasePoseRoundTrip | epic_pose_wrangler/v2/model/pose_blender.py:217-235 | the base pose read back after setting it is the matrix set, and every other slot is unchanged |
| BlenderModel.CreateBlender | epic_pose_wrangler/v2/model/pose_blender.py:18-41 | without a driven transform an empty node; with one it succeeds exactly when that node is a transform, and holds its current matrix as base pose |
| BlenderModel.PopPosition | epic_pose_wrangler/v2/model/pose_blender.py:426 | `list.pop(index)` accepts exactly `-n <= index < n` and removes position `index` or `index + n` |
| BlenderModel.Refilled | epic_pose_wrangler/v2/model/pose_blender.py:429-430 | the write-back loop: slots `0 .. |vals| - 1` hold the values, later slots are unchanged |
| BlenderModel.Erase | epic_pose_wrangler/v2/model/pose_blender.py:426 | the list without position `i`, later entries moved down one |
| BlenderModel.DeletePose | epic_pose_wrangler/v2/model/pose_blender.py:404-430 | a negative index without a name raises InvalidPoseIndex and changes nothing; an index `pop` rejects raises IndexError with the slots already cleared; otherwise the recorded matrices are cleared and written back without the popped one |
| BlenderModel.DeleteFromDense | epic_pose_wrangler/v2/model/pose_blender.py:404-430 | on a node whose slots are exactly its matrices, deleting slot `i` erases that matrix, moves every later one down a slot and leaves the last slot empty |
| BlenderModel.DeleteShifts | epic_pose_wrangler/v2/model/pose_blender.py:404-430 | on a node whose slots `0 .. count - 1` are filled, deleting slot `i` shifts every later pose down one and leaves exactly `count - 1` filled slots |
| BlenderModel.SetWeight | epic_pose_wrangler/v2/model/pose_blender.py:449-462 | a named attribute the host refuses to connect raises PoseWranglerAttributeError, and only then; otherwise the defaulted weight slot is connected to the named attribute, else set to the float; every other slot and field is unchanged |
| BlenderModel.ConnectedWeights | epic_pose_wrangler/v2/model/pose_blender.py:471-477 | weight slots `0 .. count - 1` connected to the matching elements of the array, the others unchanged |
| BlenderModel.SetWeightValues | epic_pose_wrangler/v2/model/pose_blender.py:478-482 | weight slots `0 .. |floats| - 1` hold the floats, the others unchanged |
| BlenderModel.SetWeights | epic_pose_wrangler/v2/model/pose_blender.py:464-482 | a named array attribute the host refuses raises PoseWranglerAttributeError, and only then; an accepted one wins: one connection per existing index, at least one; otherwise the floats from slot 0; only the weights change |
| BlenderModel.ClampUnit | epic_pose_wrangler/v2/model/pose_blender.py:252 | `min(max(0.0, x), 1.0)` lies in [0, 1] and leaves values inside it alone |
| BlenderModel.EnvelopeAsWritten | epic_pose_wrangler/v2/model/pose_blender.py:251-252 | the setter's clamp as written: floats are clamped, ints and plugs pass unchanged |
| BlenderModel.EnvelopeIntPassesUnclamped | epic_pose_wrangler/v2/model/pose_blender.py:251-252 | an int envelope of 5 is kept as 5 while a float 5.0 is clamped to 1.0 |
| BlenderModel.EnvelopeIntended | epic_pose_wrangler/v2/model/pose_blender.py:251-253 | every number lies in [0, 1] after the clamp, floats as written, ints in range kept; plugs pass |
| BlenderModel.SetEnvelope | epic_pose_wrangler/v2/model/pose_blender.py:244-253 | the setter as written: it fails exactly for a plug the host refuses; a plug is connected; a float is stored held to [0, 1] and an int stored as it is; nothing else changes |
| BlenderModel.SetEnvelopeIntUnclamped | epic_pose_wrangler/v2/model/pose_blender.py:251-253 | through the setter as written, `envelope = 5` stores 5 while `envelope = 5.0` stores 1 |
| BlenderModel.SetEnvelopeIntended | epic_pose_wrangler/v2/model/pose_blender.py:244-253 | the setter with the intended clamp: every number, int or float, is stored within [0, 1]; floats and plugs as the setter as written does them |
| PoseBlending.PoseBlenderNode.constructor | epic_pose_wrangler/v2/model/pose_blender.py:29-30 | a node with nothing connected or set |
| PoseBlending.PoseBlenderNode.Edit | epic_pose_wrangler/v2/model/pose_blender.py:167-177 | the getter agrees with `IsEditing` of the node's state |
| PoseBlending.PoseBlenderNode.SetEdit | epic_pose_wrangler/v2/model/pose_blender.py:179-194 | the node's fields become `BlenderModel.SetEdit` of their old values, or stay as they were on failure |
| PoseBlending.PoseBlenderNode.Enter | epic_pose_wrangler/v2/model/pose_blender.py:107-116 | the fields become `BlenderModel.Enter` of the old state |
| PoseBlending.PoseBlenderNode.Exit | epic_pose_wrangler/v2/model/pose_blender.py:118-122 | the fields become `BlenderModel.Exit` of the old state |
| PoseBlending.PoseBlenderNode.GetPose | epic_pose_wrangler/v2/model/pose_blender.py:321-331 | reads the slot as `BlenderModel.GetPose` does |
| PoseBlending.PoseBlenderNode.SetPose | epic_pose_wrangler/v2/model/pose_blender.py:362-392 | the fields become `BlenderModel.SetPose` of the old state, or stay on failure |
| PoseBlending.PoseBlenderNode.AddPoseFromCurrent | epic_pose_wrangler/v2/model/pose_blender.py:340-360 | the fields become `BlenderModel.AddPoseFromCurrent` of the old state, or stay on failure |
| PoseBlending.PoseBlenderNode.SetBasePose | epic_pose_wrangler/v2/model/pose_blender.py:224-235 | the fields become `BlenderModel.SetBasePose` of the old state |
| PoseBlending.PoseBlenderNode.ClearSlots | epic_pose_wrangler/v2/model/pose_blender.py:421-423 | the removal loop leaves slots `0 .. n - 1` removed and everything else unchanged |
| PoseBlending.PoseBlenderNode.WriteBack | epic_pose_wrangler/v2/model/pose_blender.py:429-430 | the write-back loop leaves the slots refilled with the remaining matrices |
| PoseBlending.PoseBlenderNode.DeletePose | epic_pose_wrangler/v2/model/pose_blender.py:404-430 | the outcome and the new fields are `BlenderModel.DeletePose` of the old state |
| PoseBlending.PoseBlenderNode.SetWeight | epic_pose_wrangler/v2/model/pose_blender.py:449-462 | the fields become `BlenderModel.SetWeight` of the old state, or stay as they were when the connection is refused |
| PoseBlending.PoseBlenderNode.SetWeights | epic_pose_wrangler/v2/model/pose_blender.py:464-482 | the two loops leave the fields as `BlenderModel.SetWeights` gives them, or as they were when the connection is refused |
| PoseBlending.PoseBlenderNode.SetEnvelope | epic_pose_wrangler/v2/model/pose_blender.py:244-253 | the fields become `BlenderModel.SetEnvelope` (as written: ints pass unclamped) of the old state, or stay on failure |
| PoseBlending.Create | epic_pose_wrangler/v2/model/pose_blender.py:18-41 | a fresh node whose state is `CreateBlender`; it fails exactly when `CreateBlender` does |
| Mirroring.SelectSide | epic_pose_wrangler/model/mirror_mapping.py:87-103 | ValueError exactly for a side other than left or right; success exactly when the document holds the side and its opposite, selecting the source syntax of the side and the target syntax of its opposite |
| Mirroring.SelectOpposite | epic_pose_wrangler/model/mirror_mapping.py:100-103 | selecting the opposite side exchanges source and target |
| Mirroring.SwapTwice | epic_pose_wrangler/model/mirror_mapping.py:121-126 | swapping twice restores the side state |
| Mirroring.MirrorMapping.constructor | epic_pose_wrangler/model/mirror_mapping.py:54-67 | the expressions and document are the loaded ones and the syntax fields start empty |
| Mirroring.MirrorMapping.SetSourceSide | epic_pose_wrangler/model/mirror_mapping.py:87-103 | an invalid side raises ValueError and changes nothing; a valid one is recorded first, then either the state becomes `SelectSide` of it or KeyError is raised with the fields read so far kept |
| Mirroring.MirrorMapping.SwapSides | epic_pose_wrangler/model/mirror_mapping.py:121-126 | the source side becomes the opposite one; on a valid mapping source and target syntax are exchanged |
| Mirroring.Load | epic_pose_wrangler/model/mirror_mapping.py:37-69 | a fresh mapping with the given source side, valid, whose state is `SelectSide`; it fails exactly when `SelectSide` does |
| Mirroring.SolverErrorPropagates | epic_pose_wrangler/v2/model/api.py:1910-1920 | once a group cannot be appended the whole name fails with that error |
| Mirroring.SolverGroupsSnoc | epic_pose_wrangler/v2/model/api.py:1910-1920 | one more present group extends the name by that group's mirrored token |
| Mirroring.MirroredSolverName | epic_pose_wrangler/v2/model/api.py:1890-1921 | the name and the mapping's new side state are `MirroredSolverNameSpec` of the match and the old state; the mapping stays valid |
| Mirroring.SolverNameInvolution | epic_pose_wrangler/v2/model/api.py:1910-1920 | a name `p + token + q` mirrors to `p + other + q`, and mirroring that with the state left behind gives the original name |
| Mirroring.MirrorTransformGroups | epic_pose_wrangler/v2/model/api.py:1947-1954 | the mirrored transform name exists exactly when every group is present |
| Mirroring.MirroredTransforms | epic_pose_wrangler/v2/model/api.py:1923-1965 | one mirrored name per input in order, each existing in the scene unless invalid nodes are ignored; any transform that does not match fails the call; and the call succeeds whenever every transform matches with no `None` group and every mirrored name exists or invalid nodes are ignored |
| Mirroring.TransformNameInvolution | epic_pose_wrangler/v2/model/api.py:1947-1954 | mirroring a transform name swaps its side token and mirroring it again restores it |
| Mirroring.AxisScan | epic_pose_wrangler/v2/model/api.py:1885-1888 | no axis is reported exactly when every component of the driver shares a strict sign with its mirror |
| Mirroring.MirroredAxisFrom | epic_pose_wrangler/v2/model/api.py:1881-1888 | `None` exactly when every driver agrees with its mirror in every component |
| Mirroring.AxisScanFindsFirstMismatch | epic_pose_wrangler/v2/model/api.py:1885-1888 | a reported axis names the first component whose signs differ |
| SolverModel.PoseIndex | epic_pose_wrangler/v2/model/api.py:568-579 | the index of the first target carrying the name, or -1 exactly when none does |
| SolverModel.DrivenEntries | epic_pose_wrangler/v2/model/api.py:633-639 | one `driven` entry per connected blender |
| SolverModel.DrivenRecordDistinct | epic_pose_wrangler/v2/model/api.py:633-639 | with distinct driven transforms the `driven` record has one entry per blender, in connection order, and unique keys |
| SolverModel.DrivenLookup | epic_pose_wrangler/v2/model/api.py:638-639 | each blender's entry in the `driven` record is its slot at the pose's index |
| SolverModel.PoseAt | epic_pose_wrangler/v2/model/api.py:590-653 | an empty or wrongly sized driver list raises InvalidPose, a controller count mismatch RuntimeError; a well-formed target gives its record |
| SolverModel.Pose | epic_pose_wrangler/v2/model/api.py:581-653 | an unknown name raises InvalidPose; a known one gives the record at its index |
| SolverModel.PosesKeysNamed | epic_pose_wrangler/v2/model/api.py:692-704 | the keys of `poses()` are exactly the non-empty target names (both directions) |
| SolverModel.PosesKeysStep | epic_pose_wrangler/v2/model/api.py:696-702 | one iteration adds the target's name, when it has one, and nothing else |
| SolverModel.HasPose | epic_pose_wrangler/v2/model/api.py:562-566 | membership in `poses()`: it raises when `poses()` does, else holds exactly for a non-empty name some target carries |
| SolverModel.Records | epic_pose_wrangler/v2/model/api.py:687-704 | one record per target |
| SolverModel.RecordKeys | epic_pose_wrangler/v2/model/api.py:687-704 | the records' keys are the target names, in index order |
| SolverModel.IndexOfName | epic_pose_wrangler/v2/model/api.py:568-579 | with unique names, target `i`'s name is found at `i` |
| SolverModel.RecordsPrefixPut | epic_pose_wrangler/v2/model/api.py:702 | assigning target `i` after the earlier records appends its record |
| SolverModel.PoseOfTarget | epic_pose_wrangler/v2/model/api.py:581-653 | on a valid, well-formed network, `pose()` of a target's name is that target's record |
| SolverModel.PosesUpToNext | epic_pose_wrangler/v2/model/api.py:696-702 | one more iteration over a valid network appends the next record |
| SolverModel.PosesUpToExact | epic_pose_wrangler/v2/model/api.py:692-704 | the loop over the first `m` targets gives exactly their records |
| SolverModel.PosesExact | epic_pose_wrangler/v2/model/api.py:687-704 | `poses()` on a valid, well-formed network returns every target's record, by name and in index order, without repeated keys |
| SolverModel.HasPoseExact | epic_pose_wrangler/v2/model/api.py:562-566 | on a valid, well-formed network `has_pose` is "some target carries this name" |
| SolverModel.AddPoseToBlender | epic_pose_wrangler/v2/model/api.py:749-761 | one blender records the new slot from the supplied driven matrix, else from its driven transform, and connects its weight there to the output; it fails exactly when neither matrix exists |
| SolverModel.AddPose | epic_pose_wrangler/v2/model/api.py:706-769 | the checks in order: the drivers' matrices, no drivers, a taken name, no matrices, a driver count mismatch, a controller count mismatch; passing them all gives exactly the appended network |
| SolverModel.Added | epic_pose_wrangler/v2/model/api.py:732-769 | after the checks: the target appended, output `num_poses()` created, every blender updated as `AddPoseToBlender` says; it fails exactly when some blender cannot be recorded |
| SolverModel.AddPoseAppends | epic_pose_wrangler/v2/model/api.py:732-769 | a successful `add_pose` appends the target at index `num_poses()`, keeps the earlier ones, and every blender records and connects slot `num_poses()` |
| SolverModel.AddedOk | epic_pose_wrangler/v2/model/api.py:746-761 | when every node the network refers to exists, no blender can fail to record |
| SolverModel.AddPoseSucceeds | epic_pose_wrangler/v2/model/api.py:714-729 | on a valid, well-formed network whose nodes exist, `add_pose` succeeds exactly when none of its checks fails |
| SolverModel.AddedKeepsNames | epic_pose_wrangler/v2/model/api.py:732-764 | appending a target with a new, non-empty name keeps names unique and finds it at index `num_poses()` |
| SolverModel.PoseIndexAppend | epic_pose_wrangler/v2/model/api.py:732 | a name no target carries is found at the end once a target carrying it is appended |
| SolverModel.AddedKeepsShape | epic_pose_wrangler/v2/model/api.py:735-743 | one matrix per driver and per controller keeps the network well formed |
| SolverModel.AddedKeepsLockstep | epic_pose_wrangler/v2/model/api.py:746-767 | appending keeps targets, outputs and every blender's slots in step, and keeps the driven transforms and the nodes referred to |
| SolverModel.InStepPut | epic_pose_wrangler/v2/model/api.py:754-761 | a blender in step with `count` targets is in step with one more once it records and connects slot `count` |
| SolverModel.LockstepFrom | epic_pose_wrangler/v2/model/api.py:746-767 | the network-wide lockstep follows from each blender's |
| SolverModel.AddPoseKeeps | epic_pose_wrangler/v2/model/api.py:706-769 | a successful `add_pose` of a new, non-empty name keeps the network valid, well formed, in lockstep and referring to existing nodes, and adds exactly one pose, found at index `num_poses()` |
| SolverPoses.Overlay | epic_pose_wrangler/v2/model/api.py:794-802 | element-wise overwriting from 0: written elements replace, later elements of a longer list survive |
| SolverPoses.Updated | epic_pose_wrangler/v2/model/api.py:794-802 | (no contract of its own) the target with its driver matrices overwritten and, when any are given, its controller matrices; `UpdatePoseWrites` and `UpdatedShape` state its effect |
| SolverPoses.UpdatePose | epic_pose_wrangler/v2/model/api.py:777-809 | an unknown name raises RuntimeError; otherwise the target at the pose's index is overwritten, and every blender re-records that slot from its driven transform, failing exactly when one cannot |
| SolverPoses.UpdatePoseSucceeds | epic_pose_wrangler/v2/model/api.py:784-809 | on a valid, well-formed network whose nodes exist, `update_pose` succeeds exactly when the matrices can be had and some pose carries the name |
| SolverPoses.UpdatePoseWrites | epic_pose_wrangler/v2/model/api.py:791-809 | only that target's matrices change, and each blender's slot holds its driven transform's current matrix |
| SolverPoses.UpdatePoseKeeps | epic_pose_wrangler/v2/model/api.py:777-809 | with well-sized matrices the network stays valid, well formed and in lockstep; names and indices do not move |
| SolverPoses.FilledOverwrite | epic_pose_wrangler/v2/model/api.py:809 | overwriting an existing slot keeps a blender's filled slots filled |
| SolverPoses.UpdatedShape | epic_pose_wrangler/v2/model/api.py:794-802 | updating one target with well-sized matrices keeps names, validity and well-formedness |
| SolverPoses.AddPoseFromCurrent | epic_pose_wrangler/v2/model/api.py:811-839 | the drivers' and controllers' current matrices go to `update_pose` or `add_pose`; a missing driver raises NodeNotFound |
| SolverPoses.AddPoseFromCurrentRecords | epic_pose_wrangler/v2/model/api.py:811-839 | on a valid network whose nodes exist and which has drivers, a new name appends a pose holding exactly the current matrices, enabled |
| SolverPoses.ResolveIndex | epic_pose_wrangler/v2/model/api.py:1039-1042 | no index and no name raises InvalidPoseIndex; a name is looked up when no index is given, an unknown one giving -1 |
| SolverPoses.IsPoseMuted | epic_pose_wrangler/v2/model/api.py:1031-1045 | the negation of the target's enable flag; it fails exactly when the index does not resolve to a target |
| SolverPoses.MutePose | epic_pose_wrangler/v2/model/api.py:1047-1065 | the enable flag becomes `not mute`, or the current state is flipped when `mute` is absent, and is returned; it succeeds exactly when the index resolves to a target |
| SolverPoses.MuteKeeps | epic_pose_wrangler/v2/model/api.py:1047-1065 | muting changes only one enable flag, keeps every invariant, and `is_pose_muted` then reports the new state |
| SolverPoses.EnabledOnly | epic_pose_wrangler/v2/model/api.py:1064 | setting one enable flag keeps every name, index, matrix and blender |
| SolverPoses.SameNamesSameIndex | epic_pose_wrangler/v2/model/api.py:568-579 | targets with the same names in the same order give every name the same index |
| SolverPoses.ToggleTwice | epic_pose_wrangler/v2/model/api.py:1062-1065 | toggling a pose twice restores the network and reports the original state |
| SolverPoses.MuteThenUnmute | epic_pose_wrangler/v2/model/api.py:1047-1065 | muting then unmuting leaves the pose enabled and everything else as it was |
| SolverPoses.RenamePose | epic_pose_wrangler/v2/model/api.py:1732-1747 | with no poses nothing happens; an index without a target or a name in use raises RuntimeError; otherwise only that target's name changes |
| SolverPoses.RenameKeeps | epic_pose_wrangler/v2/model/api.py:1732-1747 | on a valid network a new, non-empty name succeeds exactly for an existing index, keeps every invariant and is then found at that index |
| SolverPoses.RenamedNames | epic_pose_wrangler/v2/model/api.py:1745 | giving one target an unused name keeps the names unique and finds the target under it |
| SolverPoses.EditSolver | epic_pose_wrangler/v2/model/api.py:1067-1079 | every blender's `edit` is set in turn and only the blenders change; it succeeds exactly when every blender's setter does |
| SolverPoses.EditThenStatus | epic_pose_wrangler/v2/model/api.py:1067-1100 | when the driven transforms exist, `edit_solver(edit)` succeeds, and `get_solver_edit_status` then holds exactly when `edit` is set and a blender exists |
| SolverWiring.ConnectableCons | epic_pose_wrangler/v2/model/api.py:339-347 | a node list is accepted exactly when its first node is a transform not yet connected and the rest are accepted after it |
| SolverWiring.Connect | epic_pose_wrangler/v2/model/api.py:339-353 | each node must exist, be a transform and not be connected yet, else RuntimeError; accepted nodes are connected in order after the existing ones, nodes before a refused one stay connected, and no node is connected twice |
| SolverWiring.AddDriver | epic_pose_wrangler/v2/model/api.py:326-353 | more than one pose raises RuntimeError and changes nothing; otherwise it succeeds exactly when the node list is accepted |
| SolverWiring.AddDriverAppends | epic_pose_wrangler/v2/model/api.py:339-353 | accepted drivers are appended from index `num_drivers()` with their current local matrices as rest matrices, and nothing else changes |
| SolverWiring.AddDriverStopsAtRefused | epic_pose_wrangler/v2/model/api.py:339-347 | on a refused node the earlier nodes stay connected with their rest matrices, and the refused node is not a transform or is already connected |
| SolverWiring.AddDriverStalesPose | epic_pose_wrangler/v2/model/api.py:333-334 | why drivers must come before poses: a driver added to a solver with one pose makes `pose()` of it raise InvalidPose |
| SolverWiring.AddController | epic_pose_wrangler/v2/model/api.py:462-485 | any pose raises RuntimeError and changes nothing; otherwise it succeeds exactly when the node list is accepted |
| SolverWiring.AddControllerAppends | epic_pose_wrangler/v2/model/api.py:473-485 | on a solver without poses the accepted controllers are appended, stopping at the first refused one, and the solver stays valid and well formed |
| SolverWiring.ExistingNodes | epic_pose_wrangler/v2/model/api.py:361-372 | the given names that exist in the scene, and only those |
| SolverWiring.KeptMembers | epic_pose_wrangler/v2/model/api.py:409-411 | a driver is kept exactly when it is not among the names given |
| SolverWiring.RemoveDrivers | epic_pose_wrangler/v2/model/api.py:355-427 | (no contract of its own) `remove_drivers` on a network whose drivers exist; `RemoveDriversResult` states its outcome |
| SolverWiring.RemainingIsReversedKept | epic_pose_wrangler/v2/model/api.py:381-411 | walking the drivers from the last index down collects the kept ones in reverse order |
| SolverWiring.RemoveDriversResult | epic_pose_wrangler/v2/model/api.py:355-427 | on a solver whose nodes exist, `remove_drivers` keeps exactly the drivers not named, in reverse order, with their current matrices as rest matrices; with drivers left the only pose is `default` holding the current matrices, and with none left no pose remains |
| SolverWiring.RemainingDrivers | epic_pose_wrangler/v2/model/api.py:361-411 | the drivers kept are the ones not named, reversed, and all are transforms |
| SolverWiring.KeptExisting | epic_pose_wrangler/v2/model/api.py:361-372 | for drivers that exist, filtering by the existing names given is filtering by the names given |
| SolverWiring.NewBlender | epic_pose_wrangler/v2/model/api.py:518-525 | a blender is created exactly for a transform; it drives that node, holds its current matrix in slot 0, has every solver output connected to the matching weight, and its edit state is the one asked for |
| SolverWiring.AddDrivenTransforms | epic_pose_wrangler/v2/model/api.py:490-525 | (no contract of its own) the loop of `add_driven_transforms`; `AddDrivenAppends`, `AddDrivenCovers` and `AddDrivenDistinct` state its outcome |
| SolverWiring.AddDrivenAppends | epic_pose_wrangler/v2/model/api.py:490-525 | `add_driven_transforms` only appends blenders, each set up as `NewBlender` says; the solver and its earlier blenders are unchanged |
| SolverWiring.AddDrivenDistinct | epic_pose_wrangler/v2/model/api.py:506-516 | already connected nodes are skipped, so the driven transforms stay distinct |
| SolverWiring.ConnectedAfterAppend | epic_pose_wrangler/v2/model/api.py:507-518 | appending a blender for a node connects it and keeps every earlier connection |
| SolverWiring.AddDrivenCovers | epic_pose_wrangler/v2/model/api.py:506-525 | it fails exactly when a node no blender drives is not a transform; on success every listed node drives a blender |
| SolverWiring.AddDrivenKeepsConnected | epic_pose_wrangler/v2/model/api.py:506-525 | a node connected before stays connected |
| SolverWiring.AddDrivenKeepsLockstep | epic_pose_wrangler/v2/model/api.py:518-525 | driven transforms added to a solver holding exactly one pose keep the blenders in lockstep with it |
| SolverDelete.DeleteFromBlenders | epic_pose_wrangler/v2/model/api.py:1017-1021 | each blender's `delete_pose(index)` in connection order; it succeeds exactly when every blender's does, giving each blender's new state |
| SolverDelete.DeletePose | epic_pose_wrangler/v2/model/api.py:995-996 | a name no pose carries raises InvalidPose |
| SolverDelete.RemovedRangeIsEveryTarget | epic_pose_wrangler/v2/model/api.py:1009-1011 | on a valid, well-formed network `poses()` has one entry per target, so removing `range(len(poses))` removes every target |
| SolverDelete.DeleteFromBlendersShifts | epic_pose_wrangler/v2/model/api.py:1017-1021 | on a network in lockstep every blender drops the slot and moves the later ones down |
| SolverDelete.SurvivorRecords | epic_pose_wrangler/v2/model/api.py:1001-1014 | the records added back are those of every other target, in their order |
| SolverDelete.ReAddOne | epic_pose_wrangler/v2/model/api.py:1024-1029 | re-adding a pose whose slot every blender already holds, weight connected, changes only the targets |
| SolverDelete.PartialTargets | epic_pose_wrangler/v2/model/api.py:1024-1029 | the survivors come back in order of their original indices |
| SolverDelete.PartialValid | epic_pose_wrangler/v2/model/api.py:1024-1029 | after some survivors are back the network is valid and well formed, and the next survivor's name is free |
| SolverDelete.ShiftedSlot | epic_pose_wrangler/v2/model/pose_blender.py:418-430 | after dropping slot `i`, slot `k` holds what the `k`-th survivor's slot held |
| SolverDelete.PartialSlots | epic_pose_wrangler/v2/model/api.py:1017-1029 | every shifted blender holds the next survivor's recorded matrix in its slot, weight connected |
| SolverDelete.SurvivorReady | epic_pose_wrangler/v2/model/api.py:1024-1029 | re-adding the next survivor succeeds and extends the rebuilt targets by exactly that pose |
| SolverDelete.SurvivorRefillable | epic_pose_wrangler/v2/model/api.py:1024-1029 | each survivor can be re-added once the ones before it are back |
| SolverDelete.SurvivorStep | epic_pose_wrangler/v2/model/api.py:1024-1029 | the `k`-th survivor's record is that of its original target |
| SolverDelete.ReAddFrom | epic_pose_wrangler/v2/model/api.py:1024-1029 | re-adding the remaining survivors rebuilds exactly the erased target list with shifted blenders |
| SolverDelete.ReAddFirst | epic_pose_wrangler/v2/model/api.py:1024-1029 | after the first record is re-added the loop goes on from the network it gives |
| SolverDelete.DeletePoseErases | epic_pose_wrangler/v2/model/api.py:989-1029 | on a valid, well-formed network in lockstep, `delete_pose` erases the pose's target, keeps the others in order with their matrices and flags, and every blender drops that slot, moving later ones down; nothing else changes |
| SolverDelete.DeletePoseUnknown | epic_pose_wrangler/v2/model/api.py:995-996 | on a valid network a name no pose carries raises InvalidPose |
| SolverDelete.DeletePoseKeeps | epic_pose_wrangler/v2/model/api.py:989-1029 | afterwards the network is still valid, well formed and in lockstep with distinct driven transforms, has one pose fewer, the same outputs, and the name is gone |
| SolverDelete.ErasedKeeps | epic_pose_wrangler/v2/model/api.py:1009-1029 | erasing a target and shifting every blender keeps every invariant and makes the name unknown |
| SolverDelete.ErasedValid | epic_pose_wrangler/v2/model/api.py:1009-1014 | erasing one target keeps names unique and targets well formed |
| Solver.RbfNode.constructor | epic_pose_wrangler/v2/model/api.py:62-79 | a solver with nothing connected |
| Solver.RbfNode.ForEachBlender | epic_pose_wrangler/v2/model/api.py:749-761 | the loop over the connected blenders applies the step to each in turn; on success the blenders are the mapped ones, and a failure leaves the earlier blenders changed and the failing one and later ones as they were |
| Solver.RbfNode.AddPose | epic_pose_wrangler/v2/model/api.py:706-769 | the outcome and the new fields are `SolverModel.AddPose` of the old state; a failed check changes nothing |
| Solver.RbfNode.UpdatePose | epic_pose_wrangler/v2/model/api.py:777-809 | the outcome and the new fields are `SolverPoses.UpdatePose` of the old state |
| Solver.RbfNode.AddPoseFromCurrent | epic_pose_wrangler/v2/model/api.py:811-839 | the outcome and the new fields are `SolverPoses.AddPoseFromCurrent` of the old state |
| Solver.RbfNode.DeletePose | epic_pose_wrangler/v2/model/api.py:989-1029 | the outcome and the new fields are `SolverDelete.DeletePose` of the old state |
| Solver.RbfNode.ClearTargets | epic_pose_wrangler/v2/model/api.py:1009-1011 | removing every target from the last index down leaves no target and changes nothing else |
| Solver.RbfNode.ReAddPoses | epic_pose_wrangler/v2/model/api.py:1024-1029 | the re-adding loop ends where `SolverDelete.ReAdd` does |
| Solver.RbfNode.IsPoseMuted | epic_pose_wrangler/v2/model/api.py:1031-1045 | the answer is `SolverPoses.IsPoseMuted` of the current state |
| Solver.RbfNode.MutePose | epic_pose_wrangler/v2/model/api.py:1047-1065 | the returned state and the new fields are `SolverPoses.MutePose` of the old state; a failure changes nothing |
| Solver.RbfNode.RenamePose | epic_pose_wrangler/v2/model/api.py:1732-1747 | the new fields are `SolverPoses.RenamePose` of the old state; a failure changes nothing |
| Solver.RbfNode.EditSolver | epic_pose_wrangler/v2/model/api.py:1067-1079 | the outcome and the new fields are `SolverPoses.EditSolver` of the old state |
| Solver.RbfNode.GetSolverEditStatus | epic_pose_wrangler/v2/model/api.py:1086-1100 | true exactly when some blender is in edit mode |
| Solver.RbfNode.AddDriver | epic_pose_wrangler/v2/model/api.py:326-353 | the outcome and the new fields are `SolverWiring.AddDriver` of the old state, including the drivers connected before a refused one |
| Solver.RbfNode.AddController | epic_pose_wrangler/v2/model/api.py:462-485 | the outcome and the new fields are `SolverWiring.AddController` of the old state |
| Solver.RbfNode.RemoveDrivers | epic_pose_wrangler/v2/model/api.py:355-427 | the outcome and the new fields are `SolverWiring.RemoveDrivers` of the old state |
| Solver.RbfNode.DisconnectDrivers | epic_pose_wrangler/v2/model/api.py:381-411 | the walk from the last driver down disconnects every driver, its rest matrix and every target, and returns the kept drivers in walk order |
| Solver.RbfNode.ReconnectDrivers | epic_pose_wrangler/v2/model/api.py:414-423 | the kept drivers are connected at indices 0, 1, ... with their current matrices as rest matrices; a missing one raises NodeNotFound |
| Solver.RbfNode.AddDrivenTransforms | epic_pose_wrangler/v2/model/api.py:490-525 | the outcome and the new fields are `SolverWiring.AddDrivenTransforms` of the old state |
| Solver.AddDriverResult | epic_pose_wrangler/v2/model/api.py:339-353 | what the connection loop leaves is `SolverWiring.AddDriver` of the old state |
| Solver.ConnectRefused | epic_pose_wrangler/v2/model/api.py:340-347 | a refused node ends the loop with RuntimeError |
| Solver.ConnectAccepted | epic_pose_wrangler/v2/model/api.py:349-353 | an accepted node is appended and the loop goes on with the next one |
| Solver.RemainingStep | epic_pose_wrangler/v2/model/api.py:381-411 | one step of the walk adds the driver at `index - 1` to the kept list when it stays |
| Session.Notices | epic_pose_wrangler/v2/main.py:90-93 | one context notice per extension, in loading order, each carrying the new current solver and the scene's solvers |
| Session.AddDriversTo | epic_pose_wrangler/v2/main.py:235-256 | more than one pose raises InvalidPoseIndex; otherwise `default` is deleted if present, the drivers added and `default` captured again |
| Session.AddDriversLeavesDefault | epic_pose_wrangler/v2/main.py:247-256 | starting from no pose or `default` alone, accepted drivers follow the old ones, and exactly one pose remains: `default`, holding the current matrices of all drivers and controllers |
| Session.AddDriversSteps | epic_pose_wrangler/v2/main.py:250-256 | `add_drivers` is its three steps in turn once the pose count allows it |
| Session.DriversAppended | epic_pose_wrangler/v2/main.py:254 | on a solver without poses the drivers are appended, all are transforms, and the solver stays valid |
| Session.Cleared | epic_pose_wrangler/v2/main.py:250-252 | the first part of `add_drivers` leaves the solver without poses and with its drivers and controllers |
| Session.SolverByName | epic_pose_wrangler/v2/main.py:220-231 | the first solver whose name equals the name ignoring case; `None` exactly when none does |
| Session.Without | epic_pose_wrangler/v2/main.py:163-179 | the solvers of the scene other than the deleted one, and all of them |
| Session.SelectedMembers | epic_pose_wrangler/v2/main.py:597-599 | an entry is loaded exactly when it is in the document and, if names are given, its key is one of them |
| Session.SelectedAll | epic_pose_wrangler/v2/main.py:597-599 | without names every entry is loaded, in order |
| Session.SelectedNarrows | epic_pose_wrangler/v2/main.py:597-599 | selecting with a list and then with a sub-list of it is selecting with the sub-list |
| Session.PoseWranglerApi.SetCurrentSolver | epic_pose_wrangler/v2/main.py:80-93 | anything but a solver raises InvalidSolverError and changes nothing; a solver becomes current and every extension is notified in order |
| Session.PoseWranglerApi.DeleteRbfSolver | epic_pose_wrangler/v2/main.py:163-179 | the given solver, else the current one, leaves the scene; the current solver is cleared only when it was the deleted one; with neither, AttributeError |
| Session.PoseWranglerApi.EditSolver | epic_pose_wrangler/v2/main.py:181-198 | the given solver, else the current one, becomes `SolverPoses.EditSolver` of its state and then the current solver, every extension being notified; with neither, AttributeError |
| Session.PoseWranglerApi.CreatePose | epic_pose_wrangler/v2/main.py:416-430 | the solver gains a pose from the current position as `SolverPoses.AddPoseFromCurrent` says and becomes current |
| Session.PoseWranglerApi.AddDrivers | epic_pose_wrangler/v2/main.py:235-258 | the solver becomes `AddDriversTo` of its state and then current; a failure is passed on |
| Session.PoseWranglerApi.LoadView | epic_pose_wrangler/v2/main.py:747-772 | without a window nothing happens; with one every solver is listed in order, exactly the first solver that was editing is listed as editing, and each solver editing after an earlier editor has left edit mode while every other solver is unchanged; each is listed under its own name, which leaving edit mode keeps |
| Session.PoseWranglerApi.Visit | epic_pose_wrangler/v2/main.py:760-768 | the solver's edit status is read; when an earlier solver is editing and so is this one, it leaves edit mode as `SolverPoses.EditSolver` says, becomes current and every extension is told; otherwise nothing changes |
| Session.ViewSettled | epic_pose_wrangler/v2/main.py:758-772 | after the loop every solver is listed under its name and has settled |
| Session.PoseWranglerApi.ListSolver | epic_pose_wrangler/v2/main.py:758-772 | one pass of the loop: the solver is listed as editing exactly when it was and no solver before it was, and it leaves edit mode, becomes current and the extensions are told exactly when an earlier one was editing |
| Session.Chosen | epic_pose_wrangler/v2/main.py:611 | the solvers given, or every solver of the scene when none are given |
| Session.Records | epic_pose_wrangler/v2/main.py:611 | each solver paired with `str(solver)` and its `data()` |
| Session.SerializeFails | epic_pose_wrangler/v2/main.py:602-611 | `serialize` fails exactly when the `data()` of some solver covered raises |
| Session.SerializeValid | epic_pose_wrangler/v2/main.py:602-611 | valid solvers with distinct names give one entry each, in order, keyed by the solver's name and holding its `data()` record |
| Session.SerializeMade | epic_pose_wrangler/v2/main.py:611 | solvers with distinct names whose `data()` succeeds give one entry each, in order |
| Session.Statuses | epic_pose_wrangler/v2/main.py:760 | each solver's edit status |
| Session.ListingStep | epic_pose_wrangler/v2/main.py:760-772 | one more listed solver keeps the listing of the first editor |
| Session.ListingHasOneEditor | epic_pose_wrangler/v2/main.py:755-772 | a listing names at most one solver as editing |
| Session.ListingIsFirstEditing | epic_pose_wrangler/v2/main.py:755-772 | a solver is listed as editing exactly when it is editing and no solver before it is |
| Session.FirstEditor | epic_pose_wrangler/v2/main.py:755-770 | the index of the first solver in edit mode: every solver before it is not editing, and it is, unless no solver is |
| Session.LoadedStep | epic_pose_wrangler/v2/main.py:760-772 | one more solver listed and settled keeps the loop's invariant |
| SolverData.DrivenTransforms | epic_pose_wrangler/v2/model/api.py:280-286 | one driven transform per blender, in connection order |
| SolverData.Data | epic_pose_wrangler/v2/model/api.py:210-231 | `data()` succeeds exactly when `poses()` does |
| SolverData.Targets | epic_pose_wrangler/v2/model/api.py:113-125 | one target per pose record, in order |
| SolverData.DataOfValid | epic_pose_wrangler/v2/model/api.py:210-231 | on a valid solver the record holds its name, drivers, controllers, driven transforms and every pose under a distinct name, in index order, with matrices and enable flag |
| SolverData.DataShape | epic_pose_wrangler/v2/model/api.py:210-219 | the parts of the record the load reads back agree with the solver |
| SolverData.Unseen | epic_pose_wrangler/v2/model/api.py:98-106 | only listed nodes the solver does not have yet are added |
| SolverData.Present | epic_pose_wrangler/v2/model/api.py:108-110 | the driven transforms before the first missing one, and only they |
| SolverData.Load | epic_pose_wrangler/v2/model/api.py:82-125 | the existing solver of the record's name is reused, otherwise a new one is made; its new state and the outcome are `CreateFromData` of the state before |
| SolverData.CreateFromData | epic_pose_wrangler/v2/model/api.py:97-125 | (no contract of its own) the four loops of `create_from_data` in turn, each stopping at its first error; `RebuiltFromData`, `ReloadOntoSelf` and `CreateChain` state its outcome |
| SolverData.LoadDrivers | epic_pose_wrangler/v2/model/api.py:97-100 | the drivers loop leaves the solver as `AddMissingDrivers` says |
| SolverData.LoadControllers | epic_pose_wrangler/v2/model/api.py:103-106 | the controllers loop leaves the solver as `AddMissingControllers` says |
| SolverData.LoadDriven | epic_pose_wrangler/v2/model/api.py:108-110 | the driven step leaves the solver as `AddDriven` says |
| SolverData.LoadPoses | epic_pose_wrangler/v2/model/api.py:113-125 | the poses loop leaves the solver as `AddPoses` says |
| SolverData.UnseenMembers | epic_pose_wrangler/v2/model/api.py:98-106 | a node is added exactly when it is listed and not there yet, and no node twice |
| SolverData.UnseenOfFresh | epic_pose_wrangler/v2/model/api.py:98-106 | distinct nodes none of which is there yet are all added, in their order |
| SolverData.AddMissingDriversAppends | epic_pose_wrangler/v2/model/api.py:97-100 | while the solver holds at most one pose, the drivers loop appends the drivers it lacks, once each and in order, with their current matrices as rest matrices |
| SolverData.AddMissingControllersAppends | epic_pose_wrangler/v2/model/api.py:103-106 | on a solver without poses the controllers loop appends the controllers it lacks, once each and in order |
| SolverData.AddDrivenFresh | epic_pose_wrangler/v2/model/api.py:108-110 | distinct transforms that drive no blender yet each get a new blender, appended in order, and nothing else changes |
| SolverData.AddPosesAppends | epic_pose_wrangler/v2/model/api.py:113-125 | records that fit add one target each, in order, with their names, matrices and enable flags; drivers, controllers and the blenders' driven transforms do not change |
| SolverData.AddFirstPose | epic_pose_wrangler/v2/model/api.py:113-125 | the first record is added and the remaining records still fit the grown solver |
| SolverData.FitsTail | epic_pose_wrangler/v2/model/api.py:113-125 | once a record is added the others still fit, because their names differ from it |
| SolverData.AddedKeepsDriven | epic_pose_wrangler/v2/model/api.py:732-769 | `add_pose` changes no blender's driven transform and keeps the scene references valid |
| SolverData.RebuiltFromData | epic_pose_wrangler/v2/model/api.py:82-125 | loading `data()` into a new solver gives the same name, drivers, controllers, poses and driven transforms; the rest matrices are read again from the scene |
| SolverData.Rebuilt | epic_pose_wrangler/v2/model/api.py:82-125 | the load of a record that agrees with a solver ends in a solver that agrees with it |
| SolverData.RebuiltWiring | epic_pose_wrangler/v2/model/api.py:97-106 | on a new solver the drivers and controllers loops connect the recorded ones, in order |
| SolverData.CreateChain | epic_pose_wrangler/v2/model/api.py:97-125 | once the wiring steps succeed the load is the poses loop on their result |
| SolverData.RebuiltDriven | epic_pose_wrangler/v2/model/api.py:108-110 | on a solver without blenders the driven step gives one blender per recorded driven transform, in order |
| SolverData.DrivenNames | epic_pose_wrangler/v2/model/api.py:280-286 | the driven transforms of distinct blenders on scene transforms are all present and distinct |
| SolverData.RebuiltFits | epic_pose_wrangler/v2/model/api.py:113-125 | the records `data()` gives fit a solver with the same drivers and controllers and no poses |
| SolverData.ReloadOntoSelf | epic_pose_wrangler/v2/model/api.py:91-125 | loading `data()` back onto the solver it came from skips every driver, controller and driven transform and then fails with InvalidPose on the first pose |
| SolverData.TakenRefused | epic_pose_wrangler/v2/model/api.py:714-729 | the poses loop stops at once with InvalidPose when the first record's pose exists |
| SolverData.PresentDriversSkipped | epic_pose_wrangler/v2/model/api.py:98-99 | drivers the solver already has are skipped |
| SolverData.PresentControllersSkipped | epic_pose_wrangler/v2/model/api.py:104-105 | controllers the solver already has are skipped |
| SolverData.ReloadDriven | epic_pose_wrangler/v2/model/api.py:108-110 | the driven step on the solver's own driven transforms changes nothing |
| SolverData.ConnectedSkipped | epic_pose_wrangler/v2/model/api.py:490-525 | transforms that all drive a blender already are skipped |
| CopyPaste.Attributes | epic_pose_wrangler/v2/extensions/copy_paste_trs.py:171-172 | no attributes given means translate, rotate and scale; any given list is used as it is |
| CopyPaste.DrivenNames | epic_pose_wrangler/v2/extensions/copy_paste_trs.py:133-136 | one name per blender, the driven transform as Python formats it |
| CopyPaste.ReadRecord | epic_pose_wrangler/v2/extensions/copy_paste_trs.py:177-183 | (no contract of its own) the record comprehension; `ReadRecordOk` and `ReadRecordFacts` state its outcome |
| CopyPaste.ReadRecordOk | epic_pose_wrangler/v2/extensions/copy_paste_trs.py:177-183 | reading a transform's record succeeds exactly when every plug exists |
| CopyPaste.ReadRecordFacts | epic_pose_wrangler/v2/extensions/copy_paste_trs.py:177-183 | a record read holds each attribute's current value under a distinct key, and nothing else |
| CopyPaste.CopyFrom | epic_pose_wrangler/v2/extensions/copy_paste_trs.py:174-183 | (no contract of its own) the copy loop; `CopyFacts` and `CopySnapshot` state its outcome |
| CopyPaste.PutRecordOf | epic_pose_wrangler/v2/extensions/copy_paste_trs.py:177-183 | storing a plug's current value keeps the record faithful to the scene |
| CopyPaste.CopyFacts | epic_pose_wrangler/v2/extensions/copy_paste_trs.py:174-183 | the copy succeeds exactly when every plug exists; the store then holds one record per transform and no other, each holding the current values of exactly the attributes asked for |
| CopyPaste.PutStoreFacts | epic_pose_wrangler/v2/extensions/copy_paste_trs.py:177 | storing a faithful record keeps every record faithful and keyed by the attributes |
| CopyPaste.CopySnapshot | epic_pose_wrangler/v2/extensions/copy_paste_trs.py:163-183 | after a copy with scale among the attributes the store is a snapshot of the scene over exactly the listed transforms |
| CopyPaste.ScaleBy | epic_pose_wrangler/v2/extensions/copy_paste_trs.py:213 | multiplier 1 gives the copied scale back; multiplier 0 gives unit scale |
| CopyPaste.SetPlug | epic_pose_wrangler/v2/extensions/copy_paste_trs.py:203-217 | an existing plug takes the value; writing a missing plug changes nothing |
| CopyPaste.Paste | epic_pose_wrangler/v2/extensions/copy_paste_trs.py:194-217 | an empty store raises TRSError and writes nothing; otherwise the store is pasted in order, with the values for any multiplier as `PasteFromValues` and `CopyPasteScaled` state them |
| CopyPaste.PasteAttrsUnit | epic_pose_wrangler/v2/extensions/copy_paste_trs.py:201-210 | pasting a faithful record with multiplier 1 changes nothing |
| CopyPaste.PasteUnitRestores | epic_pose_wrangler/v2/extensions/copy_paste_trs.py:188-217 | pasting a snapshot with multiplier 1 succeeds and leaves every attribute as copied |
| CopyPaste.PasteEntryScale | epic_pose_wrangler/v2/extensions/copy_paste_trs.py:212-217 | after one transform's paste its scale, if it exists, is the scale formula of the copied scale |
| CopyPaste.PasteAttrsKeys | epic_pose_wrangler/v2/extensions/copy_paste_trs.py:201-210 | pasting creates no plug |
| CopyPaste.PasteFromStep | epic_pose_wrangler/v2/extensions/copy_paste_trs.py:199-217 | the paste of a store is its first transform's paste followed by the rest |
| CopyPaste.PasteFrom | epic_pose_wrangler/v2/extensions/copy_paste_trs.py:199-217 | (no contract of its own) the outer paste loop; `PasteFromValues` states its outcome for any multiplier |
| CopyPaste.PasteAttrsValues | epic_pose_wrangler/v2/extensions/copy_paste_trs.py:201-210 | the inner loop sets each existing plug of the record to its value times the multiplier, and no other plug |
| CopyPaste.PasteEntryValues | epic_pose_wrangler/v2/extensions/copy_paste_trs.py:199-217 | one transform's paste succeeds, writes every attribute but scale as its value times `m` and scale as `((s - 1) * m) + 1`, and leaves every other plug alone |
| CopyPaste.PasteFromValues | epic_pose_wrangler/v2/extensions/copy_paste_trs.py:194-217 | with any multiplier, over a store with one record per transform each holding scale: the paste succeeds, every existing plug of every stored attribute ends as scaled, and no other plug changes |
| CopyPaste.CopyPasteScaled | epic_pose_wrangler/v2/extensions/copy_paste_trs.py:163-217 | `_copy` then `_paste` with any multiplier writes, wherever the plug still exists, every copied attribute but scale as its value at copy time times `m`, and scale by the scale formula |
| CopyPaste.PasteCopied | epic_pose_wrangler/v2/extensions/copy_paste_trs.py:188-217 | the same for any store with the properties `CopyFacts` gives a copy |
| CopyPaste.CopiedEntry | epic_pose_wrangler/v2/extensions/copy_paste_trs.py:201-217 | one copied record, pasted, holds the values at copy time scaled |
| CopyPaste.CopyPasteTrs.constructor | epic_pose_wrangler/v2/extensions/copy_paste_trs.py:124-125 | both stores start empty |
| CopyPaste.CopyPasteTrs.CopyDriven | epic_pose_wrangler/v2/extensions/copy_paste_trs.py:128-136 | the driven store is cleared and refilled by `CopyFrom` over the solver's driven transforms with translate, rotate and scale; the driver store is untouched |
| CopyPaste.CopyPasteTrs.CopyDriver | epic_pose_wrangler/v2/extensions/copy_paste_trs.py:147-152 | the driver store is cleared and refilled by `CopyFrom` over the solver's drivers with rotate and scale; the driven store is untouched |
| CopyPaste.CopyPasteTrs.CopyInto | epic_pose_wrangler/v2/extensions/copy_paste_trs.py:163-185 | the chosen store becomes `CopyFrom` of an empty store; the other is untouched |
| CopyPaste.CopyPasteTrs.PasteDriven | epic_pose_wrangler/v2/extensions/copy_paste_trs.py:139-144 | the scene after is `Paste` of the driven store |
| CopyPaste.CopyPasteTrs.PasteDriver | epic_pose_wrangler/v2/extensions/copy_paste_trs.py:155-160 | the scene after is `Paste` of the driver store |
| CopyPaste.CopyPasteTrs.PasteStore | epic_pose_wrangler/v2/extensions/copy_paste_trs.py:188-217 | the two loops compute `Paste` of the store |
| CopyPaste.CopyPasteTrs.PasteRecord | epic_pose_wrangler/v2/extensions/copy_paste_trs.py:201-210 | the inner loop computes `PasteAttrs` |
| CopyPaste.CopyDrivenTrs | epic_pose_wrangler/v2/extensions/copy_paste_trs.py:69-76 | the given solver, else the current one, is copied into the driven store; with neither, AttributeError and no copy |
| CopyPaste.CopyDriverTrs | epic_pose_wrangler/v2/extensions/copy_paste_trs.py:94-103 | the given solver, else the current one, is copied into the driver store; with neither, AttributeError and no copy |
| CopyPaste.PasteDrivenTrs | epic_pose_wrangler/v2/extensions/copy_paste_trs.py:78-92 | a solver not in edit mode is put into edit mode and becomes current first, and a failure there stops the paste; then the driven store is pasted; with no solver, AttributeError |
| CopyPaste.PasteDriverTrs | epic_pose_wrangler/v2/extensions/copy_paste_trs.py:105-112 | the scene after is `Paste` of the driver store |
| Inbetweens.MultiplierClosedForm | epic_pose_wrangler/v2/extensions/generate_inbetweens.py:59-65 | the `i`-th pass pastes at `(count - i) / (count + 1)` |
| Inbetweens.MultiplierRange | epic_pose_wrangler/v2/extensions/generate_inbetweens.py:59-65 | every in-between lies strictly between the copied position and rest, each one increment nearer rest than the one before, the last one increment from rest |
| Inbetweens.Multiplier | epic_pose_wrangler/v2/extensions/generate_inbetweens.py:59-65 | (no contract of its own) the `i`-th pass's multiplier; `MultiplierClosedForm` and `MultiplierRange` state its value |
| Inbetweens.NextMultiplier | epic_pose_wrangler/v2/extensions/generate_inbetweens.py:61-65 | lowering the running multiplier by one increment gives the next pass's multiplier |
| Inbetweens.PoseNameInjective | epic_pose_wrangler/v2/extensions/generate_inbetweens.py:71 | different passes name their poses differently |
| Inbetweens.InbetweenNames | epic_pose_wrangler/v2/extensions/generate_inbetweens.py:63-71 | one name per remaining pass, named after its number |
| Inbetweens.InbetweenNamesDistinct | epic_pose_wrangler/v2/extensions/generate_inbetweens.py:63-71 | the in-betweens' names are distinct |
| Inbetweens.Edited | epic_pose_wrangler/v2/extensions/copy_paste_trs.py:89-91 | a solver already editing is unchanged; otherwise it is `SolverPoses.EditSolver` with edit on |
| Inbetweens.Inbetween | epic_pose_wrangler/v2/extensions/generate_inbetweens.py:63-71 | (no contract of its own) one pass of the loop; `InbetweenAppends` and `InbetweenStep` state its outcome |
| Inbetweens.Run | epic_pose_wrangler/v2/extensions/generate_inbetweens.py:63-71 | (no contract of its own) the loop over the passes; `RunAddsPoses`, `RunStep`, `RunStop` and `RunIsRunAt` state its outcome |
| Inbetweens.RunIsRunAt | epic_pose_wrangler/v2/extensions/generate_inbetweens.py:59-71 | lowering the multiplier by the increment once per pass, starting from 1, gives each pass its closed-form multiplier |
| Inbetweens.AddPoseFromCurrentAppends | epic_pose_wrangler/v2/model/api.py:811-839 | a pose added from the current position is appended under its name, and drivers and controllers do not change |
| Inbetweens.InbetweenAppends | epic_pose_wrangler/v2/extensions/generate_inbetweens.py:65-71 | a pass that completes appends one pose named after its number and keeps drivers and controllers |
| Inbetweens.InbetweensAppend | epic_pose_wrangler/v2/extensions/generate_inbetweens.py:65-71 | every pass of the loop appends as `InbetweenAppends` says |
| Inbetweens.RunAddsPoses | epic_pose_wrangler/v2/extensions/generate_inbetweens.py:63-71 | a run that completes appends exactly the in-betweens' poses, in order, after the existing ones, and keeps drivers and controllers |
| Inbetweens.RunStep | epic_pose_wrangler/v2/extensions/generate_inbetweens.py:63-71 | a completed pass continues with the next one at the lowered multiplier |
| Inbetweens.RunStop | epic_pose_wrangler/v2/extensions/generate_inbetweens.py:63-71 | a failing pass ends the run with its error |
| Inbetweens.InbetweenStep | epic_pose_wrangler/v2/extensions/generate_inbetweens.py:65-71 | one pass on the API objects: the outcome is `Inbetween` of the solver's state, and on success the new state and scene too |
| Inbetweens.GenerateInbetweens | epic_pose_wrangler/v2/extensions/generate_inbetweens.py:43-71 | without the copy/paste extension or without a current solver, AttributeError; a failed copy is passed on; `count + 1 == 0` raises ZeroDivisionError; otherwise both stores are the copies and the run is `Run` from multiplier 1 |
| Inbetweens.PasteInbetweens | epic_pose_wrangler/v2/extensions/generate_inbetweens.py:58-71 | the loop computes `Run` from multiplier 1, with the solver staying current |
| Legacy.MirrorKeepsLength | epic_pose_wrangler/v1/poseWrangler.py:819-826 | a mirrored name has the length of its source, since both side tokens are three characters long |
| Legacy.MirrorNeutral | epic_pose_wrangler/v1/poseWrangler.py:819-826 | a name with neither side token is mirrored from left to right and stays as it is |
| Legacy.MirrorLeftRoundTrip | epic_pose_wrangler/v1/poseWrangler.py:819-826 | a left-side name mirrors to a right-side name, and mirroring that gives the left-side name back |
| Legacy.LeftSolvers | epic_pose_wrangler/v1/poseWrangler.py:806-812 | the solvers mirrored are exactly those whose names hold `_l_` |
| Legacy.PoseTableKeys | epic_pose_wrangler/v1/poseWrangler.py:651-660 | the pose dictionary has one key per name that a `stored_pose_*` attribute yields, each once, and no other key |
| Legacy.PoseTableKeysLinks | epic_pose_wrangler/v1/poseWrangler.py:654-659 | which poses are listed does not depend on what their attributes connect to |
| Legacy.StoredNameOfPrefixed | epic_pose_wrangler/v1/poseWrangler.py:657 | `stored_pose_<p>` is listed as `p` when `p` does not itself hold the prefix |
| Legacy.DriverSecond | epic_pose_wrangler/v1/poseWrangler.py:272-277 | the connection order of one pose's matrix nodes: the first driven node, the driver's node, then the other driven nodes; one entry more than the driven nodes, and exactly those nodes |
| Legacy.PoseNodes | epic_pose_wrangler/v1/poseWrangler.py:237-277 | (no contract of its own) the nodes `<pose>_<driven>_mx_pose` and `<driving>_<pose>_pose` in `DriverSecond` order |
| Legacy.CreatedRig | epic_pose_wrangler/v1/poseWrangler.py:149-213 | (no contract of its own) the solver `<name>_UE4RBFSolver`, with `stored_pose_base_pose` connected to the `_base_pose` nodes in `DriverSecond` order when there are driven transforms |
| Legacy.WithPose | epic_pose_wrangler/v1/poseWrangler.py:222-282 | (no contract of its own) `add_pose` of a named pose on a solver with driven transforms connects `PoseNodes` after whatever `stored_pose_<name>` held; `AddPoseListed` and `WithPoseGrows` state its effect |
| Legacy.AddPoseListed | epic_pose_wrangler/v1/poseWrangler.py:222-277 | after `add_pose` the pose is listed: a new one last, after the poses listed before; the solver and its driven transforms are unchanged |
| Legacy.WithPoseGrows | epic_pose_wrangler/v1/poseWrangler.py:222-282 | whatever the name, `add_pose` keeps the solver's transforms and the poses listed before, in order, and lists at most one more |
| Legacy.PlugIndexAsWrittenReads | epic_pose_wrangler/v1/poseWrangler.py:310 | as written, the index read is the number in the plug's last brackets |
| Legacy.PlugIndexReads | epic_pose_wrangler/v1/poseWrangler.py:310 | the corrected parse reads the number in the plug's first brackets |
| Legacy.SolverRemovals | epic_pose_wrangler/v1/poseWrangler.py:319-322 | for a plug that is not a blender's, the solver's output and target at the index are removed |
| Legacy.BlenderRemovals | epic_pose_wrangler/v1/poseWrangler.py:312-322 | for a blender's `poses[...]` plug, that plug, the blender's weight at the index, and the solver's output and target at the index are removed |
| Legacy.DriverPlugAsWritten | epic_pose_wrangler/v1/poseWrangler.py:310-322 | as written, the driver matrix node of any pose `n` removes the output and target at index 0, the base pose's |
| Legacy.DriverPlugRemovals | epic_pose_wrangler/v1/poseWrangler.py:310-322 | with the index read from the first brackets, the driver matrix node of pose `n` removes pose `n`'s output and target |
| Legacy.BlenderPlugRemovals | epic_pose_wrangler/v1/poseWrangler.py:310-322 | a blender's `poses[i]` plug removes that plug, the blender's weight `i` and the solver's output and target `i`, whichever way the index is read |
| Legacy.Under | epic_pose_wrangler/v1/poseWrangler.py:313-322 | (no contract of its own) `removeMultiInstance(inst, b=1)` breaks the plugs into `inst` and its children |
| Legacy.Live | epic_pose_wrangler/v1/poseWrangler.py:307 | (no contract of its own) what `listConnections` still returns once the removals so far are done; `LiveExactly` states it |
| Legacy.LiveExactly | epic_pose_wrangler/v1/poseWrangler.py:307-322 | a connection is still listed exactly when it was there and no removal broke it |
| Legacy.BrokenUnder | epic_pose_wrangler/v1/poseWrangler.py:313-322 | a connection is broken exactly when it is under one of the removals done |
| Legacy.LiveBefore | epic_pose_wrangler/v1/poseWrangler.py:307 | before any removal every connection is listed |
| Legacy.DeleteNodes | epic_pose_wrangler/v1/poseWrangler.py:302-329 | (no contract of its own) the delete loop, with the index read as the reader says and each node's connections as left by the removals before it |
| Legacy.DeleteNodesReadable | epic_pose_wrangler/v1/poseWrangler.py:302-329 | the delete loop runs to its end when every outgoing plug of every node has an index the reader can read |
| Legacy.DeleteNodesDeletes | epic_pose_wrangler/v1/poseWrangler.py:302-329 | run to its end the loop deletes every node of the pose; stopped, it has deleted exactly the nodes before the first it cannot get past, given the removals it already did |
| Legacy.ReadersAgree | epic_pose_wrangler/v1/poseWrangler.py:310 | the two ways of reading the index give the same loop over nodes each of whose plugs they read alike |
| Legacy.DeleteInStep | epic_pose_wrangler/v1/poseWrangler.py:302-329 | when the first driven node's blender entry is the pose's own index `n`, its removal of `targets[n]` breaks the driver node's connection first, and the loop as written deletes exactly as the corrected one |
| Legacy.DriverSurvives | epic_pose_wrangler/v1/poseWrangler.py:313-322 | the four removals of a blender entry at an index other than `n` leave the driver node's plug `targets[n].targetValues[0]` connected |
| Legacy.DeleteDriverAfterFirst | epic_pose_wrangler/v1/poseWrangler.py:302-322 | out of step, the loop first removes the first driven node's four elements and then what the driver node's plug reads |
| Legacy.DeleteMisreadsDriver | epic_pose_wrangler/v1/poseWrangler.py:310-322 | as written and out of step, the driver node of pose `n` removes output and target 0, the base pose's, as the fifth and sixth removals |
| Legacy.DeleteReadsDriver | epic_pose_wrangler/v1/poseWrangler.py:310-322 | with the index read from the first brackets the driver node of pose `n` removes pose `n`'s own output and target instead |
| Legacy.Without | epic_pose_wrangler/v1/poseWrangler.py:329 | the connections left are exactly those to nodes that were not deleted |
| Legacy.Deleted | epic_pose_wrangler/v1/poseWrangler.py:298-330 | (no contract of its own) `delete_pose`: the loop's removals and deletions, the deleted nodes' connections dropped, and `stored_pose_<name>` deleted only when the loop ran to its end |
| Legacy.DeleteUnlists | epic_pose_wrangler/v1/poseWrangler.py:298-330 | with either reading of the index: a pose stored under its own attribute whose loop runs to its end has every node deleted and is no longer listed after `delete_pose`, and every other pose keeps its listing |
| Legacy.MirrorRun | epic_pose_wrangler/v1/poseWrangler.py:855-879 | (no contract of its own) the loop of `mirror_pose_driver` over the source poses against the target's changing state |
| Legacy.MirrorRunNames | epic_pose_wrangler/v1/poseWrangler.py:855-879 | exactly one action per selected pose, about its mirrored name, in order |
| Legacy.MirrorRunAdds | epic_pose_wrangler/v1/poseWrangler.py:855-879 | onto a target that has none of the mirrored names, each selected pose is added, and the target lists its old poses followed by the mirrored ones |
| Legacy.MirrorRunUpdates | epic_pose_wrangler/v1/poseWrangler.py:869-879 | onto a target that has every mirrored name, each selected pose is updated and nothing is added |
| Legacy.MirrorTwiceUpdates | epic_pose_wrangler/v1/poseWrangler.py:818-879 | mirroring again onto the result of a first run only updates, and the listing stays the same |
| Legacy.DeleteNodesLoop | epic_pose_wrangler/v1/poseWrangler.py:302-329 | the loop, with each node's connections listed after the removals before it, computes `DeleteNodes` for the reader given |
| Legacy.PoseDriver.Existing | epic_pose_wrangler/v1/poseWrangler.py:20-35 | the wrapper's view of an existing solver is the rig given |
| Legacy.PoseDriver.Create | epic_pose_wrangler/v1/poseWrangler.py:149-213 | the new solver is `CreatedRig`: named `<name>_UE4RBFSolver`, with the base pose stored when there is a driven transform |
| Legacy.PoseDriver.PoseDict | epic_pose_wrangler/v1/poseWrangler.py:651-660 | the dictionary read is `PoseTable` of the solver's attributes |
| Legacy.PoseDriver.AddPose | epic_pose_wrangler/v1/poseWrangler.py:222-282 | the solver afterwards is `WithPose` of the one before |
| Legacy.PoseDriver.DeletePose | epic_pose_wrangler/v1/poseWrangler.py:298-334 | the removals, the deletions and the solver afterwards are `Deleted` of the solver before, with the index read as written |
| Legacy.PoseDriver.MirrorPose | epic_pose_wrangler/v1/poseWrangler.py:855-881 | one pass of the mirror loop: a missing pose is added, an existing one updated, as `MirrorStep` says |
| Legacy.PoseDriver.MirrorPoses | epic_pose_wrangler/v1/poseWrangler.py:855-881 | the loop over the source poses computes `MirrorRun` on this target |
| Legacy.PoseDriver.MirrorPoseDriver | epic_pose_wrangler/v1/poseWrangler.py:818-881 | the target is the existing mirrored solver, or a new one on the mirrored names; what is done to it is `MirrorRun` over the source's poses with the source's side tokens |
| LegacyImport.Honoured | epic_pose_wrangler/v1/poseWrangler.py:748-750 | an empty filter lets every driver through; otherwise only the drivers it names |
| LegacyImport.Overwrite | epic_pose_wrangler/v1/poseWrangler.py:787-800 | a node of the driving transform gets that transform's translation in elements 12 to 14 and nothing else changes; a missing transform raises ValueError and a short list IndexError; any other node's matrix is kept as it is |
| LegacyImport.OverwriteTwice | epic_pose_wrangler/v1/poseWrangler.py:787-792 | overwriting an overwritten matrix again changes nothing |
| LegacyImport.MatrixWrites | epic_pose_wrangler/v1/poseWrangler.py:787-801 | (no contract of its own) one matrix loop; `MatrixWritesPrefix` states it |
| LegacyImport.MatrixWritesPrefix | epic_pose_wrangler/v1/poseWrangler.py:787-793 | one write per matrix, in order, up to the first that raises; the loop succeeds exactly when it writes them all, and otherwise fails with that matrix's error |
| LegacyImport.MatrixWritesVerbatim | epic_pose_wrangler/v1/poseWrangler.py:787-793 | a map holding no node of the driving transform is written exactly as the file has it |
| LegacyImport.PoseWritesAsWritten | epic_pose_wrangler/v1/poseWrangler.py:785-801 | (no contract of its own) a pose's two matrix loops as written, the world loop going over the local map; the import uses it |
| LegacyImport.PoseWrites | epic_pose_wrangler/v1/poseWrangler.py:785-801 | (no contract of its own) the two loops with the world loop over the file's world map, as evidently intended |
| LegacyImport.AsWrittenWorldFromLocal | epic_pose_wrangler/v1/poseWrangler.py:785-801 | as written, every world matrix written is the overwritten local matrix of the same entry, so the file's world matrices are never read |
| LegacyImport.PoseWritesWorld | epic_pose_wrangler/v1/poseWrangler.py:795-801 | with the world map read, the world writes follow the file's world map entry by entry, in order, after the local ones |
| LegacyImport.ImportPose | epic_pose_wrangler/v1/poseWrangler.py:777-801 | (no contract of its own) one pose: `base_pose` skipped, a missing pose added under its name without `_pose`, then `PoseWritesAsWritten` |
| LegacyImport.ImportPoses | epic_pose_wrangler/v1/poseWrangler.py:777-801 | (no contract of its own) the pose loop in file order, until a pose raises |
| LegacyImport.ImportPosesKeeps | epic_pose_wrangler/v1/poseWrangler.py:777-801 | importing poses, with the matrix loops as written, keeps the solver's transforms and every pose it listed, in order |
| LegacyImport.ImportPosesListed | epic_pose_wrangler/v1/poseWrangler.py:777-783 | when the import goes through, the solver lists every pose of the file except `base_pose`, given driven transforms and plain names |
| LegacyImport.ImportRenames | epic_pose_wrangler/v1/poseWrangler.py:782-783 | a missing pose whose name holds `_pose` is added under the shortened name, so it is still missing afterwards and a second import adds it again |
| LegacyImport.ImportRenamesClash | epic_pose_wrangler/v1/poseWrangler.py:657 | stripping the prefix from `stored_pose_<short>` never gives back the longer name |
| LegacyImport.SettingWrites | epic_pose_wrangler/v1/poseWrangler.py:774-775 | one `setAttr` on the solver per setting, in file order |
| LegacyImport.ImportDriver | epic_pose_wrangler/v1/poseWrangler.py:763-803 | (no contract of its own) one driver: the existing solver or a new one, driving off, settings, poses, driving on |
| LegacyImport.ImportDriverKeepsExisting | epic_pose_wrangler/v1/poseWrangler.py:763-803 | an existing solver keeps its transforms and the poses it listed, and no other solver changes |
| LegacyImport.Import | epic_pose_wrangler/v1/poseWrangler.py:740-803 | (no contract of its own) the loop over the file's drivers, in order, until one raises; `ImportFiltered` and `ImportLogGrows` state it |
| LegacyImport.FilterDrivers | epic_pose_wrangler/v1/poseWrangler.py:746-750 | the drivers let through are exactly those of the file the filter honours |
| LegacyImport.ImportFiltered | epic_pose_wrangler/v1/poseWrangler.py:740-803 | importing with a filter is importing, without one, the drivers the filter lets through |
| LegacyImport.ImportLogGrows | epic_pose_wrangler/v1/poseWrangler.py:740-803 | the writes only grow: what a failed import already wrote stays written |
| Upgrade.NotAfterTotal | epic_pose_wrangler/v1/upgrade.py:42 | any two names are ordered one way or the other |
| Upgrade.NotAfterAntisymmetric | epic_pose_wrangler/v1/upgrade.py:42 | names ordered both ways are equal |
| Upgrade.NotAfterTransitive | epic_pose_wrangler/v1/upgrade.py:42 | the order on names is transitive |
| Upgrade.InsertPerm | epic_pose_wrangler/v1/upgrade.py:42 | inserting keeps every name and adds the new one |
| Upgrade.InsertSorted | epic_pose_wrangler/v1/upgrade.py:42 | inserting into a sorted list keeps it sorted |
| Upgrade.SortCorrect | epic_pose_wrangler/v1/upgrade.py:42 | `sorted` gives a sorted rearrangement of the pose names |
| Upgrade.KeysOf | epic_pose_wrangler/v1/upgrade.py:57 | one key per name, in order |
| Upgrade.PutEachOthers | epic_pose_wrangler/v1/upgrade.py:26-31 | a key no name has keeps what it held |
| Upgrade.PutEachKeys | epic_pose_wrangler/v1/upgrade.py:43-57 | from nothing, names that all have values and distinct keys give one entry each, in their order |
| Upgrade.PutEachLookup | epic_pose_wrangler/v1/upgrade.py:26-31 | with distinct keys, every name that has a value finds it under its key |
| Upgrade.ReadEachOk | epic_pose_wrangler/v1/upgrade.py:35-39 | the explicit reads go through exactly when every attribute can be read |
| Upgrade.ReadEachOthers | epic_pose_wrangler/v1/upgrade.py:35-39 | a key that is not read keeps what it held |
| Upgrade.ReadEachValues | epic_pose_wrangler/v1/upgrade.py:35-39 | after reading distinct attributes each holds the value read, whatever a keyable copy stored before |
| Upgrade.DrivenMatricesKeys | epic_pose_wrangler/v1/upgrade.py:48-49 | one driven matrix per distinct driven transform, in order, each that transform's own |
| Upgrade.PoseKeyInjective | epic_pose_wrangler/v1/upgrade.py:55-56 | distinct names keep distinct keys unless `default` and `base_pose` both occur |
| Upgrade.PoseRecordsKeys | epic_pose_wrangler/v1/upgrade.py:43-57 | for such names the poses are stored one per name, in the given order, each under its new name with its own record |
| Upgrade.Entries | epic_pose_wrangler/v1/upgrade.py:17-58 | each solver paired with its new name and its record |
| Upgrade.RecordOf | epic_pose_wrangler/v1/upgrade.py:19-57 | (no contract of its own) one solver's record; `RecordTransforms`, `RecordSettings`, `RecordPoseTable`, `RecordName` and `RecordPoses` state its content |
| Upgrade.UpgradeOf | epic_pose_wrangler/v1/upgrade.py:14-58 | (no contract of its own) the output dictionary; `UpgradeKeys` and `UpgradeFails` state its content |
| Upgrade.CopyKeyable | epic_pose_wrangler/v1/upgrade.py:25-31 | the keyable-attribute loop computes `KeyableCopies`, skipping the attributes that cannot be read |
| Upgrade.ReadSettings | epic_pose_wrangler/v1/upgrade.py:35-39 | the explicit reads compute `ExplicitSettings`, stopping at the first that raises |
| Upgrade.CollectPoses | epic_pose_wrangler/v1/upgrade.py:42-57 | the pose loop computes `PoseRecords` |
| Upgrade.UpgradeSolver | epic_pose_wrangler/v1/upgrade.py:19-57 | one iteration of the solver loop computes `RecordOf` |
| Upgrade.UpgradeScene | epic_pose_wrangler/v1/upgrade.py:14-58 | the output dictionary is `UpgradeOf` of the scene's solvers, in scene order |
| OrderedDict.GatherStep | epic_pose_wrangler/v1/upgrade.py:58 | one more value that was computed is put under its key |
| OrderedDict.GatherStops | epic_pose_wrangler/v1/upgrade.py:17-58 | once a value raises, the dictionary fails with its error whatever follows |
| OrderedDict.GatherOk | epic_pose_wrangler/v1/upgrade.py:17-58 | the dictionary is built exactly when every value is computed |
| OrderedDict.GatherKeys | epic_pose_wrangler/v1/upgrade.py:58 | with distinct keys every value is stored once, in order, under its key |
| Upgrade.UpgradeKeys | epic_pose_wrangler/v1/upgrade.py:14-58 | when every record can be made and the new names differ, the output holds one entry per solver, in scene order, under its new name with its record |
| Upgrade.UpgradeFails | epic_pose_wrangler/v1/upgrade.py:14-58 | the upgrade fails exactly when some solver's record cannot be made |
| Upgrade.SettingsKeys | epic_pose_wrangler/v1/upgrade.py:24-40 | the five settings differ from each other and from the record's fixed keys |
| Upgrade.RecordTransforms | epic_pose_wrangler/v1/upgrade.py:33-34 | a record holds a one-element driver list with the driving transform, and the driven transforms |
| Upgrade.RecordSettings | epic_pose_wrangler/v1/upgrade.py:35-39 | a record holds the five settings as read, overwriting any keyable copy |
| Upgrade.RecordPoseTable | epic_pose_wrangler/v1/upgrade.py:40-57 | a record holds the poses built over the sorted pose names |
| Upgrade.RecordName | epic_pose_wrangler/v1/upgrade.py:23-24 | the record's `solver_name` is the new name, unless a keyable attribute has that very name |
| Upgrade.RecordPoses | epic_pose_wrangler/v1/upgrade.py:42-57 | the poses of a record are the solver's, sorted, with `base_pose` renamed `default`, each with its own record and its fixed options, when the solver has no other pose named `default` |

## Left out

- Text.ParseInt: accepts only an optional `-` followed by ASCII digits. Python's `int()` also takes a leading `+`, surrounding whitespace, `_` between digits and other Unicode digits. The model parses only the index between a plug's brackets, which Maya writes as plain digits.
- Legacy.WithPose: adding a pose under a name that is already stored appends `PoseNodes` again under the same node names. Maya would give the new matrix nodes that `create_matrix_node` makes (epic_pose_wrangler/v1/poseWrangler.py:237-240, 254) fresh, uniquified names, which the model does not compute.
- BlenderModel.GetPose: returns `None` for a slot that does not exist, including for the default index -1. What Maya's `getAttr` (through `utils.get_attr`, epic_pose_wrangler/v2/model/utils.py:197-211) returns for `poses[-1]` or for an unset slot is host behaviour and is not modelled.
- BlenderModel.DrivenMatrix: fails when there is no driven transform. In the source `driven_transform` is then `None` (epic_pose_wrangler/v2/model/pose_blender.py:157-165). The failure comes from Maya's `xform` being given `None`, which is host behaviour.
- OrderedDict.Remove: Python's `pop(k)` raises KeyError for an absent key; the model returns the dictionary unchanged instead. The only call (epic_pose_wrangler/v2/model/api.py:1014) follows the `has_pose` check at line 995, so the key is always present there.
- Transform math is not modelled. This covers the matrix and quaternion body of `mirror_pose` (`v2/model/api.py:873-973`), `_mirror_position` and `_mirror_rotation` (`v1/poseWrangler.py:942-993`), and compose/decompose in `v2/model/utils.py:30-111`. Matrices are opaque values. The exception is the v1 import, which writes elements 12 to 14.
- RBF weight evaluation is not modelled: it happens inside the native solver node.
- `re.match` is not modelled: the name functions take the captured groups, or no match.
- Blendshape operations (`v2/model/api.py:1102-1697`) are not modelled. Neither are the blendshape part of `driven_nodes` and `driven_attributes`.
- UI code, view updates and undo chunks are not modelled. This includes the view half of the `current_solver` setter (`v2/main.py:94-114`).
- File I/O is not modelled: JSON reading and writing, `export_data`, the mapping file of `MirrorMapping` (taken as a parameter), and settings.
- Plugin loading, version dispatch and the reflection-based discovery of extensions and actions are not modelled. Extensions are a list of names.
- Timeline baking, keying and the thin selection and zero-pose actions are not modelled.
- Floating point is real arithmetic. IEEE rounding in the paste formula and the in-between multipliers is not modelled.
- Host effects that only move transforms are not modelled. These are `assume_pose`, `go_to_pose`, and the `go_to_pose` of other solvers inside `edit_solver` (`v2/model/api.py:1082-1084`) and `mirror_pose` (`v2/model/api.py:854-858`). The matrices a later step reads from the scene are parameters (`sceneOf` in `Inbetweens`, `matrix` in `Upgrade.Scene`).
- `is_driving` of the v1 tool is recorded only as a write in the import log.
- The order of `listConnections` results is taken to be connection order. For a v1 pose this is the first driven node, the driver's node, then the other driven nodes (`Legacy.DriverSecond`). `add_pose` and `create_pose_driver_system` connect the driver's node again after every driven node; a repeated `msgConnect` of the same pair adds no second connection, so these repeats are not modelled.
- Legacy.DeleteNodes: a pose's connections are modelled as one outgoing plug per matrix node, fixed before the loop and then reduced by the removals the loop does (`Legacy.Live`). Connections the nodes have to other plugs are not modelled.
- Text.Lower: lowers ASCII capitals only. Python's `str.lower`, which `get_rbf_solver_by_name` uses (`v2/main.py:230`), also lowers non-ASCII capitals such as 'Ä'; that Unicode case folding is not modelled.
- SetAttrOrConnect: the `isConnected` and `connectAttr` answers are parameters (`alreadyConnected`, `hostAccepts`); a refusal by either call is one PoseWranglerAttributeError.
- AddPoseToBlender: the weight connection to the solver output is taken to be accepted by the host; a refused connection, which would raise PoseWranglerAttributeError part-way through `add_pose`, is not modelled.
- SolverPoses.IsPoseMuted: an index outside the targets gives RuntimeError. The source calls `getAttr` on `targets[index].targetEnable` without a check of its own (`v2/model/api.py:1044-1045`); what Maya answers for a missing element is not modelled.
- SolverPoses.MutePose: an index outside the targets gives RuntimeError. The source calls `setAttr` without a check of its own (`v2/model/api.py:1061-1064`); what Maya does with a missing element is not modelled.
- Solver.RbfNode.IsPoseMuted and Solver.RbfNode.MutePose: follow `SolverPoses.IsPoseMuted` and `SolverPoses.MutePose`, with the same RuntimeError for an index outside the targets.
- SolverDelete.DeletePose: removes every target. The source removes the targets at `range(len(poses))` (`v2/model/api.py:1009-1011`); the two agree on a network whose targets carry distinct, non-empty names (`SolverDelete.RemovedRangeIsEveryTarget`). Networks with unnamed or repeated target names are not modelled there.
- Solver.RbfNode.DeletePose and Solver.RbfNode.ClearTargets: remove every target, as `SolverDelete.DeletePose` does.
- LegacyImport.SettingWrites, LegacyImport.MatrixWrites and LegacyImport.Import: each `setAttr` of a setting (`v1/poseWrangler.py:775`) or of a matrix (`v1/poseWrangler.py:793`, `801`) is taken to succeed. A missing attribute or matrix node, which would raise out of `import_drivers`, is not modelled.
- Maya attribute values are collapsed to `real`. Vector values are `Vec3`.
- The solver owns its pose blenders by value. Two solvers sharing one blender node are not modelled, and neither is a blender changed behind the solver's back.
- `remove_driven_transforms` and `delete()` of a blender are not modelled. Neither are the solver settings `mode`, `radius`, `weightThreshold`, `normalizeMethod`, `functionType`, `twistAxis` and `inputMode`.
- The `function_type`, `distance_method` and `scale_factor` fields of a pose record, and its blendshape data, are not modelled. `add_pose` never stores them.
- `create_from_data` is modelled without the solver-attribute block that follows the pose loop (`v2/model/api.py:128-140`).
- A failure part-way through an operation is not modelled as the host does it. In the host, a transform that vanished between the checks and the writes leaves the writes already made in place. In the model, the operation returns the error and the state is unchanged.
- `serialize` is modelled on the solvers' states, not on the wrapper objects.
- The upgrade's temporary JSON file, `clear_scene` deletion and final `assume_pose("base_pose")` (`v1/upgrade.py:61-77`) are not modelled. `UpgradeScene` returns the dictionary the file would hold.
- `mirror_all_drivers` is modelled by the solvers it selects (`Legacy.LeftSolvers`). The calls it makes are `mirror_pose_driver`, whose pose loop is modelled.
- `mirror_pose_driver` copies keyable solver settings, and its update branch writes matrices. Neither is modelled: the target's state covers only which poses it lists.
- v1 `add_pose` swallows every exception after printing it (`v1/poseWrangler.py:279-280`). The model covers only the branch in which every host call succeeds.
- v1 `driving_transform` returns `[]` when the solver has no driver attribute. The model always has a driving transform name.
- v1 `update_pose` and `assume_pose` only write matrices and are not modelled.
- `listAttr` returning `None` is modelled as an empty list.
- A JSON document missing a required key, which would raise KeyError, is not modelled.
- A string filter passed where a list is expected, which would make `in` a substring test, is not modelled.
- Solver.RbfNode.RemoveDrivers: requires every connected driver to exist in the scene and one rest matrix per driver. The source warns about a missing driver and skips it without disconnecting it (`v2/model/api.py:385-393`). That case is not modelled.
- SolverWiring.RemoveDrivers: has the same requirement that every connected driver exists.
- Session.PoseWranglerApi.LoadView: requires the scene's solvers to be distinct objects, as `RBFNode.find_all` lists each node once.
- Session.PoseWranglerApi.LoadView: does not state which solver is current after the loop (the last one forced out of edit mode by `edit_solver(edit=False)`, epic_pose_wrangler/v2/main.py:763-765, or the one before when none was). It also does not state the whole sequence of extension notices the loop sends. Each single visit's new current solver and notices are stated by `Session.PoseWranglerApi.Visit` and `Session.PoseWranglerApi.ListSolver`; the loop invariant does not carry them, to keep the proof within its resource bound.
- Legacy.PoseDriver.Create: models a scene in which the new solver's blenders do not exist yet. It does not model reusing an existing `<driven>_ue4PoseBlender` (`v1/poseWrangler.py:207-209`).
- Lemmas that require `Valid`, `WellFormed`, `Lockstep` or `Coherent` state invariants of the solver, not demands on callers. The class methods do not require them.

## Findings

| source | as written | input that shows it | evidently intended | confidence | as-written member | corrected member |
|---|---|---|---|---|---|---|
| epic_pose_wrangler/v2/model/pose_blender.py:251-252 | the int branch of the envelope clamp asks for `0 > value > 1`, which no number satisfies, and `or` binds looser than `and`, so ints are never clamped | `envelope = 5` stores 5, while `envelope = 5.0` stores 1.0 | every number is held to [0, 1] | not executed | BlenderModel.SetEnvelope, BlenderModel.SetEnvelopeIntUnclamped | BlenderModel.SetEnvelopeIntended, BlenderModel.EnvelopeIntended |
| epic_pose_wrangler/v1/poseWrangler.py:310 | `delete_pose` reads the pose index from the last brackets of each plug, and the driver matrix node of pose `n` is plugged into `targets[n].targetValues[0]`. When the first driven transform's blender entry is `n` too, its removal of `targets[n]` breaks the driver node's connection first and nothing goes wrong (`Legacy.DeleteInStep`) | a pose `n` whose first driven transform's blender holds its entry at another index (for example a blender that already held poses before it joined this solver): deleting pose 2 with that entry at 3 then reads index 0 from `solver.targets[2].targetValues[0]` and removes `outputs[0]` and `targets[0]`, the base pose | the index of the pose the plug belongs to, in its first brackets | not executed; plausible but not confirmed for scenes the tool itself builds | Legacy.DeleteMisreadsDriver, Legacy.DriverPlugAsWritten | Legacy.DeleteReadsDriver, Legacy.DriverPlugRemovals |
| epic_pose_wrangler/v1/poseWrangler.py:786 | `world_matrix_map` is bound to the pose's `local_matrix_map` | a file whose world matrix for a node differs from its local one writes the local matrix to `outputWorldMatrix` | the world loop writes the file's `world_matrix_map` | not executed | LegacyImport.PoseWritesAsWritten, LegacyImport.AsWrittenWorldFromLocal | LegacyImport.PoseWrites, LegacyImport.PoseWritesWorld |
