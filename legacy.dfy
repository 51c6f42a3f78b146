/**
 * The first-generation tool (`v1/poseWrangler.py`): the `UE4PoseDriver`
 * wrapper around a `UE4RBFSolverNode`, its pose dictionary, which is read
 * back from the solver's `stored_pose_*` message attributes, `add_pose`,
 * `delete_pose`, and the left/right mirroring of a whole solver.
 */
module Legacy {
  import opened Wrappers
  import Text
  import OD = OrderedDict

  const LeftToken := "_l_"
  const RightToken := "_r_"
  const StoredPrefix := "stored_pose_"
  const SolverSuffix := "_UE4RBFSolver"
  const BasePose := "base_pose"

  // ------------------------------------------------------------ side names

  /**
   * The (source, target) side tokens `mirror_pose_driver` and
   * `mirror_transforms` pick for a name: a name holding `_r_` is mirrored to
   * the left, every other name to the right.
   */
  function Sides(name: string): (string, string)
  {
    if Text.Contains(name, RightToken) then (RightToken, LeftToken) else (LeftToken, RightToken)
  }

  /** `name.replace(source, target)`. */
  function Swap(name: string, sides: (string, string)): string
  {
    Text.Replace(name, sides.0, sides.1)
  }

  /** The name of a transform's mirror image, on its own side tokens. */
  function MirrorName(name: string): string
  {
    Swap(name, Sides(name))
  }

  /** Mirroring a name keeps its length: both tokens are three characters long. */
  lemma MirrorKeepsLength(name: string)
    ensures |MirrorName(name)| == |name|
  {
    Text.ReplaceLength(name, Sides(name).0, Sides(name).1);
  }

  /** A name with neither token has no mirror image other than itself. */
  lemma MirrorNeutral(name: string)
    requires !Text.Contains(name, LeftToken) && !Text.Contains(name, RightToken)
    ensures Sides(name) == (LeftToken, RightToken)
    ensures MirrorName(name) == name
  {
    Text.ReplaceAbsent(name, LeftToken, RightToken);
  }

  /**
   * A left-side name mirrors to a right-side name, and mirroring that one
   * gives the left-side name back.
   */
  lemma MirrorLeftRoundTrip(name: string)
    requires Text.Contains(name, LeftToken) && !Text.Contains(name, RightToken)
    ensures Sides(name) == (LeftToken, RightToken)
    ensures Text.Contains(MirrorName(name), RightToken)
    ensures Sides(MirrorName(name)) == (RightToken, LeftToken)
    ensures MirrorName(MirrorName(name)) == name
  {
    Text.ReplaceHit(name, LeftToken, RightToken);
    Text.ReplaceBack(name, LeftToken, RightToken);
  }

  /** `mirror_all_drivers`: the solvers it mirrors, those whose names hold `_l_`, in scene order. */
  function LeftSolvers(nodes: seq<string>): (r: seq<string>)
    ensures |r| <= |nodes|
    ensures forall x :: x in r <==> x in nodes && Text.Contains(x, LeftToken)
  {
    if nodes == [] then []
    else
      assert nodes == [nodes[0]] + nodes[1..];
      (if Text.Contains(nodes[0], LeftToken) then [nodes[0]] else []) + LeftSolvers(nodes[1..])
  }

  // ------------------------------------------------------- the pose dictionary

  /**
   * A v1 solver as the wrapper sees it: the solver node, the driving
   * transform, the driven transforms, the solver's dynamic attributes in
   * creation order, and the nodes each message attribute connects to.
   */
  datatype Rig = Rig(solver: string, driving: string, driven: seq<string>,
                     attrs: seq<string>, links: map<string, seq<string>>)

  /** `pose_dict`: pose name to the matrix nodes of the pose (`None` when nothing is connected). */
  type PoseMap = OD.Dict<string, Option<seq<string>>>

  /** `cmds.listConnections(solver + "." + attr)`: `None` when nothing is connected. */
  function Connected(links: map<string, seq<string>>, attr: string): Option<seq<string>>
  {
    if attr in links && links[attr] != [] then Some(links[attr]) else None
  }

  /** `attr.replace('stored_pose_', '')`: every occurrence goes, not only the leading one. */
  function StoredName(attr: string): string
  {
    Text.Replace(attr, StoredPrefix, "")
  }

  /** The pose dictionary built from the attributes matching `stored_pose_*`, in order. */
  function PoseTable(attrs: seq<string>, links: map<string, seq<string>>): PoseMap
    decreases |attrs|
  {
    if attrs == [] then []
    else
      var d := PoseTable(attrs[..|attrs| - 1], links);
      var a := attrs[|attrs| - 1];
      if Text.StartsWith(a, StoredPrefix) then OD.Put(d, StoredName(a), Connected(links, a)) else d
  }

  function PoseNames(r: Rig): seq<string>
  {
    OD.Keys(PoseTable(r.attrs, r.links))
  }

  /** Some `stored_pose_*` attribute names the pose `k`. */
  predicate Stored(attrs: seq<string>, k: string)
  {
    exists a :: a in attrs && Text.StartsWith(a, StoredPrefix) && StoredName(a) == k
  }

  /** The dictionary has one key per pose name some `stored_pose_*` attribute yields, and no other. */
  lemma {:induction false} PoseTableKeys(attrs: seq<string>, links: map<string, seq<string>>)
    ensures OD.UniqueKeys(PoseTable(attrs, links))
    ensures forall k :: k in OD.Keys(PoseTable(attrs, links)) <==> Stored(attrs, k)
    decreases |attrs|
  {
    if attrs != [] {
      var front := attrs[..|attrs| - 1];
      var a := attrs[|attrs| - 1];
      assert attrs == front + [a];
      PoseTableKeys(front, links);
      var d := PoseTable(front, links);
      if Text.StartsWith(a, StoredPrefix) {
        OD.PutKeepsUnique(d, StoredName(a), Connected(links, a));
      }
      forall k ensures Stored(attrs, k) <==> Stored(front, k) || (Text.StartsWith(a, StoredPrefix) && StoredName(a) == k) {
        if Stored(attrs, k) {
          var x :| x in attrs && Text.StartsWith(x, StoredPrefix) && StoredName(x) == k;
          if x != a {
            assert x in front;
          }
        }
      }
    }
  }

  /** Which poses are listed does not depend on what their attributes connect to. */
  lemma {:induction false} PoseTableKeysLinks(attrs: seq<string>, l1: map<string, seq<string>>, l2: map<string, seq<string>>)
    ensures OD.Keys(PoseTable(attrs, l1)) == OD.Keys(PoseTable(attrs, l2))
    decreases |attrs|
  {
    if attrs != [] {
      PoseTableKeysLinks(attrs[..|attrs| - 1], l1, l2);
    }
  }

  /** `stored_pose_<p>` is listed as `p` when `p` itself does not hold the prefix. */
  lemma StoredNameOfPrefixed(p: string)
    requires !Text.Contains(p, StoredPrefix)
    ensures Text.StartsWith(StoredPrefix + p, StoredPrefix)
    ensures StoredName(StoredPrefix + p) == p
  {
    var s := StoredPrefix + p;
    assert s[..|StoredPrefix|] == StoredPrefix && s[|StoredPrefix|..] == p;
    Text.ReplaceAbsent(p, StoredPrefix, "");
  }

  // ------------------------------------------------------ creation and add_pose

  /**
   * The order in which a pose's matrix nodes are connected from its
   * `stored_pose_*` attribute: the first driven transform's node, then the
   * driver's, then the other driven transforms' nodes. The driver's node is
   * connected again after every driven node, which adds no second
   * connection.
   */
  function DriverSecond(mx: seq<string>, driver: string): (r: seq<string>)
    ensures |r| == |mx| + 1
    ensures forall x :: x in r <==> x in mx || x == driver
  {
    if mx == [] then [driver] else [mx[0], driver] + mx[1..]
  }

  /** The matrix nodes `add_pose` connects for a pose, in the order it connects them. */
  function PoseNodes(r: Rig, name: string): seq<string>
  {
    DriverSecond(seq(|r.driven|, j requires 0 <= j < |r.driven| => name + "_" + r.driven[j] + "_mx_pose"),
      r.driving + "_" + name + "_pose")
  }

  /**
   * `create_pose_driver_system(name, driving, driven)`: a solver named
   * `<name>_UE4RBFSolver` whose base pose is stored as soon as there is a
   * driven transform to anchor it; its nodes are connected in the order of
   * `PoseNodes`.
   */
  function CreatedRig(name: string, driving: string, driven: seq<string>): Rig
  {
    var base := StoredPrefix + BasePose;
    var nodes := DriverSecond(seq(|driven|, j requires 0 <= j < |driven| => driven[j] + "_base_pose"), driving + "_base_pose");
    if driven == [] then Rig(name + SolverSuffix, driving, driven, [], map[])
    else Rig(name + SolverSuffix, driving, driven, [base], map[base := nodes])
  }

  /**
   * `add_pose(name)`: an unnamed pose is ignored; otherwise the pose nodes
   * are connected from `stored_pose_<name>`, which is created by the first
   * connection, so a solver without driven transforms records nothing.
   */
  function WithPose(r: Rig, name: string): Rig
  {
    if name == [] || r.driven == [] then r
    else
      var a := StoredPrefix + name;
      r.(attrs := if a in r.attrs then r.attrs else r.attrs + [a],
         links := r.links[a := (if a in r.links then r.links[a] else []) + PoseNodes(r, name)])
  }

  /**
   * After `add_pose` the pose dictionary lists the pose; a new pose is
   * listed last, after every pose listed before.
   */
  lemma AddPoseListed(r: Rig, name: string)
    requires name != [] && r.driven != [] && !Text.Contains(name, StoredPrefix)
    ensures name in PoseNames(WithPose(r, name))
    ensures name !in PoseNames(r) ==> PoseNames(WithPose(r, name)) == PoseNames(r) + [name]
    ensures name in PoseNames(r) ==> PoseNames(WithPose(r, name)) == PoseNames(r)
    ensures WithPose(r, name).solver == r.solver && WithPose(r, name).driven == r.driven
  {
    var a := StoredPrefix + name;
    StoredNameOfPrefixed(name);
    var q := WithPose(r, name);
    PoseTableKeysLinks(r.attrs, r.links, q.links);
    PoseTableKeys(r.attrs, r.links);
    PoseTableKeys(q.attrs, q.links);
    if a in r.attrs {
      assert Stored(r.attrs, name);
    } else {
      assert q.attrs == r.attrs + [a];
      assert q.attrs[..|q.attrs| - 1] == r.attrs;
      var d := PoseTable(r.attrs, q.links);
      assert PoseTable(q.attrs, q.links) == OD.Put(d, name, Connected(q.links, a));
    }
  }

  /**
   * Whatever the name, `add_pose` keeps the solver's transforms and every
   * pose listed before, in order, and lists at most one more.
   */
  lemma WithPoseGrows(r: Rig, name: string)
    ensures var q := WithPose(r, name);
      && q.solver == r.solver && q.driving == r.driving && q.driven == r.driven
      && PoseNames(r) <= PoseNames(q) && |PoseNames(q)| <= |PoseNames(r)| + 1
  {
    var q := WithPose(r, name);
    if name != [] && r.driven != [] {
      var a := StoredPrefix + name;
      PoseTableKeysLinks(r.attrs, r.links, q.links);
      if a !in r.attrs {
        assert q.attrs[..|q.attrs| - 1] == r.attrs;
        assert a[..|StoredPrefix|] == StoredPrefix;
      }
    }
  }

  // ------------------------------------------------------------ delete_pose

  /** Python's `str(i)`. */
  function IntToString(i: int): string
  {
    if i < 0 then "-" + Text.NatToString(-i) else Text.NatToString(i)
  }

  /** `base + "[" + index + "]"`: an element plug of a multi-attribute. */
  function Indexed(base: string, index: string): string
  {
    base + ['['] + index + [']']
  }

  const PosesAttr := ".poses"
  const WeightsAttr := ".weights"
  const OutputsAttr := ".outputs"
  const TargetsAttr := ".targets"
  const ValuesAttr := ".targetValues"

  /** `solver + '.targets[' + str(n) + '].targetValues[0]'`: where `add_pose` plugs the driver matrix of pose `n`. */
  function DriverPlug(solver: string, n: nat): string
  {
    Indexed(Indexed(solver + TargetsAttr, Text.NatToString(n)) + ValuesAttr, Text.NatToString(0))
  }

  /** The index `delete_pose` reads from a plug as written: `int(plug.split("[")[-1].split("]")[0])`. */
  function PlugIndexAsWritten(plug: string): Result<int>
  {
    Text.ParseInt(Text.BeforeFirst(Text.AfterLast(plug, '['), ']'))
  }

  /** The index of the pose a plug belongs to: the integer in its first brackets. */
  function PlugIndex(plug: string): Result<int>
  {
    match Text.SplitOnce(plug, '[')
    case Err(e) => Err(e)
    case Ok(parts) => Text.ParseInt(Text.BeforeFirst(parts.1, ']'))
  }

  /** How the pose index is read from a plug. */
  datatype Reader =
    | AsWritten      // the number in the last brackets, as `delete_pose` reads it
    | FirstBrackets  // the number in the first brackets: the pose the plug belongs to

  function ReadIndex(reader: Reader, plug: string): Result<int>
  {
    match reader
    case AsWritten => PlugIndexAsWritten(plug)
    case FirstBrackets => PlugIndex(plug)
  }

  /**
   * The multi-instances `delete_pose` removes for a matrix node whose first
   * outgoing connection is `plug`, given the index read from it: the
   * blender's pose and weight entries when the plug is a blender's
   * `poses[...]`, then the solver's output and target.
   */
  function Removals(solver: string, plug: string, index: Result<int>): Result<seq<string>>
  {
    match index
    case Err(e) => Err(e)
    case Ok(i) =>
      var s := IntToString(i);
      var blender := if Text.Contains(plug, PosesAttr + "[") then [plug, Indexed(Text.BeforeFirst(plug, '.') + WeightsAttr, s)] else [];
      Ok(blender + [Indexed(solver + OutputsAttr, s), Indexed(solver + TargetsAttr, s)])
  }

  function RemovalsBy(reader: Reader, solver: string, plug: string): Result<seq<string>>
  {
    Removals(solver, plug, ReadIndex(reader, plug))
  }

  lemma DigitsHaveNoBrackets(i: nat)
    ensures Text.Free(Text.NatToString(i), '[') && Text.Free(Text.NatToString(i), ']')
  {
    var d := Text.NatToString(i);
    forall k | 0 <= k < |d| ensures d[k] != '[' && d[k] != ']' {
      assert Text.IsDigit(d[k]);
    }
  }

  lemma FreeJoin(a: string, b: string, c: char)
    requires Text.Free(a, c) && Text.Free(b, c)
    ensures Text.Free(a + b, c)
  {
    forall k | 0 <= k < |a + b| ensures (a + b)[k] != c {
      if k >= |a| {
        assert (a + b)[k] == b[k - |a|];
      }
    }
  }

  lemma AttrsHaveNoBrackets()
    ensures Text.Free(PosesAttr, '[') && Text.Free(TargetsAttr, '[') && Text.Free(ValuesAttr, ']')
    ensures PosesAttr == ['.'] + PosesAttr[1..]
  {
  }

  /** As written, the index is the number in the last brackets of the plug. */
  lemma PlugIndexAsWrittenReads(p: string, i: nat, rest: string)
    requires Text.Free(rest, '[')
    ensures PlugIndexAsWritten(Indexed(p, Text.NatToString(i)) + rest) == Ok(i)
  {
    var d := Text.NatToString(i);
    DigitsHaveNoBrackets(i);
    var tail := d + [']'] + rest;
    assert Indexed(p, d) + rest == p + ['['] + tail;
    FreeJoin(d, [']'], '[');
    FreeJoin(d + [']'], rest, '[');
    Text.AfterLastOf(p, '[', tail);
    Text.BeforeFirstOf(d, ']', rest);
    Text.ParseFormattedIndex(i);
  }

  /** The pose index is the number in the first brackets of the plug. */
  lemma PlugIndexReads(p: string, i: nat, rest: string)
    requires Text.Free(p, '[')
    ensures PlugIndex(Indexed(p, Text.NatToString(i)) + rest) == Ok(i)
  {
    var d := Text.NatToString(i);
    DigitsHaveNoBrackets(i);
    var tail := d + [']'] + rest;
    assert Indexed(p, d) + rest == p + ['['] + tail;
    Text.BeforeFirstOf(p, '[', tail);
    Text.BeforeFirstOf(d, ']', rest);
    Text.ParseFormattedIndex(i);
  }

  /** The removals once the index is read, for a plug that is not a blender's. */
  lemma SolverRemovals(solver: string, plug: string, i: int)
    requires !Text.Contains(plug, PosesAttr + "[")
    ensures Removals(solver, plug, Ok(i)) == Ok([Indexed(solver + OutputsAttr, IntToString(i)), Indexed(solver + TargetsAttr, IntToString(i))])
  {
    var r := [Indexed(solver + OutputsAttr, IntToString(i)), Indexed(solver + TargetsAttr, IntToString(i))];
    assert [] + r == r;
  }

  /** The removals once the index is read, for a blender's `poses[...]` plug. */
  lemma BlenderRemovals(solver: string, plug: string, blender: string, i: int)
    requires Text.Contains(plug, PosesAttr + "[") && Text.BeforeFirst(plug, '.') == blender
    ensures Removals(solver, plug, Ok(i)) == Ok([plug, Indexed(blender + WeightsAttr, IntToString(i)),
      Indexed(solver + OutputsAttr, IntToString(i)), Indexed(solver + TargetsAttr, IntToString(i))])
  {
    var s := IntToString(i);
    var b := [plug, Indexed(blender + WeightsAttr, s)];
    var o := [Indexed(solver + OutputsAttr, s), Indexed(solver + TargetsAttr, s)];
    assert b + o == [plug, Indexed(blender + WeightsAttr, s), o[0], o[1]];
  }

  lemma NestedShape(a: string, d: string, v: string, z: string)
    ensures Indexed(Indexed(a, d) + v, z) == Indexed(a, d) + (v + Indexed([], z))
  {
  }

  lemma BlenderShape(b: string, dot: char, q: string, d: string)
    ensures var plug := Indexed(b + ([dot] + q), d);
      && plug == b + [dot] + (q + ['['] + d + [']'])
      && plug == Indexed(b + ([dot] + q), d) + []
      && Text.OccursAt(plug, [dot] + q + "[", |b|)
  {
    var plug := Indexed(b + ([dot] + q), d);
    var pat := [dot] + q + "[";
    assert plug == b + pat + (d + [']']);
    assert (b + pat + (d + [']']))[|b|..|b| + |pat|] == pat;
  }

  /**
   * As written, `delete_pose` reads index 0 from the driver matrix node of
   * every pose `n`, and so removes the base pose's output and target
   * instead of pose `n`'s.
   */
  lemma DriverPlugAsWritten(solver: string, n: nat)
    requires !Text.Contains(DriverPlug(solver, n), PosesAttr + "[")
    ensures RemovalsBy(AsWritten, solver, DriverPlug(solver, n))
      == Ok([Indexed(solver + OutputsAttr, Text.NatToString(0)), Indexed(solver + TargetsAttr, Text.NatToString(0))])
  {
    var p := Indexed(solver + TargetsAttr, Text.NatToString(n)) + ValuesAttr;
    assert DriverPlug(solver, n) == Indexed(p, Text.NatToString(0)) + [];
    PlugIndexAsWrittenReads(p, 0, []);
    SolverRemovals(solver, DriverPlug(solver, n), 0);
  }

  /** Read from its first brackets, the driver matrix node of pose `n` removes pose `n`'s output and target. */
  lemma DriverPlugRemovals(solver: string, n: nat)
    requires Text.Free(solver, '[')
    requires !Text.Contains(DriverPlug(solver, n), PosesAttr + "[")
    ensures RemovalsBy(FirstBrackets, solver, DriverPlug(solver, n))
      == Ok([Indexed(solver + OutputsAttr, Text.NatToString(n)), Indexed(solver + TargetsAttr, Text.NatToString(n))])
  {
    var p := solver + TargetsAttr;
    AttrsHaveNoBrackets();
    FreeJoin(solver, TargetsAttr, '[');
    NestedShape(p, Text.NatToString(n), ValuesAttr, Text.NatToString(0));
    PlugIndexReads(p, n, ValuesAttr + Indexed([], Text.NatToString(0)));
    SolverRemovals(solver, DriverPlug(solver, n), n);
  }

  /** `blender + '.poses[' + str(i) + ']'`: where `add_pose` plugs a driven matrix node. */
  function BlenderPlug(blender: string, i: nat): string
  {
    Indexed(blender + PosesAttr, Text.NatToString(i))
  }

  /** The four multi-instances a blender matrix node plugged into `blender.poses[i]` removes. */
  function BlenderDrops(solver: string, blender: string, i: nat): seq<string>
  {
    var s := Text.NatToString(i);
    [BlenderPlug(blender, i), Indexed(blender + WeightsAttr, s), Indexed(solver + OutputsAttr, s), Indexed(solver + TargetsAttr, s)]
  }

  /**
   * A blender matrix node's plug `b.poses[i]` removes the blender's pose and
   * weight `i` and the solver's output and target `i`, whichever way the
   * index is read.
   */
  lemma BlenderPlugRemovals(solver: string, blender: string, i: nat, reader: Reader)
    requires Text.Free(blender, '[') && Text.Free(blender, '.')
    ensures RemovalsBy(reader, solver, BlenderPlug(blender, i)) == Ok(BlenderDrops(solver, blender, i))
  {
    var s := Text.NatToString(i);
    var q := PosesAttr[1..];
    AttrsHaveNoBrackets();
    FreeJoin(blender, PosesAttr, '[');
    BlenderShape(blender, '.', q, s);
    var plug := BlenderPlug(blender, i);
    PlugIndexReads(blender + PosesAttr, i, []);
    PlugIndexAsWrittenReads(blender + PosesAttr, i, []);
    assert Text.Contains(plug, PosesAttr + "[");
    Text.BeforeFirstOf(blender, '.', q + ['['] + s + [']']);
    BlenderRemovals(solver, plug, blender, i);
  }

  // ---------------------------------------------- connections broken on the way

  /**
   * `removeMultiInstance(inst, b=1)` breaks the connections into the
   * element `inst` and into its children `inst.<child>`.
   */
  predicate Under(plug: string, inst: string)
  {
    Text.StartsWith(plug + ".", inst + ".")
  }

  /** A plug whose connection one of the removals in `gone` has broken. */
  predicate Broken(plug: string, gone: seq<string>)
    decreases |gone|
  {
    gone != [] && (Under(plug, gone[0]) || Broken(plug, gone[1..]))
  }

  /** What `listConnections` still returns of a node's outgoing plugs, in order, once the removals in `gone` are done. */
  function Live(plugs: seq<string>, gone: seq<string>): seq<string>
  {
    if plugs == [] then []
    else (if Broken(plugs[0], gone) then [] else [plugs[0]]) + Live(plugs[1..], gone)
  }

  /** The connections left are exactly those that no removal broke. */
  lemma {:induction false} LiveExactly(plugs: seq<string>, gone: seq<string>)
    ensures forall p :: p in Live(plugs, gone) <==> p in plugs && !Broken(p, gone)
  {
    if plugs != [] {
      LiveExactly(plugs[1..], gone);
      assert plugs == [plugs[0]] + plugs[1..];
    }
  }

  /** A plug is broken exactly when it is under one of the removals. */
  lemma {:induction false} BrokenUnder(plug: string, gone: seq<string>)
    ensures Broken(plug, gone) <==> exists g :: g in gone && Under(plug, g)
  {
    if gone != [] {
      BrokenUnder(plug, gone[1..]);
      assert gone == [gone[0]] + gone[1..];
    }
  }

  /** Before any removal, every connection is there. */
  lemma LiveBefore(plugs: seq<string>)
    ensures Live(plugs, []) == plugs
  {
    if plugs != [] {
      LiveBefore(plugs[1..]);
    }
  }

  /** The children of an element are under it. */
  lemma UnderChild(inst: string, rest: string)
    requires rest != [] && rest[0] == '.'
    ensures Under(inst + rest, inst)
  {
    assert (inst + rest + ".")[..|inst + "."|] == inst + ".";
  }

  // ------------------------------------------------------------ the loop

  /**
   * `delete_pose`'s loop over the pose's matrix nodes, with `gone` the
   * multi-instances removed before: the multi-instances removed, the nodes
   * deleted, and whether the loop ran to its end. A node with no live
   * outgoing connection is just deleted; an unreadable index raises, which
   * the method catches and prints, so the loop stops there.
   */
  function DeleteNodes(reader: Reader, solver: string, nodes: seq<string>, outputs: string -> seq<string>, gone: seq<string>): (seq<string>, seq<string>, bool)
    decreases |nodes|
  {
    if nodes == [] then ([], [], true)
    else if !Passable(reader, solver, nodes[0], outputs, gone) then ([], [], false)
    else
      var here := NodeRemovals(reader, solver, nodes[0], outputs, gone);
      var rest := DeleteNodes(reader, solver, nodes[1..], outputs, gone + here);
      (here + rest.0, [nodes[0]] + rest.1, rest.2)
  }

  /** A node the loop gets past: no live outgoing connection, or a first one with a readable index. */
  predicate Passable(reader: Reader, solver: string, node: string, outputs: string -> seq<string>, gone: seq<string>)
  {
    var conn := Live(outputs(node), gone);
    conn == [] || RemovalsBy(reader, solver, conn[0]).Ok?
  }

  /** What the loop removes for a node it gets past. */
  function NodeRemovals(reader: Reader, solver: string, node: string, outputs: string -> seq<string>, gone: seq<string>): seq<string>
    requires Passable(reader, solver, node, outputs, gone)
  {
    var conn := Live(outputs(node), gone);
    if conn == [] then [] else RemovalsBy(reader, solver, conn[0]).value
  }

  /** What is left of the delete loop after `removed` and `deleted` were done for `nodes[..i]`. */
  predicate DeleteRest(all: (seq<string>, seq<string>, bool), removed: seq<string>, deleted: seq<string>,
                       reader: Reader, solver: string, nodes: seq<string>, i: nat, outputs: string -> seq<string>)
    requires i <= |nodes|
  {
    var rest := DeleteNodes(reader, solver, nodes[i..], outputs, removed);
    (removed + rest.0, deleted + rest.1, rest.2) == all
  }

  lemma DeleteRestStart(reader: Reader, solver: string, nodes: seq<string>, outputs: string -> seq<string>)
    ensures DeleteRest(DeleteNodes(reader, solver, nodes, outputs, []), [], [], reader, solver, nodes, 0, outputs)
  {
    var all := DeleteNodes(reader, solver, nodes, outputs, []);
    assert nodes[0..] == nodes;
    assert [] + all.0 == all.0 && [] + all.1 == all.1;
  }

  lemma DeleteRestPass(all: (seq<string>, seq<string>, bool), removed: seq<string>, deleted: seq<string>,
                       reader: Reader, solver: string, nodes: seq<string>, i: nat, outputs: string -> seq<string>)
    requires i < |nodes| && DeleteRest(all, removed, deleted, reader, solver, nodes, i, outputs)
    requires Passable(reader, solver, nodes[i], outputs, removed)
    ensures DeleteRest(all, removed + NodeRemovals(reader, solver, nodes[i], outputs, removed), deleted + [nodes[i]],
      reader, solver, nodes, i + 1, outputs)
  {
    assert nodes[i..][0] == nodes[i] && nodes[i..][1..] == nodes[i + 1..];
    var here := NodeRemovals(reader, solver, nodes[i], outputs, removed);
    var rest := DeleteNodes(reader, solver, nodes[i + 1..], outputs, removed + here);
    assert removed + (here + rest.0) == (removed + here) + rest.0;
    assert deleted + ([nodes[i]] + rest.1) == (deleted + [nodes[i]]) + rest.1;
  }

  lemma DeleteRestStop(all: (seq<string>, seq<string>, bool), removed: seq<string>, deleted: seq<string>,
                       reader: Reader, solver: string, nodes: seq<string>, i: nat, outputs: string -> seq<string>)
    requires i < |nodes| && DeleteRest(all, removed, deleted, reader, solver, nodes, i, outputs)
    requires !Passable(reader, solver, nodes[i], outputs, removed)
    ensures all == (removed, deleted, false)
  {
    assert nodes[i..][0] == nodes[i];
    assert removed + [] == removed && deleted + [] == deleted;
  }

  lemma DeleteRestEnd(all: (seq<string>, seq<string>, bool), removed: seq<string>, deleted: seq<string>,
                      reader: Reader, solver: string, nodes: seq<string>, outputs: string -> seq<string>)
    requires DeleteRest(all, removed, deleted, reader, solver, nodes, |nodes|, outputs)
    ensures all == (removed, deleted, true)
  {
    assert nodes[|nodes|..] == [];
    assert removed + [] == removed && deleted + [] == deleted;
  }

  /** The loop of `delete_pose` runs to its end when every outgoing plug of every node has a readable index. */
  lemma {:induction false} DeleteNodesReadable(reader: Reader, solver: string, nodes: seq<string>, outputs: string -> seq<string>, gone: seq<string>)
    requires forall i, p :: 0 <= i < |nodes| && p in outputs(nodes[i]) ==> RemovalsBy(reader, solver, p).Ok?
    ensures DeleteNodes(reader, solver, nodes, outputs, gone).2
    decreases |nodes|
  {
    if nodes != [] {
      var conn := Live(outputs(nodes[0]), gone);
      if conn != [] {
        LiveExactly(outputs(nodes[0]), gone);
        assert conn[0] in conn;
      }
      var here := NodeRemovals(reader, solver, nodes[0], outputs, gone);
      forall i, p | 0 <= i < |nodes[1..]| && p in outputs(nodes[1..][i]) ensures RemovalsBy(reader, solver, p).Ok? {
        assert nodes[1..][i] == nodes[i + 1];
      }
      DeleteNodesReadable(reader, solver, nodes[1..], outputs, gone + here);
    }
  }

  /**
   * Run to its end, the loop deletes every node of the pose; stopped, it
   * has deleted the nodes before the first it cannot get past, once the
   * removals it did are done.
   */
  lemma {:induction false} DeleteNodesDeletes(reader: Reader, solver: string, nodes: seq<string>, outputs: string -> seq<string>, gone: seq<string>)
    ensures Deletes(DeleteNodes(reader, solver, nodes, outputs, gone), reader, solver, nodes, outputs, gone)
    decreases |nodes|
  {
    if nodes != [] && Passable(reader, solver, nodes[0], outputs, gone) {
      var here := NodeRemovals(reader, solver, nodes[0], outputs, gone);
      DeleteNodesDeletes(reader, solver, nodes[1..], outputs, gone + here);
      DeleteNodesCons(reader, solver, nodes, outputs, gone);
      DeletesJoin(DeleteNodes(reader, solver, nodes, outputs, gone), DeleteNodes(reader, solver, nodes[1..], outputs, gone + here),
        here, reader, solver, nodes, outputs, gone);
    } else {
      assert gone + [] == gone;
    }
  }

  /** What `DeleteNodesDeletes` states of a run `r` of the loop. */
  predicate Deletes(r: (seq<string>, seq<string>, bool), reader: Reader, solver: string, nodes: seq<string>, outputs: string -> seq<string>, gone: seq<string>)
  {
    && (r.2 ==> r.1 == nodes)
    && (!r.2 ==> (|r.1| < |nodes| && r.1 == nodes[..|r.1|] && !Passable(reader, solver, nodes[|r.1|], outputs, gone + r.0)))
  }

  /** The loop over the first node and then the rest. */
  lemma DeleteNodesCons(reader: Reader, solver: string, nodes: seq<string>, outputs: string -> seq<string>, gone: seq<string>)
    requires nodes != [] && Passable(reader, solver, nodes[0], outputs, gone)
    ensures var here := NodeRemovals(reader, solver, nodes[0], outputs, gone);
      var rest := DeleteNodes(reader, solver, nodes[1..], outputs, gone + here);
      DeleteNodes(reader, solver, nodes, outputs, gone) == (here + rest.0, [nodes[0]] + rest.1, rest.2)
  {
  }

  /** One step of `DeleteNodesDeletes`: a run that got past the first node. */
  lemma DeletesJoin(r: (seq<string>, seq<string>, bool), rest: (seq<string>, seq<string>, bool), here: seq<string>,
                    reader: Reader, solver: string, nodes: seq<string>, outputs: string -> seq<string>, gone: seq<string>)
    requires nodes != [] && r == (here + rest.0, [nodes[0]] + rest.1, rest.2)
    requires Deletes(rest, reader, solver, nodes[1..], outputs, gone + here)
    ensures Deletes(r, reader, solver, nodes, outputs, gone)
  {
    assert nodes == [nodes[0]] + nodes[1..];
    if !r.2 {
      var k := |rest.1|;
      assert r.1[1..] == rest.1 && |r.1| == k + 1;
      assert nodes[k + 1] == nodes[1..][k];
      assert gone + here + rest.0 == gone + r.0;
      StuckAt(reader, solver, nodes[k + 1], nodes[1..][k], outputs, gone + r.0, gone + here + rest.0);
    }
  }

  lemma StuckAt(reader: Reader, solver: string, x: string, y: string, outputs: string -> seq<string>, g: seq<string>, h: seq<string>)
    requires x == y && g == h && !Passable(reader, solver, y, outputs, h)
    ensures !Passable(reader, solver, x, outputs, g)
  {
  }

  /** Both ways of reading the index give the same loop over nodes whose every plug they read alike. */
  lemma {:induction false} ReadersAgree(solver: string, nodes: seq<string>, outputs: string -> seq<string>, gone: seq<string>)
    requires forall x, p :: x in nodes && p in outputs(x) ==> RemovalsBy(AsWritten, solver, p) == RemovalsBy(FirstBrackets, solver, p)
    ensures DeleteNodes(AsWritten, solver, nodes, outputs, gone) == DeleteNodes(FirstBrackets, solver, nodes, outputs, gone)
    decreases |nodes|
  {
    if nodes != [] {
      var conn := Live(outputs(nodes[0]), gone);
      if conn != [] {
        LiveExactly(outputs(nodes[0]), gone);
        assert conn[0] in conn && nodes[0] in nodes;
      }
      if Passable(AsWritten, solver, nodes[0], outputs, gone) {
        var here := NodeRemovals(AsWritten, solver, nodes[0], outputs, gone);
        ReadersAgree(solver, nodes[1..], outputs, gone + here);
      }
    }
  }

  // ---------------------------------------------------- deleting one pose

  /**
   * The scene around one pose `n` of a solver as `add_pose` wires it: the
   * matrix node `mx[j]` of driven transform `j` plugged into
   * `blenders[j].poses[at[j]]`, the driver's node plugged into
   * `targets[n].targetValues[0]`, and the nodes listed in `PoseNodes`
   * order.
   */
  predicate PoseWiring(solver: string, n: nat, mx: seq<string>, driver: string, blenders: seq<string>, at: seq<nat>,
                       outputs: string -> seq<string>)
  {
    && |mx| == |blenders| == |at| && mx != []
    && Text.Free(solver, '[') && Text.Free(solver, '.')
    && (forall j :: 0 <= j < |blenders| ==> Text.Free(blenders[j], '[') && Text.Free(blenders[j], '.'))
    && (forall j :: 0 <= j < |mx| ==> outputs(mx[j]) == [BlenderPlug(blenders[j], at[j])])
    && outputs(driver) == [DriverPlug(solver, n)]
    && !Text.Contains(DriverPlug(solver, n), PosesAttr + "[")
  }

  /**
   * When the first driven transform's blender entry has the pose's own
   * index, its removal of `targets[n]` breaks the driver node's connection
   * before the loop reaches it, and the index as written does no harm: both
   * ways of reading it delete alike.
   */
  lemma DeleteInStep(solver: string, n: nat, mx: seq<string>, driver: string, blenders: seq<string>, at: seq<nat>,
                     outputs: string -> seq<string>)
    requires PoseWiring(solver, n, mx, driver, blenders, at, outputs) && at[0] == n
    ensures var nodes := DriverSecond(mx, driver);
      DeleteNodes(AsWritten, solver, nodes, outputs, []) == DeleteNodes(FirstBrackets, solver, nodes, outputs, [])
  {
    DeleteInStepBy(AsWritten, solver, n, mx, driver, blenders, at, outputs);
    DeleteInStepBy(FirstBrackets, solver, n, mx, driver, blenders, at, outputs);
    BlenderNodesAgree(solver, mx, blenders, at, outputs);
    ReadersAgree(solver, mx[1..], outputs, BlenderDrops(solver, blenders[0], n));
  }

  /** In step, the driver's node removes nothing, and the loop goes on with the other driven nodes. */
  lemma DeleteInStepBy(reader: Reader, solver: string, n: nat, mx: seq<string>, driver: string, blenders: seq<string>, at: seq<nat>,
                       outputs: string -> seq<string>)
    requires PoseWiring(solver, n, mx, driver, blenders, at, outputs) && at[0] == n
    ensures var first := BlenderDrops(solver, blenders[0], n);
      && Passable(reader, solver, driver, outputs, first) && NodeRemovals(reader, solver, driver, outputs, first) == []
      && var rest := DeleteNodes(reader, solver, mx[1..], outputs, first);
      DeleteNodes(reader, solver, DriverSecond(mx, driver), outputs, []) == (first + rest.0, [mx[0], driver] + rest.1, rest.2)
  {
    var nodes := DriverSecond(mx, driver);
    var first := BlenderDrops(solver, blenders[0], n);
    DriverCut(solver, n, blenders[0]);
    assert nodes[0] == mx[0] && nodes[1] == driver && nodes[2..] == mx[1..] && nodes[..2] == [mx[0], driver];
    FirstNodeDrops(reader, solver, mx[0], blenders[0], n, outputs);
    assert first + [] == first;
    NodeCut(reader, solver, driver, outputs, first);
    DeleteFirstTwo(reader, solver, nodes, outputs, first, []);
  }

  /** A node whose one connection is broken is deleted and removes nothing. */
  lemma NodeCut(reader: Reader, solver: string, node: string, outputs: string -> seq<string>, gone: seq<string>)
    requires |outputs(node)| == 1 && Broken(outputs(node)[0], gone)
    ensures Passable(reader, solver, node, outputs, gone) && NodeRemovals(reader, solver, node, outputs, gone) == []
  {
    var plugs := outputs(node);
    assert plugs[1..] == [];
    assert Live(plugs, gone) == [] + Live([], gone);
  }

  /** Blender matrix nodes are read alike both ways. */
  lemma BlenderNodesAgree(solver: string, ms: seq<string>, bs: seq<string>, ats: seq<nat>, outputs: string -> seq<string>)
    requires |ms| == |bs| == |ats|
    requires forall j :: 0 <= j < |bs| ==> Text.Free(bs[j], '[') && Text.Free(bs[j], '.')
    requires forall j :: 0 <= j < |ms| ==> outputs(ms[j]) == [BlenderPlug(bs[j], ats[j])]
    ensures forall x, p :: x in ms && p in outputs(x) ==> RemovalsBy(AsWritten, solver, p) == RemovalsBy(FirstBrackets, solver, p)
  {
    forall x, p | x in ms && p in outputs(x)
      ensures RemovalsBy(AsWritten, solver, p) == RemovalsBy(FirstBrackets, solver, p)
    {
      var i :| 0 <= i < |ms| && ms[i] == x;
      BlenderPlugRemovals(solver, bs[i], ats[i], AsWritten);
      BlenderPlugRemovals(solver, bs[i], ats[i], FirstBrackets);
    }
  }

  /** The first node of a pose, plugged into `blender.poses[i]`, removes `BlenderDrops` under both readers. */
  lemma FirstNodeDrops(reader: Reader, solver: string, node: string, blender: string, i: nat, outputs: string -> seq<string>)
    requires Text.Free(blender, '[') && Text.Free(blender, '.') && outputs(node) == [BlenderPlug(blender, i)]
    ensures Passable(reader, solver, node, outputs, []) && NodeRemovals(reader, solver, node, outputs, []) == BlenderDrops(solver, blender, i)
  {
    BlenderPlugRemovals(solver, blender, i, reader);
    LiveBefore(outputs(node));
  }

  /** Removing `targets[n]` breaks the driver plug of pose `n`. */
  lemma DriverCut(solver: string, n: nat, blender: string)
    ensures Broken(DriverPlug(solver, n), BlenderDrops(solver, blender, n))
  {
    var first := BlenderDrops(solver, blender, n);
    var target := Indexed(solver + TargetsAttr, Text.NatToString(n));
    NestedShape(solver + TargetsAttr, Text.NatToString(n), ValuesAttr, Text.NatToString(0));
    UnderChild(target, ValuesAttr + Indexed([], Text.NatToString(0)));
    assert first[3] == target && target in first;
    BrokenUnder(DriverPlug(solver, n), first);
  }

  /** The loop over the first two nodes of a pose, when it gets past them, and then the rest. */
  lemma DeleteFirstTwo(reader: Reader, solver: string, nodes: seq<string>, outputs: string -> seq<string>, a: seq<string>, b: seq<string>)
    requires |nodes| >= 2
    requires Passable(reader, solver, nodes[0], outputs, []) && NodeRemovals(reader, solver, nodes[0], outputs, []) == a
    requires Passable(reader, solver, nodes[1], outputs, a) && NodeRemovals(reader, solver, nodes[1], outputs, a) == b
    ensures var rest := DeleteNodes(reader, solver, nodes[2..], outputs, a + b);
      DeleteNodes(reader, solver, nodes, outputs, []) == (a + b + rest.0, nodes[..2] + rest.1, rest.2)
  {
    DeleteNodesCons(reader, solver, nodes, outputs, []);
    assert [] + a == a;
    var tail := nodes[1..];
    assert tail[0] == nodes[1] && tail[1..] == nodes[2..];
    DeleteNodesCons(reader, solver, tail, outputs, a);
    JoinTwo(DeleteNodes(reader, solver, nodes, outputs, []), DeleteNodes(reader, solver, tail, outputs, a),
      DeleteNodes(reader, solver, nodes[2..], outputs, a + b), nodes, a, b);
  }

  lemma JoinTwo(r0: (seq<string>, seq<string>, bool), r1: (seq<string>, seq<string>, bool), r2: (seq<string>, seq<string>, bool),
                nodes: seq<string>, a: seq<string>, b: seq<string>)
    requires |nodes| >= 2
    requires r0 == (a + r1.0, [nodes[0]] + r1.1, r1.2) && r1 == (b + r2.0, [nodes[1]] + r2.1, r2.2)
    ensures r0 == (a + b + r2.0, nodes[..2] + r2.1, r2.2)
  {
    assert a + (b + r2.0) == a + b + r2.0;
    assert [nodes[0]] + ([nodes[1]] + r2.1) == nodes[..2] + r2.1;
  }

  /** Two names free of `.` that start plugs one of which extends the other are the same. */
  lemma SameNode(s: string, x: string, b: string, y: string)
    requires Text.Free(s, '.') && Text.Free(b, '.')
    requires Text.StartsWith(s + "." + x, b + "." + y)
    ensures s == b
  {
    var u := s + "." + x;
    var v := b + "." + y;
    assert u[..|v|] == v;
    assert u == b + "." + (y + u[|v|..]);
    Text.BeforeFirstOf(s, '.', x);
    Text.BeforeFirstOf(b, '.', y + u[|v|..]);
  }

  /** Plugs of one node whose attribute names start differently do not extend each other. */
  lemma OtherAttr(s: string, x: string, y: string)
    requires x != [] && y != [] && x[0] != y[0]
    ensures !Text.StartsWith(s + "." + x, s + "." + y)
  {
    var u := s + "." + x;
    var v := s + "." + y;
    assert u[|s| + 1] == x[0] && v[|s| + 1] == y[0];
  }

  /** `c + str(k) + "]."` does not start `c + str(n) + "]" + tail` unless `k` is `n`. */
  lemma OtherIndex(c: string, k: nat, n: nat, tail: string)
    requires k != n
    ensures !Text.StartsWith(c + Text.NatToString(n) + "]" + tail, c + Text.NatToString(k) + "].")
  {
    var ks, ns := Text.NatToString(k), Text.NatToString(n);
    var u := c + ns + "]" + tail;
    var v := c + ks + "].";
    if Text.StartsWith(u, v) {
      var w := ns + [']'] + tail;
      assert u == c + w;
      assert u[..|v|] == v;
      assert w[..|ks| + 1] == ks + [']'] by {
        assert w[..|ks| + 1] == u[|c|..|c| + |ks| + 1];
        assert v[|c|..|c| + |ks| + 1] == ks + [']'];
      }
      assert w == ks + [']'] + w[|ks| + 1..];
      DigitsHaveNoBrackets(k);
      DigitsHaveNoBrackets(n);
      Text.BeforeFirstOf(ns, ']', tail);
      Text.BeforeFirstOf(ks, ']', w[|ks| + 1..]);
      Text.ParseFormattedIndex(k);
      Text.ParseFormattedIndex(n);
    }
  }

  /** The driver plug, split where the proof of `DriverSurvives` compares it. */
  lemma DriverShape(solver: string, dn: string, z: string)
    ensures var d := Indexed(Indexed(solver + TargetsAttr, dn) + ValuesAttr, z);
      && d + "." == solver + "." + ("targets[" + dn + "].targetValues[" + z + "].")
      && d + "." == solver + ".targets[" + dn + "]" + (".targetValues[" + z + "].")
  {
    var t := ".targets[";
    var v := "].targetValues[";
    var e := "].";
    assert TargetsAttr + ['['] == t && ['.'] + "targets[" == t;
    assert [']'] + ValuesAttr + ['['] == v && [']'] + ".targetValues[" == v;
    assert [']'] + "." == e;
    var d := Indexed(Indexed(solver + TargetsAttr, dn) + ValuesAttr, z);
    calc {
      d + ".";
    ==
      solver + TargetsAttr + ['['] + dn + [']'] + ValuesAttr + ['['] + z + [']'] + ".";
    ==
      solver + (TargetsAttr + ['[']) + dn + ([']'] + ValuesAttr + ['[']) + z + ([']'] + ".");
    ==
      solver + t + dn + v + z + e;
    }
    assert solver + t + dn + v + z + e == solver + "." + ("targets[" + dn + "].targetValues[" + z + "].");
    assert solver + t + dn + v + z + e == solver + ".targets[" + dn + "]" + (".targetValues[" + z + "].");
  }

  /** The first node's removals, each followed by a dot. */
  lemma DropsShape(solver: string, blender: string, k: string)
    ensures Indexed(blender + PosesAttr, k) + "." == blender + "." + ("poses[" + k + "].")
    ensures Indexed(blender + WeightsAttr, k) + "." == blender + "." + ("weights[" + k + "].")
    ensures Indexed(solver + OutputsAttr, k) + "." == solver + "." + ("outputs[" + k + "].")
    ensures Indexed(solver + TargetsAttr, k) + "." == solver + ".targets[" + k + "]."
  {
  }

  /**
   * When the first driven transform's blender entry `at0` is not the pose's
   * own index `n`, the driver's connection survives the first node's
   * removals.
   */
  lemma DriverSurvives(solver: string, n: nat, blender: string, at0: nat)
    requires Text.Free(solver, '.') && Text.Free(blender, '.') && solver != blender && at0 != n
    ensures !Broken(DriverPlug(solver, n), BlenderDrops(solver, blender, at0))
  {
    var d := DriverPlug(solver, n);
    var k := Text.NatToString(at0);
    var dn := Text.NatToString(n);
    var z := Text.NatToString(0);
    var tail := "targets[" + dn + "].targetValues[" + z + "].";
    DriverShape(solver, dn, z);
    var drops := BlenderDrops(solver, blender, at0);
    DropsShape(solver, blender, k);
    forall g | g in drops ensures !Under(d, g) {
      if g == drops[0] && Under(d, g) {
        SameNode(solver, tail, blender, "poses[" + k + "].");
      } else if g == drops[1] && Under(d, g) {
        SameNode(solver, tail, blender, "weights[" + k + "].");
      } else if g == drops[2] {
        OtherAttr(solver, tail, "outputs[" + k + "].");
      } else if g == drops[3] {
        OtherIndex(solver + ".targets[", at0, n, ".targetValues[" + z + "].");
      }
    }
    BrokenUnder(d, drops);
  }

  /**
   * As written, when the first driven transform's blender entry `at[0]` is
   * not pose `n`'s own index, the driver's matrix node removes the solver's
   * output and target 0, the base pose's, in place of pose `n`'s.
   */
  lemma DeleteMisreadsDriver(solver: string, n: nat, mx: seq<string>, driver: string, blenders: seq<string>, at: seq<nat>,
                             outputs: string -> seq<string>)
    requires PoseWiring(solver, n, mx, driver, blenders, at, outputs) && at[0] != n && solver != blenders[0]
    ensures var r := DeleteNodes(AsWritten, solver, DriverSecond(mx, driver), outputs, []);
      |r.0| >= 6 && r.0[4..6] == [Indexed(solver + OutputsAttr, Text.NatToString(0)), Indexed(solver + TargetsAttr, Text.NatToString(0))]
  {
    DeleteDriverAfterFirst(AsWritten, solver, n, mx, driver, blenders, at, outputs);
    DriverPlugAsWritten(solver, n);
  }

  /**
   * Read from the first brackets, the driver's matrix node of pose `n`
   * removes pose `n`'s own output and target whenever the first node's
   * removals leave its connection in place.
   */
  lemma DeleteReadsDriver(solver: string, n: nat, mx: seq<string>, driver: string, blenders: seq<string>, at: seq<nat>,
                          outputs: string -> seq<string>)
    requires PoseWiring(solver, n, mx, driver, blenders, at, outputs) && at[0] != n && solver != blenders[0]
    ensures var r := DeleteNodes(FirstBrackets, solver, DriverSecond(mx, driver), outputs, []);
      |r.0| >= 6 && r.0[4..6] == [Indexed(solver + OutputsAttr, Text.NatToString(n)), Indexed(solver + TargetsAttr, Text.NatToString(n))]
  {
    DeleteDriverAfterFirst(FirstBrackets, solver, n, mx, driver, blenders, at, outputs);
    DriverPlugRemovals(solver, n);
  }

  /** The loop's removals for the first node of a pose and then its driver node, whose connection is live. */
  lemma DeleteDriverAfterFirst(reader: Reader, solver: string, n: nat, mx: seq<string>, driver: string, blenders: seq<string>, at: seq<nat>,
                               outputs: string -> seq<string>)
    requires PoseWiring(solver, n, mx, driver, blenders, at, outputs) && at[0] != n && solver != blenders[0]
    ensures var r := DeleteNodes(reader, solver, DriverSecond(mx, driver), outputs, []);
      && RemovalsBy(reader, solver, DriverPlug(solver, n)).Ok?
      && |r.0| >= 6 && r.0[..4] == BlenderDrops(solver, blenders[0], at[0])
      && r.0[4..6] == RemovalsBy(reader, solver, DriverPlug(solver, n)).value
  {
    var nodes := DriverSecond(mx, driver);
    var first := BlenderDrops(solver, blenders[0], at[0]);
    FirstNodeDrops(reader, solver, mx[0], blenders[0], at[0], outputs);
    DriverSurvives(solver, n, blenders[0], at[0]);
    if reader == AsWritten {
      DriverPlugAsWritten(solver, n);
    } else {
      DriverPlugRemovals(solver, n);
    }
    NodeLive(reader, solver, driver, outputs, first);
    var second := RemovalsBy(reader, solver, DriverPlug(solver, n)).value;
    assert nodes[0] == mx[0] && nodes[1] == driver;
    DeleteFirstTwo(reader, solver, nodes, outputs, first, second);
    var rest := DeleteNodes(reader, solver, nodes[2..], outputs, first + second);
    SliceTwo(first, second, rest.0);
  }

  /** A node whose one connection is live and readable removes what its plug reads. */
  lemma NodeLive(reader: Reader, solver: string, node: string, outputs: string -> seq<string>, gone: seq<string>)
    requires |outputs(node)| == 1 && !Broken(outputs(node)[0], gone) && RemovalsBy(reader, solver, outputs(node)[0]).Ok?
    ensures Passable(reader, solver, node, outputs, gone)
    ensures NodeRemovals(reader, solver, node, outputs, gone) == RemovalsBy(reader, solver, outputs(node)[0]).value
  {
    var plugs := outputs(node);
    assert plugs[1..] == [];
    assert Live(plugs, gone) == [plugs[0]] + Live([], gone);
  }

  lemma SliceTwo(a: seq<string>, b: seq<string>, c: seq<string>)
    requires |a| == 4 && |b| == 2
    ensures |a + b + c| >= 6 && (a + b + c)[..4] == a && (a + b + c)[4..6] == b
  {
    assert (a + b + c)[..4] == a;
    assert (a + b + c)[4..6] == b;
  }

  /** `xs` without the elements of `ys`, in order. */
  function Without(xs: seq<string>, ys: seq<string>): (r: seq<string>)
    ensures forall x :: x in r <==> x in xs && x !in ys
  {
    if xs == [] then []
    else
      assert xs == [xs[0]] + xs[1..];
      (if xs[0] in ys then [] else [xs[0]]) + Without(xs[1..], ys)
  }

  /** Deleting nodes drops their message connections. */
  function Unlink(links: map<string, seq<string>>, gone: seq<string>): map<string, seq<string>>
  {
    map a | a in links :: Without(links[a], gone)
  }

  /**
   * `delete_pose(name)`, with the index read by `reader`: (removed
   * multi-instances, deleted nodes, the solver afterwards). Nothing happens
   * for a pose that is not listed or has no nodes; `stored_pose_<name>` is
   * deleted only when the loop ran to its end.
   */
  function Deleted(reader: Reader, r: Rig, name: string, outputs: string -> seq<string>): (seq<string>, seq<string>, Rig)
  {
    var entry := OD.Lookup(PoseTable(r.attrs, r.links), name);
    if entry.None? || entry.value.None? then ([], [], r)
    else
      var nodes := entry.value.value;
      var run := DeleteNodes(reader, r.solver, nodes, outputs, []);
      var links := Unlink(r.links, run.1);
      var a := StoredPrefix + name;
      if run.2 && a in r.attrs then (run.0, run.1, r.(attrs := Without(r.attrs, [a]), links := links - {a}))
      else (run.0, run.1, r.(links := links))
  }

  /**
   * A pose stored under its own attribute only, whose loop runs to its
   * end, is no longer listed after `delete_pose`, and every other pose
   * still is.
   */
  lemma DeleteUnlists(reader: Reader, r: Rig, name: string, outputs: string -> seq<string>, nodes: seq<string>)
    requires OD.Lookup(PoseTable(r.attrs, r.links), name) == Some(Some(nodes))
    requires forall a :: a in r.attrs && Text.StartsWith(a, StoredPrefix) && StoredName(a) == name ==> a == StoredPrefix + name
    requires DeleteNodes(reader, r.solver, nodes, outputs, []).2
    ensures DeleteNodes(reader, r.solver, nodes, outputs, []).1 == nodes
    ensures name !in PoseNames(Deleted(reader, r, name, outputs).2)
    ensures forall k :: k != name ==> (k in PoseNames(Deleted(reader, r, name, outputs).2) <==> k in PoseNames(r))
  {
    var a := StoredPrefix + name;
    var q := Deleted(reader, r, name, outputs).2;
    DeleteNodesDeletes(reader, r.solver, nodes, outputs, []);
    PoseTableKeys(r.attrs, r.links);
    PoseTableKeys(q.attrs, q.links);
    assert Stored(r.attrs, name);
    assert a in r.attrs;
    assert q.attrs == Without(r.attrs, [a]);
    forall k ensures Stored(q.attrs, k) <==> Stored(r.attrs, k) && k != name {
      if Stored(r.attrs, k) && k != name {
        var x :| x in r.attrs && Text.StartsWith(x, StoredPrefix) && StoredName(x) == k;
        assert x in q.attrs;
      }
    }
  }

  // ------------------------------------------------------ mirror_pose_driver

  datatype Action = Added(pose: string) | Updated(pose: string)

  /**
   * The poses `mirror_pose_driver` handles: never one holding `base_pose`,
   * and only the requested one when a pose name is given.
   */
  predicate Selected(p: string, only: Option<string>)
  {
    (only.None? || only.value == [] || only.value == p) && !Text.Contains(p, BasePose)
  }

  /** One pose: the mirrored pose is added when the target lacks it, and updated otherwise. */
  function MirrorStep(t: Rig, p: string, only: Option<string>, sides: (string, string)): (seq<Action>, Rig)
  {
    if !Selected(p, only) then ([], t)
    else
      var tp := Swap(p, sides);
      if tp in PoseNames(t) then ([Updated(tp)], t) else ([Added(tp)], WithPose(t, tp))
  }

  /** The loop over the source poses, in order, against the target's changing state. */
  function MirrorRun(t: Rig, ps: seq<string>, only: Option<string>, sides: (string, string)): (seq<Action>, Rig)
    decreases |ps|
  {
    if ps == [] then ([], t)
    else
      var s := MirrorStep(t, ps[0], only, sides);
      var rest := MirrorRun(s.1, ps[1..], only, sides);
      (s.0 + rest.0, rest.1)
  }

  /** The mirrored names of the selected poses, in order. */
  function Targets(ps: seq<string>, only: Option<string>, sides: (string, string)): seq<string>
    decreases |ps|
  {
    if ps == [] then []
    else (if Selected(ps[0], only) then [Swap(ps[0], sides)] else []) + Targets(ps[1..], only, sides)
  }

  function Names(actions: seq<Action>): (r: seq<string>)
    ensures |r| == |actions| && forall i :: 0 <= i < |actions| ==> r[i] == actions[i].pose
  {
    seq(|actions|, i requires 0 <= i < |actions| => actions[i].pose)
  }

  /** An `Added` action for each name, in order. */
  function Adds(ts: seq<string>): seq<Action>
  {
    seq(|ts|, i requires 0 <= i < |ts| => Added(ts[i]))
  }

  /** An `Updated` action for each name, in order. */
  function Updates(ts: seq<string>): seq<Action>
  {
    seq(|ts|, i requires 0 <= i < |ts| => Updated(ts[i]))
  }

  predicate Distinct<T(==)>(xs: seq<T>)
  {
    forall i, j :: 0 <= i < j < |xs| ==> xs[i] != xs[j]
  }

  /** Exactly one action per selected pose, about its mirrored name, in order. */
  lemma {:induction false} MirrorRunNames(t: Rig, ps: seq<string>, only: Option<string>, sides: (string, string))
    ensures Names(MirrorRun(t, ps, only, sides).0) == Targets(ps, only, sides)
    decreases |ps|
  {
    if ps != [] {
      var s := MirrorStep(t, ps[0], only, sides);
      MirrorRunNames(s.1, ps[1..], only, sides);
      var rest := MirrorRun(s.1, ps[1..], only, sides).0;
      assert Names(s.0 + rest) == Names(s.0) + Names(rest);
    }
  }

  /** Names `add_pose` can add to a solver listing `names`: new, nonempty and free of the stored prefix. */
  predicate Addable(ts: seq<string>, names: seq<string>)
  {
    forall k :: k in ts ==> k != [] && !Text.Contains(k, StoredPrefix) && k !in names
  }

  lemma AddableTail(x: string, xs: seq<string>, names: seq<string>)
    requires Distinct([x] + xs) && Addable([x] + xs, names)
    ensures Distinct(xs) && Addable(xs, names + [x])
    ensures x != [] && !Text.Contains(x, StoredPrefix) && x !in names
  {
    DistinctTail(x, xs);
    assert x in [x] + xs;
    forall k | k in xs ensures k in [x] + xs {
    }
  }

  lemma DistinctTail(x: string, xs: seq<string>)
    requires Distinct([x] + xs)
    ensures Distinct(xs) && x !in xs
  {
    var ys := [x] + xs;
    forall i, j | 0 <= i < j < |xs| ensures xs[i] != xs[j] {
      assert xs[i] == ys[i + 1] && xs[j] == ys[j + 1];
    }
    forall j | 0 <= j < |xs| ensures xs[j] != x {
      assert ys[0] != ys[j + 1];
    }
  }

  lemma AddsCons(x: string, xs: seq<string>)
    ensures Adds([x] + xs) == [Added(x)] + Adds(xs)
  {
    var ys := [x] + xs;
    forall i | 0 <= i < |ys| ensures Adds(ys)[i] == ([Added(x)] + Adds(xs))[i] {
      if i > 0 {
        assert ys[i] == xs[i - 1];
      }
    }
  }

  /**
   * Onto a target that lists none of the mirrored names, each selected pose
   * is added, and the target then lists its old poses followed by the
   * mirrored ones.
   */
  lemma {:induction false} MirrorRunAdds(t: Rig, ps: seq<string>, only: Option<string>, sides: (string, string))
    requires t.driven != []
    requires Distinct(Targets(ps, only, sides)) && Addable(Targets(ps, only, sides), PoseNames(t))
    ensures var run := MirrorRun(t, ps, only, sides); var ts := Targets(ps, only, sides);
      && run.0 == Adds(ts)
      && PoseNames(run.1) == PoseNames(t) + ts
      && run.1.driven == t.driven && run.1.solver == t.solver
    decreases |ps|, 1
  {
    if ps == [] {
      assert Adds([]) == [];
    } else if Selected(ps[0], only) {
      MirrorRunAddsHead(t, ps, only, sides);
    } else {
      assert Targets(ps, only, sides) == Targets(ps[1..], only, sides);
      MirrorRunAdds(t, ps[1..], only, sides);
    }
  }

  /** `MirrorRunAdds` when the first source pose is selected. */
  lemma {:induction false} MirrorRunAddsHead(t: Rig, ps: seq<string>, only: Option<string>, sides: (string, string))
    requires ps != [] && Selected(ps[0], only) && t.driven != []
    requires Distinct(Targets(ps, only, sides)) && Addable(Targets(ps, only, sides), PoseNames(t))
    ensures var run := MirrorRun(t, ps, only, sides); var ts := Targets(ps, only, sides);
      && run.0 == Adds(ts)
      && PoseNames(run.1) == PoseNames(t) + ts
      && run.1.driven == t.driven && run.1.solver == t.solver
    decreases |ps|, 0
  {
    var tp := Swap(ps[0], sides);
    var ts' := Targets(ps[1..], only, sides);
    assert Targets(ps, only, sides) == [tp] + ts';
    AddableTail(tp, ts', PoseNames(t));
    AddPoseListed(t, tp);
    MirrorRunAdds(WithPose(t, tp), ps[1..], only, sides);
    MirrorRunAddsJoin(t, ps, only, sides, tp, ts');
  }

  /** The first pose is added, and the rest of the run goes on from the target with it. */
  lemma MirrorRunAddsJoin(t: Rig, ps: seq<string>, only: Option<string>, sides: (string, string), tp: string, ts': seq<string>)
    requires ps != [] && Selected(ps[0], only) && tp == Swap(ps[0], sides) && tp !in PoseNames(t)
    requires PoseNames(WithPose(t, tp)) == PoseNames(t) + [tp]
    requires var rest := MirrorRun(WithPose(t, tp), ps[1..], only, sides); rest.0 == Adds(ts') && PoseNames(rest.1) == PoseNames(t) + [tp] + ts'
    ensures var run := MirrorRun(t, ps, only, sides); run.0 == Adds([tp] + ts') && PoseNames(run.1) == PoseNames(t) + ([tp] + ts')
  {
    AddsCons(tp, ts');
    assert PoseNames(t) + [tp] + ts' == PoseNames(t) + ([tp] + ts');
  }

  /** Onto a target that lists every mirrored name, each selected pose is updated and nothing is added. */
  lemma {:induction false} MirrorRunUpdates(t: Rig, ps: seq<string>, only: Option<string>, sides: (string, string))
    requires forall k :: k in Targets(ps, only, sides) ==> k in PoseNames(t)
    ensures var ts := Targets(ps, only, sides);
      MirrorRun(t, ps, only, sides) == (Updates(ts), t)
    decreases |ps|
  {
    if ps != [] {
      var ts := Targets(ps, only, sides);
      var ts' := Targets(ps[1..], only, sides);
      var head := if Selected(ps[0], only) then [Swap(ps[0], sides)] else [];
      assert ts == head + ts';
      assert forall k :: k in ts' ==> k in ts;
      MirrorRunUpdates(t, ps[1..], only, sides);
      var updated := Updates(ts);
      var updated' := Updates(ts');
      var step := MirrorStep(t, ps[0], only, sides);
      if Selected(ps[0], only) {
        assert ts[0] == Swap(ps[0], sides) && ts[0] in ts;
        assert step == ([Updated(ts[0])], t);
        assert updated == [Updated(ts[0])] + updated';
      } else {
        assert step == ([], t);
        assert updated == [] + updated';
      }
      assert MirrorRun(t, ps, only, sides) == (step.0 + updated', t);
      assert step.0 + updated' == updated;
    } else {
      assert Updates([]) == [];
    }
  }

  /**
   * Mirroring a second time onto the target the first run produced only
   * updates poses and leaves what the target lists unchanged.
   */
  lemma MirrorTwiceUpdates(t: Rig, ps: seq<string>, only: Option<string>, sides: (string, string))
    requires t.driven != []
    requires Distinct(Targets(ps, only, sides)) && Addable(Targets(ps, only, sides), PoseNames(t))
    ensures var first := MirrorRun(t, ps, only, sides).1;
      var ts := Targets(ps, only, sides);
      MirrorRun(first, ps, only, sides) == (Updates(ts), first)
  {
    MirrorRunAdds(t, ps, only, sides);
    MirrorRunUpdates(MirrorRun(t, ps, only, sides).1, ps, only, sides);
  }

  /** What is left of the mirror loop after `actions` were done on `ps[..i]`. */
  predicate MirrorRest(goal: (seq<Action>, Rig), actions: seq<Action>, t: Rig, ps: seq<string>, i: nat, only: Option<string>, sides: (string, string))
    requires i <= |ps|
  {
    var run := MirrorRun(t, ps[i..], only, sides);
    (actions + run.0, run.1) == goal
  }

  lemma MirrorRestStart(t: Rig, ps: seq<string>, only: Option<string>, sides: (string, string))
    ensures MirrorRest(MirrorRun(t, ps, only, sides), [], t, ps, 0, only, sides)
  {
    assert ps[0..] == ps;
    assert [] + MirrorRun(t, ps, only, sides).0 == MirrorRun(t, ps, only, sides).0;
  }

  lemma MirrorRestStep(goal: (seq<Action>, Rig), actions: seq<Action>, t: Rig, ps: seq<string>, i: nat, only: Option<string>, sides: (string, string))
    requires i < |ps| && MirrorRest(goal, actions, t, ps, i, only, sides)
    ensures var s := MirrorStep(t, ps[i], only, sides); MirrorRest(goal, actions + s.0, s.1, ps, i + 1, only, sides)
  {
    var s := MirrorStep(t, ps[i], only, sides);
    var rest := MirrorRun(s.1, ps[i + 1..], only, sides);
    assert ps[i..][0] == ps[i] && ps[i..][1..] == ps[i + 1..];
    assert actions + (s.0 + rest.0) == (actions + s.0) + rest.0;
  }

  lemma MirrorRestEnd(goal: (seq<Action>, Rig), actions: seq<Action>, t: Rig, ps: seq<string>, only: Option<string>, sides: (string, string))
    requires MirrorRest(goal, actions, t, ps, |ps|, only, sides)
    ensures goal == (actions, t)
  {
    assert ps[|ps|..] == [];
    assert actions + [] == actions;
  }

  /** The mirrored solver's names: solver, driving and driven swapped with the source solver's sides. */
  function MirrorTarget(source: Rig): Rig
  {
    var sides := Sides(source.solver);
    var name := Text.Replace(Swap(source.solver, sides), SolverSuffix, "");
    CreatedRig(name, Swap(source.driving, sides),
      seq(|source.driven|, j requires 0 <= j < |source.driven| => Swap(source.driven[j], sides)))
  }

  /** The loop of `delete_pose` over a pose's matrix nodes, each asked for its connections once the removals before are done. */
  method DeleteNodesLoop(reader: Reader, solver: string, nodes: seq<string>, outputs: string -> seq<string>)
    returns (removed: seq<string>, deleted: seq<string>, ok: bool)
    ensures (removed, deleted, ok) == DeleteNodes(reader, solver, nodes, outputs, [])
  {
    removed, deleted, ok := [], [], true;
    var i := 0;
    ghost var all := DeleteNodes(reader, solver, nodes, outputs, []);
    DeleteRestStart(reader, solver, nodes, outputs);
    while i < |nodes| && ok
      invariant 0 <= i <= |nodes|
      invariant ok ==> DeleteRest(all, removed, deleted, reader, solver, nodes, i, outputs)
      invariant !ok ==> (removed, deleted, false) == all
      decreases |nodes| - i + (if ok then 1 else 0)
    {
      var conns := Live(outputs(nodes[i]), removed);
      var here := if conns == [] then Ok([]) else RemovalsBy(reader, solver, conns[0]);
      if here.Err? {
        DeleteRestStop(all, removed, deleted, reader, solver, nodes, i, outputs);
        ok := false;
      } else {
        DeleteRestPass(all, removed, deleted, reader, solver, nodes, i, outputs);
        removed := removed + here.value;
        deleted := deleted + [nodes[i]];
        i := i + 1;
      }
    }
    if ok {
      DeleteRestEnd(all, removed, deleted, reader, solver, nodes, outputs);
    }
  }

  /** A v1 solver in the scene, wrapped by `UE4PoseDriver`. */
  class PoseDriver {
    var solver: string
    var driving: string
    var driven: seq<string>
    var attrs: seq<string>
    var links: map<string, seq<string>>

    function State(): Rig
      reads this
    {
      Rig(solver, driving, driven, attrs, links)
    }

    /** `UE4PoseDriver(existing_interpolator=...)` on an existing solver node. */
    constructor Existing(r: Rig)
      ensures State() == r
    {
      solver, driving, driven, attrs, links := r.solver, r.driving, r.driven, r.attrs, r.links;
    }

    /** `UE4PoseDriver().create_pose_driver_system(name, driving, driven)`. */
    constructor Create(name: string, input: string, outputs: seq<string>)
      ensures State() == CreatedRig(name, input, outputs)
    {
      var r := CreatedRig(name, input, outputs);
      solver, driving, driven, attrs, links := r.solver, r.driving, r.driven, r.attrs, r.links;
    }

    /** `pose_dict`: the `stored_pose_*` attributes read one by one. */
    method PoseDict() returns (d: PoseMap)
      ensures d == PoseTable(attrs, links)
    {
      d := [];
      var i := 0;
      while i < |attrs|
        invariant 0 <= i <= |attrs|
        invariant d == PoseTable(attrs[..i], links)
      {
        var a := attrs[i];
        assert attrs[..i + 1][..i] == attrs[..i];
        if Text.StartsWith(a, StoredPrefix) {
          d := OD.Put(d, StoredName(a), Connected(links, a));
        }
        i := i + 1;
      }
      assert attrs[..i] == attrs;
    }

    /** `add_pose(name)`. */
    method AddPose(name: string)
      modifies this
      ensures State() == WithPose(old(State()), name)
    {
      if name != [] && driven != [] {
        var a := StoredPrefix + name;
        var nodes := PoseNodes(State(), name);
        var before := if a in links then links[a] else [];
        if a !in attrs {
          attrs := attrs + [a];
        }
        links := links[a := before + nodes];
      }
    }

    /**
     * `delete_pose(name)`: the removed multi-instances and the deleted nodes,
     * with the pose index read as written, from the last brackets of each
     * plug.
     */
    method DeletePose(name: string, outputs: string -> seq<string>) returns (removed: seq<string>, deleted: seq<string>)
      modifies this
      ensures (removed, deleted, State()) == Deleted(AsWritten, old(State()), name, outputs)
    {
      var table := PoseDict();
      removed, deleted := [], [];
      var entry := OD.Lookup(table, name);
      if entry.None? || entry.value.None? {
        return;
      }
      var ok;
      removed, deleted, ok := DeleteNodesLoop(AsWritten, solver, entry.value.value, outputs);
      var a := StoredPrefix + name;
      var kept := Unlink(links, deleted);
      if ok && a in attrs {
        attrs := Without(attrs, [a]);
        links := kept - {a};
      } else {
        links := kept;
      }
    }

    /** One pass of the `mirror_pose_driver` loop: update the mirrored pose, or add it when missing. */
    method MirrorPose(p: string, only: Option<string>, sides: (string, string)) returns (done: seq<Action>)
      modifies this
      ensures (done, State()) == MirrorStep(old(State()), p, only, sides)
    {
      done := [];
      if Selected(p, only) {
        var tp := Swap(p, sides);
        var d := PoseDict();
        if tp in OD.Keys(d) {
          done := [Updated(tp)];
        } else {
          AddPose(tp);
          done := [Added(tp)];
        }
      }
    }

    /** The loop of `mirror_pose_driver` over the source poses, applied to this target solver. */
    method MirrorPoses(ps: seq<string>, only: Option<string>, sides: (string, string)) returns (actions: seq<Action>)
      modifies this
      ensures (actions, State()) == MirrorRun(old(State()), ps, only, sides)
    {
      ghost var goal := MirrorRun(State(), ps, only, sides);
      MirrorRestStart(State(), ps, only, sides);
      actions := [];
      var i := 0;
      while i < |ps|
        invariant 0 <= i <= |ps|
        invariant MirrorRest(goal, actions, State(), ps, i, only, sides)
      {
        MirrorRestStep(goal, actions, State(), ps, i, only, sides);
        var done := MirrorPose(ps[i], only, sides);
        actions := actions + done;
        i := i + 1;
      }
      MirrorRestEnd(goal, actions, State(), ps, only, sides);
    }
  }

  /**
   * `mirror_pose_driver(source, pose)`: the mirrored solver (the existing one
   * when the scene has it, else a new one on the mirrored names) and what
   * was done to it for each source pose.
   */
  method MirrorPoseDriver(source: PoseDriver, existing: PoseDriver?, pose: Option<string>)
    returns (target: PoseDriver, actions: seq<Action>)
    modifies if existing != null then {existing} else {}
    ensures existing != null ==> target == existing
    ensures existing == null ==> fresh(target)
    ensures var start := if existing == null then MirrorTarget(old(source.State())) else old(existing.State());
      (actions, target.State())
        == MirrorRun(start, OD.Keys(PoseTable(old(source.attrs), old(source.links))), pose, Sides(old(source.solver)))
  {
    var table := source.PoseDict();
    var ps := OD.Keys(table);
    var sides := Sides(source.solver);
    if existing == null {
      var r := MirrorTarget(source.State());
      target := new PoseDriver.Create(Text.Replace(Swap(source.solver, sides), SolverSuffix, ""), r.driving, r.driven);
    } else {
      target := existing;
    }
    actions := target.MirrorPoses(ps, pose, sides);
  }
}
