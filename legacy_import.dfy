/**
 * `import_drivers(file_path, driverFilter)` of the first-generation tool
 * (`v1/poseWrangler.py`): every driver of an exported file is found by its
 * solver name or created, its solver settings are written, its poses are
 * added when missing and their matrices are written, with the translation
 * of the driving transform put into the matrices of the nodes named after
 * it.
 *
 * The scene is a value: the solvers by node name (`Legacy.Rig`) and the
 * host writes made so far, in order. The current translation of a
 * transform is a parameter.
 */
module LegacyImport {
  import opened Wrappers
  import Text
  import OD = OrderedDict
  import Legacy

  /** A Maya matrix as the file stores it: a flat list, sixteen numbers long when well formed. */
  type Matrix = seq<real>

  datatype Vec3 = Vec3(x: real, y: real, z: real)

  /** One pose of the file: matrix node name to its local and its world matrix. */
  datatype PoseData = PoseData(localMap: OD.Dict<string, Matrix>, worldMap: OD.Dict<string, Matrix>)

  /** One driver of the file, under its name without the solver suffix. */
  datatype DriverData = DriverData(
    driving: string,
    driven: seq<string>,
    settings: OD.Dict<string, real>,
    poses: OD.Dict<string, PoseData>)

  /** The file's `drivers` dictionary. */
  type Document = OD.Dict<string, DriverData>

  datatype Space = Local | World

  /** The host writes of the import. */
  datatype Write =
    | Driving(solver: string, on: bool)                 // is_driving(on)
    | Setting(plug: string, value: real)                 // setAttr(solver.attr, value)
    | SetMatrix(space: Space, node: string, m: Matrix)  // setAttr(node.outputLocal/WorldMatrix, m)

  datatype Scene = Scene(rigs: map<string, Legacy.Rig>, log: seq<Write>)

  const PoseToken := "_pose"

  /** `if driverFilter: if not driver in driverFilter: continue`: an empty filter lets every driver through. */
  predicate Honoured(driver: string, filter: seq<string>)
  {
    filter == [] || driver in filter
  }

  // ------------------------------------------------------------ matrices

  /**
   * A matrix of a node whose name starts with the driving transform gets
   * that transform's current translation in elements 12 to 14; reading the
   * translation of a missing transform raises, and so does a list too
   * short for the assignments.
   */
  function Overwrite(node: string, m: Matrix, driving: string, translate: Option<Vec3>): (r: Result<Matrix>)
    ensures !Text.StartsWith(node, driving) ==> r == Ok(m)
    ensures Text.StartsWith(node, driving) ==> (r.Ok? <==> translate.Some? && |m| >= 15)
    ensures r.Err? ==> r.error == (if translate.None? then ValueError else IndexError)
    ensures r.Ok? ==> |r.value| == |m|
    ensures r.Ok? ==> forall k :: 0 <= k < |m| && (k < 12 || 14 < k) ==> r.value[k] == m[k]
    ensures r.Ok? && Text.StartsWith(node, driving) ==>
      r.value[12] == translate.value.x && r.value[13] == translate.value.y && r.value[14] == translate.value.z
  {
    if !Text.StartsWith(node, driving) then Ok(m)
    else if translate.None? then Err(ValueError)
    else if |m| < 15 then Err(IndexError)
    else Ok(m[12 := translate.value.x][13 := translate.value.y][14 := translate.value.z])
  }

  /** Overwriting an overwritten matrix changes nothing more. */
  lemma OverwriteTwice(node: string, m: Matrix, driving: string, translate: Option<Vec3>)
    requires Overwrite(node, m, driving, translate).Ok?
    ensures var m' := Overwrite(node, m, driving, translate).value;
      Overwrite(node, m', driving, translate) == Ok(m')
  {
    var m' := Overwrite(node, m, driving, translate).value;
    if Text.StartsWith(node, driving) {
      assert m'[12 := translate.value.x][13 := translate.value.y][14 := translate.value.z] == m';
    }
  }

  /** The loop writing one matrix map: each matrix, overwritten, in order, until one raises. */
  function MatrixWrites(d: OD.Dict<string, Matrix>, space: Space, driving: string, translate: Option<Vec3>): (seq<Write>, Outcome)
    decreases |d|
  {
    if d == [] then ([], Done)
    else
      match Overwrite(d[0].0, d[0].1, driving, translate)
      case Err(e) => ([], Err(e))
      case Ok(m) =>
        var rest := MatrixWrites(d[1..], space, driving, translate);
        ([SetMatrix(space, d[0].0, m)] + rest.0, rest.1)
  }

  /** The write for entry `i` of a matrix map, when its matrix can be overwritten. */
  predicate WroteEntry(w: Write, d: OD.Dict<string, Matrix>, i: nat, space: Space, driving: string, translate: Option<Vec3>)
    requires i < |d|
  {
    var o := Overwrite(d[i].0, d[i].1, driving, translate);
    o.Ok? && w == SetMatrix(space, d[i].0, o.value)
  }

  /**
   * The writes are one per entry, in order, for the entries up to the first
   * whose matrix raises; the loop succeeds exactly when it writes them all,
   * and otherwise fails with the error of the entry it stopped at.
   */
  lemma {:induction false} MatrixWritesPrefix(d: OD.Dict<string, Matrix>, space: Space, driving: string, translate: Option<Vec3>)
    ensures var r := MatrixWrites(d, space, driving, translate);
      && |r.0| <= |d|
      && (forall i :: 0 <= i < |r.0| ==> WroteEntry(r.0[i], d, i, space, driving, translate))
      && (r.1.Ok? <==> |r.0| == |d|)
      && (r.1.Err? ==> Overwrite(d[|r.0|].0, d[|r.0|].1, driving, translate) == Err(r.1.error))
    decreases |d|
  {
    if d != [] && Overwrite(d[0].0, d[0].1, driving, translate).Ok? {
      MatrixWritesPrefix(d[1..], space, driving, translate);
      var r := MatrixWrites(d, space, driving, translate);
      var rest := MatrixWrites(d[1..], space, driving, translate);
      forall i | 0 < i < |r.0| ensures WroteEntry(r.0[i], d, i, space, driving, translate) {
        assert r.0[i] == rest.0[i - 1] && d[i] == d[1..][i - 1];
        assert WroteEntry(rest.0[i - 1], d[1..], i - 1, space, driving, translate);
      }
      if rest.1.Err? {
        assert d[|r.0|] == d[1..][|rest.0|];
      }
    }
  }

  /** A matrix map holding no node of the driving transform is written exactly as the file has it. */
  lemma MatrixWritesVerbatim(d: OD.Dict<string, Matrix>, space: Space, driving: string, translate: Option<Vec3>)
    requires forall i :: 0 <= i < |d| ==> !Text.StartsWith(d[i].0, driving)
    ensures var r := MatrixWrites(d, space, driving, translate);
      && r.1.Ok? && |r.0| == |d|
      && forall i :: 0 <= i < |d| ==> r.0[i] == SetMatrix(space, d[i].0, d[i].1)
  {
    MatrixWritesPrefix(d, space, driving, translate);
    var r := MatrixWrites(d, space, driving, translate);
    forall i | 0 <= i < |d| ensures r.0[i] == SetMatrix(space, d[i].0, d[i].1) {
      assert WroteEntry(r.0[i], d, i, space, driving, translate);
    }
  }

  /** One pose's matrix loops: the local matrices, then (if they all went through) the world ones. */
  function PoseWrites(pd: PoseData, driving: string, translate: Option<Vec3>): (seq<Write>, Outcome)
  {
    var l := MatrixWrites(pd.localMap, Local, driving, translate);
    if l.1.Err? then l
    else
      var w := MatrixWrites(pd.worldMap, World, driving, translate);
      (l.0 + w.0, w.1)
  }

  /**
   * As written, `world_matrix_map` is bound to the pose's
   * `local_matrix_map`, so the world loop goes over the local matrices,
   * which the local loop has already overwritten in place; overwriting them
   * again changes nothing (`OverwriteTwice`).
   */
  function PoseWritesAsWritten(pd: PoseData, driving: string, translate: Option<Vec3>): (seq<Write>, Outcome)
  {
    var l := MatrixWrites(pd.localMap, Local, driving, translate);
    if l.1.Err? then l
    else
      var w := MatrixWrites(pd.localMap, World, driving, translate);
      (l.0 + w.0, w.1)
  }

  /**
   * As written, every world matrix written is the (overwritten) local
   * matrix of the same entry: the file's world matrices are never read.
   */
  lemma AsWrittenWorldFromLocal(pd: PoseData, driving: string, translate: Option<Vec3>)
    requires MatrixWrites(pd.localMap, Local, driving, translate).1.Ok?
    ensures var r := PoseWritesAsWritten(pd, driving, translate); var n := |pd.localMap|;
      && r.1.Ok? && |r.0| == 2 * n
      && forall i :: n <= i < 2 * n ==> WroteEntry(r.0[i], pd.localMap, i - n, World, driving, translate)
  {
    MatrixWritesPrefix(pd.localMap, Local, driving, translate);
    MatrixWritesPrefix(pd.localMap, World, driving, translate);
    var l := MatrixWrites(pd.localMap, Local, driving, translate);
    var w := MatrixWrites(pd.localMap, World, driving, translate);
    var r := l.0 + w.0;
    var n := |pd.localMap|;
    forall j | 0 <= j < n ensures Overwrite(pd.localMap[j].0, pd.localMap[j].1, driving, translate).Ok? {
      assert WroteEntry(l.0[j], pd.localMap, j, Local, driving, translate);
    }
    forall i | n <= i < 2 * n ensures WroteEntry(r[i], pd.localMap, i - n, World, driving, translate) {
      assert r[i] == w.0[i - n];
    }
  }

  /**
   * With the world map read, the world writes are one per entry of the
   * file's world map, in order, when the local ones went through.
   */
  lemma PoseWritesWorld(pd: PoseData, driving: string, translate: Option<Vec3>)
    requires MatrixWrites(pd.localMap, Local, driving, translate).1.Ok?
    ensures var r := PoseWrites(pd, driving, translate); var n := |pd.localMap|;
      && n <= |r.0| <= n + |pd.worldMap|
      && (r.1.Ok? <==> |r.0| == n + |pd.worldMap|)
      && forall i :: n <= i < |r.0| ==> WroteEntry(r.0[i], pd.worldMap, i - n, World, driving, translate)
  {
    MatrixWritesPrefix(pd.localMap, Local, driving, translate);
    MatrixWritesPrefix(pd.worldMap, World, driving, translate);
    var l := MatrixWrites(pd.localMap, Local, driving, translate);
    var w := MatrixWrites(pd.worldMap, World, driving, translate);
    var r := l.0 + w.0;
    var n := |pd.localMap|;
    forall i | n <= i < |r| ensures WroteEntry(r[i], pd.worldMap, i - n, World, driving, translate) {
      assert r[i] == w.0[i - n];
    }
  }

  // ------------------------------------------------------------ poses

  /**
   * One entry of the file's `pose_data`: `base_pose` is skipped; a pose the
   * solver does not list is first added under its name with every `_pose`
   * deleted; then its matrices are written.
   */
  function ImportPose(rig: Legacy.Rig, name: string, pd: PoseData, driving: string, translate: Option<Vec3>): (Legacy.Rig, seq<Write>, Outcome)
  {
    if name == Legacy.BasePose then (rig, [], Done)
    else
      var rig' := if name in Legacy.PoseNames(rig) then rig else Legacy.WithPose(rig, Text.Replace(name, PoseToken, ""));
      var w := PoseWritesAsWritten(pd, driving, translate);
      (rig', w.0, w.1)
  }

  /** The loop over `pose_data`, in file order, until a pose raises. */
  function ImportPoses(rig: Legacy.Rig, poses: OD.Dict<string, PoseData>, driving: string, translate: Option<Vec3>): (Legacy.Rig, seq<Write>, Outcome)
    decreases |poses|
  {
    if poses == [] then (rig, [], Done)
    else
      var p := ImportPose(rig, poses[0].0, poses[0].1, driving, translate);
      if p.2.Err? then p
      else
        var rest := ImportPoses(p.0, poses[1..], driving, translate);
        (rest.0, p.1 + rest.1, rest.2)
  }

  /** Importing poses keeps the solver's transforms and every pose it listed, in order. */
  lemma {:induction false} ImportPosesKeeps(rig: Legacy.Rig, poses: OD.Dict<string, PoseData>, driving: string, translate: Option<Vec3>)
    ensures var r := ImportPoses(rig, poses, driving, translate).0;
      && r.solver == rig.solver && r.driving == rig.driving && r.driven == rig.driven
      && Legacy.PoseNames(rig) <= Legacy.PoseNames(r)
    decreases |poses|
  {
    if poses != [] {
      var name := poses[0].0;
      Legacy.WithPoseGrows(rig, Text.Replace(name, PoseToken, ""));
      var p := ImportPose(rig, name, poses[0].1, driving, translate);
      ImportPosesKeeps(p.0, poses[1..], driving, translate);
    }
  }

  /** A name `add_pose` lists under itself: not empty, without the stored prefix and without `_pose`. */
  predicate PlainName(p: string)
  {
    p != [] && !Text.Contains(p, Legacy.StoredPrefix) && !Text.Contains(p, PoseToken)
  }

  /**
   * When the import of a driver's poses goes through, the solver lists
   * every pose of the file but `base_pose`, provided it has driven
   * transforms and the names are plain.
   */
  lemma {:induction false} ImportPosesListed(rig: Legacy.Rig, poses: OD.Dict<string, PoseData>, driving: string, translate: Option<Vec3>)
    requires rig.driven != []
    requires forall i :: 0 <= i < |poses| && poses[i].0 != Legacy.BasePose ==> PlainName(poses[i].0)
    ensures var r := ImportPoses(rig, poses, driving, translate);
      r.2.Ok? ==> forall i :: 0 <= i < |poses| && poses[i].0 != Legacy.BasePose ==> poses[i].0 in Legacy.PoseNames(r.0)
    decreases |poses|
  {
    if poses != [] {
      var name := poses[0].0;
      var p := ImportPose(rig, name, poses[0].1, driving, translate);
      assert p.0.driven == rig.driven by {
        Legacy.WithPoseGrows(rig, Text.Replace(name, PoseToken, ""));
      }
      if name != Legacy.BasePose {
        Text.ReplaceAbsent(name, PoseToken, "");
        Legacy.AddPoseListed(rig, name);
        assert name in Legacy.PoseNames(p.0);
      }
      if p.2.Ok? {
        forall i | 1 <= i < |poses| ensures poses[i].0 == poses[1..][i - 1].0 {
        }
        ImportPosesListed(p.0, poses[1..], driving, translate);
        ImportPosesKeeps(p.0, poses[1..], driving, translate);
      }
    }
  }

  /**
   * A missing pose whose name holds `_pose` is added under the shorter
   * name, so it is still missing afterwards: importing the same file again
   * adds it a second time.
   */
  lemma ImportRenames(rig: Legacy.Rig, name: string, pd: PoseData, driving: string, translate: Option<Vec3>)
    requires name != Legacy.BasePose && name !in Legacy.PoseNames(rig) && Text.Contains(name, PoseToken)
    ensures var r := ImportPose(rig, name, pd, driving, translate).0;
      && r == Legacy.WithPose(rig, Text.Replace(name, PoseToken, ""))
      && name !in Legacy.PoseNames(r)
  {
    var short := Text.Replace(name, PoseToken, "");
    Text.ReplaceDeletes(name, PoseToken);
    Legacy.WithPoseGrows(rig, short);
    var q := Legacy.WithPose(rig, short);
    if name in Legacy.PoseNames(q) {
      Legacy.PoseTableKeys(q.attrs, q.links);
      Legacy.PoseTableKeys(rig.attrs, rig.links);
      var a :| a in q.attrs && Text.StartsWith(a, Legacy.StoredPrefix) && Legacy.StoredName(a) == name;
      assert a !in rig.attrs;
      assert a == Legacy.StoredPrefix + short;
      ImportRenamesClash(short, name);
    }
  }

  /** Stripping the prefix from `stored_pose_<short>` cannot give back the longer name. */
  lemma ImportRenamesClash(short: string, name: string)
    requires |short| < |name|
    ensures Legacy.StoredName(Legacy.StoredPrefix + short) != name
  {
    var s := Legacy.StoredPrefix + short;
    assert s[..|Legacy.StoredPrefix|] == Legacy.StoredPrefix && s[|Legacy.StoredPrefix|..] == short;
    Text.ReplaceDeletes(short, Legacy.StoredPrefix);
  }

  // ------------------------------------------------------------ drivers

  /** The `solver_settings` loop: one `setAttr` on the solver per setting, in file order. */
  function SettingWrites(solver: string, settings: OD.Dict<string, real>): (r: seq<Write>)
    ensures |r| == |settings|
    ensures forall i :: 0 <= i < |settings| ==> r[i] == Setting(solver + "." + settings[i].0, settings[i].1)
  {
    seq(|settings|, i requires 0 <= i < |settings| => Setting(solver + "." + settings[i].0, settings[i].1))
  }

  /**
   * One driver: the solver `<driver>_UE4RBFSolver` of the scene, or one
   * created from the file's transforms; driving switched off, settings
   * written, poses imported, driving switched back on.
   */
  function ImportDriver(rigs: map<string, Legacy.Rig>, driver: string, dd: DriverData, translateOf: string -> Option<Vec3>)
    : (map<string, Legacy.Rig>, seq<Write>, Outcome)
  {
    var key := driver + Legacy.SolverSuffix;
    var rig := if key in rigs then rigs[key] else Legacy.CreatedRig(driver, dd.driving, dd.driven);
    var p := ImportPoses(rig, dd.poses, dd.driving, translateOf(dd.driving));
    var log := [Driving(key, false)] + SettingWrites(key, dd.settings) + p.1 + (if p.2.Ok? then [Driving(key, true)] else []);
    (rigs[key := p.0], log, p.2)
  }

  /** An existing solver keeps its own transforms and poses: the file's transforms only serve a new one. */
  lemma ImportDriverKeepsExisting(rigs: map<string, Legacy.Rig>, driver: string, dd: DriverData, translateOf: string -> Option<Vec3>)
    requires driver + Legacy.SolverSuffix in rigs
    ensures var key := driver + Legacy.SolverSuffix; var r := ImportDriver(rigs, driver, dd, translateOf).0;
      && key in r && r[key].driving == rigs[key].driving && r[key].driven == rigs[key].driven
      && Legacy.PoseNames(rigs[key]) <= Legacy.PoseNames(r[key])
      && forall k :: k in rigs && k != key ==> k in r && r[k] == rigs[k]
  {
    var key := driver + Legacy.SolverSuffix;
    ImportPosesKeeps(rigs[key], dd.poses, dd.driving, translateOf(dd.driving));
  }

  /** The loop over the file's drivers, in order, until one raises. */
  function Import(s: Scene, doc: Document, filter: seq<string>, translateOf: string -> Option<Vec3>): (Scene, Outcome)
    decreases |doc|
  {
    if doc == [] then (s, Done)
    else if !Honoured(doc[0].0, filter) then Import(s, doc[1..], filter, translateOf)
    else
      var d := ImportDriver(s.rigs, doc[0].0, doc[0].1, translateOf);
      var s' := Scene(d.0, s.log + d.1);
      if d.2.Err? then (s', d.2) else Import(s', doc[1..], filter, translateOf)
  }

  /** The drivers a filter lets through, in order. */
  function FilterDrivers(doc: Document, filter: seq<string>): (r: Document)
    ensures forall x :: x in r <==> x in doc && Honoured(x.0, filter)
    decreases |doc|
  {
    if doc == [] then []
    else
      var rest := FilterDrivers(doc[1..], filter);
      assert forall x :: x in doc <==> x == doc[0] || x in doc[1..];
      if Honoured(doc[0].0, filter) then [doc[0]] + rest else rest
  }

  /** Importing with a filter is importing, unfiltered, the drivers the filter lets through. */
  lemma {:induction false} ImportFiltered(s: Scene, doc: Document, filter: seq<string>, translateOf: string -> Option<Vec3>)
    ensures Import(s, doc, filter, translateOf) == Import(s, FilterDrivers(doc, filter), [], translateOf)
    decreases |doc|
  {
    if doc != [] {
      var f := FilterDrivers(doc, filter);
      if Honoured(doc[0].0, filter) {
        assert f[0] == doc[0] && f[1..] == FilterDrivers(doc[1..], filter);
        var d := ImportDriver(s.rigs, doc[0].0, doc[0].1, translateOf);
        ImportFiltered(Scene(d.0, s.log + d.1), doc[1..], filter, translateOf);
      } else {
        ImportFiltered(s, doc[1..], filter, translateOf);
      }
    }
  }

  /** The writes only ever grow: what a failed import already wrote stays in the log. */
  lemma {:induction false} ImportLogGrows(s: Scene, doc: Document, filter: seq<string>, translateOf: string -> Option<Vec3>)
    ensures s.log <= Import(s, doc, filter, translateOf).0.log
    decreases |doc|
  {
    if doc != [] {
      if !Honoured(doc[0].0, filter) {
        ImportLogGrows(s, doc[1..], filter, translateOf);
      } else {
        var d := ImportDriver(s.rigs, doc[0].0, doc[0].1, translateOf);
        var s' := Scene(d.0, s.log + d.1);
        if d.2.Ok? {
          ImportLogGrows(s', doc[1..], filter, translateOf);
        }
      }
    }
  }
}
