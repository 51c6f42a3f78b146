/**
 * Left/right mirroring: the mirror mapping (`model/mirror_mapping.py`), whose
 * source side selects which side tokens are replaced by which, and the name
 * and axis helpers of the solver that use it (`_get_mirrored_solver_name`,
 * `_get_mirrored_transforms`, `_get_mirrored_axis` in `v2/model/api.py`).
 * The regular expression match is the host's: a name is given as the groups
 * it captured (`None` when it did not match; a group that took part in no
 * match is `None` too).
 */
module Mirroring {
  import opened Wrappers
  import Host

  const Left: string := "left"
  const Right: string := "right"

  /** The tokens one side uses in solver and transform names, such as "_l_". */
  datatype SideSyntax = SideSyntax(solverSyntax: string, transformSyntax: string)

  /** The loaded mapping document: two regular expressions and the syntax of each side. */
  datatype MappingData = MappingData(solverExpression: string, transformExpression: string,
                                     sides: map<string, SideSyntax>)

  /** The side opposite `side`: right for left and left for anything else. */
  function Opposite(side: string): string
  {
    if side == Left then Right else Left
  }

  /** The selected source side with its syntax and the opposite side's. */
  datatype SideState = SideState(side: string, source: SideSyntax, target: SideSyntax)

  /**
   * What `source_side = side` selects: ValueError for a side other than
   * "left"/"right", KeyError when the document lacks the side or its opposite.
   */
  function SelectSide(sides: map<string, SideSyntax>, side: string): (r: Result<SideState>)
    ensures r == Err(ValueError) <==> side != Left && side != Right
    ensures r.Ok? <==> (side == Left || side == Right) && side in sides && Opposite(side) in sides
    ensures r.Ok? ==> side in sides && Opposite(side) in sides
    ensures r.Ok? ==> r.value == SideState(side, sides[side], sides[Opposite(side)])
  {
    if side != Left && side != Right then Err(ValueError)
    else if side !in sides then Err(KeyError)
    else if Opposite(side) !in sides then Err(KeyError)
    else Ok(SideState(side, sides[side], sides[Opposite(side)]))
  }

  function Swapped(st: SideState): SideState
  {
    SideState(Opposite(st.side), st.target, st.source)
  }

  /** Selecting the opposite side exchanges source and target syntax. */
  lemma SelectOpposite(sides: map<string, SideSyntax>, side: string)
    requires SelectSide(sides, side).Ok?
    ensures SelectSide(sides, Opposite(side)) == Ok(Swapped(SelectSide(sides, side).value))
  {
  }

  /** Swapping twice restores the state. */
  lemma SwapTwice(sides: map<string, SideSyntax>, side: string)
    requires SelectSide(sides, side).Ok?
    ensures Swapped(Swapped(SelectSide(sides, side).value)) == SelectSide(sides, side).value
  {
  }

  class MirrorMapping {
    const solverExpression: string
    const transformExpression: string
    const mappingData: map<string, SideSyntax>
    var sourceSide: string
    var sourceSolverSyntax: string
    var sourceTransformSyntax: string
    var targetSolverSyntax: string
    var targetTransformSyntax: string

    function State(): SideState
      reads this
    {
      SideState(sourceSide, SideSyntax(sourceSolverSyntax, sourceTransformSyntax),
                SideSyntax(targetSolverSyntax, targetTransformSyntax))
    }

    /** The fields agree with the side they name. */
    predicate Valid()
      reads this
    {
      SelectSide(mappingData, sourceSide) == Ok(State())
    }

    /** The fields as the constructor sets them before it assigns the source side. */
    constructor (data: MappingData, side: string)
      ensures solverExpression == data.solverExpression && transformExpression == data.transformExpression
      ensures mappingData == data.sides && sourceSide == side
      ensures State() == SideState(side, SideSyntax("", ""), SideSyntax("", ""))
    {
      solverExpression := data.solverExpression;
      transformExpression := data.transformExpression;
      mappingData := data.sides;
      sourceSide := side;
      sourceSolverSyntax := "";
      sourceTransformSyntax := "";
      targetSolverSyntax := "";
      targetTransformSyntax := "";
    }

    /**
     * The `source_side` setter. An invalid side raises ValueError before
     * anything changes; the side is recorded before the document is read, so
     * a document without that side raises KeyError with only the side changed.
     */
    method SetSourceSide(side: string) returns (r: Outcome)
      modifies this
      ensures r == Err(ValueError) <==> side != Left && side != Right
      ensures r == Err(ValueError) ==> State() == old(State())
      ensures SelectSide(mappingData, side).Ok? ==> r == Done && State() == SelectSide(mappingData, side).value && Valid()
      ensures side == Left || side == Right ==> sourceSide == side
      ensures (side == Left || side == Right) && side !in mappingData ==>
        r == Err(KeyError) && State().source == old(State()).source && State().target == old(State()).target
      ensures (side == Left || side == Right) && side in mappingData && Opposite(side) !in mappingData ==>
        r == Err(KeyError) && State().source == mappingData[side] && State().target == old(State()).target
    {
      if side != Left && side != Right {
        return Err(ValueError);
      }
      sourceSide := side;
      if side !in mappingData {
        return Err(KeyError);
      }
      var sourceData := mappingData[side];
      sourceSolverSyntax := sourceData.solverSyntax;
      sourceTransformSyntax := sourceData.transformSyntax;
      var targetSide := if sourceSide == Left then Right else Left;
      if targetSide !in mappingData {
        return Err(KeyError);
      }
      var targetData := mappingData[targetSide];
      targetSolverSyntax := targetData.solverSyntax;
      targetTransformSyntax := targetData.transformSyntax;
      r := Done;
    }

    /** `swap_sides`: selects the side opposite the current one. */
    method SwapSides() returns (r: Outcome)
      modifies this
      ensures old(Valid()) ==> r == Done && Valid() && State() == Swapped(old(State()))
      ensures sourceSide == (if old(sourceSide) == Right then Left else Right)
    {
      var newSide := if sourceSide == Right then Left else Right;
      if Valid() {
        SelectOpposite(mappingData, sourceSide);
      }
      r := SetSourceSide(newSide);
    }
  }

  /**
   * A mirror mapping built from a loaded document with the given source side
   * (the constructor's default is "left"); fails as the setter does.
   */
  method Load(data: MappingData, side: string) returns (r: Result<MirrorMapping>)
    ensures r.Ok? ==> fresh(r.value) && r.value.Valid() && r.value.sourceSide == side
    ensures r.Ok? ==> r.value.solverExpression == data.solverExpression && r.value.transformExpression == data.transformExpression
    ensures r.Ok? <==> SelectSide(data.sides, side).Ok?
    ensures r.Ok? ==> r.value.State() == SelectSide(data.sides, side).value
  {
    var mapping := new MirrorMapping(data, side);
    var outcome := mapping.SetSourceSide(side);
    if outcome.Err? {
      return Err(outcome.error);
    }
    r := Ok(mapping);
  }

  // ------------------------------------------------------ solver names

  /**
   * One group of a solver name: the source token becomes the target token;
   * the target token becomes the source token and the sides are swapped.
   */
  function SolverGroupStep(g: string, st: SideState): (string, SideState)
  {
    if g == st.source.solverSyntax then (st.target.solverSyntax, st)
    else if g == st.target.solverSyntax then (st.source.solverSyntax, Swapped(st))
    else (g, st)
  }

  /**
   * The groups folded left to right into the mirrored name, threading the side
   * state; a group that is `None` cannot be appended (TypeError), with the
   * swaps made so far kept.
   */
  function MirrorSolverGroups(gs: seq<Option<string>>, st: SideState): (SideResult: (Result<string>, SideState))
    decreases |gs|
  {
    if gs == [] then (Ok(""), st)
    else
      var front := MirrorSolverGroups(gs[..|gs| - 1], st);
      if front.0.Err? then front
      else match gs[|gs| - 1]
        case None => (Err(TypeError), front.1)
        case Some(g) =>
          var step := SolverGroupStep(g, front.1);
          (Ok(front.0.value + step.0), step.1)
  }

  /** Once a prefix of the groups fails, the whole name fails the same way. */
  lemma {:induction false} SolverErrorPropagates(gs: seq<Option<string>>, j: nat, st: SideState)
    requires j <= |gs| && MirrorSolverGroups(gs[..j], st).0.Err?
    ensures MirrorSolverGroups(gs, st) == MirrorSolverGroups(gs[..j], st)
    decreases |gs|
  {
    if j < |gs| {
      var front := gs[..|gs| - 1];
      assert front[..j] == gs[..j];
      SolverErrorPropagates(front, j, st);
    } else {
      assert gs[..j] == gs;
    }
  }

  /** Appending one present group extends the name by that group's mirrored token. */
  lemma SolverGroupsSnoc(gs: seq<Option<string>>, g: string, st: SideState)
    requires MirrorSolverGroups(gs, st).0.Ok?
    ensures var front := MirrorSolverGroups(gs, st);
      var step := SolverGroupStep(g, front.1);
      MirrorSolverGroups(gs + [Some(g)], st) == (Ok(front.0.value + step.0), step.1)
  {
    assert (gs + [Some(g)])[..|gs|] == gs;
  }

  /** `_get_mirrored_solver_name` as a function of the match and the side state. */
  function MirroredSolverNameSpec(groups: Option<seq<Option<string>>>, st: SideState): (Result<string>, SideState)
  {
    match groups
    case None => (Err(InvalidMirrorMapping), st)
    case Some(gs) => MirrorSolverGroups(gs, st)
  }

  /**
   * `_get_mirrored_solver_name`: mirrors the solver name captured in `groups`,
   * calling `swap_sides` on the mapping each time a target token is met.
   */
  method MirroredSolverName(groups: Option<seq<Option<string>>>, mapping: MirrorMapping) returns (r: Result<string>)
    requires mapping.Valid()
    modifies mapping
    ensures (r, mapping.State()) == MirroredSolverNameSpec(groups, old(mapping.State()))
    ensures mapping.Valid()
  {
    if groups.None? {
      return Err(InvalidMirrorMapping);
    }
    var gs := groups.value;
    ghost var st0 := mapping.State();
    var name := "";
    var j := 0;
    while j < |gs|
      invariant 0 <= j <= |gs| && mapping.Valid()
      invariant MirrorSolverGroups(gs[..j], st0) == (Ok(name), mapping.State())
    {
      assert gs[..j + 1][..j] == gs[..j];
      var group := gs[j];
      if group.None? {
        SolverErrorPropagates(gs, j + 1, st0);
        return Err(TypeError);
      }
      var g := group.value;
      if g == mapping.sourceSolverSyntax {
        g := mapping.targetSolverSyntax;
      } else if g == mapping.targetSolverSyntax {
        g := mapping.sourceSolverSyntax;
        var _ := mapping.SwapSides();
      }
      name := name + g;
      j := j + 1;
    }
    assert gs[..j] == gs;
    r := Ok(name);
  }

  /** The two solver tokens of a mapping state (its source and its target). */
  predicate IsSolverToken(st: SideState, g: string)
  {
    g == st.source.solverSyntax || g == st.target.solverSyntax
  }

  function OtherSolverToken(st: SideState, tok: string): string
  {
    if tok == st.source.solverSyntax then st.target.solverSyntax else st.source.solverSyntax
  }

  /**
   * A three-group solver name `p + tok + q` (a side token between two groups
   * that are not tokens) mirrors to `p + other + q`; mirroring that name with
   * the state the first call left behind gives `p + tok + q` back.
   */
  lemma SolverNameInvolution(st: SideState, p: string, tok: string, q: string)
    requires st.source.solverSyntax != st.target.solverSyntax
    requires IsSolverToken(st, tok) && !IsSolverToken(st, p) && !IsSolverToken(st, q)
    ensures var first := MirrorSolverGroups([Some(p), Some(tok), Some(q)], st);
      var other := OtherSolverToken(st, tok);
      var second := MirrorSolverGroups([Some(p), Some(other), Some(q)], first.1);
      first.0 == Ok(p + other + q) && second.0 == Ok(p + tok + q)
  {
    var other := OtherSolverToken(st, tok);
    assert "" + p == p;
    SolverGroupsSnoc([], p, st);
    assert [] + [Some(p)] == [Some(p)];
    SolverGroupsSnoc([Some(p)], tok, st);
    assert [Some(p)] + [Some(tok)] == [Some(p), Some(tok)];
    SolverGroupsSnoc([Some(p), Some(tok)], q, st);
    assert [Some(p), Some(tok)] + [Some(q)] == [Some(p), Some(tok), Some(q)];
    var mid := SolverGroupStep(tok, st).1;
    SolverGroupsSnoc([], p, mid);
    SolverGroupsSnoc([Some(p)], other, mid);
    assert [Some(p)] + [Some(other)] == [Some(p), Some(other)];
    SolverGroupsSnoc([Some(p), Some(other)], q, mid);
    assert [Some(p), Some(other)] + [Some(q)] == [Some(p), Some(other), Some(q)];
    assert MirrorSolverGroups([Some(p), Some(tok), Some(q)], st).0 == Ok(p + other + q);
    assert MirrorSolverGroups([Some(p), Some(tok), Some(q)], st).1 == mid;
    assert MirrorSolverGroups([Some(p), Some(other), Some(q)], mid).0 == Ok(p + tok + q);
  }

  // --------------------------------------------------- transform names

  /** One group of a transform name: the two transform tokens are exchanged. */
  function TransformGroup(g: string, source: string, target: string): string
  {
    if g == source then target else if g == target then source else g
  }

  /** The groups of one transform name folded into its mirrored name; a `None` group raises TypeError. */
  function MirrorTransformGroups(gs: seq<Option<string>>, source: string, target: string): (r: Result<string>)
    ensures r.Ok? <==> forall k :: 0 <= k < |gs| ==> gs[k].Some?
    decreases |gs|
  {
    if gs == [] then Ok("")
    else match MirrorTransformGroups(gs[..|gs| - 1], source, target)
      case Err(e) => Err(e)
      case Ok(front) =>
        match gs[|gs| - 1]
        case None => Err(TypeError)
        case Some(g) => Ok(front + TransformGroup(g, source, target))
  }

  /**
   * `_get_mirrored_transforms`: one mirrored name per input, in order.
   * `matches[i]` is the match of the i-th transform against the transform
   * expression. A non-match raises InvalidMirrorMapping, and so does a
   * mirrored name the scene does not contain, unless `ignoreInvalidNodes`.
   */
  function MirroredTransforms(matches: seq<Option<seq<Option<string>>>>, source: string, target: string,
                              scene: Host.Scene, ignoreInvalidNodes: bool): (r: Result<seq<string>>)
    ensures r.Ok? ==> |r.value| == |matches|
    ensures r.Ok? ==> forall i :: 0 <= i < |matches| ==>
      matches[i].Some? && MirrorTransformGroups(matches[i].value, source, target) == Ok(r.value[i]) &&
      (ignoreInvalidNodes || scene.Exists(r.value[i]))
    ensures (exists i :: 0 <= i < |matches| && matches[i].None?) ==> r.Err?
    ensures (forall i :: 0 <= i < |matches| ==>
      matches[i].Some? && MirrorTransformGroups(matches[i].value, source, target).Ok? &&
      (ignoreInvalidNodes || scene.Exists(MirrorTransformGroups(matches[i].value, source, target).value))) ==> r.Ok?
    decreases |matches|
  {
    if matches == [] then Ok([])
    else match MirroredTransforms(matches[..|matches| - 1], source, target, scene, ignoreInvalidNodes)
      case Err(e) => Err(e)
      case Ok(front) =>
        var last := matches[|matches| - 1];
        if last.None? then Err(InvalidMirrorMapping)
        else match MirrorTransformGroups(last.value, source, target)
          case Err(e) => Err(e)
          case Ok(name) =>
            if !scene.Exists(name) && !ignoreInvalidNodes then Err(InvalidMirrorMapping)
            else Ok(front + [name])
  }

  /**
   * Mirroring a three-group transform name `p + tok + q` swaps the token and
   * mirroring the result restores it.
   */
  lemma TransformNameInvolution(p: string, tok: string, q: string, source: string, target: string)
    requires source != target && (tok == source || tok == target)
    requires p != source && p != target && q != source && q != target
    ensures var other := if tok == source then target else source;
      MirrorTransformGroups([Some(p), Some(tok), Some(q)], source, target) == Ok(p + other + q) &&
      MirrorTransformGroups([Some(p), Some(other), Some(q)], source, target) == Ok(p + tok + q)
  {
    var other := if tok == source then target else source;
    var gs := [Some(p), Some(tok), Some(q)];
    var hs := [Some(p), Some(other), Some(q)];
    assert gs[..2] == [Some(p), Some(tok)] && gs[..2][..1] == [Some(p)] && gs[..2][..1][..0] == [];
    assert hs[..2] == [Some(p), Some(other)] && hs[..2][..1] == [Some(p)] && hs[..2][..1][..0] == [];
    assert "" + p == p;
    assert MirrorTransformGroups([Some(p)], source, target) == Ok(p);
    assert MirrorTransformGroups(gs[..2], source, target) == Ok(p + other);
    assert MirrorTransformGroups(hs[..2], source, target) == Ok(p + tok);
  }

  // ------------------------------------------------------------ axis

  /** Both strictly positive or both strictly negative. */
  predicate SameSign(a: real, b: real)
  {
    (a > 0.0 && b > 0.0) || (a < 0.0 && b < 0.0)
  }

  /** Component `k` of a driver exists in its mirror and has the same strict sign. */
  predicate ComponentAgrees(driver: seq<real>, mirrored: seq<real>, k: nat)
    requires k < |driver|
  {
    k < |mirrored| && SameSign(driver[k], mirrored[k])
  }

  /** `'xyz'[i]`, an IndexError past the third axis. */
  function AxisName(i: nat): Result<Option<char>>
  {
    if i < 3 then Ok(Some("xyz"[i])) else Err(IndexError)
  }

  /**
   * The component scan of one driver from component `i` on. Python's `and`
   * only reads `mirrored[i]` when the source component is not zero, so a zero
   * component names its axis without the index check.
   */
  function AxisScan(driver: seq<real>, mirrored: seq<real>, i: nat): (r: Result<Option<char>>)
    ensures r == Ok(None) <==> forall k :: i <= k < |driver| ==> ComponentAgrees(driver, mirrored, k)
    decreases |driver| - i
  {
    if i >= |driver| then Ok(None)
    else if driver[i] == 0.0 then
      assert !ComponentAgrees(driver, mirrored, i);
      AxisName(i)
    else if i >= |mirrored| then
      assert !ComponentAgrees(driver, mirrored, i);
      Err(IndexError)
    else if SameSign(driver[i], mirrored[i]) then
      assert ComponentAgrees(driver, mirrored, i);
      AxisScan(driver, mirrored, i + 1)
    else
      assert !ComponentAgrees(driver, mirrored, i);
      AxisName(i)
  }

  /** Driver `d` exists in the mirror and every one of its components agrees. */
  predicate DriverAgrees(sources: seq<seq<real>>, mirrored: seq<seq<real>>, d: nat)
    requires d < |sources|
  {
    d < |mirrored| && AxisScan(sources[d], mirrored[d], 0) == Ok(None)
  }

  /**
   * `_get_mirrored_axis` from driver `index` on: the name of the first axis
   * whose source and mirrored components do not share a strict sign, or
   * `None` when every component does.
   */
  function MirroredAxisFrom(sources: seq<seq<real>>, mirrored: seq<seq<real>>, index: nat): (r: Result<Option<char>>)
    ensures r == Ok(None) <==> forall d :: index <= d < |sources| ==> DriverAgrees(sources, mirrored, d)
    decreases |sources| - index
  {
    if index >= |sources| then Ok(None)
    else if index >= |mirrored| then
      assert !DriverAgrees(sources, mirrored, index);
      Err(IndexError)
    else
      var here := AxisScan(sources[index], mirrored[index], 0);
      if here == Ok(None) then
        assert DriverAgrees(sources, mirrored, index);
        MirroredAxisFrom(sources, mirrored, index + 1)
      else
        assert !DriverAgrees(sources, mirrored, index);
        here
  }

  function MirroredAxis(sources: seq<seq<real>>, mirrored: seq<seq<real>>): Result<Option<char>>
  {
    MirroredAxisFrom(sources, mirrored, 0)
  }

  /**
   * A reported axis is a component where the signs differ while every
   * earlier component of that driver agreed.
   */
  lemma {:induction false} AxisScanFindsFirstMismatch(driver: seq<real>, mirrored: seq<real>, i: nat, c: char)
    requires AxisScan(driver, mirrored, i) == Ok(Some(c))
    ensures exists k :: (i <= k < |driver| && k < 3 && c == "xyz"[k] && !ComponentAgrees(driver, mirrored, k) &&
      forall j :: i <= j < k ==> ComponentAgrees(driver, mirrored, j))
    decreases |driver| - i
  {
    if driver[i] == 0.0 || !SameSign(driver[i], mirrored[i]) {
      assert !ComponentAgrees(driver, mirrored, i);
      assert i < 3 && c == "xyz"[i];
    } else {
      AxisScanFindsFirstMismatch(driver, mirrored, i + 1, c);
      var k :| i + 1 <= k < |driver| && k < 3 && c == "xyz"[k] && !ComponentAgrees(driver, mirrored, k) &&
        forall j :: i + 1 <= j < k ==> ComponentAgrees(driver, mirrored, j);
      assert ComponentAgrees(driver, mirrored, i);
      assert forall j :: i <= j < k ==> ComponentAgrees(driver, mirrored, j);
    }
  }
}
