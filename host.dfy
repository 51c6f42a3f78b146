/**
 * The part of the Maya scene the tool reads: the transforms with their
 * current local (object-space) matrices, and the names of the other nodes.
 * Matrices are opaque values; only the v1 import looks at their elements.
 */
module Host {
  import opened Wrappers

  /** A 4x4 transformation matrix as Maya's flat list of sixteen numbers. */
  datatype Matrix = Matrix(elements: seq<real>)

  datatype Scene = Scene(transforms: map<string, Matrix>, others: set<string>)
  {
    /** `cmds.objExists`. */
    predicate Exists(n: string) { n in transforms || n in others }

    /** `cmds.ls(n, type='transform')` is not empty. */
    predicate IsTransform(n: string) { n in transforms }
  }

  /** `cmds.xform(n, query=True, matrix=True, objectSpace=True)`. */
  function LocalMatrix(scene: Scene, n: string): (r: Result<Matrix>)
    ensures r.Ok? <==> scene.IsTransform(n)
    ensures r.Ok? ==> r.value == scene.transforms[n]
    ensures r.Err? ==> r.error == NodeNotFound
  {
    if n in scene.transforms then Ok(scene.transforms[n]) else Err(NodeNotFound)
  }

  /** The current local matrices of several transforms, in order; fails on the first that is missing. */
  function LocalMatrices(scene: Scene, ns: seq<string>): (r: Result<seq<Matrix>>)
    ensures r.Ok? <==> forall i :: 0 <= i < |ns| ==> scene.IsTransform(ns[i])
    ensures r.Ok? ==> |r.value| == |ns| && forall i :: 0 <= i < |ns| ==> r.value[i] == scene.transforms[ns[i]]
    ensures r.Err? ==> r.error == NodeNotFound
  {
    if ns == [] then Ok([])
    else if ns[0] !in scene.transforms then Err(NodeNotFound)
    else match LocalMatrices(scene, ns[1..])
      case Err(e) => Err(e)
      case Ok(rest) => Ok([scene.transforms[ns[0]]] + rest)
  }
}
