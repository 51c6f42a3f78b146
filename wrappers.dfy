/** Optional values, results and the error kinds the pose wrangler raises. */
module Wrappers {

  datatype Option<T> = None | Some(value: T)

  /**
   * The exception classes of the tool (and the Python built-in errors it lets
   * escape), one constructor per class.
   */
  datatype ErrorKind =
    | InvalidPose                 // a pose name that is missing or already taken
    | InvalidPoseIndex            // neither an index nor a name was given
    | InvalidSolverError          // something that is not a solver was selected
    | InvalidNodeType             // a node of the wrong Maya type
    | PoseBlenderPoseError        // a blender without a driven transform
    | PoseWranglerAttributeError  // an attribute connection the host refused
    | MessageConnectionError      // a message connection onto a non-message attribute
    | InvalidMirrorMapping        // a name that does not match the mirror pattern
    | TRSError                    // paste without anything copied
    | RuntimeError                // Python RuntimeError raised by the tool
    | NodeNotFound                // the host could not find a node it was asked about
    | TypeError                   // Python TypeError (len(None), str + None, ...)
    | IndexError                  // Python IndexError (list.pop out of range, ...)
    | KeyError                    // Python KeyError (missing dictionary key)
    | ValueError                  // Python ValueError (a bad argument value)
    | ZeroDivisionError           // Python ZeroDivisionError
    | AttributeError              // Python AttributeError (a method called on None)

  datatype Result<T> = Ok(value: T) | Err(error: ErrorKind)
  {
    predicate IsFailure() { Err? }
    function PropagateFailure<U>(): Result<U>
      requires Err?
    {
      Err(error)
    }
    function Extract(): T
      requires Ok?
    {
      value
    }
  }

  /** The outcome of an operation that returns nothing but may raise. */
  type Outcome = Result<()>

  const Done: Outcome := Ok(())

  /**
   * Applying a step that may raise to every element in order, as the tool's
   * `for` loops do: the results when every step succeeds, else the first error.
   */
  function MapResult<T>(xs: seq<T>, f: T -> Result<T>): (r: Result<seq<T>>)
    ensures r.Ok? <==> forall j :: 0 <= j < |xs| ==> f(xs[j]).Ok?
    ensures r.Ok? ==> |r.value| == |xs| && forall j :: 0 <= j < |xs| ==> f(xs[j]) == Ok(r.value[j])
    ensures r.Err? ==> exists j :: 0 <= j < |xs| && f(xs[j]) == Err(r.error) && forall k :: 0 <= k < j ==> f(xs[k]).Ok?
  {
    if xs == [] then Ok([])
    else
      match f(xs[0])
      case Err(e) => Err(e)
      case Ok(y) =>
        match MapResult(xs[1..], f)
        case Err(e) =>
          var j :| 0 <= j < |xs[1..]| && f(xs[1..][j]) == Err(e) && forall k :: 0 <= k < j ==> f(xs[1..][k]).Ok?;
          assert xs[1..][j] == xs[j + 1];
          assert forall k :: 1 <= k < j + 1 ==> xs[k] == xs[1..][k - 1];
          Err(e)
        case Ok(rest) =>
          assert forall j :: 1 <= j < |xs| ==> xs[j] == xs[1..][j - 1];
          Ok([y] + rest)
  }
}
