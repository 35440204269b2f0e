/** Failure-carrying datatypes shared by every module of the scene generator model.
    The generator stops the whole process on a broken invariant and crashes on a
    null dereference or a bad index; the model turns each of those into a
    `Failure` carrying the kind of fault, so the error path is a value. */
module Wrappers {

  datatype Option<+T> = None | Some(value: T)

  /** Why a computation stopped instead of producing a value. */
  datatype Fault =
    | SamePoint            // get_common_line on one point twice
    | NoCommonLine         // get_common_line found no shared line
    | NoNextLine           // get_next_line found no line in the plane
    | PointNotOnLine       // create_polygon: the point is not on the next line
    | MatchingLinesNotFound // create_scene: fewer than two further lines through a new point
    | NoSharedLine         // update_polygon_edges: consecutive points share no line
    | ThirdPolyhedron      // set_polyhedra called a third time
    | NoPolygonInPlane     // find_polygon_in_plane found nothing
    | LinePlanesEqual      // merge: both planes of an edge's line are the redundant polygon's plane
    | NullReference        // a null the source dereferences
    | IndexOutOfRange      // a list or array index the source does not check
    | Diverged             // a loop of the source that runs past the fuel the model allows

  datatype Result<+T> = Success(value: T) | Failure(fault: Fault) {
    predicate IsFailure() { Failure? }

    function PropagateFailure<U>(): Result<U>
      requires Failure?
    {
      Failure(fault)
    }

    function Extract(): T
      requires Success?
    {
      value
    }
  }
}
