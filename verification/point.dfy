/** `Point`: an intersection of three planes, lying on the three lines those
    planes form pairwise, and the two incidence lookups over those lines. */
module Points {
  import opened Wrappers
  import opened PointOrder
  import opened Lines

  datatype Point = Point(coord: Coord, plane1: nat, plane2: nat, plane3: nat,
                         line1: nat, line2: nat, line3: nat)

  function LinesOf(p: Point): seq<nat> { [p.line1, p.line2, p.line3] }

  function PlanesOf(p: Point): seq<nat> { [p.plane1, p.plane2, p.plane3] }

  /** The first of `a`'s lines, in the order line1, line2, line3, that is also
      one of `b`'s lines. */
  function FirstSharedLine(a: Point, b: Point): (r: Option<nat>)
    ensures r.None? <==> forall l :: l in LinesOf(a) ==> l !in LinesOf(b)
    ensures r.Some? ==> r.value in LinesOf(a) && r.value in LinesOf(b)
    ensures r.Some? && r.value != a.line1 ==> a.line1 !in LinesOf(b)
    ensures r.Some? && r.value != a.line1 && r.value != a.line2 ==> a.line2 !in LinesOf(b)
  {
    if a.line1 in LinesOf(b) then Some(a.line1)
    else if a.line2 in LinesOf(b) then Some(a.line2)
    else if a.line3 in LinesOf(b) then Some(a.line3)
    else None
  }

  /** `get_common_line`: asking about one point twice is fatal, and so is a
      pair of points with no line in common; otherwise the answer is the first
      of the receiver's lines that the other point also lies on. */
  function GetCommonLine(points: seq<Point>, self: nat, other: nat): (r: Result<nat>)
    requires self < |points| && other < |points|
    ensures self == other ==> r == Failure(SamePoint)
    ensures self != other ==>
      (r.Failure? <==> forall l :: l in LinesOf(points[self]) ==> l !in LinesOf(points[other]))
    ensures self != other && r.Failure? ==> r.fault == NoCommonLine
    ensures r.Success? ==> r.value in LinesOf(points[self]) && r.value in LinesOf(points[other])
    ensures r.Success? ==> FirstSharedLine(points[self], points[other]) == Some(r.value)
  {
    if self == other then Failure(SamePoint)
    else
      match FirstSharedLine(points[self], points[other])
      case Some(l) => Success(l)
      case None => Failure(NoCommonLine)
  }

  /** A line of the point that continues a boundary in `plane` after `current`. */
  predicate ContinuesIn(lines: seq<Line>, l: nat, plane: nat, current: nat)
    requires l < |lines|
  {
    l != current && (lines[l].plane1 == plane || lines[l].plane2 == plane)
  }

  /** Every line of the point is a line of the arena. */
  predicate LinesInArena(p: Point, nLines: nat)
  {
    p.line1 < nLines && p.line2 < nLines && p.line3 < nLines
  }

  /** `get_next_line`: the first of the point's lines other than `current` that
      belongs to `plane`; fatal when there is none. */
  function GetNextLine(lines: seq<Line>, p: Point, plane: nat, current: nat): (r: Result<nat>)
    requires LinesInArena(p, |lines|)
    ensures r.Failure? <==> forall l :: l in LinesOf(p) ==> !ContinuesIn(lines, l, plane, current)
    ensures r.Failure? ==> r.fault == NoNextLine
    ensures r.Success? ==> r.value in LinesOf(p) && ContinuesIn(lines, r.value, plane, current)
    ensures r.Success? && r.value != p.line1 ==> !ContinuesIn(lines, p.line1, plane, current)
    ensures r.Success? && r.value != p.line1 && r.value != p.line2 ==> !ContinuesIn(lines, p.line2, plane, current)
  {
    if ContinuesIn(lines, p.line1, plane, current) then Success(p.line1)
    else if ContinuesIn(lines, p.line2, plane, current) then Success(p.line2)
    else if ContinuesIn(lines, p.line3, plane, current) then Success(p.line3)
    else Failure(NoNextLine)
  }
}
