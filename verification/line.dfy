/** `Line`: the points lying on one plane-plane intersection line, kept in
    comparator order, and the four half-edge grids that record which
    (segment, plane, side) boundaries the face walk has already consumed. */
module Lines {
  import opened Wrappers
  import opened PointOrder

  /** The side of a plane a face lies on, measured along x ("greater"/"lesser"). */
  datatype Side = Greater | Lesser

  /** The four grids, one per (defining plane, side) pair. */
  datatype Grids = Grids(p1Greater: seq<bool>, p1Lesser: seq<bool>,
                         p2Greater: seq<bool>, p2Lesser: seq<bool>)

  /** A line formed by planes `plane1` and `plane2`; `grids` is `None` until
      the points are sorted (the source leaves the arrays null until then). */
  datatype Line = Line(plane1: nat, plane2: nat, points: seq<nat>, grids: Option<Grids>)

  /** A freshly recorded line: no points yet, no grids yet. */
  function NewLine(p1: nat, p2: nat): Line
  {
    Line(p1, p2, [], None)
  }

  /** The grids exist and have one cell per segment between consecutive points. */
  predicate GridsSized(l: Line)
  {
    && |l.points| >= 1
    && l.grids.Some?
    && |l.grids.value.p1Greater| == |l.points| - 1
    && |l.grids.value.p1Lesser| == |l.points| - 1
    && |l.grids.value.p2Greater| == |l.points| - 1
    && |l.grids.value.p2Lesser| == |l.points| - 1
  }

  function Grid(g: Grids, onPlane1: bool, side: Side): seq<bool>
  {
    match (onPlane1, side)
    case (true, Greater) => g.p1Greater
    case (true, Lesser) => g.p1Lesser
    case (false, Greater) => g.p2Greater
    case (false, Lesser) => g.p2Lesser
  }

  /** Whether half-edge (segment `i`, plane 1 or plane 2, `side`) is used. */
  function Cell(l: Line, onPlane1: bool, side: Side, i: nat): bool
    requires GridsSized(l) && i < |l.points| - 1
  {
    Grid(l.grids.value, onPlane1, side)[i]
  }

  /** `add_point`: appends exactly one point at the end of the list. */
  function AddPoint(l: Line, p: nat): (r: Line)
    ensures r.points == l.points + [p]
    ensures r.plane1 == l.plane1 && r.plane2 == l.plane2 && r.grids == l.grids
  {
    l.(points := l.points + [p])
  }

  /** `sort_points`: with no points nothing happens; otherwise four all-false
      grids of one cell per segment are allocated and the points are put in
      comparator order. */
  function SortPoints(l: Line, coord: seq<Coord>): (r: Line)
    requires AllBelow(l.points, |coord|)
    ensures |l.points| == 0 ==> r == l
    ensures r.plane1 == l.plane1 && r.plane2 == l.plane2
    ensures AllBelow(r.points, |coord|)
    ensures |l.points| > 0 ==>
      && GridsSized(r)
      && (forall f: bool, s: Side, i: nat :: i < |r.points| - 1 ==> !Cell(r, f, s, i))
      && Sorted(r.points, coord)
      && multiset(r.points) == multiset(l.points)
  {
    if |l.points| == 0 then l
    else
      var n := |l.points| - 1;
      var blank := seq(n, _ => false);
      Line(l.plane1, l.plane2, SortIds(l.points, coord), Some(Grids(blank, blank, blank, blank)))
  }

  /** `find_index`: the first position of `p` on the line, or -1. */
  method FindIndex(l: Line, p: nat) returns (r: int)
    ensures -1 <= r < |l.points|
    ensures r == -1 <==> p !in l.points
    ensures r >= 0 ==> l.points[r] == p && p !in l.points[..r]
  {
    var i := 0;
    while i <= |l.points| - 1
      invariant 0 <= i <= |l.points|
      invariant p !in l.points[..i]
    {
      if l.points[i] == p {
        return i;
      }
      assert l.points[..i + 1] == l.points[..i] + [l.points[i]];
      i := i + 1;
    }
    assert l.points[..i] == l.points;
    return -1;
  }

  /** `mark_segment`: sets the one cell for segment `i`, in the plane-1 grids
      exactly when `plane` is the line's first plane and in the plane-2 grids
      for any other plane, on the grid of `side`; every other cell keeps its value. */
  function MarkSegment(l: Line, i: nat, plane: nat, side: Side): (r: Line)
    requires GridsSized(l) && i < |l.points| - 1
    ensures GridsSized(r)
    ensures r.points == l.points && r.plane1 == l.plane1 && r.plane2 == l.plane2
    ensures forall f: bool, s: Side, j: nat :: j < |l.points| - 1 ==>
      Cell(r, f, s, j) == if f == (plane == l.plane1) && s == side && j == i then true else Cell(l, f, s, j)
  {
    var g := l.grids.value;
    var g' :=
      if plane == l.plane1 then
        (if side == Greater then g.(p1Greater := g.p1Greater[i := true])
         else g.(p1Lesser := g.p1Lesser[i := true]))
      else
        (if side == Greater then g.(p2Greater := g.p2Greater[i := true])
         else g.(p2Lesser := g.p2Lesser[i := true]));
    l.(grids := Some(g'))
  }

  /** Two sized lines that agree on planes, points and every cell are equal. */
  lemma CellsDetermineLine(a: Line, b: Line)
    requires GridsSized(a) && GridsSized(b)
    requires a.plane1 == b.plane1 && a.plane2 == b.plane2 && a.points == b.points
    requires forall f: bool, s: Side, j: nat :: j < |a.points| - 1 ==> Cell(a, f, s, j) == Cell(b, f, s, j)
    ensures a == b
  {
    var ga, gb := a.grids.value, b.grids.value;
    forall f: bool, s: Side ensures Grid(ga, f, s) == Grid(gb, f, s) {
      forall j | 0 <= j < |a.points| - 1 ensures Grid(ga, f, s)[j] == Grid(gb, f, s)[j] {
        assert Cell(a, f, s, j) == Cell(b, f, s, j);
      }
    }
    assert ga.p1Greater == Grid(ga, true, Greater) == Grid(gb, true, Greater);
    assert ga.p1Lesser == Grid(ga, true, Lesser) == Grid(gb, true, Lesser);
    assert ga.p2Greater == Grid(ga, false, Greater) == Grid(gb, false, Greater);
    assert ga.p2Lesser == Grid(ga, false, Lesser) == Grid(gb, false, Lesser);
  }

  /** Marking the same half-edge twice is the same as marking it once. */
  lemma MarkSegmentIdempotent(l: Line, i: nat, plane: nat, side: Side)
    requires GridsSized(l) && i < |l.points| - 1
    ensures MarkSegment(MarkSegment(l, i, plane, side), i, plane, side) == MarkSegment(l, i, plane, side)
  {
    var once := MarkSegment(l, i, plane, side);
    CellsDetermineLine(MarkSegment(once, i, plane, side), once);
  }

  /** ASCII case folding to lower case. */
  function Lower(c: char): char
  {
    if 'A' <= c <= 'Z' then (c as int + 32) as char else c
  }

  /** `String.equalsIgnoreCase` against an ASCII word. */
  predicate EqualsIgnoreCase(a: string, b: string)
  {
    |a| == |b| && forall i :: 0 <= i < |a| ==> Lower(a[i]) == Lower(b[i])
  }

  /** The side a string tag selects in `mark_segment` and the face walk: the
      greater side exactly when the tag is "greater" in any letter case. */
  function SideOfTag(tag: string): (r: Side)
    ensures r == Greater <==> EqualsIgnoreCase(tag, "greater")
  {
    if EqualsIgnoreCase(tag, "greater") then Greater else Lesser
  }

  /** The tags the generator writes select the sides they name, in any case. */
  lemma SideOfTagExamples()
    ensures SideOfTag("greater") == Greater && SideOfTag("GREATER") == Greater
    ensures SideOfTag("Greater") == Greater
    ensures SideOfTag("lesser") == Lesser && SideOfTag("greaterx") == Lesser && SideOfTag("") == Lesser
  {
    assert EqualsIgnoreCase("GREATER", "greater");
    assert EqualsIgnoreCase("Greater", "greater");
    assert Lower('l') != Lower('g');
  }
}
