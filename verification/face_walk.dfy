/** The face walk of `Model.create_polygon` and the half-edge enumeration of
    `create_scene` that drives it. Geometric side tests are an oracle:
    `xSide(anchor, line, subject)` tells whether `subject` has a greater or a
    lesser x than its projection onto the line with `line`'s direction through
    `anchor`. */
module FaceWalk {
  import opened Wrappers
  import opened PointOrder
  import opened Lines
  import opened Points
  import opened Polygons
  import Seqs

  /** Result of a projected-x comparison. */
  datatype Order = Above | Below | Level

  /** The parts of the scene the walk reads and writes. */
  datatype Scene = Scene(points: seq<Point>, lines: seq<Line>, polygons: seq<Polygon>)

  /** Ids in range, and every line holding a point has sized grids. */
  predicate WalkReady(s: Scene)
  {
    && (forall k :: 0 <= k < |s.points| ==> LinesInArena(s.points[k], |s.lines|))
    && (forall l :: 0 <= l < |s.lines| ==>
          AllBelow(s.lines[l].points, |s.points|) && (|s.lines[l].points| >= 1 ==> GridsSized(s.lines[l])))
  }

  /** `after` has the lines of `before` with the same planes and points, and no
      cell that was set has been cleared. */
  predicate MarksKept(before: seq<Line>, after: seq<Line>)
  {
    && |before| == |after|
    && forall l :: 0 <= l < |before| ==>
         && after[l].plane1 == before[l].plane1 && after[l].plane2 == before[l].plane2
         && after[l].points == before[l].points
         && (GridsSized(before[l]) ==> GridsSized(after[l]))
         && (GridsSized(before[l]) ==> forall f: bool, s: Side, j: nat ::
               j < |before[l].points| - 1 && Cell(before[l], f, s, j) ==> Cell(after[l], f, s, j))
  }

  lemma MarksKeptTrans(a: seq<Line>, b: seq<Line>, c: seq<Line>)
    requires MarksKept(a, b) && MarksKept(b, c)
    ensures MarksKept(a, c)
  {
  }

  /** Marking one segment keeps every other mark. */
  lemma MarkKeeps(lines: seq<Line>, l: nat, i: nat, plane: nat, side: Side)
    requires l < |lines| && GridsSized(lines[l]) && i < |lines[l].points| - 1
    ensures MarksKept(lines, lines[l := MarkSegment(lines[l], i, plane, side)])
  {
  }

  /** Both points lie on one line of `plane`. */
  predicate Adjacent(lines: seq<Line>, plane: nat, a: nat, b: nat)
  {
    exists l :: 0 <= l < |lines| && (lines[l].plane1 == plane || lines[l].plane2 == plane)
      && a in lines[l].points && b in lines[l].points
  }

  /** Every consecutive pair of `pts` lies on a line of `plane`. Callers cover
      the closing edge of a cycle by passing it with its first point repeated
      at the end. */
  predicate EdgesOnLines(lines: seq<Line>, plane: nat, pts: seq<nat>)
  {
    && (forall k :: 0 <= k < |pts| - 1 ==> Adjacent(lines, plane, pts[k], pts[k + 1]))
  }

  /** The candidate lies on the side of the current line the face is on. */
  predicate Accepts(side: Side, o: Order)
  {
    (side == Greater && o == Above) || (side == Lesser && o == Below)
  }

  /** Lines 806-837: the new edge's face side is greater exactly when the
      previous point lies above the new line through the candidate. */
  function NextSide(o: Order): (r: Side)
    ensures r == Greater <==> o == Above
  {
    if o == Above then Greater else Lesser
  }

  /** Marking and adjacency facts survive a change of marks. */
  lemma AdjacentKept(a: seq<Line>, b: seq<Line>, plane: nat, pts: seq<nat>)
    requires MarksKept(a, b) && EdgesOnLines(a, plane, pts)
    ensures EdgesOnLines(b, plane, pts)
  {
    forall k | 0 <= k < |pts| - 1 ensures Adjacent(b, plane, pts[k], pts[k + 1])
    {
      var l :| 0 <= l < |a| && (a[l].plane1 == plane || a[l].plane2 == plane)
        && pts[k] in a[l].points && pts[k + 1] in a[l].points;
      assert b[l].points == a[l].points;
    }
  }

  /** Where one step of the walk goes: the candidate, its segment index on the
      next line, or `None` when neither neighbour is on the face's side. */
  function PickCandidate(linePts: seq<nat>, at: nat, previous: nat, curLine: nat, side: Side,
                         xSide: (nat, nat, nat) -> Order): (r: Option<(nat, nat)>)
    requires at < |linePts|
    ensures r.Some? ==> r.value.1 < |linePts| - 1
    ensures r.Some? ==>
      || (r.value.1 == at - 1 && r.value.0 == linePts[at - 1])
      || (r.value.1 == at && r.value.0 == linePts[at + 1])
    ensures r.Some? ==> Accepts(side, xSide(previous, curLine, r.value.0))
    ensures r.None? <==>
      && (at == 0 || !Accepts(side, xSide(previous, curLine, linePts[at - 1])))
      && (at == |linePts| - 1 || !Accepts(side, xSide(previous, curLine, linePts[at + 1])))
    ensures at > 0 && Accepts(side, xSide(previous, curLine, linePts[at - 1])) ==> r == Some((linePts[at - 1], at - 1))
  {
    if at > 0 && Accepts(side, xSide(previous, curLine, linePts[at - 1])) then Some((linePts[at - 1], at - 1))
    else if at < |linePts| - 1 && Accepts(side, xSide(previous, curLine, linePts[at + 1])) then Some((linePts[at + 1], at))
    else None
  }

  /** A walk in progress: the marks so far, the points collected (the last two
      are the previous and the current point), the line of the last edge and
      the side of it the face lies on. */
  datatype Walk = Walk(lines: seq<Line>, pts: seq<nat>, curLine: nat, side: Side)

  /** What one step of the walk leads to. */
  datatype Step = Continue(next: Walk) | Close(closed: Walk) | Abandon(marks: seq<Line>)

  /** The marks a walk that started at segment `j` of `line` on `side` leaves:
      ids still in range, nothing unmarked, the starting half-edge used. */
  predicate MarksReady(s: Scene, lines': seq<Line>, line: nat, j: nat, plane: nat, side: Side)
    requires line < |s.lines| && j + 1 < |s.lines[line].points|
  {
    && WalkReady(s.(lines := lines'))
    && MarksKept(s.lines, lines')
    && GridsSized(lines'[line])
    && Cell(lines'[line], plane == s.lines[line].plane1, side, j)
  }

  /** What holds of a walk that started at segment `j` of `line` on `side`. */
  predicate WalkInv(s: Scene, w: Walk, line: nat, j: nat, plane: nat, side: Side)
    requires line < |s.lines| && j + 1 < |s.lines[line].points|
  {
    && MarksReady(s, w.lines, line, j, plane, side)
    && |w.pts| >= 2
    && w.pts[0] == s.lines[line].points[j] && w.pts[1] == s.lines[line].points[j + 1]
    && w.pts[0] !in w.pts[2..]
    && w.curLine < |w.lines|
    && w.pts[|w.pts| - 2] in w.lines[w.curLine].points
    && w.pts[|w.pts| - 1] in w.lines[w.curLine].points
    && w.pts[|w.pts| - 1] < |s.points|
    && EdgesOnLines(w.lines, plane, w.pts)
  }

  /** Ready scenes stay ready when only marks change. */
  lemma ReadyKept(s: Scene, a: seq<Line>, b: seq<Line>)
    requires WalkReady(s.(lines := a)) && MarksKept(a, b)
    ensures WalkReady(s.(lines := b))
  {
    forall l | 0 <= l < |b|
      ensures AllBelow(b[l].points, |s.points|) && (|b[l].points| >= 1 ==> GridsSized(b[l]))
    {
      assert b[l].points == a[l].points;
    }
  }

  /** Marking a segment of a line of `plane` keeps the walk invariant's
      mark-related parts. */
  lemma MarkStepKeepsInv(s: Scene, w: Walk, line: nat, j: nat, plane: nat, side: Side,
                         nextLine: nat, seg: nat, newSide: Side, lines': seq<Line>)
    requires line < |s.lines| && j + 1 < |s.lines[line].points|
    requires WalkInv(s, w, line, j, plane, side)
    requires nextLine < |w.lines| && GridsSized(w.lines[nextLine]) && seg < |w.lines[nextLine].points| - 1
    requires lines' == w.lines[nextLine := MarkSegment(w.lines[nextLine], seg, plane, newSide)]
    ensures WalkReady(s.(lines := lines')) && MarksKept(s.lines, lines') && MarksKept(w.lines, lines')
    ensures GridsSized(lines'[line]) && Cell(lines'[line], plane == s.lines[line].plane1, side, j)
    ensures EdgesOnLines(lines', plane, w.pts)
    ensures forall l :: 0 <= l < |lines'| ==> lines'[l].points == w.lines[l].points
  {
    MarkKeeps(w.lines, nextLine, seg, plane, newSide);
    MarksKeptTrans(s.lines, w.lines, lines');
    ReadyKept(s, w.lines, lines');
    AdjacentKept(w.lines, lines', plane, w.pts);
  }

  /** Appending an accepted candidate keeps the walk invariant. */
  lemma AdvanceKeepsInv(s: Scene, w: Walk, line: nat, j: nat, plane: nat, side: Side,
                        lines': seq<Line>, nextLine: nat, candidate: nat, newSide: Side)
    requires line < |s.lines| && j + 1 < |s.lines[line].points|
    requires |w.pts| >= 2 && w.pts[0] == s.lines[line].points[j] && w.pts[1] == s.lines[line].points[j + 1]
    requires w.pts[0] !in w.pts[2..]
    requires WalkReady(s.(lines := lines')) && MarksKept(s.lines, lines')
    requires GridsSized(lines'[line]) && Cell(lines'[line], plane == s.lines[line].plane1, side, j)
    requires EdgesOnLines(lines', plane, w.pts) && Adjacent(lines', plane, w.pts[|w.pts| - 1], candidate)
    requires nextLine < |lines'| && w.pts[|w.pts| - 1] in lines'[nextLine].points && candidate in lines'[nextLine].points
    requires candidate != w.pts[0]
    ensures WalkInv(s, Walk(lines', w.pts + [candidate], nextLine, newSide), line, j, plane, side)
    ensures (w.pts + [candidate])[..|w.pts|] == w.pts
  {
    var pts := w.pts + [candidate];
    assert pts[2..] == w.pts[2..] + [candidate];
    assert pts[..|w.pts|] == w.pts;
    assert pts[0] == w.pts[0] && pts[1] == w.pts[1];
    assert pts[|pts| - 2] == w.pts[|w.pts| - 1] && pts[|pts| - 1] == candidate;
    assert AllBelow(lines'[nextLine].points, |s.points|);
    assert candidate < |s.points|;
    EdgesOnLinesSnoc(lines', plane, w.pts, candidate);
  }

  /** A walk whose last point is adjacent to `x` may be extended by `x`. */
  lemma EdgesOnLinesSnoc(lines: seq<Line>, plane: nat, pts: seq<nat>, x: nat)
    requires |pts| >= 1 && EdgesOnLines(lines, plane, pts) && Adjacent(lines, plane, pts[|pts| - 1], x)
    ensures EdgesOnLines(lines, plane, pts + [x])
  {
    var pts' := pts + [x];
    forall k | 0 <= k < |pts'| - 1 ensures Adjacent(lines, plane, pts'[k], pts'[k + 1])
    {
      if k < |pts| - 1 {
        assert pts'[k] == pts[k] && pts'[k + 1] == pts[k + 1];
      }
    }
  }

  /** Two points on one line of `plane` are adjacent. */
  lemma OnLineAdjacent(lines: seq<Line>, plane: nat, l: nat, a: nat, b: nat)
    requires l < |lines| && (lines[l].plane1 == plane || lines[l].plane2 == plane)
    requires a in lines[l].points && b in lines[l].points
    ensures Adjacent(lines, plane, a, b)
  {
  }

  /** After marking the crossed segment, the walk either closes at its first
      point or goes on with the candidate appended; either way it keeps its
      invariant. */
  lemma MarkedStep(s: Scene, w: Walk, line: nat, j: nat, plane: nat, side: Side,
                   nextLine: nat, seg: nat, newSide: Side, lines': seq<Line>, candidate: nat)
    requires line < |s.lines| && j + 1 < |s.lines[line].points|
    requires WalkInv(s, w, line, j, plane, side)
    requires nextLine < |w.lines| && GridsSized(w.lines[nextLine]) && seg < |w.lines[nextLine].points| - 1
    requires lines' == w.lines[nextLine := MarkSegment(w.lines[nextLine], seg, plane, newSide)]
    requires w.pts[|w.pts| - 1] in w.lines[nextLine].points && candidate in w.lines[nextLine].points
    requires w.lines[nextLine].plane1 == plane || w.lines[nextLine].plane2 == plane
    ensures candidate == w.pts[0] ==>
      && WalkInv(s, w.(lines := lines'), line, j, plane, side)
      && EdgesOnLines(lines', plane, w.pts + [w.pts[0]])
    ensures candidate != w.pts[0] ==>
      && WalkInv(s, Walk(lines', w.pts + [candidate], nextLine, newSide), line, j, plane, side)
      && (w.pts + [candidate])[..|w.pts|] == w.pts
  {
    var current := w.pts[|w.pts| - 1];
    MarkStepKeepsInv(s, w, line, j, plane, side, nextLine, seg, newSide, lines');
    OnLineAdjacent(lines', plane, nextLine, current, candidate);
    if candidate == w.pts[0] {
      EdgesOnLinesSnoc(lines', plane, w.pts, candidate);
    } else {
      AdvanceKeepsInv(s, w, line, j, plane, side, lines', nextLine, candidate, newSide);
    }
  }

  /** What a step of the walk needs: a previous and a current point, the
      current one in the arena, and every line holding a point sized. */
  predicate StepReady(s: Scene, w: Walk)
  {
    |w.pts| >= 2 && w.pts[|w.pts| - 1] < |s.points| && WalkReady(s.(lines := w.lines))
  }

  /** Lines 697-776 of `create_polygon`: the next line in `plane` through the
      current point, and the neighbour picked on it (candidate and segment
      index), or `None` when neither neighbour lies on the face's side. The
      current point missing from that line is `PointNotOnLine`. */
  function Probe(s: Scene, w: Walk, plane: nat, xSide: (nat, nat, nat) -> Order): (r: Result<(nat, Option<(nat, nat)>)>)
    requires StepReady(s, w)
    ensures r.Failure? ==> r.fault in {NoNextLine, PointNotOnLine}
    ensures r.Success? ==>
      && r.value.0 < |w.lines| && ContinuesIn(w.lines, r.value.0, plane, w.curLine)
      && w.pts[|w.pts| - 1] in w.lines[r.value.0].points && GridsSized(w.lines[r.value.0])
    ensures r.Success? && r.value.1.Some? ==>
      r.value.1.value.0 in w.lines[r.value.0].points && r.value.1.value.1 < |w.lines[r.value.0].points| - 1
  {
    var current := w.pts[|w.pts| - 1];
    match GetNextLine(w.lines, s.points[current], plane, w.curLine)
    case Failure(f) => Failure(f)
    case Success(nextLine) =>
      var at := Seqs.IndexOf(w.lines[nextLine].points, current);
      if at == -1 then Failure(PointNotOnLine)
      else Success((nextLine, PickCandidate(w.lines[nextLine].points, at, w.pts[|w.pts| - 2], w.curLine, w.side, xSide)))
  }

  /** Lines 806-845: the walk crosses the picked segment. The segment is marked
      with the face's side on the new line, and the candidate is appended. */
  function Crossing(s: Scene, w: Walk, plane: nat, xSide: (nat, nat, nat) -> Order): (r: Walk)
    requires StepReady(s, w)
    requires Probe(s, w, plane, xSide).Success? && Probe(s, w, plane, xSide).value.1.Some?
  {
    var (nextLine, pick) := Probe(s, w, plane, xSide).value;
    var (candidate, seg) := pick.value;
    var newSide := NextSide(xSide(candidate, nextLine, w.pts[|w.pts| - 2]));
    Walk(w.lines[nextLine := MarkSegment(w.lines[nextLine], seg, plane, newSide)], w.pts + [candidate], nextLine, newSide)
  }

  /** One pass of the `do ... while` body of `create_polygon` (lines 692-850).
      The walk is dropped exactly when no neighbour qualifies, and closes
      exactly when the picked candidate is the walk's first point. Otherwise it
      goes on from the candidate, with the crossed segment marked. Either way
      the walk invariant is kept. */
  function WalkStep(s: Scene, w: Walk, line: nat, j: nat, plane: nat, side: Side,
                    xSide: (nat, nat, nat) -> Order): (r: Result<Step>)
    requires line < |s.lines| && j + 1 < |s.lines[line].points|
    requires WalkInv(s, w, line, j, plane, side)
    ensures Probe(s, w, plane, xSide).Failure? ==> r == Failure(Probe(s, w, plane, xSide).fault)
    ensures Probe(s, w, plane, xSide).Success? ==> r.Success?
    ensures r.Success? ==> (r.value.Abandon? <==> Probe(s, w, plane, xSide).value.1.None?)
    ensures r.Success? ==>
      (r.value.Close? <==> Probe(s, w, plane, xSide).value.1.Some? && Probe(s, w, plane, xSide).value.1.value.0 == w.pts[0])
    ensures r.Success? && r.value.Abandon? ==> r.value.marks == w.lines
    ensures r.Success? && r.value.Continue? ==>
      && r.value.next == Crossing(s, w, plane, xSide)
      && WalkInv(s, r.value.next, line, j, plane, side)
    ensures r.Success? && r.value.Close? ==>
      && r.value.closed == w.(lines := Crossing(s, w, plane, xSide).lines)
      && WalkInv(s, r.value.closed, line, j, plane, side)
      && EdgesOnLines(r.value.closed.lines, plane, w.pts + [w.pts[0]])
  {
    var pr := Probe(s, w, plane, xSide);
    if pr.Failure? then Failure(pr.fault)
    else if pr.value.1.None? then Success(Abandon(w.lines))
    else
      var c := Crossing(s, w, plane, xSide);
      var candidate := pr.value.1.value.0;
      MarkedStep(s, w, line, j, plane, side, pr.value.0, pr.value.1.value.1, c.side, c.lines, candidate);
      if candidate == w.pts[0] then Success(Close(w.(lines := c.lines)))
      else Success(Continue(c))
  }

  /** The `do ... while` loop of `create_polygon` (lines 692-850) as a fold:
      steps the walk until it closes, is dropped or fails; `fuel` bounds the
      number of steps, and running out of it is `Diverged`. A closed walk keeps
      the walk invariant and its last point is adjacent to its first on a line
      of the plane; a dropped walk leaves the starting half-edge used and
      clears no mark. */
  function WalkFrom(s: Scene, w: Walk, line: nat, j: nat, plane: nat, side: Side,
                    xSide: (nat, nat, nat) -> Order, fuel: nat): (r: Result<Step>)
    requires line < |s.lines| && j + 1 < |s.lines[line].points|
    requires WalkInv(s, w, line, j, plane, side)
    ensures r.Failure? ==> r.fault in {NoNextLine, PointNotOnLine, Diverged}
    ensures r.Success? ==> !r.value.Continue?
    ensures r.Success? && r.value.Close? ==>
      && WalkInv(s, r.value.closed, line, j, plane, side)
      && EdgesOnLines(r.value.closed.lines, plane, r.value.closed.pts + [r.value.closed.pts[0]])
    ensures r.Success? && r.value.Abandon? ==> MarksReady(s, r.value.marks, line, j, plane, side)
    decreases fuel
  {
    if fuel == 0 then Failure(Diverged)
    else
      match WalkStep(s, w, line, j, plane, side, xSide)
      case Failure(f) => Failure(f)
      case Success(Continue(next)) => WalkFrom(s, next, line, j, plane, side, xSide, fuel - 1)
      case Success(st) => Success(st)
  }

  /** The walk as it starts: the first half-edge marked, its two points taken. */
  lemma WalkStart(s: Scene, first: nat, second: nat, line: nat, j: nat, plane: nat, side: Side)
    requires WalkReady(s)
    requires line < |s.lines| && j + 1 < |s.lines[line].points|
    requires first == s.lines[line].points[j] && second == s.lines[line].points[j + 1]
    requires plane == s.lines[line].plane1 || plane == s.lines[line].plane2
    ensures WalkInv(s, Walk(s.lines[line := MarkSegment(s.lines[line], j, plane, side)], [first, second], line, side),
                    line, j, plane, side)
  {
    var lines := s.lines[line := MarkSegment(s.lines[line], j, plane, side)];
    MarkKeeps(s.lines, line, j, plane, side);
    OnLineAdjacent(lines, plane, line, first, second);
  }

  /** Lines 676-690: the walk as it starts, with the half-edge at segment `j`
      of `line` marked and its two points taken. */
  function StartWalk(s: Scene, line: nat, j: nat, plane: nat, side: Side): (w: Walk)
    requires WalkReady(s)
    requires line < |s.lines| && j + 1 < |s.lines[line].points|
    requires plane == s.lines[line].plane1 || plane == s.lines[line].plane2
    ensures WalkInv(s, w, line, j, plane, side)
  {
    var first, second := s.lines[line].points[j], s.lines[line].points[j + 1];
    WalkStart(s, first, second, line, j, plane, side);
    Walk(s.lines[line := MarkSegment(s.lines[line], j, plane, side)], [first, second], line, side)
  }

  /** `create_polygon` (lines 676-851). Starting from segment `j` of line `line`
      between `first` and `second`, marks that half-edge, then runs the walk.
      A closed walk appends its points as a polygon named `name`; a dropped
      walk appends nothing but keeps its marks; a fault is passed on. */
  function CreatePolygon(s: Scene, first: nat, second: nat, line: nat, j: nat, plane: nat, side: Side,
                         name: int, xSide: (nat, nat, nat) -> Order, fuel: nat): (r: Result<Scene>)
    requires WalkReady(s)
    requires line < |s.lines| && j + 1 < |s.lines[line].points|
    requires first == s.lines[line].points[j] && second == s.lines[line].points[j + 1]
    requires plane == s.lines[line].plane1 || plane == s.lines[line].plane2
    ensures var run := WalkFrom(s, StartWalk(s, line, j, plane, side), line, j, plane, side, xSide, fuel);
      && (r.Failure? <==> run.Failure?)
      && (r.Failure? ==> r.fault == run.fault)
      && (r.Success? && run.value.Close? ==>
            r.value == s.(lines := run.value.closed.lines, polygons := s.polygons + [ClosedPolygon(plane, name, run.value.closed.pts)]))
      && (r.Success? && run.value.Abandon? ==> r.value == s.(lines := run.value.marks))
  {
    match WalkFrom(s, StartWalk(s, line, j, plane, side), line, j, plane, side, xSide, fuel)
    case Failure(f) => Failure(f)
    case Success(Close(c)) => Success(s.(lines := c.lines, polygons := s.polygons + [ClosedPolygon(plane, name, c.pts)]))
    case Success(Abandon(marks)) => Success(s.(lines := marks))
    case Success(Continue(_)) => assert false; Failure(Diverged)
  }

  /** The polygon a closed walk makes: its points in walk order, in `plane`,
      named `name`, unmarked, unmerged and unowned. */
  function ClosedPolygon(plane: nat, name: int, pts: seq<nat>): (p: Polygon)
    requires |pts| >= 2
    ensures p.plane == plane && p.name == name && p.points == pts
    ensures !p.greaterMarked && !p.lesserMarked && p.mergedInto.None? && p.owner1.None? && p.owner2.None?
  {
    NewPolygon(plane, pts[0], pts[1]).(points := pts, name := name)
  }

  /** What `create_polygon` leaves: the points are untouched and only marks
      change on the lines, none is cleared and the starting half-edge is used.
      At most one polygon is appended, exactly when the walk closes; it
      starts with `first` and `second`, does not come back to `first` before
      the end, and each of its edges, the closing one included, lies on a line
      of its plane. */
  lemma CreatePolygonKeeps(s: Scene, first: nat, second: nat, line: nat, j: nat, plane: nat, side: Side,
                           name: int, xSide: (nat, nat, nat) -> Order, fuel: nat)
    requires WalkReady(s)
    requires line < |s.lines| && j + 1 < |s.lines[line].points|
    requires first == s.lines[line].points[j] && second == s.lines[line].points[j + 1]
    requires plane == s.lines[line].plane1 || plane == s.lines[line].plane2
    ensures var r := CreatePolygon(s, first, second, line, j, plane, side, name, xSide, fuel);
      && (r.Failure? ==> r.fault in {NoNextLine, PointNotOnLine, Diverged})
      && (r.Success? ==> WalkReady(r.value) && r.value.points == s.points)
      && (r.Success? ==> MarksKept(s.lines, r.value.lines))
      && (r.Success? ==> GridsSized(r.value.lines[line]))
      && (r.Success? ==> Cell(r.value.lines[line], plane == s.lines[line].plane1, side, j))
      && (r.Success? ==> |s.polygons| <= |r.value.polygons| <= |s.polygons| + 1)
      && (r.Success? ==> r.value.polygons[..|s.polygons|] == s.polygons)
      && (r.Success? && |r.value.polygons| > |s.polygons| ==>
            var p := r.value.polygons[|s.polygons|];
            && p.plane == plane && p.name == name
            && |p.points| >= 2 && p.points[0] == first && p.points[1] == second
            && first !in p.points[2..]
            && EdgesOnLines(r.value.lines, plane, p.points + [first])
            && !p.greaterMarked && !p.lesserMarked && p.mergedInto.None? && p.owner1.None? && p.owner2.None?)
  {
    var run := WalkFrom(s, StartWalk(s, line, j, plane, side), line, j, plane, side, xSide, fuel);
    if run.Success? && run.value.Close? {
      var c := run.value.closed;
      ClosedOutcome(s, c, line, j, plane, side, ClosedPolygon(plane, name, c.pts));
    }
  }

  /** A closed walk, appended as a polygon, gives the scene `create_polygon` promises. */
  lemma ClosedOutcome(s: Scene, c: Walk, line: nat, j: nat, plane: nat, side: Side, poly: Polygon)
    requires line < |s.lines| && j + 1 < |s.lines[line].points|
    requires WalkInv(s, c, line, j, plane, side)
    requires EdgesOnLines(c.lines, plane, c.pts + [c.pts[0]])
    requires poly.points == c.pts && poly.plane == plane
    ensures var s' := s.(lines := c.lines, polygons := s.polygons + [poly]);
      && WalkReady(s') && MarksKept(s.lines, s'.lines) && s'.polygons[..|s.polygons|] == s.polygons
      && var p := s'.polygons[|s.polygons|];
         && |p.points| >= 2 && p.points[0] == s.lines[line].points[j] && p.points[1] == s.lines[line].points[j + 1]
         && s.lines[line].points[j] !in p.points[2..]
         && EdgesOnLines(s'.lines, plane, p.points + [s.lines[line].points[j]])
  {
    assert (s.polygons + [poly])[..|s.polygons|] == s.polygons;
  }

  /** The first `n` segments of a sized line have all four half-edges used. */
  predicate ConsumedUpTo(l: Line, n: nat)
  {
    GridsSized(l) && n <= |l.points| - 1 &&
    forall f: bool, sd: Side, k: nat :: k < n ==> Cell(l, f, sd, k)
  }

  lemma ConsumedKept(a: seq<Line>, b: seq<Line>, l: nat, n: nat)
    requires MarksKept(a, b) && l < |a| && ConsumedUpTo(a[l], n)
    ensures ConsumedUpTo(b[l], n)
  {
  }

  /** Every line before `i` with at least two points has all its half-edges
      used in `cur`. */
  predicate LinesConsumed(orig: seq<Line>, cur: seq<Line>, i: nat)
    requires i <= |orig| && |cur| == |orig|
  {
    forall l :: 0 <= l < i && |orig[l].points| > 1 ==> ConsumedUpTo(cur[l], |orig[l].points| - 1)
  }

  /** Marks kept from `before` to `after` keep the used lines, and line `i`
      joins them once all its half-edges are used. */
  lemma LinesConsumedStep(orig: seq<Line>, before: seq<Line>, after: seq<Line>, i: nat)
    requires i < |orig| && |before| == |orig| && LinesConsumed(orig, before, i) && MarksKept(before, after)
    requires |orig[i].points| > 1 ==> ConsumedUpTo(after[i], |orig[i].points| - 1)
    ensures LinesConsumed(orig, after, i + 1)
  {
    forall l | 0 <= l < i && |orig[l].points| > 1
      ensures ConsumedUpTo(after[l], |orig[l].points| - 1)
    {
      ConsumedKept(before, after, l, |orig[l].points| - 1);
    }
  }

  /** A used cell stays used while marks are kept. */
  lemma ConsumedCellKept(a: seq<Line>, b: seq<Line>, l: nat, f: bool, sd: Side, j: nat)
    requires MarksKept(a, b) && l < |a| && GridsSized(a[l]) && j < |a[l].points| - 1 && Cell(a[l], f, sd, j)
    ensures GridsSized(b[l]) && Cell(b[l], f, sd, j)
  {
  }

  /** Polygon ids and names coincide. */
  predicate NamedInOrder(polys: seq<Polygon>)
  {
    forall k :: 0 <= k < |polys| ==> polys[k].name == k
  }

  /** Every line is formed by two different planes. */
  predicate DistinctPlanes(lines: seq<Line>)
  {
    forall l :: 0 <= l < |lines| ==> lines[l].plane1 != lines[l].plane2
  }

  /** The plane of line `l` a half-edge lies in. */
  function PlaneOf(l: Line, onPlane1: bool): nat
  {
    if onPlane1 then l.plane1 else l.plane2
  }

  /** Polygon names stay in step with ids when at most one polygon, named
      with the next id, is appended. */
  lemma NamedAfterCreate(polys: seq<Polygon>, polys': seq<Polygon>)
    requires NamedInOrder(polys) && |polys| <= |polys'| <= |polys| + 1 && polys'[..|polys|] == polys
    requires |polys'| > |polys| ==> polys'[|polys|].name == |polys|
    ensures NamedInOrder(polys')
  {
    forall k | 0 <= k < |polys'| ensures polys'[k].name == k
    {
      if k < |polys| {
        assert polys'[k] == polys'[..|polys|][k];
      }
    }
  }

  /** One of the four checks at lines 290-337: when half-edge (segment `j`,
      plane 1 or 2, `side`) of line `i` is used, nothing happens; otherwise
      `create_polygon` runs from it, and the running polygon name advances
      exactly when it produced a polygon. */
  function VisitHalfEdge(s: Scene, i: nat, j: nat, onPlane1: bool, side: Side, name: nat,
                         xSide: (nat, nat, nat) -> Order, fuel: nat): (r: Result<(Scene, nat)>)
    requires WalkReady(s) && i < |s.lines| && j + 1 < |s.lines[i].points|
    ensures Cell(s.lines[i], onPlane1, side, j) ==> r == Success((s, name))
    ensures !Cell(s.lines[i], onPlane1, side, j) ==>
      var made := CreatePolygon(s, s.lines[i].points[j], s.lines[i].points[j + 1], i, j,
                                PlaneOf(s.lines[i], onPlane1), side, name, xSide, fuel);
      && (r.Failure? <==> made.Failure?)
      && (r.Failure? ==> r.fault == made.fault)
      && (r.Success? ==> r.value.0 == made.value)
      && (r.Success? ==> (r.value.1 == name + 1 <==> |made.value.polygons| == name + 1))
  {
    var line := s.lines[i];
    if Cell(line, onPlane1, side, j) then Success((s, name))
    else
      match CreatePolygon(s, line.points[j], line.points[j + 1], i, j, PlaneOf(line, onPlane1), side, name, xSide, fuel)
      case Failure(f) => Failure(f)
      case Success(s') => Success((s', if |s'.polygons| == name + 1 then name + 1 else name))
  }

  /** What a half-edge check leaves: only marks change on the lines and the
      half-edge is used; the polygons before stay, and polygon names stay in
      step with ids and with the running name. */
  lemma VisitHalfEdgeKeeps(s: Scene, i: nat, j: nat, onPlane1: bool, side: Side, name: nat,
                           xSide: (nat, nat, nat) -> Order, fuel: nat)
    requires WalkReady(s) && DistinctPlanes(s.lines)
    requires i < |s.lines| && j + 1 < |s.lines[i].points|
    requires NamedInOrder(s.polygons) && name == |s.polygons|
    ensures var r := VisitHalfEdge(s, i, j, onPlane1, side, name, xSide, fuel);
      && (r.Failure? ==> r.fault in {NoNextLine, PointNotOnLine, Diverged})
      && (r.Success? ==> WalkReady(r.value.0) && r.value.0.points == s.points)
      && (r.Success? ==> MarksKept(s.lines, r.value.0.lines) && DistinctPlanes(r.value.0.lines))
      && (r.Success? ==> GridsSized(r.value.0.lines[i]) && Cell(r.value.0.lines[i], onPlane1, side, j))
      && (r.Success? ==> NamedInOrder(r.value.0.polygons) && r.value.1 == |r.value.0.polygons|)
      && (r.Success? ==> |r.value.0.polygons| >= |s.polygons| && r.value.0.polygons[..|s.polygons|] == s.polygons)
  {
    var line := s.lines[i];
    if !Cell(line, onPlane1, side, j) {
      CreatePolygonKeeps(s, line.points[j], line.points[j + 1], i, j, PlaneOf(line, onPlane1), side, name, xSide, fuel);
      var made := CreatePolygon(s, line.points[j], line.points[j + 1], i, j, PlaneOf(line, onPlane1), side, name, xSide, fuel);
      if made.Success? {
        NamedAfterCreate(s.polygons, made.value.polygons);
      }
    }
  }

  /** The order of the four checks at lines 291-337: plane 1 greater, plane 1
      lesser, plane 2 greater, plane 2 lesser. */
  function HalfEdgeAt(k: nat): (bool, Side)
    requires k < 4
  {
    if k == 0 then (true, Greater)
    else if k == 1 then (true, Lesser)
    else if k == 2 then (false, Greater)
    else (false, Lesser)
  }

  /** The checks from the `k`-th on for segment `j` of line `i`, in the
      source's order, stopping at the first fault. Afterwards each of those
      half-edges is used. */
  function SegmentFrom(s: Scene, i: nat, j: nat, name: nat, k: nat,
                       xSide: (nat, nat, nat) -> Order, fuel: nat): (r: Result<(Scene, nat)>)
    requires WalkReady(s) && DistinctPlanes(s.lines)
    requires i < |s.lines| && j + 1 < |s.lines[i].points|
    requires NamedInOrder(s.polygons) && name == |s.polygons| && k <= 4
    ensures r.Failure? ==> r.fault in {NoNextLine, PointNotOnLine, Diverged}
    ensures r.Success? ==> WalkReady(r.value.0) && r.value.0.points == s.points
    ensures r.Success? ==> MarksKept(s.lines, r.value.0.lines) && DistinctPlanes(r.value.0.lines)
    ensures r.Success? ==> NamedInOrder(r.value.0.polygons) && r.value.1 == |r.value.0.polygons|
    decreases 4 - k
  {
    if k == 4 then Success((s, name))
    else
      VisitHalfEdgeKeeps(s, i, j, HalfEdgeAt(k).0, HalfEdgeAt(k).1, name, xSide, fuel);
      match VisitHalfEdge(s, i, j, HalfEdgeAt(k).0, HalfEdgeAt(k).1, name, xSide, fuel)
      case Failure(f) => Failure(f)
      case Success((s', n')) =>
        var r := SegmentFrom(s', i, j, n', k + 1, xSide, fuel);
        if r.Success? then
          MarksKeptTrans(s.lines, s'.lines, r.value.0.lines);
          r
        else r
  }

  /** After the checks from the `k`-th on, each of those half-edges of
      segment `j` is used. */
  lemma {:induction false} SegmentFromUses(s: Scene, i: nat, j: nat, name: nat, k: nat,
                                           xSide: (nat, nat, nat) -> Order, fuel: nat, r: Result<(Scene, nat)>)
    requires WalkReady(s) && DistinctPlanes(s.lines)
    requires i < |s.lines| && j + 1 < |s.lines[i].points|
    requires NamedInOrder(s.polygons) && name == |s.polygons| && k <= 4
    requires r == SegmentFrom(s, i, j, name, k, xSide, fuel)
    ensures r.Success? ==> forall q :: k <= q < 4 ==> Cell(r.value.0.lines[i], HalfEdgeAt(q).0, HalfEdgeAt(q).1, j)
    decreases 4 - k
  {
    if k < 4 {
      VisitHalfEdgeKeeps(s, i, j, HalfEdgeAt(k).0, HalfEdgeAt(k).1, name, xSide, fuel);
      var step := VisitHalfEdge(s, i, j, HalfEdgeAt(k).0, HalfEdgeAt(k).1, name, xSide, fuel);
      if step.Success? && r.Success? {
        var (s', n') := step.value;
        SegmentFromUses(s', i, j, n', k + 1, xSide, fuel, r);
        ConsumedCellKept(s'.lines, r.value.0.lines, i, HalfEdgeAt(k).0, HalfEdgeAt(k).1, j);
      }
    }
  }

  /** Lines 288-337 for one segment `j` of line `i`: the four checks run in
      the source's order (the fold `SegmentFrom`); afterwards all four
      half-edges of the segment are used. */
  method VisitSegment(s: Scene, i: nat, j: nat, name: nat, xSide: (nat, nat, nat) -> Order, fuel: nat)
    returns (r: Result<(Scene, nat)>)
    requires WalkReady(s) && DistinctPlanes(s.lines)
    requires i < |s.lines| && j + 1 < |s.lines[i].points|
    requires NamedInOrder(s.polygons) && name == |s.polygons|
    requires ConsumedUpTo(s.lines[i], j)
    ensures r == SegmentFrom(s, i, j, name, 0, xSide, fuel)
    ensures r.Failure? ==> r.fault in {NoNextLine, PointNotOnLine, Diverged}
    ensures r.Success? ==> WalkReady(r.value.0) && r.value.0.points == s.points
    ensures r.Success? ==> MarksKept(s.lines, r.value.0.lines) && DistinctPlanes(r.value.0.lines)
    ensures r.Success? ==> NamedInOrder(r.value.0.polygons) && r.value.1 == |r.value.0.polygons|
    ensures r.Success? ==> ConsumedUpTo(r.value.0.lines[i], j + 1)
  {
    var cur := s;
    var n := name;
    var k := 0;
    while k < 4
      invariant 0 <= k <= 4
      invariant WalkReady(cur) && cur.points == s.points && MarksKept(s.lines, cur.lines)
      invariant DistinctPlanes(cur.lines)
      invariant NamedInOrder(cur.polygons) && n == |cur.polygons|
      invariant SegmentFrom(s, i, j, name, 0, xSide, fuel) == SegmentFrom(cur, i, j, n, k, xSide, fuel)
    {
      VisitHalfEdgeKeeps(cur, i, j, HalfEdgeAt(k).0, HalfEdgeAt(k).1, n, xSide, fuel);
      var step := VisitHalfEdge(cur, i, j, HalfEdgeAt(k).0, HalfEdgeAt(k).1, n, xSide, fuel);
      if step.Failure? {
        return Failure(step.fault);
      }
      MarksKeptTrans(s.lines, cur.lines, step.value.0.lines);
      cur, n := step.value.0, step.value.1;
      k := k + 1;
    }
    r := Success((cur, n));
    SegmentConsumed(s, cur, i, j, xSide, fuel, name);
  }

  /** After the four checks, segment `j` joins the used segments before it. */
  lemma SegmentConsumed(s: Scene, s': Scene, i: nat, j: nat, xSide: (nat, nat, nat) -> Order, fuel: nat, name: nat)
    requires WalkReady(s) && DistinctPlanes(s.lines)
    requires i < |s.lines| && j + 1 < |s.lines[i].points|
    requires NamedInOrder(s.polygons) && name == |s.polygons|
    requires ConsumedUpTo(s.lines[i], j)
    requires SegmentFrom(s, i, j, name, 0, xSide, fuel).Success?
    requires s' == SegmentFrom(s, i, j, name, 0, xSide, fuel).value.0
    ensures ConsumedUpTo(s'.lines[i], j + 1)
  {
    ConsumedKept(s.lines, s'.lines, i, j);
    SegmentFromUses(s, i, j, name, 0, xSide, fuel, SegmentFrom(s, i, j, name, 0, xSide, fuel));
    forall f: bool, sd: Side ensures Cell(s'.lines[i], f, sd, j)
    {
      var q := if f then (if sd == Greater then 0 else 1) else (if sd == Greater then 2 else 3);
      assert HalfEdgeAt(q) == (f, sd);
    }
  }

  /** The half-edge enumeration from segment `j` of line `i` on, as a fold:
      every segment of every line with at least two points, in line order and
      then segment order, stopping at the first fault. */
  function EnumerateFrom(s: Scene, i: nat, j: nat, name: nat, xSide: (nat, nat, nat) -> Order, fuel: nat)
    : (r: Result<(Scene, nat)>)
    requires WalkReady(s) && DistinctPlanes(s.lines)
    requires NamedInOrder(s.polygons) && name == |s.polygons| && i <= |s.lines|
    ensures r.Failure? ==> r.fault in {NoNextLine, PointNotOnLine, Diverged}
    ensures r.Success? ==> WalkReady(r.value.0) && r.value.0.points == s.points
    ensures r.Success? ==> MarksKept(s.lines, r.value.0.lines) && DistinctPlanes(r.value.0.lines)
    ensures r.Success? ==> NamedInOrder(r.value.0.polygons) && r.value.1 == |r.value.0.polygons|
    decreases |s.lines| - i, if i < |s.lines| then |s.lines[i].points| - j else 0
  {
    if i == |s.lines| then Success((s, name))
    else if j + 1 >= |s.lines[i].points| then EnumerateFrom(s, i + 1, 0, name, xSide, fuel)
    else
      match SegmentFrom(s, i, j, name, 0, xSide, fuel)
      case Failure(f) => Failure(f)
      case Success((s', n')) =>
        assert s'.lines[i].points == s.lines[i].points;
        var r := EnumerateFrom(s', i, j + 1, n', xSide, fuel);
        if r.Success? then
          MarksKeptTrans(s.lines, s'.lines, r.value.0.lines);
          r
        else r
  }

  /** The segments of line `i` in order (the inner loop of lines 276-338):
      the fold `EnumerateFrom` over this line continues with the next line
      from where this loop leaves off. */
  method EnumerateLine(s: Scene, i: nat, name: nat, xSide: (nat, nat, nat) -> Order, fuel: nat)
    returns (r: Result<(Scene, nat)>)
    requires WalkReady(s) && DistinctPlanes(s.lines)
    requires NamedInOrder(s.polygons) && name == |s.polygons| && i < |s.lines|
    ensures r.Failure? ==> EnumerateFrom(s, i, 0, name, xSide, fuel) == r
    ensures r.Success? ==> WalkReady(r.value.0) && r.value.0.points == s.points
    ensures r.Success? ==> MarksKept(s.lines, r.value.0.lines) && DistinctPlanes(r.value.0.lines)
    ensures r.Success? ==> NamedInOrder(r.value.0.polygons) && r.value.1 == |r.value.0.polygons|
    ensures r.Success? ==> |s.lines[i].points| > 1 ==> ConsumedUpTo(r.value.0.lines[i], |s.lines[i].points| - 1)
    ensures r.Success? ==>
      EnumerateFrom(s, i, 0, name, xSide, fuel) == EnumerateFrom(r.value.0, i + 1, 0, r.value.1, xSide, fuel)
  {
    var cur := s;
    var n: nat := name;
    var j := 0;
    while j + 1 < |s.lines[i].points|
      invariant 0 <= j && (|s.lines[i].points| > 1 ==> j <= |s.lines[i].points| - 1)
      invariant WalkReady(cur) && cur.points == s.points && MarksKept(s.lines, cur.lines)
      invariant |cur.lines| == |s.lines| && cur.lines[i].points == s.lines[i].points
      invariant DistinctPlanes(cur.lines)
      invariant NamedInOrder(cur.polygons) && n == |cur.polygons|
      invariant |s.lines[i].points| > 1 ==> ConsumedUpTo(cur.lines[i], j)
      invariant EnumerateFrom(s, i, 0, name, xSide, fuel) == EnumerateFrom(cur, i, j, n, xSide, fuel)
    {
      var step := EnumerateAdvance(s, cur, i, j, n, xSide, fuel);
      if step.Failure? {
        return Failure(step.fault);
      }
      cur, n := step.value.0, step.value.1;
      j := j + 1;
    }
    assert EnumerateFrom(cur, i, j, n, xSide, fuel) == EnumerateFrom(cur, i + 1, 0, n, xSide, fuel);
    return Success((cur, n));
  }

  /** One pass of the inner loop of lines 276-338 from scene `cur`, reached
      from `s`: segment `j` of line `i`, and the fold still to come after it. */
  method EnumerateAdvance(s: Scene, cur: Scene, i: nat, j: nat, n: nat, xSide: (nat, nat, nat) -> Order, fuel: nat)
    returns (r: Result<(Scene, nat)>)
    requires WalkReady(cur) && DistinctPlanes(cur.lines) && cur.points == s.points && MarksKept(s.lines, cur.lines)
    requires i < |s.lines| && j + 1 < |s.lines[i].points|
    requires NamedInOrder(cur.polygons) && n == |cur.polygons|
    requires ConsumedUpTo(cur.lines[i], j)
    ensures r.Failure? ==> EnumerateFrom(cur, i, j, n, xSide, fuel) == Failure(r.fault)
    ensures r.Success? ==>
      && WalkReady(r.value.0) && DistinctPlanes(r.value.0.lines) && r.value.0.points == s.points
      && MarksKept(s.lines, r.value.0.lines)
      && NamedInOrder(r.value.0.polygons) && r.value.1 == |r.value.0.polygons|
      && ConsumedUpTo(r.value.0.lines[i], j + 1)
      && EnumerateFrom(cur, i, j, n, xSide, fuel) == EnumerateFrom(r.value.0, i, j + 1, r.value.1, xSide, fuel)
  {
    r := VisitSegment(cur, i, j, n, xSide, fuel);
    if r.Success? {
      MarksKeptTrans(s.lines, cur.lines, r.value.0.lines);
    }
  }

  /** The half-edge enumeration of `create_scene` (lines 274-339): the fold
      `EnumerateFrom` from the first segment of the first line. Afterwards
      every half-edge of every line with at least two points is used, and
      polygon `k` carries name `k`. */
  method EnumerateHalfEdges(s: Scene, xSide: (nat, nat, nat) -> Order, fuel: nat)
    returns (r: Result<(Scene, nat)>)
    requires WalkReady(s) && DistinctPlanes(s.lines)
    requires s.polygons == []
    ensures r == EnumerateFrom(s, 0, 0, 0, xSide, fuel)
    ensures r.Failure? ==> r.fault in {NoNextLine, PointNotOnLine, Diverged}
    ensures r.Success? ==> WalkReady(r.value.0) && r.value.0.points == s.points
    ensures r.Success? ==> MarksKept(s.lines, r.value.0.lines)
    ensures r.Success? ==> NamedInOrder(r.value.0.polygons) && r.value.1 == |r.value.0.polygons|
    ensures r.Success? ==> forall l :: 0 <= l < |s.lines| && |s.lines[l].points| > 1 ==>
      ConsumedUpTo(r.value.0.lines[l], |s.lines[l].points| - 1)
  {
    var cur := s;
    var name: nat := 0;
    var i := 0;
    while i < |s.lines|
      invariant 0 <= i <= |s.lines|
      invariant WalkReady(cur) && cur.points == s.points && MarksKept(s.lines, cur.lines)
      invariant DistinctPlanes(cur.lines)
      invariant NamedInOrder(cur.polygons) && name == |cur.polygons|
      invariant LinesConsumed(s.lines, cur.lines, i)
      invariant EnumerateFrom(s, 0, 0, 0, xSide, fuel) == EnumerateFrom(cur, i, 0, name, xSide, fuel)
    {
      var before := cur.lines;
      var row := EnumerateLine(cur, i, name, xSide, fuel);
      if row.Failure? {
        return row;
      }
      cur, name := row.value.0, row.value.1;
      MarksKeptTrans(s.lines, before, cur.lines);
      LinesConsumedStep(s.lines, before, cur.lines, i);
      i := i + 1;
    }
    r := Success((cur, name));
  }
}
