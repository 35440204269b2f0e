/** `Model.create_polyhedra`: grows a polyhedron from every unused face side
    of every polygon by repeatedly taking the oldest waiting edge and looking
    for the polygon across it, and keeps the polyhedra whose every edge found
    its second face. Which side of a plane a point lies on is the oracle
    `isGreaterX(plane, point)`. */
module Assembly {
  import opened Wrappers
  import opened PointOrder
  import opened Lines
  import opened Points
  import opened Polygons
  import opened Polyhedra
  import opened PolygonEdges

  /** The first point of `pts` that is neither a nor b (lines 480-489, 510-517). */
  function ThirdPoint(pts: seq<nat>, a: nat, b: nat): (r: Option<nat>)
    ensures r.None? <==> forall i :: 0 <= i < |pts| ==> pts[i] == a || pts[i] == b
    ensures r.Some? ==> r.value in pts && r.value != a && r.value != b
    ensures r.Some? ==> exists i :: (0 <= i < |pts| && pts[i] == r.value
      && forall j :: 0 <= j < i ==> pts[j] == a || pts[j] == b)
  {
    if pts == [] then None
    else if pts[0] != a && pts[0] != b then
      assert pts[0] == pts[0];
      Some(pts[0])
    else
      var rest := ThirdPoint(pts[1..], a, b);
      assert forall i :: 1 <= i < |pts| ==> pts[1..][i - 1] == pts[i];
      if rest.Some? then
        assert exists i :: (0 <= i < |pts| && pts[i] == rest.value
          && forall j :: 0 <= j < i ==> pts[j] == a || pts[j] == b) by {
          var i :| 0 <= i < |pts[1..]| && pts[1..][i] == rest.value
            && forall j :: 0 <= j < i ==> pts[1..][j] == a || pts[1..][j] == b;
          assert pts[i + 1] == rest.value;
          assert forall j :: 0 <= j < i + 1 ==> pts[j] == a || pts[j] == b by {
            forall j | 0 <= j < i + 1 ensures pts[j] == a || pts[j] == b {
              if j > 0 { assert pts[j] == pts[1..][j - 1]; }
            }
          }
        }
        rest
      else rest
  }

  /** Lines 462-478: the polygon lies in the matching plane and contains both
      end points of the edge (found as two different points). */
  predicate Candidate(p: Polygon, plane: nat, e: Edge)
  {
    p.plane == plane && e.first != e.second && e.first in p.points && e.second in p.points
  }

  /** Lines 491-499: a candidate whose third point lies on the edge's side of
      the creating polygon's plane. */
  predicate Fits(p: Polygon, e: Edge, isGreaterX: (nat, nat) -> bool)
  {
    var t := ThirdPoint(p.points, e.first, e.second);
    t.Some? && isGreaterX(e.plane, t.value) == e.greater
  }

  /** The search of lines 459-501 from arena position `q` on: the first
      candidate across `e` decides, by its third point, whether it fits; a
      candidate without a third point is dereferenced as null. */
  function MatchFrom(polys: seq<Polygon>, e: Edge, plane: nat, isGreaterX: (nat, nat) -> bool, q: nat)
    : (r: Result<Option<nat>>)
    requires q <= |polys|
    ensures r.Failure? ==> r.fault == NullReference
    ensures r.Success? && r.value.Some? ==> q <= r.value.value < |polys|
    decreases |polys| - q
  {
    if q == |polys| then Success(None)
    else if !Candidate(polys[q], plane, e) then MatchFrom(polys, e, plane, isGreaterX, q + 1)
    else
      var third := ThirdPoint(polys[q].points, e.first, e.second);
      if third.None? then Failure(NullReference)
      else if isGreaterX(e.plane, third.value) == e.greater then Success(Some(q))
      else MatchFrom(polys, e, plane, isGreaterX, q + 1)
  }

  /** Lines 459-501: the first polygon, in arena order, that is a fitting
      candidate across edge `e`; a candidate made only of the edge's two points
      has no third point, which the source dereferences. */
  method FindMatch(polys: seq<Polygon>, e: Edge, plane: nat, isGreaterX: (nat, nat) -> bool)
    returns (r: Result<Option<nat>>)
    ensures r == MatchFrom(polys, e, plane, isGreaterX, 0)
    ensures r.Failure? ==> r.fault == NullReference
    ensures r.Failure? ==> exists q :: (0 <= q < |polys| && Candidate(polys[q], plane, e)
      && ThirdPoint(polys[q].points, e.first, e.second).None?)
    ensures r.Success? && r.value.Some? ==>
      && r.value.value < |polys|
      && Candidate(polys[r.value.value], plane, e) && Fits(polys[r.value.value], e, isGreaterX)
    ensures r.Success? ==> forall q :: (0 <= q < |polys| && (r.value.None? || q < r.value.value)
      && Candidate(polys[q], plane, e)) ==> !Fits(polys[q], e, isGreaterX)
  {
    var q := 0;
    while q < |polys|
      invariant 0 <= q <= |polys|
      invariant forall i :: 0 <= i < q && Candidate(polys[i], plane, e) ==> !Fits(polys[i], e, isGreaterX)
      invariant MatchFrom(polys, e, plane, isGreaterX, 0) == MatchFrom(polys, e, plane, isGreaterX, q)
    {
      if Candidate(polys[q], plane, e) {
        var third := ThirdPoint(polys[q].points, e.first, e.second);
        if third.None? {
          return Failure(NullReference);
        }
        if isGreaterX(e.plane, third.value) == e.greater {
          return Success(Some(q));
        }
      }
      q := q + 1;
    }
    return Success(None);
  }

  /** The boundary pairs of all members, in member order. */
  function MembersRing(polys: seq<Polygon>, members: seq<nat>): seq<(nat, nat)>
    requires MembersIn(members, |polys|)
  {
    if members == [] then []
    else MembersRing(polys, members[..|members| - 1]) + Ring(polys[members[|members| - 1]].points)
  }

  /** Every point pair lies on an even number of member boundary edges: each
      edge of the surface is shared by exactly an even number of its faces. */
  ghost predicate ClosedSurface(polys: seq<Polygon>, members: seq<nat>)
    requires MembersIn(members, |polys|)
  {
    forall a: nat, b: nat :: PairCount(MembersRing(polys, members), a, b) % 2 == 0
  }

  /** `now` is `was` with possibly more face sides marked, nothing else changed. */
  predicate MarkedMore(now: Polygon, was: Polygon)
  {
    && now.plane == was.plane && now.points == was.points && now.name == was.name
    && now.mergedInto == was.mergedInto && now.owner1 == was.owner1 && now.owner2 == was.owner2
    && now.explored == was.explored
    && (was.greaterMarked ==> now.greaterMarked) && (was.lesserMarked ==> now.lesserMarked)
  }

  predicate AllMarkedMore(now: seq<Polygon>, was: seq<Polygon>)
  {
    |now| == |was| && forall q :: 0 <= q < |was| ==> MarkedMore(now[q], was[q])
  }

  /** Marks one face side. */
  function MarkSide(p: Polygon, greater: bool): (r: Polygon)
    ensures MarkedMore(r, p) && (if greater then r.greaterMarked else r.lesserMarked)
    ensures (if greater then r.lesserMarked == p.lesserMarked else r.greaterMarked == p.greaterMarked)
  {
    if greater then p.(greaterMarked := true) else p.(lesserMarked := true)
  }

  /** Polygon ids in range and points on lines in range. */
  predicate SceneIds(points: seq<Point>, nLines: nat, polys: seq<Polygon>)
  {
    PointsOnLines(points, nLines) && PolysBelow(points, polys)
  }

  lemma {:induction false} MembersRingSame(now: seq<Polygon>, was: seq<Polygon>, members: seq<nat>)
    requires |now| == |was| && MembersIn(members, |was|)
    requires forall q :: 0 <= q < |was| ==> now[q].points == was[q].points
    ensures MembersRing(now, members) == MembersRing(was, members)
  {
    if members != [] {
      MembersRingSame(now, was, members[..|members| - 1]);
    }
  }

  /** The growth of one polyhedron: its member list, the polygon arena with
      the face sides marked so far, and whether some edge found no face. */
  datatype Growth = Growth(polys: seq<Polygon>, members: seq<nat>, failed: bool)

  /** The matching plane of lines 441-449: the edge's line's plane that is not
      the edge's own plane (its second plane when both are). */
  function MatchingPlane(l: Line, plane: nat): (r: nat)
    ensures r == l.plane1 || r == l.plane2
    ensures plane != l.plane1 ==> r == l.plane1
  {
    if plane != l.plane1 then l.plane1 else l.plane2
  }

  /** What holds while a polyhedron grows from polygon `start`. */
  ghost predicate GrowInv(points: seq<Point>, lines: seq<Line>, was: seq<Polygon>, start: nat, greater: bool,
                    g: Growth, waiting: seq<Edge>)
  {
    && start < |was|
    && AllMarkedMore(g.polys, was)
    && (if greater then g.polys[start].greaterMarked else g.polys[start].lesserMarked)
    && |g.members| >= 1 && g.members[0] == start && MembersIn(g.members, |g.polys|)
    && GrowReady(points, |lines|, g, waiting)
    && (!g.failed ==> ParityBalanced(waiting, MembersRing(g.polys, g.members)))
  }

  lemma MarkKeepsMarkedMore(was: seq<Polygon>, now: seq<Polygon>, m: nat, greater: bool)
    requires AllMarkedMore(now, was) && m < |now|
    ensures AllMarkedMore(now[m := MarkSide(now[m], greater)], was)
  {
  }

  /** Adding member `m` while toggling its edges keeps the parity invariant. */
  lemma ParityArith(x: nat, w: nat, m: nat, r: nat)
    requires x % 2 == (w + r) % 2 && (w + m) % 2 == 0
    ensures (x + (m + r)) % 2 == 0
  {
  }

  lemma AddMemberParityAt(next: seq<Edge>, waiting: seq<Edge>, old_ring: seq<(nat, nat)>, ring: seq<(nat, nat)>,
                          a: nat, b: nat)
    requires (EdgeCount(waiting, a, b) + PairCount(old_ring, a, b)) % 2 == 0
    requires EdgeCount(next, a, b) % 2 == (EdgeCount(waiting, a, b) + PairCount(ring, a, b)) % 2
    ensures (EdgeCount(next, a, b) + PairCount(old_ring + ring, a, b)) % 2 == 0
  {
    PairCountConcat(old_ring, ring, a, b);
    ParityArith(EdgeCount(next, a, b), EdgeCount(waiting, a, b), PairCount(old_ring, a, b), PairCount(ring, a, b));
  }

  lemma MembersRingAppend(polys: seq<Polygon>, polys': seq<Polygon>, members: seq<nat>, m: nat)
    requires |polys'| == |polys| && m < |polys| && MembersIn(members, |polys|)
    requires forall q :: 0 <= q < |polys| ==> polys'[q].points == polys[q].points
    ensures MembersRing(polys', members + [m]) == MembersRing(polys, members) + Ring(polys'[m].points)
  {
    assert (members + [m])[..|members|] == members;
    MembersRingSame(polys', polys, members);
  }

  lemma BalancedAppend(next: seq<Edge>, waiting: seq<Edge>, old_ring: seq<(nat, nat)>, ring: seq<(nat, nat)>)
    requires ParityBalanced(waiting, old_ring)
    requires ParityShift(next, waiting, ring)
    ensures ParityBalanced(next, old_ring + ring)
  {
    forall a: nat, b: nat {
      AddMemberParityAt(next, waiting, old_ring, ring, a, b);
    }
  }

  lemma AddMemberParity(polys: seq<Polygon>, polys': seq<Polygon>, members: seq<nat>, m: nat,
                        waiting: seq<Edge>, next: seq<Edge>)
    requires |polys'| == |polys| && m < |polys| && MembersIn(members, |polys|)
    requires forall q :: 0 <= q < |polys| ==> polys'[q].points == polys[q].points
    requires ParityBalanced(waiting, MembersRing(polys, members))
    requires ParityShift(next, waiting, Ring(polys'[m].points))
    ensures ParityBalanced(next, MembersRing(polys', members + [m]))
  {
    MembersRingAppend(polys, polys', members, m);
    BalancedAppend(next, waiting, MembersRing(polys, members), Ring(polys'[m].points));
  }

  lemma MatchKeepsGrowInv(points: seq<Point>, lines: seq<Line>, was: seq<Polygon>, start: nat, greater: bool,
                          g: Growth, waiting: seq<Edge>, m: nat, newGreater: bool, polys': seq<Polygon>, next: seq<Edge>)
    requires GrowInv(points, lines, was, start, greater, g, waiting) && m < |g.polys|
    requires polys' == g.polys[m := MarkSide(g.polys[m], newGreater)]
    requires forall x :: x in next ==> EdgeWF(points, |polys'|, x)
    requires ParityShift(next, waiting, Ring(polys'[m].points))
    ensures GrowInv(points, lines, was, start, greater, Growth(polys', g.members + [m], g.failed), next)
    ensures (g.members + [m])[..|g.members|] == g.members
  {
    MarkKeepsMarkedMore(was, g.polys, m, newGreater);
    if !g.failed {
      AddMemberParity(g.polys, polys', g.members, m, waiting, next);
    }
    assert (g.members + [m])[..|g.members|] == g.members;
  }

  /** Every point's three lines are in the line arena. */
  predicate PointsOnLines(points: seq<Point>, nLines: nat)
  {
    forall k :: 0 <= k < |points| ==> LinesInArena(points[k], nLines)
  }

  /** Lines 441-501 for edge `e`: the search for its other polygon in the
      matching plane of the edge's line. */
  function MatchFor(points: seq<Point>, lines: seq<Line>, polys: seq<Polygon>, e: Edge,
                    isGreaterX: (nat, nat) -> bool): (r: Result<Option<nat>>)
    requires PointsOnLines(points, |lines|) && EdgeWF(points, |polys|, e)
    ensures r.Success? && r.value.Some? ==> r.value.value < |polys|
  {
    assert e.line < |lines| by {
      assert e.line in LinesOf(points[e.first]);
    }
    MatchFrom(polys, e, MatchingPlane(lines[e.line], e.plane), isGreaterX, 0)
  }

  /** One pass of the `while (edges.size() > 0)` body (lines 438-545) on the
      oldest waiting edge: with no polygon across it the polyhedron fails and
      the edge is dropped; otherwise the polygon across it joins the members,
      the face side facing the edge's creator is marked, and its edges are
      toggled into the waiting list. */
  function GrowNext(points: seq<Point>, lines: seq<Line>, g: Growth, waiting: seq<Edge>,
                    isGreaterX: (nat, nat) -> bool): Result<(Growth, seq<Edge>)>
    requires waiting != [] && PointsOnLines(points, |lines|) && EdgeWF(points, |g.polys|, waiting[0])
  {
    var e := waiting[0];
    match MatchFor(points, lines, g.polys, e, isGreaterX)
    case Failure(f) => Failure(f)
    case Success(None) => Success((g.(failed := true), waiting[1..]))
    case Success(Some(m)) =>
      var third := ThirdPoint(g.polys[e.creator].points, e.first, e.second);
      if third.None? then Failure(NullReference)
      else
        var side := isGreaterX(g.polys[m].plane, third.value);
        var polys' := g.polys[m := MarkSide(g.polys[m], side)];
        match UpdatedEdges(points, polys', waiting, m, false, side)
        case Failure(f) => Failure(f)
        case Success(next) => Success((Growth(polys', g.members + [m], g.failed), next))
  }

  /** A growth step keeps the growth invariant, never clears the failure
      flag, and only appends members. */
  lemma GrowNextKeeps(points: seq<Point>, lines: seq<Line>, was: seq<Polygon>, start: nat, greater: bool,
                      g: Growth, waiting: seq<Edge>, isGreaterX: (nat, nat) -> bool)
    requires SceneIds(points, |lines|, was)
    requires GrowInv(points, lines, was, start, greater, g, waiting) && waiting != []
    ensures EdgeWF(points, |g.polys|, waiting[0])
    ensures var r := GrowNext(points, lines, g, waiting, isGreaterX);
      && (r.Failure? ==> r.fault in {NullReference, IndexOutOfRange, NoSharedLine})
      && (r.Success? ==> GrowInv(points, lines, was, start, greater, r.value.0, r.value.1))
      && (r.Success? ==> g.failed ==> r.value.0.failed)
      && (r.Success? ==> |r.value.0.members| >= |g.members| && r.value.0.members[..|g.members|] == g.members)
  {
    var e := waiting[0];
    assert e in waiting;
    var found := MatchFor(points, lines, g.polys, e, isGreaterX);
    if found.Success? && found.value.None? {
      assert g.members[..|g.members|] == g.members;
      assert forall x :: x in waiting[1..] ==> x in waiting;
    }
    if found.Success? && found.value.Some? {
      var m := found.value.value;
      var third := ThirdPoint(g.polys[e.creator].points, e.first, e.second);
      if third.Some? {
        var side := isGreaterX(g.polys[m].plane, third.value);
        var polys' := g.polys[m := MarkSide(g.polys[m], side)];
        UpdatedEdgesFacts(points, polys', waiting, m, false, side);
        var next := UpdatedEdges(points, polys', waiting, m, false, side);
        if next.Success? {
          assert forall x :: x in waiting ==> EdgeWF(points, |polys'|, x);
          MatchKeepsGrowInv(points, lines, was, start, greater, g, waiting, m, side, polys', next.value);
        }
      }
    }
  }

  /** What a growth step needs: points on lines in the arena and waiting
      edges whose ids are in range. */
  predicate GrowReady(points: seq<Point>, nLines: nat, g: Growth, waiting: seq<Edge>)
  {
    && PointsOnLines(points, nLines)
    && (forall x :: x in waiting ==> EdgeWF(points, |g.polys|, x))
  }

  /** Every polygon's points are ids of the point arena. */
  predicate PolysBelow(points: seq<Point>, polys: seq<Polygon>)
  {
    forall q :: 0 <= q < |polys| ==> AllBelow(polys[q].points, |points|)
  }

  /** A growth step only marks polygons, so their points stay in range. */
  lemma GrowNextBelow(points: seq<Point>, lines: seq<Line>, g: Growth, waiting: seq<Edge>,
                      isGreaterX: (nat, nat) -> bool)
    requires waiting != [] && GrowReady(points, |lines|, g, waiting) && PolysBelow(points, g.polys)
    ensures EdgeWF(points, |g.polys|, waiting[0])
    ensures var r := GrowNext(points, lines, g, waiting, isGreaterX);
      r.Success? ==> PolysBelow(points, r.value.0.polys)
  {
    assert waiting[0] in waiting;
  }

  lemma GrowNextReady(points: seq<Point>, lines: seq<Line>, g: Growth, waiting: seq<Edge>,
                      isGreaterX: (nat, nat) -> bool)
    requires waiting != [] && GrowReady(points, |lines|, g, waiting)
    ensures EdgeWF(points, |g.polys|, waiting[0])
    ensures var r := GrowNext(points, lines, g, waiting, isGreaterX);
      && (r.Failure? ==> r.fault in {NullReference, IndexOutOfRange, NoSharedLine})
      && (r.Success? ==> GrowReady(points, |lines|, r.value.0, r.value.1))
      && (r.Success? ==> g.failed ==> r.value.0.failed)
  {
    var e := waiting[0];
    assert e in waiting;
    var found := MatchFor(points, lines, g.polys, e, isGreaterX);
    if found.Success? && found.value.None? {
      assert forall x :: x in waiting[1..] ==> x in waiting;
    }
    if found.Success? && found.value.Some? {
      var m := found.value.value;
      var third := ThirdPoint(g.polys[e.creator].points, e.first, e.second);
      if third.Some? {
        var side := isGreaterX(g.polys[m].plane, third.value);
        var polys' := g.polys[m := MarkSide(g.polys[m], side)];
        UpdatedEdgesFacts(points, polys', waiting, m, false, side);
      }
    }
  }

  /** The growth loop of lines 438-545 from growth `g` with `waiting` edges:
      steps until no edge waits; `fuel` bounds the number of steps. */
  function GrowFrom(points: seq<Point>, lines: seq<Line>, g: Growth, waiting: seq<Edge>,
                    isGreaterX: (nat, nat) -> bool, fuel: nat): Result<Growth>
    requires GrowReady(points, |lines|, g, waiting)
    decreases fuel
  {
    if waiting == [] then Success(g)
    else if fuel == 0 then Failure(Diverged)
    else
      GrowNextReady(points, lines, g, waiting, isGreaterX);
      match GrowNext(points, lines, g, waiting, isGreaterX)
      case Failure(f) => Failure(f)
      case Success((g', w')) => GrowFrom(points, lines, g', w', isGreaterX, fuel - 1)
  }

  /** The growth loop ends with the growth invariant and no edge waiting, and
      a failed growth stays failed. */
  lemma {:induction false} GrowFromKeeps(points: seq<Point>, lines: seq<Line>, was: seq<Polygon>, start: nat,
                                         greater: bool, g: Growth, waiting: seq<Edge>,
                                         isGreaterX: (nat, nat) -> bool, fuel: nat, r: Result<Growth>)
    requires SceneIds(points, |lines|, was) && GrowInv(points, lines, was, start, greater, g, waiting)
    requires r == GrowFrom(points, lines, g, waiting, isGreaterX, fuel)
    ensures r.Success? ==> GrowInv(points, lines, was, start, greater, r.value, [])
    decreases fuel, 1
  {
    if waiting != [] && fuel > 0 {
      GrowFromKeepsStep(points, lines, was, start, greater, g, waiting, isGreaterX, fuel, r);
    }
  }

  /** The inductive step of `GrowFromKeeps`: one growth step, then the rest. */
  lemma {:induction false} GrowFromKeepsStep(points: seq<Point>, lines: seq<Line>, was: seq<Polygon>, start: nat,
                                             greater: bool, g: Growth, waiting: seq<Edge>,
                                             isGreaterX: (nat, nat) -> bool, fuel: nat, r: Result<Growth>)
    requires SceneIds(points, |lines|, was) && GrowInv(points, lines, was, start, greater, g, waiting)
    requires waiting != [] && fuel > 0 && r == GrowFrom(points, lines, g, waiting, isGreaterX, fuel)
    ensures r.Success? ==> GrowInv(points, lines, was, start, greater, r.value, [])
    decreases fuel, 0
  {
    GrowNextKeeps(points, lines, was, start, greater, g, waiting, isGreaterX);
    var step := GrowNext(points, lines, g, waiting, isGreaterX);
    if step.Success? {
      GrowFromKeeps(points, lines, was, start, greater, step.value.0, step.value.1, isGreaterX, fuel - 1, r);
    }
  }

  /** The growth loop's faults are those of its steps or the fuel running
      out, and a failed growth stays failed. */
  lemma {:induction false} GrowFromFaults(points: seq<Point>, lines: seq<Line>, g: Growth, waiting: seq<Edge>,
                                          isGreaterX: (nat, nat) -> bool, fuel: nat, r: Result<Growth>)
    requires GrowReady(points, |lines|, g, waiting)
    requires r == GrowFrom(points, lines, g, waiting, isGreaterX, fuel)
    ensures r.Failure? ==> r.fault in {NullReference, IndexOutOfRange, NoSharedLine, Diverged}
    ensures r.Success? ==> g.failed ==> r.value.failed
    decreases fuel
  {
    if waiting != [] && fuel > 0 {
      GrowNextReady(points, lines, g, waiting, isGreaterX);
      var step := GrowNext(points, lines, g, waiting, isGreaterX);
      if step.Success? {
        GrowFromFaults(points, lines, step.value.0, step.value.1, isGreaterX, fuel - 1, r);
      }
    }
  }

  /** Lines 410-554 for one face side of polygon `start`: marks it, enqueues
      the polygon's edges, and grows until no edge waits. When nothing
      failed, every point pair lies on an even number of member edges. */
  function GrowOf(points: seq<Point>, lines: seq<Line>, polys: seq<Polygon>, start: nat, greater: bool,
                  isGreaterX: (nat, nat) -> bool, fuel: nat): (r: Result<Growth>)
    requires SceneIds(points, |lines|, polys) && start < |polys|
    ensures r.Failure? ==> r.fault in {NullReference, IndexOutOfRange, NoSharedLine, Diverged}
    ensures r.Success? ==> AllMarkedMore(r.value.polys, polys)
    ensures r.Success? ==> if greater then r.value.polys[start].greaterMarked else r.value.polys[start].lesserMarked
    ensures r.Success? ==> |r.value.members| >= 1 && r.value.members[0] == start
    ensures r.Success? ==> MembersIn(r.value.members, |polys|)
    ensures r.Success? && !r.value.failed ==> ClosedSurface(polys, r.value.members)
  {
    var polys' := polys[start := MarkSide(polys[start], greater)];
    match UpdatedEdges(points, polys', [], start, true, greater)
    case Failure(f) => Failure(f)
    case Success(waiting) =>
      UpdatedEdgesFacts(points, polys', [], start, true, greater);
      GrowStart(points, lines, polys, start, greater, waiting);
      var r := GrowFrom(points, lines, Growth(polys', [start], false), waiting, isGreaterX, fuel);
      GrowFromKeeps(points, lines, polys, start, greater, Growth(polys', [start], false), waiting, isGreaterX, fuel, r);
      GrowFromFaults(points, lines, Growth(polys', [start], false), waiting, isGreaterX, fuel, r);
      if r.Success? && !r.value.failed then
        GrowDone(points, lines, polys, start, greater, r.value);
        r
      else r
  }

  /** The growth loop still to come, `spec`, after one more step. */
  lemma GrowFromNext(points: seq<Point>, lines: seq<Line>, g: Growth, waiting: seq<Edge>,
                     isGreaterX: (nat, nat) -> bool, left: nat, spec: Result<Growth>, step: Result<(Growth, seq<Edge>)>)
    requires GrowReady(points, |lines|, g, waiting) && waiting != [] && left > 0
    requires spec == GrowFrom(points, lines, g, waiting, isGreaterX, left)
    requires EdgeWF(points, |g.polys|, waiting[0]) && step == GrowNext(points, lines, g, waiting, isGreaterX)
    ensures step.Failure? ==> spec == Failure(step.fault)
    ensures step.Success? ==> GrowReady(points, |lines|, step.value.0, step.value.1)
    ensures step.Success? ==> spec == GrowFrom(points, lines, step.value.0, step.value.1, isGreaterX, left - 1)
  {
    GrowNextReady(points, lines, g, waiting, isGreaterX);
  }

  /** The growth loop as it starts from the marked polygon's own edges. */
  lemma GrowOfStart(points: seq<Point>, lines: seq<Line>, polys: seq<Polygon>, start: nat, greater: bool,
                    isGreaterX: (nat, nat) -> bool, fuel: nat, waiting: seq<Edge>)
    requires SceneIds(points, |lines|, polys) && start < |polys|
    requires UpdatedEdges(points, polys[start := MarkSide(polys[start], greater)], [], start, true, greater)
               == Success(waiting)
    ensures GrowInv(points, lines, polys, start, greater,
                    Growth(polys[start := MarkSide(polys[start], greater)], [start], false), waiting)
    ensures GrowOf(points, lines, polys, start, greater, isGreaterX, fuel)
      == GrowFrom(points, lines, Growth(polys[start := MarkSide(polys[start], greater)], [start], false), waiting, isGreaterX, fuel)
  {
    var polys' := polys[start := MarkSide(polys[start], greater)];
    UpdatedEdgesFacts(points, polys', [], start, true, greater);
    GrowStart(points, lines, polys, start, greater, waiting);
  }

  /** The outcomes of one growth step on the oldest waiting edge `e`: a
      failed search is passed on; with no polygon across `e` the polyhedron
      fails and `e` is dropped; with polygon `m` across it, `m` joins the
      members, its face side facing the creator of `e` is marked, the failure
      flag is kept, and `m`'s edges are toggled into the waiting list. */
  lemma GrowNextCases(points: seq<Point>, lines: seq<Line>, g: Growth, waiting: seq<Edge>,
                      isGreaterX: (nat, nat) -> bool)
    requires GrowReady(points, |lines|, g, waiting) && waiting != []
    ensures EdgeWF(points, |g.polys|, waiting[0])
    ensures var r := GrowNext(points, lines, g, waiting, isGreaterX);
      var e := waiting[0]; var found := MatchFor(points, lines, g.polys, e, isGreaterX);
      && (found.Failure? ==> r == Failure(NullReference))
      && (found == Success(None) ==> r == Success((g.(failed := true), waiting[1..])))
      && (found.Success? && found.value.Some? && r.Success? ==>
            var m := found.value.value;
            var third := ThirdPoint(g.polys[e.creator].points, e.first, e.second);
            && third.Some?
            && r.value.0.members == g.members + [m] && r.value.0.failed == g.failed
            && r.value.0.polys == g.polys[m := MarkSide(g.polys[m], isGreaterX(g.polys[m].plane, third.value))]
            && UpdatedEdges(points, r.value.0.polys, waiting, m, false, isGreaterX(g.polys[m].plane, third.value))
                 == Success(r.value.1))
  {
    assert waiting[0] in waiting;
  }

  /** One pass of the `while (edges.size() > 0)` body (lines 438-545): the
      oldest waiting edge either finds no polygon across it, which fails the
      polyhedron and drops the edge, or adds the polygon across it as a member
      with the face side facing the edge's creator marked. */
  method GrowStep(points: seq<Point>, lines: seq<Line>, g: Growth, waiting: seq<Edge>,
                  isGreaterX: (nat, nat) -> bool)
    returns (r: Result<(Growth, seq<Edge>)>)
    requires GrowReady(points, |lines|, g, waiting) && PolysBelow(points, g.polys) && waiting != []
    ensures EdgeWF(points, |g.polys|, waiting[0])
    ensures r == GrowNext(points, lines, g, waiting, isGreaterX)
  {
    var e := waiting[0];
    assert e in waiting;
    assert e.line < |lines| by {
      assert e.line in LinesOf(points[e.first]);
    }
    var plane := MatchingPlane(lines[e.line], e.plane);
    var found := FindMatch(g.polys, e, plane, isGreaterX);
    if found.Failure? {
      return Failure(found.fault);
    }
    if found.value.None? {
      return Success((g.(failed := true), waiting[1..]));
    }
    var m := found.value.value;
    var third := ThirdPoint(g.polys[e.creator].points, e.first, e.second);
    if third.None? {
      return Failure(NullReference);
    }
    var newGreater := isGreaterX(g.polys[m].plane, third.value);
    var polys' := g.polys[m := MarkSide(g.polys[m], newGreater)];
    assert AllBelow(polys'[m].points, |points|) by {
      assert polys'[m].points == g.polys[m].points;
    }
    var next := UpdatePolygonEdges(points, polys', waiting, m, false, newGreater);
    if next.Failure? {
      return Failure(next.fault);
    }
    return Success((Growth(polys', g.members + [m], g.failed), next.value));
  }

  /** Lines 410-554 for one face side of polygon `start`, as the loop over
      waiting edges; `fuel` bounds the number of edges handled. */
  method GrowPolyhedron(points: seq<Point>, lines: seq<Line>, polys: seq<Polygon>, start: nat, greater: bool,
                        isGreaterX: (nat, nat) -> bool, fuel: nat)
    returns (r: Result<Growth>)
    requires SceneIds(points, |lines|, polys) && start < |polys|
    ensures r == GrowOf(points, lines, polys, start, greater, isGreaterX, fuel)
  {
    var polys' := polys[start := MarkSide(polys[start], greater)];
    assert AllBelow(polys'[start].points, |points|) by {
      assert polys'[start].points == polys[start].points;
    }
    var first := UpdatePolygonEdges(points, polys', [], start, true, greater);
    if first.Failure? {
      return Failure(first.fault);
    }
    GrowOfStart(points, lines, polys, start, greater, isGreaterX, fuel, first.value);
    assert PolysBelow(points, polys') by {
      forall q | 0 <= q < |polys'|
        ensures AllBelow(polys'[q].points, |points|)
      {
        assert polys'[q].points == polys[q].points;
      }
    }
    r := GrowLoop(points, lines, Growth(polys', [start], false), first.value, isGreaterX, fuel);
  }

  /** The `while (edges.size() > 0)` loop of lines 438-546 from growth `g`
      with `waiting` edges; `fuel` bounds the number of edges handled. */
  method GrowLoop(points: seq<Point>, lines: seq<Line>, g0: Growth, waiting0: seq<Edge>,
                  isGreaterX: (nat, nat) -> bool, fuel: nat)
    returns (r: Result<Growth>)
    requires GrowReady(points, |lines|, g0, waiting0) && PolysBelow(points, g0.polys)
    ensures r == GrowFrom(points, lines, g0, waiting0, isGreaterX, fuel)
  {
    var g, waiting := g0, waiting0;
    var left := fuel;
    while waiting != []
      invariant GrowReady(points, |lines|, g, waiting) && PolysBelow(points, g.polys)
      invariant GrowFrom(points, lines, g0, waiting0, isGreaterX, fuel) == GrowFrom(points, lines, g, waiting, isGreaterX, left)
      decreases left
    {
      if left == 0 {
        return Failure(Diverged);
      }
      var step := GrowAdvance(points, lines, g, waiting, isGreaterX, left);
      if step.Failure? {
        return Failure(step.fault);
      }
      g, waiting := step.value.0, step.value.1;
      left := left - 1;
    }
    return Success(g);
  }

  /** One pass of the growth loop with `left` passes to go: the step, and
      the loop still to come after it. */
  method GrowAdvance(points: seq<Point>, lines: seq<Line>, g: Growth, waiting: seq<Edge>,
                     isGreaterX: (nat, nat) -> bool, left: nat)
    returns (step: Result<(Growth, seq<Edge>)>)
    requires GrowReady(points, |lines|, g, waiting) && PolysBelow(points, g.polys) && waiting != [] && left > 0
    ensures step.Failure? ==> GrowFrom(points, lines, g, waiting, isGreaterX, left) == Failure(step.fault)
    ensures step.Success? ==>
      && GrowReady(points, |lines|, step.value.0, step.value.1) && PolysBelow(points, step.value.0.polys)
      && GrowFrom(points, lines, g, waiting, isGreaterX, left)
           == GrowFrom(points, lines, step.value.0, step.value.1, isGreaterX, left - 1)
  {
    GrowNextBelow(points, lines, g, waiting, isGreaterX);
    step := GrowStep(points, lines, g, waiting, isGreaterX);
    GrowFromNext(points, lines, g, waiting, isGreaterX, left,
                 GrowFrom(points, lines, g, waiting, isGreaterX, left), step);
  }

  /** The state after the start polygon is marked and its edges enqueued. */
  lemma GrowStart(points: seq<Point>, lines: seq<Line>, polys: seq<Polygon>, start: nat, greater: bool,
                  waiting: seq<Edge>)
    requires SceneIds(points, |lines|, polys) && start < |polys|
    requires var polys' := polys[start := MarkSide(polys[start], greater)];
      && ParityShift(waiting, [], Ring(polys'[start].points))
      && forall x :: x in waiting ==> EdgeWF(points, |polys'|, x)
    ensures GrowInv(points, lines, polys, start, greater,
                    Growth(polys[start := MarkSide(polys[start], greater)], [start], false), waiting)
  {
    var polys' := polys[start := MarkSide(polys[start], greater)];
    StartBalanced(polys', start, waiting);
    StartMarked(polys, start, greater);
  }

  /** Marking one face side leaves every other mark alone. */
  lemma StartMarked(polys: seq<Polygon>, start: nat, greater: bool)
    requires start < |polys|
    ensures AllMarkedMore(polys[start := MarkSide(polys[start], greater)], polys)
  {
    var polys' := polys[start := MarkSide(polys[start], greater)];
    forall q | 0 <= q < |polys| ensures MarkedMore(polys'[q], polys[q]) {
      if q != start {
        assert polys'[q] == polys[q];
      }
    }
  }

  /** The start polygon's edges balance its own ring. */
  lemma StartBalanced(polys: seq<Polygon>, start: nat, waiting: seq<Edge>)
    requires start < |polys| && ParityShift(waiting, [], Ring(polys[start].points))
    ensures ParityBalanced(waiting, MembersRing(polys, [start]))
  {
    MembersRingOne(polys, start);
    EmptyShift(waiting, Ring(polys[start].points));
  }

  lemma MembersRingOne(polys: seq<Polygon>, start: nat)
    requires start < |polys|
    ensures MembersRing(polys, [start]) == Ring(polys[start].points)
  {
    assert [start][..0] == [];
  }

  /** A shift from no edges at all is a balance. */
  lemma EmptyShift(waiting: seq<Edge>, ring: seq<(nat, nat)>)
    requires ParityShift(waiting, [], ring)
    ensures ParityBalanced(waiting, ring)
  {
    forall a: nat, b: nat {
      EmptyShiftAt(waiting, ring, a, b);
    }
  }

  /** With no edge left waiting and nothing failed, the members close up. */
  lemma GrowDone(points: seq<Point>, lines: seq<Line>, polys: seq<Polygon>, start: nat, greater: bool, g: Growth)
    requires GrowInv(points, lines, polys, start, greater, g, []) && !g.failed
    ensures ClosedSurface(polys, g.members)
  {
    MembersRingSame(g.polys, polys, g.members);
    var ring := MembersRing(polys, g.members);
    forall a: nat, b: nat {
      EmptyBalancedAt(ring, a, b);
    }
  }

  /** With no edge waiting, balance is an even count of every pair. */
  lemma EmptyBalancedAt(ring: seq<(nat, nat)>, a: nat, b: nat)
    requires (EdgeCount([], a, b) + PairCount(ring, a, b)) % 2 == 0
    ensures PairCount(ring, a, b) % 2 == 0
  {
  }

  lemma EmptyShiftAt(waiting: seq<Edge>, ring: seq<(nat, nat)>, a: nat, b: nat)
    requires ParityShift(waiting, [], ring)
    ensures (EdgeCount(waiting, a, b) + PairCount(ring, a, b)) % 2 == 0
  {
    assert EdgeCount(waiting, a, b) % 2 == (EdgeCount([], a, b) + PairCount(ring, a, b)) % 2;
    ParityArith(EdgeCount(waiting, a, b), 0, 0, PairCount(ring, a, b));
  }

  /** The same planes and point lists, polygon by polygon. */
  predicate SameShape(now: seq<Polygon>, was: seq<Polygon>)
  {
    |now| == |was| && forall q :: 0 <= q < |was| ==> now[q].plane == was[q].plane && now[q].points == was[q].points
  }

  /** Polygon owners and polyhedron members agree: polygon `q` names
      polyhedron `k` as owner exactly as often as `k` lists `q`, and names no
      other polyhedron. */
  ghost predicate OwnersRecord(polys: seq<Polygon>, hs: seq<Polyhedron>)
  {
    && (forall q, k :: 0 <= q < |polys| && 0 <= k < |hs| ==>
          multiset(Owners(polys[q]))[k] == multiset(hs[k].polygons)[q])
    && (forall q, x :: 0 <= q < |polys| && x in Owners(polys[q]) ==> x < |hs|)
  }

  lemma RepeatCount(x: nat, c: nat, y: nat)
    ensures multiset(Repeat(x, c))[y] == if y == x then c else 0
  {
    if c > 0 {
      RepeatCount(x, c - 1, y);
    }
  }

  lemma OwnersAppendCount(o: seq<nat>, id: nat, c: nat, k: nat)
    ensures multiset(o + Repeat(id, c))[k] == multiset(o)[k] + (if k == id then c else 0)
  {
    RepeatCount(id, c, k);
    assert multiset(o + Repeat(id, c)) == multiset(o) + multiset(Repeat(id, c));
  }

  /** Recording a new polyhedron's members as owners extends the record. */
  lemma RecordExtend(before: seq<Polygon>, after: seq<Polygon>, hs: seq<Polyhedron>, members: seq<nat>)
    requires OwnersRecord(before, hs) && |after| == |before|
    requires forall q :: 0 <= q < |before| ==> OwnedMore(after[q], before[q], |hs|, multiset(members)[q])
    ensures OwnersRecord(after, hs + [Polyhedron(members, |hs|, false, false)])
  {
    forall q, k | 0 <= q < |after| && 0 <= k <= |hs| {
      RecordExtendAt(before, after, hs, members, q, k);
    }
    forall q, x | 0 <= q < |after| && x in Owners(after[q]) {
      RecordOwnerBound(before, after, hs, members, q, x);
    }
  }

  /** After the extension every owner a polygon names is a polyhedron. */
  lemma RecordOwnerBound(before: seq<Polygon>, after: seq<Polygon>, hs: seq<Polyhedron>, members: seq<nat>, q: nat, x: nat)
    requires OwnersRecord(before, hs) && |after| == |before| && q < |before|
    requires OwnedMore(after[q], before[q], |hs|, multiset(members)[q])
    requires x in Owners(after[q])
    ensures x < |hs| + 1
  {
    OwnersAppendCount(Owners(before[q]), |hs|, multiset(members)[q], x);
    assert x in multiset(Owners(after[q]));
  }

  /** `RecordExtend` for one polygon and one polyhedron. */
  lemma RecordExtendAt(before: seq<Polygon>, after: seq<Polygon>, hs: seq<Polyhedron>, members: seq<nat>, q: nat, k: nat)
    requires OwnersRecord(before, hs) && |after| == |before| && q < |before| && k <= |hs|
    requires OwnedMore(after[q], before[q], |hs|, multiset(members)[q])
    ensures multiset(Owners(after[q]))[k] == multiset((hs + [Polyhedron(members, |hs|, false, false)])[k].polygons)[q]
  {
    OwnersAppendCount(Owners(before[q]), |hs|, multiset(members)[q], k);
    if k == |hs| {
      assert |hs| !in Owners(before[q]);
    } else {
      assert (hs + [Polyhedron(members, |hs|, false, false)])[k] == hs[k];
    }
  }

  /** Keeping a grown polyhedron under the next number keeps the invariant. */
  lemma KeepKeepsInv(points: seq<Point>, nLines: nat, polys: seq<Polygon>, grown: seq<Polygon>, hs: seq<Polyhedron>,
                     members: seq<nat>, owned: seq<Polygon>)
    requires AssemblyInv(points, nLines, polys, grown, hs)
    requires |members| >= 1 && MembersIn(members, |polys|) && ClosedSurface(polys, members)
    requires |owned| == |grown| && AllOwnersInOrder(owned)
    requires forall q :: 0 <= q < |grown| ==> OwnedMore(owned[q], grown[q], |hs|, multiset(members)[q])
    ensures AssemblyInv(points, nLines, polys, owned, hs + [Polyhedron(members, |hs|, false, false)])
    ensures MarksOnlyGrow(owned, grown)
  {
    RecordExtend(grown, owned, hs, members);
    OwnedKeepsShape(points, nLines, polys, grown, owned, |hs|, members);
    HullsAppend(polys, hs, members);
  }

  /** Recording owners changes neither shapes, ids nor marks. */
  lemma OwnedKeepsShape(points: seq<Point>, nLines: nat, polys: seq<Polygon>, grown: seq<Polygon>, owned: seq<Polygon>,
                        id: nat, members: seq<nat>)
    requires SameShape(grown, polys) && SceneIds(points, nLines, grown) && |owned| == |grown|
    requires forall q :: 0 <= q < |grown| ==> OwnedMore(owned[q], grown[q], id, multiset(members)[q])
    ensures SameShape(owned, polys) && SceneIds(points, nLines, owned) && MarksOnlyGrow(owned, grown)
  {
    forall q | 0 <= q < |owned|
      ensures owned[q].plane == polys[q].plane && owned[q].points == polys[q].points
      ensures grown[q].greaterMarked == owned[q].greaterMarked && grown[q].lesserMarked == owned[q].lesserMarked
    {
      assert SameButOwners(owned[q], grown[q]);
    }
  }

  /** The polyhedra kept so far: numbered by position, neither drawn nor
      explored, and each a closed surface of at least one polygon. */
  ghost predicate HullsWF(polys: seq<Polygon>, hs: seq<Polyhedron>)
  {
    forall k :: 0 <= k < |hs| ==>
      && hs[k].name == k && !hs[k].drawn && !hs[k].explored
      && |hs[k].polygons| >= 1 && MembersIn(hs[k].polygons, |polys|)
      && ClosedSurface(polys, hs[k].polygons)
  }

  /** Keeping a closed surface under the next number keeps the list well formed. */
  lemma HullsAppend(polys: seq<Polygon>, hs: seq<Polyhedron>, members: seq<nat>)
    requires HullsWF(polys, hs)
    requires |members| >= 1 && MembersIn(members, |polys|) && ClosedSurface(polys, members)
    ensures HullsWF(polys, hs + [Polyhedron(members, |hs|, false, false)])
  {
    var hs' := hs + [Polyhedron(members, |hs|, false, false)];
    forall k | 0 <= k < |hs'|
      ensures && hs'[k].name == k && !hs'[k].drawn && !hs'[k].explored
              && |hs'[k].polygons| >= 1 && MembersIn(hs'[k].polygons, |polys|)
              && ClosedSurface(polys, hs'[k].polygons)
    {
      if k < |hs| {
        assert hs'[k] == hs[k];
      }
    }
  }

  /** What the polyhedron list built so far satisfies. */
  ghost predicate AssemblyInv(points: seq<Point>, nLines: nat, polys: seq<Polygon>, cur: seq<Polygon>, hs: seq<Polyhedron>)
  {
    && SameShape(cur, polys) && SceneIds(points, nLines, cur)
    && AllOwnersInOrder(cur) && OwnersRecord(cur, hs) && HullsWF(polys, hs)
  }

  /** Face marks only grow between `was` and `now`, polygon by polygon. */
  predicate MarksOnlyGrow(now: seq<Polygon>, was: seq<Polygon>)
  {
    |now| == |was| && forall q :: 0 <= q < |was| ==>
      (was[q].greaterMarked ==> now[q].greaterMarked) && (was[q].lesserMarked ==> now[q].lesserMarked)
  }

  lemma GrowthKeepsInv(points: seq<Point>, nLines: nat, polys: seq<Polygon>, cur: seq<Polygon>, hs: seq<Polyhedron>,
                       grown: seq<Polygon>)
    requires AssemblyInv(points, nLines, polys, cur, hs) && AllMarkedMore(grown, cur)
    ensures AssemblyInv(points, nLines, polys, grown, hs)
  {
    assert forall q :: 0 <= q < |cur| ==> Owners(grown[q]) == Owners(cur[q]);
  }

  lemma ClosedSurfaceSame(now: seq<Polygon>, was: seq<Polygon>, members: seq<nat>)
    requires SameShape(now, was) && MembersIn(members, |was|) && ClosedSurface(now, members)
    ensures ClosedSurface(was, members)
  {
    MembersRingSame(now, was, members);
  }

  /** Whether the given face side of `p` is already marked (lines 403-407). */
  predicate SideMarked(p: Polygon, greater: bool)
  {
    if greater then p.greaterMarked else p.lesserMarked
  }

  /** Lines 403-554 for one face side of polygon `p`: skipped when already
      marked; otherwise a polyhedron is grown from it and, when nothing
      failed, kept under the next number and recorded as owner of its
      members. */
  function FaceSide(points: seq<Point>, lines: seq<Line>, polys: seq<Polygon>, cur: seq<Polygon>,
                    hs: seq<Polyhedron>, p: nat, greater: bool, isGreaterX: (nat, nat) -> bool, fuel: nat)
    : Result<(seq<Polygon>, seq<Polyhedron>)>
    requires p < |polys| && AssemblyInv(points, |lines|, polys, cur, hs)
  {
    if SideMarked(cur[p], greater) then Success((cur, hs))
    else
      match GrowOf(points, lines, cur, p, greater, isGreaterX, fuel)
      case Failure(f) => Failure(f)
      case Success(g) =>
        GrowthKeepsInv(points, |lines|, polys, cur, hs, g.polys);
        if g.failed then Success((g.polys, hs))
        else
          match AddOwners(g.polys, g.members, |hs|)
          case Failure(f) => Failure(f)
          case Success(owned) => Success((owned, hs + [Polyhedron(g.members, |hs|, false, false)]))
  }

  /** One face side keeps the assembly invariant: marks only grow, the side
      ends marked, and at most one polyhedron, starting at `p`, is added. */
  lemma FaceSideKeeps(points: seq<Point>, lines: seq<Line>, polys: seq<Polygon>, cur: seq<Polygon>,
                      hs: seq<Polyhedron>, p: nat, greater: bool, isGreaterX: (nat, nat) -> bool, fuel: nat)
    requires p < |polys| && AssemblyInv(points, |lines|, polys, cur, hs)
    ensures var r := FaceSide(points, lines, polys, cur, hs, p, greater, isGreaterX, fuel);
      && (r.Failure? ==> r.fault in {NullReference, IndexOutOfRange, NoSharedLine, Diverged, ThirdPolyhedron})
      && (r.Success? ==> AssemblyInv(points, |lines|, polys, r.value.0, r.value.1))
      && (r.Success? ==> MarksOnlyGrow(r.value.0, cur) && SideMarked(r.value.0[p], greater))
      && (r.Success? ==> |hs| <= |r.value.1| <= |hs| + 1 && r.value.1[..|hs|] == hs)
      && (r.Success? && |r.value.1| == |hs| + 1 ==> r.value.1[|hs|].polygons[0] == p)
  {
    assert hs[..|hs|] == hs;
    if !SideMarked(cur[p], greater) {
      var grown := GrowOf(points, lines, cur, p, greater, isGreaterX, fuel);
      if grown.Success? {
        var g := grown.value;
        GrowthKeepsInv(points, |lines|, polys, cur, hs, g.polys);
        if !g.failed {
          AddOwnersOwned(g.polys, g.members, |hs|);
          var owned := AddOwners(g.polys, g.members, |hs|);
          if owned.Success? {
            ClosedSurfaceSame(cur, polys, g.members);
            KeepKeepsInv(points, |lines|, polys, g.polys, hs, g.members, owned.value);
            assert (hs + [Polyhedron(g.members, |hs|, false, false)])[..|hs|] == hs;
          }
        }
      }
    }
  }

  /** Lines 403-554 for one face side of polygon `p`: skipped when already
      marked; otherwise a polyhedron is grown from it, and kept, named with the
      next number and recorded as owner of its members, exactly when nothing
      failed; a failed growth leaves the polyhedron list as it was. */
  method TryFaceSide(points: seq<Point>, nLines: nat, lines: seq<Line>, polys: seq<Polygon>,
                     cur: seq<Polygon>, hs: seq<Polyhedron>, p: nat, greater: bool,
                     isGreaterX: (nat, nat) -> bool, fuel: nat)
    returns (r: Result<(seq<Polygon>, seq<Polyhedron>)>)
    requires nLines == |lines| && p < |polys|
    requires AssemblyInv(points, nLines, polys, cur, hs)
    ensures r == FaceSide(points, lines, polys, cur, hs, p, greater, isGreaterX, fuel)
    ensures SideMarked(cur[p], greater) ==> r == Success((cur, hs))
    ensures !SideMarked(cur[p], greater) ==>
      var grown := GrowOf(points, lines, cur, p, greater, isGreaterX, fuel);
      && (grown.Failure? ==> r == Failure(grown.fault))
      && (grown.Success? && grown.value.failed ==> r == Success((grown.value.polys, hs)))
      && (grown.Success? && !grown.value.failed && r.Success? ==>
            r.value.1 == hs + [Polyhedron(grown.value.members, |hs|, false, false)])
  {
    if SideMarked(cur[p], greater) {
      return Success((cur, hs));
    }
    var grown := GrowPolyhedron(points, lines, cur, p, greater, isGreaterX, fuel);
    if grown.Failure? {
      return Failure(grown.fault);
    }
    var g := grown.value;
    GrowthKeepsInv(points, nLines, polys, cur, hs, g.polys);
    if g.failed {
      return Success((g.polys, hs));
    }
    var owned := SetPolygonReferences(g.polys, g.members, |hs|);
    if owned.Failure? {
      return Failure(owned.fault);
    }
    return Success((owned.value, hs + [Polyhedron(g.members, |hs|, false, false)]));
  }

  /** The loop of lines 398-556 from polygon `p` on: the greater and then the
      lesser face side of each polygon in arena order. */
  function AssembleFrom(points: seq<Point>, lines: seq<Line>, polys: seq<Polygon>, cur: seq<Polygon>,
                        hs: seq<Polyhedron>, p: nat, isGreaterX: (nat, nat) -> bool, fuel: nat)
    : Result<(seq<Polygon>, seq<Polyhedron>)>
    requires p <= |polys| && AssemblyInv(points, |lines|, polys, cur, hs)
    decreases |polys| - p
  {
    if p == |polys| then Success((cur, hs))
    else
      FaceSideKeeps(points, lines, polys, cur, hs, p, true, isGreaterX, fuel);
      match FaceSide(points, lines, polys, cur, hs, p, true, isGreaterX, fuel)
      case Failure(f) => Failure(f)
      case Success((cur1, hs1)) =>
        FaceSideKeeps(points, lines, polys, cur1, hs1, p, false, isGreaterX, fuel);
        match FaceSide(points, lines, polys, cur1, hs1, p, false, isGreaterX, fuel)
        case Failure(f) => Failure(f)
        case Success((cur2, hs2)) => AssembleFrom(points, lines, polys, cur2, hs2, p + 1, isGreaterX, fuel)
  }

  /** The polygon loop after polygon `p`'s two face sides. */
  lemma AssembleFromStep(points: seq<Point>, lines: seq<Line>, polys: seq<Polygon>, cur: seq<Polygon>,
                         hs: seq<Polyhedron>, p: nat, isGreaterX: (nat, nat) -> bool, fuel: nat)
    requires p < |polys| && AssemblyInv(points, |lines|, polys, cur, hs)
    ensures var first := FaceSide(points, lines, polys, cur, hs, p, true, isGreaterX, fuel);
      && (first.Failure? ==> AssembleFrom(points, lines, polys, cur, hs, p, isGreaterX, fuel) == Failure(first.fault))
      && (first.Success? ==> AssemblyInv(points, |lines|, polys, first.value.0, first.value.1))
      && (first.Success? ==>
            var second := FaceSide(points, lines, polys, first.value.0, first.value.1, p, false, isGreaterX, fuel);
            && (second.Failure? ==>
                  AssembleFrom(points, lines, polys, cur, hs, p, isGreaterX, fuel) == Failure(second.fault))
            && (second.Success? ==> AssemblyInv(points, |lines|, polys, second.value.0, second.value.1))
            && (second.Success? ==>
                  AssembleFrom(points, lines, polys, cur, hs, p, isGreaterX, fuel)
                    == AssembleFrom(points, lines, polys, second.value.0, second.value.1, p + 1, isGreaterX, fuel)))
  {
    FaceSideKeeps(points, lines, polys, cur, hs, p, true, isGreaterX, fuel);
    var first := FaceSide(points, lines, polys, cur, hs, p, true, isGreaterX, fuel);
    if first.Success? {
      FaceSideKeeps(points, lines, polys, first.value.0, first.value.1, p, false, isGreaterX, fuel);
    }
  }

  /** Both face sides of every polygon from `p` on end marked, the earlier
      ones stay marked, and the assembly invariant holds at the end. */
  lemma {:induction false} AssembleFromKeeps(points: seq<Point>, lines: seq<Line>, polys: seq<Polygon>,
                                             cur: seq<Polygon>, hs: seq<Polyhedron>, p: nat,
                                             isGreaterX: (nat, nat) -> bool, fuel: nat)
    requires p <= |polys| && AssemblyInv(points, |lines|, polys, cur, hs)
    requires forall q :: 0 <= q < p ==> cur[q].greaterMarked && cur[q].lesserMarked
    ensures var r := AssembleFrom(points, lines, polys, cur, hs, p, isGreaterX, fuel);
      && (r.Failure? ==> r.fault in {NullReference, IndexOutOfRange, NoSharedLine, Diverged, ThirdPolyhedron})
      && (r.Success? ==> AssemblyInv(points, |lines|, polys, r.value.0, r.value.1))
      && (r.Success? ==> forall q :: 0 <= q < |polys| ==> r.value.0[q].greaterMarked && r.value.0[q].lesserMarked)
    decreases |polys| - p
  {
    if p < |polys| {
      FaceSideKeeps(points, lines, polys, cur, hs, p, true, isGreaterX, fuel);
      var first := FaceSide(points, lines, polys, cur, hs, p, true, isGreaterX, fuel);
      if first.Success? {
        FaceSideKeeps(points, lines, polys, first.value.0, first.value.1, p, false, isGreaterX, fuel);
        var second := FaceSide(points, lines, polys, first.value.0, first.value.1, p, false, isGreaterX, fuel);
        if second.Success? {
          var next := second.value.0;
          assert next[p].greaterMarked by {
            assert first.value.0[p].greaterMarked;
          }
          AssembleFromKeeps(points, lines, polys, next, second.value.1, p + 1, isGreaterX, fuel);
        }
      }
    }
  }

  /** `create_polyhedra` (lines 393-557): tries the greater and then the
      lesser face side of every polygon in arena order. Afterwards every face
      side of every polygon is marked, the kept polyhedra are named 0, 1, ...
      in the order they were found, each is a closed surface, and the owners
      recorded on the polygons are exactly the polyhedra listing them. */
  method CreatePolyhedra(points: seq<Point>, lines: seq<Line>, polys: seq<Polygon>,
                         isGreaterX: (nat, nat) -> bool, fuel: nat)
    returns (r: Result<(seq<Polygon>, seq<Polyhedron>)>)
    requires SceneIds(points, |lines|, polys)
    requires forall q :: 0 <= q < |polys| ==> polys[q].owner1.None? && polys[q].owner2.None?
    ensures AssemblyInv(points, |lines|, polys, polys, [])
    ensures r == AssembleFrom(points, lines, polys, polys, [], 0, isGreaterX, fuel)
    ensures r.Failure? ==> r.fault in {NullReference, IndexOutOfRange, NoSharedLine, Diverged, ThirdPolyhedron}
    ensures r.Success? ==> SameShape(r.value.0, polys)
    ensures r.Success? ==> forall q :: 0 <= q < |polys| ==> r.value.0[q].greaterMarked && r.value.0[q].lesserMarked
    ensures r.Success? ==> AllOwnersInOrder(r.value.0) && OwnersRecord(r.value.0, r.value.1)
    ensures r.Success? ==> forall k :: 0 <= k < |r.value.1| ==>
      && r.value.1[k].name == k && !r.value.1[k].drawn && !r.value.1[k].explored
      && |r.value.1[k].polygons| >= 1 && MembersIn(r.value.1[k].polygons, |polys|)
      && ClosedSurface(polys, r.value.1[k].polygons)
  {
    assert AssemblyInv(points, |lines|, polys, polys, []);
    AssembleFromKeeps(points, lines, polys, polys, [], 0, isGreaterX, fuel);
    r := AssembleLoop(points, lines, polys, isGreaterX, fuel);
  }

  /** The polygon loop of lines 398-556, both face sides of each polygon in
      arena order, stopping at the first fault. */
  method AssembleLoop(points: seq<Point>, lines: seq<Line>, polys: seq<Polygon>,
                      isGreaterX: (nat, nat) -> bool, fuel: nat)
    returns (r: Result<(seq<Polygon>, seq<Polyhedron>)>)
    requires AssemblyInv(points, |lines|, polys, polys, [])
    ensures r == AssembleFrom(points, lines, polys, polys, [], 0, isGreaterX, fuel)
  {
    var cur := polys;
    var hs: seq<Polyhedron> := [];
    var p := 0;
    while p < |polys|
      invariant 0 <= p <= |polys|
      invariant AssemblyInv(points, |lines|, polys, cur, hs)
      invariant AssembleFrom(points, lines, polys, polys, [], 0, isGreaterX, fuel)
        == AssembleFrom(points, lines, polys, cur, hs, p, isGreaterX, fuel)
    {
      AssembleFromStep(points, lines, polys, cur, hs, p, isGreaterX, fuel);
      var step := TryFaceSide(points, |lines|, lines, polys, cur, hs, p, true, isGreaterX, fuel);
      if step.Failure? {
        return Failure(step.fault);
      }
      cur, hs := step.value.0, step.value.1;
      step := TryFaceSide(points, |lines|, lines, polys, cur, hs, p, false, isGreaterX, fuel);
      if step.Failure? {
        return Failure(step.fault);
      }
      cur, hs := step.value.0, step.value.1;
      p := p + 1;
    }
    return Success((cur, hs));
  }
}
