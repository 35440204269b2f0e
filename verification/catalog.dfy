/** The first passes of `Model.create_scene`: one line per pair of planes whose
    intersection crosses the unit sphere, then one point per triple of planes
    meeting inside it, attached to its three lines, then the per-line sort.
    Whether a line or a point lies inside the sphere is decided by oracles. */
module Catalog {
  import opened Wrappers
  import opened PointOrder
  import opened Lines
  import opened Points

  /** Line `l` was recorded for the plane pair (a, b). */
  predicate HasLine(lines: seq<Line>, a: nat, b: nat)
  {
    exists l :: 0 <= l < |lines| && lines[l].plane1 == a && lines[l].plane2 == b
  }

  /** Pair (a, b) comes before pair (c, d) in the order the plane pairs are visited. */
  predicate PairBefore(a: nat, b: nat, c: nat, d: nat)
  {
    a < c || (a == c && b < d)
  }

  /** Lines 95-163 of `create_scene`: visits the plane pairs i < j in order and
      records a pointless, gridless line for each pair `crosses` keeps. The
      result holds exactly the kept pairs, each once, in visiting order. */
  method BuildLines(planeCount: nat, crosses: (nat, nat) -> bool) returns (lines: seq<Line>)
    ensures forall l :: 0 <= l < |lines| ==>
      && lines[l].plane1 < lines[l].plane2 < planeCount
      && crosses(lines[l].plane1, lines[l].plane2)
      && lines[l].points == [] && lines[l].grids.None?
    ensures forall l, m :: 0 <= l < m < |lines| ==>
      PairBefore(lines[l].plane1, lines[l].plane2, lines[m].plane1, lines[m].plane2)
    ensures forall a, b :: 0 <= a < b < planeCount && crosses(a, b) ==> HasLine(lines, a, b)
  {
    lines := [];
    var i := 0;
    while i <= planeCount - 2
      invariant 0 <= i <= if planeCount == 0 then 0 else planeCount - 1
      invariant LinesBefore(planeCount, crosses, lines, i, i)
    {
      OuterToInner(planeCount, crosses, lines, i);
      var j := i + 1;
      while j <= planeCount - 1
        invariant i + 1 <= j <= planeCount
        invariant LinesBefore(planeCount, crosses, lines, i, j)
      {
        if crosses(i, j) {
          AppendKeepsBefore(planeCount, crosses, lines, i, j);
          lines := lines + [NewLine(i, j)];
        } else {
          SkipKeepsBefore(planeCount, crosses, lines, i, j);
        }
        j := j + 1;
      }
      InnerToOuter(planeCount, crosses, lines, i);
      i := i + 1;
    }
    LinesDone(planeCount, crosses, lines, i);
  }

  /** The lines recorded before the loops reach pair (i, j): each is a kept
      pair visited earlier, pointless and gridless, in visiting order, and every
      kept pair visited earlier is recorded. While the outer loop is between
      rows, `j` equals `i`. */
  predicate LinesBefore(planeCount: nat, crosses: (nat, nat) -> bool, lines: seq<Line>, i: nat, j: nat)
  {
    && (forall l :: 0 <= l < |lines| ==>
          && lines[l].plane1 < lines[l].plane2 < planeCount
          && PairBefore(lines[l].plane1, lines[l].plane2, i, j)
          && crosses(lines[l].plane1, lines[l].plane2)
          && lines[l].points == [] && lines[l].grids.None?)
    && (forall l, m :: 0 <= l < m < |lines| ==>
          PairBefore(lines[l].plane1, lines[l].plane2, lines[m].plane1, lines[m].plane2))
    && (forall a: nat, b: nat :: a < b < planeCount && PairBefore(a, b, i, j) && crosses(a, b) ==> HasLine(lines, a, b))
  }

  lemma OuterToInner(planeCount: nat, crosses: (nat, nat) -> bool, lines: seq<Line>, i: nat)
    requires LinesBefore(planeCount, crosses, lines, i, i)
    ensures LinesBefore(planeCount, crosses, lines, i, i + 1)
  {
  }

  lemma InnerToOuter(planeCount: nat, crosses: (nat, nat) -> bool, lines: seq<Line>, i: nat)
    requires LinesBefore(planeCount, crosses, lines, i, planeCount)
    ensures LinesBefore(planeCount, crosses, lines, i + 1, i + 1)
  {
  }

  /** Recording the kept pair (i, j) moves the loops past it. */
  lemma AppendKeepsBefore(planeCount: nat, crosses: (nat, nat) -> bool, lines: seq<Line>, i: nat, j: nat)
    requires LinesBefore(planeCount, crosses, lines, i, j) && i < j < planeCount && crosses(i, j)
    ensures LinesBefore(planeCount, crosses, lines + [NewLine(i, j)], i, j + 1)
  {
    var lines' := lines + [NewLine(i, j)];
    HasLineAppend(lines, NewLine(i, j));
    assert lines'[|lines|].plane1 == i && lines'[|lines|].plane2 == j;
    assert HasLine(lines', i, j);
    forall l | 0 <= l < |lines| ensures lines'[l] == lines[l] {
    }
  }

  /** Passing over a pair `crosses` rejects moves the loops past it. */
  lemma SkipKeepsBefore(planeCount: nat, crosses: (nat, nat) -> bool, lines: seq<Line>, i: nat, j: nat)
    requires LinesBefore(planeCount, crosses, lines, i, j) && !crosses(i, j)
    ensures LinesBefore(planeCount, crosses, lines, i, j + 1)
  {
  }

  /** After the last row every kept pair is recorded. */
  lemma LinesDone(planeCount: nat, crosses: (nat, nat) -> bool, lines: seq<Line>, i: nat)
    requires LinesBefore(planeCount, crosses, lines, i, i)
    requires i == if planeCount == 0 then 0 else planeCount - 1
    ensures forall l :: 0 <= l < |lines| ==>
      && lines[l].plane1 < lines[l].plane2 < planeCount
      && crosses(lines[l].plane1, lines[l].plane2)
      && lines[l].points == [] && lines[l].grids.None?
    ensures forall a, b :: 0 <= a < b < planeCount && crosses(a, b) ==> HasLine(lines, a, b)
  {
  }

  lemma HasLineAppend(lines: seq<Line>, x: Line)
    ensures forall a: nat, b: nat :: HasLine(lines, a, b) ==> HasLine(lines + [x], a, b)
  {
    forall a: nat, b: nat | HasLine(lines, a, b)
      ensures HasLine(lines + [x], a, b)
    {
      var l :| 0 <= l < |lines| && lines[l].plane1 == a && lines[l].plane2 == b;
      assert (lines + [x])[l] == lines[l];
    }
  }

  /** Every plane of `pt` is one of a, b, c. */
  predicate TripleWithin(pt: Point, a: nat, b: nat, c: nat)
  {
    && (pt.plane1 == a || pt.plane1 == b || pt.plane1 == c)
    && (pt.plane2 == a || pt.plane2 == b || pt.plane2 == c)
    && (pt.plane3 == a || pt.plane3 == b || pt.plane3 == c)
  }

  /** Lines 176-194: some recorded point already has all three of its planes
      among `plane` and the line's two planes. */
  function PointExists(points: seq<Point>, plane: nat, lp1: nat, lp2: nat): (r: bool)
    ensures r <==> exists k :: 0 <= k < |points| && TripleWithin(points[k], plane, lp1, lp2)
  {
    if |points| == 0 then false
    else
      var rest := PointExists(points[..|points| - 1], plane, lp1, lp2);
      assert forall k :: 0 <= k < |points| - 1 ==> points[..|points| - 1][k] == points[k];
      rest || TripleWithin(points[|points| - 1], plane, lp1, lp2)
  }

  /** Line `t` is formed by `plane` and one of the two planes of line `c`. */
  predicate PairsWith(t: Line, plane: nat, c: Line)
  {
    || (t.plane1 == plane && t.plane2 == c.plane1)
    || (t.plane1 == plane && t.plane2 == c.plane2)
    || (t.plane2 == plane && t.plane1 == c.plane1)
    || (t.plane2 == plane && t.plane1 == c.plane2)
  }

  /** Lines 226-252: scans the lines after `i` for the first two formed by
      `plane` and one of line `i`'s planes; fewer than two is fatal. */
  method FindOtherLines(lines: seq<Line>, i: nat, plane: nat) returns (r: Result<(nat, nat)>)
    requires i < |lines|
    ensures r.Success? ==> i < r.value.0 < r.value.1 < |lines|
    ensures r.Success? ==> PairsWith(lines[r.value.0], plane, lines[i]) && PairsWith(lines[r.value.1], plane, lines[i])
    ensures r.Success? ==> forall k :: i < k < r.value.1 && k != r.value.0 ==> !PairsWith(lines[k], plane, lines[i])
    ensures r.Failure? ==> r.fault == MatchingLinesNotFound
    ensures r.Failure? ==> forall s, t :: i < s < t < |lines| ==> !(PairsWith(lines[s], plane, lines[i]) && PairsWith(lines[t], plane, lines[i]))
  {
    var second: Option<nat> := None;
    var k := i + 1;
    while k <= |lines| - 1
      invariant i + 1 <= k <= |lines|
      invariant second.Some? ==> i < second.value < k && PairsWith(lines[second.value], plane, lines[i])
      invariant forall m :: i < m < k && (second.None? || m != second.value) ==> !PairsWith(lines[m], plane, lines[i])
    {
      if PairsWith(lines[k], plane, lines[i]) {
        if second.None? {
          second := Some(k);
        } else {
          return Success((second.value, k));
        }
      }
      k := k + 1;
    }
    return Failure(MatchingLinesNotFound);
  }

  /** The point's three lines are distinct lines of the arena, each formed by
      two of the point's three planes as the catalogue builds them. */
  predicate PointConsistent(lines: seq<Line>, pt: Point)
  {
    && pt.line1 < pt.line2 < pt.line3 < |lines|
    && pt.plane1 != pt.plane2 && pt.plane1 != pt.plane3
    && lines[pt.line1].plane1 == pt.plane2 && lines[pt.line1].plane2 == pt.plane3
    && PairsWith(lines[pt.line2], pt.plane1, lines[pt.line1])
    && PairsWith(lines[pt.line3], pt.plane1, lines[pt.line1])
  }

  /** Each point lies on exactly its three lines, once on each. */
  predicate IncidenceExact(lines: seq<Line>, points: seq<Point>)
  {
    && (forall l :: 0 <= l < |lines| ==> AllBelow(lines[l].points, |points|))
    && (forall l, k :: 0 <= l < |lines| && 0 <= k < |points| ==>
          multiset(lines[l].points)[k] == if l in LinesOf(points[k]) then 1 else 0)
  }

  /** No point has all its planes among another point's planes, so no plane
      triple is represented twice. */
  predicate NoRepeatedTriple(points: seq<Point>)
  {
    forall a, b :: 0 <= a < b < |points| ==>
      !TripleWithin(points[a], points[b].plane1, points[b].plane2, points[b].plane3)
  }

  /** Same planes on the same line ids. */
  predicate SamePlanes(a: seq<Line>, b: seq<Line>)
  {
    |a| == |b| && forall l :: 0 <= l < |a| ==> a[l].plane1 == b[l].plane1 && a[l].plane2 == b[l].plane2
  }

  /** Appends the point with id |points| to its three lines. */
  lemma AttachKeepsIncidence(lines: seq<Line>, points: seq<Point>, pt: Point, lines': seq<Line>)
    requires IncidenceExact(lines, points)
    requires pt.line1 < pt.line2 < pt.line3 < |lines|
    requires |lines'| == |lines|
    requires forall l :: 0 <= l < |lines| ==>
      lines'[l] == if l in LinesOf(pt) then AddPoint(lines[l], |points|) else lines[l]
    ensures IncidenceExact(lines', points + [pt])
  {
    var points' := points + [pt];
    forall l, k | 0 <= l < |lines| && 0 <= k < |points'|
      ensures multiset(lines'[l].points)[k] == if l in LinesOf(points'[k]) then 1 else 0
    {
      if k < |points| {
        assert points'[k] == points[k];
      } else {
        assert forall m :: 0 <= m < |lines[l].points| ==> lines[l].points[m] != |points|;
        assert |points| !in lines[l].points;
      }
    }
  }

  /** What the point loop keeps true: line planes as built, each point on
      exactly its three lines, no plane triple twice, every point consistent. */
  predicate CatalogInv(planeCount: nat, lines: seq<Line>, cur: seq<Line>, points: seq<Point>)
  {
    && SamePlanes(cur, lines)
    && IncidenceExact(cur, points)
    && NoRepeatedTriple(points)
    && forall k :: 0 <= k < |points| ==> PointConsistent(lines, points[k]) && points[k].plane1 < planeCount
  }

  /** Lines 260-262: the new point's id is appended to each of its three lines
      and to no other. */
  function AttachToLines(cur: seq<Line>, pt: Point, id: nat): (r: seq<Line>)
    requires pt.line1 < pt.line2 < pt.line3 < |cur|
    ensures |r| == |cur|
    ensures forall l :: 0 <= l < |cur| ==> r[l] == if l in LinesOf(pt) then AddPoint(cur[l], id) else cur[l]
  {
    cur[pt.line1 := AddPoint(cur[pt.line1], id)]
       [pt.line2 := AddPoint(cur[pt.line2], id)]
       [pt.line3 := AddPoint(cur[pt.line3], id)]
  }

  /** Lines 174 and 176-194: line `i` passes over plane `j` when `j` forms
      the line or a recorded point already covers the three planes. */
  predicate Skipped(lines: seq<Line>, points: seq<Point>, i: nat, j: nat)
    requires i < |lines|
  {
    || j == lines[i].plane1 || j == lines[i].plane2
    || PointExists(points, j, lines[i].plane1, lines[i].plane2)
  }

  /** Plane `j` does not form line `i` and meets it inside the sphere. */
  predicate Meets(lines: seq<Line>, i: nat, j: nat, intersect: (nat, nat) -> Option<Coord>)
    requires i < |lines|
  {
    j != lines[i].plane1 && j != lines[i].plane2 && intersect(i, j).Some?
  }

  /** Two lines after `i` are formed by `plane` and one of line `i`'s planes. */
  predicate HasTwoPartners(lines: seq<Line>, i: nat, plane: nat)
    requires i < |lines|
  {
    exists s, t :: i < s < t < |lines| && PairsWith(lines[s], plane, lines[i]) && PairsWith(lines[t], plane, lines[i])
  }

  /** One pass of the inner loop body (lines 168-263) for line `i` and plane
      `j`: a skipped pair or an intersection outside the sphere changes
      nothing; otherwise the point at the intersection, on planes `j` and the
      line's two, is appended with the next id, or the search for its two other
      lines fails. */
  method VisitTriple(planeCount: nat, lines: seq<Line>, cur: seq<Line>, points: seq<Point>,
                     i: nat, j: nat, intersect: (nat, nat) -> Option<Coord>)
    returns (r: Result<(seq<Point>, seq<Line>)>)
    requires i < |lines| && j < planeCount
    requires CatalogInv(planeCount, lines, cur, points)
    ensures r.Success? ==> CatalogInv(planeCount, lines, r.value.1, r.value.0)
    ensures r.Success? ==> |points| <= |r.value.0| <= |points| + 1 && r.value.0[..|points|] == points
    ensures r.Success? && |r.value.0| == |points| + 1 ==>
      && r.value.0[|points|].plane1 == j && r.value.0[|points|].line1 == i
      && r.value.0[|points|].plane2 == lines[i].plane1 && r.value.0[|points|].plane3 == lines[i].plane2
      && intersect(i, j) == Some(r.value.0[|points|].coord)
    ensures !Meets(lines, i, j, intersect) || Skipped(lines, points, i, j) ==> r == Success((points, cur))
    ensures Meets(lines, i, j, intersect) && !Skipped(lines, points, i, j) && r.Success? ==> |r.value.0| == |points| + 1
    ensures r.Failure? <==> Meets(lines, i, j, intersect) && !Skipped(lines, points, i, j) && !HasTwoPartners(lines, i, j)
    ensures r.Failure? ==> r.fault == MatchingLinesNotFound
  {
    var line := lines[i];
    if j == line.plane1 || j == line.plane2 || PointExists(points, j, line.plane1, line.plane2) {
      return Success((points, cur));
    }
    var at := intersect(i, j);
    if at.None? {
      return Success((points, cur));
    }
    var others := FindOtherLines(lines, i, j);
    if others.Failure? {
      return Failure(others.fault);
    }
    var (s, t) := others.value;
    var pt := Point(at.value, j, line.plane1, line.plane2, i, s, t);
    assert PointConsistent(lines, pt);
    var cur' := AttachToLines(cur, pt, |points|);
    AttachKeepsInv(planeCount, lines, cur, points, pt, cur');
    var points' := points + [pt];
    assert points'[..|points|] == points;
    return Success((points', cur'));
  }

  /** Every pair (line `l`, plane `p`) the loops have passed, with `p` not
      forming the line and meeting it inside the sphere, is covered by a
      recorded point on those three planes. */
  predicate CoveredBefore(planeCount: nat, lines: seq<Line>, points: seq<Point>,
                          intersect: (nat, nat) -> Option<Coord>, i: nat, j: nat)
  {
    forall l: nat, p: nat :: l < |lines| && p < planeCount && PairBefore(l, p, i, j) && Meets(lines, l, p, intersect) ==>
      PointExists(points, p, lines[l].plane1, lines[l].plane2)
  }

  /** Every recorded point is the intersection of its first line and first plane. */
  predicate AtIntersections(points: seq<Point>, intersect: (nat, nat) -> Option<Coord>)
  {
    forall k :: 0 <= k < |points| ==> intersect(points[k].line1, points[k].plane1) == Some(points[k].coord)
  }

  /** The point loop of `create_scene` (lines 165-265): for every line `i` and
      every plane `j` not forming it, skips the triple if a recorded point
      already covers it, asks `intersect` for the meeting point (`None` when it
      lies outside the sphere), finds the two other lines through it, and
      records the point on `points` and on exactly its three lines. On success
      every line and plane meeting inside the sphere have a point, and every
      point is such a meeting; a failure means some such meeting has fewer than
      two further lines through it. */
  method BuildPoints(planeCount: nat, lines: seq<Line>, intersect: (nat, nat) -> Option<Coord>)
    returns (r: Result<(seq<Point>, seq<Line>)>)
    requires forall l :: 0 <= l < |lines| ==> lines[l].points == []
    ensures r.Success? ==> SamePlanes(r.value.1, lines)
    ensures r.Success? ==> IncidenceExact(r.value.1, r.value.0)
    ensures r.Success? ==> NoRepeatedTriple(r.value.0)
    ensures r.Success? ==> forall k :: 0 <= k < |r.value.0| ==>
      PointConsistent(lines, r.value.0[k]) && r.value.0[k].plane1 < planeCount
    ensures r.Success? ==> AtIntersections(r.value.0, intersect)
    ensures r.Success? ==> forall i, j :: 0 <= i < |lines| && 0 <= j < planeCount && Meets(lines, i, j, intersect) ==>
      exists k :: 0 <= k < |r.value.0| && TripleWithin(r.value.0[k], j, lines[i].plane1, lines[i].plane2)
    ensures r.Failure? ==> r.fault == MatchingLinesNotFound
    ensures r.Failure? ==>
      exists i, j :: 0 <= i < |lines| && 0 <= j < planeCount && Meets(lines, i, j, intersect) && !HasTwoPartners(lines, i, j)
  {
    var points: seq<Point> := [];
    var cur := lines;
    var i := 0;
    while i <= |lines| - 1
      invariant 0 <= i <= |lines|
      invariant CatalogInv(planeCount, lines, cur, points)
      invariant AtIntersections(points, intersect)
      invariant CoveredBefore(planeCount, lines, points, intersect, i, 0)
    {
      var j := 0;
      while j <= planeCount - 1
        invariant 0 <= j <= planeCount
        invariant CatalogInv(planeCount, lines, cur, points)
        invariant AtIntersections(points, intersect)
        invariant CoveredBefore(planeCount, lines, points, intersect, i, j)
      {
        var step := VisitTriple(planeCount, lines, cur, points, i, j, intersect);
        if step.Failure? {
          return Failure(step.fault);
        }
        VisitCovers(planeCount, lines, points, step.value.0, intersect, i, j);
        points, cur := step.value.0, step.value.1;
        j := j + 1;
      }
      RowCovered(planeCount, lines, points, intersect, i);
      i := i + 1;
    }
    AllCovered(planeCount, lines, points, intersect);
    return Success((points, cur));
  }

  /** A recorded point stays recorded when the list grows. */
  lemma PointExistsGrows(points: seq<Point>, points': seq<Point>, a: nat, b: nat, c: nat)
    requires |points| <= |points'| && points'[..|points|] == points
    requires PointExists(points, a, b, c)
    ensures PointExists(points', a, b, c)
  {
    var k :| 0 <= k < |points| && TripleWithin(points[k], a, b, c);
    assert points'[k] == points[k];
  }

  /** One visit moves coverage and the intersection record past pair (i, j). */
  lemma {:induction false} VisitCovers(planeCount: nat, lines: seq<Line>, points: seq<Point>, points': seq<Point>,
                                       intersect: (nat, nat) -> Option<Coord>, i: nat, j: nat)
    requires i < |lines| && j < planeCount
    requires CoveredBefore(planeCount, lines, points, intersect, i, j)
    requires AtIntersections(points, intersect)
    requires |points| <= |points'| <= |points| + 1 && points'[..|points|] == points
    requires |points'| == |points| + 1 ==>
      && points'[|points|].plane1 == j && points'[|points|].line1 == i
      && points'[|points|].plane2 == lines[i].plane1 && points'[|points|].plane3 == lines[i].plane2
      && intersect(i, j) == Some(points'[|points|].coord)
    requires Meets(lines, i, j, intersect) && !Skipped(lines, points, i, j) ==> |points'| == |points| + 1
    ensures CoveredBefore(planeCount, lines, points', intersect, i, j + 1)
    ensures AtIntersections(points', intersect)
  {
    forall l: nat, p: nat | l < |lines| && p < planeCount && PairBefore(l, p, i, j + 1) && Meets(lines, l, p, intersect)
      ensures PointExists(points', p, lines[l].plane1, lines[l].plane2)
    {
      if PairBefore(l, p, i, j) {
        PointExistsGrows(points, points', p, lines[l].plane1, lines[l].plane2);
      } else if PointExists(points, p, lines[l].plane1, lines[l].plane2) {
        PointExistsGrows(points, points', p, lines[l].plane1, lines[l].plane2);
      } else {
        assert l == i && p == j;
        assert TripleWithin(points'[|points|], p, lines[l].plane1, lines[l].plane2);
      }
    }
    forall k | 0 <= k < |points'|
      ensures intersect(points'[k].line1, points'[k].plane1) == Some(points'[k].coord)
    {
      if k < |points| { assert points'[k] == points[k]; }
    }
  }

  /** Finishing row `i` starts row `i + 1`. */
  lemma RowCovered(planeCount: nat, lines: seq<Line>, points: seq<Point>,
                   intersect: (nat, nat) -> Option<Coord>, i: nat)
    requires CoveredBefore(planeCount, lines, points, intersect, i, planeCount)
    ensures CoveredBefore(planeCount, lines, points, intersect, i + 1, 0)
  {
  }

  /** After the last row every pair is covered. */
  lemma AllCovered(planeCount: nat, lines: seq<Line>, points: seq<Point>,
                   intersect: (nat, nat) -> Option<Coord>)
    requires CoveredBefore(planeCount, lines, points, intersect, |lines|, 0)
    ensures forall i, j :: 0 <= i < |lines| && 0 <= j < planeCount && Meets(lines, i, j, intersect) ==>
      exists k :: 0 <= k < |points| && TripleWithin(points[k], j, lines[i].plane1, lines[i].plane2)
  {
    forall i, j | 0 <= i < |lines| && 0 <= j < planeCount && Meets(lines, i, j, intersect)
      ensures PointExists(points, j, lines[i].plane1, lines[i].plane2)
    {
      assert PairBefore(i, j, |lines|, 0);
    }
  }

  lemma AttachKeepsInv(planeCount: nat, lines: seq<Line>, cur: seq<Line>, points: seq<Point>,
                       pt: Point, cur': seq<Line>)
    requires CatalogInv(planeCount, lines, cur, points)
    requires PointConsistent(lines, pt) && pt.plane1 < planeCount
    requires !PointExists(points, pt.plane1, pt.plane2, pt.plane3)
    requires |cur'| == |cur|
    requires forall l :: 0 <= l < |cur| ==>
      cur'[l] == if l in LinesOf(pt) then AddPoint(cur[l], |points|) else cur[l]
    ensures CatalogInv(planeCount, lines, cur', points + [pt])
  {
    AttachKeepsPlanes(lines, cur, pt, |points|, cur');
    AttachKeepsIncidence(cur, points, pt, cur');
    NewTripleIsFresh(points, pt, pt.plane1, pt.plane2, pt.plane3);
    AppendConsistent(planeCount, lines, points, pt);
  }

  /** Attaching a point changes no line's planes. */
  lemma AttachKeepsPlanes(lines: seq<Line>, cur: seq<Line>, pt: Point, id: nat, cur': seq<Line>)
    requires SamePlanes(cur, lines) && |cur'| == |cur|
    requires forall l :: 0 <= l < |cur| ==> cur'[l] == if l in LinesOf(pt) then AddPoint(cur[l], id) else cur[l]
    ensures SamePlanes(cur', lines)
  {
    forall l | 0 <= l < |cur|
      ensures cur'[l].plane1 == lines[l].plane1 && cur'[l].plane2 == lines[l].plane2
    {
    }
  }

  lemma AppendConsistent(planeCount: nat, lines: seq<Line>, points: seq<Point>, pt: Point)
    requires forall k :: 0 <= k < |points| ==> PointConsistent(lines, points[k]) && points[k].plane1 < planeCount
    requires PointConsistent(lines, pt) && pt.plane1 < planeCount
    ensures forall k :: 0 <= k < |points + [pt]| ==>
      PointConsistent(lines, (points + [pt])[k]) && (points + [pt])[k].plane1 < planeCount
  {
    var points' := points + [pt];
    forall k | 0 <= k < |points'|
      ensures PointConsistent(lines, points'[k]) && points'[k].plane1 < planeCount
    {
      if k < |points| { assert points'[k] == points[k]; }
    }
  }

  lemma NewTripleIsFresh(points: seq<Point>, pt: Point, a: nat, b: nat, c: nat)
    requires NoRepeatedTriple(points)
    requires !PointExists(points, a, b, c)
    requires pt.plane1 == a && pt.plane2 == b && pt.plane3 == c
    ensures NoRepeatedTriple(points + [pt])
  {
    var points' := points + [pt];
    forall x, y | 0 <= x < y < |points'|
      ensures !TripleWithin(points'[x], points'[y].plane1, points'[y].plane2, points'[y].plane3)
    {
      if y < |points| {
        assert points'[x] == points[x] && points'[y] == points[y];
      } else {
        assert points'[x] == points[x];
      }
    }
  }

  /** The coordinates of the points, indexed by point id. */
  function Coords(points: seq<Point>): (r: seq<Coord>)
    ensures |r| == |points| && forall k :: 0 <= k < |points| ==> r[k] == points[k].coord
  {
    seq(|points|, k requires 0 <= k < |points| => points[k].coord)
  }

  /** Lines 267-271: sorts every line's points; afterwards each line with a
      point has sized, all-false grids and its points in comparator order, and
      each point still lies on exactly its three lines. */
  method SortAllLines(lines: seq<Line>, points: seq<Point>) returns (sorted: seq<Line>)
    requires IncidenceExact(lines, points)
    ensures SamePlanes(sorted, lines)
    ensures IncidenceExact(sorted, points)
    ensures forall l :: 0 <= l < |sorted| ==>
      |sorted[l].points| > 0 ==> GridsSized(sorted[l]) && Sorted(sorted[l].points, Coords(points))
    ensures forall l, f: bool, s: Side, i: nat :: 0 <= l < |sorted| && i + 1 < |sorted[l].points| ==>
      !Cell(sorted[l], f, s, i)
  {
    var coord := Coords(points);
    sorted := [];
    var i := 0;
    while i < |lines|
      invariant 0 <= i <= |lines| && |sorted| == i
      invariant SortedPrefix(lines, coord, sorted)
    {
      assert AllBelow(lines[i].points, |coord|);
      SortedPrefixSnoc(lines, coord, sorted);
      sorted := sorted + [SortPoints(lines[i], coord)];
      i := i + 1;
    }
    SortedPlanesAndIncidence(lines, points, sorted);
    SortedOrderAndBlank(lines, points, sorted);
  }

  /** The first |sorted| lines, each sorted on its own. */
  predicate SortedPrefix(lines: seq<Line>, coord: seq<Coord>, sorted: seq<Line>)
  {
    && |sorted| <= |lines|
    && forall l :: 0 <= l < |sorted| ==>
         AllBelow(lines[l].points, |coord|) && sorted[l] == SortPoints(lines[l], coord)
  }

  lemma SortedPrefixSnoc(lines: seq<Line>, coord: seq<Coord>, sorted: seq<Line>)
    requires SortedPrefix(lines, coord, sorted) && |sorted| < |lines|
    requires AllBelow(lines[|sorted|].points, |coord|)
    ensures SortedPrefix(lines, coord, sorted + [SortPoints(lines[|sorted|], coord)])
  {
  }

  /** Sorting each line keeps its planes and the points on it. */
  lemma SortedPlanesAndIncidence(lines: seq<Line>, points: seq<Point>, sorted: seq<Line>)
    requires IncidenceExact(lines, points) && |sorted| == |lines|
    requires SortedPrefix(lines, Coords(points), sorted)
    ensures SamePlanes(sorted, lines) && IncidenceExact(sorted, points)
  {
    forall l, k | 0 <= l < |sorted| && 0 <= k < |points|
      ensures multiset(sorted[l].points)[k] == multiset(lines[l].points)[k]
    {
      if |lines[l].points| == 0 {
        assert sorted[l] == lines[l];
      }
    }
  }

  /** Every line with a point ends up sorted, with sized grids and no mark. */
  lemma SortedOrderAndBlank(lines: seq<Line>, points: seq<Point>, sorted: seq<Line>)
    requires IncidenceExact(lines, points) && |sorted| == |lines|
    requires SortedPrefix(lines, Coords(points), sorted)
    ensures forall l :: 0 <= l < |sorted| ==> |sorted[l].points| > 0 ==>
      GridsSized(sorted[l]) && AllBelow(sorted[l].points, |Coords(points)|) && Sorted(sorted[l].points, Coords(points))
    ensures forall l, f: bool, s: Side, i: nat :: 0 <= l < |sorted| && i + 1 < |sorted[l].points| ==>
      !Cell(sorted[l], f, s, i)
  {
    forall l | 0 <= l < |sorted| ensures |sorted[l].points| > 0 ==> |lines[l].points| > 0 {
      if |lines[l].points| == 0 {
        assert sorted[l] == lines[l];
      }
    }
  }
}
