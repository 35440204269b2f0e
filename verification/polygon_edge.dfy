/** `PolygonEdge` and `update_polygon_edges`: the list of edges of a polyhedron
    under construction that still wait for their second face. An edge is
    matched by its unordered pair of end points; adding a polygon cancels each
    of its edges already waiting and enqueues the rest, so every point pair's
    count changes parity once per polygon edge on it. */
module PolygonEdges {
  import opened Wrappers
  import opened PointOrder
  import opened Points
  import opened Polygons

  /** One boundary edge of polygon `creator`, on `line`, with the side of
      `plane` the polyhedron lies on. */
  datatype Edge = Edge(first: nat, second: nat, plane: nat, creator: nat, greater: bool, line: nat)

  /** The ordered pair is the unordered pair {a, b}. */
  predicate Joins(x: nat, y: nat, a: nat, b: nat)
  {
    (x == a && y == b) || (x == b && y == a)
  }

  /** The match test of lines 656-657: same end points in either order. */
  predicate SamePair(e: Edge, f: Edge)
  {
    Joins(e.first, e.second, f.first, f.second)
  }

  /** How many edges of `es` join a and b. */
  function EdgeCount(es: seq<Edge>, a: nat, b: nat): nat
  {
    if es == [] then 0
    else (if Joins(es[0].first, es[0].second, a, b) then 1 else 0) + EdgeCount(es[1..], a, b)
  }

  /** How many pairs of `ps` join a and b. */
  function PairCount(ps: seq<(nat, nat)>, a: nat, b: nat): nat
  {
    if ps == [] then 0
    else (if Joins(ps[0].0, ps[0].1, a, b) then 1 else 0) + PairCount(ps[1..], a, b)
  }

  lemma {:induction false} PairCountConcat(s: seq<(nat, nat)>, t: seq<(nat, nat)>, a: nat, b: nat)
    ensures PairCount(s + t, a, b) == PairCount(s, a, b) + PairCount(t, a, b)
  {
    if s != [] {
      assert (s + t)[1..] == s[1..] + t;
      PairCountConcat(s[1..], t, a, b);
    } else {
      assert s + t == t;
    }
  }

  lemma {:induction false} EdgeCountConcat(s: seq<Edge>, t: seq<Edge>, a: nat, b: nat)
    ensures EdgeCount(s + t, a, b) == EdgeCount(s, a, b) + EdgeCount(t, a, b)
  {
    if s != [] {
      assert (s + t)[1..] == s[1..] + t;
      EdgeCountConcat(s[1..], t, a, b);
    } else {
      assert s + t == t;
    }
  }

  /** The end-point pairs of a list of edges. */
  function PairsOf(es: seq<Edge>): (r: seq<(nat, nat)>)
    ensures |r| == |es| && forall k :: 0 <= k < |es| ==> r[k] == (es[k].first, es[k].second)
  {
    seq(|es|, k requires 0 <= k < |es| => (es[k].first, es[k].second))
  }

  lemma {:induction false} EdgeCountIsPairCount(es: seq<Edge>, a: nat, b: nat)
    ensures EdgeCount(es, a, b) == PairCount(PairsOf(es), a, b)
  {
    if es != [] {
      assert PairsOf(es)[1..] == PairsOf(es[1..]);
      EdgeCountIsPairCount(es[1..], a, b);
    }
  }

  /** The boundary of a cyclic point list: consecutive points, last to first. */
  function Ring(pts: seq<nat>): (r: seq<(nat, nat)>)
    ensures |r| == |pts|
    ensures forall k :: 0 <= k < |pts| - 1 ==> r[k] == (pts[k], pts[k + 1])
    ensures |pts| > 0 ==> r[|pts| - 1] == (pts[|pts| - 1], pts[0])
  {
    seq(|pts|, k requires 0 <= k < |pts| => (pts[k], if k + 1 < |pts| then pts[k + 1] else pts[0]))
  }

  /** The two points of `pr` exist and lie on a common line. */
  predicate SharesLine(points: seq<Point>, pr: (nat, nat))
  {
    pr.0 < |points| && pr.1 < |points| && FirstSharedLine(points[pr.0], points[pr.1]).Some?
  }

  /** Every boundary pair of the point cycle lies on a common line. */
  predicate RingShared(points: seq<Point>, pts: seq<nat>)
  {
    forall k :: 0 <= k < |pts| ==> SharesLine(points, Ring(pts)[k])
  }

  /** The edges of the point cycle `pts`, in boundary order: one per ring pair,
      on the first line its two end points share, all tagged alike. */
  function RingEdges(points: seq<Point>, pts: seq<nat>, plane: nat, creator: nat, greater: bool): (r: seq<Edge>)
    requires RingShared(points, pts)
    ensures |r| == |pts|
  {
    var ring := Ring(pts);
    seq(|pts|, k requires 0 <= k < |pts| =>
      assert SharesLine(points, ring[k]);
      Edge(ring[k].0, ring[k].1, plane, creator, greater, FirstSharedLine(points[ring[k].0], points[ring[k].1]).value))
  }

  /** An edge whose ids are in range and whose line is the first line its
      end points share. */
  predicate EdgeWF(points: seq<Point>, nPolys: nat, e: Edge)
  {
    && e.first < |points| && e.second < |points| && e.creator < nPolys
    && Some(e.line) == FirstSharedLine(points[e.first], points[e.second])
  }

  /** Lines 592-639: the edges of a polygon, one per consecutive pair of its
      points including the closing pair, each on the first line its two end
      points share. A polygon with no points or an edge whose points share no
      line is fatal. */
  method EdgesOf(points: seq<Point>, pts: seq<nat>, plane: nat, creator: nat, greater: bool)
    returns (r: Result<seq<Edge>>)
    requires AllBelow(pts, |points|)
    ensures r.Failure? <==> |pts| == 0 || !RingShared(points, pts)
    ensures r.Failure? ==> r.fault == (if |pts| == 0 then IndexOutOfRange else NoSharedLine)
    ensures r.Success? ==> PairsOf(r.value) == Ring(pts)
    ensures r.Success? ==> r.value == RingEdges(points, pts, plane, creator, greater)
    ensures r.Success? ==> forall k :: 0 <= k < |r.value| ==>
      && r.value[k].plane == plane && r.value[k].creator == creator && r.value[k].greater == greater
      && EdgeWF(points, creator + 1, r.value[k])
  {
    if |pts| == 0 {
      return Failure(IndexOutOfRange);
    }
    var n := |pts|;
    var ring := Ring(pts);
    var es: seq<Edge> := [];
    var j := 1;
    while j <= n
      invariant 1 <= j <= n + 1 && |es| == j - 1
      invariant EdgesSoFar(points, ring, es, plane, creator, greater)
    {
      var a, b := pts[j - 1], if j < n then pts[j] else pts[0];
      assert ring[j - 1] == (a, b);
      var shared := FirstSharedLine(points[a], points[b]);
      if shared.None? {
        assert !SharesLine(points, ring[j - 1]);
        return Failure(NoSharedLine);
      }
      EdgesSoFarSnoc(points, ring, es, plane, creator, greater, shared.value);
      es := es + [Edge(a, b, plane, creator, greater, shared.value)];
      j := j + 1;
    }
    EdgesSoFarDone(points, pts, es, plane, creator, greater);
    return Success(es);
  }

  /** The edges built so far follow the ring: one per pair, each on the first
      line its end points share, all tagged alike. */
  predicate EdgesSoFar(points: seq<Point>, ring: seq<(nat, nat)>, es: seq<Edge>, plane: nat, creator: nat, greater: bool)
  {
    && |es| <= |ring|
    && forall k :: 0 <= k < |es| ==>
         && (es[k].first, es[k].second) == ring[k] && SharesLine(points, ring[k])
         && es[k].plane == plane && es[k].creator == creator && es[k].greater == greater
         && EdgeWF(points, creator + 1, es[k])
  }

  lemma EdgesSoFarSnoc(points: seq<Point>, ring: seq<(nat, nat)>, es: seq<Edge>, plane: nat, creator: nat, greater: bool,
                       line: nat)
    requires EdgesSoFar(points, ring, es, plane, creator, greater) && |es| < |ring|
    requires var pr := ring[|es|]; pr.0 < |points| && pr.1 < |points|
    requires var pr := ring[|es|]; FirstSharedLine(points[pr.0], points[pr.1]) == Some(line)
    ensures EdgesSoFar(points, ring, es + [Edge(ring[|es|].0, ring[|es|].1, plane, creator, greater, line)],
                       plane, creator, greater)
  {
    var es' := es + [Edge(ring[|es|].0, ring[|es|].1, plane, creator, greater, line)];
    forall k | 0 <= k < |es| ensures es'[k] == es[k] {
    }
  }

  lemma EdgesSoFarDone(points: seq<Point>, pts: seq<nat>, es: seq<Edge>, plane: nat, creator: nat, greater: bool)
    requires EdgesSoFar(points, Ring(pts), es, plane, creator, greater) && |es| == |pts|
    ensures RingShared(points, pts)
    ensures PairsOf(es) == Ring(pts)
    ensures es == RingEdges(points, pts, plane, creator, greater)
  {
    var re := RingEdges(points, pts, plane, creator, greater);
    forall k | 0 <= k < |es| ensures es[k] == re[k] {
      assert EdgeWF(points, creator + 1, es[k]);
    }
  }

  /** The position of the first waiting edge with the same end points as `e`, or -1. */
  function FirstSame(waiting: seq<Edge>, e: Edge): (r: int)
    ensures -1 <= r < |waiting|
    ensures r >= 0 ==> SamePair(waiting[r], e)
    ensures forall i :: 0 <= i < |waiting| && (r == -1 || i < r) ==> !SamePair(waiting[i], e)
  {
    if waiting == [] then -1
    else if SamePair(waiting[|waiting| - 1], e) && FirstSame(waiting[..|waiting| - 1], e) == -1 then |waiting| - 1
    else FirstSame(waiting[..|waiting| - 1], e)
  }

  /** Lines 649-668 for one edge: removes the first waiting edge with the same
      end points, or enqueues the edge when none waits. */
  function Toggle(waiting: seq<Edge>, e: Edge): seq<Edge>
  {
    var k := FirstSame(waiting, e);
    if k == -1 then waiting + [e] else waiting[..k] + waiting[k + 1..]
  }

  /** No waiting edge on e's pair means a count of zero for that pair. */
  lemma {:induction false} NoSameNoCount(waiting: seq<Edge>, e: Edge)
    requires forall i :: 0 <= i < |waiting| ==> !SamePair(waiting[i], e)
    ensures EdgeCount(waiting, e.first, e.second) == 0
  {
    if waiting != [] {
      assert !SamePair(waiting[0], e);
      NoSameNoCount(waiting[1..], e);
    }
  }

  /** Toggling an edge changes the count of its own pair by one — down when
      one was waiting, up otherwise — and leaves every other pair's count. */
  lemma ToggleCount(waiting: seq<Edge>, e: Edge, a: nat, b: nat)
    ensures EdgeCount(Toggle(waiting, e), a, b) ==
      if Joins(e.first, e.second, a, b) then
        (if EdgeCount(waiting, a, b) > 0 then EdgeCount(waiting, a, b) - 1 else 1)
      else EdgeCount(waiting, a, b)
  {
    var k := FirstSame(waiting, e);
    if k == -1 {
      EdgeCountConcat(waiting, [e], a, b);
      assert [e][1..] == [];
      if Joins(e.first, e.second, a, b) {
        NoSameNoCount(waiting, e);
        assert EdgeCount(waiting, a, b) == EdgeCount(waiting, e.first, e.second) by {
          JoinsSameCount(waiting, e.first, e.second, a, b);
        }
      }
    } else {
      assert waiting == waiting[..k] + [waiting[k]] + waiting[k + 1..];
      EdgeCountConcat(waiting[..k] + [waiting[k]], waiting[k + 1..], a, b);
      EdgeCountConcat(waiting[..k], [waiting[k]], a, b);
      EdgeCountConcat(waiting[..k], waiting[k + 1..], a, b);
      assert [waiting[k]][1..] == [];
    }
  }

  /** The count of a pair does not depend on the order its ends are named in. */
  lemma {:induction false} JoinsSameCount(es: seq<Edge>, x: nat, y: nat, a: nat, b: nat)
    requires Joins(x, y, a, b)
    ensures EdgeCount(es, x, y) == EdgeCount(es, a, b)
  {
    if es != [] {
      JoinsSameCount(es[1..], x, y, a, b);
    }
  }

  /** Toggles each edge of `es` in turn. */
  function ToggleAll(waiting: seq<Edge>, es: seq<Edge>): seq<Edge>
    decreases |es|
  {
    if es == [] then waiting else ToggleAll(Toggle(waiting, es[0]), es[1..])
  }

  /** Toggling a list of edges adds each of them to its pair's count, less two
      for every one that cancelled a waiting edge: `k` is that number of
      cancellations. */
  lemma {:induction false} ToggleAllCount(waiting: seq<Edge>, es: seq<Edge>, a: nat, b: nat) returns (k: nat)
    ensures EdgeCount(ToggleAll(waiting, es), a, b) + 2 * k == EdgeCount(waiting, a, b) + EdgeCount(es, a, b)
    decreases |es|
  {
    if es == [] {
      k := 0;
    } else {
      var next := Toggle(waiting, es[0]);
      var d := if Joins(es[0].first, es[0].second, a, b) then 1 else 0;
      assert EdgeCount(es, a, b) == d + EdgeCount(es[1..], a, b);
      assert ToggleAll(waiting, es) == ToggleAll(next, es[1..]);
      ToggleShift(waiting, es[0], a, b);
      var k' := ToggleAllCount(next, es[1..], a, b);
      k := if EdgeCount(next, a, b) == EdgeCount(waiting, a, b) + d then k' else k' + 1;
    }
  }

  /** A count that falls short of another by an even number has its parity. */
  lemma ParityFromCount(after: seq<Edge>, waiting: seq<Edge>, es: seq<Edge>, a: nat, b: nat, k: nat)
    requires EdgeCount(after, a, b) + 2 * k == EdgeCount(waiting, a, b) + EdgeCount(es, a, b)
    ensures EdgeCount(after, a, b) % 2 == (EdgeCount(waiting, a, b) + PairCount(PairsOf(es), a, b)) % 2
  {
    EdgeCountIsPairCount(es, a, b);
    EvenShift(EdgeCount(after, a, b), k, EdgeCount(waiting, a, b) + EdgeCount(es, a, b));
  }

  lemma EvenShift(x: int, k: int, y: int)
    requires x + 2 * k == y
    ensures x % 2 == y % 2
  {
  }

  /** Toggling an edge moves its pair's count by one and keeps its parity
      shift: the count grows by the edge's own contribution, less two when it
      cancelled a waiting edge. */
  lemma ToggleShift(waiting: seq<Edge>, e: Edge, a: nat, b: nat)
    ensures var d := if Joins(e.first, e.second, a, b) then 1 else 0;
            || EdgeCount(Toggle(waiting, e), a, b) == EdgeCount(waiting, a, b) + d
            || EdgeCount(Toggle(waiting, e), a, b) == EdgeCount(waiting, a, b) + d - 2
  {
    ToggleCount(waiting, e, a, b);
  }


  /** Every pair's count in `after` has the parity of its count in `before`
      plus its count in `ring`. */
  ghost predicate ParityShift(after: seq<Edge>, before: seq<Edge>, ring: seq<(nat, nat)>)
  {
    forall a: nat, b: nat :: EdgeCount(after, a, b) % 2 == (EdgeCount(before, a, b) + PairCount(ring, a, b)) % 2
  }

  /** Every pair is counted an even number of times by `waiting` and `ring` together. */
  ghost predicate ParityBalanced(waiting: seq<Edge>, ring: seq<(nat, nat)>)
  {
    forall a: nat, b: nat :: (EdgeCount(waiting, a, b) + PairCount(ring, a, b)) % 2 == 0
  }

  /** What `update_polygon_edges` yields for polygon `p`: the fault of a
      pointless polygon or of a boundary pair on no common line, or else the
      waiting edges with the polygon's edges appended (initial polygon) or
      toggled in (any later one). */
  function UpdatedEdges(points: seq<Point>, polys: seq<Polygon>, waiting: seq<Edge>, p: nat,
                        initial: bool, greater: bool): (r: Result<seq<Edge>>)
    requires p < |polys|
    ensures r.Failure? ==> r.fault in {IndexOutOfRange, NoSharedLine}
  {
    var pts := polys[p].points;
    if |pts| == 0 then Failure(IndexOutOfRange)
    else if !RingShared(points, pts) then Failure(NoSharedLine)
    else
      var es := RingEdges(points, pts, polys[p].plane, p, greater);
      Success(if initial then waiting + es else ToggleAll(waiting, es))
  }

  /** The boundary edges of a polygon pair up its ring and are well formed. */
  lemma RingEdgesWF(points: seq<Point>, pts: seq<nat>, plane: nat, creator: nat, greater: bool)
    requires RingShared(points, pts)
    ensures PairsOf(RingEdges(points, pts, plane, creator, greater)) == Ring(pts)
    ensures forall x :: x in RingEdges(points, pts, plane, creator, greater) ==> EdgeWF(points, creator + 1, x)
  {
    var es := RingEdges(points, pts, plane, creator, greater);
    forall x | x in es ensures EdgeWF(points, creator + 1, x) {
      var k :| 0 <= k < |es| && es[k] == x;
      assert SharesLine(points, Ring(pts)[k]);
    }
  }

  /** The parity and well-formedness facts of an edge update. */
  lemma UpdatedEdgesFacts(points: seq<Point>, polys: seq<Polygon>, waiting: seq<Edge>, p: nat,
                          initial: bool, greater: bool)
    requires p < |polys|
    ensures var r := UpdatedEdges(points, polys, waiting, p, initial, greater);
      && (r.Success? ==> ParityShift(r.value, waiting, Ring(polys[p].points)))
      && (r.Success? && (forall x :: x in waiting ==> EdgeWF(points, |polys|, x)) ==>
            forall x :: x in r.value ==> EdgeWF(points, |polys|, x))
  {
    var pts := polys[p].points;
    if |pts| > 0 && RingShared(points, pts) {
      var es := RingEdges(points, pts, polys[p].plane, p, greater);
      RingEdgesWF(points, pts, polys[p].plane, p, greater);
      if initial {
        AppendParity(waiting, es);
      } else {
        ToggleAllShift(waiting, es);
        ToggleAllFrom(waiting, es);
      }
    }
  }

  /** `update_polygon_edges` (lines 590-673) for polygon `p`: the initial
      polygon's edges are all enqueued; any later polygon's edges are toggled.
      Either way every point pair's waiting count changes parity by the number
      of times that pair occurs on the polygon's boundary. */
  method UpdatePolygonEdges(points: seq<Point>, polys: seq<Polygon>, waiting: seq<Edge>, p: nat,
                            initial: bool, greater: bool)
    returns (r: Result<seq<Edge>>)
    requires p < |polys| && AllBelow(polys[p].points, |points|)
    ensures r == UpdatedEdges(points, polys, waiting, p, initial, greater)
    ensures r.Failure? ==> r.fault in {IndexOutOfRange, NoSharedLine}
    ensures r.Failure? <==> |polys[p].points| == 0 || !RingShared(points, polys[p].points)
    ensures r.Success? ==> ParityShift(r.value, waiting, Ring(polys[p].points))
    ensures r.Success? && initial ==> |r.value| == |waiting| + |polys[p].points| && r.value[..|waiting|] == waiting
    ensures r.Success? && initial ==>
              r.value == waiting + RingEdges(points, polys[p].points, polys[p].plane, p, greater)
    ensures r.Success? && !initial ==>
              r.value == ToggleAll(waiting, RingEdges(points, polys[p].points, polys[p].plane, p, greater))
    ensures r.Success? && (forall x :: x in waiting ==> EdgeWF(points, |polys|, x)) ==>
      forall x :: x in r.value ==> EdgeWF(points, |polys|, x)
  {
    var es := EdgesOf(points, polys[p].points, polys[p].plane, p, greater);
    if es.Failure? {
      return Failure(es.fault);
    }
    var result := if initial then waiting + es.value else ToggleAll(waiting, es.value);
    if initial {
      AppendParity(waiting, es.value);
    } else {
      ToggleAllShift(waiting, es.value);
    }
    assert forall x :: x in es.value ==> EdgeWF(points, |polys|, x);
    ToggleAllFrom(waiting, es.value);
    if initial {
      assert result[..|waiting|] == waiting;
    }
    return Success(result);
  }

  lemma AppendParity(waiting: seq<Edge>, es: seq<Edge>)
    ensures ParityShift(waiting + es, waiting, PairsOf(es))
  {
    forall a: nat, b: nat
      ensures EdgeCount(waiting + es, a, b) % 2 == (EdgeCount(waiting, a, b) + PairCount(PairsOf(es), a, b)) % 2
    {
      EdgeCountIsPairCount(es, a, b);
      EdgeCountConcat(waiting, es, a, b);
    }
  }

  lemma ToggleAllShift(waiting: seq<Edge>, es: seq<Edge>)
    ensures ParityShift(ToggleAll(waiting, es), waiting, PairsOf(es))
  {
    forall a: nat, b: nat {
      ToggleAllAt(waiting, es, a, b);
    }
  }

  lemma ToggleAllAt(waiting: seq<Edge>, es: seq<Edge>, a: nat, b: nat)
    ensures EdgeCount(ToggleAll(waiting, es), a, b) % 2 == (EdgeCount(waiting, a, b) + PairCount(PairsOf(es), a, b)) % 2
  {
    var k := ToggleAllCount(waiting, es, a, b);
    ParityFromCount(ToggleAll(waiting, es), waiting, es, a, b, k);
  }

  /** Every edge left after toggling was waiting before or is one of `es`. */
  lemma {:induction false} ToggleAllFrom(waiting: seq<Edge>, es: seq<Edge>)
    ensures forall x :: x in ToggleAll(waiting, es) ==> x in waiting || x in es
    decreases |es|
  {
    if es != [] {
      ToggleAllFrom(Toggle(waiting, es[0]), es[1..]);
      ToggleFrom(waiting, es[0]);
    }
  }

  lemma ToggleFrom(waiting: seq<Edge>, e: Edge)
    ensures forall x :: x in Toggle(waiting, e) ==> x in waiting || x == e
  {
    var k := FirstSame(waiting, e);
    if k != -1 {
      forall x | x in Toggle(waiting, e) ensures x in waiting
      {
        if x in waiting[..k] {} else { assert x in waiting[k + 1..]; }
      }
    }
  }
}
