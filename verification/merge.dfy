/** `Conglomerate.merge`: every polygon on the merge list is shared by two
    gathered polyhedra and is not drawn, so across each of its edges the two
    polygons that meet there (one from each polyhedron, in the plane on the
    other side of the edge) are fused into a new polygon that replaces them in
    the outline list. */
module Merging {
  import opened Wrappers
  import Seqs
  import opened Lines
  import opened Points
  import opened Polygons
  import opened Polyhedra
  import opened Fusion
  import opened Conglomerates

  /** Every polygon's points are point ids of the arena. */
  predicate PointsIn(polys: seq<Polygon>, nPoints: nat)
  {
    forall q :: 0 <= q < |polys| ==> MembersIn(polys[q].points, nPoints)
  }

  /** The arenas `merge` works on: points, lines, polygons and polyhedra refer
      only to ids that exist. */
  predicate MergeReady(points: seq<Point>, lines: seq<Line>, polys: seq<Polygon>, hs: seq<Polyhedron>)
  {
    && ForwardOnly(polys) && PointsIn(polys, |points|)
    && (forall p :: 0 <= p < |points| ==> LinesInArena(points[p], |lines|))
    && (forall h :: 0 <= h < |hs| ==> MembersIn(hs[h].polygons, |polys|))
    && (forall q, o :: 0 <= q < |polys| && o in Owners(polys[q]) ==> o < |hs|)
    && ChainsFlat(polys)
  }

  /** A polygon and the polygon it was fused into lie in the same plane. */
  predicate ChainsFlat(polys: seq<Polygon>)
    requires ForwardOnly(polys)
  {
    forall q :: 0 <= q < |polys| && polys[q].mergedInto.Some? ==> polys[polys[q].mergedInto.value].plane == polys[q].plane
  }

  /** So the end of a chain lies in the plane of every polygon on it. */
  lemma {:induction false} CurrentChildPlane(polys: seq<Polygon>, x: nat)
    requires ForwardOnly(polys) && ChainsFlat(polys) && x < |polys|
    ensures polys[CurrentChild(polys, x)].plane == polys[x].plane
    decreases |polys| - x
  {
    match polys[x].mergedInto
    case None =>
    case Some(c) =>
      CurrentChildPlane(polys, c);
  }

  /** The outline list holds distinct polygons, none of them fused away. */
  predicate OutlineCurrent(polys: seq<Polygon>, outline: seq<nat>)
  {
    Distinct(outline) && forall x :: x in outline ==> x < |polys| && polys[x].mergedInto.None?
  }

  predicate InArena(outline: seq<nat>, n: nat)
  {
    forall x :: x in outline ==> x < n
  }

  /** `now` extends `was` with fused polygons; the polygons of `was` differ only
      in their forwarding pointer, and a pointer once set is never rewritten. */
  predicate Extended(now: seq<Polygon>, was: seq<Polygon>)
  {
    && |was| <= |now|
    && forall q :: 0 <= q < |was| ==>
         && now[q] == was[q].(mergedInto := now[q].mergedInto)
         && (was[q].mergedInto.Some? ==> now[q].mergedInto == was[q].mergedInto)
  }

  /** The fused polygons appended after `base` are named consecutively from
      `name0` and belong to no polyhedron. */
  predicate FreshNames(polys: seq<Polygon>, base: nat, name0: int)
  {
    forall q :: base <= q < |polys| ==>
      && polys[q].name == name0 + (q - base)
      && polys[q].owner1.None? && polys[q].owner2.None?
      && !polys[q].greaterMarked && !polys[q].lesserMarked && !polys[q].explored
  }

  /** Appending a polygon with no forwarding pointer keeps every pointer forward. */
  lemma AppendForward(polys: seq<Polygon>, p: Polygon)
    requires ForwardOnly(polys) && p.mergedInto.None?
    ensures ForwardOnly(polys + [p])
  {
    var r := polys + [p];
    forall i | 0 <= i < |r| && r[i].mergedInto.Some? ensures i < r[i].mergedInto.value < |r| {
      assert i < |polys| && r[i] == polys[i];
    }
  }

  /** Appending a polygon with no forwarding pointer changes no chain. */
  lemma {:induction false} CurrentChildAppend(polys: seq<Polygon>, p: Polygon, x: nat)
    requires ForwardOnly(polys) && p.mergedInto.None? && x < |polys|
    ensures ForwardOnly(polys + [p])
    ensures CurrentChild(polys + [p], x) == CurrentChild(polys, x)
    decreases |polys| - x
  {
    AppendForward(polys, p);
    assert (polys + [p])[x] == polys[x];
    match polys[x].mergedInto
    case None =>
    case Some(c) =>
      CurrentChildAppend(polys, p, c);
  }

  /** Removing `x` from a list without repeats removes it entirely and keeps
      every other element and the absence of repeats. */
  lemma RemoveDistinct(s: seq<nat>, x: nat)
    requires Distinct(s)
    ensures Distinct(Seqs.RemoveFirst(s, x)) && x !in Seqs.RemoveFirst(s, x)
    ensures forall y :: y != x ==> (y in Seqs.RemoveFirst(s, x) <==> y in s)
  {
    if x in s {
      var k := Seqs.IndexOf(s, x);
      var r := Seqs.RemoveFirst(s, x);
      assert |r| == |s| - 1;
      assert forall j :: 0 <= j < |r| ==> r[j] == (if j < k then s[j] else s[j + 1]);
      forall y | y in s && y != x ensures y in r {
        var j :| 0 <= j < |s| && s[j] == y;
        assert j != k;
        if j < k { assert r[j] == y; } else { assert r[j - 1] == y; }
      }
    }
  }

  /** The forwarding pointers written when `f` and `s` are fused into `n`:
      `set_child` on each parent. */
  function LinkBoth(polys: seq<Polygon>, f: nat, s: nat, n: nat): (r: seq<Polygon>)
    requires ForwardOnly(polys) && f < n && s < n && n < |polys| && f != s
    requires polys[f].mergedInto.None? && polys[s].mergedInto.None?
    ensures |r| == |polys| && ForwardOnly(r)
    ensures r[f] == polys[f].(mergedInto := Some(n)) && r[s] == polys[s].(mergedInto := Some(n))
    ensures forall q :: 0 <= q < |polys| && q != f && q != s ==> r[q] == polys[q]
  {
    var once := SetChild(polys, f, n);
    assert once[s] == polys[s];
    SetChild(once, s, n)
  }

  /** After the links are written, a polygon whose chain ended at `f` or `s`
      resolves to `n`, and every other polygon resolves as before. */
  lemma LinkBothRedirects(polys: seq<Polygon>, f: nat, s: nat, n: nat, x: nat)
    requires ForwardOnly(polys) && f < n && s < n && n < |polys| && f != s
    requires polys[f].mergedInto.None? && polys[s].mergedInto.None? && polys[n].mergedInto.None?
    requires x < |polys|
    ensures CurrentChild(LinkBoth(polys, f, s, n), x) ==
      if CurrentChild(polys, x) == f || CurrentChild(polys, x) == s then n else CurrentChild(polys, x)
  {
    var once := SetChild(polys, f, n);
    SetChildRedirects(polys, f, n, x);
    assert once[s] == polys[s] && once[n] == polys[n];
    SetChildRedirects(once, s, n, x);
  }

  /** What holds of `merge`'s state (`polys`, `c`, `name`) relative to where it
      started (`polys0`, `c0`, `name0`). When the outline started out current,
      it stays current, and every polygon it started with is still represented
      by the end of its forwarding chain. */
  ghost predicate MergeInv(points: seq<Point>, lines: seq<Line>, hs: seq<Polyhedron>,
                           polys0: seq<Polygon>, c0: Conglomerate, name0: int,
                           polys: seq<Polygon>, c: Conglomerate, name: int)
  {
    && MergeReady(points, lines, polys, hs)
    && Extended(polys, polys0) && FreshNames(polys, |polys0|, name0)
    && name == name0 + (|polys| - |polys0|)
    && c == c0.(outline := c.outline)
    && (InArena(c0.outline, |polys0|) ==> InArena(c.outline, |polys|))
    && (OutlineCurrent(polys0, c0.outline) ==>
          && OutlineCurrent(polys, c.outline)
          && forall x :: x in c0.outline ==> x < |polys| && CurrentChild(polys, x) in c.outline)
  }

  /** The polygon arena after fusing current polygons `f` and `s` into a new
      polygon on `plane` with points `pts`, named `name`. */
  function FusedPolys(polys: seq<Polygon>, name: int, f: nat, s: nat, plane: nat, pts: seq<nat>): seq<Polygon>
    requires ForwardOnly(polys) && f < |polys| && s < |polys| && f != s
    requires polys[f].mergedInto.None? && polys[s].mergedInto.None?
  {
    var child := FromPoints(plane, pts).(name := name);
    AppendForward(polys, child);
    var grown := polys + [child];
    assert grown[f] == polys[f] && grown[s] == polys[s];
    LinkBoth(grown, f, s, |polys|)
  }

  /** The outline list after the fusion: both parents leave, the child `n` joins. */
  function FusedOutline(outline: seq<nat>, f: nat, s: nat, n: nat): seq<nat>
  {
    Seqs.RemoveFirst(Seqs.RemoveFirst(outline, f), s) + [n]
  }

  /** `r` is `polys` after a fusion of `f` and `s` into a new polygon on `plane`
      with points `pts`, named `name`: the parents now point to the child, the
      child is appended with no pointer, and nothing else changes. */
  predicate FusedFrom(r: seq<Polygon>, polys: seq<Polygon>, name: int, f: nat, s: nat, plane: nat, pts: seq<nat>)
  {
    && |r| == |polys| + 1 && ForwardOnly(r) && f < |polys| && s < |polys|
    && r[|polys|] == FromPoints(plane, pts).(name := name)
    && r[f] == polys[f].(mergedInto := Some(|polys|)) && r[s] == polys[s].(mergedInto := Some(|polys|))
    && (forall q :: 0 <= q < |polys| && q != f && q != s ==> r[q] == polys[q])
  }

  lemma FusedShape(polys: seq<Polygon>, name: int, f: nat, s: nat, plane: nat, pts: seq<nat>)
    requires ForwardOnly(polys) && f < |polys| && s < |polys| && f != s
    requires polys[f].mergedInto.None? && polys[s].mergedInto.None?
    ensures FusedFrom(FusedPolys(polys, name, f, s, plane, pts), polys, name, f, s, plane, pts)
  {
    var child := FromPoints(plane, pts).(name := name);
    AppendForward(polys, child);
    var grown := polys + [child];
    assert grown[f] == polys[f] && grown[s] == polys[s];
  }

  /** Fusing keeps owners and planes along chains as `merge` needs them. */
  lemma FuseKeepsChains(hs: seq<Polyhedron>, polys: seq<Polygon>, r: seq<Polygon>,
                        name: int, f: nat, s: nat, plane: nat, pts: seq<nat>)
    requires ForwardOnly(polys) && ChainsFlat(polys)
    requires forall q, o :: 0 <= q < |polys| && o in Owners(polys[q]) ==> o < |hs|
    requires FusedFrom(r, polys, name, f, s, plane, pts) && f != s
    requires polys[f].plane == plane && polys[s].plane == plane
    ensures ForwardOnly(r) && ChainsFlat(r)
    ensures forall q, o :: 0 <= q < |r| && o in Owners(r[q]) ==> o < |hs|
  {
    forall q, o | 0 <= q < |r| && o in Owners(r[q]) ensures o < |hs| {
      assert q < |polys| && Owners(r[q]) == Owners(polys[q]);
    }
    forall q | 0 <= q < |r| && r[q].mergedInto.Some? ensures r[r[q].mergedInto.value].plane == r[q].plane {
      if q != f && q != s {
        assert r[q] == polys[q];
      }
    }
  }

  /** The arena half of `FuseKeepsInv`. */
  lemma FuseKeepsArena(points: seq<Point>, lines: seq<Line>, hs: seq<Polyhedron>, polys0: seq<Polygon>, name0: int,
                       polys: seq<Polygon>, r: seq<Polygon>, name: int, f: nat, s: nat, plane: nat, pts: seq<nat>)
    requires MergeReady(points, lines, polys, hs)
    requires Extended(polys, polys0) && FreshNames(polys, |polys0|, name0) && name == name0 + (|polys| - |polys0|)
    requires FusedFrom(r, polys, name, f, s, plane, pts) && f != s
    requires polys[f].mergedInto.None? && polys[s].mergedInto.None?
    requires MembersIn(pts, |points|) && polys[f].plane == plane && polys[s].plane == plane
    ensures MergeReady(points, lines, r, hs)
    ensures Extended(r, polys0) && FreshNames(r, |polys0|, name0) && name + 1 == name0 + (|r| - |polys0|)
  {
    FuseKeepsChains(hs, polys, r, name, f, s, plane, pts);
    FusedPointsIn(polys, r, name, f, s, plane, pts, |points|);
    FusedExtends(polys0, name0, polys, r, name, f, s, plane, pts);
    forall h | 0 <= h < |hs| {
      MembersInGrow(hs[h].polygons, |polys|, |r|);
    }
  }

  lemma MembersInGrow(members: seq<nat>, n: nat, m: nat)
    requires MembersIn(members, n) && n <= m
    ensures MembersIn(members, m)
  {
  }

  /** The fused polygon's points exist, and the parents keep theirs. */
  lemma FusedPointsIn(polys: seq<Polygon>, r: seq<Polygon>, name: int, f: nat, s: nat, plane: nat,
                      pts: seq<nat>, n: nat)
    requires PointsIn(polys, n) && MembersIn(pts, n)
    requires FusedFrom(r, polys, name, f, s, plane, pts)
    ensures PointsIn(r, n)
  {
    forall q | 0 <= q < |r| ensures MembersIn(r[q].points, n) {
      if q < |polys| {
        assert r[q].points == polys[q].points;
      }
    }
  }

  /** A fusion only sets the parents' forwarding pointers and appends a fresh
      polygon named `name`. */
  lemma FusedExtends(polys0: seq<Polygon>, name0: int, polys: seq<Polygon>, r: seq<Polygon>,
                     name: int, f: nat, s: nat, plane: nat, pts: seq<nat>)
    requires Extended(polys, polys0) && FreshNames(polys, |polys0|, name0) && name == name0 + (|polys| - |polys0|)
    requires FusedFrom(r, polys, name, f, s, plane, pts)
    requires polys[f].mergedInto.None? && polys[s].mergedInto.None?
    ensures Extended(r, polys0) && FreshNames(r, |polys0|, name0)
  {
    forall q | 0 <= q < |polys0|
      ensures r[q] == polys0[q].(mergedInto := r[q].mergedInto)
      ensures polys0[q].mergedInto.Some? ==> r[q].mergedInto == polys0[q].mergedInto
    {
      assert r[q] == polys[q].(mergedInto := r[q].mergedInto);
    }
    forall q | |polys0| <= q < |r|
      ensures r[q].name == name0 + (q - |polys0|)
      ensures r[q].owner1.None? && r[q].owner2.None?
      ensures !r[q].greaterMarked && !r[q].lesserMarked && !r[q].explored
    {
      if q < |polys| {
        assert r[q] == polys[q].(mergedInto := r[q].mergedInto);
      }
    }
  }

  /** The fused outline keeps its entries distinct: the parents leave, and the
      child is new. */
  lemma FusedOutlineDistinct(outline: seq<nat>, f: nat, s: nat, n: nat)
    requires Distinct(outline) && forall x :: x in outline ==> x < n
    ensures Distinct(FusedOutline(outline, f, s, n))
    ensures forall y :: y in FusedOutline(outline, f, s, n) ==> y == n || (y in outline && y != f && y != s)
  {
    var once := Seqs.RemoveFirst(outline, f);
    RemoveDistinct(outline, f);
    RemoveDistinct(once, s);
    var kept := Seqs.RemoveFirst(once, s);
    assert forall y :: y in kept ==> y in outline && y != f && y != s;
    var o := kept + [n];
    forall j, k | 0 <= j < k < |o| ensures o[j] != o[k] {
      if k == |kept| {
        assert o[j] in kept;
      } else {
        assert o[j] == kept[j] && o[k] == kept[k];
      }
    }
  }

  /** After the fusion the outline holds distinct, current polygons. */
  lemma FusedOutlineCurrent(polys: seq<Polygon>, r: seq<Polygon>, outline: seq<nat>,
                            name: int, f: nat, s: nat, plane: nat, pts: seq<nat>)
    requires FusedFrom(r, polys, name, f, s, plane, pts) && f != s
    requires OutlineCurrent(polys, outline)
    ensures OutlineCurrent(r, FusedOutline(outline, f, s, |polys|))
  {
    FusedOutlineDistinct(outline, f, s, |polys|);
  }

  /** A polygon whose chain ended in the outline still has its chain end in
      the outline after the fusion. */
  lemma FusedOutlineCovers(polys: seq<Polygon>, outline: seq<nat>, name: int, f: nat, s: nat, plane: nat,
                           pts: seq<nat>, x: nat)
    requires ForwardOnly(polys) && f < |polys| && s < |polys| && f != s
    requires polys[f].mergedInto.None? && polys[s].mergedInto.None?
    requires Distinct(outline)
    requires x < |polys| && CurrentChild(polys, x) in outline
    ensures x < |FusedPolys(polys, name, f, s, plane, pts)|
    ensures CurrentChild(FusedPolys(polys, name, f, s, plane, pts), x) in FusedOutline(outline, f, s, |polys|)
  {
    var n := |polys|;
    var child := FromPoints(plane, pts).(name := name);
    CurrentChildAppend(polys, child, x);
    var grown := polys + [child];
    assert grown[f] == polys[f] && grown[s] == polys[s];
    LinkBothRedirects(grown, f, s, n, x);
    var once := Seqs.RemoveFirst(outline, f);
    RemoveDistinct(outline, f);
    RemoveDistinct(once, s);
  }

  /** The fused outline names only polygons of the grown arena. */
  lemma FusedOutlineInArena(outline: seq<nat>, f: nat, s: nat, n: nat)
    requires InArena(outline, n)
    ensures InArena(FusedOutline(outline, f, s, n), n + 1)
  {
    var once := Seqs.RemoveFirst(outline, f);
    forall y | y in once {
      Seqs.RemovedWasIn(outline, f, y);
    }
    forall y | y in Seqs.RemoveFirst(once, s) {
      Seqs.RemovedWasIn(once, s, y);
    }
  }

  /** Points drawn from two polygons of the arena are points of the arena. */
  lemma CombinedIn(points: seq<Point>, polys: seq<Polygon>, f: nat, s: nat, pts: seq<nat>)
    requires PointsIn(polys, |points|) && f < |polys| && s < |polys|
    requires forall x :: x in pts ==> x in polys[f].points || x in polys[s].points
    ensures MembersIn(pts, |points|)
  {
    assert MembersIn(polys[f].points, |points|) && MembersIn(polys[s].points, |points|);
    forall j | 0 <= j < |pts| ensures pts[j] < |points| {
      assert pts[j] in pts;
    }
  }

  /** Fusing keeps the invariant of `merge`. */
  lemma FuseKeepsInv(points: seq<Point>, lines: seq<Line>, hs: seq<Polyhedron>,
                     polys0: seq<Polygon>, c0: Conglomerate, name0: int,
                     polys: seq<Polygon>, c: Conglomerate, name: int, f: nat, s: nat, plane: nat, pts: seq<nat>)
    requires MergeInv(points, lines, hs, polys0, c0, name0, polys, c, name)
    requires f < |polys| && s < |polys| && f != s
    requires polys[f].mergedInto.None? && polys[s].mergedInto.None?
    requires MembersIn(pts, |points|) && polys[f].plane == plane && polys[s].plane == plane
    ensures MergeInv(points, lines, hs, polys0, c0, name0, FusedPolys(polys, name, f, s, plane, pts),
                     c.(outline := FusedOutline(c.outline, f, s, |polys|)), name + 1)
  {
    var r := FusedPolys(polys, name, f, s, plane, pts);
    FusedShape(polys, name, f, s, plane, pts);
    FuseKeepsArena(points, lines, hs, polys0, name0, polys, r, name, f, s, plane, pts);
    if InArena(c.outline, |polys|) {
      FusedOutlineInArena(c.outline, f, s, |polys|);
    }
    if OutlineCurrent(polys0, c0.outline) {
      FusedOutlineCurrent(polys, r, c.outline, name, f, s, plane, pts);
      forall x | x in c0.outline
        ensures x < |FusedPolys(polys, name, f, s, plane, pts)|
        ensures CurrentChild(FusedPolys(polys, name, f, s, plane, pts), x) in FusedOutline(c.outline, f, s, |polys|)
      {
        FusedOutlineCovers(polys, c.outline, name, f, s, plane, pts, x);
      }
    }
  }

  /** What a fusion with combined points `pts` leaves behind. */
  lemma FuseOutcome(points: seq<Point>, lines: seq<Line>, hs: seq<Polyhedron>,
                    polys0: seq<Polygon>, c0: Conglomerate, name0: int,
                    polys: seq<Polygon>, c: Conglomerate, name: int, f: nat, s: nat, plane: nat, pts: seq<nat>)
    requires MergeInv(points, lines, hs, polys0, c0, name0, polys, c, name)
    requires f < |polys| && s < |polys| && f != s
    requires polys[f].mergedInto.None? && polys[s].mergedInto.None?
    requires polys[f].plane == plane && polys[s].plane == plane
    requires forall x :: x in pts ==> x in polys[f].points || x in polys[s].points
    ensures var r := FusedPolys(polys, name, f, s, plane, pts);
      && MergeInv(points, lines, hs, polys0, c0, name0, r, c.(outline := FusedOutline(c.outline, f, s, |polys|)), name + 1)
      && FusedFrom(r, polys, name, f, s, plane, pts)
  {
    CombinedIn(points, polys, f, s, pts);
    FuseKeepsInv(points, lines, hs, polys0, c0, name0, polys, c, name, f, s, plane, pts);
    FusedShape(polys, name, f, s, plane, pts);
  }

  /** A fusion leaves the arena as `merge` needs it, extended by one fresh
      polygon. */
  lemma FuseKept(points: seq<Point>, lines: seq<Line>, hs: seq<Polyhedron>,
                 polys: seq<Polygon>, name: int, f: nat, s: nat, plane: nat, pts: seq<nat>)
    requires MergeReady(points, lines, polys, hs)
    requires f < |polys| && s < |polys| && f != s
    requires polys[f].mergedInto.None? && polys[s].mergedInto.None?
    requires polys[f].plane == plane && polys[s].plane == plane
    requires forall x :: x in pts ==> x in polys[f].points || x in polys[s].points
    ensures var r := FusedPolys(polys, name, f, s, plane, pts);
      && MergeReady(points, lines, r, hs) && FusedFrom(r, polys, name, f, s, plane, pts)
      && Extended(r, polys) && FreshNames(r, |polys|, name)
  {
    var r := FusedPolys(polys, name, f, s, plane, pts);
    CombinedIn(points, polys, f, s, pts);
    FusedShape(polys, name, f, s, plane, pts);
    ExtendedSelf(polys);
    FuseKeepsArena(points, lines, hs, polys, name, polys, r, name, f, s, plane, pts);
  }

  /** An arena extends itself. */
  lemma ExtendedSelf(polys: seq<Polygon>)
    ensures Extended(polys, polys) && forall name: int :: FreshNames(polys, |polys|, name)
  {
    forall q | 0 <= q < |polys| ensures polys[q] == polys[q].(mergedInto := polys[q].mergedInto) {
    }
  }

  /** `find_polygon_in_plane` on polyhedron `h` gives `x`: `x` is the first of
      its members that lies in `plane`. */
  predicate FoundIn(polys: seq<Polygon>, hs: seq<Polyhedron>, h: nat, plane: nat, x: nat)
  {
    h < |hs| && MembersIn(hs[h].polygons, |polys|) && FindPolygonInPlane(polys, hs[h].polygons, plane) == Success(x)
  }

  /** The lookup half of `merge`'s inner loop (lines 142-172) for the edge
      from `cur` to `next` of polygon `m`: the plane across the edge is the
      plane of their common line that is not `m`'s own, and in it lie the two
      polygons `find_polygon_in_plane` returns for `m`'s first and second owner. */
  function FindAcross(points: seq<Point>, lines: seq<Line>, hs: seq<Polyhedron>, polys: seq<Polygon>,
                      m: nat, cur: nat, next: nat): (r: Result<(nat, nat, nat)>)
    requires MergeReady(points, lines, polys, hs)
    requires m < |polys| && cur < |points| && next < |points|
    ensures GetCommonLine(points, cur, next).Failure? ==> r == Failure(GetCommonLine(points, cur, next).fault)
    ensures r.Success? ==> GetCommonLine(points, cur, next).Success?
    ensures r.Success? ==> var l := lines[GetCommonLine(points, cur, next).value];
              && r.value.0 == (if l.plane1 != polys[m].plane then l.plane1 else l.plane2)
              && r.value.0 != polys[m].plane
    ensures r.Success? ==> polys[m].owner1.Some? && FoundIn(polys, hs, polys[m].owner1.value, r.value.0, r.value.1)
    ensures r.Success? ==> polys[m].owner2.Some? && FoundIn(polys, hs, polys[m].owner2.value, r.value.0, r.value.2)
    ensures r.Success? ==> r.value.1 < |polys| && polys[r.value.1].plane == r.value.0
    ensures r.Success? ==> r.value.2 < |polys| && polys[r.value.2].plane == r.value.0
    ensures r.Failure? ==> r.fault in {SamePoint, NoCommonLine, LinePlanesEqual, NullReference, NoPolygonInPlane}
    ensures r == Failure(NullReference) ==> polys[m].owner1.None? || polys[m].owner2.None?
    ensures r == Failure(LinePlanesEqual) ==>
              && GetCommonLine(points, cur, next).Success?
              && lines[GetCommonLine(points, cur, next).value].plane1 == polys[m].plane
              && lines[GetCommonLine(points, cur, next).value].plane2 == polys[m].plane
  {
    match GetCommonLine(points, cur, next)
    case Failure(e) => Failure(e)
    case Success(l) =>
      assert LinesInArena(points[cur], |lines|);
      var line := lines[l];
      if line.plane1 == polys[m].plane && line.plane2 == polys[m].plane then Failure(LinePlanesEqual)
      else
        var plane := if line.plane1 != polys[m].plane then line.plane1 else line.plane2;
        if polys[m].owner1.None? then Failure(NullReference)
        else
          assert polys[m].owner1.value in Owners(polys[m]);
          match FindPolygonInPlane(polys, hs[polys[m].owner1.value].polygons, plane)
          case Failure(e) => Failure(e)
          case Success(a) =>
            if polys[m].owner2.None? then Failure(NullReference)
            else
              assert polys[m].owner2.value in Owners(polys[m]);
              match FindPolygonInPlane(polys, hs[polys[m].owner2.value].polygons, plane)
              case Failure(e) => Failure(e)
              case Success(b) => Success((plane, a, b))
  }

  /** The point after `pts[i]` around the polygon, wrapping at the end. */
  function EdgeEnd(pts: seq<nat>, i: nat): nat
    requires i < |pts|
  {
    pts[if i == |pts| - 1 then 0 else i + 1]
  }

  /** `merge` leaves an edge alone when one of the polygons found across it is
      on the merge list, or both already lead to the same current polygon. */
  predicate Skips(polys: seq<Polygon>, c: Conglomerate, a: nat, b: nat)
    requires ForwardOnly(polys) && a < |polys| && b < |polys|
  {
    a in c.mergeList || b in c.mergeList || CurrentChild(polys, a) == CurrentChild(polys, b)
  }

  /** `r` is what fusing current polygons `f` and `s` across the edge
      `cur`–`next` gives: `combine_polygons` fails, or its points make a new
      polygon on `plane` named `name` that both parents forward to and that
      replaces both on the outline. */
  predicate FusesAcross(polys: seq<Polygon>, c: Conglomerate, name: int, f: nat, s: nat, plane: nat,
                        cur: nat, next: nat, r: Result<(seq<Polygon>, Conglomerate, int)>)
    requires f < |polys| && s < |polys|
  {
    match Combine(polys[f].points, polys[s].points, cur, next)
    case Failure(e) => r == Failure(e)
    case Success(pts) =>
      && r.Success? && FusedFrom(r.value.0, polys, name, f, s, plane, pts)
      && r.value.1 == c.(outline := FusedOutline(c.outline, f, s, |polys|)) && r.value.2 == name + 1
  }

  /** The fusing half of `merge`'s inner loop: the polygons `a` and `b` found
      across the edge `cur`–`next`, in `plane`, are traced to the ends of their
      chains and fused into a new polygon named `name`. */
  function FuseEdge(points: seq<Point>, lines: seq<Line>, hs: seq<Polyhedron>,
                    polys: seq<Polygon>, c: Conglomerate, name: int, plane: nat, a: nat, b: nat,
                    cur: nat, next: nat)
    : (r: Result<(seq<Polygon>, Conglomerate, int)>)
    requires MergeReady(points, lines, polys, hs)
    requires a < |polys| && b < |polys| && polys[a].plane == plane && polys[b].plane == plane
    requires CurrentChild(polys, a) != CurrentChild(polys, b)
    ensures r.Success? ==> MergeReady(points, lines, r.value.0, hs)
    ensures r.Success? ==> Extended(r.value.0, polys) && FreshNames(r.value.0, |polys|, name)
    ensures r.Success? ==> r.value.0 != polys && |r.value.0| == |polys| + 1
    ensures r.Failure? ==> r.fault == IndexOutOfRange || r.fault == Diverged
    ensures FusesAcross(polys, c, name, CurrentChild(polys, a), CurrentChild(polys, b), plane, cur, next, r)
  {
    var f, s := CurrentChild(polys, a), CurrentChild(polys, b);
    match Combine(polys[f].points, polys[s].points, cur, next)
    case Failure(e) => Failure(e)
    case Success(combined) =>
      CurrentChildPlane(polys, a);
      CurrentChildPlane(polys, b);
      FuseKept(points, lines, hs, polys, name, f, s, plane, combined);
      Success((FusedPolys(polys, name, f, s, plane, combined),
               c.(outline := FusedOutline(c.outline, f, s, |polys|)), name + 1))
  }

  /** One pass of `merge`'s inner loop: the edge from point `i` of polygon `m`
      to the next point. The polygons of `m`'s two owners in the plane across
      the edge are traced to the ends of their chains and, unless either lies on
      the merge list or both chains already meet, fused into a new polygon
      named `name`. */
  function MergeEdge(points: seq<Point>, lines: seq<Line>, hs: seq<Polyhedron>,
                     polys: seq<Polygon>, c: Conglomerate, name: int, m: nat, i: nat)
    : (r: Result<(seq<Polygon>, Conglomerate, int)>)
    requires MergeReady(points, lines, polys, hs)
    requires m < |polys| && i < |polys[m].points|
    ensures r.Success? ==> MergeReady(points, lines, r.value.0, hs)
    ensures r.Success? ==> Extended(r.value.0, polys) && FreshNames(r.value.0, |polys|, name)
    ensures r.Success? ==> r.value.2 == name + (|r.value.0| - |polys|) && r.value.1 == c.(outline := r.value.1.outline)
    ensures r.Failure? ==> r.fault in {SamePoint, NoCommonLine, LinePlanesEqual, NullReference,
                                       NoPolygonInPlane, IndexOutOfRange, Diverged}
    ensures MembersIn(polys[m].points, |points|)
    ensures var cur, next := polys[m].points[i], EdgeEnd(polys[m].points, i);
      var found := FindAcross(points, lines, hs, polys, m, cur, next);
      && (found.Failure? ==> r == Failure(found.fault))
      && (found.Success? && Skips(polys, c, found.value.1, found.value.2) ==> r == Success((polys, c, name)))
      && (found.Success? && !Skips(polys, c, found.value.1, found.value.2) ==>
            FusesAcross(polys, c, name, CurrentChild(polys, found.value.1), CurrentChild(polys, found.value.2),
                        found.value.0, cur, next, r))
      && (r.Success? ==> (r.value == (polys, c, name) <==> found.Success? && Skips(polys, c, found.value.1, found.value.2)))
  {
    var pts := polys[m].points;
    assert MembersIn(pts, |points|);
    var cur, next := pts[i], EdgeEnd(pts, i);
    match FindAcross(points, lines, hs, polys, m, cur, next)
    case Failure(e) => Failure(e)
    case Success((plane, a, b)) =>
      if Skips(polys, c, a, b) then
        ExtendedSelf(polys);
        Success((polys, c, name))
      else
        FuseEdge(points, lines, hs, polys, c, name, plane, a, b, cur, next)
  }

  /** Each pass of `merge`'s inner loop keeps the invariant of `merge`. */
  lemma MergeEdgeKeepsInv(points: seq<Point>, lines: seq<Line>, hs: seq<Polyhedron>,
                          polys0: seq<Polygon>, c0: Conglomerate, name0: int,
                          polys: seq<Polygon>, c: Conglomerate, name: int, m: nat, i: nat)
    requires MergeInv(points, lines, hs, polys0, c0, name0, polys, c, name)
    requires m < |polys| && i < |polys[m].points|
    requires MergeEdge(points, lines, hs, polys, c, name, m, i).Success?
    ensures var v := MergeEdge(points, lines, hs, polys, c, name, m, i).value;
      MergeInv(points, lines, hs, polys0, c0, name0, v.0, v.1, v.2)
  {
    var pts := polys[m].points;
    assert MembersIn(pts, |points|);
    var cur, next := pts[i], EdgeEnd(pts, i);
    var found := FindAcross(points, lines, hs, polys, m, cur, next);
    var (plane, a, b) := found.value;
    if !Skips(polys, c, a, b) {
      var f, s := CurrentChild(polys, a), CurrentChild(polys, b);
      var combined := Combine(polys[f].points, polys[s].points, cur, next).value;
      CurrentChildPlane(polys, a);
      CurrentChildPlane(polys, b);
      FuseOutcome(points, lines, hs, polys0, c0, name0, polys, c, name, f, s, plane, combined);
    }
  }

  /** `merge`'s inner loop from edge `i` of polygon `m` on: the edges in turn,
      stopping at the first failure. */
  function MergeEdges(points: seq<Point>, lines: seq<Line>, hs: seq<Polyhedron>,
                      polys: seq<Polygon>, c: Conglomerate, name: int, m: nat, i: nat)
    : (r: Result<(seq<Polygon>, Conglomerate, int)>)
    requires MergeReady(points, lines, polys, hs)
    requires m < |polys| && i <= |polys[m].points|
    ensures r.Success? ==> MergeReady(points, lines, r.value.0, hs)
    ensures r.Success? ==> |polys| <= |r.value.0| && r.value.1.mergeList == c.mergeList
    ensures r.Failure? ==> r.fault in {SamePoint, NoCommonLine, LinePlanesEqual, NullReference,
                                       NoPolygonInPlane, IndexOutOfRange, Diverged}
    decreases |polys[m].points| - i
  {
    if i == |polys[m].points| then Success((polys, c, name))
    else
      match MergeEdge(points, lines, hs, polys, c, name, m, i)
      case Failure(e) => Failure(e)
      case Success((p, c', n)) =>
        assert p[m].points == polys[m].points;
        MergeEdges(points, lines, hs, p, c', n, m, i + 1)
  }

  /** `merge`'s outer loop from merge-list entry `k` on. */
  function MergeFrom(points: seq<Point>, lines: seq<Line>, hs: seq<Polyhedron>,
                     polys: seq<Polygon>, c: Conglomerate, name: int, k: nat)
    : (r: Result<(seq<Polygon>, Conglomerate, int)>)
    requires MergeReady(points, lines, polys, hs)
    requires MembersIn(c.mergeList, |polys|) && k <= |c.mergeList|
    ensures r.Failure? ==> r.fault in {SamePoint, NoCommonLine, LinePlanesEqual, NullReference,
                                       NoPolygonInPlane, IndexOutOfRange, Diverged}
    decreases |c.mergeList| - k
  {
    if k == |c.mergeList| then Success((polys, c, name))
    else
      match MergeEdges(points, lines, hs, polys, c, name, c.mergeList[k], 0)
      case Failure(e) => Failure(e)
      case Success((p, c', n)) => MergeFrom(points, lines, hs, p, c', n, k + 1)
  }

  /** One step of `merge`'s outer loop: the fold from entry `k` is the inner
      loop over entry `k` followed by the fold from `k + 1`. */
  lemma MergeFromStep(points: seq<Point>, lines: seq<Line>, hs: seq<Polyhedron>,
                      polys: seq<Polygon>, c: Conglomerate, name: int, k: nat)
    requires MergeReady(points, lines, polys, hs)
    requires MembersIn(c.mergeList, |polys|) && k < |c.mergeList|
    ensures var step := MergeEdges(points, lines, hs, polys, c, name, c.mergeList[k], 0);
      && (step.Failure? ==> MergeFrom(points, lines, hs, polys, c, name, k) == Failure(step.fault))
      && (step.Success? ==>
            && MembersIn(step.value.1.mergeList, |step.value.0|)
            && MergeFrom(points, lines, hs, polys, c, name, k)
               == MergeFrom(points, lines, hs, step.value.0, step.value.1, step.value.2, k + 1))
  {
    var step := MergeEdges(points, lines, hs, polys, c, name, c.mergeList[k], 0);
    if step.Success? {
      MembersInGrow(c.mergeList, |polys|, |step.value.0|);
    }
  }

  /** The invariant of `merge` holds before its first pass. */
  lemma MergeInvStart(points: seq<Point>, lines: seq<Line>, hs: seq<Polyhedron>,
                      polys: seq<Polygon>, c: Conglomerate, name: int)
    requires MergeReady(points, lines, polys, hs)
    ensures MergeInv(points, lines, hs, polys, c, name, polys, c, name)
  {
    ExtendedSelf(polys);
    if OutlineCurrent(polys, c.outline) {
      forall x | x in c.outline ensures x < |polys| && CurrentChild(polys, x) in c.outline {
        assert CurrentChild(polys, x) == x;
      }
    }
  }

  /** The inner loop keeps the invariant of `merge` over all its passes. */
  lemma {:induction false} MergeEdgesKeepsInv(points: seq<Point>, lines: seq<Line>, hs: seq<Polyhedron>,
                                               polys0: seq<Polygon>, c0: Conglomerate, name0: int,
                                               polys: seq<Polygon>, c: Conglomerate, name: int, m: nat, i: nat)
    requires MergeInv(points, lines, hs, polys0, c0, name0, polys, c, name)
    requires m < |polys| && i <= |polys[m].points|
    requires MergeEdges(points, lines, hs, polys, c, name, m, i).Success?
    ensures var v := MergeEdges(points, lines, hs, polys, c, name, m, i).value;
      MergeInv(points, lines, hs, polys0, c0, name0, v.0, v.1, v.2)
    decreases |polys[m].points| - i
  {
    if i < |polys[m].points| {
      MergeEdgeKeepsInv(points, lines, hs, polys0, c0, name0, polys, c, name, m, i);
      var v := MergeEdge(points, lines, hs, polys, c, name, m, i).value;
      assert v.0[m].points == polys[m].points;
      MergeEdgesKeepsInv(points, lines, hs, polys0, c0, name0, v.0, v.1, v.2, m, i + 1);
    }
  }

  /** The outer loop keeps the invariant of `merge` over all its passes. */
  lemma {:induction false} MergeFromKeepsInv(points: seq<Point>, lines: seq<Line>, hs: seq<Polyhedron>,
                                              polys0: seq<Polygon>, c0: Conglomerate, name0: int,
                                              polys: seq<Polygon>, c: Conglomerate, name: int, k: nat)
    requires MergeInv(points, lines, hs, polys0, c0, name0, polys, c, name)
    requires MembersIn(c.mergeList, |polys|) && k <= |c.mergeList|
    requires MergeFrom(points, lines, hs, polys, c, name, k).Success?
    ensures var v := MergeFrom(points, lines, hs, polys, c, name, k).value;
      MergeInv(points, lines, hs, polys0, c0, name0, v.0, v.1, v.2)
    decreases |c.mergeList| - k
  {
    if k < |c.mergeList| {
      MergeFromStep(points, lines, hs, polys, c, name, k);
      MergeEdgesKeepsInv(points, lines, hs, polys0, c0, name0, polys, c, name, c.mergeList[k], 0);
      var v := MergeEdges(points, lines, hs, polys, c, name, c.mergeList[k], 0).value;
      MergeFromKeepsInv(points, lines, hs, polys0, c0, name0, v.0, v.1, v.2, k + 1);
    }
  }

  /** `merge`'s inner loop over the edges of merge-list polygon `m`. */
  method MergePolygon(points: seq<Point>, lines: seq<Line>, hs: seq<Polyhedron>,
                      polys: seq<Polygon>, c: Conglomerate, name: int, m: nat)
    returns (r: Result<(seq<Polygon>, Conglomerate, int)>)
    requires MergeReady(points, lines, polys, hs)
    requires m < |polys|
    ensures r == MergeEdges(points, lines, hs, polys, c, name, m, 0)
  {
    var pts := polys[m].points;
    var cur, con, nm := polys, c, name;
    var i := 0;
    while i < |pts|
      invariant i <= |pts|
      invariant MergeReady(points, lines, cur, hs)
      invariant m < |cur| && cur[m].points == pts
      invariant MergeEdges(points, lines, hs, polys, c, name, m, 0) == MergeEdges(points, lines, hs, cur, con, nm, m, i)
    {
      var step := MergeEdge(points, lines, hs, cur, con, nm, m, i);
      if step.Failure? {
        return Failure(step.fault);
      }
      assert step.value.0[m].points == pts;
      cur, con, nm := step.value.0, step.value.1, step.value.2;
      i := i + 1;
    }
    r := Success((cur, con, nm));
  }

  /** `merge`'s outer loop over the merge list. */
  method MergeAll(points: seq<Point>, lines: seq<Line>, hs: seq<Polyhedron>,
                  polys: seq<Polygon>, c: Conglomerate, name: int)
    returns (r: Result<(seq<Polygon>, Conglomerate, int)>)
    requires MergeReady(points, lines, polys, hs)
    requires MembersIn(c.mergeList, |polys|)
    ensures r == MergeFrom(points, lines, hs, polys, c, name, 0)
  {
    var cur, con, nm := polys, c, name;
    var k := 0;
    while k < |c.mergeList|
      invariant k <= |c.mergeList|
      invariant MergeReady(points, lines, cur, hs)
      invariant con.mergeList == c.mergeList && MembersIn(c.mergeList, |cur|)
      invariant MergeFrom(points, lines, hs, polys, c, name, 0) == MergeFrom(points, lines, hs, cur, con, nm, k)
    {
      MergeFromStep(points, lines, hs, cur, con, nm, k);
      var step := MergePolygon(points, lines, hs, cur, con, nm, c.mergeList[k]);
      if step.Failure? {
        return Failure(step.fault);
      }
      cur, con, nm := step.value.0, step.value.1, step.value.2;
      k := k + 1;
    }
    r := Success((cur, con, nm));
  }

  /** `merge`: fuses the polygons across every edge of every merge-list polygon,
      numbering the new polygons from `name`; the number after the last one
      used is returned with the new arena and conglomerate. The result is
      that of visiting the edges one after another with `MergeEdge`. Only the
      outline list changes; the old polygons only gain forwarding pointers, and
      when the outline started out current it ends current, with every polygon
      it started with represented by the end of its chain. */
  method Merge(points: seq<Point>, lines: seq<Line>, hs: seq<Polyhedron>,
               polys: seq<Polygon>, c: Conglomerate, name: int)
    returns (r: Result<(seq<Polygon>, Conglomerate, int)>)
    requires MergeReady(points, lines, polys, hs)
    requires MembersIn(c.mergeList, |polys|)
    ensures r == MergeFrom(points, lines, hs, polys, c, name, 0)
    ensures r.Success? ==> MergeReady(points, lines, r.value.0, hs)
    ensures r.Success? ==> Extended(r.value.0, polys) && FreshNames(r.value.0, |polys|, name)
    ensures r.Success? ==> r.value.2 == name + (|r.value.0| - |polys|)
    ensures r.Success? ==> r.value.1 == c.(outline := r.value.1.outline)
    ensures r.Success? && InArena(c.outline, |polys|) ==> InArena(r.value.1.outline, |r.value.0|)
    ensures r.Success? && OutlineCurrent(polys, c.outline) ==>
              && OutlineCurrent(r.value.0, r.value.1.outline)
              && forall x :: x in c.outline ==> CurrentChild(r.value.0, x) in r.value.1.outline
    ensures r.Failure? ==> r.fault in {SamePoint, NoCommonLine, LinePlanesEqual, NullReference,
                                       NoPolygonInPlane, IndexOutOfRange, Diverged}
  {
    r := MergeAll(points, lines, hs, polys, c, name);
    if r.Success? {
      MergeInvStart(points, lines, hs, polys, c, name);
      MergeFromKeepsInv(points, lines, hs, polys, c, name, polys, c, name, 0);
    }
  }
}
