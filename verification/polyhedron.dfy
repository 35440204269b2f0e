/** `Polyhedron`: a list of member polygon ids with a visibility flag and an
    explored flag, and the operations that touch its members in the polygon arena. */
module Polyhedra {
  import opened Wrappers
  import opened Polygons
  import Seqs

  datatype Polyhedron = Polyhedron(polygons: seq<nat>, name: int, drawn: bool, explored: bool)

  /** A polyhedron holding just its starting polygon, not yet named, drawn or explored. */
  function StartingWith(p: nat): Polyhedron
  {
    Polyhedron([p], 0, false, false)
  }

  predicate MembersIn(members: seq<nat>, n: nat)
  {
    forall i :: 0 <= i < |members| ==> members[i] < n
  }

  predicate AllOwnersInOrder(polys: seq<Polygon>)
  {
    forall q :: 0 <= q < |polys| ==> OwnersInOrder(polys[q])
  }

  function Repeat(x: nat, k: nat): (r: seq<nat>)
    ensures |r| == k && forall i :: 0 <= i < k ==> r[i] == x
  {
    if k == 0 then [] else Repeat(x, k - 1) + [x]
  }

  lemma OwnersAtMostTwo(p: Polygon)
    ensures |Owners(p)| <= 2
  {
  }

  /** `now` differs from `was` at most in its owner slots. */
  predicate SameButOwners(now: Polygon, was: Polygon)
  {
    && now.plane == was.plane && now.points == was.points
    && now.greaterMarked == was.greaterMarked && now.lesserMarked == was.lesserMarked
    && now.name == was.name && now.mergedInto == was.mergedInto && now.explored == was.explored
  }

  /** `now` is `was` with `id` recorded `extra` more times as an owner. */
  predicate OwnedMore(now: Polygon, was: Polygon, id: nat, extra: nat)
  {
    SameButOwners(now, was) && Owners(now) == Owners(was) + Repeat(id, extra)
  }

  lemma OwnedMoreStep(now: Polygon, was: Polygon, id: nat, extra: nat, next: Polygon)
    requires OwnedMore(now, was, id, extra) && OwnersInOrder(now)
    requires SetPolyhedra(now, id) == Success(next)
    ensures OwnedMore(next, was, id, extra + 1)
  {
    assert Repeat(id, extra + 1) == Repeat(id, extra) + [id];
  }

  /** The owner records after naming polyhedron `id` on each member in turn,
      failing at the first polygon that already has two owners. */
  function AddOwners(cur: seq<Polygon>, members: seq<nat>, id: nat): Result<seq<Polygon>>
    requires MembersIn(members, |cur|) && AllOwnersInOrder(cur)
    decreases |members|
  {
    if members == [] then Success(cur)
    else
      match SetPolyhedra(cur[members[0]], id)
      case Failure(f) => Failure(f)
      case Success(p) => AddOwners(cur[members[0] := p], members[1..], id)
  }

  /** `set_polygon_references`: records the polyhedron `id` as an owner of each
      member, once per occurrence in the member list; it succeeds exactly when
      no polygon would end up with more than two owners. */
  method SetPolygonReferences(polys: seq<Polygon>, members: seq<nat>, id: nat) returns (r: Result<seq<Polygon>>)
    requires MembersIn(members, |polys|) && AllOwnersInOrder(polys)
    ensures r.Success? <==> forall q :: 0 <= q < |polys| ==> |Owners(polys[q])| + multiset(members)[q] <= 2
    ensures r == AddOwners(polys, members, id)
    ensures r.Failure? ==> r.fault == ThirdPolyhedron
    ensures r.Success? ==> |r.value| == |polys| && AllOwnersInOrder(r.value)
    ensures r.Success? ==> forall q :: 0 <= q < |polys| ==> OwnedMore(r.value[q], polys[q], id, multiset(members)[q])
  {
    AddOwnersOwned(polys, members, id);
    AddOwnersIff(polys, members, id);
    var cur := polys;
    var i := 0;
    assert members[0..] == members;
    while i < |members|
      invariant 0 <= i <= |members|
      invariant |cur| == |polys| && AllOwnersInOrder(cur)
      invariant AddOwners(polys, members, id) == AddOwners(cur, members[i..], id)
    {
      var m := members[i];
      AddOwnersFrom(cur, members, i, id);
      var step := SetPolyhedra(cur[m], id);
      if step.Failure? {
        return Failure(step.fault);
      }
      cur := cur[m := step.value];
      i := i + 1;
    }
    assert members[i..] == [];
    return Success(cur);
  }

  /** Naming `id` on every member succeeds exactly when no polygon would end
      up with more than two owners. */
  lemma AddOwnersIff(cur: seq<Polygon>, members: seq<nat>, id: nat)
    requires MembersIn(members, |cur|) && AllOwnersInOrder(cur)
    ensures AddOwners(cur, members, id).Success?
      <==> forall q :: 0 <= q < |cur| ==> |Owners(cur[q])| + multiset(members)[q] <= 2
  {
    AddOwnersOwned(cur, members, id);
    var r := AddOwners(cur, members, id);
    if r.Success? {
      forall q | 0 <= q < |cur| ensures |Owners(cur[q])| + multiset(members)[q] <= 2 {
        OwnersAtMostTwo(r.value[q]);
        assert |Repeat(id, multiset(members)[q])| == multiset(members)[q];
      }
    } else {
      AddOwnersFails(cur, members, id);
    }
  }

  /** A failed naming has some polygon that would need a third owner. */
  lemma {:induction false} AddOwnersFails(cur: seq<Polygon>, members: seq<nat>, id: nat)
    requires MembersIn(members, |cur|) && AllOwnersInOrder(cur)
    requires AddOwners(cur, members, id).Failure?
    ensures exists q :: 0 <= q < |cur| && |Owners(cur[q])| + multiset(members)[q] > 2
    decreases |members|
  {
    var m := members[0];
    assert members == [m] + members[1..];
    assert multiset(members) == multiset{m} + multiset(members[1..]);
    var step := SetPolyhedra(cur[m], id);
    if step.Failure? {
      assert |Owners(cur[m])| + multiset(members)[m] > 2;
    } else {
      var cur' := cur[m := step.value];
      AddOwnersFails(cur', members[1..], id);
      var q :| 0 <= q < |cur'| && |Owners(cur'[q])| + multiset(members[1..])[q] > 2;
      if q == m {
        assert |Owners(cur[q])| + multiset(members)[q] > 2;
      } else {
        assert cur'[q] == cur[q];
        assert |Owners(cur[q])| + multiset(members)[q] > 2;
      }
    }
  }

  lemma RepeatConcat(x: nat, e: nat, k: nat)
    ensures Repeat(x, e) + Repeat(x, k) == Repeat(x, e + k)
  {
  }

  /** Owner records added in two rounds are the sum of both rounds. */
  lemma OwnedMoreCompose(now: Polygon, mid: Polygon, was: Polygon, id: nat, e: nat, k: nat)
    requires OwnedMore(mid, was, id, e) && OwnedMore(now, mid, id, k)
    ensures OwnedMore(now, was, id, e + k)
  {
    RepeatConcat(id, e, k);
  }

  /** What naming polyhedron `id` on the members does to the owner records:
      it fails exactly with a third owner, and otherwise each polygon gains
      `id` once per occurrence among the members, nothing else changing. */
  lemma {:induction false} AddOwnersOwned(cur: seq<Polygon>, members: seq<nat>, id: nat)
    requires MembersIn(members, |cur|) && AllOwnersInOrder(cur)
    ensures var r := AddOwners(cur, members, id);
      && (r.Failure? ==> r.fault == ThirdPolyhedron)
      && (r.Success? ==> |r.value| == |cur| && AllOwnersInOrder(r.value))
      && (r.Success? ==> forall q :: 0 <= q < |cur| ==> OwnedMore(r.value[q], cur[q], id, multiset(members)[q]))
    decreases |members|
  {
    if members == [] {
      forall q | 0 <= q < |cur| ensures OwnedMore(cur[q], cur[q], id, 0) {
        assert Repeat(id, 0) == [];
      }
    } else {
      var m := members[0];
      var step := SetPolyhedra(cur[m], id);
      if step.Success? {
        var cur' := cur[m := step.value];
        var rest: seq<nat> := members[1..];
        AddOwnersOwned(cur', rest, id);
        var r := AddOwners(cur', rest, id);
        assert members == [m] + rest;
        assert multiset(members) == multiset([m]) + multiset(rest);
        if r.Success? {
          OwnedOneMore(cur, m, step.value, id);
          OwnedMoreAllCompose(r.value, cur', cur, id, multiset([m]), multiset(rest));
        }
      }
    }
  }

  /** Naming `id` on polygon `m` alone. */
  lemma OwnedOneMore(cur: seq<Polygon>, m: nat, p: Polygon, id: nat)
    requires m < |cur| && OwnersInOrder(cur[m]) && SetPolyhedra(cur[m], id) == Success(p)
    ensures forall q :: 0 <= q < |cur| ==> OwnedMore(cur[m := p][q], cur[q], id, multiset([m])[q])
  {
    assert Repeat(id, 1) == [id] && Repeat(id, 0) == [];
  }

  /** `OwnedMoreCompose` polygon by polygon. */
  lemma OwnedMoreAllCompose(now: seq<Polygon>, mid: seq<Polygon>, was: seq<Polygon>, id: nat,
                            e: multiset<nat>, k: multiset<nat>)
    requires |now| == |mid| == |was|
    requires forall q :: 0 <= q < |was| ==> OwnedMore(mid[q], was[q], id, e[q])
    requires forall q :: 0 <= q < |was| ==> OwnedMore(now[q], mid[q], id, k[q])
    ensures forall q :: 0 <= q < |was| ==> OwnedMore(now[q], was[q], id, (e + k)[q])
  {
    forall q | 0 <= q < |was| ensures OwnedMore(now[q], was[q], id, (e + k)[q]) {
      OwnedMoreCompose(now[q], mid[q], was[q], id, e[q], k[q]);
    }
  }

  /** One step of `AddOwners` from member `i` on. */
  lemma AddOwnersFrom(cur: seq<Polygon>, members: seq<nat>, i: nat, id: nat)
    requires i < |members| && MembersIn(members, |cur|) && AllOwnersInOrder(cur)
    ensures SetPolyhedra(cur[members[i]], id).Failure? ==>
      AddOwners(cur, members[i..], id) == Failure(ThirdPolyhedron)
    ensures SetPolyhedra(cur[members[i]], id).Success? ==>
      AddOwners(cur, members[i..], id)
        == AddOwners(cur[members[i] := SetPolyhedra(cur[members[i]], id).value], members[i + 1..], id)
  {
    assert members[i..][0] == members[i] && members[i..][1..] == members[i + 1..];
  }

  /** The index of the first member lying in `plane`, or -1. */
  function FirstInPlane(polys: seq<Polygon>, members: seq<nat>, plane: nat): (r: int)
    requires MembersIn(members, |polys|)
    ensures -1 <= r < |members|
    ensures r >= 0 ==> polys[members[r]].plane == plane
    ensures forall j :: 0 <= j < |members| && (r == -1 || j < r) ==> polys[members[j]].plane != plane
  {
    if |members| == 0 then -1
    else if polys[members[0]].plane == plane then 0
    else
      var k := FirstInPlane(polys, members[1..], plane);
      if k == -1 then -1 else k + 1
  }

  /** `find_polygon_in_plane`: the first member lying in `plane`; fatal when none does. */
  function FindPolygonInPlane(polys: seq<Polygon>, members: seq<nat>, plane: nat): (r: Result<nat>)
    requires MembersIn(members, |polys|)
    ensures r.Failure? <==> forall i :: 0 <= i < |members| ==> polys[members[i]].plane != plane
    ensures r.Failure? ==> r.fault == NoPolygonInPlane
    ensures r.Success? ==> r.value in members && polys[r.value].plane == plane
    ensures r.Success? ==> forall j :: 0 <= j < Seqs.IndexOf(members, r.value) ==> polys[members[j]].plane != plane
  {
    var k := FirstInPlane(polys, members, plane);
    if k == -1 then Failure(NoPolygonInPlane)
    else
      assert Seqs.IndexOf(members, members[k]) <= k by {
        assert members[k] !in members[..Seqs.IndexOf(members, members[k])];
      }
      Success(members[k])
  }

  /** The first member other than `self` whose points include `a`, as an index
      into `members`, or -1. */
  function FirstOtherWith(polys: seq<Polygon>, members: seq<nat>, self: nat, a: nat): (r: int)
    requires MembersIn(members, |polys|)
    ensures -1 <= r < |members|
    ensures r >= 0 ==> members[r] != self && a in polys[members[r]].points
    ensures forall j :: 0 <= j < |members| && (r == -1 || j < r) ==> !(members[j] != self && a in polys[members[j]].points)
  {
    if |members| == 0 then -1
    else if members[0] != self && a in polys[members[0]].points then 0
    else
      var k := FirstOtherWith(polys, members[1..], self, a);
      if k == -1 then -1 else k + 1
  }

  /** The first point of `s` that is not in `t`, as an index, or -1. */
  function FirstNotIn(s: seq<nat>, t: seq<nat>): (r: int)
    ensures -1 <= r < |s|
    ensures r >= 0 ==> s[r] !in t
    ensures forall j :: 0 <= j < |s| && (r == -1 || j < r) ==> s[j] in t
  {
    if |s| == 0 then -1
    else if s[0] !in t then 0
    else
      var k := FirstNotIn(s[1..], t);
      if k == -1 then -1 else k + 1
  }

  /** The polygon's points are its original ones, or those read back to front;
      nothing else about it changed. */
  predicate KeptOrReversed(now: Polygon, was: Polygon)
  {
    && now.plane == was.plane && now.greaterMarked == was.greaterMarked && now.lesserMarked == was.lesserMarked
    && now.name == was.name && now.mergedInto == was.mergedInto && now.owner1 == was.owner1
    && now.owner2 == was.owner2 && now.explored == was.explored
    && (now.points == was.points || now.points == Seqs.Reverse(was.points))
  }

  lemma KeptLength(now: Polygon, was: Polygon)
    requires KeptOrReversed(now, was)
    ensures |now.points| == |was.points|
  {
  }

  lemma FlipKeeps(now: Polygon, was: Polygon, flipped: Polygon)
    requires KeptOrReversed(now, was)
    requires flipped.points == Seqs.Reverse(now.points) && flipped.(points := now.points) == now
    ensures KeptOrReversed(flipped, was)
  {
    Seqs.ReverseTwice(was.points);
  }

  /** The point `make_polygon_points_ccw` views member `self` against, before
      the reflection: the first point outside `self` of the first other member
      that holds `self`'s first point. `None` when there is no such member or
      no such point, where the source dereferences null. */
  function ViewPoint(polys: seq<Polygon>, members: seq<nat>, self: nat): Option<nat>
    requires MembersIn(members, |polys|) && self < |polys| && |polys[self].points| > 0
  {
    var k := FirstOtherWith(polys, members, self, polys[self].points[0]);
    if k == -1 then None
    else
      var o := FirstNotIn(polys[members[k]].points, polys[self].points);
      if o == -1 then None else Some(polys[members[k]].points[o])
  }

  /** One member's turn in `make_polygon_points_ccw`: its first three points
      a, b, c and the view point go to `ccw` (the reflection and winding test).
      The member keeps its points when they already run counter-clockwise and
      is reversed when they do not; no other polygon changes. Fewer than three
      points is an index error, a missing neighbour or outside point a null
      dereference. */
  function OrientMember(cur: seq<Polygon>, members: seq<nat>, self: nat,
                        ccw: (nat, nat, nat, nat, nat) -> bool): (r: Result<seq<Polygon>>)
    requires MembersIn(members, |cur|) && self < |cur|
    ensures |cur[self].points| < 3 <==> r == Failure(IndexOutOfRange)
    ensures |cur[self].points| >= 3 && ViewPoint(cur, members, self).None? <==> r == Failure(NullReference)
    ensures |cur[self].points| >= 3 && ViewPoint(cur, members, self).Some? <==> r.Success?
    ensures r.Success? ==> |r.value| == |cur| && forall q :: 0 <= q < |cur| && q != self ==> r.value[q] == cur[q]
    ensures r.Success? ==> var pts := cur[self].points; var v := ViewPoint(cur, members, self).value;
      && (ccw(cur[self].plane, pts[0], pts[1], pts[2], v) ==> r.value[self] == cur[self])
      && (!ccw(cur[self].plane, pts[0], pts[1], pts[2], v) ==>
            r.value[self].points == Seqs.Reverse(pts) && r.value[self].(points := pts) == cur[self])
  {
    var pts := cur[self].points;
    if |pts| < 3 then Failure(IndexOutOfRange)
    else
      match ViewPoint(cur, members, self)
      case None => Failure(NullReference)
      case Some(v) =>
        if ccw(cur[self].plane, pts[0], pts[1], pts[2], v) then Success(cur)
        else Success(cur[self := cur[self].(points := Seqs.Reverse(pts))])
  }

  /** Orienting a member keeps every polygon at its points or their reversal. */
  lemma OrientKeeps(polys0: seq<Polygon>, cur: seq<Polygon>, members: seq<nat>, self: nat,
                    ccw: (nat, nat, nat, nat, nat) -> bool)
    requires MembersIn(members, |cur|) && self < |cur| && |cur| == |polys0|
    requires forall q :: 0 <= q < |polys0| ==> KeptOrReversed(cur[q], polys0[q])
    requires OrientMember(cur, members, self, ccw).Success?
    ensures var r := OrientMember(cur, members, self, ccw).value;
      forall q :: 0 <= q < |polys0| ==> KeptOrReversed(r[q], polys0[q])
    ensures |polys0[self].points| >= 3
  {
    var r := OrientMember(cur, members, self, ccw).value;
    KeptLength(cur[self], polys0[self]);
    if r[self] != cur[self] {
      FlipKeeps(cur[self], polys0[self], r[self]);
    }
  }

  /** The members from the `i`-th on, oriented one after another; the first
      failure stops the loop. */
  function OrientFrom(polys: seq<Polygon>, members: seq<nat>, ccw: (nat, nat, nat, nat, nat) -> bool, i: nat)
    : (r: Result<seq<Polygon>>)
    requires MembersIn(members, |polys|) && i <= |members|
    ensures r.Success? ==> |r.value| == |polys|
    decreases |members| - i
  {
    if i == |members| then Success(polys)
    else
      match OrientMember(polys, members, members[i], ccw)
      case Failure(e) => Failure(e)
      case Success(next) => OrientFrom(next, members, ccw, i + 1)
  }

  /** `make_polygon_points_ccw`: orients each member in order, which is
      `OrientMember` applied to the members one after another. On success
      every polygon keeps its points or has them exactly reversed, nothing
      else changes, and every member had at least three points. */
  method MakePolygonPointsCcw(polys: seq<Polygon>, members: seq<nat>, ccw: (nat, nat, nat, nat, nat) -> bool)
    returns (r: Result<seq<Polygon>>)
    requires MembersIn(members, |polys|)
    ensures r == OrientFrom(polys, members, ccw, 0)
    ensures r.Success? ==> |r.value| == |polys|
    ensures r.Success? ==> forall q :: 0 <= q < |polys| ==> KeptOrReversed(r.value[q], polys[q])
    ensures r.Success? ==> forall q :: 0 <= q < |polys| ==> multiset(r.value[q].points) == multiset(polys[q].points)
    ensures r.Success? ==> forall q :: 0 <= q < |polys| && q !in members ==> r.value[q] == polys[q]
    ensures r.Success? ==> forall i :: 0 <= i < |members| ==> |polys[members[i]].points| >= 3
    ensures r.Failure? ==> r.fault == IndexOutOfRange || r.fault == NullReference
  {
    var cur := polys;
    var i := 0;
    OrientedNone(polys, members);
    while i < |members|
      invariant OrientedSoFar(polys, members, cur, i)
      invariant OrientFrom(polys, members, ccw, 0) == OrientFrom(cur, members, ccw, i)
    {
      var step := OrientMember(cur, members, members[i], ccw);
      if step.Failure? {
        return Failure(step.fault);
      }
      OrientStep(polys, members, cur, i, ccw);
      cur := step.value;
      i := i + 1;
    }
    forall q | 0 <= q < |polys| ensures multiset(cur[q].points) == multiset(polys[q].points) {
      Seqs.ReverseKeepsElements(polys[q].points);
    }
    return Success(cur);
  }

  /** What holds once the first `i` members are oriented. */
  predicate OrientedSoFar(polys: seq<Polygon>, members: seq<nat>, cur: seq<Polygon>, i: nat)
  {
    && |cur| == |polys| && i <= |members| && MembersIn(members, |cur|)
    && (forall q :: 0 <= q < |polys| ==> KeptOrReversed(cur[q], polys[q]))
    && (forall q :: 0 <= q < |polys| && q !in members ==> cur[q] == polys[q])
    && (forall j :: 0 <= j < i ==> |polys[members[j]].points| >= 3)
  }

  lemma OrientedNone(polys: seq<Polygon>, members: seq<nat>)
    requires MembersIn(members, |polys|)
    ensures OrientedSoFar(polys, members, polys, 0)
  {
  }

  /** A successful turn keeps `OrientedSoFar` and moves the fold on by one. */
  lemma OrientStep(polys: seq<Polygon>, members: seq<nat>, cur: seq<Polygon>, i: nat,
                   ccw: (nat, nat, nat, nat, nat) -> bool)
    requires OrientedSoFar(polys, members, cur, i) && i < |members|
    requires OrientMember(cur, members, members[i], ccw).Success?
    ensures var next := OrientMember(cur, members, members[i], ccw).value;
      && OrientedSoFar(polys, members, next, i + 1)
      && OrientFrom(cur, members, ccw, i) == OrientFrom(next, members, ccw, i + 1)
  {
    OrientKeeps(polys, cur, members, members[i], ccw);
  }
}
