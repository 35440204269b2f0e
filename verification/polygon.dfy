/** `Polygon`: a cyclic sequence of point ids on one plane, its two face marks,
    up to two owning polyhedra, and the forwarding pointer to the polygon it was
    fused into. Polygons live in one arena, `seq<Polygon>`, indexed by id. */
module Polygons {
  import opened Wrappers
  import Seqs

  datatype Polygon = Polygon(
    plane: nat,
    points: seq<nat>,
    greaterMarked: bool,      // greater-x face already used by a polyhedron attempt
    lesserMarked: bool,       // lesser-x face already used by a polyhedron attempt
    name: int,
    mergedInto: Option<nat>,  // the child this polygon was fused into
    owner1: Option<nat>,      // first owning polyhedron
    owner2: Option<nat>,      // second owning polyhedron
    explored: bool)           // already classified by a conglomerate

  /** A polygon built from a point list: no marks, owners or child, name 0. */
  function FromPoints(plane: nat, points: seq<nat>): Polygon
  {
    Polygon(plane, points, false, false, 0, None, None, None, false)
  }

  /** The two-point constructor that starts a face walk: exactly `[first, second]`
      on `plane`, with nothing marked, owned or forwarded. */
  function NewPolygon(plane: nat, first: nat, second: nat): (r: Polygon)
    ensures r.points == [first, second] && r.plane == plane
    ensures !r.greaterMarked && !r.lesserMarked && !r.explored
    ensures r.mergedInto.None? && r.owner1.None? && r.owner2.None?
  {
    FromPoints(plane, [first, second])
  }

  /** The owning polyhedra recorded so far, in the order they were recorded. */
  function Owners(p: Polygon): seq<nat>
  {
    (if p.owner1.Some? then [p.owner1.value] else []) + (if p.owner2.Some? then [p.owner2.value] else [])
  }

  /** The second owner slot is only used after the first. */
  predicate OwnersInOrder(p: Polygon)
  {
    p.owner2.Some? ==> p.owner1.Some?
  }

  /** `set_polyhedra`: records `h` in the first free owner slot; a polygon that
      already has two owners is a fatal error. Nothing but the owners changes. */
  function SetPolyhedra(p: Polygon, h: nat): (r: Result<Polygon>)
    requires OwnersInOrder(p)
    ensures r.Success? <==> |Owners(p)| < 2
    ensures r.Failure? ==> r.fault == ThirdPolyhedron
    ensures r.Success? ==> Owners(r.value) == Owners(p) + [h] && OwnersInOrder(r.value)
    ensures r.Success? ==> r.value.(owner1 := p.owner1, owner2 := p.owner2) == p
  {
    if p.owner1.None? then Success(p.(owner1 := Some(h)))
    else if p.owner2.None? then Success(p.(owner2 := Some(h)))
    else Failure(ThirdPolyhedron)
  }

  /** Three owners in a row: the first two fill the slots in order, the third is fatal. */
  lemma SetPolyhedraFillsInOrder(p: Polygon, h1: nat, h2: nat, h3: nat)
    requires p.owner1.None? && p.owner2.None?
    ensures SetPolyhedra(p, h1).Success?
    ensures SetPolyhedra(p, h1).value.owner1 == Some(h1)
    ensures SetPolyhedra(SetPolyhedra(p, h1).value, h2).Success?
    ensures SetPolyhedra(SetPolyhedra(p, h1).value, h2).value.owner2 == Some(h2)
    ensures SetPolyhedra(SetPolyhedra(SetPolyhedra(p, h1).value, h2).value, h3) == Failure(ThirdPolyhedron)
  {
  }

  /** `reverse_points`: builds the reversed point list back to front. */
  method ReversePoints(p: Polygon) returns (q: Polygon)
    ensures |q.points| == |p.points|
    ensures forall k :: 0 <= k < |p.points| ==> q.points[k] == p.points[|p.points| - 1 - k]
    ensures q.points == Seqs.Reverse(p.points)
    ensures q.(points := p.points) == p
  {
    var reversed: seq<nat> := [];
    var i := |p.points| - 1;
    while i >= 0
      invariant -1 <= i < |p.points|
      invariant |reversed| == |p.points| - 1 - i
      invariant forall k :: 0 <= k < |reversed| ==> reversed[k] == p.points[|p.points| - 1 - k]
    {
      reversed := reversed + [p.points[i]];
      i := i - 1;
    }
    q := p.(points := reversed);
  }

  /** Every forwarding pointer leads to a later polygon of the arena; a fused
      polygon is always created after its parents, so the chain is acyclic. */
  predicate ForwardOnly(polys: seq<Polygon>)
  {
    forall i :: 0 <= i < |polys| && polys[i].mergedInto.Some? ==> i < polys[i].mergedInto.value < |polys|
  }

  /** `get_current_child`: follows forwarding pointers to a polygon that has none. */
  function CurrentChild(polys: seq<Polygon>, p: nat): (r: nat)
    requires ForwardOnly(polys) && p < |polys|
    ensures p <= r < |polys| && polys[r].mergedInto.None?
    ensures polys[p].mergedInto.None? ==> r == p
    decreases |polys| - p
  {
    match polys[p].mergedInto
    case None => p
    case Some(c) => CurrentChild(polys, c)
  }

  /** The polygon reached from `p` by following at most `k` forwarding pointers. */
  function Follow(polys: seq<Polygon>, p: nat, k: nat): nat
    requires ForwardOnly(polys) && p < |polys|
    ensures Follow(polys, p, k) < |polys|
    decreases k
  {
    if k == 0 then p
    else match polys[p].mergedInto
      case None => p
      case Some(c) => Follow(polys, c, k - 1)
  }

  /** The current child is the end of the chain: following pointers from `p`
      as often as the arena allows ends exactly there. */
  lemma {:induction false} CurrentChildIsChainEnd(polys: seq<Polygon>, p: nat, k: nat)
    requires ForwardOnly(polys) && p < |polys| && k >= |polys| - p
    ensures Follow(polys, p, k) == CurrentChild(polys, p)
    decreases |polys| - p
  {
    match polys[p].mergedInto
    case None =>
    case Some(c) =>
      CurrentChildIsChainEnd(polys, c, k - 1);
  }

  /** `set_child`: attaches `c` after the last polygon of `p`'s chain; that one
      link is written and every other polygon is left as it was. */
  function SetChild(polys: seq<Polygon>, p: nat, c: nat): (r: seq<Polygon>)
    requires ForwardOnly(polys) && p < |polys| && c < |polys| && CurrentChild(polys, p) < c
    ensures |r| == |polys| && ForwardOnly(r)
    ensures r[CurrentChild(polys, p)] == polys[CurrentChild(polys, p)].(mergedInto := Some(c))
    ensures forall i :: 0 <= i < |polys| && i != CurrentChild(polys, p) ==> r[i] == polys[i]
    decreases |polys| - p
  {
    match polys[p].mergedInto
    case None => polys[p := polys[p].(mergedInto := Some(c))]
    case Some(q) => SetChild(polys, q, c)
  }

  /** After `set_child(p, c)` every polygon whose chain ended where `p`'s did
      now resolves to `c`'s current child, and every other polygon resolves as before. */
  lemma {:induction false} SetChildRedirects(polys: seq<Polygon>, p: nat, c: nat, q: nat)
    requires ForwardOnly(polys) && p < |polys| && c < |polys| && CurrentChild(polys, p) < c
    requires q < |polys|
    ensures CurrentChild(SetChild(polys, p, c), q) ==
      if CurrentChild(polys, q) == CurrentChild(polys, p) then CurrentChild(polys, c) else CurrentChild(polys, q)
    decreases |polys| - q
  {
    var r := SetChild(polys, p, c);
    var e := CurrentChild(polys, p);
    if q == e {
      SetChildRedirects(polys, p, c, c);
    } else {
      match polys[q].mergedInto
      case None =>
      case Some(q') =>
        SetChildRedirects(polys, p, c, q');
    }
  }

  /** `set_child(p, c)` with a child `c` that has no child of its own makes `p` resolve to `c`. */
  lemma SetChildReachesChild(polys: seq<Polygon>, p: nat, c: nat)
    requires ForwardOnly(polys) && p < |polys| && c < |polys| && CurrentChild(polys, p) < c
    requires polys[c].mergedInto.None?
    ensures CurrentChild(SetChild(polys, p, c), p) == c
  {
    SetChildRedirects(polys, p, c, p);
  }
}
