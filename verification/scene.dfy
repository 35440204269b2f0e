/** The end of `create_scene`: once the polyhedra exist, each is drawn with
    the scene's probability (its polygons turned counter-clockwise), the drawn
    polyhedra are gathered into conglomerates whose shared polygons are fused
    away, and the outlines of every conglomerate are written out. The random
    draw is a parameter: `visible(h)` says whether `Math.random()` fell below
    the probability on polyhedron `h`'s turn. */
module Scene {
  import opened Wrappers
  import Seqs
  import opened Lines
  import opened Points
  import opened Polygons
  import opened Polyhedra
  import opened Conglomerates
  import opened Merging
  import opened ObjExport

  /** The polygons of the polyhedra in `chosen`, as the `chosen_polygons` set
      collects them. */
  function PolygonsOf(hs: seq<Polyhedron>, chosen: seq<nat>): set<nat>
    requires forall k :: 0 <= k < |chosen| ==> chosen[k] < |hs|
    decreases |chosen|
  {
    if chosen == [] then {}
    else
      var members := hs[chosen[|chosen| - 1]].polygons;
      PolygonsOf(hs, chosen[..|chosen| - 1]) + (set x | x in members)
  }

  /** A polygon is collected exactly when some chosen polyhedron lists it. */
  lemma {:induction false} PolygonsOfMembers(hs: seq<Polyhedron>, chosen: seq<nat>, q: nat)
    requires forall k :: 0 <= k < |chosen| ==> chosen[k] < |hs|
    ensures q in PolygonsOf(hs, chosen) <==> exists k :: 0 <= k < |chosen| && q in hs[chosen[k]].polygons
    decreases |chosen|
  {
    if chosen != [] {
      var init := chosen[..|chosen| - 1];
      PolygonsOfMembers(hs, init, q);
      if q in PolygonsOf(hs, chosen) && q !in PolygonsOf(hs, init) {
        assert q in hs[chosen[|chosen| - 1]].polygons;
      }
      if exists k :: 0 <= k < |chosen| && q in hs[chosen[k]].polygons {
        var k :| 0 <= k < |chosen| && q in hs[chosen[k]].polygons;
        if k < |init| {
          assert init[k] == chosen[k];
        }
      }
    }
  }

  /** Turning a polygon's points around twice leaves it as it was. */
  lemma KeptOrReversedTrans(a: Polygon, b: Polygon, c: Polygon)
    requires KeptOrReversed(b, a) && KeptOrReversed(c, b)
    ensures KeptOrReversed(c, a)
  {
    Seqs.ReverseTwice(a.points);
  }

  predicate Increasing(s: seq<nat>)
  {
    forall j, k :: 0 <= j < k < |s| ==> s[j] < s[k]
  }

  /** `chosen_polyhedra`: the polyhedra below `n` whose random draw came out
      visible, in the order the drawing loop meets them. */
  function VisibleBelow(visible: nat -> bool, n: nat): (s: seq<nat>)
    ensures forall k :: 0 <= k < |s| ==> s[k] < n && visible(s[k])
    ensures forall x: nat :: x in s <==> x < n && visible(x)
    ensures Increasing(s)
  {
    if n == 0 then []
    else VisibleBelow(visible, n - 1) + (if visible(n - 1) then [n - 1] else [])
  }

  /** `hs'` is `hs` with every visible polyhedron marked drawn. */
  predicate DrawnFrom(hs': seq<Polyhedron>, hs: seq<Polyhedron>, visible: nat -> bool)
  {
    |hs'| == |hs| && forall x :: 0 <= x < |hs| ==> hs'[x] == if visible(x) then hs[x].(drawn := true) else hs[x]
  }

  /** The polygons once the drawing loop has passed polyhedra `h` onwards: the
      members of each visible polyhedron are oriented in turn, as
      `make_polygon_points_ccw` does, and the first failure stops the loop. */
  function TurnFrom(polys: seq<Polygon>, hs: seq<Polyhedron>, visible: nat -> bool,
                    ccw: (nat, nat, nat, nat, nat) -> bool, h: nat): (r: Result<seq<Polygon>>)
    requires forall x :: 0 <= x < |hs| ==> MembersIn(hs[x].polygons, |polys|)
    ensures r.Success? ==> |r.value| == |polys|
    decreases |hs| - h
  {
    if h >= |hs| then Success(polys)
    else if !visible(h) then TurnFrom(polys, hs, visible, ccw, h + 1)
    else
      match OrientFrom(polys, hs[h].polygons, ccw, 0)
      case Failure(e) => Failure(e)
      case Success(next) => TurnFrom(next, hs, visible, ccw, h + 1)
  }

  /** What the drawing loop has done with the first `h` polyhedra. */
  ghost predicate ChooseInv(polys0: seq<Polygon>, hs0: seq<Polyhedron>, visible: nat -> bool, h: nat,
                            polys: seq<Polygon>, hs: seq<Polyhedron>, chosen: seq<nat>, gathered: set<nat>)
  {
    && h <= |hs0| && |hs| == |hs0| && |polys| == |polys0|
    && chosen == VisibleBelow(visible, h)
    && (forall x :: 0 <= x < |hs0| ==>
          hs[x] == if x < h && visible(x) then hs0[x].(drawn := true) else hs0[x])
    && gathered == PolygonsOf(hs0, chosen)
    && (forall q :: 0 <= q < |polys0| ==> KeptOrReversed(polys[q], polys0[q]))
    && (forall q :: 0 <= q < |polys0| ==> multiset(polys[q].points) == multiset(polys0[q].points))
    && (forall q :: 0 <= q < |polys0| && q !in gathered ==> polys[q] == polys0[q])
  }

  /** One turn of the drawing loop for a visible polyhedron `h`: it is marked
      drawn, its polygons turned counter-clockwise and gathered. */
  method DrawPolyhedron(ghost polys0: seq<Polygon>, ghost hs0: seq<Polyhedron>, visible: nat -> bool, h: nat,
                        polys: seq<Polygon>, hs: seq<Polyhedron>, chosen: seq<nat>, gathered: set<nat>,
                        ccw: (nat, nat, nat, nat, nat) -> bool)
    returns (r: Result<(seq<Polygon>, seq<Polyhedron>, seq<nat>, set<nat>)>)
    requires ChooseInv(polys0, hs0, visible, h, polys, hs, chosen, gathered) && h < |hs0| && visible(h)
    requires forall x :: 0 <= x < |hs0| ==> MembersIn(hs0[x].polygons, |polys0|)
    ensures r.Success? ==> ChooseInv(polys0, hs0, visible, h + 1, r.value.0, r.value.1, r.value.2, r.value.3)
    ensures r.Success? ==> OrientFrom(polys, hs0[h].polygons, ccw, 0) == Success(r.value.0)
    ensures r.Failure? ==> OrientFrom(polys, hs0[h].polygons, ccw, 0) == Failure(r.fault)
    ensures r.Failure? ==> r.fault == IndexOutOfRange || r.fault == NullReference
  {
    var hs' := hs[h := hs[h].(drawn := true)];
    var turned := MakePolygonPointsCcw(polys, hs'[h].polygons, ccw);
    if turned.Failure? {
      return Failure(turned.fault);
    }
    var polys' := turned.value;
    var chosen' := chosen + [h];
    var gathered' := gathered + (set x | x in hs[h].polygons);
    assert hs[h] == hs0[h];
    ChosenGrows(hs0, visible, h, hs, chosen, gathered);
    TurnedKept(polys0, polys, polys', hs[h].polygons, gathered, gathered');
    r := Success((polys', hs', chosen', gathered'));
  }

  /** The bookkeeping half of a drawing turn: the chosen list, drawn flags and
      collected polygons grow by polyhedron `h`. */
  lemma ChosenGrows(hs0: seq<Polyhedron>, visible: nat -> bool, h: nat,
                    hs: seq<Polyhedron>, chosen: seq<nat>, gathered: set<nat>)
    requires h < |hs0| && visible(h) && |hs| == |hs0|
    requires chosen == VisibleBelow(visible, h)
    requires forall x :: 0 <= x < |hs0| ==> hs[x] == if x < h && visible(x) then hs0[x].(drawn := true) else hs0[x]
    requires gathered == PolygonsOf(hs0, chosen)
    ensures var chosen' := chosen + [h];
      && chosen' == VisibleBelow(visible, h + 1)
      && (forall x :: 0 <= x < |hs0| ==>
            hs[h := hs[h].(drawn := true)][x] == if x < h + 1 && visible(x) then hs0[x].(drawn := true) else hs0[x])
      && gathered + (set x | x in hs0[h].polygons) == PolygonsOf(hs0, chosen')
  {
    DrawnAppend(hs0, visible, h, hs);
    PolygonsOfSnoc(hs0, chosen, h);
  }

  /** Marking `h` drawn extends the drawn flags by one polyhedron. */
  lemma DrawnAppend(hs0: seq<Polyhedron>, visible: nat -> bool, h: nat, hs: seq<Polyhedron>)
    requires h < |hs0| && visible(h) && |hs| == |hs0|
    requires forall x :: 0 <= x < |hs0| ==> hs[x] == if x < h && visible(x) then hs0[x].(drawn := true) else hs0[x]
    ensures forall x :: 0 <= x < |hs0| ==>
      hs[h := hs[h].(drawn := true)][x] == if x < h + 1 && visible(x) then hs0[x].(drawn := true) else hs0[x]
  {
  }

  lemma PolygonsOfSnoc(hs0: seq<Polyhedron>, chosen: seq<nat>, h: nat)
    requires h < |hs0| && forall k :: 0 <= k < |chosen| ==> chosen[k] < |hs0|
    ensures PolygonsOf(hs0, chosen + [h]) == PolygonsOf(hs0, chosen) + (set x | x in hs0[h].polygons)
  {
    assert (chosen + [h])[..|chosen|] == chosen;
  }

  /** The polygon half of a drawing turn: turning the members of `h` keeps
      every polygon kept or reversed relative to the start, and touches none
      outside the collected set. */
  lemma TurnedKept(polys0: seq<Polygon>, polys: seq<Polygon>, polys': seq<Polygon>, members: seq<nat>,
                   gathered: set<nat>, gathered': set<nat>)
    requires |polys| == |polys0| && |polys'| == |polys|
    requires forall q :: 0 <= q < |polys0| ==> KeptOrReversed(polys[q], polys0[q])
    requires forall q :: 0 <= q < |polys0| ==> multiset(polys[q].points) == multiset(polys0[q].points)
    requires forall q :: 0 <= q < |polys0| && q !in gathered ==> polys[q] == polys0[q]
    requires forall q :: 0 <= q < |polys| ==> KeptOrReversed(polys'[q], polys[q])
    requires forall q :: 0 <= q < |polys| ==> multiset(polys'[q].points) == multiset(polys[q].points)
    requires forall q :: 0 <= q < |polys| && q !in members ==> polys'[q] == polys[q]
    requires gathered' == gathered + (set x | x in members)
    ensures forall q :: 0 <= q < |polys0| ==> KeptOrReversed(polys'[q], polys0[q])
    ensures forall q :: 0 <= q < |polys0| ==> multiset(polys'[q].points) == multiset(polys0[q].points)
    ensures forall q :: 0 <= q < |polys0| && q !in gathered' ==> polys'[q] == polys0[q]
  {
    forall q | 0 <= q < |polys0|
      ensures KeptOrReversed(polys'[q], polys0[q])
    {
      KeptOrReversedTrans(polys0[q], polys[q], polys'[q]);
    }
  }

  /** Lines 349-361: every polyhedron is drawn when its random draw falls
      below the probability; a drawn polyhedron is marked, its polygons turned
      counter-clockwise and collected, and it joins the chosen list. */
  method ChoosePolyhedra(polys: seq<Polygon>, hs: seq<Polyhedron>, visible: nat -> bool,
                         ccw: (nat, nat, nat, nat, nat) -> bool)
    returns (r: Result<(seq<Polygon>, seq<Polyhedron>, seq<nat>, set<nat>)>)
    requires forall h :: 0 <= h < |hs| ==> MembersIn(hs[h].polygons, |polys|)
    ensures r.Success? ==> TurnFrom(polys, hs, visible, ccw, 0) == Success(r.value.0)
    ensures r.Failure? ==> TurnFrom(polys, hs, visible, ccw, 0) == Failure(r.fault)
    ensures r.Success? ==> ChooseInv(polys, hs, visible, |hs|, r.value.0, r.value.1, r.value.2, r.value.3)
    ensures r.Success? ==> DrawnFrom(r.value.1, hs, visible)
    ensures r.Success? ==> forall h: nat :: h in r.value.2 <==> h < |hs| && visible(h)
    ensures r.Success? ==> forall h :: 0 <= h < |hs| ==> (r.value.1[h].drawn <==> hs[h].drawn || visible(h))
    ensures r.Failure? ==> r.fault == IndexOutOfRange || r.fault == NullReference
  {
    var cur, hulls, chosen, gathered := polys, hs, [], {};
    for h := 0 to |hs|
      invariant ChooseInv(polys, hs, visible, h, cur, hulls, chosen, gathered)
      invariant TurnFrom(polys, hs, visible, ccw, 0) == TurnFrom(cur, hs, visible, ccw, h)
    {
      var step := ChooseTurn(polys, hs, visible, h, cur, hulls, chosen, gathered, ccw);
      if step.Failure? {
        return Failure(step.fault);
      }
      cur, hulls, chosen, gathered := step.value.0, step.value.1, step.value.2, step.value.3;
    }
    r := Success((cur, hulls, chosen, gathered));
  }

  /** One turn of the drawing loop: a visible polyhedron is drawn, and any
      other is passed over; either way the turn is one step of `TurnFrom`. */
  method ChooseTurn(ghost polys0: seq<Polygon>, ghost hs0: seq<Polyhedron>, visible: nat -> bool, h: nat,
                    polys: seq<Polygon>, hs: seq<Polyhedron>, chosen: seq<nat>, gathered: set<nat>,
                    ccw: (nat, nat, nat, nat, nat) -> bool)
    returns (r: Result<(seq<Polygon>, seq<Polyhedron>, seq<nat>, set<nat>)>)
    requires ChooseInv(polys0, hs0, visible, h, polys, hs, chosen, gathered) && h < |hs0|
    requires forall x :: 0 <= x < |hs0| ==> MembersIn(hs0[x].polygons, |polys0|)
    ensures r.Success? ==> ChooseInv(polys0, hs0, visible, h + 1, r.value.0, r.value.1, r.value.2, r.value.3)
    ensures r.Success? ==> TurnFrom(polys, hs0, visible, ccw, h) == TurnFrom(r.value.0, hs0, visible, ccw, h + 1)
    ensures r.Failure? ==> TurnFrom(polys, hs0, visible, ccw, h) == Failure(r.fault)
    ensures r.Failure? ==> r.fault == IndexOutOfRange || r.fault == NullReference
  {
    if !visible(h) {
      return Success((polys, hs, chosen, gathered));
    }
    r := DrawPolyhedron(polys0, hs0, visible, h, polys, hs, chosen, gathered, ccw);
  }

  /** Exploring changes polygons only in their explored flags and polyhedra
      only in their flags and in the starting polyhedron's list, which becomes
      the explore list; so the arenas stay ready for merging. */
  lemma ExploredReady(points: seq<Point>, lines: seq<Line>, polys: seq<Polygon>, hs: seq<Polyhedron>,
                      polys': seq<Polygon>, hs': seq<Polyhedron>, start: nat, explored: seq<nat>)
    requires MergeReady(points, lines, polys, hs)
    requires FlagsOnly(polys', polys) && |hs'| == |hs| && MembersIn(explored, |polys|)
    requires forall h :: 0 <= h < |hs| ==>
               hs'[h] == hs[h].(explored := hs'[h].explored, polygons := if h == start then explored else hs[h].polygons)
    ensures MergeReady(points, lines, polys', hs')
  {
    assert forall q :: 0 <= q < |polys| ==> Owners(polys'[q]) == Owners(polys[q]);
    assert forall q :: 0 <= q < |polys| ==> polys'[q].mergedInto == polys[q].mergedInto && polys'[q].plane == polys[q].plane;
  }

  /** `r` is what Merge's fold makes of the explored arenas `polys` and `hs`
      and conglomerate `c`: its failure, or its polygons and conglomerate with
      the polyhedra as exploring left them. */
  predicate MergedInto(m: Result<(seq<Polygon>, Conglomerate, int)>, hs: seq<Polyhedron>,
                       r: Result<(seq<Polygon>, seq<Polyhedron>, Conglomerate, int)>)
  {
    match m
    case Failure(e) => r == Failure(e)
    case Success((polys, c, name)) => r == Success((polys, hs, c, name))
  }

  /** Lines 372-382 for chosen polyhedron `current`: `r` is the outcome of
      starting conglomerate `conglomerateName` from it, marking it explored,
      exploring the chosen polyhedra (`ExploreResult`, which satisfies
      `ExploreOutcome`) and merging the shared polygons, naming the fused
      polygons from `polygonName` on. */
  ghost predicate GatheredFrom(points: seq<Point>, lines: seq<Line>, polys: seq<Polygon>, hs: seq<Polyhedron>,
                               chosen: seq<nat>, current: nat, conglomerateName: int, polygonName: int,
                               r: Result<(seq<Polygon>, seq<Polyhedron>, Conglomerate, int)>)
    requires current < |hs| && forall x :: x in chosen ==> x < |hs|
  {
    var marked := hs[current := hs[current].(explored := true)];
    var c := NewConglomerate(conglomerateName, hs, current);
    && (forall h :: 0 <= h < |marked| ==> MembersIn(marked[h].polygons, |polys|))
    && var (polys1, hs1, c1) := ExploreResult(polys, marked, chosen, c);
       && ExploreOutcome(polys, marked, chosen, c, polys1, hs1, c1)
       && MergeReady(points, lines, polys1, hs1) && MembersIn(c1.mergeList, |polys1|)
       && MergedInto(MergeFrom(points, lines, hs1, polys1, c1, polygonName, 0), hs1, r)
  }

  /** Lines 372-382 for a chosen polyhedron not yet explored: a conglomerate
      named `conglomerateName` starts from it, it is marked explored, the
      conglomerate explores the chosen polyhedra and merges its shared
      polygons, naming the fused polygons from `polygonName` on. */
  method GatherConglomerate(points: seq<Point>, lines: seq<Line>, polys: seq<Polygon>, hs: seq<Polyhedron>,
                            chosen: seq<nat>, current: nat, conglomerateName: int, polygonName: int)
    returns (r: Result<(seq<Polygon>, seq<Polyhedron>, Conglomerate, int)>)
    requires MergeReady(points, lines, polys, hs)
    requires current < |hs| && forall x :: x in chosen ==> x < |hs|
    ensures r.Success? ==>
      var (polys', hs', c, name') := r.value;
      && MergeReady(points, lines, polys', hs')
      && |polys| <= |polys'| && name' == polygonName + (|polys'| - |polys|)
      && |hs'| == |hs| && hs'[current].explored
      && (forall h :: 0 <= h < |hs| && hs[h].explored ==> hs'[h].explored)
      && c.name == conglomerateName && |c.collected| >= 1 && c.collected[0] == current
      && (forall k :: 1 <= k < |c.collected| ==> c.collected[k] in chosen && hs'[c.collected[k]].explored)
      && InArena(c.outline, |polys'|)
    ensures GatheredFrom(points, lines, polys, hs, chosen, current, conglomerateName, polygonName, r)
    ensures r.Failure? ==> r.fault in {SamePoint, NoCommonLine, LinePlanesEqual, NullReference,
                                       NoPolygonInPlane, IndexOutOfRange, Diverged}
  {
    var c := NewConglomerate(conglomerateName, hs, current);
    var marked := hs[current := hs[current].(explored := true)];
    var polys', hs', c' := Explore(polys, marked, chosen, c);
    ExploredReady(points, lines, polys, marked, polys', hs', current, c'.exploreList);
    assert MembersIn(c'.mergeList, |polys'|);
    var merged := Merge(points, lines, hs', polys', c', polygonName);
    if merged.Failure? {
      r := Failure(merged.fault);
    } else {
      r := Success((merged.value.0, hs', merged.value.1, merged.value.2));
    }
    assert MergedInto(MergeFrom(points, lines, hs', polys', c', polygonName, 0), hs', r);
  }

  /** What the conglomerate loop has built after the first `i` chosen polyhedra. */
  ghost predicate GatherInv(points: seq<Point>, lines: seq<Line>, polys0: seq<Polygon>, hs0: seq<Polyhedron>,
                            chosen: seq<nat>, name0: int, i: nat,
                            polys: seq<Polygon>, hs: seq<Polyhedron>, congloms: seq<Conglomerate>, name: int)
  {
    && i <= |chosen|
    && MergeReady(points, lines, polys, hs)
    && |polys0| <= |polys| && name == name0 + (|polys| - |polys0|)
    && |hs| == |hs0|
    && (forall k :: 0 <= k < i ==> chosen[k] < |hs| && hs[chosen[k]].explored)
    && |congloms| <= i
    && (forall k :: 0 <= k < |congloms| ==>
          && congloms[k].name == k && |congloms[k].collected| >= 1 && congloms[k].collected[0] in chosen
          && InArena(congloms[k].outline, |polys|))
  }

  /** A chosen polyhedron already explored leaves the loop's state as it was. */
  lemma GatherInvSkip(points: seq<Point>, lines: seq<Line>, polys0: seq<Polygon>, hs0: seq<Polyhedron>,
                      chosen: seq<nat>, name0: int, i: nat,
                      polys: seq<Polygon>, hs: seq<Polyhedron>, congloms: seq<Conglomerate>, name: int)
    requires GatherInv(points, lines, polys0, hs0, chosen, name0, i, polys, hs, congloms, name)
    requires i < |chosen| && chosen[i] < |hs| && hs[chosen[i]].explored
    ensures GatherInv(points, lines, polys0, hs0, chosen, name0, i + 1, polys, hs, congloms, name)
  {
  }

  /** A conglomerate gathered from the chosen polyhedron at position `i`
      joins the loop's state. */
  lemma GatherInvGrow(points: seq<Point>, lines: seq<Line>, polys0: seq<Polygon>, hs0: seq<Polyhedron>,
                      chosen: seq<nat>, name0: int, i: nat,
                      polys: seq<Polygon>, hs: seq<Polyhedron>, congloms: seq<Conglomerate>, name: int,
                      polys': seq<Polygon>, hs': seq<Polyhedron>, c: Conglomerate, name': int)
    requires GatherInv(points, lines, polys0, hs0, chosen, name0, i, polys, hs, congloms, name)
    requires i < |chosen| && chosen[i] < |hs|
    requires MergeReady(points, lines, polys', hs')
    requires |polys| <= |polys'| && name' == name + (|polys'| - |polys|)
    requires |hs'| == |hs| && hs'[chosen[i]].explored
    requires forall h :: 0 <= h < |hs| && hs[h].explored ==> hs'[h].explored
    requires c.name == |congloms| && |c.collected| >= 1 && c.collected[0] == chosen[i]
    requires InArena(c.outline, |polys'|)
    ensures GatherInv(points, lines, polys0, hs0, chosen, name0, i + 1, polys', hs', congloms + [c], name')
  {
  }

  /** The arenas and the fresh-name counter between two turns of the
      conglomerate loop. */
  datatype Stage = Stage(polys: seq<Polygon>, hs: seq<Polyhedron>, name: int)

  /** Conglomerate `k` of the trace is gathered in stage `k` (`GatheredFrom`,
      numbered `k`) from the chosen polyhedron at position `starts[k]`, and
      leads to stage `k + 1`. */
  ghost predicate GatheredAt(points: seq<Point>, lines: seq<Line>, chosen: seq<nat>, nHs: nat,
                             stages: seq<Stage>, starts: seq<nat>, congloms: seq<Conglomerate>, k: nat)
    requires forall x :: x in chosen ==> x < nHs
    requires |stages| == |congloms| + 1 && |starts| == |congloms| && k < |congloms|
    requires forall j :: 0 <= j < |stages| ==> |stages[j].hs| == nHs
    requires forall j :: 0 <= j < |starts| ==> starts[j] < |chosen|
  {
    assert chosen[starts[k]] in chosen;
    GatheredFrom(points, lines, stages[k].polys, stages[k].hs, chosen, chosen[starts[k]], k, stages[k].name,
                 Success((stages[k + 1].polys, stages[k + 1].hs, congloms[k], stages[k + 1].name)))
  }

  /** The conglomerates the loop has gathered, through the stages `stages`:
      each one is `GatheredAt` its place in the trace. */
  ghost predicate Gathers(points: seq<Point>, lines: seq<Line>, chosen: seq<nat>, nHs: nat,
                          stages: seq<Stage>, starts: seq<nat>, congloms: seq<Conglomerate>)
    requires forall x :: x in chosen ==> x < nHs
  {
    && (forall i :: 0 <= i < |chosen| ==> chosen[i] < nHs)
    && |stages| == |congloms| + 1 && |starts| == |congloms|
    && (forall k :: 0 <= k < |stages| ==> |stages[k].hs| == nHs)
    && (forall k :: 0 <= k < |starts| ==> starts[k] < |chosen|)
    && (forall k :: 0 <= k < |congloms| ==> GatheredAt(points, lines, chosen, nHs, stages, starts, congloms, k))
  }

  /** Which chosen polyhedra before position `n` start a conglomerate: those
      at the increasing positions `starts`, each unexplored in the stage it
      starts from; every other one was explored already in the stage current
      at its turn. */
  ghost predicate Starts(chosen: seq<nat>, nHs: nat, n: nat, stages: seq<Stage>, starts: seq<nat>)
  {
    && (forall i :: 0 <= i < |chosen| ==> chosen[i] < nHs)
    && n <= |chosen| && |stages| == |starts| + 1
    && (forall k :: 0 <= k < |stages| ==> |stages[k].hs| == nHs)
    && Increasing(starts) && (forall k :: 0 <= k < |starts| ==> starts[k] < n)
    && (forall k :: 0 <= k < |starts| ==> !stages[k].hs[chosen[starts[k]]].explored)
    && (forall k, i :: 0 <= k < |stages| && 0 <= i < n && (k == 0 || starts[k - 1] < i) && (k == |starts| || i < starts[k])
          ==> stages[k].hs[chosen[i]].explored)
  }

  /** The conglomerate loop over the chosen polyhedra before position `n`:
      the conglomerates it has gathered, and where each one started. */
  ghost predicate BuiltUpTo(points: seq<Point>, lines: seq<Line>, chosen: seq<nat>, nHs: nat, n: nat,
                            stages: seq<Stage>, starts: seq<nat>, congloms: seq<Conglomerate>)
    requires forall x :: x in chosen ==> x < nHs
  {
    Gathers(points, lines, chosen, nHs, stages, starts, congloms) && Starts(chosen, nHs, n, stages, starts)
  }

  /** A chosen polyhedron already explored is passed over. */
  lemma StartsSkip(chosen: seq<nat>, nHs: nat, n: nat, stages: seq<Stage>, starts: seq<nat>)
    requires Starts(chosen, nHs, n, stages, starts) && n < |chosen|
    requires stages[|starts|].hs[chosen[n]].explored
    ensures Starts(chosen, nHs, n + 1, stages, starts)
  {
  }

  /** A chosen polyhedron not yet explored starts the next conglomerate. */
  lemma StartsGather(chosen: seq<nat>, nHs: nat, n: nat, stages: seq<Stage>, starts: seq<nat>, next: Stage)
    requires Starts(chosen, nHs, n, stages, starts) && n < |chosen|
    requires !stages[|starts|].hs[chosen[n]].explored && |next.hs| == nHs
    ensures Starts(chosen, nHs, n + 1, stages + [next], starts + [n])
  {
  }

  /** Growing the trace by one stage keeps its shape. */
  lemma GathersShaped(chosen: seq<nat>, nHs: nat, n: nat, stages: seq<Stage>, starts: seq<nat>,
                      congloms: seq<Conglomerate>, next: Stage, c: Conglomerate)
    requires |stages| == |congloms| + 1 && |starts| == |congloms| && n < |chosen| && |next.hs| == nHs
    requires forall j :: 0 <= j < |stages| ==> |stages[j].hs| == nHs
    requires forall j :: 0 <= j < |starts| ==> starts[j] < |chosen|
    ensures forall j :: 0 <= j < |stages| + 1 ==> |(stages + [next])[j].hs| == nHs
    ensures forall j :: 0 <= j < |starts| + 1 ==> (starts + [n])[j] < |chosen|
  {
  }

  /** An earlier conglomerate keeps its place when the trace grows. */
  lemma GatheredAtKept(points: seq<Point>, lines: seq<Line>, chosen: seq<nat>, nHs: nat, n: nat,
                       stages: seq<Stage>, starts: seq<nat>, congloms: seq<Conglomerate>, next: Stage, c: Conglomerate,
                       k: nat)
    requires forall x :: x in chosen ==> x < nHs
    requires |stages| == |congloms| + 1 && |starts| == |congloms| && n < |chosen| && |next.hs| == nHs
    requires forall j :: 0 <= j < |stages| ==> |stages[j].hs| == nHs
    requires forall j :: 0 <= j < |starts| ==> starts[j] < |chosen|
    requires forall j :: 0 <= j < |stages| + 1 ==> |(stages + [next])[j].hs| == nHs
    requires forall j :: 0 <= j < |starts| + 1 ==> (starts + [n])[j] < |chosen|
    requires k < |congloms| && GatheredAt(points, lines, chosen, nHs, stages, starts, congloms, k)
    ensures GatheredAt(points, lines, chosen, nHs, stages + [next], starts + [n], congloms + [c], k)
  {
    var stages', starts', congloms' := stages + [next], starts + [n], congloms + [c];
    assert stages'[k] == stages[k] && stages'[k + 1] == stages[k + 1];
    assert starts'[k] == starts[k] && congloms'[k] == congloms[k];
  }

  /** The conglomerate just gathered takes the last place of the grown trace. */
  lemma GatheredAtNew(points: seq<Point>, lines: seq<Line>, chosen: seq<nat>, nHs: nat, n: nat,
                      stages: seq<Stage>, starts: seq<nat>, congloms: seq<Conglomerate>, next: Stage, c: Conglomerate)
    requires forall x :: x in chosen ==> x < nHs
    requires |stages| == |congloms| + 1 && |starts| == |congloms| && n < |chosen| && |next.hs| == nHs
    requires forall j :: 0 <= j < |stages| ==> |stages[j].hs| == nHs
    requires forall j :: 0 <= j < |starts| ==> starts[j] < |chosen|
    requires forall j :: 0 <= j < |stages| + 1 ==> |(stages + [next])[j].hs| == nHs
    requires forall j :: 0 <= j < |starts| + 1 ==> (starts + [n])[j] < |chosen|
    requires chosen[n] in chosen
    requires var last := stages[|congloms|];
      GatheredFrom(points, lines, last.polys, last.hs, chosen, chosen[n], |congloms|, last.name,
                   Success((next.polys, next.hs, c, next.name)))
    ensures GatheredAt(points, lines, chosen, nHs, stages + [next], starts + [n], congloms + [c], |congloms|)
  {
    var stages', starts', congloms' := stages + [next], starts + [n], congloms + [c];
    assert stages'[|congloms|] == stages[|congloms|] && stages'[|congloms| + 1] == next;
    assert starts'[|congloms|] == n && congloms'[|congloms|] == c;
  }

  /** The conglomerate gathered from it joins the trace. */
  lemma GathersGrow(points: seq<Point>, lines: seq<Line>, chosen: seq<nat>, nHs: nat, n: nat,
                    stages: seq<Stage>, starts: seq<nat>, congloms: seq<Conglomerate>, next: Stage, c: Conglomerate)
    requires forall x :: x in chosen ==> x < nHs
    requires Gathers(points, lines, chosen, nHs, stages, starts, congloms) && n < |chosen| && |next.hs| == nHs
    requires var last := stages[|congloms|];
      GatheredFrom(points, lines, last.polys, last.hs, chosen, chosen[n], |congloms|, last.name,
                   Success((next.polys, next.hs, c, next.name)))
    ensures Gathers(points, lines, chosen, nHs, stages + [next], starts + [n], congloms + [c])
  {
    GathersShaped(chosen, nHs, n, stages, starts, congloms, next, c);
    forall k | 0 <= k < |congloms| + 1
      ensures GatheredAt(points, lines, chosen, nHs, stages + [next], starts + [n], congloms + [c], k)
    {
      if k < |congloms| {
        GatheredAtKept(points, lines, chosen, nHs, n, stages, starts, congloms, next, c, k);
      } else {
        GatheredAtNew(points, lines, chosen, nHs, n, stages, starts, congloms, next, c);
      }
    }
  }

  /** The ids on a list all below `n`, by position. */
  lemma IndexedBelow(chosen: seq<nat>, n: nat)
    requires forall x :: x in chosen ==> x < n
    ensures forall i :: 0 <= i < |chosen| ==> chosen[i] < n
  {
    forall i | 0 <= i < |chosen| ensures chosen[i] < n {
      assert chosen[i] in chosen;
    }
  }

  /** Everything the conglomerate loop keeps after the chosen polyhedra
      before position `i`, with `stages` and `starts` the trace so far. */
  ghost predicate BuildState(points: seq<Point>, lines: seq<Line>, polys0: seq<Polygon>, hs0: seq<Polyhedron>,
                             chosen: seq<nat>, name0: int, i: nat,
                             polys: seq<Polygon>, hs: seq<Polyhedron>, congloms: seq<Conglomerate>, name: int,
                             stages: seq<Stage>, starts: seq<nat>)
    requires forall x :: x in chosen ==> x < |hs0|
  {
    && GatherInv(points, lines, polys0, hs0, chosen, name0, i, polys, hs, congloms, name)
    && Gathers(points, lines, chosen, |hs0|, stages, starts, congloms)
    && Starts(chosen, |hs0|, i, stages, starts)
    && stages[0] == Stage(polys0, hs0, name0) && stages[|stages| - 1] == Stage(polys, hs, name)
    && (i == 0 ==> hs == hs0 && congloms == [])
    && (chosen != [] && !hs0[chosen[0]].explored && i > 0 ==> |congloms| >= 1 && congloms[0].collected[0] == chosen[0])
  }

  /** One turn of the conglomerate loop, for the chosen polyhedron at
      position `i`: passed over when already explored, and otherwise the start
      of conglomerate `|congloms|`. */
  method GatherTurn(points: seq<Point>, lines: seq<Line>, ghost polys0: seq<Polygon>, ghost hs0: seq<Polyhedron>,
                    chosen: seq<nat>, ghost name0: int, i: nat,
                    polys: seq<Polygon>, hs: seq<Polyhedron>, congloms: seq<Conglomerate>, name: int,
                    ghost stages: seq<Stage>, ghost starts: seq<nat>)
    returns (r: Result<(seq<Polygon>, seq<Polyhedron>, seq<Conglomerate>, int)>,
             ghost stages': seq<Stage>, ghost starts': seq<nat>)
    requires forall x :: x in chosen ==> x < |hs0|
    requires BuildState(points, lines, polys0, hs0, chosen, name0, i, polys, hs, congloms, name, stages, starts)
    requires i < |chosen|
    ensures r.Success? ==>
      BuildState(points, lines, polys0, hs0, chosen, name0, i + 1, r.value.0, r.value.1, r.value.2, r.value.3,
                 stages', starts')
    ensures r.Failure? ==> r.fault in {SamePoint, NoCommonLine, LinePlanesEqual, NullReference,
                                       NoPolygonInPlane, IndexOutOfRange, Diverged}
  {
    var current := chosen[i];
    assert current in chosen;
    if hs[current].explored {
      GatherInvSkip(points, lines, polys0, hs0, chosen, name0, i, polys, hs, congloms, name);
      StartsSkip(chosen, |hs0|, i, stages, starts);
      return Success((polys, hs, congloms, name)), stages, starts;
    }
    var step := GatherConglomerate(points, lines, polys, hs, chosen, current, |congloms|, name);
    if step.Failure? {
      return Failure(step.fault), stages, starts;
    }
    var (polys', hs', c, name') := step.value;
    GatherInvGrow(points, lines, polys0, hs0, chosen, name0, i, polys, hs, congloms, name, polys', hs', c, name');
    StartsGather(chosen, |hs0|, i, stages, starts, Stage(polys', hs', name'));
    GathersGrow(points, lines, chosen, |hs0|, i, stages, starts, congloms, Stage(polys', hs', name'), c);
    r := Success((polys', hs', congloms + [c], name'));
    stages', starts' := stages + [Stage(polys', hs', name')], starts + [i];
  }

  /** The conglomerate loop (lines 366-383): each chosen polyhedron not yet
      explored starts a new conglomerate, numbered from 0, which gathers and
      merges; polyhedra gathered by an earlier conglomerate are skipped. */
  method BuildConglomerates(points: seq<Point>, lines: seq<Line>, polys: seq<Polygon>, hs: seq<Polyhedron>,
                            chosen: seq<nat>, polygonName: int)
    returns (r: Result<(seq<Polygon>, seq<Polyhedron>, seq<Conglomerate>, int)>,
             ghost stages: seq<Stage>, ghost starts: seq<nat>)
    requires MergeReady(points, lines, polys, hs)
    requires forall x :: x in chosen ==> x < |hs|
    ensures r.Success? ==>
      BuildState(points, lines, polys, hs, chosen, polygonName, |chosen|, r.value.0, r.value.1, r.value.2, r.value.3,
                 stages, starts)
    ensures r.Success? ==> forall x :: x in chosen ==> r.value.1[x].explored
    ensures r.Failure? ==> r.fault in {SamePoint, NoCommonLine, LinePlanesEqual, NullReference,
                                       NoPolygonInPlane, IndexOutOfRange, Diverged}
  {
    var cur, hulls, congloms, name := polys, hs, [], polygonName;
    stages, starts := [Stage(polys, hs, polygonName)], [];
    BuildStart(points, lines, polys, hs, chosen, polygonName);
    for i := 0 to |chosen|
      invariant BuildState(points, lines, polys, hs, chosen, polygonName, i, cur, hulls, congloms, name, stages, starts)
    {
      var step;
      step, stages, starts := GatherTurn(points, lines, polys, hs, chosen, polygonName, i,
                                         cur, hulls, congloms, name, stages, starts);
      if step.Failure? {
        return Failure(step.fault), stages, starts;
      }
      cur, hulls, congloms, name := step.value.0, step.value.1, step.value.2, step.value.3;
    }
    r := Success((cur, hulls, congloms, name));
    BuildDone(points, lines, polys, hs, chosen, polygonName, cur, hulls, congloms, name, stages, starts);
  }

  /** Before the first turn nothing is gathered. */
  lemma BuildStart(points: seq<Point>, lines: seq<Line>, polys: seq<Polygon>, hs: seq<Polyhedron>,
                   chosen: seq<nat>, polygonName: int)
    requires MergeReady(points, lines, polys, hs)
    requires forall x :: x in chosen ==> x < |hs|
    ensures BuildState(points, lines, polys, hs, chosen, polygonName, 0, polys, hs, [], polygonName,
                       [Stage(polys, hs, polygonName)], [])
  {
    IndexedBelow(chosen, |hs|);
  }

  /** After the last turn every chosen polyhedron is explored. */
  lemma BuildDone(points: seq<Point>, lines: seq<Line>, polys0: seq<Polygon>, hs0: seq<Polyhedron>,
                  chosen: seq<nat>, name0: int,
                  polys: seq<Polygon>, hs: seq<Polyhedron>, congloms: seq<Conglomerate>, name: int,
                  stages: seq<Stage>, starts: seq<nat>)
    requires forall x :: x in chosen ==> x < |hs0|
    requires BuildState(points, lines, polys0, hs0, chosen, name0, |chosen|, polys, hs, congloms, name, stages, starts)
    ensures forall x :: x in chosen ==> hs[x].explored
  {
    forall x | x in chosen ensures hs[x].explored {
      var k :| 0 <= k < |chosen| && chosen[k] == x;
    }
  }

  /** Turning polygons around keeps every id they refer to, so the arenas stay
      ready for merging after the drawing loop. */
  lemma ChosenReady(points: seq<Point>, lines: seq<Line>, polys: seq<Polygon>, hs: seq<Polyhedron>,
                    visible: nat -> bool, polys': seq<Polygon>, hs': seq<Polyhedron>, chosen: seq<nat>, gathered: set<nat>)
    requires MergeReady(points, lines, polys, hs)
    requires ChooseInv(polys, hs, visible, |hs|, polys', hs', chosen, gathered)
    ensures MergeReady(points, lines, polys', hs')
  {
    forall q | 0 <= q < |polys'|
      ensures MembersIn(polys'[q].points, |points|)
    {
      forall i | 0 <= i < |polys'[q].points|
        ensures polys'[q].points[i] < |points|
      {
        var x := polys'[q].points[i];
        assert x in multiset(polys[q].points);
        var j :| 0 <= j < |polys[q].points| && polys[q].points[j] == x;
      }
    }
    assert forall q :: 0 <= q < |polys| ==> Owners(polys'[q]) == Owners(polys[q]);
    assert forall h :: 0 <= h < |hs| ==> hs'[h].polygons == hs[h].polygons;
  }

  /** Every outline polygon lies in the arena and its points too, so the
      outlines can be written. */
  lemma OutlinesDrawable(points: seq<Point>, lines: seq<Line>, polys: seq<Polygon>, hs: seq<Polyhedron>,
                         congloms: seq<Conglomerate>)
    requires MergeReady(points, lines, polys, hs)
    requires forall k :: 0 <= k < |congloms| ==> InArena(congloms[k].outline, |polys|)
    ensures forall k :: 0 <= k < |congloms| ==> Drawable(points, polys, congloms[k].outline)
  {
    forall k, j | 0 <= k < |congloms| && 0 <= j < |congloms[k].outline|
      ensures congloms[k].outline[j] < |polys|
    {
      assert congloms[k].outline[j] in congloms[k].outline;
    }
  }

  /** The conglomerates built from the drawn polyhedra are numbered in order,
      each starts from a drawn polyhedron, and their outlines are in the arena. */
  lemma GatheredConglomerates(points: seq<Point>, lines: seq<Line>, hs: seq<Polyhedron>, visible: nat -> bool,
                              turned: seq<Polygon>, hulls: seq<Polyhedron>, chosen: seq<nat>, polygonName: int,
                              polys': seq<Polygon>, hulls': seq<Polyhedron>, congloms: seq<Conglomerate>, name: int)
    requires GatherInv(points, lines, turned, hulls, chosen, polygonName, |chosen|, polys', hulls', congloms, name)
    requires forall h: nat :: h in chosen <==> h < |hs| && visible(h)
    ensures MergeReady(points, lines, polys', hulls')
    ensures forall k :: 0 <= k < |congloms| ==> congloms[k].name == k && InArena(congloms[k].outline, |polys'|)
    ensures forall k :: 0 <= k < |congloms| ==>
      |congloms[k].collected| >= 1 && congloms[k].collected[0] < |hs| && visible(congloms[k].collected[0])
  {
  }

  /** The scene `create_scene` builds from the arenas: the drawing loop turns
      the members of the visible polyhedra (`TurnFrom`) and marks those
      polyhedra drawn, and the conglomerate loop, started from these arenas
      over the visible polyhedra in order, builds `congloms` and leaves the
      polygons `polys'`. */
  ghost predicate SceneBuilt(points: seq<Point>, lines: seq<Line>, polys: seq<Polygon>, hs: seq<Polyhedron>,
                             visible: nat -> bool, ccw: (nat, nat, nat, nat, nat) -> bool, polygonName: int,
                             polys': seq<Polygon>, congloms: seq<Conglomerate>)
    requires forall x :: 0 <= x < |hs| ==> MembersIn(hs[x].polygons, |polys|)
  {
    var chosen := VisibleBelow(visible, |hs|);
    && TurnFrom(polys, hs, visible, ccw, 0).Success?
    && exists stages: seq<Stage>, starts: seq<nat> ::
         && BuiltUpTo(points, lines, chosen, |hs|, |chosen|, stages, starts, congloms)
         && stages[0].polys == TurnFrom(polys, hs, visible, ccw, 0).value
         && DrawnFrom(stages[0].hs, hs, visible) && stages[0].name == polygonName
         && stages[|stages| - 1].polys == polys'
  }

  /** Lines 349-385 of `create_scene`: draws polyhedra at random, gathers and
      merges the drawn ones into conglomerates, and writes their outlines.
      Read back, the file holds exactly the outline polygons of the
      conglomerates in order, each face naming its polygon's points. */
  method FinishScene(points: seq<Point>, lines: seq<Line>, polys: seq<Polygon>, hs: seq<Polyhedron>,
                     visible: nat -> bool, ccw: (nat, nat, nat, nat, nat) -> bool, polygonName: int)
    returns (r: Result<(seq<Polygon>, seq<Conglomerate>, seq<ObjLine>)>)
    requires MergeReady(points, lines, polys, hs)
    ensures r.Success? ==>
      var (polys', congloms, out) := r.value;
      && (forall k :: 0 <= k < |congloms| ==> congloms[k].name == k && Drawable(points, polys', congloms[k].outline))
      && (forall k :: 0 <= k < |congloms| ==> |congloms[k].collected| >= 1 && congloms[k].collected[0] < |hs| && visible(congloms[k].collected[0]))
      && |out| >= 2 && out[..2] == Header && Read(out).ok
      && Read(out).faces == SceneFaces(points, polys', seq(|congloms|, k requires 0 <= k < |congloms| => congloms[k].outline))
    ensures r.Success? ==> SceneBuilt(points, lines, polys, hs, visible, ccw, polygonName, r.value.0, r.value.1)
    ensures TurnFrom(polys, hs, visible, ccw, 0).Failure? ==> r == Failure(TurnFrom(polys, hs, visible, ccw, 0).fault)
    ensures r.Failure? ==> r.fault in {SamePoint, NoCommonLine, LinePlanesEqual, NullReference,
                                       NoPolygonInPlane, IndexOutOfRange, Diverged}
  {
    var gathered := DrawAndGather(points, lines, polys, hs, visible, ccw, polygonName);
    if gathered.Failure? {
      return Failure(gathered.fault);
    }
    var (polys', congloms) := gathered.value;
    var out := OutputToFile(points, polys', congloms);
    r := Success((polys', congloms, out));
  }

  /** Lines 349-383 of `create_scene`: draws polyhedra at random, then gathers
      and merges the drawn ones into conglomerates numbered from 0, each
      started from a drawn polyhedron, whose outlines can be written. */
  method DrawAndGather(points: seq<Point>, lines: seq<Line>, polys: seq<Polygon>, hs: seq<Polyhedron>,
                       visible: nat -> bool, ccw: (nat, nat, nat, nat, nat) -> bool, polygonName: int)
    returns (r: Result<(seq<Polygon>, seq<Conglomerate>)>)
    requires MergeReady(points, lines, polys, hs)
    ensures r.Success? ==>
      var (polys', congloms) := r.value;
      && (forall k :: 0 <= k < |congloms| ==> congloms[k].name == k && Drawable(points, polys', congloms[k].outline))
      && (forall k :: 0 <= k < |congloms| ==> |congloms[k].collected| >= 1 && congloms[k].collected[0] < |hs| && visible(congloms[k].collected[0]))
    ensures r.Success? ==> SceneBuilt(points, lines, polys, hs, visible, ccw, polygonName, r.value.0, r.value.1)
    ensures TurnFrom(polys, hs, visible, ccw, 0).Failure? ==> r == Failure(TurnFrom(polys, hs, visible, ccw, 0).fault)
    ensures r.Failure? ==> r.fault in {SamePoint, NoCommonLine, LinePlanesEqual, NullReference,
                                       NoPolygonInPlane, IndexOutOfRange, Diverged}
  {
    var drawn := ChoosePolyhedra(polys, hs, visible, ccw);
    if drawn.Failure? {
      return Failure(drawn.fault);
    }
    var (turned, hulls, chosen, gathered) := drawn.value;
    ChosenReady(points, lines, polys, hs, visible, turned, hulls, chosen, gathered);
    assert forall x :: x in chosen ==> x < |hulls|;
    var built, stages, starts := BuildConglomerates(points, lines, turned, hulls, chosen, polygonName);
    if built.Failure? {
      return Failure(built.fault);
    }
    var (polys', hulls', congloms, name') := built.value;
    GatheredConglomerates(points, lines, hs, visible, turned, hulls, chosen, polygonName, polys', hulls', congloms, name');
    OutlinesDrawable(points, lines, polys', hulls', congloms);
    SceneFromParts(points, lines, polys, hs, visible, ccw, polygonName, turned, hulls, chosen, stages, starts,
                   polys', hulls', congloms, name');
    r := Success((polys', congloms));
  }

  /** The drawing loop's result and the conglomerate loop's trace together
      make up the scene. */
  lemma SceneFromParts(points: seq<Point>, lines: seq<Line>, polys: seq<Polygon>, hs: seq<Polyhedron>,
                       visible: nat -> bool, ccw: (nat, nat, nat, nat, nat) -> bool, polygonName: int,
                       turned: seq<Polygon>, hulls: seq<Polyhedron>, chosen: seq<nat>,
                       stages: seq<Stage>, starts: seq<nat>,
                       polys': seq<Polygon>, hulls': seq<Polyhedron>, congloms: seq<Conglomerate>, name': int)
    requires forall x :: 0 <= x < |hs| ==> MembersIn(hs[x].polygons, |polys|)
    requires TurnFrom(polys, hs, visible, ccw, 0) == Success(turned)
    requires DrawnFrom(hulls, hs, visible) && chosen == VisibleBelow(visible, |hs|)
    requires BuildState(points, lines, turned, hulls, chosen, polygonName, |chosen|, polys', hulls', congloms, name',
                        stages, starts)
    ensures SceneBuilt(points, lines, polys, hs, visible, ccw, polygonName, polys', congloms)
  {
    assert BuiltUpTo(points, lines, chosen, |hs|, |chosen|, stages, starts, congloms);
  }
}
