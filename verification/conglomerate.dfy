/** `Conglomerate`: a contiguous mass of drawn polyhedra. Starting from one
    polyhedron, `explore` gathers every drawn polyhedron that shares a polygon
    with one already gathered, and sorts the polygons met on the way into those
    to draw and those shared by two gathered polyhedra, which are fused away. */
module Conglomerates {
  import opened Wrappers
  import opened Polygons
  import opened Polyhedra

  datatype Conglomerate = Conglomerate(
    name: int,
    collected: seq<nat>,    // polyhedra gathered so far, the starting one first
    exploreList: seq<nat>,  // polygons met so far, in the order they were met
    mergeList: seq<nat>,    // polygons shared by two gathered polyhedra: never drawn
    outline: seq<nat>,      // polygons whose outlines are drawn; fused polygons replace their parents
    draw: seq<nat>)         // polygons drawn as faces

  /** The constructor: the starting polyhedron is the only one gathered, and the
      polygons to explore are its own. */
  function NewConglomerate(name: int, hs: seq<Polyhedron>, initial: nat): Conglomerate
    requires initial < |hs|
  {
    Conglomerate(name, [initial], hs[initial].polygons, [], [], [])
  }

  /** A conglomerate as the constructor leaves it. */
  predicate Fresh(c: Conglomerate, hs: seq<Polyhedron>)
  {
    |c.collected| == 1 && c.collected[0] < |hs| && c == NewConglomerate(c.name, hs, c.collected[0])
  }

  /** `now` differs from `was` at most in explored flags, which are only ever set. */
  predicate FlagsOnly(now: seq<Polygon>, was: seq<Polygon>)
  {
    && |now| == |was|
    && forall q :: 0 <= q < |was| ==>
         now[q] == was[q].(explored := now[q].explored) && (was[q].explored ==> now[q].explored)
  }

  /** The same for polyhedra. */
  predicate HullFlagsOnly(now: seq<Polyhedron>, was: seq<Polyhedron>)
  {
    && |now| == |was|
    && forall h :: 0 <= h < |was| ==>
         now[h] == was[h].(explored := now[h].explored) && (was[h].explored ==> now[h].explored)
  }

  predicate ExploredAll(polys: seq<Polygon>, ids: seq<nat>)
  {
    forall j :: 0 <= j < |ids| ==> ids[j] < |polys| && polys[ids[j]].explored
  }

  predicate Within(a: seq<nat>, b: seq<nat>)
  {
    forall x :: x in a ==> x in b
  }

  predicate Distinct(s: seq<nat>)
  {
    forall j, k :: 0 <= j < k < |s| ==> s[j] != s[k]
  }

  /** Every member of every polyhedron records that polyhedron as an owner. */
  predicate Listed(polys: seq<Polygon>, hs: seq<Polyhedron>)
  {
    forall h, k :: 0 <= h < |hs| && 0 <= k < |hs[h].polygons| ==>
      hs[h].polygons[k] < |polys| && h in Owners(polys[hs[h].polygons[k]])
  }

  /** Every owner a polygon records lists that polygon among its members. */
  predicate OwnersListed(polys: seq<Polygon>, hs: seq<Polyhedron>)
  {
    forall q, o :: 0 <= q < |polys| && o in Owners(polys[q]) ==> o < |hs| && q in hs[o].polygons
  }

  /** The two owner slots of `p` name different polyhedra. */
  predicate OwnersApart(p: Polygon)
  {
    p.owner1.Some? && p.owner2.Some? ==> p.owner1.value != p.owner2.value
  }

  /** Polygons and polyhedra agree exactly on who owns what, as
      `set_polygon_references` leaves them when every polyhedron lists each
      member once. */
  predicate Ownership(polys: seq<Polygon>, hs: seq<Polyhedron>)
  {
    && Listed(polys, hs) && OwnersListed(polys, hs)
    && (forall h :: 0 <= h < |hs| ==> Distinct(hs[h].polygons))
    && (forall q :: 0 <= q < |polys| ==> OwnersApart(polys[q]))
  }

  predicate SomeOwnerIn(p: Polygon, collected: seq<nat>)
  {
    (p.owner1.Some? && p.owner1.value in collected) || (p.owner2.Some? && p.owner2.value in collected)
  }

  /** No owner of `p` is a drawn polyhedron still outside the conglomerate. */
  predicate Settled(p: Polygon, collected: seq<nat>, chosen: seq<nat>)
  {
    && (p.owner1.Some? ==> p.owner1.value in collected || p.owner1.value !in chosen)
    && (p.owner2.Some? ==> p.owner2.value in collected || p.owner2.value !in chosen)
  }

  /** Both owners of `p` exist and are gathered. */
  predicate SharedByCollected(p: Polygon, collected: seq<nat>)
  {
    p.owner1.Some? && p.owner2.Some? && p.owner1.value in collected && p.owner2.value in collected
  }

  /** The ownership facts `explore` keeps about its lists. */
  ghost predicate OwnedLists(polys: seq<Polygon>, c: Conglomerate, chosen: seq<nat>, i: nat)
    requires MembersIn(c.exploreList, |polys|) && i <= |c.exploreList|
  {
    && (forall q :: q in c.exploreList ==> SomeOwnerIn(polys[q], c.collected))
    && (forall q :: q in c.draw ==> q < |polys| && Settled(polys[q], c.collected, chosen))
    && (forall q :: q in c.mergeList ==> q < |polys| && SharedByCollected(polys[q], c.collected))
    && (forall q :: q in c.mergeList ==> q !in c.draw)
    && (forall j :: 0 <= j < i && !polys[c.exploreList[j]].explored ==>
          Settled(polys[c.exploreList[j]], c.collected, chosen))
  }

  /** No polygon met but not yet explored, and no polygon on the draw list,
      is shared by two gathered polyhedra. */
  predicate DrawApart(polys0: seq<Polygon>, polys: seq<Polygon>, c: Conglomerate)
    requires |polys| == |polys0| && MembersIn(c.exploreList, |polys0|) && Within(c.draw, c.exploreList)
  {
    && (forall q :: q in c.exploreList && !polys[q].explored ==> !SharedByCollected(polys0[q], c.collected))
    && (forall q :: q in c.draw ==> !SharedByCollected(polys0[q], c.collected))
  }

  /** The measure of `explore`'s outer progress: drawn polyhedra not yet gathered. */
  function Pending(chosen: seq<nat>, collected: seq<nat>): set<nat>
  {
    (set x | x in chosen) - (set x | x in collected)
  }

  /** What holds of the state of `explore` before it looks at `exploreList[i]`;
      `polys0`, `hs0` and `e0` are the arenas and list it started from. */
  ghost predicate ExploreInv(polys0: seq<Polygon>, hs0: seq<Polyhedron>, chosen: seq<nat>, e0: seq<nat>,
                             polys: seq<Polygon>, hs: seq<Polyhedron>, c: Conglomerate, i: nat)
  {
    && ExploreShape(polys0, hs0, chosen, e0, polys, hs, c, i)
    && (Ownership(polys0, hs0) ==>
          OwnedLists(polys0, c, chosen, i) && ExploredAll(polys, c.exploreList[..i]) && DrawApart(polys0, polys, c))
  }

  /** The part of `ExploreInv` that holds whatever the arenas hold. */
  ghost predicate ExploreShape(polys0: seq<Polygon>, hs0: seq<Polyhedron>, chosen: seq<nat>, e0: seq<nat>,
                               polys: seq<Polygon>, hs: seq<Polyhedron>, c: Conglomerate, i: nat)
  {
    && FlagsOnly(polys, polys0) && HullFlagsOnly(hs, hs0)
    && |c.collected| >= 1 && Distinct(c.collected)
    && (forall k :: 0 <= k < |c.collected| ==> c.collected[k] < |hs0|)
    && (forall k :: 1 <= k < |c.collected| ==> c.collected[k] in chosen && hs[c.collected[k]].explored)
    && |e0| <= |c.exploreList| && c.exploreList[..|e0|] == e0
    && MembersIn(c.exploreList, |polys0|) && i <= |c.exploreList|
    && c.outline == c.draw
    && Within(c.mergeList, c.exploreList) && Within(c.draw, c.exploreList)
    && ExploredAll(polys, c.mergeList) && ExploredAll(polys, c.draw)
    && (forall q :: 0 <= q < |polys| && polys[q].explored && !polys0[q].explored ==>
          q in c.mergeList || q in c.draw)
    && (forall k, f :: 0 <= k < |c.collected| && f in hs0[c.collected[k]].polygons ==> f in c.exploreList)
  }

  /** What the face loop leaves behind, from list `c` and arena `polys` to `c'`
      and `polys'`: the explore list gains the unmet faces, the merge list gains
      faces already met, which become explored, and nothing else changes. */
  predicate FacesAdded(polys: seq<Polygon>, c: Conglomerate, faces: seq<nat>,
                     polys': seq<Polygon>, c': Conglomerate)
  {
    && FlagsOnly(polys', polys)
    && c' == c.(exploreList := c'.exploreList, mergeList := c'.mergeList)
    && |c.exploreList| <= |c'.exploreList| && c'.exploreList[..|c.exploreList|] == c.exploreList
    && MembersIn(c'.exploreList, |polys|)
    && (forall x :: x in c.exploreList ==> x in c'.exploreList)
    && (forall x :: x in c'.exploreList ==> x in c.exploreList || x in faces)
    && (forall f :: f in faces ==> f in c'.exploreList)
    && (forall f :: f in faces && f in c.exploreList ==> polys'[f].explored)
    && (forall x :: x in c.mergeList ==> x in c'.mergeList)
    && (forall x :: x in c'.mergeList ==> (x in c.mergeList ||
          (x in faces && x < |polys| && polys'[x].explored && (Distinct(faces) ==> x in c.exploreList))))
    && (forall q :: 0 <= q < |polys| && polys'[q].explored && !polys[q].explored ==> q in c'.mergeList)
  }

  /** The face loop of `explore` for a newly gathered polyhedron: a face not yet
      met is appended to the explore list; a face already met is shared with a
      gathered polyhedron, so it is marked explored and put on the merge list. */
  method AddFaces(polys: seq<Polygon>, c: Conglomerate, faces: seq<nat>) returns (polys': seq<Polygon>, c': Conglomerate)
    requires MembersIn(faces, |polys|) && MembersIn(c.exploreList, |polys|)
    ensures FacesAdded(polys, c, faces, polys', c')
    ensures (polys', c') == AddFacesFold(polys, c, faces)
  {
    polys', c' := polys, c;
    var k := 0;
    assert faces[..0] == [];
    NoFacesAdded(polys, c);
    while k < |faces|
      invariant 0 <= k <= |faces|
      invariant FacesAdded(polys, c, faces[..k], polys', c')
      invariant (polys', c') == AddFacesFold(polys, c, faces[..k])
    {
      assert faces[..k + 1] == faces[..k] + [faces[k]];
      assert faces[..k + 1][..k] == faces[..k];
      polys', c' := AddFace(polys, c, faces[..k], polys', c', faces[k]);
      k := k + 1;
    }
    assert faces[..k] == faces;
  }

  /** One pass of the face loop for face `f`: a face not met yet joins the
      explore list; a face met before is marked explored and joins the merge
      list. */
  function AddFaceStep(polys: seq<Polygon>, c: Conglomerate, f: nat): (seq<Polygon>, Conglomerate)
    requires f < |polys|
  {
    if f !in c.exploreList then (polys, c.(exploreList := c.exploreList + [f]))
    else (polys[f := polys[f].(explored := true)], c.(mergeList := c.mergeList + [f]))
  }

  /** The face loop over `faces`, in order, as a fold of `AddFaceStep`. */
  function AddFacesFold(polys: seq<Polygon>, c: Conglomerate, faces: seq<nat>): (r: (seq<Polygon>, Conglomerate))
    requires MembersIn(faces, |polys|) && MembersIn(c.exploreList, |polys|)
    ensures |r.0| == |polys| && MembersIn(r.1.exploreList, |polys|)
    ensures r.1 == c.(exploreList := r.1.exploreList, mergeList := r.1.mergeList)
    ensures c.exploreList <= r.1.exploreList
    ensures forall q :: 0 <= q < |polys| && polys[q].explored ==> r.0[q].explored
    decreases |faces|
  {
    if faces == [] then (polys, c)
    else
      var (p, c1) := AddFacesFold(polys, c, faces[..|faces| - 1]);
      AddFaceStep(p, c1, faces[|faces| - 1])
  }

  /** Before the face loop nothing has been added. */
  lemma NoFacesAdded(polys: seq<Polygon>, c: Conglomerate)
    requires MembersIn(c.exploreList, |polys|)
    ensures FacesAdded(polys, c, [], polys, c)
  {
    assert c.exploreList[..|c.exploreList|] == c.exploreList;
  }

  /** One pass of the face loop, for face `f` after the faces `met`. */
  method AddFace(polys: seq<Polygon>, c: Conglomerate, met: seq<nat>, polys': seq<Polygon>, c': Conglomerate, f: nat)
    returns (polys'': seq<Polygon>, c'': Conglomerate)
    requires FacesAdded(polys, c, met, polys', c') && f < |polys|
    ensures FacesAdded(polys, c, met + [f], polys'', c'')
    ensures f < |polys'| && (polys'', c'') == AddFaceStep(polys', c', f)
  {
    if f !in c'.exploreList {
      AddUnmet(polys, c, met, polys', c', f);
      polys'', c'' := polys', c'.(exploreList := c'.exploreList + [f]);
    } else {
      AddMet(polys, c, met, polys', c', f);
      polys'', c'' := polys'[f := polys'[f].(explored := true)], c'.(mergeList := c'.mergeList + [f]);
    }
  }

  /** A face not met yet joins the explore list. */
  lemma AddUnmet(polys: seq<Polygon>, c: Conglomerate, met: seq<nat>, polys': seq<Polygon>, c': Conglomerate, f: nat)
    requires FacesAdded(polys, c, met, polys', c') && f < |polys| && f !in c'.exploreList
    ensures FacesAdded(polys, c, met + [f], polys', c'.(exploreList := c'.exploreList + [f]))
  {
    var e' := c'.exploreList + [f];
    assert e'[..|c.exploreList|] == c'.exploreList[..|c.exploreList|];
    forall x | x in c'.mergeList
      ensures x in c.mergeList || (x in met + [f] && x < |polys| && polys'[x].explored && (Distinct(met + [f]) ==> x in c.exploreList))
    {
      if x !in c.mergeList {
        DistinctPrefix(met, f);
      }
    }
  }

  /** A face met before is shared: it becomes explored and joins the merge list. */
  lemma AddMet(polys: seq<Polygon>, c: Conglomerate, met: seq<nat>, polys': seq<Polygon>, c': Conglomerate, f: nat)
    requires FacesAdded(polys, c, met, polys', c') && f in c'.exploreList
    ensures f < |polys'|
    ensures FacesAdded(polys, c, met + [f], polys'[f := polys'[f].(explored := true)], c'.(mergeList := c'.mergeList + [f]))
  {
    var p' := polys'[f := polys'[f].(explored := true)];
    var m' := c'.mergeList + [f];
    forall x | x in m'
      ensures x in c.mergeList || (x in met + [f] && x < |polys| && p'[x].explored && (Distinct(met + [f]) ==> x in c.exploreList))
    {
      if x !in c.mergeList {
        DistinctPrefix(met, f);
      }
    }
  }

  lemma DistinctPrefix(met: seq<nat>, f: nat)
    ensures Distinct(met + [f]) ==> Distinct(met) && f !in met
  {
    if Distinct(met + [f]) {
      forall i, j | 0 <= i < j < |met| ensures met[i] != met[j] {
        assert met[i] == (met + [f])[i] && met[j] == (met + [f])[j];
      }
      forall i | 0 <= i < |met| ensures met[i] != f {
        assert met[i] == (met + [f])[i] && f == (met + [f])[|met|];
      }
    }
  }


  /** Gathering a drawn polyhedron removes it from the pending set. */
  lemma PendingShrinks(chosen: seq<nat>, collected: seq<nat>, h: nat)
    requires h in chosen && h !in collected
    ensures |Pending(chosen, collected + [h])| < |Pending(chosen, collected)|
  {
    assert Pending(chosen, collected + [h]) == Pending(chosen, collected) - {h};
    assert h in Pending(chosen, collected);
  }

  /** An explored polygon at the cursor is passed over. */
  lemma SkipKeepsInv(polys0: seq<Polygon>, hs0: seq<Polyhedron>, chosen: seq<nat>, e0: seq<nat>,
                     polys: seq<Polygon>, hs: seq<Polyhedron>, c: Conglomerate, i: nat)
    requires ExploreInv(polys0, hs0, chosen, e0, polys, hs, c, i)
    requires i < |c.exploreList| && polys[c.exploreList[i]].explored
    ensures ExploreInv(polys0, hs0, chosen, e0, polys, hs, c, i + 1)
  {
    var e := c.exploreList;
    assert ExploreShape(polys0, hs0, chosen, e0, polys, hs, c, i + 1);
    if Ownership(polys0, hs0) {
      SkipKeepsOwnership(polys0, chosen, polys, c, i);
    }
  }

  /** The ownership half of `SkipKeepsInv`: a polygon explored before this
      `explore` call began is passed over; one explored during it is already
      drawn or merged, so it is settled. */
  lemma SkipKeepsOwnership(polys0: seq<Polygon>, chosen: seq<nat>, polys: seq<Polygon>, c: Conglomerate, i: nat)
    requires |polys| == |polys0| && MembersIn(c.exploreList, |polys0|) && i < |c.exploreList|
    requires OwnedLists(polys0, c, chosen, i) && ExploredAll(polys, c.exploreList[..i])
    requires polys[c.exploreList[i]].explored
    requires !polys0[c.exploreList[i]].explored ==> c.exploreList[i] in c.mergeList || c.exploreList[i] in c.draw
    ensures OwnedLists(polys0, c, chosen, i + 1) && ExploredAll(polys, c.exploreList[..i + 1])
  {
    var e := c.exploreList;
    assert e[..i + 1] == e[..i] + [e[i]];
  }

  /** The source's condition for handing the polygon at the cursor to the draw
      lists: it has one owner, or neither owner is a drawn polyhedron still
      outside the conglomerate. */
  predicate DrawCase(p: Polygon, collected: seq<nat>, chosen: seq<nat>)
  {
    || p.owner2.None?
    || (&& !(p.owner1.Some? && p.owner1.value in chosen && p.owner1.value !in collected)
        && !(p.owner2.value in chosen && p.owner2.value !in collected))
  }

  /** Otherwise the owner `explore` gathers next: the first owner when it is a
      drawn polyhedron still outside, else the second. */
  function GatheredOwner(p: Polygon, collected: seq<nat>, chosen: seq<nat>): (h: nat)
    requires !DrawCase(p, collected, chosen)
    ensures h in Owners(p) && h in chosen && h !in collected
  {
    if p.owner1.Some? && p.owner1.value in chosen && p.owner1.value !in collected then p.owner1.value
    else p.owner2.value
  }

  /** An unexplored polygon handed to the draw lists. */
  lemma DrawKeepsInv(polys0: seq<Polygon>, hs0: seq<Polyhedron>, chosen: seq<nat>, e0: seq<nat>,
                     polys: seq<Polygon>, hs: seq<Polyhedron>, c: Conglomerate, i: nat)
    requires ExploreInv(polys0, hs0, chosen, e0, polys, hs, c, i)
    requires i < |c.exploreList| && !polys[c.exploreList[i]].explored
    requires DrawCase(polys0[c.exploreList[i]], c.collected, chosen)
    ensures var q := c.exploreList[i];
      ExploreInv(polys0, hs0, chosen, e0, polys[q := polys[q].(explored := true)], hs,
                 c.(outline := c.outline + [q], draw := c.draw + [q]), i + 1)
  {
    var e := c.exploreList;
    var q := e[i];
    var polys' := polys[q := polys[q].(explored := true)];
    var c' := c.(outline := c.outline + [q], draw := c.draw + [q]);
    assert e[..i + 1] == e[..i] + [q];
    assert q !in c.mergeList;
    assert ExploreShape(polys0, hs0, chosen, e0, polys', hs, c', i + 1);
    if Ownership(polys0, hs0) {
      DrawKeepsOwnership(polys0, chosen, polys, c, i);
      DrawKeepsApart(polys0, polys, c, i);
    }
  }

  /** The polygon handed to the draw lists was still to be explored, so it is
      not shared by two gathered polyhedra. */
  lemma DrawKeepsApart(polys0: seq<Polygon>, polys: seq<Polygon>, c: Conglomerate, i: nat)
    requires |polys| == |polys0| && MembersIn(c.exploreList, |polys0|) && Within(c.draw, c.exploreList)
    requires i < |c.exploreList| && !polys[c.exploreList[i]].explored && DrawApart(polys0, polys, c)
    ensures var q := c.exploreList[i];
      var c' := c.(outline := c.outline + [q], draw := c.draw + [q]);
      && Within(c'.draw, c'.exploreList)
      && DrawApart(polys0, polys[q := polys[q].(explored := true)], c')
  {
    var q := c.exploreList[i];
    assert q in c.exploreList;
  }

  /** The ownership half of `DrawKeepsInv`. */
  lemma DrawKeepsOwnership(polys0: seq<Polygon>, chosen: seq<nat>, polys: seq<Polygon>, c: Conglomerate, i: nat)
    requires |polys| == |polys0| && MembersIn(c.exploreList, |polys0|) && i < |c.exploreList|
    requires OwnedLists(polys0, c, chosen, i) && ExploredAll(polys, c.exploreList[..i])
    requires ExploredAll(polys, c.mergeList) && !polys[c.exploreList[i]].explored
    requires DrawCase(polys0[c.exploreList[i]], c.collected, chosen)
    ensures var q := c.exploreList[i];
      && OwnedLists(polys0, c.(outline := c.outline + [q], draw := c.draw + [q]), chosen, i + 1)
      && ExploredAll(polys[q := polys[q].(explored := true)], c.exploreList[..i + 1])
  {
    var q := c.exploreList[i];
    DrawnSettled(polys0, c, chosen, i);
    DrawnExplored(polys, c.exploreList, i);
  }

  /** The polygon handed to the draw lists is settled and not on the merge list. */
  lemma DrawnSettled(polys0: seq<Polygon>, c: Conglomerate, chosen: seq<nat>, i: nat)
    requires MembersIn(c.exploreList, |polys0|) && i < |c.exploreList|
    requires OwnedLists(polys0, c, chosen, i)
    requires c.exploreList[i] !in c.mergeList
    requires DrawCase(polys0[c.exploreList[i]], c.collected, chosen)
    ensures var q := c.exploreList[i];
      OwnedLists(polys0, c.(outline := c.outline + [q], draw := c.draw + [q]), chosen, i + 1)
  {
    var q := c.exploreList[i];
    assert SomeOwnerIn(polys0[q], c.collected);
    assert Settled(polys0[q], c.collected, chosen);
  }

  /** Marking the polygon at the cursor extends the explored prefix by one. */
  lemma DrawnExplored(polys: seq<Polygon>, e: seq<nat>, i: nat)
    requires i < |e| && e[i] < |polys| && ExploredAll(polys, e[..i])
    ensures ExploredAll(polys[e[i] := polys[e[i]].(explored := true)], e[..i + 1])
  {
    var polys' := polys[e[i] := polys[e[i]].(explored := true)];
    var done := e[..i + 1];
    forall j | 0 <= j < |done| ensures done[j] < |polys'| && polys'[done[j]].explored {
      if j < i {
        assert done[j] == e[..i][j];
      }
    }
  }

  /** Gathering `h`, an owner of the polygon at the cursor, followed by the face
      loop over `h`'s members. */
  lemma CollectKeepsInv(polys0: seq<Polygon>, hs0: seq<Polyhedron>, chosen: seq<nat>, e0: seq<nat>,
                        polys: seq<Polygon>, hs: seq<Polyhedron>, c: Conglomerate, i: nat, h: nat,
                        polys': seq<Polygon>, c': Conglomerate)
    requires ExploreInv(polys0, hs0, chosen, e0, polys, hs, c, i)
    requires i < |c.exploreList| && !polys[c.exploreList[i]].explored
    requires h < |hs0| && h in Owners(polys0[c.exploreList[i]]) && h in chosen && h !in c.collected
    requires FacesAdded(polys, c.(collected := c.collected + [h]), hs0[h].polygons, polys', c')
    ensures ExploreInv(polys0, hs0, chosen, e0, polys', hs[h := hs[h].(explored := true)], c', i + 1)
  {
    CollectKeepsShape(polys0, hs0, chosen, e0, polys, hs, c, i, h, polys', c');
    if Ownership(polys0, hs0) {
      OwnershipAfterCollect(polys0, hs0, chosen, polys, c, i, h, polys', c');
      ApartAfterCollect(polys0, hs0, chosen, polys, c, h, polys', c');
    }
  }

  /** Gathering `h` shares no polygon still to be explored and no drawn
      polygon: a new member of `h` has no other gathered owner, since that
      owner's members were all met before, and `h`, a drawn polyhedron still
      outside, owns no drawn polygon. */
  lemma ApartAfterCollect(polys0: seq<Polygon>, hs0: seq<Polyhedron>, chosen: seq<nat>,
                          polys: seq<Polygon>, c: Conglomerate, h: nat, polys': seq<Polygon>, c': Conglomerate)
    requires Ownership(polys0, hs0) && FlagsOnly(polys, polys0)
    requires MembersIn(c.exploreList, |polys0|) && Within(c.draw, c.exploreList)
    requires forall k :: 0 <= k < |c.collected| ==> c.collected[k] < |hs0|
    requires forall k, f :: 0 <= k < |c.collected| && f in hs0[c.collected[k]].polygons ==> f in c.exploreList
    requires forall q :: q in c.draw ==> q < |polys0| && Settled(polys0[q], c.collected, chosen)
    requires DrawApart(polys0, polys, c)
    requires h < |hs0| && h in chosen && h !in c.collected
    requires FacesAdded(polys, c.(collected := c.collected + [h]), hs0[h].polygons, polys', c')
    ensures |polys'| == |polys0| && MembersIn(c'.exploreList, |polys0|) && Within(c'.draw, c'.exploreList)
    ensures DrawApart(polys0, polys', c')
  {
    var C := c.collected;
    var faces := hs0[h].polygons;
    assert c'.collected == C + [h] && c'.draw == c.draw;
    forall x | x in c'.draw ensures x in c'.exploreList {
      assert x in c.exploreList;
    }
    forall x | x in c'.exploreList && !polys'[x].explored
      ensures !SharedByCollected(polys0[x], C + [h])
    {
      if x in faces && x !in c.exploreList {
        assert OwnersApart(polys0[x]);
      } else {
        assert x in c.exploreList;
        assert !polys[x].explored;
        assert h !in Owners(polys0[x]);
      }
    }
    forall x | x in c'.draw ensures !SharedByCollected(polys0[x], C + [h]) {
      assert Settled(polys0[x], C, chosen);
    }
  }

  /** The shape half of `CollectKeepsInv`. */
  lemma CollectKeepsShape(polys0: seq<Polygon>, hs0: seq<Polyhedron>, chosen: seq<nat>, e0: seq<nat>,
                          polys: seq<Polygon>, hs: seq<Polyhedron>, c: Conglomerate, i: nat, h: nat,
                          polys': seq<Polygon>, c': Conglomerate)
    requires ExploreShape(polys0, hs0, chosen, e0, polys, hs, c, i)
    requires i < |c.exploreList| && !polys[c.exploreList[i]].explored
    requires h < |hs0| && h in Owners(polys0[c.exploreList[i]]) && h in chosen && h !in c.collected
    requires FacesAdded(polys, c.(collected := c.collected + [h]), hs0[h].polygons, polys', c')
    ensures ExploreShape(polys0, hs0, chosen, e0, polys', hs[h := hs[h].(explored := true)], c', i + 1)
  {
    var hs' := hs[h := hs[h].(explored := true)];
    var g := c.(collected := c.collected + [h]);
    var e := c.exploreList;
    var e' := c'.exploreList;
    assert FlagsOnly(polys', polys0) by {
      FlagsOnlyTrans(polys', polys, polys0);
    }
    assert HullFlagsOnly(hs', hs0);
    assert c'.collected == c.collected + [h] && c'.outline == c.outline && c'.draw == c.draw;
    CollectedGrows(hs0, hs, chosen, c.collected, h);
    assert e'[..|e0|] == e0 by {
      assert e'[..|e|] == e;
      assert e'[..|e0|] == e'[..|e|][..|e0|];
    }
    CollectedListsKept(polys0, polys, c, g, hs0[h].polygons, polys', c');
    CollectedFacesListed(hs0, c.collected, h, e, e');
  }

  /** Gathering `h` keeps the gathered list distinct, in range and explored. */
  lemma CollectedGrows(hs0: seq<Polyhedron>, hs: seq<Polyhedron>, chosen: seq<nat>, collected: seq<nat>, h: nat)
    requires |hs| == |hs0| && h < |hs0| && h in chosen && h !in collected
    requires |collected| >= 1 && Distinct(collected)
    requires forall k :: 0 <= k < |collected| ==> collected[k] < |hs0|
    requires forall k :: 1 <= k < |collected| ==> collected[k] in chosen && hs[collected[k]].explored
    ensures var collected', hs' := collected + [h], hs[h := hs[h].(explored := true)];
      && |collected'| >= 1 && Distinct(collected')
      && (forall k :: 0 <= k < |collected'| ==> collected'[k] < |hs0|)
      && (forall k :: 1 <= k < |collected'| ==> collected'[k] in chosen && hs'[collected'[k]].explored)
  {
  }

  /** The members of every gathered polyhedron stay on the explore list once
      `h`'s members have been added to it. */
  lemma CollectedFacesListed(hs0: seq<Polyhedron>, collected: seq<nat>, h: nat, e: seq<nat>, e': seq<nat>)
    requires h < |hs0| && forall k :: 0 <= k < |collected| ==> collected[k] < |hs0|
    requires forall k, f :: 0 <= k < |collected| && f in hs0[collected[k]].polygons ==> f in e
    requires forall x :: x in e ==> x in e'
    requires forall f :: f in hs0[h].polygons ==> f in e'
    ensures forall k, f :: 0 <= k < |collected + [h]| && f in hs0[(collected + [h])[k]].polygons ==> f in e'
  {
    var collected' := collected + [h];
    forall k, f | 0 <= k < |collected'| && f in hs0[collected'[k]].polygons ensures f in e' {
      if k < |collected| {
        assert collected'[k] == collected[k];
      }
    }
  }

  /** The face loop keeps both lists inside the explore list and explored, and
      puts every polygon it newly marks explored on the merge list. */
  lemma CollectedListsKept(polys0: seq<Polygon>, polys: seq<Polygon>, c: Conglomerate, g: Conglomerate,
                           faces: seq<nat>, polys': seq<Polygon>, c': Conglomerate)
    requires g == c.(collected := g.collected) && |polys| == |polys0|
    requires Within(c.mergeList, c.exploreList) && Within(c.draw, c.exploreList)
    requires ExploredAll(polys, c.mergeList) && ExploredAll(polys, c.draw)
    requires forall q :: 0 <= q < |polys| && polys[q].explored && !polys0[q].explored ==>
               q in c.mergeList || q in c.draw
    requires FacesAdded(polys, g, faces, polys', c')
    ensures Within(c'.mergeList, c'.exploreList) && Within(c'.draw, c'.exploreList)
    ensures ExploredAll(polys', c'.mergeList) && ExploredAll(polys', c'.draw)
    ensures forall q :: 0 <= q < |polys'| && polys'[q].explored && !polys0[q].explored ==>
              q in c'.mergeList || q in c'.draw
  {
    assert c'.draw == c.draw;
    forall x | x in c'.mergeList ensures x in c'.exploreList {
      if x in c.mergeList {
        assert x in c.exploreList;
      }
    }
    forall x | x in c'.draw ensures x in c'.exploreList {
      assert x in c.exploreList;
    }
    forall j | 0 <= j < |c'.mergeList| ensures c'.mergeList[j] < |polys'| && polys'[c'.mergeList[j]].explored {
      var x := c'.mergeList[j];
      assert x in c'.mergeList;
      if x in c.mergeList {
        var k :| 0 <= k < |c.mergeList| && c.mergeList[k] == x;
        assert polys[x].explored;
      }
    }
    forall j | 0 <= j < |c'.draw| ensures c'.draw[j] < |polys'| && polys'[c'.draw[j]].explored {
      assert polys[c.draw[j]].explored;
    }
    forall q | 0 <= q < |polys'| && polys'[q].explored && !polys0[q].explored
      ensures q in c'.mergeList || q in c'.draw
    {
      if polys[q].explored {
        assert q in c.mergeList || q in c.draw;
      }
    }
  }

  lemma FlagsOnlyTrans(a: seq<Polygon>, b: seq<Polygon>, c: seq<Polygon>)
    requires FlagsOnly(a, b) && FlagsOnly(b, c)
    ensures FlagsOnly(a, c)
  {
    forall q | 0 <= q < |c|
      ensures a[q] == c[q].(explored := a[q].explored) && (c[q].explored ==> a[q].explored)
    {
      assert a[q] == b[q].(explored := a[q].explored);
    }
  }

  /** After gathering `h`, every listed polygon still has a gathered owner and
      every polygon queued for merging is shared by two of them. */
  lemma CollectedListsOwned(polys0: seq<Polygon>, hs0: seq<Polyhedron>, chosen: seq<nat>,
                            polys: seq<Polygon>, c: Conglomerate, i: nat, h: nat,
                            polys': seq<Polygon>, c': Conglomerate)
    requires Ownership(polys0, hs0) && FlagsOnly(polys, polys0)
    requires MembersIn(c.exploreList, |polys0|) && i < |c.exploreList| && OwnedLists(polys0, c, chosen, i)
    requires ExploredAll(polys, c.exploreList[..i]) && !polys[c.exploreList[i]].explored
    requires h < |hs0| && h in Owners(polys0[c.exploreList[i]]) && h in chosen && h !in c.collected
    requires FacesAdded(polys, c.(collected := c.collected + [h]), hs0[h].polygons, polys', c')
    ensures forall x :: x in c'.exploreList ==> SomeOwnerIn(polys0[x], c'.collected)
    ensures forall x :: x in c'.mergeList ==> SharedByCollected(polys0[x], c'.collected)
    ensures forall x :: x in c'.mergeList ==> x !in c'.draw
  {
    var faces := hs0[h].polygons;
    ListedOwner(polys0, hs0, h);
    assert Distinct(faces);
    ExploreListOwned(polys0, h, faces, c.exploreList, c'.exploreList, c.collected);
    MergeListShared(polys0, h, faces, c.exploreList, c.mergeList, c'.mergeList, c.collected);
    MergeListApart(polys0, h, chosen, faces, c.mergeList, c'.mergeList, c.draw, c.collected);
  }

  /** Every member of polyhedron `h` records `h` as an owner. */
  lemma ListedOwner(polys: seq<Polygon>, hs: seq<Polyhedron>, h: nat)
    requires Listed(polys, hs) && h < |hs|
    ensures forall f :: f in hs[h].polygons ==> f < |polys| && h in Owners(polys[f])
  {
    forall f | f in hs[h].polygons ensures f < |polys| && h in Owners(polys[f]) {
      var k :| 0 <= k < |hs[h].polygons| && hs[h].polygons[k] == f;
    }
  }

  /** The explore list gains only members of `h`, which `h` owns. */
  lemma ExploreListOwned(polys0: seq<Polygon>, h: nat, faces: seq<nat>, e: seq<nat>, e': seq<nat>, C: seq<nat>)
    requires forall x :: x in e ==> x < |polys0| && SomeOwnerIn(polys0[x], C)
    requires forall f :: f in faces ==> f < |polys0| && h in Owners(polys0[f])
    requires forall x :: x in e' ==> x in e || x in faces
    ensures forall x :: x in e' ==> x < |polys0| && SomeOwnerIn(polys0[x], C + [h])
  {
  }

  /** The merge list gains only members of `h` already listed, so owned by `h`
      and by a gathered polyhedron other than `h`. */
  lemma MergeListShared(polys0: seq<Polygon>, h: nat, faces: seq<nat>, e: seq<nat>, m: seq<nat>, m': seq<nat>, C: seq<nat>)
    requires h !in C
    requires forall x :: x in e ==> x < |polys0| && SomeOwnerIn(polys0[x], C)
    requires forall x :: x in m ==> x < |polys0| && SharedByCollected(polys0[x], C)
    requires forall f :: f in faces ==> f < |polys0| && h in Owners(polys0[f])
    requires forall x :: x in m' ==> x in m || (x in faces && x in e)
    ensures forall x :: x in m' ==> SharedByCollected(polys0[x], C + [h])
  {
  }

  /** A member of `h`, a drawn polyhedron not gathered before, is not settled,
      so it was never handed to the draw lists. */
  lemma MergeListApart(polys0: seq<Polygon>, h: nat, chosen: seq<nat>, faces: seq<nat>, m: seq<nat>, m': seq<nat>,
                       draw: seq<nat>, C: seq<nat>)
    requires h in chosen && h !in C
    requires forall x :: x in draw ==> x < |polys0| && Settled(polys0[x], C, chosen)
    requires forall x :: x in m ==> x !in draw
    requires forall f :: f in faces ==> f < |polys0| && h in Owners(polys0[f])
    requires forall x :: x in m' ==> x in m || x in faces
    ensures forall x :: x in m' ==> x !in draw
  {
  }

  lemma OwnershipAfterCollect(polys0: seq<Polygon>, hs0: seq<Polyhedron>, chosen: seq<nat>,
                              polys: seq<Polygon>, c: Conglomerate, i: nat, h: nat,
                              polys': seq<Polygon>, c': Conglomerate)
    requires Ownership(polys0, hs0) && FlagsOnly(polys, polys0)
    requires MembersIn(c.exploreList, |polys0|) && i < |c.exploreList| && OwnedLists(polys0, c, chosen, i)
    requires ExploredAll(polys, c.exploreList[..i]) && !polys[c.exploreList[i]].explored
    requires h < |hs0| && h in Owners(polys0[c.exploreList[i]]) && h in chosen && h !in c.collected
    requires FacesAdded(polys, c.(collected := c.collected + [h]), hs0[h].polygons, polys', c')
    ensures OwnedLists(polys0, c', chosen, i + 1)
    ensures ExploredAll(polys', c'.exploreList[..i + 1])
  {
    var e := c.exploreList;
    var e' := c'.exploreList;
    var C := c.collected;
    var C' := c'.collected;
    var q := e[i];
    assert Distinct(hs0[h].polygons);
    assert e'[..i + 1] == e[..i] + [q] by {
      assert e'[..|e|] == e;
    }
    CollectedListsOwned(polys0, hs0, chosen, polys, c, i, h, polys', c');
    ListedOwner(polys0, hs0, h);
    assert q in hs0[h].polygons;
    assert SomeOwnerIn(polys0[q], C);
    assert Settled(polys0[q], C', chosen);
    forall j | 0 <= j < i + 1 && !polys0[e'[j]].explored
      ensures Settled(polys0[e'[j]], C', chosen)
    {
      if j < i {
        assert e'[j] == e[..i][j];
      }
    }
    CollectExplored(polys, polys', e, e', i, hs0[h].polygons);
  }

  /** The polygon at the cursor is a member of the gathered polyhedron and
      already listed, so the face loop marks it explored. */
  lemma CollectExplored(polys: seq<Polygon>, polys': seq<Polygon>, e: seq<nat>, e': seq<nat>, i: nat, faces: seq<nat>)
    requires i < |e| <= |e'| && e'[..|e|] == e && ExploredAll(polys, e[..i]) && FlagsOnly(polys', polys)
    requires e[i] in faces && forall f :: f in faces && f in e ==> f < |polys'| && polys'[f].explored
    ensures ExploredAll(polys', e'[..i + 1])
  {
    var done := e'[..i + 1];
    forall j | 0 <= j < |done| ensures done[j] < |polys'| && polys'[done[j]].explored {
      assert done[j] == e[j];
      if j < i {
        assert e[j] == e[..i][j];
      }
    }
  }

  /** One pass of `explore`'s outer loop over the polygon at `exploreList[i]`,
      as a function of the arenas and the conglomerate: an explored polygon is
      passed over; in the `DrawCase` it is marked explored and handed to the
      draw lists; otherwise `GatheredOwner` is gathered, marked explored, and
      its members go through the face loop. */
  function ExploreNext(chosen: seq<nat>, polys: seq<Polygon>, hs: seq<Polyhedron>, c: Conglomerate, i: nat)
    : (r: (seq<Polygon>, seq<Polyhedron>, Conglomerate))
    requires i < |c.exploreList| && MembersIn(c.exploreList, |polys|)
    requires forall h :: 0 <= h < |hs| ==> MembersIn(hs[h].polygons, |polys|)
    requires forall x :: x in chosen ==> x < |hs|
    ensures |r.0| == |polys| && |r.1| == |hs| && MembersIn(r.2.exploreList, |polys|)
    ensures forall h :: 0 <= h < |hs| ==> r.1[h].polygons == hs[h].polygons
    ensures c.exploreList <= r.2.exploreList
    ensures || (r.2.collected == c.collected && r.2.exploreList == c.exploreList)
            || |Pending(chosen, r.2.collected)| < |Pending(chosen, c.collected)|
  {
    var q := c.exploreList[i];
    var p := polys[q];
    if p.explored then (polys, hs, c)
    else if DrawCase(p, c.collected, chosen) then
      (polys[q := p.(explored := true)], hs, c.(outline := c.outline + [q], draw := c.draw + [q]))
    else
      var h := GatheredOwner(p, c.collected, chosen);
      PendingShrinks(chosen, c.collected, h);
      var (polys', c') := AddFacesFold(polys, c.(collected := c.collected + [h]), hs[h].polygons);
      (polys', hs[h := hs[h].(explored := true)], c')
  }

  /** `explore`'s outer loop from cursor `i` on, as the fold of `ExploreNext`
      until the cursor passes the end of the explore list. */
  function ExploreRun(chosen: seq<nat>, polys: seq<Polygon>, hs: seq<Polyhedron>, c: Conglomerate, i: nat)
    : (r: (seq<Polygon>, seq<Polyhedron>, Conglomerate))
    requires i <= |c.exploreList| && MembersIn(c.exploreList, |polys|)
    requires forall h :: 0 <= h < |hs| ==> MembersIn(hs[h].polygons, |polys|)
    requires forall x :: x in chosen ==> x < |hs|
    ensures |r.0| == |polys| && |r.1| == |hs|
    decreases |Pending(chosen, c.collected)|, |c.exploreList| - i
  {
    if i == |c.exploreList| then (polys, hs, c)
    else
      var (p1, h1, c1) := ExploreNext(chosen, polys, hs, c, i);
      ExploreRun(chosen, p1, h1, c1, i + 1)
  }

  /** The fold hands a polygon to the draw lists only while it is unexplored
      and marks it explored there, so no polygon is drawn twice. */
  lemma {:induction false} ExploreRunDrawsOnce(chosen: seq<nat>, polys: seq<Polygon>, hs: seq<Polyhedron>,
                                               c: Conglomerate, i: nat)
    requires i <= |c.exploreList| && MembersIn(c.exploreList, |polys|)
    requires forall h :: 0 <= h < |hs| ==> MembersIn(hs[h].polygons, |polys|)
    requires forall x :: x in chosen ==> x < |hs|
    requires ExploredAll(polys, c.draw) && Distinct(c.draw)
    ensures var r := ExploreRun(chosen, polys, hs, c, i); ExploredAll(r.0, r.2.draw) && Distinct(r.2.draw)
    decreases |Pending(chosen, c.collected)|, |c.exploreList| - i
  {
    if i < |c.exploreList| {
      var (p1, h1, c1) := ExploreNext(chosen, polys, hs, c, i);
      var q := c.exploreList[i];
      if !polys[q].explored && DrawCase(polys[q], c.collected, chosen) {
        assert q !in c.draw;
      }
      ExploreRunDrawsOnce(chosen, p1, h1, c1, i + 1);
    }
  }

  /** `explore` from a fresh conglomerate: the outer loop from the first
      polygon on, with the final explore list written back as the starting
      polyhedron's member list (Java shares the two lists). */
  function ExploreResult(polys: seq<Polygon>, hs: seq<Polyhedron>, chosen: seq<nat>, c: Conglomerate)
    : (seq<Polygon>, seq<Polyhedron>, Conglomerate)
    requires Fresh(c, hs)
    requires forall h :: 0 <= h < |hs| ==> MembersIn(hs[h].polygons, |polys|)
    requires forall x :: x in chosen ==> x < |hs|
  {
    var (polys', hs', c') := ExploreRun(chosen, polys, hs, c, 0);
    var initial := c.collected[0];
    (polys', hs'[initial := hs'[initial].(polygons := c'.exploreList)], c')
  }

  /** One pass of `explore`'s outer loop over the polygon at `exploreList[i]`. */
  method ExploreStep(ghost polys0: seq<Polygon>, ghost hs0: seq<Polyhedron>, chosen: seq<nat>, ghost e0: seq<nat>,
                     polys: seq<Polygon>, hs: seq<Polyhedron>, c: Conglomerate, i: nat)
    returns (polys': seq<Polygon>, hs': seq<Polyhedron>, c': Conglomerate)
    requires ExploreInv(polys0, hs0, chosen, e0, polys, hs, c, i) && i < |c.exploreList|
    requires forall h :: 0 <= h < |hs0| ==> MembersIn(hs0[h].polygons, |polys0|)
    requires forall x :: x in chosen ==> x < |hs0|
    ensures ExploreInv(polys0, hs0, chosen, e0, polys', hs', c', i + 1)
    ensures c'.name == c.name && c'.collected[0] == c.collected[0]
    ensures || (c'.collected == c.collected && c'.exploreList == c.exploreList)
            || |Pending(chosen, c'.collected)| < |Pending(chosen, c.collected)|
    ensures var q := c.exploreList[i];
      && (polys[q].explored ==> polys' == polys && hs' == hs && c' == c)
      && (!polys[q].explored && DrawCase(polys0[q], c.collected, chosen) ==>
            && polys' == polys[q := polys[q].(explored := true)] && hs' == hs
            && c' == c.(outline := c.outline + [q], draw := c.draw + [q]))
      && (!polys[q].explored && !DrawCase(polys0[q], c.collected, chosen) ==>
            var h := GatheredOwner(polys0[q], c.collected, chosen);
            && hs' == hs[h := hs[h].(explored := true)]
            && FacesAdded(polys, c.(collected := c.collected + [h]), hs0[h].polygons, polys', c'))
    ensures (polys', hs', c') == ExploreNext(chosen, polys, hs, c, i)
  {
    var q := c.exploreList[i];
    var p := polys[q];
    assert p.owner1 == polys0[q].owner1 && p.owner2 == polys0[q].owner2;
    if p.explored {
      SkipKeepsInv(polys0, hs0, chosen, e0, polys, hs, c, i);
      return polys, hs, c;
    }
    if !DrawCase(p, c.collected, chosen) {
      polys', hs', c' := GatherStep(polys0, hs0, chosen, e0, polys, hs, c, i);
      return;
    }
    c' := c.(outline := c.outline + [q], draw := c.draw + [q]);
    polys' := polys[q := polys[q].(explored := true)];
    DrawKeepsInv(polys0, hs0, chosen, e0, polys, hs, c, i);
    hs' := hs;
  }

  /** The gathering branch of one pass (lines 67-108): the polygon at the
      cursor is unexplored and has a drawn owner outside the conglomerate. The
      first owner is gathered when it is one, else the second; it is marked
      explored and its members go through the face loop. */
  method GatherStep(ghost polys0: seq<Polygon>, ghost hs0: seq<Polyhedron>, chosen: seq<nat>, ghost e0: seq<nat>,
                    polys: seq<Polygon>, hs: seq<Polyhedron>, c: Conglomerate, i: nat)
    returns (polys': seq<Polygon>, hs': seq<Polyhedron>, c': Conglomerate)
    requires ExploreInv(polys0, hs0, chosen, e0, polys, hs, c, i) && i < |c.exploreList|
    requires forall h :: 0 <= h < |hs0| ==> MembersIn(hs0[h].polygons, |polys0|)
    requires forall x :: x in chosen ==> x < |hs0|
    requires !polys[c.exploreList[i]].explored && !DrawCase(polys0[c.exploreList[i]], c.collected, chosen)
    ensures ExploreInv(polys0, hs0, chosen, e0, polys', hs', c', i + 1)
    ensures c'.name == c.name && c'.collected[0] == c.collected[0]
    ensures |Pending(chosen, c'.collected)| < |Pending(chosen, c.collected)|
    ensures var h := GatheredOwner(polys0[c.exploreList[i]], c.collected, chosen);
      && hs' == hs[h := hs[h].(explored := true)]
      && FacesAdded(polys, c.(collected := c.collected + [h]), hs0[h].polygons, polys', c')
    ensures (polys', hs', c') == ExploreNext(chosen, polys, hs, c, i)
  {
    var q := c.exploreList[i];
    var p := polys[q];
    assert p.owner1 == polys0[q].owner1 && p.owner2 == polys0[q].owner2;
    var h: nat;
    if p.owner2.Some? && p.owner1.Some? && p.owner1.value in chosen && p.owner1.value !in c.collected {
      h := p.owner1.value;
    } else {
      h := p.owner2.value;
    }
    assert h == GatheredOwner(polys0[q], c.collected, chosen);
    var gathered := c.(collected := c.collected + [h]);
    hs' := hs[h := hs[h].(explored := true)];
    assert hs[h].polygons == hs0[h].polygons;
    polys', c' := AddFaces(polys, gathered, hs[h].polygons);
    CollectKeepsInv(polys0, hs0, chosen, e0, polys, hs, c, i, h, polys', c');
    PendingShrinks(chosen, c.collected, h);
  }

  /** A fresh conglomerate satisfies the invariant with the cursor at the start. */
  lemma ExploreStart(polys: seq<Polygon>, hs: seq<Polyhedron>, chosen: seq<nat>, c: Conglomerate)
    requires Fresh(c, hs)
    requires forall h :: 0 <= h < |hs| ==> MembersIn(hs[h].polygons, |polys|)
    ensures ExploreInv(polys, hs, chosen, c.exploreList, polys, hs, c, 0)
  {
    var initial := c.collected[0];
    assert c.exploreList[..|c.exploreList|] == c.exploreList;
    if Ownership(polys, hs) {
      forall q | q in c.exploreList ensures SomeOwnerIn(polys[q], c.collected) {
        var k :| 0 <= k < |hs[initial].polygons| && hs[initial].polygons[k] == q;
        assert initial in Owners(polys[q]);
      }
    }
  }

  /** What the invariant gives once the cursor has passed the whole explore list. */
  lemma ExploreDone(polys0: seq<Polygon>, hs0: seq<Polyhedron>, chosen: seq<nat>, e0: seq<nat>,
                    polys: seq<Polygon>, hs: seq<Polyhedron>, c: Conglomerate)
    requires ExploreInv(polys0, hs0, chosen, e0, polys, hs, c, |c.exploreList|)
    ensures Ownership(polys0, hs0) ==> ExploredAll(polys, c.exploreList)
    ensures Ownership(polys0, hs0) ==>
              forall q :: q in c.mergeList ==> SharedByCollected(polys0[q], c.collected) && q !in c.draw
    ensures Ownership(polys0, hs0) ==> forall q :: q in c.draw ==> Settled(polys0[q], c.collected, chosen)
    ensures Ownership(polys0, hs0) ==>
              forall q :: q in c.exploreList && !polys0[q].explored ==> Settled(polys0[q], c.collected, chosen)
    ensures Ownership(polys0, hs0) ==> forall q :: q in c.draw ==> !SharedByCollected(polys0[q], c.collected)
    ensures forall q :: 0 <= q < |polys| && polys[q].explored && !polys0[q].explored ==>
              q in c.mergeList || q in c.draw
  {
    assert c.exploreList[..|c.exploreList|] == c.exploreList;
  }

  /** The outer loop of `explore` from cursor `i` on, up to the point where the
      cursor passes the end of the explore list. */
  method ExploreFrom(ghost polys0: seq<Polygon>, ghost hs0: seq<Polyhedron>, chosen: seq<nat>, ghost e0: seq<nat>,
                     polys: seq<Polygon>, hs: seq<Polyhedron>, c: Conglomerate, i: nat)
    returns (polys': seq<Polygon>, hs': seq<Polyhedron>, c': Conglomerate)
    requires ExploreInv(polys0, hs0, chosen, e0, polys, hs, c, i)
    requires forall h :: 0 <= h < |hs0| ==> MembersIn(hs0[h].polygons, |polys0|)
    requires forall x :: x in chosen ==> x < |hs0|
    ensures ExploreInv(polys0, hs0, chosen, e0, polys', hs', c', |c'.exploreList|)
    ensures c'.name == c.name && c'.collected[0] == c.collected[0]
    ensures (polys', hs', c') == ExploreRun(chosen, polys, hs, c, i)
    decreases |Pending(chosen, c.collected)|, |c.exploreList| - i
  {
    if i == |c.exploreList| {
      return polys, hs, c;
    }
    var p1, h1, c1 := ExploreStep(polys0, hs0, chosen, e0, polys, hs, c, i);
    polys', hs', c' := ExploreFrom(polys0, hs0, chosen, e0, p1, h1, c1, i + 1);
  }

  /** What `explore` leaves behind, from arenas `polys` and `hs` and the fresh
      conglomerate `c` to `polys'`, `hs'` and `c'`.

      Whatever the arenas hold: only explored flags change, gathered polyhedra
      are drawn ones, distinct, and marked explored, every member of a gathered
      polyhedron is met, and both lists only hold polygons met and classified.
      When polygons and polyhedra agree on ownership: every polygon met is
      classified, merged polygons have both owners gathered and are never drawn,
      drawn polygons are not shared by two gathered polyhedra, and no polygon
      met for the first time here has a drawn owner left outside. */
  ghost predicate ExploreOutcome(polys: seq<Polygon>, hs: seq<Polyhedron>, chosen: seq<nat>, c: Conglomerate,
                                 polys': seq<Polygon>, hs': seq<Polyhedron>, c': Conglomerate)
    requires Fresh(c, hs)
    requires forall x :: x in chosen ==> x < |hs|
  {
    && ExploreKeeps(polys, hs, c, polys', hs', c')
    && ExploreGathered(hs, chosen, hs', c')
    && ExploreSorted(polys, hs, chosen, polys', c')
  }

  /** The frame of `explore`: only explored flags change, and only the
      starting polyhedron's member list (it becomes the explore list). */
  ghost predicate ExploreKeeps(polys: seq<Polygon>, hs: seq<Polyhedron>, c: Conglomerate,
                               polys': seq<Polygon>, hs': seq<Polyhedron>, c': Conglomerate)
    requires Fresh(c, hs)
  {
    && FlagsOnly(polys', polys)
    && |hs'| == |hs|
    && (forall h :: 0 <= h < |hs| ==>
       hs'[h] == hs[h].(explored := hs'[h].explored,
                        polygons := if h == c.collected[0] then c'.exploreList else hs[h].polygons))
    && (forall h :: 0 <= h < |hs| && hs[h].explored ==> hs'[h].explored)
    && c'.name == c.name && c'.outline == c'.draw
    && |c'.collected| >= 1 && c'.collected[0] == c.collected[0] && Distinct(c'.collected)
    && |c.exploreList| <= |c'.exploreList| && c'.exploreList[..|c.exploreList|] == c.exploreList
  }

  /** The polyhedra `explore` gathers: drawn ones, marked explored, whose
      members are all met. */
  ghost predicate ExploreGathered(hs: seq<Polyhedron>, chosen: seq<nat>, hs': seq<Polyhedron>, c': Conglomerate)
    requires |hs'| == |hs| && |c'.collected| >= 1 && c'.collected[0] < |hs|
    requires forall x :: x in chosen ==> x < |hs|
  {
    && (forall k :: 1 <= k < |c'.collected| ==> c'.collected[k] in chosen && hs'[c'.collected[k]].explored)
    && (forall k, f :: 0 <= k < |c'.collected| && f in hs[c'.collected[k]].polygons ==> f in c'.exploreList)
  }

  /** How `explore` sorts the polygons it meets into the merge list and the
      draw list. */
  ghost predicate ExploreSorted(polys: seq<Polygon>, hs: seq<Polyhedron>, chosen: seq<nat>,
                                polys': seq<Polygon>, c': Conglomerate)
    requires |polys'| == |polys|
  {
    && Within(c'.mergeList, c'.exploreList) && Within(c'.draw, c'.exploreList)
    && MembersIn(c'.exploreList, |polys|)
    && ExploredAll(polys', c'.mergeList) && ExploredAll(polys', c'.draw)
    && (Ownership(polys, hs) ==> ExploredAll(polys', c'.exploreList))
    && (Ownership(polys, hs) ==>
       forall q :: q in c'.mergeList ==> SharedByCollected(polys[q], c'.collected) && q !in c'.draw)
    && (Ownership(polys, hs) ==>
       forall q :: q in c'.draw ==> Settled(polys[q], c'.collected, chosen) && !SharedByCollected(polys[q], c'.collected))
    && (Ownership(polys, hs) ==>
       forall q :: q in c'.exploreList && !polys[q].explored ==> Settled(polys[q], c'.collected, chosen))
    && (forall q :: 0 <= q < |polys| && polys'[q].explored && !polys[q].explored ==>
       q in c'.mergeList || q in c'.draw)
  }

  /** `explore`: gathers into the conglomerate every drawn polyhedron reachable
      from the starting one through shared polygons, and sorts the polygons met
      into the draw lists and the merge list. The explore list is the starting
      polyhedron's own member list, so the polygons appended to it end up among
      that polyhedron's members. */
  method Explore(polys: seq<Polygon>, hs: seq<Polyhedron>, chosen: seq<nat>, c: Conglomerate)
    returns (polys': seq<Polygon>, hs': seq<Polyhedron>, c': Conglomerate)
    requires Fresh(c, hs)
    requires forall h :: 0 <= h < |hs| ==> MembersIn(hs[h].polygons, |polys|)
    requires forall x :: x in chosen ==> x < |hs|
    ensures ExploreOutcome(polys, hs, chosen, c, polys', hs', c')
    ensures (polys', hs', c') == ExploreResult(polys, hs, chosen, c)
    ensures Distinct(c'.draw)
  {
    var initial := c.collected[0];
    var hsCur;
    ExploreStart(polys, hs, chosen, c);
    polys', hsCur, c' := ExploreFrom(polys, hs, chosen, c.exploreList, polys, hs, c, 0);
    ExploreDone(polys, hs, chosen, c.exploreList, polys', hsCur, c');
    hs' := hsCur[initial := hsCur[initial].(polygons := c'.exploreList)];
    ExploreRunDrawsOnce(chosen, polys, hs, c, 0);
  }
}
