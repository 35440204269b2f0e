# Polyhedral scene generator — a Dafny model

The generator builds a random scene of convex polyhedra. It starts with random
planes that cut the unit sphere. Each pair of planes that meets inside the
sphere gives a line. Each line meets the other planes in points. The points are
sorted along their lines, and the short segments between them are walked into
polygons (faces). The faces are then assembled into closed polyhedra.

A random subset of the polyhedra is drawn. Each drawn polyhedron's faces are
turned counter-clockwise as seen from outside. Drawn polyhedra that share a face
form one conglomerate. Within a conglomerate the shared faces are dropped, and
the faces that meet across their edges are fused into larger outline polygons.
The outlines are written as a Wavefront OBJ file. A small front end turns the
command line into the plane count, the drawing probability and the file name.
A separate Unity script doubles a mesh's faces so that its back sides show.

The model keeps every entity in an arena: a sequence of lines, points, polygons
and polyhedra. Entities refer to each other by position in these sequences. A
Java `null` or a missing index becomes a `Failure` with a named fault, and so
does a `System.exit`. Floating-point geometry is not computed. Each geometric
test is a parameter of the operation that needs it: "does this pair of planes
meet inside the sphere", "where does this line cross this plane", "which side
of this line is this point on", "do these three points run counter-clockwise".
The random draw is a parameter too. So every property below holds for every
answer those tests could give.

Modules follow the source's classes:

- `PointOrder`: the point comparator and the sort of a line's points.
- `Lines`: the line operations.
- `Points`: the point operations.
- `Polygons`: the polygon operations.
- `Polyhedra`: the polyhedron operations.
- `Cyclic`: `get_next` stepping around a polygon.
- `Catalog`: building the lines and points in `create_scene`.
- `FaceWalk`: `create_polygon` and the half-edge loop that calls it.
- `PolygonEdges`: `update_polygon_edges`.
- `Assembly`: `create_polyhedra`.
- `Conglomerates`: `explore`.
- `Merging`: `merge`.
- `Fusion`: `combine_polygons` and `merge_lists`.
- `ObjExport`: `output_to_file`.
- `Scene`: the drawing and conglomerate loops of `create_scene`.
- `CommandLine`: `Main`.
- `DoubleFaces`: the Unity mesh script.
- `Seqs` and `Wrappers`: helpers.

## Model

| member | source | states |
|---|---|---|
| PointOrder.Compare | poly-scene-generator/source/PointComparator.java:27-63 | Returns 0 exactly for equal coordinates. Returns -1 exactly when the first point goes first: it has the larger x, or the same x and the larger y, or the same x and y and the smaller z. Returns 1 exactly when the second point goes first. |
| PointOrder.CompareAntisymmetric | poly-scene-generator/source/PointComparator.java:27-63 | Swapping the arguments negates the answer. |
| PointOrder.PrecedesIsStrictTotalOrder | poly-scene-generator/source/PointComparator.java:29-62 | The order the comparator decides is irreflexive, transitive and total on distinct coordinates. So sorting with it is well defined. |
| PointOrder.Insert | poly-scene-generator/source/PointComparator.java:27-63 | Inserting into a sorted list keeps it sorted and adds exactly the one element. |
| PointOrder.SortIds | poly-scene-generator/source/Line.java:80-85 | The result is sorted by the comparator and is a permutation of the input. |
| Lines.AddPoint | poly-scene-generator/source/Line.java:66-69 | Appends exactly one point at the end. Planes and grids are untouched. |
| Lines.SortPoints | poly-scene-generator/source/Line.java:73-86 | A line with no points is unchanged. Otherwise the points become a sorted permutation of the old ones, and four all-false grids of one cell per segment are allocated. |
| Lines.FindIndex | poly-scene-generator/source/Line.java:89-99 | Returns -1 exactly when the point is absent. Otherwise returns the first position that holds it. |
| Lines.MarkSegment | poly-scene-generator/source/Line.java:102-126 | Sets exactly one cell: segment `i`, on the plane-1 grids when the plane is the line's first plane (plane-2 otherwise), on the grid of the side. Every other cell keeps its value. |
| Lines.CellsDetermineLine | poly-scene-generator/source/Line.java:102-126 | A line is fully determined by its planes, points and cells, which makes the frame condition of `MarkSegment` complete. |
| Lines.MarkSegmentIdempotent | poly-scene-generator/source/Line.java:102-126 | Marking the same half-edge twice equals marking it once. |
| Lines.SideOfTag | poly-scene-generator/source/Line.java:108-125 | The greater grid is chosen exactly when the tag equals "greater" ignoring ASCII case. |
| Lines.SideOfTagExamples | poly-scene-generator/source/Line.java:108-125 | "greater" in any case selects the greater side. "lesser", "greaterx" and "" select the lesser one. |
| Points.FirstSharedLine | polyhedral-scene-generator-main/source/Point.java:77-93 | None exactly when the points share no line. Otherwise it is a shared line, and no earlier line of the first point is shared. |
| Points.GetCommonLine | polyhedral-scene-generator-main/source/Point.java:70-94 | The same point twice is a `SamePoint` failure. Two points with no common line are a `NoCommonLine` failure. Otherwise the result is the first of the receiver's lines that the other point also lies on. |
| Points.GetNextLine | polyhedral-scene-generator-main/source/Point.java:100-118 | Fails exactly when none of the point's lines other than `current` lies in the plane. Otherwise the result is the first such line, in line1, line2, line3 order. |
| Polygons.NewPolygon | polyhedral-scene-generator-main/source/Polygon.java:43-49 | The two-point constructor: exactly `[first, second]` on the plane, with no marks, owners or child. |
| Polygons.SetPolyhedra | polyhedral-scene-generator-main/source/Polygon.java:73-89 | Succeeds exactly when fewer than two owners are recorded, and then appends the owner. A third owner is a `ThirdPolyhedron` failure. Nothing but the owners changes. |
| Polygons.SetPolyhedraFillsInOrder | polyhedral-scene-generator-main/source/Polygon.java:73-89 | Starting with no owners, the first owner fills slot one and the second fills slot two. A third owner fails. |
| Polygons.ReversePoints | polyhedral-scene-generator-main/source/Polygon.java:163-171 | Point `k` of the result is point `n-1-k` of the input. Nothing else changes. |
| Polygons.CurrentChild | polyhedral-scene-generator-main/source/Polygon.java:92-99 | The result has no child and is not below the start. A polygon with no child is its own current child. |
| Polygons.CurrentChildIsChainEnd | polyhedral-scene-generator-main/source/Polygon.java:92-99 | Following child pointers as often as the arena is long reaches exactly the current child. |
| Polygons.SetChild | polyhedral-scene-generator-main/source/Polygon.java:101-111 | Writes exactly one link, on the last polygon of the chain. Every other polygon is untouched. |
| Polygons.SetChildRedirects | polyhedral-scene-generator-main/source/Polygon.java:101-111 | Every polygon whose chain ended where `p`'s did now resolves to `c`'s current child. Every other polygon resolves as before. |
| Polygons.SetChildReachesChild | polyhedral-scene-generator-main/source/Polygon.java:101-111 | With a childless `c`, `p` resolves to `c` afterwards. |
| Cyclic.GetNext | polyhedral-scene-generator-main/source/Polygon.java:135-149 | For a step of ±1 from a valid index, the result is a valid index. |
| Cyclic.GetNextIsModStep | polyhedral-scene-generator-main/source/Polygon.java:135-149 | For a step of ±1 from a valid index, the result equals `(current + increment) mod n`. |
| Cyclic.GetNextInverse | polyhedral-scene-generator-main/source/Polygon.java:135-149 | A step forward and a step back return to the start. |
| Cyclic.WalkClosedForm | polyhedral-scene-generator-main/source/Polygon.java:135-149 | Fewer than `n` steps land at the index given by offset arithmetic with a single wrap. |
| Cyclic.WalkReaches | polyhedral-scene-generator-main/source/Polygon.java:135-149 | Every index is reached from every other in fewer than `n` steps, and no earlier step reaches it. This is why the loops of `merge_lists` end. |
| Polyhedra.SetPolygonReferences | polyhedral-scene-generator-main/source/Polyhedron.java:47-53 | Succeeds exactly when no polygon would end up with more than two owners. On success each polygon gains the polyhedron as owner once per occurrence in the member list, and nothing else changes. |
| Polyhedra.AddOwnersOwned | polyhedral-scene-generator-main/source/Polyhedron.java:47-53 | Naming polyhedron `id` on the members fails only with `ThirdPolyhedron`. Otherwise each polygon gains `id` once for each time it occurs among the members, and nothing else changes. |
| Polyhedra.AddOwnersIff | polyhedral-scene-generator-main/source/Polyhedron.java:47-53 | Naming succeeds exactly when no polygon would end up with more than two owners. |
| Polyhedra.FindPolygonInPlane | polyhedral-scene-generator-main/source/Polyhedron.java:158-170 | Fails exactly when no member lies in the plane. Otherwise returns the first member that does. |
| Polyhedra.FirstOtherWith | polyhedral-scene-generator-main/source/Polyhedron.java:71-79 | The first member other than the polygon itself that contains point `a`, or -1 when there is none. |
| Polyhedra.FirstNotIn | polyhedral-scene-generator-main/source/Polyhedron.java:82-90 | The first point of the neighbour that is not in the polygon, or -1 when there is none. |
| Polyhedra.OrientMember | polyhedral-scene-generator-main/source/Polyhedron.java:62-124 | Fewer than three points is exactly the index fault. With three or more, the call fails with a null dereference exactly when no other member holds the first point, or the first such member has no point outside the polygon. It succeeds exactly otherwise. On success, when the winding test reports counterclockwise the polygon is kept; otherwise its points are exactly reversed. No other polygon changes. |
| Polyhedra.OrientKeeps | polyhedral-scene-generator-main/source/Polyhedron.java:62-124 | Orienting a member keeps every polygon either as it was or exactly reversed, with the same multiset of points. |
| Polyhedra.MakePolygonPointsCcw | polyhedral-scene-generator-main/source/Polyhedron.java:60-125 | The result is that of orienting the members one after another with `OrientMember`, stopping at the first fault, with the winding answer for each. On success every polygon keeps its points or has them exactly reversed, keeping its multiset of points. Non-members are untouched, and every member had at least three points. |
| Catalog.BuildLines | poly-scene-generator/source/Model.java:95-163 | The lines are exactly the plane pairs i < j that the sphere test keeps, each once, in visiting order. They start with no points and no grids. |
| Catalog.PointExists | poly-scene-generator/source/Model.java:176-194 | True exactly when a recorded point has all three of its planes among the plane and the line's two planes. |
| Catalog.FindOtherLines | poly-scene-generator/source/Model.java:226-252 | Returns the first two later lines formed by the plane and one of the line's planes. Fewer than two is a `MatchingLinesNotFound` failure. |
| Catalog.AttachToLines | poly-scene-generator/source/Model.java:258-262 | The new point's id is appended to exactly its three lines. |
| Catalog.VisitTriple | poly-scene-generator/source/Model.java:168-263 | For line `i` and plane `j`: when the plane is one of the line's, a point on the three planes exists, or there is no intersection inside the sphere, nothing changes. Otherwise the point at the intersection, on plane `j` and the line's two planes, is appended with the next id. That happens exactly unless fewer than two later lines pair the plane with one of the line's planes, which is the `MatchingLinesNotFound` failure. The catalogue invariant holds afterwards. |
| Catalog.BuildPoints | poly-scene-generator/source/Model.java:165-265 | Every recorded point lies on exactly its three lines, which lie in its three planes, and sits at the intersection of its first line and plane. No two points share a plane triple. Every line and plane that meet inside the sphere, the plane not being one of the line's, are covered by a point on those three planes. A failure is `MatchingLinesNotFound`, and then some such pair has fewer than two later partner lines. |
| Catalog.SortAllLines | poly-scene-generator/source/Model.java:267-271 | Each line with points gets sized all-false grids and comparator-sorted points. Each point still lies on exactly its three lines. |
| FaceWalk.NextSide | poly-scene-generator/source/Model.java:806-835 | The new edge's face side is greater exactly when the previous point lies above the new line through the candidate. |
| FaceWalk.PickCandidate | poly-scene-generator/source/Model.java:710-804 | The lower neighbour is tried before the upper one, each only when it lies on the face's side. `None` means neither qualifies. |
| FaceWalk.WalkStep | poly-scene-generator/source/Model.java:692-850 | The step follows the probe of the next line: `get_next_line` through the current point, the point's index on that line, and `PickCandidate`. A probe fault is passed on. With no candidate the attempt is dropped and the marks are unchanged. A candidate equal to the first point closes the walk. Any other candidate continues it with the crossing: the candidate appended, the segment marked, the side from `NextSide`. Closing and continuing keep the walk invariant. |
| FaceWalk.Probe | poly-scene-generator/source/Model.java:697-776 | A fault is `NoNextLine` or `PointNotOnLine`. On success the next line continues in the plane from a different line, holds the current point and is sized, and a picked candidate lies on it with a valid segment index. |
| FaceWalk.WalkFrom | poly-scene-generator/source/Model.java:692-851 | The `do … while` loop as the fold of `WalkStep`, with `fuel` bounding the steps. It ends only by closing or dropping the attempt, by a step's fault, or with `Diverged`. A closed walk keeps the walk invariant and its last point is adjacent to the first on a line of the plane. A dropped walk leaves the marks ready for the next attempt. |
| FaceWalk.CreatePolygon | poly-scene-generator/source/Model.java:676-851 | The outcome is the walk that `StartWalk` begins on the half-edge (segment `j` marked), run through `WalkFrom`. Its fault is passed on. A closed walk sets the line marks and appends exactly one polygon on the plane, named as given, holding the walk's points. A dropped walk keeps its marks and adds no polygon. |
| FaceWalk.CreatePolygonKeeps | poly-scene-generator/source/Model.java:676-851 | Only marks change on the lines, and the starting half-edge ends up used. The polygon list grows by at most one. An added polygon starts with the half-edge's two points and does not come back to the first one. Its consecutive points are adjacent on lines of its plane, and it has no marks, owners or child. |
| FaceWalk.VisitHalfEdge | poly-scene-generator/source/Model.java:289-301 | A used half-edge changes nothing. For an unused one, the result is exactly `CreatePolygon` from its segment, on the half-edge's plane and side: its fault, or its scene. The running polygon name advances exactly when a polygon was added. |
| FaceWalk.VisitHalfEdgeKeeps | poly-scene-generator/source/Model.java:289-301 | Afterwards the half-edge is used, marks have only grown, polygons are still named 0, 1, … in order, and the running name is their count. |
| FaceWalk.SegmentFrom | poly-scene-generator/source/Model.java:288-337 | Visiting the segment's half-edges from the `k`-th on keeps the scene ready for walks. Marks only grow, polygons stay named in order, and faults are those of the walk. |
| FaceWalk.SegmentFromUses | poly-scene-generator/source/Model.java:288-337 | After the visits from the `k`-th on, each of those half-edges is used. |
| FaceWalk.VisitSegment | poly-scene-generator/source/Model.java:288-337 | The result is `SegmentFrom` from the first check. That means `VisitHalfEdge` on the four half-edges in the source's order (plane 1 greater, plane 1 lesser, plane 2 greater, plane 2 lesser), stopping at the first fault. Afterwards all four are used and the segment counts as consumed. |
| FaceWalk.EnumerateFrom | poly-scene-generator/source/Model.java:274-339 | The enumeration from segment `j` of line `i` on keeps the scene ready for walks. Marks only grow, polygons stay named in order with the running name their count, and faults are those of the walk. |
| FaceWalk.EnumerateLine | poly-scene-generator/source/Model.java:276-338 | The inner loop over line `i`'s segments is the fold's part for that line. A failure is the fold's failure. On success the fold goes on from the next line, and every half-edge of line `i` is used. |
| FaceWalk.EnumerateAdvance | poly-scene-generator/source/Model.java:276-338 | One pass of the inner loop advances the fold by exactly one segment, or fails with the fold's failure. |
| FaceWalk.EnumerateHalfEdges | poly-scene-generator/source/Model.java:274-339 | The result is the fold `EnumerateFrom` from the first segment of the first line: `VisitSegment` on every segment, in line order and segment order, stopping at the first fault. Afterwards every half-edge of every line with at least two points is used, and polygon `k` carries name `k`. |
| PolygonEdges.Ring | poly-scene-generator/source/Model.java:592-610 | The boundary of a point cycle: one pair per consecutive point, including last to first. |
| PolygonEdges.EdgesOf | poly-scene-generator/source/Model.java:592-639 | One edge per boundary pair, each on the first line its ends share (line1, line2, line3 order). No points, or two points sharing no line, is a failure. |
| PolygonEdges.ToggleCount | poly-scene-generator/source/Model.java:649-668 | Toggling an edge changes its own pair's count by one: down when a matching edge was waiting, up otherwise. Other pairs are unchanged. |
| PolygonEdges.RingEdges | poly-scene-generator/source/Model.java:592-639 | One edge per boundary pair of the polygon, in boundary order. |
| PolygonEdges.UpdatePolygonEdges | poly-scene-generator/source/Model.java:590-673 | For the first polygon the polygon's edges are appended to the waiting list. For any later polygon each of its edges in turn removes the first waiting edge on the same pair, or is appended when there is none. The waiting count of every point pair changes parity by the number of times that pair lies on the polygon's boundary. |
| Assembly.ThirdPoint | poly-scene-generator/source/Model.java:480-489 | None exactly when every point is one of the edge's ends. Otherwise it is the first point that is neither. |
| Assembly.MatchingPlane | poly-scene-generator/source/Model.java:441-453 | The edge line's plane that is not the edge's own plane, or its second plane when both are. |
| Assembly.FindMatch | poly-scene-generator/source/Model.java:456-502 | Returns the first fitting candidate in arena order, and no earlier polygon fits. A two-point candidate with no third point is a null dereference. |
| Assembly.GrowNextCases | poly-scene-generator/source/Model.java:438-545 | A growth step on the oldest waiting edge `e`. A failed search for the polygon across it is a null dereference. No polygon across it fails the polyhedron and drops `e`. A polygon `m` across it joins the members, and its face side towards the creator's third point is marked. The failure flag is kept, and `m`'s edges are toggled into the waiting list. |
| Assembly.GrowStep | poly-scene-generator/source/Model.java:438-545 | One pass of the loop body is exactly the step `GrowNext` that `GrowNextCases` describes. |
| Assembly.GrowNextKeeps | poly-scene-generator/source/Model.java:438-545 | A step keeps the growth invariant, never clears the failure flag, and only appends members. |
| Assembly.GrowLoop | poly-scene-generator/source/Model.java:438-546 | The loop is the fold `GrowFrom` of growth steps, run until no edge waits, with `fuel` bounding the steps. |
| Assembly.GrowAdvance | poly-scene-generator/source/Model.java:438-546 | One pass advances the fold by one step, or fails with the fold's failure. |
| Assembly.GrowFromKeeps | poly-scene-generator/source/Model.java:438-546 | The growth loop ends with the growth invariant and no edge waiting. |
| Assembly.GrowFromFaults | poly-scene-generator/source/Model.java:438-546 | Its faults are those of its steps or `Diverged`, and a failed growth stays failed. |
| Assembly.GrowOf | poly-scene-generator/source/Model.java:410-554 | Growing from a face side: marks only grow, the side is marked, and the start polygon is the first member. When nothing failed, every point pair lies on an even number of member edges, so the members form a closed surface. |
| Assembly.GrowPolyhedron | poly-scene-generator/source/Model.java:410-545 | The result is `GrowOf`: the side marked, the polygon's edges queued, and the loop `GrowFrom` run from there. |
| Assembly.TryFaceSide | poly-scene-generator/source/Model.java:403-554 | The result is `FaceSide`. A marked side adds nothing. Otherwise a growth fault is passed on, and a failed growth keeps the polyhedron list. A growth that did not fail appends exactly one polyhedron, holding its members and named with the next number. |
| Assembly.FaceSideKeeps | poly-scene-generator/source/Model.java:403-554 | A face side keeps the assembly invariant. Marks only grow, the side ends up marked, and at most one polyhedron is added, starting at `p`. |
| Assembly.AssembleFromKeeps | poly-scene-generator/source/Model.java:398-556 | From polygon `p` on, both face sides of every polygon end up marked, and the assembly invariant holds. |
| Assembly.CreatePolyhedra | poly-scene-generator/source/Model.java:393-557 | The result is `AssembleFrom`: `FaceSide` on the greater and then the lesser side of each polygon, in arena order. Both sides of every polygon end up marked. The polyhedra are named 0, 1, … and each is a closed surface. Each polygon's recorded owners are exactly the polyhedra that list it. |
| Conglomerates.AddFaces | polyhedral-scene-generator-main/source/Conglomerate.java:75-86 | Equals `AddFacesFold`, the faces taken in order. A face not yet on the explore list is appended to it. A face already there is marked explored and queued for merging. |
| Conglomerates.ExploreStep | polyhedral-scene-generator-main/source/Conglomerate.java:52-123 | Equals `ExploreNext`, and states its three cases. An explored polygon at the cursor changes nothing. An unexplored one with no drawn owner outside the conglomerate is marked explored and appended to the draw and outline lists. Otherwise `GatheredOwner` is gathered and marked explored (the first owner when it is a drawn one outside, else the second). Its faces then go through the face loop. The explore invariant holds afterwards; with agreeing owners, it says that no drawn polygon is shared by two gathered polyhedra. |
| Conglomerates.GatherStep | polyhedral-scene-generator-main/source/Conglomerate.java:67-108 | The gathering case of one pass, which equals `ExploreNext`. The gathered owner is the first owner when it is a drawn polyhedron outside the conglomerate, else the second. It is gathered and marked explored, its members go through the face loop, and fewer drawn polyhedra remain outside. |
| Conglomerates.ExploreFrom | polyhedral-scene-generator-main/source/Conglomerate.java:52-123 | Equals `ExploreRun`, the fold of `ExploreNext` from cursor `i` until the cursor passes the end of the explore list. The explore invariant holds at the end. |
| Conglomerates.Explore | polyhedral-scene-generator-main/source/Conglomerate.java:38-124 | Equals `ExploreResult`: the fold from the first polygon, with the final explore list written back as the starting polyhedron's member list. It also ensures `ExploreOutcome`. Apart from explored flags, only that member list changes. Gathered polyhedra are drawn, distinct and explored, and all their members are met. No polygon is drawn twice. Every polygon it marks explored is on the merge list or the draw list. With agreeing owners: merged polygons have both owners gathered and are never drawn, and drawn polygons are not shared by two gathered polyhedra. Also, no polygon met here has a drawn owner left outside. |
| Conglomerates.ExploreRunDrawsOnce | polyhedral-scene-generator-main/source/Conglomerate.java:52-123 | The exploration fold never puts a polygon on the draw list twice, because it draws a polygon only while it is unexplored and then marks it explored. |
| Merging.LinkBothRedirects | polyhedral-scene-generator-main/source/Conglomerate.java:201-202 | After both parents are linked to the new polygon, every chain that ended at either parent ends at the child, and every other chain is unchanged. |
| Merging.FindAcross | polyhedral-scene-generator-main/source/Conglomerate.java:148-170 | A failure of `get_common_line` is passed on. Otherwise the plane across the edge is the common line's first plane when it differs from the polygon's own, and else its second. The two polygons returned are exactly what `find_polygon_in_plane` gives on the polygon's first and second owner. A line whose planes both equal the polygon's is a `LinePlanesEqual` failure. A missing owner is a null dereference. |
| Merging.MergeEdge | polyhedral-scene-generator-main/source/Conglomerate.java:136-203 | The edge runs from point `i` to the next point, wrapping at the end. A lookup failure is passed on. When either polygon found is on the merge list, or both chains end at the same polygon, nothing changes. Otherwise the ends of the two chains are fused: a `combine_polygons` failure is passed on, and on success a new polygon named `name` is appended on the plane. Both ends now forward to it, it replaces them on the outline, and the name advances by one. A successful pass changes nothing exactly when the edge is skipped. |
| Merging.FuseEdge | polyhedral-scene-generator-main/source/Conglomerate.java:178-202 | The fusing half of a pass, on its own: a `combine_polygons` failure is passed on, otherwise exactly one new polygon is appended and both chain ends forward to it. |
| Merging.MergeEdgeKeepsInv | polyhedral-scene-generator-main/source/Conglomerate.java:136-203 | Every successful pass keeps the invariant of `merge`: consistent arenas, old polygons changed only by forwarding pointers, fresh names, and a current outline that still represents every polygon it held. |
| Merging.MergeEdgesKeepsInv | polyhedral-scene-generator-main/source/Conglomerate.java:136-203 | The inner loop over all edges of a merge-list polygon keeps the same invariant. |
| Merging.MergeFromKeepsInv | polyhedral-scene-generator-main/source/Conglomerate.java:131-204 | The outer loop over the merge list keeps the same invariant. |
| Merging.MergePolygon | polyhedral-scene-generator-main/source/Conglomerate.java:136-203 | The inner loop's result is that of the passes over the polygon's edges in order, stopping at the first fault. |
| Merging.MergeAll | polyhedral-scene-generator-main/source/Conglomerate.java:131-204 | The outer loop's result is that of the inner loops over the merge list in order, stopping at the first fault. |
| Merging.Merge | polyhedral-scene-generator-main/source/Conglomerate.java:129-207 | The result is that of visiting every edge of every merge-list polygon in order with `MergeEdge`, stopping at the first fault. Only the outline list changes, and the old polygons only gain child links. A current outline stays current and distinct, and every polygon it held is represented by the end of its chain. The returned name is one past the last one used. |
| Fusion.CollectArc | polyhedral-scene-generator-main/source/Conglomerate.java:315-320 | Collects the points from `a` to `b` in the given direction, both ends included. |
| Fusion.ArcToShape | polyhedral-scene-generator-main/source/Conglomerate.java:315-320 | An arc starts at `s[a]`, ends at `s[b]`, never laps the cycle, and holds only points of the polygon. |
| Fusion.MergeLists | polyhedral-scene-generator-main/source/Conglomerate.java:297-341 | The result is the first shared end, the first polygon's arc, the second shared end, then the second polygon's arc. |
| Fusion.Extend | polyhedral-scene-generator-main/source/Conglomerate.java:259-263 | Counting from the index pair the first step reaches, returns the first step at which the two polygons' points differ; all earlier steps agree. If they agree on every step up to the product of their sizes, the loop never ends and the result is `Diverged`. |
| Fusion.FirstDisagreementUnique | polyhedral-scene-generator-main/source/Conglomerate.java:259-277 | A search has only one first step where the points differ. |
| Fusion.ProbeOf | polyhedral-scene-generator-main/source/Conglomerate.java:214-252 | The `find_point` indices of the edge's ends are -1 or valid indices, and valid ones whenever both ends lie on both polygons. Indices of the same end in the two polygons hold the same point. The search directions are each +1 or -1. |
| Fusion.FindSeam | polyhedral-scene-generator-main/source/Conglomerate.java:214-281 | On success the result is the seam: each search stops at the first step where the polygons differ, the arcs start and end there, and the shared ends are one step back towards the edge. A first step before the run that leaves a polygon is an index fault. An index fault happens only when a first step leaves a polygon. The only other failure is `Diverged`. |
| Fusion.SeamOfSearches | polyhedral-scene-generator-main/source/Conglomerate.java:254-281 | Two searches that both stop give the seam. |
| Fusion.SeamUnique | polyhedral-scene-generator-main/source/Conglomerate.java:214-281 | An edge has at most one seam, so `FindSeam` describes the source's result exactly. |
| Fusion.SeamEndsShared | polyhedral-scene-generator-main/source/Conglomerate.java:265-281 | When both ends of the edge lie on both polygons, both shared ends of the seam are points of both polygons. |
| Fusion.MergedFacts | polyhedral-scene-generator-main/source/Conglomerate.java:283-341 | A list built from a seam has at least four points, all from the two polygons, and shared points at the front and right after the first arc when the edge lies on both. |
| Fusion.Combine | polyhedral-scene-generator-main/source/Conglomerate.java:212-289 | On success the result is the seam's first shared end, the first polygon's unshared arc, the other shared end and the second polygon's unshared arc, for the one seam of the edge. Failures are index faults and `Diverged` only. A first step that leaves a polygon is an index fault; an edge on both polygons never gives one. On success there are at least four points, all from the two polygons. When the edge lies on both, the first point and one later point are shared by both. |
| Fusion.CombinePolygons | polyhedral-scene-generator-main/source/Conglomerate.java:212-341 | The walk loops of `merge_lists` build exactly the list `Combine` describes. |
| ObjExport.WritePolygon | poly-scene-generator/source/Model.java:903-920 | One vertex record per point in order, then the face `-n … -1`. |
| ObjExport.ReadBlock | poly-scene-generator/source/Model.java:903-920 | Reading a polygon's block back adds its points as vertices and, as the newest face, exactly those points in order. |
| ObjExport.OutputToFile | poly-scene-generator/source/Model.java:887-932 | The file starts with the header. Read back, every face index resolves, and the faces are exactly each conglomerate's outline polygons in order. |
| Scene.PolygonsOfMembers | poly-scene-generator/source/Model.java:351-361 | A polygon is collected exactly when some chosen polyhedron lists it. |
| Scene.DrawPolyhedron | poly-scene-generator/source/Model.java:354-359 | For a visible polyhedron, the polygons become exactly the `OrientFrom` fold of `OrientMember` over its members, and a failure is that fold's fault. The polyhedron is marked drawn, its polygons are collected, and it joins the chosen list. |
| Scene.ChooseTurn | poly-scene-generator/source/Model.java:349-361 | One turn of the drawing loop is one step of `TurnFrom`: an invisible polyhedron is passed over and a visible one is drawn. |
| Scene.ChoosePolyhedra | poly-scene-generator/source/Model.java:349-361 | The polygons are exactly `TurnFrom`: the members of each visible polyhedron oriented in turn, stopping at the first fault, which is then the result's. The chosen list holds exactly the visible polyhedra, in increasing order. Visible polyhedra are marked drawn and the others are unchanged. |
| Scene.GatherConglomerate | poly-scene-generator/source/Model.java:372-378 | Satisfies `GatheredFrom`: the result is Merge's fold `MergeFrom` applied to `ExploreResult`. That is the exploration fold, started from the polyhedron marked explored and a fresh conglomerate with the given number, and it satisfies `ExploreOutcome`. The polyhedron ends up explored, the conglomerate keeps its number, and the outline lies in the arena. |
| Scene.GatherTurn | poly-scene-generator/source/Model.java:366-383 | One turn of the conglomerate loop. An explored polyhedron is passed over. An unexplored one starts conglomerate number `|congloms|`, which joins the trace with its stage. |
| Scene.GathersGrow | poly-scene-generator/source/Model.java:366-383 | A newly gathered conglomerate extends the trace, and the earlier ones keep their places. |
| Scene.BuildConglomerates | poly-scene-generator/source/Model.java:366-383 | Ends in `BuildState` at the end of the chosen list. Its trace says that conglomerate `k` is `GatheredFrom` stage `k`, is numbered `k`, starts from the chosen polyhedron at position `starts[k]` (unexplored in that stage), and leaves stage `k + 1`. Every chosen polyhedron between two starts was already explored in its stage. Every chosen polyhedron ends up explored. |
| Scene.DrawAndGather | poly-scene-generator/source/Model.java:349-383 | Satisfies `SceneBuilt`. The polygons are first turned by `TurnFrom` and the visible polyhedra marked drawn. The conglomerates are then exactly those the conglomerate loop gathers over the visible polyhedra in order, and the last stage's polygons are returned. A `TurnFrom` failure is the result's fault. Conglomerate `k` is named `k`, starts from a visible polyhedron, and its outline polygons and their points exist. |
| Scene.SceneFromParts | poly-scene-generator/source/Model.java:349-383 | The drawing loop's `TurnFrom` result and the conglomerate loop's trace together give `SceneBuilt`. |
| Scene.FinishScene | poly-scene-generator/source/Model.java:349-385 | Satisfies `SceneBuilt`, as `DrawAndGather` does, and a `TurnFrom` failure is the result's fault. The written file starts with the header. Read back, it holds exactly the outline polygons of those conglomerates, in order. |
| CommandLine.IsPositiveInteger | polyhedral-scene-generator-main/source/Main.java:94-118 | True exactly when the text is non-empty and parses to a value above zero. |
| CommandLine.IsDouble | polyhedral-scene-generator-main/source/Main.java:121-137 | True exactly when the text is non-empty and parses. |
| CommandLine.PlaneCount | polyhedral-scene-generator-main/source/Main.java:33-40 | Always positive. It is the first argument's value when that is a positive integer, and otherwise 10. |
| CommandLine.ProbabilityAsWritten | polyhedral-scene-generator-main/source/Main.java:43-55 | The result is either in [0, 1] or NaN. A parsed second argument that is in [0, 1] or NaN is kept. Any result other than 0.5 is the parsed second argument. |
| CommandLine.NaNProbabilityAccepted | polyhedral-scene-generator-main/source/Main.java:47 | As written, the argument "NaN" becomes the probability, which is not in [0, 1]. |
| CommandLine.Probability | polyhedral-scene-generator-main/source/Main.java:43-55 | Always in [0, 1]. It is the parsed argument exactly when that lies in [0, 1], and 0.5 otherwise. |
| CommandLine.ProbabilityAgreesOffNaN | polyhedral-scene-generator-main/source/Main.java:43-55 | The corrected and the as-written readings agree on every argument except NaN. |
| CommandLine.ObjFilename | polyhedral-scene-generator-main/source/Main.java:60-66 | The name is kept exactly when it has at least five characters and ends in ".obj". Otherwise ".obj" is appended. |
| CommandLine.BareSuffixDoubled | polyhedral-scene-generator-main/source/Main.java:62-66 | ".obj" alone becomes ".obj.obj". |
| CommandLine.ObjFilenameSettles | polyhedral-scene-generator-main/source/Main.java:62-66 | For a non-empty name, normalising twice equals normalising once. |
| CommandLine.ParseArgs | polyhedral-scene-generator-main/source/Main.java:26-91 | As written: the planes are positive, the probability is the argument as the source accepts it (in [0, 1], or NaN), and the file name ends in ".obj". With no file argument the name is the date stamp plus ".obj". The run is headless exactly when arguments are given. |
| CommandLine.OutputName | polyhedral-scene-generator-main/source/Main.java:57-73 | The output file name always ends in ".obj". |
| CommandLine.ParseArgsIntended | polyhedral-scene-generator-main/source/Main.java:26-91 | With the corrected probability check: the probability is always in [0, 1], and every other setting is as written. Off the argument NaN the two readings give the same settings. |
| DoubleFaces.Flip | DoubleFaces.cs:64-68 | Each back triangle uses the copied vertices, with the last two corners swapped. |
| DoubleFaces.FlipFlip | DoubleFaces.cs:64-68 | Flipping twice, shifting back, gives the original triangles. |
| DoubleFaces.DoubledInRange | DoubleFaces.cs:57-69 | Valid triangle indices stay valid in the doubled vertex array. |
| DoubleFaces.CopyVertexData | DoubleFaces.cs:49-55 | Vertices and texture coordinates appear in both halves, normals in the first half, and their negations in the second. Reading past the end of the texture coordinates or normals is a fault. |
| DoubleFaces.CopyTriangles | DoubleFaces.cs:57-69 | The first half is the original triangles and the second half is their flip. A short last triangle is an index fault. |
| DoubleFaces.DoubleWith | DoubleFaces.cs:43-74 | The doubled mesh equals the loop-free description `Doubled`, including its faults. |
| DoubleFaces.TextureSourceAsWritten | DoubleFaces.cs:37-41 | Defaults replace the texture coordinates whenever there are fewer of them than triangle indices. |
| DoubleFaces.AsWrittenDropsTextures | DoubleFaces.cs:38 | A mesh with a texture coordinate per vertex but fewer than its triangle indices loses them all. |
| DoubleFaces.AsWrittenOverruns | DoubleFaces.cs:38 | A mesh with at least as many texture coordinates as triangle indices, but fewer than vertices, reads past their end. |
| DoubleFaces.TextureSource | DoubleFaces.cs:37-41 | Defaults stand in exactly when there are fewer texture coordinates than vertices. |
| DoubleFaces.TextureSourceKeepsPresent | DoubleFaces.cs:37-55 | With the intended check, texture coordinates never fault, and present ones are copied into both halves. |
| DoubleFaces.DoubleMesh | DoubleFaces.cs:28-74 | One mesh with the intended check. |
| DoubleFaces.DoubleMeshAsWritten | DoubleFaces.cs:28-74 | One mesh exactly as the source treats it. |
| DoubleFaces.DoubleEach | DoubleFaces.cs:23-76 | The loop over renderers, for any choice of texture source: the first `renderers` meshes are doubled and the rest are untouched, and the first mesh whose doubling faults, or a renderer without a mesh filter, makes the call fail. |
| DoubleFaces.DoublicateFaces | DoubleFaces.cs:23-76 | As written: each visited mesh is doubled with the source's texture check. A visited mesh with at least as many texture coordinates as triangle indices but fewer than vertices makes the call fail. |
| DoubleFaces.AsWrittenFaults | DoubleFaces.cs:37-52 | As written, a mesh with at least as many texture coordinates as triangle indices but fewer than vertices cannot be doubled. |
| DoubleFaces.DoublicateFacesIntended | DoubleFaces.cs:23-76 | With the corrected texture check: the call fails exactly when a visited mesh has too few normals or a triangle count that is not a multiple of three, or a renderer has no mesh filter. Present texture coordinates are kept in both halves. |
| Seqs.IndexOf | polyhedral-scene-generator-main/source/Polygon.java:113-116 | `find_point`, which is `List.indexOf` on the polygon's points (as is the `indexOf` of Conglomerate.java:67-68): -1 exactly when the element is absent, otherwise its first position. |
| Seqs.RemoveFirst | polyhedral-scene-generator-main/source/Conglomerate.java:197-198 | `List.remove`: drops the first occurrence only; the multiset loses exactly one copy. |
| Seqs.ReverseTwice | polyhedral-scene-generator-main/source/Polygon.java:163-171 | Reversing twice gives back the original. |

## Left out

- Floating-point geometry is not computed. The following are parameters:
  - plane and line construction and the sphere tests (`Model.java` 69-161, 196-222);
  - the projections of `create_polygon`;
  - `is_greaterx_planar`;
  - the reflection and winding test of `points_are_ccw`.

  The model states what the code does with any answer from them.
- Coordinates are exact reals. NaN and the sign of zero are not modelled in the point comparator.
- `Math.random()` is the `visible` parameter of `ChoosePolyhedra`. The date and time that name the output file are the `stamp` parameter of `ParseArgs`.
- `Integer.parseInt` and `Double.parseDouble` are parameters. Each returns `None` where Java throws.
- Integer overflow of names and counters is not modelled: Java `int`s are unbounded here.
- File I/O is left out. The OBJ file is a sequence of records, and vertices keep exact coordinates instead of decimal text. An `IOException` is not modelled.
- `Quaternion`, `Plane`, `View` (the viewer window and camera), the `Observable` notification, the debug printers (`display_all`, `output_polygon`) and `createPoly.py` are not part of this model.
- In `DoubleFaces.cs` the Unity API is left out. A mesh is a record of arrays; the renderer count is a number; a missing mesh filter is an index fault.
- DoubleFaces.DoublicateFaces: meshes doubled before a fault are not returned, though C# has already written them back.
- The unbounded loops of `create_polygon` and the polyhedron growth take a `fuel` bound. Running out of it is the `Diverged` failure, and a bound large enough for the scene gives the source's behaviour.
- Fusion.Extend: the `do … while` loops of `combine_polygons` never end when the two polygons agree on every step. The model counts steps from the pair its first step reaches, stops once as many further steps as there are index pairs have agreed, and reports `Diverged`. It does not require the two point lists to differ.
- Conglomerates.Explore: the ensures about classification and owners hold only when the polygons' owners and the polyhedra's member lists agree. That holds for the first conglomerate `create_scene` gathers. After a conglomerate writes its explore list back into its starting polyhedron the member lists and owners may disagree, and the later conglomerates are then not covered by these ensures.
- Conglomerates.Explore: that the merge list has no repeats is not stated on its own. The fold `ExploreResult` fixes the list, but the no-repeat fact needs consistent owners and is not proved.
- Conglomerates.Explore: the explore list is the starting polyhedron's own member list in Java. The model writes the final explore list back into that polyhedron instead of sharing it.
- Merging.Merge: its ensures assume the arenas are consistent on entry (ids in range, child links pointing forward, fused polygons in their child's plane). The model proves that choosing, exploring and merging keep this, so Scene.FinishScene needs it only once. It does not prove that the earlier polyhedron growth establishes it; that would need a composed invariant across Assembly and Catalog.
- Scene.BuildConglomerates: it does not restate the fresh-name bookkeeping for the final arena beyond what `Merge` returns.
- Scene.BuildConglomerates: a failure in the conglomerate loop is stated only by its fault kind; the trace does not say which conglomerate failed or what the earlier ones gathered.
- Scene.DrawAndGather: like `BuildConglomerates`, a failure after the drawing loop is stated only by its fault kind.
- Conglomerates.Explore: with agreeing owners it also asks that no polygon names one polyhedron in both owner slots. Distinct member lists with exact owner records give this, and the assembly proves such records.
- `chosen_polygons` is kept as the set of collected polygons, not as a list with repeats. Nothing in the source reads it after it is filled.
- Case folding in `equalsIgnoreCase` covers ASCII letters only.
- A point, line or polygon id outside its arena, which Java cannot produce, is an `IndexOutOfRange` failure.

## Findings

| source | as written | input that shows it | evidently intended | confidence | as-written member | corrected member |
|---|---|---|---|---|---|---|
| DoubleFaces.cs:38 | Default texture coordinates replace the mesh's when `textureCoordinates.Length < numTriangles` | A triangle listed twice (3 vertices, 3 texture coordinates, 6 triangle indices) loses its textures. A mesh of 4 vertices with 3 texture coordinates and 3 triangle indices reads `textureCoordinates[3]` past the end. | Compare with `numVertices`, as the comment on line 37 and the loop on line 52 need | high; not executed | DoubleFaces.TextureSourceAsWritten, DoubleFaces.AsWrittenDropsTextures, DoubleFaces.AsWrittenOverruns, DoubleFaces.DoubleMeshAsWritten, DoubleFaces.AsWrittenFaults, DoubleFaces.DoublicateFaces | DoubleFaces.TextureSource, DoubleFaces.TextureSourceKeepsPresent, DoubleFaces.DoubleMesh, DoubleFaces.DoublicateFacesIntended |
| polyhedral-scene-generator-main/source/Main.java:47 | A probability is reset to 0.5 only when `p < 0 \|\| p > 1` | The argument `NaN` parses, both comparisons are false, and the probability becomes NaN. Then `Math.random() < NaN` draws no polyhedron. | Keep the argument only when it lies in [0, 1] | medium; not executed | CommandLine.ProbabilityAsWritten, CommandLine.NaNProbabilityAccepted, CommandLine.ParseArgs | CommandLine.Probability, CommandLine.ProbabilityAgreesOffNaN, CommandLine.ParseArgsIntended |
