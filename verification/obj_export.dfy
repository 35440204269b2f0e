/** `output_to_file`: writes the outline polygons of every conglomerate as a
    Wavefront OBJ file. Each polygon's points are written as vertex records and
    followed by a face record whose indices are relative: -1 is the vertex
    written last, so a polygon of n points gets the face `f -n ... -1`. */
module ObjExport {
  import opened PointOrder
  import opened Points
  import opened Polygons
  import opened Conglomerates

  /** One line of the file; a vertex's coordinates are kept exact, not as the
      decimal text Java prints. */
  datatype ObjLine = Comment(text: string) | Blank | Vertex(at: Coord) | Face(indices: seq<int>)

  /** The two lines every file starts with. */
  const Header: seq<ObjLine> := [Comment("Polygons representing a polyhedral scene"), Blank]

  /** What an OBJ reader has collected: the vertices so far, the faces with
      their corners looked up, and whether every face index was valid. */
  datatype Reading = Reading(verts: seq<Coord>, faces: seq<seq<Coord>>, ok: bool)

  predicate Names(verts: seq<Coord>, ix: seq<int>)
  {
    forall k :: 0 <= k < |ix| ==> -|verts| <= ix[k] < 0
  }

  /** The vertices a face's relative indices name. */
  function Resolve(verts: seq<Coord>, ix: seq<int>): (r: seq<Coord>)
    requires Names(verts, ix)
    ensures |r| == |ix| && forall k :: 0 <= k < |ix| ==> r[k] == verts[|verts| + ix[k]]
  {
    seq(|ix|, k requires 0 <= k < |ix| => verts[|verts| + ix[k]])
  }

  /** How a reader takes in one line: a relative index -k names the k-th most
      recent vertex; an index that names no vertex spoils the file. */
  function Take(r: Reading, line: ObjLine): Reading
  {
    match line
    case Vertex(c) => r.(verts := r.verts + [c])
    case Face(ix) =>
      if Names(r.verts, ix) then r.(faces := r.faces + [Resolve(r.verts, ix)]) else r.(ok := false)
    case _ => r
  }

  /** Reading a whole file, line by line from the top. */
  function Read(lines: seq<ObjLine>): Reading
    decreases |lines|
  {
    if |lines| == 0 then Reading([], [], true) else Take(Read(lines[..|lines| - 1]), lines[|lines| - 1])
  }

  lemma ReadSnoc(lines: seq<ObjLine>, line: ObjLine)
    ensures Read(lines + [line]) == Take(Read(lines), line)
  {
    assert (lines + [line])[..|lines|] == lines;
  }

  function CoordsOf(points: seq<Point>, pts: seq<nat>): (r: seq<Coord>)
    requires forall k :: 0 <= k < |pts| ==> pts[k] < |points|
    ensures |r| == |pts|
  {
    seq(|pts|, k requires 0 <= k < |pts| => points[pts[k]].coord)
  }

  function VertexLines(cs: seq<Coord>): (r: seq<ObjLine>)
    ensures |r| == |cs|
  {
    seq(|cs|, k requires 0 <= k < |cs| => Vertex(cs[k]))
  }

  /** The relative indices of the last n vertices, oldest first. */
  function Relative(n: nat): (r: seq<int>)
    ensures |r| == n
  {
    seq(n, k requires 0 <= k < n => k - n)
  }

  /** The lines written for one polygon: its vertices, its face, a blank line. */
  function Block(cs: seq<Coord>): seq<ObjLine>
  {
    VertexLines(cs) + [Face(Relative(|cs|)), Blank]
  }

  lemma {:induction false} ReadVertices(lines: seq<ObjLine>, cs: seq<Coord>)
    ensures Read(lines + VertexLines(cs)) == Read(lines).(verts := Read(lines).verts + cs)
    decreases |cs|
  {
    if |cs| == 0 {
      assert lines + VertexLines(cs) == lines;
    } else {
      var init := cs[..|cs| - 1];
      ReadVertices(lines, init);
      assert lines + VertexLines(cs) == (lines + VertexLines(init)) + [Vertex(cs[|cs| - 1])];
      ReadSnoc(lines + VertexLines(init), Vertex(cs[|cs| - 1]));
      assert init + [cs[|cs| - 1]] == cs;
    }
  }

  /** The face record of a block names exactly the vertices just written. */
  lemma TakeFace(vs: seq<Coord>, fs: seq<seq<Coord>>, cs: seq<Coord>)
    ensures Take(Reading(vs + cs, fs, true), Face(Relative(|cs|))) == Reading(vs + cs, fs + [cs], true)
  {
    var all := vs + cs;
    var ix := Relative(|cs|);
    assert Names(all, ix);
    var got := Resolve(all, ix);
    forall k | 0 <= k < |cs|
      ensures got[k] == cs[k]
    {
      assert |all| + ix[k] == |vs| + k;
    }
    assert got == cs;
  }

  /** The round trip for one polygon: after its block a reader has its points
      as new vertices and, as its newest face, exactly those points in order. */
  lemma ReadBlock(lines: seq<ObjLine>, cs: seq<Coord>)
    requires Read(lines).ok
    ensures Read(lines + Block(cs)) ==
              Reading(Read(lines).verts + cs, Read(lines).faces + [cs], true)
  {
    var before := Read(lines);
    ReadVertices(lines, cs);
    var mid := lines + VertexLines(cs);
    assert Read(mid) == Reading(before.verts + cs, before.faces, true);
    ReadSnoc(mid, Face(Relative(|cs|)));
    TakeFace(before.verts, before.faces, cs);
    ReadSnoc(mid + [Face(Relative(|cs|))], Blank);
    assert lines + Block(cs) == mid + [Face(Relative(|cs|))] + [Blank];
  }

  predicate Drawable(points: seq<Point>, polys: seq<Polygon>, outline: seq<nat>)
  {
    forall k :: 0 <= k < |outline| ==>
      outline[k] < |polys| && forall j :: 0 <= j < |polys[outline[k]].points| ==> polys[outline[k]].points[j] < |points|
  }

  /** The faces one outline should produce: each polygon's points' coordinates. */
  function OutlineFaces(points: seq<Point>, polys: seq<Polygon>, outline: seq<nat>): (r: seq<seq<Coord>>)
    requires Drawable(points, polys, outline)
    ensures |r| == |outline|
  {
    seq(|outline|, k requires 0 <= k < |outline| => CoordsOf(points, polys[outline[k]].points))
  }

  /** The faces the file should hold, one per outline polygon of every
      conglomerate in order. */
  function SceneFaces(points: seq<Point>, polys: seq<Polygon>, outlines: seq<seq<nat>>): (r: seq<seq<Coord>>)
    requires forall i :: 0 <= i < |outlines| ==> Drawable(points, polys, outlines[i])
    decreases |outlines|
  {
    if |outlines| == 0 then []
    else
      SceneFaces(points, polys, outlines[..|outlines| - 1]) + OutlineFaces(points, polys, outlines[|outlines| - 1])
  }

  /** Lines 905-920 for one polygon: a vertex record per point while counting
      down from zero, then a face record counting back up to -1. */
  method WritePolygon(points: seq<Point>, pts: seq<nat>) returns (block: seq<ObjLine>)
    requires forall k :: 0 <= k < |pts| ==> pts[k] < |points|
    ensures block == Block(CoordsOf(points, pts))
    ensures |block| == |pts| + 2 && block[|pts|].Face? && |block[|pts|].indices| == |pts|
    ensures forall k :: 0 <= k < |pts| ==> block[k] == Vertex(points[pts[k]].coord) && block[|pts|].indices[k] == k - |pts|
  {
    var count := 0;
    block := [];
    for j := 0 to |pts|
      invariant count == -j
      invariant block == VertexLines(CoordsOf(points, pts[..j]))
    {
      count := count - 1;
      block := block + [Vertex(points[pts[j]].coord)];
      assert CoordsOf(points, pts[..j + 1]) == CoordsOf(points, pts[..j]) + [points[pts[j]].coord];
    }
    var face: seq<int> := [];
    var i := count;
    while i < 0
      invariant count <= i <= 0 && |face| == i - count
      invariant forall k :: 0 <= k < |face| ==> face[k] == k + count
    {
      face := face + [i];
      i := i + 1;
    }
    assert pts[..|pts|] == pts;
    assert face == Relative(|pts|);
    block := block + [Face(face), Blank];
  }

  /** Lines 900-921: the blocks of one conglomerate's outline polygons, in order. */
  method WriteOutline(points: seq<Point>, polys: seq<Polygon>, drawables: seq<nat>, out: seq<ObjLine>)
    returns (out': seq<ObjLine>)
    requires Drawable(points, polys, drawables)
    requires Read(out).ok
    ensures |out| <= |out'| && out'[..|out|] == out
    ensures Read(out').ok && Read(out').faces == Read(out).faces + OutlineFaces(points, polys, drawables)
  {
    out' := out;
    for k := 0 to |drawables|
      invariant |out| <= |out'| && out'[..|out|] == out
      invariant Read(out').ok
      invariant Read(out').faces == Read(out).faces + OutlineFaces(points, polys, drawables[..k])
    {
      var block := WritePolygon(points, polys[drawables[k]].points);
      ReadBlock(out', CoordsOf(points, polys[drawables[k]].points));
      assert OutlineFaces(points, polys, drawables[..k + 1]) ==
               OutlineFaces(points, polys, drawables[..k]) + [CoordsOf(points, polys[drawables[k]].points)];
      out' := out' + block;
    }
    assert drawables[..|drawables|] == drawables;
  }

  /** `output_to_file` (lines 887-932), without the file: the header, then a
      block per outline polygon of each conglomerate. Reading the result back
      resolves every face index and yields exactly the scene's outline polygons. */
  method OutputToFile(points: seq<Point>, polys: seq<Polygon>, congloms: seq<Conglomerate>)
    returns (out: seq<ObjLine>)
    requires forall i :: 0 <= i < |congloms| ==> Drawable(points, polys, congloms[i].outline)
    ensures |out| >= 2 && out[..2] == Header
    ensures Read(out).ok
    ensures Read(out).faces == SceneFaces(points, polys, seq(|congloms|, i requires 0 <= i < |congloms| => congloms[i].outline))
  {
    var outlines := seq(|congloms|, i requires 0 <= i < |congloms| => congloms[i].outline);
    out := Header;
    assert Read(out) == Reading([], [], true) by {
      ReadSnoc([Comment("Polygons representing a polyhedral scene")], Blank);
      ReadSnoc([], Comment("Polygons representing a polyhedral scene"));
    }
    for i := 0 to |congloms|
      invariant |out| >= 2 && out[..2] == Header
      invariant Read(out).ok && Read(out).faces == SceneFaces(points, polys, outlines[..i])
    {
      out := WriteOutline(points, polys, congloms[i].outline, out);
      assert outlines[..i + 1][..i] == outlines[..i];
    }
    assert outlines[..|congloms|] == outlines;
  }
}
