/** `DoubleFaces.DoublicateFaces` (the Unity viewer): makes every face of a mesh
    visible from behind by appending a second copy of the mesh whose normals
    point the other way and whose triangles run in the opposite winding. */
module DoubleFaces {
  import opened Wrappers

  datatype Vec3 = Vec3(x: real, y: real, z: real)
  datatype Vec2 = Vec2(u: real, v: real)

  /** The mesh properties the transformation reads and writes. `triangles`
      holds vertex indices, three per triangle. */
  datatype Mesh = Mesh(vertices: seq<Vec3>, normals: seq<Vec3>, triangles: seq<int>, uv: seq<Vec2>)

  /** Unity's unary minus on a vector. */
  function Negate(a: Vec3): Vec3
  {
    Vec3(-a.x, -a.y, -a.z)
  }

  function Negated(s: seq<Vec3>): (r: seq<Vec3>)
    ensures |r| == |s| && forall k :: 0 <= k < |s| ==> r[k] == Negate(s[k])
  {
    seq(|s|, k requires 0 <= k < |s| => Negate(s[k]))
  }

  /** The value every slot of a fresh `Vector2` array holds. */
  const DefaultUV := Vec2(0.0, 0.0)

  /** The back faces of a triangle list: each triangle (a, b, c) becomes
      (a + n, c + n, b + n), the same corners in the copied vertex half, with
      the winding reversed. */
  function Flip(t: seq<int>, n: int): (r: seq<int>)
    requires |t| % 3 == 0
    ensures |r| == |t|
    decreases |t|
  {
    if |t| == 0 then [] else [t[0] + n, t[2] + n, t[1] + n] + Flip(t[3..], n)
  }

  lemma {:induction false} FlipAppend(t: seq<int>, n: int, a: int, b: int, c: int)
    requires |t| % 3 == 0
    ensures Flip(t + [a, b, c], n) == Flip(t, n) + [a + n, c + n, b + n]
    decreases |t|
  {
    if |t| == 0 {
      assert t + [a, b, c] == [a, b, c];
      assert ([a, b, c])[3..] == [];
    } else {
      assert (t + [a, b, c])[3..] == t[3..] + [a, b, c];
      FlipAppend(t[3..], n, a, b, c);
    }
  }

  /** Flipping twice, shifting back the second time, gives the triangles back:
      the doubled half is exactly the original faces turned around. */
  lemma {:induction false} FlipFlip(t: seq<int>, n: int)
    requires |t| % 3 == 0
    ensures Flip(Flip(t, n), -n) == t
    decreases |t|
  {
    if |t| != 0 {
      var f := Flip(t, n);
      assert f[3..] == Flip(t[3..], n);
      FlipFlip(t[3..], n);
      assert t == [t[0], t[1], t[2]] + t[3..];
    }
  }

  /** Indices of the original vertices turn into indices of the copies. */
  lemma {:induction false} FlipBounds(t: seq<int>, n: int)
    requires |t| % 3 == 0
    requires forall k :: 0 <= k < |t| ==> 0 <= t[k] < n
    ensures forall k :: 0 <= k < |t| ==> n <= Flip(t, n)[k] < 2 * n
    decreases |t|
  {
    if |t| != 0 {
      FlipBounds(t[3..], n);
      var f := Flip(t, n);
      forall k | 0 <= k < |t|
        ensures n <= f[k] < 2 * n
      {
        if k >= 3 {
          assert f[k] == Flip(t[3..], n)[k - 3];
          assert t[3..][k - 3] == t[k];
        }
      }
    }
  }

  /** The triangle at `x` (a multiple of three) of the back half is the one at
      `x` of the front half with its last two corners swapped. */
  lemma {:induction false} FlipAt(t: seq<int>, n: int, x: nat)
    requires |t| % 3 == 0 && x % 3 == 0 && x + 2 < |t|
    ensures Flip(t, n)[x] == t[x] + n && Flip(t, n)[x + 1] == t[x + 2] + n && Flip(t, n)[x + 2] == t[x + 1] + n
    decreases x
  {
    if x > 0 {
      FlipAt(t[3..], n, x - 3);
    }
  }

  /** The doubled mesh, stated without loops: which texture coordinates are
      copied is decided by the caller, and any index the loops would read past
      an array's end is an `IndexOutOfRange`. */
  function Doubled(m: Mesh, uvs: seq<Vec2>): (r: Result<Mesh>)
    ensures r.Failure? <==> |uvs| < |m.vertices| || |m.normals| < |m.vertices| || |m.triangles| % 3 != 0
    ensures r.Failure? ==> r.fault == IndexOutOfRange
  {
    var n := |m.vertices|;
    if |uvs| < n || |m.normals| < n || |m.triangles| % 3 != 0 then Failure(IndexOutOfRange)
    else Success(Mesh(m.vertices + m.vertices,
                      m.normals[..n] + Negated(m.normals[..n]),
                      m.triangles + Flip(m.triangles, n),
                      uvs[..n] + uvs[..n]))
  }

  /** A fresh array of `k` copies of `v`, as C# allocates it. */
  function Filled<T>(k: nat, v: T): (r: seq<T>)
    ensures |r| == k
  {
    seq(k, _ => v)
  }

  /** The first `j` slots of each half of `dst` hold `lo` and `hi`. */
  ghost predicate Mirrored<T>(dst: seq<T>, lo: seq<T>, hi: seq<T>, n: nat, j: nat)
  {
    && |dst| == 2 * n && j <= n && j <= |lo| && j <= |hi|
    && forall k :: 0 <= k < j ==> dst[k] == lo[k] && dst[k + n] == hi[k]
  }

  lemma MirrorStep<T>(dst: seq<T>, lo: seq<T>, hi: seq<T>, n: nat, j: nat)
    requires Mirrored(dst, lo, hi, n, j) && j < n && j < |lo| && j < |hi|
    ensures Mirrored(dst[j := lo[j]][j + n := hi[j]], lo, hi, n, j + 1)
  {
  }

  lemma MirrorDone<T>(dst: seq<T>, lo: seq<T>, hi: seq<T>, n: nat)
    requires Mirrored(dst, lo, hi, n, n)
    ensures dst == lo[..n] + hi[..n]
  {
  }

  /** Lines 49-55: copies vertices and texture coordinates into both halves
      and normals into the first, their negations into the second; reading
      past the end of the texture coordinates or the normals is a fault. */
  method CopyVertexData(m: Mesh, uvs: seq<Vec2>)
    returns (r: Result<(seq<Vec3>, seq<Vec3>, seq<Vec2>)>)
    ensures r.Failure? <==> |uvs| < |m.vertices| || |m.normals| < |m.vertices|
    ensures r.Failure? ==> r.fault == IndexOutOfRange
    ensures r.Success? ==> r.value.0 == m.vertices + m.vertices
    ensures r.Success? ==> r.value.1 == m.normals[..|m.vertices|] + Negated(m.normals[..|m.vertices|])
    ensures r.Success? ==> r.value.2 == uvs[..|m.vertices|] + uvs[..|m.vertices|]
  {
    var n := |m.vertices|;
    ghost var flipped := Negated(m.normals);
    var nv := Filled(2 * n, Vec3(0.0, 0.0, 0.0));
    var nn := Filled(2 * n, Vec3(0.0, 0.0, 0.0));
    var nu := Filled(2 * n, DefaultUV);
    var j := 0;
    while j < n
      invariant j <= n
      invariant Mirrored(nv, m.vertices, m.vertices, n, j)
      invariant Mirrored(nu, uvs, uvs, n, j)
      invariant Mirrored(nn, m.normals, flipped, n, j)
    {
      if j >= |uvs| || j >= |m.normals| {
        return Failure(IndexOutOfRange);
      }
      MirrorStep(nv, m.vertices, m.vertices, n, j);
      MirrorStep(nu, uvs, uvs, n, j);
      MirrorStep(nn, m.normals, flipped, n, j);
      nv := nv[j := m.vertices[j]][j + n := m.vertices[j]];
      nu := nu[j := uvs[j]][j + n := uvs[j]];
      nn := nn[j := m.normals[j]][j + n := Negate(m.normals[j])];
      j := j + 1;
    }
    MirrorDone(nv, m.vertices, m.vertices, n);
    MirrorDone(nu, uvs, uvs, n);
    MirrorDone(nn, m.normals, flipped, n);
    assert m.vertices[..n] == m.vertices;
    assert flipped[..n] == Negated(m.normals[..n]);
    r := Success((nv, nn, nu));
  }

  /** The first `x` triangle indices are copied into the first half of `nt`
      and their flips into the second. */
  ghost predicate TrianglesCopied(nt: seq<int>, t: seq<int>, n: int, x: nat)
  {
    && x <= |t| && x % 3 == 0 && |nt| == 2 * |t|
    && nt[..x] == t[..x] && nt[|t|..|t| + x] == Flip(t[..x], n)
  }

  /** One triangle of the copy: the prefixes already copied grow by the
      triangle in the first half and by its flip in the second. */
  lemma CopyStep(before: seq<int>, t: seq<int>, n: int, x: nat)
    requires TrianglesCopied(before, t, n, x) && x + 2 < |t|
    ensures TrianglesCopied(before[x := t[x]][x + 1 := t[x + 1]][x + 2 := t[x + 2]]
                                  [x + |t| := t[x] + n][x + |t| + 2 := t[x + 1] + n][x + |t| + 1 := t[x + 2] + n],
                            t, n, x + 3)
  {
    var tc := |t|;
    var mid := before[x := t[x]][x + 1 := t[x + 1]][x + 2 := t[x + 2]];
    ThreeMore(x);
    FrontCopied(before, t, x);
    BackCopied(mid, tc, x, t[x] + n, t[x + 2] + n, t[x + 1] + n);
    FlipGrows(t, n, x, mid[tc..tc + x]);
  }

  /** The flipped prefix grows by the flip of the next triangle. */
  lemma FlipGrows(t: seq<int>, n: int, x: nat, back: seq<int>)
    requires x % 3 == 0 && x + 2 < |t| && back == Flip(t[..x], n)
    ensures (x + 3) % 3 == 0 && back + [t[x] + n, t[x + 2] + n, t[x + 1] + n] == Flip(t[..x + 3], n)
  {
    ThreeMore(x);
    var done := t[..x];
    assert t[..x + 3] == done + [t[x], t[x + 1], t[x + 2]];
    FlipAppend(done, n, t[x], t[x + 1], t[x + 2]);
  }

  lemma ThreeMore(x: nat)
    requires x % 3 == 0
    ensures (x + 3) % 3 == 0
  {
  }

  /** Writing a triangle at `x` extends the copied front and leaves the back alone. */
  lemma FrontCopied(before: seq<int>, t: seq<int>, x: nat)
    requires x + 2 < |t| && |before| == 2 * |t| && before[..x] == t[..x]
    ensures var mid := before[x := t[x]][x + 1 := t[x + 1]][x + 2 := t[x + 2]];
      mid[..x + 3] == t[..x + 3] && mid[|t|..|t| + x] == before[|t|..|t| + x]
  {
    var mid := before[x := t[x]][x + 1 := t[x + 1]][x + 2 := t[x + 2]];
    forall k | 0 <= k < x ensures mid[k] == t[k] {
      assert before[..x][k] == t[..x][k];
    }
  }

  /** Writing three values after position tc + x extends the back by them and
      leaves the front alone. */
  lemma BackCopied(mid: seq<int>, tc: nat, x: nat, a: int, b: int, c: int)
    requires x + 3 <= tc && |mid| == 2 * tc
    ensures var nt := mid[x + tc := a][x + tc + 2 := c][x + tc + 1 := b];
      nt[..x + 3] == mid[..x + 3] && nt[tc..tc + x + 3] == mid[tc..tc + x] + [a, b, c]
  {
  }

  /** A count one or two past a multiple of three is not one. */
  lemma NotWhole(x: nat, tc: nat)
    requires x % 3 == 0 && x < tc <= x + 2
    ensures tc % 3 != 0
  {
  }

  lemma CopyDone(nt: seq<int>, t: seq<int>, n: int)
    requires TrianglesCopied(nt, t, n, |t|)
    ensures nt == t + Flip(t, n)
  {
    assert t[..|t|] == t;
    assert nt == nt[..|t|] + nt[|t|..|t| + |t|];
  }

  /** Lines 57-69: copies each triangle into the first half and appends it
      reversed, over the copied vertices, in the second; a last triangle with
      fewer than three indices reads past the end of the array. */
  method CopyTriangles(t: seq<int>, n: int) returns (r: Result<seq<int>>)
    ensures r.Failure? <==> |t| % 3 != 0
    ensures r.Failure? ==> r.fault == IndexOutOfRange
    ensures r.Success? ==> r.value == t + Flip(t, n)
  {
    var tc := |t|;
    var nt := Filled(2 * tc, 0);
    var x := 0;
    while x < tc
      invariant TrianglesCopied(nt, t, n, x)
    {
      if x + 2 >= tc {
        NotWhole(x, tc);
        return Failure(IndexOutOfRange);
      }
      CopyStep(nt, t, n, x);
      var i := x + tc;
      nt := nt[x := t[x]][x + 1 := t[x + 1]][x + 2 := t[x + 2]];
      nt := nt[i := t[x] + n][i + 2 := t[x + 1] + n][i + 1 := t[x + 2] + n];
      x := x + 3;
    }
    CopyDone(nt, t, n);
    r := Success(nt);
  }

  /** Lines 43-74 for one mesh, with the texture coordinates already chosen. */
  method DoubleWith(m: Mesh, uvs: seq<Vec2>) returns (r: Result<Mesh>)
    ensures r == Doubled(m, uvs)
    ensures r.Success? ==> forall x :: 0 <= x < |m.triangles| && x % 3 == 0 ==>
              && r.value.triangles[|m.triangles| + x] == m.triangles[x] + |m.vertices|
              && r.value.triangles[|m.triangles| + x + 1] == m.triangles[x + 2] + |m.vertices|
              && r.value.triangles[|m.triangles| + x + 2] == m.triangles[x + 1] + |m.vertices|
  {
    var halves := CopyVertexData(m, uvs);
    if halves.Failure? {
      return Failure(halves.fault);
    }
    var tris := CopyTriangles(m.triangles, |m.vertices|);
    if tris.Failure? {
      return Failure(tris.fault);
    }
    r := Success(Mesh(halves.value.0, halves.value.1, tris.value, halves.value.2));
    var tc := |m.triangles|;
    forall x | 0 <= x < tc && x % 3 == 0
      ensures tris.value[tc + x] == m.triangles[x] + |m.vertices|
      ensures tris.value[tc + x + 1] == m.triangles[x + 2] + |m.vertices|
      ensures tris.value[tc + x + 2] == m.triangles[x + 1] + |m.vertices|
    {
      FlipAt(m.triangles, |m.vertices|, x);
    }
  }

  /** Lines 37-41 as written: the texture coordinates are replaced by a default
      array of length 2n whenever there are fewer of them than triangle indices. */
  function TextureSourceAsWritten(m: Mesh): (r: seq<Vec2>)
    ensures |m.uv| < |m.triangles| ==> |r| == 2 * |m.vertices| && forall k :: 0 <= k < |r| ==> r[k] == DefaultUV
    ensures |m.uv| >= |m.triangles| ==> r == m.uv
  {
    if |m.uv| < |m.triangles| then Filled(2 * |m.vertices|, DefaultUV) else m.uv
  }

  /** The check that "mesh does not have texture coordinates" needs, given that
      the copy loop reads one texture coordinate per vertex: the defaults stand
      in only when the mesh has fewer texture coordinates than vertices. */
  function TextureSource(m: Mesh): (r: seq<Vec2>)
    ensures |r| >= |m.vertices|
    ensures |m.uv| >= |m.vertices| ==> r[..|m.vertices|] == m.uv[..|m.vertices|]
    ensures |m.uv| < |m.vertices| ==> forall k :: 0 <= k < |r| ==> r[k] == DefaultUV
  {
    if |m.uv| < |m.vertices| then Filled(2 * |m.vertices|, DefaultUV) else m.uv
  }

  /** A triangle with one texture coordinate per vertex, listed twice. */
  function TwoSidedTriangle(): Mesh
  {
    Mesh([Vec3(0.0, 0.0, 0.0), Vec3(1.0, 0.0, 0.0), Vec3(0.0, 1.0, 0.0)],
         [Vec3(0.0, 0.0, 1.0), Vec3(0.0, 0.0, 1.0), Vec3(0.0, 0.0, 1.0)],
         [0, 1, 2, 0, 2, 1],
         [Vec2(0.0, 0.0), Vec2(1.0, 0.0), Vec2(0.0, 1.0)])
  }

  /** As written, a mesh that has a texture coordinate for every vertex but
      fewer than it has triangle indices loses them all. */
  lemma AsWrittenDropsTextures()
    ensures var m := TwoSidedTriangle();
            && |m.uv| == |m.vertices|
            && Doubled(m, TextureSourceAsWritten(m)).Success?
            && Doubled(m, TextureSourceAsWritten(m)).value.uv[1] != m.uv[1]
  {
    var m := TwoSidedTriangle();
    assert TextureSourceAsWritten(m)[1] == DefaultUV;
  }

  /** As written, a mesh with at least as many texture coordinates as triangle
      indices, but fewer than vertices, reads past the end of them. */
  lemma AsWrittenOverruns()
    ensures var m := Mesh(TwoSidedTriangle().vertices + [Vec3(1.0, 1.0, 0.0)],
                          TwoSidedTriangle().normals + [Vec3(0.0, 0.0, 1.0)],
                          [0, 1, 2],
                          TwoSidedTriangle().uv);
            Doubled(m, TextureSourceAsWritten(m)) == Failure(IndexOutOfRange)
  {
  }

  /** With the intended check the texture coordinates never cause a fault, and
      present ones are copied into both halves. */
  lemma TextureSourceKeepsPresent(m: Mesh)
    ensures var r := Doubled(m, TextureSource(m));
            && (r.Failure? <==> |m.normals| < |m.vertices| || |m.triangles| % 3 != 0)
            && (r.Success? && |m.uv| >= |m.vertices| ==>
                  r.value.uv == m.uv[..|m.vertices|] + m.uv[..|m.vertices|])
  {
  }

  /** `DoubleMesh` with the intended texture check. */
  method DoubleMesh(m: Mesh) returns (r: Result<Mesh>)
    ensures r == Doubled(m, TextureSource(m))
    ensures r.Failure? <==> |m.normals| < |m.vertices| || |m.triangles| % 3 != 0
    ensures r.Success? && |m.uv| >= |m.vertices| ==> r.value.uv == m.uv[..|m.vertices|] + m.uv[..|m.vertices|]
  {
    TextureSourceKeepsPresent(m);
    r := DoubleWith(m, TextureSource(m));
  }

  /** One mesh exactly as the source treats it. */
  method DoubleMeshAsWritten(m: Mesh) returns (r: Result<Mesh>)
    ensures r == Doubled(m, TextureSourceAsWritten(m))
    ensures |m.uv| < |m.triangles| && r.Success? ==> forall k :: 0 <= k < |r.value.uv| ==> r.value.uv[k] == DefaultUV
    ensures |m.triangles| <= |m.uv| < |m.vertices| ==> r == Failure(IndexOutOfRange)
  {
    r := DoubleWith(m, TextureSourceAsWritten(m));
  }

  /** Every valid triangle list doubles into a valid one: indices into the
      original vertices stay in range of the doubled array. */
  lemma DoubledInRange(m: Mesh, uvs: seq<Vec2>)
    requires Doubled(m, uvs).Success?
    requires forall k :: 0 <= k < |m.triangles| ==> 0 <= m.triangles[k] < |m.vertices|
    ensures var d := Doubled(m, uvs).value;
            forall k :: 0 <= k < |d.triangles| ==> 0 <= d.triangles[k] < |d.vertices|
  {
    FlipBounds(m.triangles, |m.vertices|);
    var d := Doubled(m, uvs).value;
    var t := |m.triangles|;
    forall k | 0 <= k < |d.triangles|
      ensures 0 <= d.triangles[k] < |d.vertices|
    {
      if k >= t {
        assert d.triangles[k] == Flip(m.triangles, |m.vertices|)[k - t];
      }
    }
  }

  /** The loop of `DoublicateFaces` with `source` choosing each mesh's texture
      coordinates: visits the first `renderers` meshes (one per renderer
      found under the model) and doubles each; a renderer without a matching
      mesh filter is an index fault. Meshes past the renderer count are untouched. */
  method DoubleEach(meshes: seq<Mesh>, renderers: nat, source: Mesh -> seq<Vec2>) returns (r: Result<seq<Mesh>>)
    ensures r.Failure? <==>
              (|meshes| < renderers ||
               exists i :: 0 <= i < renderers && Doubled(meshes[i], source(meshes[i])).Failure?)
    ensures r.Success? ==> |r.value| == |meshes|
    ensures r.Success? ==> forall i :: 0 <= i < renderers ==> r.value[i] == Doubled(meshes[i], source(meshes[i])).value
    ensures r.Success? ==> forall i :: renderers <= i < |meshes| ==> r.value[i] == meshes[i]
  {
    var out := meshes;
    var i := 0;
    while i < renderers
      invariant 0 <= i <= renderers && |out| == |meshes|
      invariant i > 0 ==> i <= |meshes|
      invariant forall k :: 0 <= k < i ==> Doubled(meshes[k], source(meshes[k])).Success?
      invariant forall k :: 0 <= k < i ==> out[k] == Doubled(meshes[k], source(meshes[k])).value
      invariant forall k :: i <= k < |meshes| ==> out[k] == meshes[k]
    {
      if i >= |meshes| {
        return Failure(IndexOutOfRange);
      }
      var d := DoubleWith(meshes[i], source(meshes[i]));
      if d.Failure? {
        return Failure(d.fault);
      }
      out := out[i := d.value];
      i := i + 1;
    }
    r := Success(out);
  }

  /** `DoublicateFaces` as written: every visited mesh is doubled with the
      texture check of line 38. */
  method DoublicateFaces(meshes: seq<Mesh>, renderers: nat) returns (r: Result<seq<Mesh>>)
    ensures r.Failure? <==>
              (|meshes| < renderers ||
               exists i :: 0 <= i < renderers && Doubled(meshes[i], TextureSourceAsWritten(meshes[i])).Failure?)
    ensures r.Success? ==> |r.value| == |meshes|
    ensures r.Success? ==> forall i :: 0 <= i < renderers ==>
              r.value[i] == Doubled(meshes[i], TextureSourceAsWritten(meshes[i])).value
    ensures r.Success? ==> forall i :: renderers <= i < |meshes| ==> r.value[i] == meshes[i]
    ensures (exists i :: 0 <= i < renderers && i < |meshes| &&
               |meshes[i].triangles| <= |meshes[i].uv| < |meshes[i].vertices|) ==> r.Failure?
  {
    r := DoubleEach(meshes, renderers, TextureSourceAsWritten);
    if exists i :: 0 <= i < renderers && i < |meshes| && |meshes[i].triangles| <= |meshes[i].uv| < |meshes[i].vertices| {
      var i :| 0 <= i < renderers && i < |meshes| && |meshes[i].triangles| <= |meshes[i].uv| < |meshes[i].vertices|;
      AsWrittenFaults(meshes[i]);
    }
  }

  /** As written, a mesh with at least as many texture coordinates as triangle
      indices but fewer than vertices always faults. */
  lemma AsWrittenFaults(m: Mesh)
    requires |m.triangles| <= |m.uv| < |m.vertices|
    ensures Doubled(m, TextureSourceAsWritten(m)) == Failure(IndexOutOfRange)
  {
  }

  /** `DoublicateFaces` with the intended texture check: only short normals or
      a short last triangle fault, and present texture coordinates are kept. */
  method DoublicateFacesIntended(meshes: seq<Mesh>, renderers: nat) returns (r: Result<seq<Mesh>>)
    ensures r.Failure? <==>
              (|meshes| < renderers ||
               exists i :: 0 <= i < renderers &&
                 (|meshes[i].normals| < |meshes[i].vertices| || |meshes[i].triangles| % 3 != 0))
    ensures r.Success? ==> |r.value| == |meshes|
    ensures r.Success? ==> forall i :: 0 <= i < renderers ==>
              r.value[i] == Doubled(meshes[i], TextureSource(meshes[i])).value
    ensures r.Success? ==> forall i :: 0 <= i < renderers && |meshes[i].uv| >= |meshes[i].vertices| ==>
              r.value[i].uv == meshes[i].uv[..|meshes[i].vertices|] + meshes[i].uv[..|meshes[i].vertices|]
    ensures r.Success? ==> forall i :: renderers <= i < |meshes| ==> r.value[i] == meshes[i]
  {
    r := DoubleEach(meshes, renderers, TextureSource);
    forall i | 0 <= i < |meshes| {
      TextureSourceKeepsPresent(meshes[i]);
    }
  }
}
