/** Vertex formats, the two edge functions, the clip-plane test, vertex
    interpolation and screen-space quantisation. Floats are read as reals. */
module Geometry {
  import opened Config
  import opened CInt

  /** `VertexType`: object-space position and a packed colour whose low
      byte and high byte are also the texture coordinate. */
  datatype Vertex = Vertex(x: real, y: real, z: real, color: u16)

  /** A position after the combined projection-view-world transform and the
      perspective divide; `w` holds the reciprocal of the homogeneous w. */
  datatype NdcPos = NdcPos(x: real, y: real, z: real, w: real)

  /** `VertexFormatNdc` */
  datatype VertexNdc = VertexNdc(x: real, y: real, z: real, w: real, u: real, v: real)

  /** `ScreenPos`: quantised pixel position and depth, raw texture fields. */
  datatype ScreenPos = ScreenPos(x: u16, y: u16, z: DepthType, u: real, v: real, w: real)

  /** An integer point of the screen, as passed to `edgefunc`. */
  datatype Pixel = Pixel(x: int, y: int)

  /** A clip plane normal; the plane test adds the constant 1. */
  datatype Plane = Plane(nx: real, ny: real, nz: real)

  /** `edgefunc(a, b, c)`: twice the signed area of the triangle `a, b, c`. */
  function EdgeFunc(a: Pixel, b: Pixel, c: Pixel): int
  {
    (c.x - a.x) * (b.y - a.y) - (c.y - a.y) * (b.x - a.x)
  }

  /** `edgefuncf` on the first two floats (x, y) of NDC vertices. */
  function EdgeFuncF(a: VertexNdc, b: VertexNdc, c: VertexNdc): real
  {
    (c.x - a.x) * (b.y - a.y) - (c.y - a.y) * (b.x - a.x)
  }

  /** Swapping the last two points negates the edge function. */
  lemma EdgeFuncSwap(a: Pixel, b: Pixel, c: Pixel)
    ensures EdgeFunc(a, b, c) == -EdgeFunc(a, c, b)
  {
  }

  /** The edge function is invariant under rotating its three points. */
  lemma EdgeFuncRotate(a: Pixel, b: Pixel, c: Pixel)
    ensures EdgeFunc(a, b, c) == EdgeFunc(b, c, a)
  {
  }

  /** The three edge values at any point sum to the triangle's own edge value
      (the weights the rasterizer normalises by `r_e`). */
  lemma EdgeFuncSum(a: Pixel, b: Pixel, c: Pixel, p: Pixel)
    ensures EdgeFunc(a, b, p) + EdgeFunc(b, c, p) + EdgeFunc(c, a, p) == EdgeFunc(a, b, c)
  {
  }

  lemma EdgeFuncFSwap(a: VertexNdc, b: VertexNdc, c: VertexNdc)
    ensures EdgeFuncF(a, b, c) == -EdgeFuncF(a, c, b)
  {
  }

  /** `dot(v, n)` of vecmat.h: three products plus the constant 1. */
  function PlaneTest(v: VertexNdc, n: Plane): real
  {
    v.x * n.nx + v.y * n.ny + v.z * n.nz + 1.0
  }

  /** The table `N` of clip planes: z, -z, y, -y, x, -x. */
  const Planes: seq<Plane> := [
    Plane(0.0, 0.0, 1.0), Plane(0.0, 0.0, -1.0),
    Plane(0.0, 1.0, 0.0), Plane(0.0, -1.0, 0.0),
    Plane(1.0, 0.0, 0.0), Plane(-1.0, 0.0, 0.0)]

  /** The canonical view volume `[-1, 1]^3`. */
  predicate InCube(v: VertexNdc)
  {
    -1.0 <= v.x <= 1.0 && -1.0 <= v.y <= 1.0 && -1.0 <= v.z <= 1.0
  }

  /** A vertex is in the view volume exactly when it passes all six plane tests. */
  lemma InCubeIffPlanes(v: VertexNdc)
    ensures InCube(v) <==> forall i :: 0 <= i < 6 ==> PlaneTest(v, Planes[i]) >= 0.0
  {
    assert PlaneTest(v, Planes[0]) == v.z + 1.0;
    assert PlaneTest(v, Planes[1]) == 1.0 - v.z;
    assert PlaneTest(v, Planes[2]) == v.y + 1.0;
    assert PlaneTest(v, Planes[3]) == 1.0 - v.y;
    assert PlaneTest(v, Planes[4]) == v.x + 1.0;
    assert PlaneTest(v, Planes[5]) == 1.0 - v.x;
  }

  /** `mix(a, b, t) == (1 - t) * a + b * t` */
  function MixR(a: real, b: real, t: real): real
  {
    (1.0 - t) * a + b * t
  }

  /** `MixVertexFormat` */
  function Mix(a: VertexNdc, b: VertexNdc, t: real): VertexNdc
  {
    VertexNdc(MixR(a.x, b.x, t), MixR(a.y, b.y, t), MixR(a.z, b.z, t),
              MixR(a.w, b.w, t), MixR(a.u, b.u, t), MixR(a.v, b.v, t))
  }

  /** The plane test is affine, so it commutes with interpolation. */
  lemma MixPlaneTest(a: VertexNdc, b: VertexNdc, t: real, n: Plane)
    ensures PlaneTest(Mix(a, b, t), n) == MixR(PlaneTest(a, n), PlaneTest(b, n), t)
  {
    var m := Mix(a, b, t);
    assert m.x * n.nx == (1.0 - t) * (a.x * n.nx) + t * (b.x * n.nx);
    assert m.y * n.ny == (1.0 - t) * (a.y * n.ny) + t * (b.y * n.ny);
    assert m.z * n.nz == (1.0 - t) * (a.z * n.nz) + t * (b.z * n.nz);
  }

  /** Conversion of a float to `uint16_t`. C leaves it undefined outside
      the type's range; the model wraps modulo 2^16 there. */
  function ToU16(i: int): u16
  {
    i % 0x1_0000
  }

  /** The per-vertex quantisation of `PushScreenPos`. */
  function Quantize(v: VertexNdc): ScreenPos
  {
    ScreenPos(ToU16(Trunc(0.5 * (v.x + 1.0) * (WIDTH - 1) as real - 0.5)),
              ToU16(Trunc(0.5 * (v.y + 1.0) * (HEIGHT - 1) as real + 0.5)),
              ToU16(Trunc(DEPTH_MAX as real * (v.z * 0.5 + 0.5))),
              v.u, v.v, v.w)
  }

  /** Screen positions inside the frame, depth inside the depth range. */
  predicate InFrame(p: ScreenPos)
  {
    p.x < WIDTH && p.y < HEIGHT && p.z <= DEPTH_MAX
  }

  /** A vertex of the view volume quantises without wrap-around to a
      position inside the frame. */
  lemma QuantizeInFrame(v: VertexNdc)
    requires InCube(v)
    ensures InFrame(Quantize(v))
    ensures Quantize(v).x == Trunc(0.5 * (v.x + 1.0) * (WIDTH - 1) as real - 0.5)
    ensures Quantize(v).y == Trunc(0.5 * (v.y + 1.0) * (HEIGHT - 1) as real + 0.5)
    ensures Quantize(v).z == Trunc(DEPTH_MAX as real * (v.z * 0.5 + 0.5))
  {
    assert WIDTH == 320 && HEIGHT == 120;
    var rx := 0.5 * (v.x + 1.0) * (WIDTH - 1) as real - 0.5;
    var ry := 0.5 * (v.y + 1.0) * (HEIGHT - 1) as real + 0.5;
    var rz := DEPTH_MAX as real * (v.z * 0.5 + 0.5);
    assert -0.5 <= rx <= 318.5;
    assert 0.5 <= ry <= 119.5;
    assert 0.0 <= rz <= 65535.0;
  }

  /** The texture coordinate packed in a vertex colour, normalised by the
      texture size: low byte for u, high byte for v. */
  function TexCoord(color: u16, size: u16): real
    requires size > 0
  {
    ((color % 0x100) as real) / (size as real)
  }

  /** The vertex appended to `vertexListTemp` for one index. */
  function ToNdc(p: Vertex, project: Vertex -> NdcPos, texW: u16, texH: u16): VertexNdc
    requires texW > 0 && texH > 0
  {
    var n := project(p);
    VertexNdc(n.x, n.y, n.z, n.w, TexCoord(p.color, texW), TexCoord(p.color / 0x100, texH))
  }

  /** Three consecutive screen positions read as one triangle. */
  datatype Tri = Tri(v0: ScreenPos, v1: ScreenPos, v2: ScreenPos)

  function TriAt(sp: seq<ScreenPos>, i: nat): Tri
    requires i + 2 < |sp|
  {
    Tri(sp[i], sp[i + 1], sp[i + 2])
  }

  /** The triangle's axis-aligned bounding box, via `_min` / `_max`. */
  function MinX(t: Tri): int { Min3(t.v0.x, t.v1.x, t.v2.x) }
  function MaxX(t: Tri): int { Max3(t.v0.x, t.v1.x, t.v2.x) }
  function MinY(t: Tri): int { Min3(t.v0.y, t.v1.y, t.v2.y) }
  function MaxY(t: Tri): int { Max3(t.v0.y, t.v1.y, t.v2.y) }

  /** The bounding box shares a pixel with the tile whose top-left pixel is `(tx, ty)`. */
  predicate Overlaps(t: Tri, tx: int, ty: int)
  {
    MinX(t) <= tx + TILE_X_SIZE - 1 && tx <= MaxX(t) &&
    MinY(t) <= ty + TILE_Y_SIZE - 1 && ty <= MaxY(t)
  }

  /** Top-left pixel of tile `k` in row-major tile order. */
  function TileX(k: int): int { (k % TILE_X_DIV) * TILE_X_SIZE }
  function TileY(k: int): int { (k / TILE_X_DIV) * TILE_Y_SIZE }
}
