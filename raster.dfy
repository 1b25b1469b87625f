/** The per-tile rasterizer of `Present`: tile clear, the incrementally
    stepped edge functions, the integer depth test and the wrapped texel fetch.
    Buffers are rows of `TILE_X_SIZE` pixels at offset `base` in the pools. */
module Raster {
  import opened Config
  import opened CInt
  import opened Geometry

  /** The texture installed by `SetTexturePointer`. */
  datatype Texture = Texture(data: seq<ColorType>, width: int, height: int)

  /** What the texel fetch needs: non-zero sizes and a buffer that large.
      The masks keep every fetch inside the buffer whatever the sizes; only
      with power-of-two sizes do they wrap the coordinates (`TexelWraps`). */
  predicate TextureOk(tex: Texture)
  {
    tex.width >= 1 && tex.height >= 1 && |tex.data| == tex.width * tex.height
  }

  /** One pixel of a tile: colour and depth entry. */
  datatype Px = Px(color: ColorType, depth: DepthType)

  function At(v: ScreenPos): Pixel { Pixel(v.x, v.y) }

  /** Tile-relative coordinates of buffer index `k`. */
  function RX(k: int): int { k % TILE_X_SIZE }
  function RY(k: int): int { k / TILE_X_SIZE }

  lemma IndexDecode(rx: int, ry: int)
    requires 0 <= rx < TILE_X_SIZE && 0 <= ry < TILE_Y_SIZE
    ensures 0 <= rx + ry * TILE_X_SIZE < TILE_AREA
    ensures RX(rx + ry * TILE_X_SIZE) == rx && RY(rx + ry * TILE_X_SIZE) == ry
  {
    RowMajorBound(rx, ry, TILE_X_SIZE, TILE_Y_SIZE);
    EuclidUnique(rx + ry * TILE_X_SIZE, TILE_X_SIZE, ry, rx);
  }

  // ---------------------------------------------------------------------
  // Per-triangle quantities

  /** The walked box: the triangle's bounding box cut to the tile. */
  function BoxMinX(t: Tri, tx: int): int { Max(tx, MinX(t)) }
  function BoxMaxX(t: Tri, tx: int): int { Min(tx + TILE_X_SIZE - 1, MaxX(t)) }
  function BoxMinY(t: Tri, ty: int): int { Max(ty, MinY(t)) }
  function BoxMaxY(t: Tri, ty: int): int { Min(ty + TILE_Y_SIZE - 1, MaxY(t)) }

  predicate InBox(t: Tri, tx: int, ty: int, ix: int, iy: int)
  {
    BoxMinX(t, tx) <= ix <= BoxMaxX(t, tx) && BoxMinY(t, ty) <= iy <= BoxMaxY(t, ty)
  }

  /** The three edge values at a pixel, in closed form. */
  function E0(t: Tri, ix: int, iy: int): int { EdgeFunc(At(t.v0), At(t.v1), Pixel(ix, iy)) }
  function E1(t: Tri, ix: int, iy: int): int { EdgeFunc(At(t.v1), At(t.v2), Pixel(ix, iy)) }
  function E2(t: Tri, ix: int, iy: int): int { EdgeFunc(At(t.v2), At(t.v0), Pixel(ix, iy)) }

  /** `r_e = -xca * yab + yca * xab`, forced to 1 when it is 0. */
  function RE(t: Tri): (r: int)
    ensures r != 0
    ensures EdgeFunc(At(t.v0), At(t.v1), At(t.v2)) != 0 ==> r == EdgeFunc(At(t.v0), At(t.v1), At(t.v2))
    ensures EdgeFunc(At(t.v0), At(t.v1), At(t.v2)) == 0 ==> r == 1
  {
    var xab, xca := t.v1.x - t.v0.x, t.v0.x - t.v2.x;
    var yab, yca := t.v1.y - t.v0.y, t.v0.y - t.v2.y;
    var r := -xca * yab + yca * xab;
    if r == 0 then 1 else r
  }

  /** The planar depth gradient, divided with C's truncating `/`. */
  function Zdx(t: Tri): int
  {
    var yab, yca := t.v1.y - t.v0.y, t.v0.y - t.v2.y;
    var zab, zca := t.v1.z - t.v0.z, t.v0.z - t.v2.z;
    CDiv(yca * zab - zca * yab, RE(t))
  }

  function Zdy(t: Tri): int
  {
    var xab, xca := t.v1.x - t.v0.x, t.v0.x - t.v2.x;
    var zab, zca := t.v1.z - t.v0.z, t.v0.z - t.v2.z;
    CDiv(zca * xab - xca * zab, RE(t))
  }

  /** The interpolated depth `zz` at a pixel. */
  function DepthAt(t: Tri, ix: int, iy: int): int
  {
    (ix - t.v0.x) * Zdx(t) + (iy - t.v0.y) * Zdy(t) + t.v0.z
  }

  /** The float texture sum `(a * e1 + b * e2 + c * e0) * size`, converted to `int`. */
  function TexSum(a: real, b: real, c: real, e0: int, e1: int, e2: int, size: int): int
  {
    Trunc((a * e1 as real + b * e2 as real + c * e0 as real) * size as real)
  }

  /** The masked texel index `(u & (w - 1)) + (v & (h - 1)) * w`, always inside the buffer. */
  function MaskedIndex(u: int, v: int, tex: Texture): (i: int)
    requires TextureOk(tex)
    ensures 0 <= i < |tex.data|
  {
    TexelIndexInRange(u, v, tex.width, tex.height, |tex.data|);
    BitAnd(u, tex.width - 1) + BitAnd(v, tex.height - 1) * tex.width
  }

  /** Texel index `u + v * textureWidth` after the division by `r_e` and the masking. */
  function TexelIndex(t: Tri, e0: int, e1: int, e2: int, tex: Texture): (i: int)
    requires TextureOk(tex)
    ensures 0 <= i < |tex.data|
  {
    MaskedIndex(CDiv(TexSum(t.v0.u, t.v1.u, t.v2.u, e0, e1, e2, tex.width), RE(t)),
                CDiv(TexSum(t.v0.v, t.v1.v, t.v2.v, e0, e1, e2, tex.height), RE(t)), tex)
  }

  /** With power-of-two sizes the masked texel index wraps both coordinates
      around the texture, negative ones included. */
  lemma TexelWraps(t: Tri, e0: int, e1: int, e2: int, tex: Texture)
    requires TextureOk(tex) && IsPow2(tex.width) && IsPow2(tex.height)
    ensures var u := CDiv(TexSum(t.v0.u, t.v1.u, t.v2.u, e0, e1, e2, tex.width), RE(t));
      var v := CDiv(TexSum(t.v0.v, t.v1.v, t.v2.v, e0, e1, e2, tex.height), RE(t));
      TexelIndex(t, e0, e1, e2, tex) == u % tex.width + (v % tex.height) * tex.width
  {
    var u := CDiv(TexSum(t.v0.u, t.v1.u, t.v2.u, e0, e1, e2, tex.width), RE(t));
    var v := CDiv(TexSum(t.v0.v, t.v1.v, t.v2.v, e0, e1, e2, tex.height), RE(t));
    MaskIsMod(u, tex.width);
    MaskIsMod(v, tex.height);
  }

  /** The pixel `k` of the tile at `(tx, ty)` after triangle `t` has been
      drawn over `old`: it is written when it lies in the walked box, all
      three edge values are `>= 0` and `zz` is below the stored depth; the
      depth entry, a `uint16_t`, receives `zz` modulo 2^16. */
  function PixelAfter(t: Tri, tx: int, ty: int, tex: Texture, k: int, prev: Px): Px
    requires TextureOk(tex)
  {
    var ix, iy := tx + RX(k), ty + RY(k);
    var e0, e1, e2 := E0(t, ix, iy), E1(t, ix, iy), E2(t, ix, iy);
    var zz := DepthAt(t, ix, iy);
    if InBox(t, tx, ty, ix, iy) && e0 >= 0 && e1 >= 0 && e2 >= 0 && zz < prev.depth then
      Px(tex.data[TexelIndex(t, e0, e1, e2, tex)], zz % 0x1_0000)
    else prev
  }

  // ---------------------------------------------------------------------
  // Tile images

  datatype TileImage = TileImage(color: seq<ColorType>, depth: seq<DepthType>)

  predicate WellSized(img: TileImage)
  {
    |img.color| == TILE_AREA && |img.depth| == TILE_AREA
  }

  /** The tile right after the clear: callback colour, `DEPTH_MAX` depth. */
  function ClearedTile(tx: int, ty: int, clear: (int, int) -> ColorType): (img: TileImage)
    ensures WellSized(img)
  {
    TileImage(seq(TILE_AREA, k => clear(tx + RX(k), ty + RY(k))), seq(TILE_AREA, k => DEPTH_MAX))
  }

  /** The tile after drawing triangle `t` over `img`. */
  function DrawTri(img: TileImage, t: Tri, tx: int, ty: int, tex: Texture): (r: TileImage)
    requires WellSized(img) && TextureOk(tex)
    ensures WellSized(r)
  {
    TileImage(
      seq(TILE_AREA, k requires 0 <= k < TILE_AREA => PixelAfter(t, tx, ty, tex, k, Px(img.color[k], img.depth[k])).color),
      seq(TILE_AREA, k requires 0 <= k < TILE_AREA => PixelAfter(t, tx, ty, tex, k, Px(img.color[k], img.depth[k])).depth))
  }

  // ---------------------------------------------------------------------
  // Properties of one pixel update

  /** A pixel changes only inside the walked box, only where all edge values
      are `>= 0` and only when `zz` passes the depth test; colour and depth
      are then written together. */
  lemma PixelChangesOnlyWhenCovered(t: Tri, tx: int, ty: int, tex: Texture, k: int, prev: Px)
    requires TextureOk(tex)
    ensures var ix, iy := tx + RX(k), ty + RY(k);
      var r := PixelAfter(t, tx, ty, tex, k, prev);
      r == prev || (InBox(t, tx, ty, ix, iy) && E0(t, ix, iy) >= 0 && E1(t, ix, iy) >= 0 && E2(t, ix, iy) >= 0
                   && DepthAt(t, ix, iy) < prev.depth
                   && r.depth == DepthAt(t, ix, iy) % 0x1_0000
                   && r.color == tex.data[TexelIndex(t, E0(t, ix, iy), E1(t, ix, iy), E2(t, ix, iy), tex)])
  {
  }

  /** With a non-negative `zz` the stored depth never increases. */
  lemma DepthNeverFarther(t: Tri, tx: int, ty: int, tex: Texture, k: int, prev: Px)
    requires TextureOk(tex)
    requires DepthAt(t, tx + RX(k), ty + RY(k)) >= 0
    ensures PixelAfter(t, tx, ty, tex, k, prev).depth <= prev.depth
  {
  }

  /** Pixels outside the triangle's box cut to the tile are never touched. */
  lemma OutsideBoxUntouched(t: Tri, tx: int, ty: int, tex: Texture, k: int, prev: Px)
    requires TextureOk(tex) && !InBox(t, tx, ty, tx + RX(k), ty + RY(k))
    ensures PixelAfter(t, tx, ty, tex, k, prev) == prev
  {
  }

  /** A triangle whose bounding box misses the tile changes nothing in it,
      which is why the binner may over-approximate. */
  lemma NoOverlapNoChange(t: Tri, tx: int, ty: int, tex: Texture, img: TileImage)
    requires TextureOk(tex) && WellSized(img) && !Overlaps(t, tx, ty)
    ensures DrawTri(img, t, tx, ty, tex) == img
  {
    var r := DrawTri(img, t, tx, ty, tex);
    forall k | 0 <= k < TILE_AREA
      ensures r.color[k] == img.color[k] && r.depth[k] == img.depth[k]
    {
      assert !InBox(t, tx, ty, tx + RX(k), ty + RY(k));
    }
  }

  /** Whether triangle `t` covers pixel `k` of the tile, and the texel it would write there. */
  predicate Covers(t: Tri, tx: int, ty: int, k: int)
  {
    var ix, iy := tx + RX(k), ty + RY(k);
    InBox(t, tx, ty, ix, iy) && E0(t, ix, iy) >= 0 && E1(t, ix, iy) >= 0 && E2(t, ix, iy) >= 0
  }

  function TexelAt(t: Tri, tx: int, ty: int, tex: Texture, k: int): ColorType
    requires TextureOk(tex)
  {
    var ix, iy := tx + RX(k), ty + RY(k);
    tex.data[TexelIndex(t, E0(t, ix, iy), E1(t, ix, iy), E2(t, ix, iy), tex)]
  }

  /** The depth-tested write of one pixel. */
  function Update(cov: bool, c: ColorType, z: int, prev: Px): Px
  {
    if cov && z < prev.depth then Px(c, z % 0x1_0000) else prev
  }

  lemma PixelAfterIsUpdate(t: Tri, tx: int, ty: int, tex: Texture, k: int, prev: Px)
    requires TextureOk(tex)
    ensures PixelAfter(t, tx, ty, tex, k, prev)
         == Update(Covers(t, tx, ty, k), TexelAt(t, tx, ty, tex, k), DepthAt(t, tx + RX(k), ty + RY(k)), prev)
  {
  }

  lemma UpdateCommutes(cov1: bool, c1: ColorType, z1: int, cov2: bool, c2: ColorType, z2: int, prev: Px)
    requires 0 <= z1 < 0x1_0000 && 0 <= z2 < 0x1_0000 && z1 != z2
    ensures Update(cov2, c2, z2, Update(cov1, c1, z1, prev)) == Update(cov1, c1, z1, Update(cov2, c2, z2, prev))
    ensures cov1 && cov2 && z1 < z2 && z1 < prev.depth ==> Update(cov2, c2, z2, Update(cov1, c1, z1, prev)) == Px(c1, z1)
  {
    assert z1 % 0x1_0000 == z1 && z2 % 0x1_0000 == z2;
  }

  /** Two triangles at different in-range depths leave the same pixel in
      either drawing order; when both cover it and the nearer one passes the
      depth test, the pixel holds the nearer one's texel and depth. */
  lemma DepthOrderIndependent(t1: Tri, t2: Tri, tx: int, ty: int, tex: Texture, k: int, prev: Px)
    requires TextureOk(tex)
    requires 0 <= DepthAt(t1, tx + RX(k), ty + RY(k)) < 0x1_0000
    requires 0 <= DepthAt(t2, tx + RX(k), ty + RY(k)) < 0x1_0000
    requires DepthAt(t1, tx + RX(k), ty + RY(k)) != DepthAt(t2, tx + RX(k), ty + RY(k))
    ensures PixelAfter(t2, tx, ty, tex, k, PixelAfter(t1, tx, ty, tex, k, prev))
         == PixelAfter(t1, tx, ty, tex, k, PixelAfter(t2, tx, ty, tex, k, prev))
    ensures Covers(t1, tx, ty, k) && Covers(t2, tx, ty, k)
            && DepthAt(t1, tx + RX(k), ty + RY(k)) < DepthAt(t2, tx + RX(k), ty + RY(k))
            && DepthAt(t1, tx + RX(k), ty + RY(k)) < prev.depth
         ==> PixelAfter(t2, tx, ty, tex, k, PixelAfter(t1, tx, ty, tex, k, prev))
             == Px(TexelAt(t1, tx, ty, tex, k), DepthAt(t1, tx + RX(k), ty + RY(k)))
  {
    var cov1, c1, z1 := Covers(t1, tx, ty, k), TexelAt(t1, tx, ty, tex, k), DepthAt(t1, tx + RX(k), ty + RY(k));
    var cov2, c2, z2 := Covers(t2, tx, ty, k), TexelAt(t2, tx, ty, tex, k), DepthAt(t2, tx + RX(k), ty + RY(k));
    var a1, a2 := PixelAfter(t1, tx, ty, tex, k, prev), PixelAfter(t2, tx, ty, tex, k, prev);
    PixelAfterIsUpdate(t1, tx, ty, tex, k, prev);
    PixelAfterIsUpdate(t2, tx, ty, tex, k, prev);
    PixelAfterIsUpdate(t2, tx, ty, tex, k, a1);
    PixelAfterIsUpdate(t1, tx, ty, tex, k, a2);
    UpdateCommutes(cov1, c1, z1, cov2, c2, z2, prev);
  }

  /** Stepping one pixel right adds `b.y - a.y`, one row down subtracts `b.x - a.x`. */
  lemma EdgeStep(a: Pixel, b: Pixel, x: int, y: int)
    ensures EdgeFunc(a, b, Pixel(x + 1, y)) == EdgeFunc(a, b, Pixel(x, y)) + (b.y - a.y)
    ensures EdgeFunc(a, b, Pixel(x, y + 1)) == EdgeFunc(a, b, Pixel(x, y)) - (b.x - a.x)
  {
  }

  /** `e0, e1, e2` are the three edge values at pixel `(ix, iy)`. */
  predicate Edges(t: Tri, ix: int, iy: int, e0: int, e1: int, e2: int)
  {
    e0 == E0(t, ix, iy) && e1 == E1(t, ix, iy) && e2 == E2(t, ix, iy)
  }

  /** The walk's increments: `+= yab, ybc, yca` per pixel, `-= xab, xbc, xca` per row. */
  lemma EdgesStep(t: Tri, ix: int, iy: int, e0: int, e1: int, e2: int)
    requires Edges(t, ix, iy, e0, e1, e2)
    ensures Edges(t, ix + 1, iy, e0 + (t.v1.y - t.v0.y), e1 + (t.v2.y - t.v1.y), e2 + (t.v0.y - t.v2.y))
    ensures Edges(t, ix, iy + 1, e0 - (t.v1.x - t.v0.x), e1 - (t.v2.x - t.v1.x), e2 - (t.v0.x - t.v2.x))
  {
    EdgeStep(At(t.v0), At(t.v1), ix, iy);
    EdgeStep(At(t.v1), At(t.v2), ix, iy);
    EdgeStep(At(t.v2), At(t.v0), ix, iy);
  }

  /** The start value the source forms in two steps: at the tile-relative
      box corner, then shifted by the tile origin. */
  lemma EdgeStart(a: Pixel, b: Pixel, rtx: int, rty: int, tx: int, ty: int)
    ensures (rtx - a.x) * (b.y - a.y) - (rty - a.y) * (b.x - a.x) - ty * (b.x - a.x) + tx * (b.y - a.y)
         == EdgeFunc(a, b, Pixel(tx + rtx, ty + rty))
  {
    var xab, yab := b.x - a.x, b.y - a.y;
    assert (rtx - a.x) * yab + tx * yab == (tx + rtx - a.x) * yab;
    assert (rty - a.y) * xab + ty * xab == (ty + rty - a.y) * xab;
  }

  // ---------------------------------------------------------------------
  // The partly drawn tile, for the loop invariants of the walk

  function PxAt(img: TileImage, k: int): Px
    requires WellSized(img) && 0 <= k < TILE_AREA
  {
    Px(img.color[k], img.depth[k])
  }

  function SetPx(img: TileImage, k: int, p: Px): (r: TileImage)
    requires WellSized(img) && 0 <= k < TILE_AREA
    ensures WellSized(r)
  {
    TileImage(img.color[k := p.color], img.depth[k := p.depth])
  }

  /** Pixel `k` has been visited once the walk reached tile-relative row `ry`,
      column `rx`; only pixels of the walked box are visited. */
  predicate Done(t: Tri, tx: int, ty: int, k: int, rx: int, ry: int)
  {
    InBox(t, tx, ty, tx + RX(k), ty + RY(k)) && (RY(k) < ry || (RY(k) == ry && RX(k) < rx))
  }

  /** `img0` with the visited pixels drawn. */
  function Partial(img0: TileImage, t: Tri, tx: int, ty: int, tex: Texture, rx: int, ry: int): (r: TileImage)
    requires WellSized(img0) && TextureOk(tex)
    ensures WellSized(r)
  {
    TileImage(
      seq(TILE_AREA, k requires 0 <= k < TILE_AREA =>
        if Done(t, tx, ty, k, rx, ry) then PixelAfter(t, tx, ty, tex, k, PxAt(img0, k)).color else img0.color[k]),
      seq(TILE_AREA, k requires 0 <= k < TILE_AREA =>
        if Done(t, tx, ty, k, rx, ry) then PixelAfter(t, tx, ty, tex, k, PxAt(img0, k)).depth else img0.depth[k]))
  }

  lemma PartialNone(img0: TileImage, t: Tri, tx: int, ty: int, tex: Texture, ry: int)
    requires WellSized(img0) && TextureOk(tex) && ry <= BoxMinY(t, ty) - ty
    ensures Partial(img0, t, tx, ty, tex, 0, ry) == img0
  {
    var r := Partial(img0, t, tx, ty, tex, 0, ry);
    forall k | 0 <= k < TILE_AREA
      ensures r.color[k] == img0.color[k] && r.depth[k] == img0.depth[k]
    {
      assert !Done(t, tx, ty, k, 0, ry);
    }
  }

  lemma PartialRowStart(img0: TileImage, t: Tri, tx: int, ty: int, tex: Texture, rx: int, ry: int)
    requires WellSized(img0) && TextureOk(tex) && rx <= BoxMinX(t, tx) - tx
    ensures Partial(img0, t, tx, ty, tex, rx, ry) == Partial(img0, t, tx, ty, tex, 0, ry)
  {
    var r, r' := Partial(img0, t, tx, ty, tex, rx, ry), Partial(img0, t, tx, ty, tex, 0, ry);
    forall k | 0 <= k < TILE_AREA
      ensures r.color[k] == r'.color[k] && r.depth[k] == r'.depth[k]
    {
      assert Done(t, tx, ty, k, rx, ry) == Done(t, tx, ty, k, 0, ry);
    }
  }

  lemma PartialRowEnd(img0: TileImage, t: Tri, tx: int, ty: int, tex: Texture, rx: int, ry: int)
    requires WellSized(img0) && TextureOk(tex) && rx > BoxMaxX(t, tx) - tx
    ensures Partial(img0, t, tx, ty, tex, rx, ry) == Partial(img0, t, tx, ty, tex, 0, ry + 1)
  {
    var r, r' := Partial(img0, t, tx, ty, tex, rx, ry), Partial(img0, t, tx, ty, tex, 0, ry + 1);
    forall k | 0 <= k < TILE_AREA
      ensures r.color[k] == r'.color[k] && r.depth[k] == r'.depth[k]
    {
      assert Done(t, tx, ty, k, rx, ry) == Done(t, tx, ty, k, 0, ry + 1);
    }
  }

  lemma PartialAll(img0: TileImage, t: Tri, tx: int, ty: int, tex: Texture, ry: int)
    requires WellSized(img0) && TextureOk(tex) && ry > BoxMaxY(t, ty) - ty
    ensures Partial(img0, t, tx, ty, tex, 0, ry) == DrawTri(img0, t, tx, ty, tex)
  {
    var r, r' := Partial(img0, t, tx, ty, tex, 0, ry), DrawTri(img0, t, tx, ty, tex);
    forall k | 0 <= k < TILE_AREA
      ensures r.color[k] == r'.color[k] && r.depth[k] == r'.depth[k]
    {
      assert Done(t, tx, ty, k, 0, ry) == InBox(t, tx, ty, tx + RX(k), ty + RY(k));
    }
  }

  /** Visiting pixel `(rx, ry)` of the box extends the drawn part by that pixel. */
  lemma PartialStep(img0: TileImage, t: Tri, tx: int, ty: int, tex: Texture, rx: int, ry: int)
    requires WellSized(img0) && TextureOk(tex) && InBox(t, tx, ty, tx + rx, ty + ry)
    ensures 0 <= rx + ry * TILE_X_SIZE < TILE_AREA
    ensures PxAt(Partial(img0, t, tx, ty, tex, rx, ry), rx + ry * TILE_X_SIZE) == PxAt(img0, rx + ry * TILE_X_SIZE)
    ensures Partial(img0, t, tx, ty, tex, rx + 1, ry)
         == SetPx(Partial(img0, t, tx, ty, tex, rx, ry), rx + ry * TILE_X_SIZE,
                  PixelAfter(t, tx, ty, tex, rx + ry * TILE_X_SIZE, PxAt(img0, rx + ry * TILE_X_SIZE)))
  {
    IndexDecode(rx, ry);
    var k0 := rx + ry * TILE_X_SIZE;
    var r := Partial(img0, t, tx, ty, tex, rx, ry);
    var r' := Partial(img0, t, tx, ty, tex, rx + 1, ry);
    var s := SetPx(r, k0, PixelAfter(t, tx, ty, tex, k0, PxAt(img0, k0)));
    assert !Done(t, tx, ty, k0, rx, ry);
    forall k | 0 <= k < TILE_AREA
      ensures r'.color[k] == s.color[k] && r'.depth[k] == s.depth[k]
    {
      if k != k0 {
        assert k == RX(k) + RY(k) * TILE_X_SIZE;
        assert Done(t, tx, ty, k, rx + 1, ry) == Done(t, tx, ty, k, rx, ry);
      }
    }
  }

  /** `PartialStep` in the form the walk uses: writing the visited pixel's
      new value into the current image `cur` gives the next partial image. */
  lemma PartialVisit(img0: TileImage, cur: TileImage, t: Tri, tx: int, ty: int, tex: Texture, rx: int, ry: int)
    requires WellSized(img0) && TextureOk(tex) && InBox(t, tx, ty, tx + rx, ty + ry)
    requires cur == Partial(img0, t, tx, ty, tex, rx, ry)
    ensures 0 <= rx + ry * TILE_X_SIZE < TILE_AREA
    ensures SetPx(cur, rx + ry * TILE_X_SIZE, PixelAfter(t, tx, ty, tex, rx + ry * TILE_X_SIZE, PxAt(cur, rx + ry * TILE_X_SIZE)))
         == Partial(img0, t, tx, ty, tex, rx + 1, ry)
  {
    PartialStep(img0, t, tx, ty, tex, rx, ry);
  }

  // ---------------------------------------------------------------------
  // The two loops of `Present` that work on a tile's buffers

  /** Tile buffers at `base` lie inside the two (distinct) pools. */
  predicate Slot(colorPool: array<ColorType>, depthPool: array<DepthType>, base: int)
  {
    colorPool != depthPool && 0 <= base && base + TILE_AREA <= colorPool.Length && base + TILE_AREA <= depthPool.Length
  }

  /** The texture and the masks `Present` derives from its size. */
  predicate Masks(tex: Texture, textureWidthMask: int, textureHeightMask: int)
  {
    TextureOk(tex) && textureWidthMask == tex.width - 1 && textureHeightMask == tex.height - 1
  }

  /** The per-triangle constants the walk precomputes. */
  predicate Coeffs(t: Tri, zdx: int, zdy: int, r_e: int)
  {
    zdx == Zdx(t) && zdy == Zdy(t) && r_e == RE(t)
  }

  /** Nothing in the pools outside the tile buffers at `base` has changed. */
  twostate predicate Outside(colorPool: array<ColorType>, depthPool: array<DepthType>, base: int)
    requires Slot(colorPool, depthPool, base)
    reads colorPool, depthPool
  {
    colorPool[..base] == old(colorPool[..base]) && colorPool[base + TILE_AREA..] == old(colorPool[base + TILE_AREA..])
    && depthPool[..base] == old(depthPool[..base]) && depthPool[base + TILE_AREA..] == old(depthPool[base + TILE_AREA..])
  }

  /** What the tile buffers at `base` in the two pools hold. */
  function Image(colorPool: array<ColorType>, depthPool: array<DepthType>, base: int): (img: TileImage)
    requires Slot(colorPool, depthPool, base)
    reads colorPool, depthPool
    ensures WellSized(img)
  {
    TileImage(colorPool[base..base + TILE_AREA], depthPool[base..base + TILE_AREA])
  }

  /** The first `n` pixels of the tile buffers at `base` are cleared. */
  ghost predicate ClearedUpTo(colorPool: array<ColorType>, depthPool: array<DepthType>, base: int,
                              tx: int, ty: int, clear: (int, int) -> ColorType, n: int)
    requires Slot(colorPool, depthPool, base) && 0 <= n <= TILE_AREA
    reads colorPool, depthPool
  {
    forall k :: 0 <= k < n ==> colorPool[base + k] == clear(tx + RX(k), ty + RY(k)) && depthPool[base + k] == DEPTH_MAX
  }

  /** Clears the tile buffers at `base`: every pixel takes the callback's
      colour for its screen position and the depth `DEPTH_MAX`. */
  method ClearTile(colorPool: array<ColorType>, depthPool: array<DepthType>, base: int,
                   tx: int, ty: int, clear: (int, int) -> ColorType)
    requires Slot(colorPool, depthPool, base)
    modifies colorPool, depthPool
    ensures Image(colorPool, depthPool, base) == ClearedTile(tx, ty, clear)
    ensures Outside(colorPool, depthPool, base)
  {
    ghost var n := 0;
    var y := 0;
    while y < TILE_Y_SIZE
      invariant 0 <= y <= TILE_Y_SIZE && n == y * TILE_X_SIZE
      invariant ClearedUpTo(colorPool, depthPool, base, tx, ty, clear, n)
      invariant forall j :: 0 <= j < colorPool.Length && !(base <= j < base + n) ==> colorPool[j] == old(colorPool[j])
      invariant forall j :: 0 <= j < depthPool.Length && !(base <= j < base + n) ==> depthPool[j] == old(depthPool[j])
    {
      ClearRow(colorPool, depthPool, base, tx, ty, clear, y);
      y := y + 1;
      n := n + TILE_X_SIZE;
    }
    var img, c := Image(colorPool, depthPool, base), ClearedTile(tx, ty, clear);
    forall k | 0 <= k < TILE_AREA
      ensures img.color[k] == c.color[k] && img.depth[k] == c.depth[k]
    {
      assert colorPool[base + k] == clear(tx + RX(k), ty + RY(k));
    }
  }

  /** One pass of the outer loop of `ClearTile`: the pixels of tile row `y`. */
  method ClearRow(colorPool: array<ColorType>, depthPool: array<DepthType>, base: int,
                  tx: int, ty: int, clear: (int, int) -> ColorType, y: int)
    requires Slot(colorPool, depthPool, base) && 0 <= y < TILE_Y_SIZE
    requires ClearedUpTo(colorPool, depthPool, base, tx, ty, clear, y * TILE_X_SIZE)
    modifies colorPool, depthPool
    ensures ClearedUpTo(colorPool, depthPool, base, tx, ty, clear, (y + 1) * TILE_X_SIZE)
    ensures forall j :: 0 <= j < colorPool.Length && !(base + y * TILE_X_SIZE <= j < base + (y + 1) * TILE_X_SIZE) ==> colorPool[j] == old(colorPool[j])
    ensures forall j :: 0 <= j < depthPool.Length && !(base + y * TILE_X_SIZE <= j < base + (y + 1) * TILE_X_SIZE) ==> depthPool[j] == old(depthPool[j])
  {
    ghost var n := y * TILE_X_SIZE;
    var x := 0;
    while x < TILE_X_SIZE
      invariant 0 <= x <= TILE_X_SIZE && n == y * TILE_X_SIZE + x
      invariant ClearedUpTo(colorPool, depthPool, base, tx, ty, clear, n)
      invariant forall j :: 0 <= j < colorPool.Length && !(base + y * TILE_X_SIZE <= j < base + n) ==> colorPool[j] == old(colorPool[j])
      invariant forall j :: 0 <= j < depthPool.Length && !(base + y * TILE_X_SIZE <= j < base + n) ==> depthPool[j] == old(depthPool[j])
    {
      var i := x + y * TILE_X_SIZE;
      IndexDecode(x, y);
      colorPool[base + i] := clear(tx + x, ty + y);
      depthPool[base + i] := DEPTH_MAX;
      x := x + 1;
      n := n + 1;
    }
  }

  /** The depth store of one pixel. */
  method StoreDepth(colorPool: array<ColorType>, depthPool: array<DepthType>, base: int, idx: int, d: DepthType)
    requires Slot(colorPool, depthPool, base) && 0 <= idx < TILE_AREA
    modifies depthPool
    ensures Image(colorPool, depthPool, base) == old(Image(colorPool, depthPool, base)).(depth := old(depthPool[base..base + TILE_AREA])[idx := d])
    ensures Outside(colorPool, depthPool, base)
  {
    depthPool[base + idx] := d;
    assert depthPool[base..base + TILE_AREA] == old(depthPool[base..base + TILE_AREA])[idx := d];
  }

  /** The colour store of one pixel. */
  method StoreColor(colorPool: array<ColorType>, depthPool: array<DepthType>, base: int, idx: int, c: ColorType)
    requires Slot(colorPool, depthPool, base) && 0 <= idx < TILE_AREA
    modifies colorPool
    ensures Image(colorPool, depthPool, base) == old(Image(colorPool, depthPool, base)).(color := old(colorPool[base..base + TILE_AREA])[idx := c])
    ensures Outside(colorPool, depthPool, base)
  {
    colorPool[base + idx] := c;
    assert colorPool[base..base + TILE_AREA] == old(colorPool[base..base + TILE_AREA])[idx := c];
  }

  /** A pixel that passed the edge and depth tests: the depth store, the
      texture coordinates and the texel fetch. */
  method ShadePixel(colorPool: array<ColorType>, depthPool: array<DepthType>, base: int,
                    t: Tri, tex: Texture, textureWidthMask: int, textureHeightMask: int,
                    idx: int, e0: int, e1: int, e2: int, r_e: int, zz: int)
    requires Slot(colorPool, depthPool, base) && Masks(tex, textureWidthMask, textureHeightMask)
    requires 0 <= idx < TILE_AREA && r_e == RE(t)
    modifies colorPool, depthPool
    ensures Image(colorPool, depthPool, base)
         == SetPx(old(Image(colorPool, depthPool, base)), idx, Px(tex.data[TexelIndex(t, e0, e1, e2, tex)], zz % 0x1_0000))
    ensures Outside(colorPool, depthPool, base)
  {
    StoreDepth(colorPool, depthPool, base, idx, zz % 0x1_0000);
    var u := TexSum(t.v0.u, t.v1.u, t.v2.u, e0, e1, e2, tex.width);
    var v := TexSum(t.v0.v, t.v1.v, t.v2.v, e0, e1, e2, tex.height);
    u := CDiv(u, r_e);
    v := CDiv(v, r_e);
    TexelIndexInRange(u, v, tex.width, tex.height, |tex.data|);
    ghost var texel := MaskedIndex(u, v, tex);
    u := BitAnd(u, textureWidthMask);
    v := BitAnd(v, textureHeightMask);
    assert u + v * tex.width == texel == TexelIndex(t, e0, e1, e2, tex);
    StoreColor(colorPool, depthPool, base, idx, tex.data[u + v * tex.width]);
  }

  /** The body of the inner pixel loop at tile-relative `(rx, ry)`, with the
      stepped edge values `e0, e1, e2`: the edge test, the integer depth
      test and, when both pass, the depth store and the texel fetch. */
  method VisitPixel(colorPool: array<ColorType>, depthPool: array<DepthType>, base: int,
                    tx: int, ty: int, t: Tri, tex: Texture, textureWidthMask: int, textureHeightMask: int,
                    rx: int, ry: int, e0: int, e1: int, e2: int, zdx: int, zdy: int, r_e: int)
    requires Slot(colorPool, depthPool, base)
    requires Masks(tex, textureWidthMask, textureHeightMask)
    requires InBox(t, tx, ty, tx + rx, ty + ry)
    requires Edges(t, tx + rx, ty + ry, e0, e1, e2)
    requires Coeffs(t, zdx, zdy, r_e)
    modifies colorPool, depthPool
    ensures 0 <= rx + ry * TILE_X_SIZE < TILE_AREA
    ensures Image(colorPool, depthPool, base)
         == SetPx(old(Image(colorPool, depthPool, base)), rx + ry * TILE_X_SIZE,
                  PixelAfter(t, tx, ty, tex, rx + ry * TILE_X_SIZE, PxAt(old(Image(colorPool, depthPool, base)), rx + ry * TILE_X_SIZE)))
    ensures Outside(colorPool, depthPool, base)
  {
    IndexDecode(rx, ry);
    var idx := rx + ry * TILE_X_SIZE;
    ghost var cur := Image(colorPool, depthPool, base);
    ghost var want := PixelAfter(t, tx, ty, tex, idx, PxAt(cur, idx));
    if e0 >= 0 && e1 >= 0 && e2 >= 0 {
      var zz := 0;
      zz := zz + (tx + rx - t.v0.x) * zdx;
      zz := zz + (ty + ry - t.v0.y) * zdy;
      zz := zz + t.v0.z;
      assert zz == DepthAt(t, tx + rx, ty + ry);
      if zz < depthPool[base + idx] {
        ShadePixel(colorPool, depthPool, base, t, tex, textureWidthMask, textureHeightMask, idx, e0, e1, e2, r_e, zz);
        assert want == Px(tex.data[TexelIndex(t, e0, e1, e2, tex)], zz % 0x1_0000);
      } else {
        assert want == PxAt(cur, idx);
      }
    } else {
      assert want == PxAt(cur, idx);
    }
  }

  /** `VisitPixel` seen from the walk: the drawn part grows by pixel `(rx, ry)`. */
  method StepPixel(colorPool: array<ColorType>, depthPool: array<DepthType>, base: int,
                   tx: int, ty: int, t: Tri, tex: Texture, textureWidthMask: int, textureHeightMask: int,
                   ghost img0: TileImage, rx: int, ry: int, e0: int, e1: int, e2: int, zdx: int, zdy: int, r_e: int)
    requires Slot(colorPool, depthPool, base)
    requires Masks(tex, textureWidthMask, textureHeightMask)
    requires InBox(t, tx, ty, tx + rx, ty + ry)
    requires Edges(t, tx + rx, ty + ry, e0, e1, e2)
    requires Coeffs(t, zdx, zdy, r_e)
    requires WellSized(img0) && Image(colorPool, depthPool, base) == Partial(img0, t, tx, ty, tex, rx, ry)
    modifies colorPool, depthPool
    ensures Image(colorPool, depthPool, base) == Partial(img0, t, tx, ty, tex, rx + 1, ry)
    ensures Outside(colorPool, depthPool, base)
  {
    ghost var cur := Image(colorPool, depthPool, base);
    PartialVisit(img0, cur, t, tx, ty, tex, rx, ry);
    VisitPixel(colorPool, depthPool, base, tx, ty, t, tex, textureWidthMask, textureHeightMask,
               rx, ry, e0, e1, e2, zdx, zdy, r_e);
  }

  /** One row `iy` of the walk over the box, from `min_x` to `max_x`, with
      the edge values at the row's first pixel: the drawn part grows by
      exactly the box pixels of that row. */
  method RasterRow(colorPool: array<ColorType>, depthPool: array<DepthType>, base: int,
                   tx: int, ty: int, t: Tri, tex: Texture, textureWidthMask: int, textureHeightMask: int,
                   ghost img0: TileImage, iy: int, eab: int, ebc: int, eca: int, zdx: int, zdy: int, r_e: int)
    requires Slot(colorPool, depthPool, base)
    requires Masks(tex, textureWidthMask, textureHeightMask)
    requires WellSized(img0) && BoxMinY(t, ty) <= iy <= BoxMaxY(t, ty)
    requires Edges(t, BoxMinX(t, tx), iy, eab, ebc, eca)
    requires Coeffs(t, zdx, zdy, r_e)
    requires Image(colorPool, depthPool, base) == Partial(img0, t, tx, ty, tex, 0, iy - ty)
    modifies colorPool, depthPool
    ensures Image(colorPool, depthPool, base) == Partial(img0, t, tx, ty, tex, 0, iy - ty + 1)
    ensures Outside(colorPool, depthPool, base)
  {
    var min_x, max_x := BoxMinX(t, tx), BoxMaxX(t, tx);
    var yab, ybc, yca := t.v1.y - t.v0.y, t.v2.y - t.v1.y, t.v0.y - t.v2.y;
    var ry := iy - ty;
    var e0, e1, e2 := eab, ebc, eca;
    var rx := min_x - tx;
    var ix := min_x;
    PartialRowStart(img0, t, tx, ty, tex, rx, ry);
    while ix <= max_x
      invariant min_x <= ix && (ix <= max_x + 1 || ix == min_x) && rx == ix - tx
      invariant Edges(t, ix, iy, e0, e1, e2)
      invariant Image(colorPool, depthPool, base) == Partial(img0, t, tx, ty, tex, rx, ry)
      invariant Outside(colorPool, depthPool, base)
    {
      StepPixel(colorPool, depthPool, base, tx, ty, t, tex, textureWidthMask, textureHeightMask,
                img0, rx, ry, e0, e1, e2, zdx, zdy, r_e);
      EdgesStep(t, ix, iy, e0, e1, e2);
      e0, e1, e2 := e0 + yab, e1 + ybc, e2 + yca;
      rx := rx + 1;
      ix := ix + 1;
    }
    PartialRowEnd(img0, t, tx, ty, tex, rx, ry);
  }

  /** The outer loop of the walk, over the rows `min_y..max_y` of the box,
      from the edge values at the box corner. */
  method WalkRows(colorPool: array<ColorType>, depthPool: array<DepthType>, base: int,
                  tx: int, ty: int, t: Tri, tex: Texture, textureWidthMask: int, textureHeightMask: int,
                  eab0: int, ebc0: int, eca0: int, zdx: int, zdy: int, r_e: int)
    requires Slot(colorPool, depthPool, base)
    requires Masks(tex, textureWidthMask, textureHeightMask)
    requires Edges(t, BoxMinX(t, tx), BoxMinY(t, ty), eab0, ebc0, eca0)
    requires Coeffs(t, zdx, zdy, r_e)
    modifies colorPool, depthPool
    ensures Image(colorPool, depthPool, base) == DrawTri(old(Image(colorPool, depthPool, base)), t, tx, ty, tex)
    ensures Outside(colorPool, depthPool, base)
  {
    ghost var img0 := Image(colorPool, depthPool, base);
    var min_x, min_y, max_y := BoxMinX(t, tx), BoxMinY(t, ty), BoxMaxY(t, ty);
    var xab, xbc, xca := t.v1.x - t.v0.x, t.v2.x - t.v1.x, t.v0.x - t.v2.x;
    var eab, ebc, eca := eab0, ebc0, eca0;
    var ry := min_y - ty;
    var iy := min_y;
    PartialNone(img0, t, tx, ty, tex, ry);
    while iy <= max_y
      invariant min_y <= iy && (iy <= max_y + 1 || iy == min_y) && ry == iy - ty
      invariant Edges(t, min_x, iy, eab, ebc, eca)
      invariant Image(colorPool, depthPool, base) == Partial(img0, t, tx, ty, tex, 0, ry)
      invariant Outside(colorPool, depthPool, base)
    {
      RasterRow(colorPool, depthPool, base, tx, ty, t, tex, textureWidthMask, textureHeightMask,
                img0, iy, eab, ebc, eca, zdx, zdy, r_e);
      EdgesStep(t, min_x, iy, eab, ebc, eca);
      eab, ebc, eca := eab - xab, ebc - xbc, eca - xca;
      ry := ry + 1;
      iy := iy + 1;
    }
    PartialAll(img0, t, tx, ty, tex, ry);
  }

  /** Draws triangle `t` into the tile buffers at `base`: the tile becomes
      `DrawTri` of what it held, and nothing outside it changes. */
  method RasterTriangle(colorPool: array<ColorType>, depthPool: array<DepthType>, base: int,
                        tx: int, ty: int, t: Tri, tex: Texture, textureWidthMask: int, textureHeightMask: int)
    requires Slot(colorPool, depthPool, base)
    requires Masks(tex, textureWidthMask, textureHeightMask)
    modifies colorPool, depthPool
    ensures Image(colorPool, depthPool, base) == DrawTri(old(Image(colorPool, depthPool, base)), t, tx, ty, tex)
    ensures Outside(colorPool, depthPool, base)
  {
    var v0, v1, v2 := t.v0, t.v1, t.v2;
    var min_x := Max(tx, Min(Min(v0.x, v1.x), v2.x));
    var max_x := Min(tx + TILE_X_SIZE - 1, Max(Max(v0.x, v1.x), v2.x));
    var min_y := Max(ty, Min(Min(v0.y, v1.y), v2.y));
    var max_y := Min(ty + TILE_Y_SIZE - 1, Max(Max(v0.y, v1.y), v2.y));
    var rtx := min_x - tx;
    var rty := min_y - ty;
    var xab, xbc, xca := v1.x - v0.x, v2.x - v1.x, v0.x - v2.x;
    var yab, ybc, yca := v1.y - v0.y, v2.y - v1.y, v0.y - v2.y;
    var eab := (rtx - v0.x) * yab - (rty - v0.y) * xab;
    var ebc := (rtx - v1.x) * ybc - (rty - v1.y) * xbc;
    var eca := (rtx - v2.x) * yca - (rty - v2.y) * xca;
    var r_e := -xca * yab + yca * xab;
    if r_e == 0 {
      r_e := 1;
    }
    var zab, zca := v1.z - v0.z, v0.z - v2.z;
    var zdx := CDiv(yca * zab - zca * yab, r_e);
    var zdy := CDiv(zca * xab - xca * zab, r_e);
    eab, ebc, eca := eab - ty * xab, ebc - ty * xbc, eca - ty * xca;
    eab, ebc, eca := eab + tx * yab, ebc + tx * ybc, eca + tx * yca;
    EdgeStart(At(v0), At(v1), rtx, rty, tx, ty);
    EdgeStart(At(v1), At(v2), rtx, rty, tx, ty);
    EdgeStart(At(v2), At(v0), rtx, rty, tx, ty);

    assert Edges(t, min_x, min_y, eab, ebc, eca);
    assert Coeffs(t, zdx, zdy, r_e);
    WalkRows(colorPool, depthPool, base, tx, ty, t, tex, textureWidthMask, textureHeightMask,
             eab, ebc, eca, zdx, zdy, r_e);
  }
}
