/** The renderer's state and its entry points: `Reset`, the setters,
    `DrawIndex` (transform, clip, fan, cull and quantise every buffered
    triangle) and `Present` (bin the screen positions, then clear, raster
    and hand over every tile). */
module Renderer {
  import opened Config
  import opened CInt
  import opened Geometry
  import opened Containers
  import opened Clip
  import opened Fan
  import opened Binner
  import opened Raster

  /** One `blit::Request`: the destination rectangle, the pool slot the
      tile buffers sit in, what those buffers hold when the request is
      made, and the line-doubling factor `EXT_NUM`. */
  datatype Request = Request(x: int, y: int, w: int, h: int, slot: int, image: TileImage, ext: int)

  // ---------------------------------------------------------------------
  // DrawIndex, as values

  /** The vertices the first loop of `DrawIndex(n)` appends: vertex
      `indices[i]`, transformed, with its colour's bytes as texture coordinates. */
  function Gathered(vertices: seq<Vertex>, indices: seq<IndexType>, n: nat,
                    project: Vertex -> NdcPos, texW: u16, texH: u16): (g: seq<VertexNdc>)
    requires n <= |indices| && (forall i :: 0 <= i < n ==> indices[i] < |vertices|)
    requires texW > 0 && texH > 0
    ensures |g| == n
  {
    seq(n, i requires 0 <= i < n => ToNdc(vertices[indices[i]], project, texW, texH))
  }

  lemma GatheredNext(vertices: seq<Vertex>, indices: seq<IndexType>, n: nat,
                     project: Vertex -> NdcPos, texW: u16, texH: u16)
    requires n < |indices| && (forall i :: 0 <= i <= n ==> indices[i] < |vertices|)
    requires texW > 0 && texH > 0
    ensures Gathered(vertices, indices, n + 1, project, texW, texH)
         == Gathered(vertices, indices, n, project, texW, texH) + [ToNdc(vertices[indices[n]], project, texW, texH)]
  {
  }

  /** The fixed-size vertex array after `g` has been written from slot `at` on. */
  function Staged(obj: seq<VertexNdc>, at: nat, g: seq<VertexNdc>): (w: seq<VertexNdc>)
    requires at + |g| <= |obj|
    ensures |w| == |obj| && w[..at + |g|] == obj[..at] + g
  {
    obj[..at] + g + obj[at + |g|..]
  }

  lemma StagedPush(obj: seq<VertexNdc>, at: nat, g: seq<VertexNdc>, x: VertexNdc)
    requires at + |g| < |obj|
    ensures Staged(obj, at, g)[at + |g| := x] == Staged(obj, at, g + [x])
  {
    var a, b := Staged(obj, at, g)[at + |g| := x], Staged(obj, at, g + [x]);
    forall j | 0 <= j < |a|
      ensures a[j] == b[j]
    {
      if j < at {
        assert a[j] == obj[j] == b[j];
      } else if j < at + |g| {
        assert a[j] == g[j - at] == b[j];
      } else if j > at + |g| {
        assert a[j] == obj[j] == b[j];
      }
    }
  }

  /** Number of triangles the second loop of `DrawIndex` visits for `b`
      buffered vertices: it steps by three while below `b`, so a partial
      last triangle is read too. */
  function TriangleCount(b: nat): nat
  {
    (b + 2) / 3
  }

  /** The two clip buckets `bucket[0]` and `bucket[1]`. */
  ghost predicate Buckets(b0: Container<VertexNdc>, b1: Container<VertexNdc>)
    reads b0, b1
  {
    b0 != b1 && b0.obj != b1.obj && b0.Valid() && b1.Valid()
    && b0.obj.Length == MAX_CLIP_COUNT && b1.obj.Length == MAX_CLIP_COUNT
  }

  /** The polygon in `bucket[i & 1]`. */
  ghost function Cur(b0: Container<VertexNdc>, b1: Container<VertexNdc>, i: nat): seq<VertexNdc>
    reads b0, b0.obj, b1, b1.obj
    requires Buckets(b0, b1)
  {
    if i % 2 == 0 then b0.Contents() else b1.Contents()
  }

  /** One pass of the clip loop: clear `bucket[(i + 1) & 1]`, stop if
      `bucket[i & 1]` is empty, otherwise clip it into the other bucket. */
  method ClipStep(b0: Container<VertexNdc>, b1: Container<VertexNdc>, i: nat) returns (isDone: bool)
    requires Buckets(b0, b1) && i < 6
    requires |Cur(b0, b1, i)| > 0 ==> |Pass(Cur(b0, b1, i), Planes[i])| <= MAX_CLIP_COUNT
    modifies b0, b0.obj, b1, b1.obj
    ensures Buckets(b0, b1)
    ensures isDone <==> |old(Cur(b0, b1, i))| == 0
    ensures !isDone ==> Cur(b0, b1, i + 1) == Pass(old(Cur(b0, b1, i)), Planes[i])
  {
    var src := if i % 2 == 0 then b0 else b1;
    var dest := if i % 2 == 0 then b1 else b0;
    dest.Clear();
    var count := src.Size();
    if count <= 0 {
      return true;
    }
    ClipPass(src, dest, Planes[i]);
    return false;
  }

  /** The six clip passes of `DrawIndex`, ping-ponging between the two
      buckets. `isDone` when a pass finds nothing to clip; otherwise the
      clipped polygon ends up in `bucket[0]`. */
  method ClipBuckets(b0: Container<VertexNdc>, b1: Container<VertexNdc>, a: VertexNdc, b: VertexNdc, c: VertexNdc)
    returns (isDone: bool)
    requires Buckets(b0, b1) && ClipFitsFrom([a, b, c], 0)
    modifies b0, b0.obj, b1, b1.obj
    ensures Buckets(b0, b1)
    ensures isDone <==> ClipTriangle(a, b, c) == None
    ensures !isDone ==> ClipTriangle(a, b, c) == Some(b0.Contents())
  {
    b0.Clear();
    b1.Clear();
    b0.PushBack(a);
    b0.PushBack(b);
    b0.PushBack(c);
    assert Cur(b0, b1, 0) == [a, b, c];
    ghost var goal := ClipTriangle(a, b, c);
    isDone := false;
    var i := 0;
    while i < 6
      invariant 0 <= i <= 6 && Buckets(b0, b1)
      invariant goal == ClipFrom(Cur(b0, b1, i), i) && ClipFitsFrom(Cur(b0, b1, i), i)
    {
      isDone := ClipStep(b0, b1, i);
      if isDone {
        break;
      }
      i := i + 1;
    }
  }

  // ---------------------------------------------------------------------
  // Present, as values

  /** The tile after drawing the triangles numbered in `l`, in order, over `img`. */
  function DrawList(img: TileImage, sp: seq<ScreenPos>, l: seq<int>, tx: int, ty: int, tex: Texture): (r: TileImage)
    requires WellSized(img) && TextureOk(tex)
    requires forall j :: 0 <= j < |l| ==> 0 <= l[j] && 3 * l[j] + 2 < |sp|
    ensures WellSized(r)
    decreases |l|
  {
    if l == [] then img
    else DrawTri(DrawList(img, sp, l[..|l| - 1], tx, ty, tex), TriAt(sp, 3 * l[|l| - 1]), tx, ty, tex)
  }

  /** The triangles of `l`, in order, whose bounding box shares a pixel with the tile. */
  function Overlapping(sp: seq<ScreenPos>, l: seq<int>, tx: int, ty: int): (f: seq<int>)
    requires forall j :: 0 <= j < |l| ==> 0 <= l[j] && 3 * l[j] + 2 < |sp|
    ensures forall j :: 0 <= j < |f| ==> f[j] in l && 0 <= f[j] && 3 * f[j] + 2 < |sp|
    ensures forall j :: 0 <= j < |f| ==> Overlaps(TriAt(sp, 3 * f[j]), tx, ty)
    decreases |l|
  {
    if l == [] then []
    else
      var f := Overlapping(sp, l[..|l| - 1], tx, ty);
      var i := l[|l| - 1];
      if Overlaps(TriAt(sp, 3 * i), tx, ty) then f + [i] else f
  }

  /** Drawing a list shows only the triangles that overlap the tile: the
      others change nothing, so binning may over-approximate. */
  lemma {:induction false} DrawListOverlapping(img: TileImage, sp: seq<ScreenPos>, l: seq<int>, tx: int, ty: int, tex: Texture)
    requires WellSized(img) && TextureOk(tex)
    requires forall j :: 0 <= j < |l| ==> 0 <= l[j] && 3 * l[j] + 2 < |sp|
    ensures DrawList(img, sp, l, tx, ty, tex) == DrawList(img, sp, Overlapping(sp, l, tx, ty), tx, ty, tex)
    decreases |l|
  {
    if l != [] {
      var l' := l[..|l| - 1];
      var i := l[|l| - 1];
      var f := Overlapping(sp, l', tx, ty);
      DrawListOverlapping(img, sp, l', tx, ty, tex);
      if Overlaps(TriAt(sp, 3 * i), tx, ty) {
        assert (f + [i])[..|f|] == f;
      } else {
        NoOverlapNoChange(TriAt(sp, 3 * i), tx, ty, tex, DrawList(img, sp, l', tx, ty, tex));
      }
    }
  }

  /** The triangles among the first `t` whose bounding box shares a pixel
      with the tile, in submission order. */
  function OverlapList(sp: seq<ScreenPos>, tx: int, ty: int, t: nat): (f: seq<int>)
    requires 3 * t <= |sp|
    ensures forall j :: 0 <= j < |f| ==> 0 <= f[j] < t
  {
    if t == 0 then []
    else OverlapList(sp, tx, ty, t - 1) + (if Overlaps(TriAt(sp, 3 * t - 3), tx, ty) then [t - 1] else [])
  }

  /** Up to 256 triangles, keeping the overlapping entries of a tile's list
      gives exactly the overlapping triangles. */
  lemma {:induction false} TileListOverlapping(sp: seq<ScreenPos>, tx: int, ty: int, t: nat)
    requires 3 * t <= |sp| && t <= 0x100
    ensures forall j :: 0 <= j < |TileList(sp, tx, ty, t)| ==> 3 * TileList(sp, tx, ty, t)[j] + 2 < |sp|
    ensures Overlapping(sp, TileList(sp, tx, ty, t), tx, ty) == OverlapList(sp, tx, ty, t)
  {
    TileListBelow(sp, tx, ty, t);
    if t > 0 {
      TileListOverlapping(sp, tx, ty, t - 1);
      if BinTest(TriAt(sp, 3 * t - 3), tx, ty) {
        TileListOverlappingIn(sp, tx, ty, t, TileList(sp, tx, ty, t - 1));
      } else {
        TileListOverlappingOut(sp, tx, ty, t, TileList(sp, tx, ty, t - 1));
      }
    }
  }

  /** The step of `TileListOverlapping` for a triangle the binner lists. */
  lemma TileListOverlappingIn(sp: seq<ScreenPos>, tx: int, ty: int, t: nat, l: seq<u8>)
    requires 0 < t && 3 * t <= |sp| && t <= 0x100 && BinTest(TriAt(sp, 3 * t - 3), tx, ty)
    requires l == TileList(sp, tx, ty, t - 1) && forall j :: 0 <= j < |l| ==> 3 * l[j] + 2 < |sp|
    requires Overlapping(sp, l, tx, ty) == OverlapList(sp, tx, ty, t - 1)
    ensures forall j :: 0 <= j < |TileList(sp, tx, ty, t)| ==> 3 * TileList(sp, tx, ty, t)[j] + 2 < |sp|
    ensures Overlapping(sp, TileList(sp, tx, ty, t), tx, ty) == OverlapList(sp, tx, ty, t)
  {
    TileListListed(sp, tx, ty, t);
    var i: u8 := t - 1;
    InRangeAppend(sp, l, i);
    OverlappingAppend(sp, l, i, tx, ty);
    OverlapListNext(sp, tx, ty, t);
  }

  /** Appending a triangle in range keeps a list in range. */
  lemma InRangeAppend(sp: seq<ScreenPos>, l: seq<u8>, i: u8)
    requires forall j :: 0 <= j < |l| ==> 3 * l[j] + 2 < |sp|
    requires 3 * i + 2 < |sp|
    ensures forall j :: 0 <= j < |l + [i]| ==> 3 * (l + [i])[j] + 2 < |sp|
  {
    forall j | 0 <= j < |l + [i]| ensures 3 * (l + [i])[j] + 2 < |sp| {
      if j < |l| { assert (l + [i])[j] == l[j]; }
    }
  }

  lemma OverlapListNext(sp: seq<ScreenPos>, tx: int, ty: int, t: nat)
    requires 0 < t && 3 * t <= |sp|
    ensures OverlapList(sp, tx, ty, t)
         == OverlapList(sp, tx, ty, t - 1) + (if Overlaps(TriAt(sp, 3 * (t - 1)), tx, ty) then [t - 1] else [])
  {
    assert 3 * t - 3 == 3 * (t - 1);
  }

  /** The step of `TileListOverlapping` for a triangle the binner skips:
      it cannot overlap the tile either. */
  lemma TileListOverlappingOut(sp: seq<ScreenPos>, tx: int, ty: int, t: nat, l: seq<u8>)
    requires 0 < t && 3 * t <= |sp| && !BinTest(TriAt(sp, 3 * t - 3), tx, ty)
    requires l == TileList(sp, tx, ty, t - 1) && forall j :: 0 <= j < |l| ==> 3 * l[j] + 2 < |sp|
    requires Overlapping(sp, l, tx, ty) == OverlapList(sp, tx, ty, t - 1)
    ensures forall j :: 0 <= j < |TileList(sp, tx, ty, t)| ==> 3 * TileList(sp, tx, ty, t)[j] + 2 < |sp|
    ensures Overlapping(sp, TileList(sp, tx, ty, t), tx, ty) == OverlapList(sp, tx, ty, t)
  {
    var tri := TriAt(sp, 3 * t - 3);
    assert TileList(sp, tx, ty, t) == l;
    assert !Overlaps(tri, tx, ty) by {
      if Overlaps(tri, tx, ty) {
        BinOverApproximates(tri, tx, ty);
      }
    }
  }

  lemma OverlappingAppend(sp: seq<ScreenPos>, l: seq<int>, i: int, tx: int, ty: int)
    requires forall j :: 0 <= j < |l| ==> 0 <= l[j] && 3 * l[j] + 2 < |sp|
    requires 0 <= i && 3 * i + 2 < |sp|
    ensures Overlapping(sp, l + [i], tx, ty)
         == Overlapping(sp, l, tx, ty) + (if Overlaps(TriAt(sp, 3 * i), tx, ty) then [i] else [])
  {
    var l2 := l + [i];
    assert l2[..|l2| - 1] == l && l2[|l2| - 1] == i;
  }

  /** The bytes of tile `k`'s segment of the chain all name triangles. */
  lemma SegmentEntries(sp: seq<ScreenPos>, k: nat)
    requires |sp| % 3 == 0 && k < NUM_TILES
    ensures forall j :: 0 <= j < |Segment(Chain(sp), k)| ==> 3 * Segment(Chain(sp), k)[j] + 2 < |sp|
  {
    var s := Chain(sp);
    var a := SegStart(s, k);
    var b := NextMark(s, a);
    SegmentInRange(sp, k);
    forall j | 0 <= j < |Segment(s, k)|
      ensures 3 * Segment(s, k)[j] + 2 < |sp|
    {
      assert Segment(s, k)[j] == s[a + j];
    }
  }

  /** What tile `k` holds when it is requested: the cleared tile with the
      triangles of its chain segment drawn in chain order. */
  function TileAfter(sp: seq<ScreenPos>, k: nat, tex: Texture, clear: (int, int) -> ColorType): TileImage
    requires |sp| % 3 == 0 && k < NUM_TILES && TextureOk(tex)
  {
    SegmentEntries(sp, k);
    DrawList(ClearedTile(TileX(k), TileY(k), clear), sp, Segment(Chain(sp), k), TileX(k), TileY(k), tex)
  }

  /** Up to 255 triangles, tile `k` shows exactly the triangles whose
      bounding box overlaps it, drawn in submission order over the cleared tile. */
  lemma TileAfterOverlaps(sp: seq<ScreenPos>, k: nat, tex: Texture, clear: (int, int) -> ColorType)
    requires |sp| % 3 == 0 && |sp| / 3 <= 0xFF && k < NUM_TILES && TextureOk(tex)
    ensures forall j :: 0 <= j < |OverlapList(sp, TileX(k), TileY(k), |sp| / 3)| ==> 3 * OverlapList(sp, TileX(k), TileY(k), |sp| / 3)[j] + 2 < |sp|
    ensures TileAfter(sp, k, tex, clear)
         == DrawList(ClearedTile(TileX(k), TileY(k), clear), sp, OverlapList(sp, TileX(k), TileY(k), |sp| / 3), TileX(k), TileY(k), tex)
  {
    SegmentIsTileList(sp, k);
    TileListOverlapping(sp, TileX(k), TileY(k), |sp| / 3);
    DrawListOverlapping(ClearedTile(TileX(k), TileY(k), clear), sp, TileList(sp, TileX(k), TileY(k), |sp| / 3), TileX(k), TileY(k), tex);
  }

  /** The request for tile `k` of a `Present` that starts at blit index `b`. */
  function TileRequest(sp: seq<ScreenPos>, tex: Texture, clear: (int, int) -> ColorType,
                       b: nat, tileMax: nat, presentIndex: nat, k: nat): Request
    requires |sp| % 3 == 0 && k < NUM_TILES && TextureOk(tex) && tileMax >= 1
  {
    Request(TileX(k), TileY(k) * EXT_NUM + BitAnd(presentIndex, 1), TILE_X_SIZE, TILE_Y_SIZE,
            (b + k) % tileMax, TileAfter(sp, k, tex, clear), EXT_NUM)
  }

  /** Request `i` renders into slot `i % TILE_MAX`: any `TILE_MAX` consecutive
      requests use pairwise different slots, so with `TILE_MAX` twice the queue
      length plus one a slot is written again only after twice the queue
      length of later requests. */
  lemma SlotsDistinct(i: nat, j: nat, tileMax: nat)
    requires tileMax >= 1 && i < j < i + tileMax
    ensures i % tileMax != j % tileMax
  {
    var s, r := i / tileMax, i % tileMax;
    var d := j - i;
    assert j == tileMax * s + (r + d);
    if r + d < tileMax {
      EuclidUnique(j, tileMax, s, r + d);
    } else {
      assert j == tileMax * (s + 1) + (r + d - tileMax);
      EuclidUnique(j, tileMax, s + 1, r + d - tileMax);
    }
  }

  /** The tiles of one `Present` take consecutive blit indices, so while there
      are no more tiles than slots no two of them share a slot. */
  lemma PresentSlotsDistinct(sp: seq<ScreenPos>, tex: Texture, clear: (int, int) -> ColorType,
                             b: nat, tileMax: nat, presentIndex: nat, k1: nat, k2: nat)
    requires |sp| % 3 == 0 && TextureOk(tex) && tileMax >= NUM_TILES && k1 < k2 < NUM_TILES
    ensures TileRequest(sp, tex, clear, b, tileMax, presentIndex, k1).slot
         != TileRequest(sp, tex, clear, b, tileMax, presentIndex, k2).slot
  {
    SlotsDistinct(b + k1, b + k2, tileMax);
  }

  /** The ring slot blit index `index` takes: `tileNumber % TILE_MAX`. */
  function RingSlot(index: int, tileMax: int): (r: int)
    requires tileMax >= 1
    ensures 0 <= r < tileMax
  {
    index % tileMax
  }

  /** Slot `s` is none of the `n` slots taken by consecutive tiles from blit index `b` on. */
  predicate SlotFree(s: int, b: int, n: nat, tileMax: int)
    requires tileMax >= 1
  {
    n == 0 || (SlotFree(s, b, n - 1, tileMax) && RingSlot(b + n - 1, tileMax) != s)
  }

  lemma {:induction false} SlotFreeIff(s: int, b: int, n: nat, tileMax: int)
    requires tileMax >= 1
    ensures SlotFree(s, b, n, tileMax) <==> forall j :: b <= j < b + n ==> RingSlot(j, tileMax) != s
  {
    if n > 0 {
      SlotFreeIff(s, b, n - 1, tileMax);
    }
  }

  /** The slots of `n + m` consecutive tiles are those of the first `n` and of the next `m`. */
  lemma {:induction false} SlotFreeSplit(s: int, b: int, n: nat, m: nat, tileMax: int)
    requires tileMax >= 1
    ensures SlotFree(s, b, n + m, tileMax) <==> SlotFree(s, b, n, tileMax) && SlotFree(s, b + n, m, tileMax)
  {
    if m > 0 {
      SlotFreeSplit(s, b, n, m - 1, tileMax);
      assert b + (n + m) - 1 == (b + n) + m - 1;
    }
  }

  /** Pool `p1` agrees with `p0` outside the `n` slots taken from blit index `b` on. */
  ghost predicate PoolKept<T>(p0: seq<T>, p1: seq<T>, b: int, n: nat, tileMax: int)
    requires tileMax >= 1
  {
    |p1| == |p0| && forall i :: 0 <= i < |p0| && SlotFree(i / TILE_AREA, b, n, tileMax) ==> p1[i] == p0[i]
  }

  lemma PoolKeptNone<T>(p0: seq<T>, b: int, tileMax: int)
    requires tileMax >= 1
    ensures PoolKept(p0, p0, b, 0, tileMax)
  {
  }

  /** A pool kept outside `n` slots and then outside the next `m` is kept outside all `n + m`. */
  lemma PoolKeptTrans<T>(p0: seq<T>, p1: seq<T>, p2: seq<T>, b: int, n: nat, m: nat, tileMax: int)
    requires tileMax >= 1 && PoolKept(p0, p1, b, n, tileMax) && PoolKept(p1, p2, b + n, m, tileMax)
    ensures PoolKept(p0, p2, b, n + m, tileMax)
  {
    forall i | 0 <= i < |p0| && SlotFree(i / TILE_AREA, b, n + m, tileMax)
      ensures p2[i] == p0[i]
    {
      SlotFreeSplit(i / TILE_AREA, b, n, m, tileMax);
    }
  }

  /** What `PoolKept` promises: an entry whose slot none of the `n` tiles took keeps its value. */
  lemma PoolKeptAt<T>(p0: seq<T>, p1: seq<T>, b: int, n: nat, tileMax: int, i: int)
    requires tileMax >= 1 && PoolKept(p0, p1, b, n, tileMax) && 0 <= i < |p0|
    requires forall j :: b <= j < b + n ==> RingSlot(j, tileMax) != i / TILE_AREA
    ensures |p1| == |p0| && p1[i] == p0[i]
  {
    SlotFreeIff(i / TILE_AREA, b, n, tileMax);
  }

  /** A pool that changed only in the tile slot of blit index `b` is kept outside that slot. */
  lemma SliceKept<T>(p0: seq<T>, p1: seq<T>, b: int, tileMax: int)
    requires tileMax >= 1 && |p1| == |p0| && (b % tileMax) * TILE_AREA + TILE_AREA <= |p0|
    requires p1[..(b % tileMax) * TILE_AREA] == p0[..(b % tileMax) * TILE_AREA]
    requires p1[(b % tileMax) * TILE_AREA + TILE_AREA..] == p0[(b % tileMax) * TILE_AREA + TILE_AREA..]
    ensures PoolKept(p0, p1, b, 1, tileMax)
  {
    var base := (b % tileMax) * TILE_AREA;
    forall i | 0 <= i < |p0| && SlotFree(i / TILE_AREA, b, 1, tileMax)
      ensures p1[i] == p0[i]
    {
      assert RingSlot(b, tileMax) != i / TILE_AREA;
      if i < base {
        assert p1[i] == p1[..base][i];
      } else if i >= base + TILE_AREA {
        assert p1[i] == p1[base + TILE_AREA..][i - base - TILE_AREA];
      } else {
        EuclidUnique(i, TILE_AREA, b % tileMax, i - base);
      }
    }
  }

  /** Both tile pools are unchanged outside the `n` slots taken from blit index `b` on. */
  ghost predicate PoolsKept(c0: seq<ColorType>, d0: seq<DepthType>, c1: seq<ColorType>, d1: seq<DepthType>,
                            b: int, n: nat, tileMax: int)
    requires tileMax >= 1
  {
    PoolKept(c0, c1, b, n, tileMax) && PoolKept(d0, d1, b, n, tileMax)
  }

  lemma PoolsKeptTrans(c0: seq<ColorType>, d0: seq<DepthType>, c1: seq<ColorType>, d1: seq<DepthType>,
                       c2: seq<ColorType>, d2: seq<DepthType>, b: int, n: nat, m: nat, tileMax: int)
    requires tileMax >= 1 && PoolsKept(c0, d0, c1, d1, b, n, tileMax) && PoolsKept(c1, d1, c2, d2, b + n, m, tileMax)
    ensures PoolsKept(c0, d0, c2, d2, b, n + m, tileMax)
  {
    PoolKeptTrans(c0, c1, c2, b, n, m, tileMax);
    PoolKeptTrans(d0, d1, d2, b, n, m, tileMax);
  }

  /** Slot `s` of a pool of `tileMax` slots lies inside the pool. */
  lemma SlotBound(s: int, tileMax: int)
    requires 0 <= s < tileMax
    ensures 0 <= s * TILE_AREA && s * TILE_AREA + TILE_AREA <= tileMax * TILE_AREA
  {
    MulAtLeast(TILE_AREA, tileMax - s);
    assert TILE_AREA * (tileMax - s) == tileMax * TILE_AREA - s * TILE_AREA;
  }

  /** The tile held in slot `s` of the snapshots `c`, `d` of the two pools. */
  function SlotImage(c: seq<ColorType>, d: seq<DepthType>, s: int, tileMax: int): (img: TileImage)
    requires 0 <= s < tileMax && |c| == tileMax * TILE_AREA && |d| == tileMax * TILE_AREA
    ensures WellSized(img)
  {
    SlotBound(s, tileMax);
    TileImage(c[s * TILE_AREA..s * TILE_AREA + TILE_AREA], d[s * TILE_AREA..s * TILE_AREA + TILE_AREA])
  }

  /** A slot that none of the `n` tiles from blit index `b` took keeps its image. */
  lemma SlotImageKept(c0: seq<ColorType>, d0: seq<DepthType>, c1: seq<ColorType>, d1: seq<DepthType>,
                      b: int, n: nat, tileMax: int, s: int)
    requires 0 <= s < tileMax && |c0| == tileMax * TILE_AREA && |d0| == tileMax * TILE_AREA
    requires PoolsKept(c0, d0, c1, d1, b, n, tileMax) && SlotFree(s, b, n, tileMax)
    ensures |c1| == tileMax * TILE_AREA && |d1| == tileMax * TILE_AREA
    ensures SlotImage(c1, d1, s, tileMax) == SlotImage(c0, d0, s, tileMax)
  {
    SlotBound(s, tileMax);
    var base := s * TILE_AREA;
    forall i | base <= i < base + TILE_AREA
      ensures c1[i] == c0[i] && d1[i] == d0[i]
    {
      EuclidUnique(i, TILE_AREA, s, i - base);
    }
    assert c1[base..base + TILE_AREA] == c0[base..base + TILE_AREA];
    assert d1[base..base + TILE_AREA] == d0[base..base + TILE_AREA];
  }

  /** After the first `n` tiles of a `Present` that starts at blit index `b`,
      every one of them whose slot no later tile took holds the tile it drew. */
  ghost predicate TilesHeld(c: seq<ColorType>, d: seq<DepthType>, sp: seq<ScreenPos>, tex: Texture,
                            clear: (int, int) -> ColorType, b: int, tileMax: int, n: nat)
    requires tileMax >= 1 && |sp| % 3 == 0 && TextureOk(tex) && n <= NUM_TILES
  {
    |c| == tileMax * TILE_AREA && |d| == tileMax * TILE_AREA &&
    forall k :: 0 <= k < n && SlotFree(RingSlot(b + k, tileMax), b + k + 1, n - k - 1, tileMax)
      ==> SlotImage(c, d, RingSlot(b + k, tileMax), tileMax) == TileAfter(sp, k, tex, clear)
  }

  lemma TilesHeldNone(c: seq<ColorType>, d: seq<DepthType>, sp: seq<ScreenPos>, tex: Texture,
                      clear: (int, int) -> ColorType, b: int, tileMax: int)
    requires tileMax >= 1 && |sp| % 3 == 0 && TextureOk(tex)
    requires |c| == tileMax * TILE_AREA && |d| == tileMax * TILE_AREA
    ensures TilesHeld(c, d, sp, tex, clear, b, tileMax, 0)
  {
  }

  /** Tile `n` drawn into its slot, with every other slot kept, extends `TilesHeld` by one tile. */
  lemma TilesHeldNext(c0: seq<ColorType>, d0: seq<DepthType>, c1: seq<ColorType>, d1: seq<DepthType>,
                      sp: seq<ScreenPos>, tex: Texture, clear: (int, int) -> ColorType, b: int, tileMax: int, n: nat)
    requires tileMax >= 1 && |sp| % 3 == 0 && TextureOk(tex) && n < NUM_TILES
    requires TilesHeld(c0, d0, sp, tex, clear, b, tileMax, n)
    requires PoolsKept(c0, d0, c1, d1, b + n, 1, tileMax)
    requires SlotImage(c1, d1, RingSlot(b + n, tileMax), tileMax) == TileAfter(sp, n, tex, clear)
    ensures TilesHeld(c1, d1, sp, tex, clear, b, tileMax, n + 1)
  {
    forall k | 0 <= k < n + 1 && SlotFree(RingSlot(b + k, tileMax), b + k + 1, n - k, tileMax)
      ensures SlotImage(c1, d1, RingSlot(b + k, tileMax), tileMax) == TileAfter(sp, k, tex, clear)
    {
      if k < n {
        var s := RingSlot(b + k, tileMax);
        SlotFreeSplit(s, b + k + 1, n - k - 1, 1, tileMax);
        assert b + k + 1 + (n - k - 1) == b + n;
        assert SlotImage(c0, d0, s, tileMax) == TileAfter(sp, k, tex, clear);
        SlotImageKept(c0, d0, c1, d1, b + n, 1, tileMax, s);
      }
    }
  }

  /** Every one of the `NUM_TILES` tiles of a `Present` from blit index `b` is held in its slot. */
  ghost predicate AllHeld(c: seq<ColorType>, d: seq<DepthType>, sp: seq<ScreenPos>, tex: Texture,
                          clear: (int, int) -> ColorType, b: int, tileMax: int)
    requires tileMax >= 1 && |sp| % 3 == 0 && TextureOk(tex)
  {
    |c| == tileMax * TILE_AREA && |d| == tileMax * TILE_AREA &&
    forall k :: 0 <= k < NUM_TILES ==>
      SlotImage(c, d, RingSlot(b + k, tileMax), tileMax) == TileAfter(sp, k, tex, clear)
  }

  /** With at least `NUM_TILES` slots no tile of a `Present` overwrites
      another, so every slot taken holds the tile drawn into it. */
  lemma AllTilesHeld(c: seq<ColorType>, d: seq<DepthType>, sp: seq<ScreenPos>, tex: Texture,
                     clear: (int, int) -> ColorType, b: nat, tileMax: int)
    requires tileMax >= NUM_TILES && |sp| % 3 == 0 && TextureOk(tex)
    requires TilesHeld(c, d, sp, tex, clear, b, tileMax, NUM_TILES)
    ensures AllHeld(c, d, sp, tex, clear, b, tileMax)
  {
    forall k | 0 <= k < NUM_TILES
      ensures SlotImage(c, d, RingSlot(b + k, tileMax), tileMax) == TileAfter(sp, k, tex, clear)
    {
      var s := RingSlot(b + k, tileMax);
      forall j | b + k + 1 <= j < b + k + 1 + (NUM_TILES - k - 1)
        ensures RingSlot(j, tileMax) != s
      {
        SlotsDistinct(b + k, j, tileMax);
      }
      SlotFreeIff(s, b + k + 1, NUM_TILES - k - 1, tileMax);
    }
  }

  /** The state of the pools after the first `n` tiles of a `Present` that
      started at blit index `b` with pools `c0`, `d0`: kept outside the `n`
      slots taken, and each tile whose slot no later tile took held there. */
  ghost predicate RingHeld(c0: seq<ColorType>, d0: seq<DepthType>, c: seq<ColorType>, d: seq<DepthType>,
                           sp: seq<ScreenPos>, tex: Texture, clear: (int, int) -> ColorType, b: int, tileMax: int, n: nat)
    requires tileMax >= 1 && |sp| % 3 == 0 && TextureOk(tex) && n <= NUM_TILES
  {
    PoolsKept(c0, d0, c, d, b, n, tileMax) && TilesHeld(c, d, sp, tex, clear, b, tileMax, n)
  }

  lemma RingHeldNone(c: seq<ColorType>, d: seq<DepthType>, sp: seq<ScreenPos>, tex: Texture,
                     clear: (int, int) -> ColorType, b: int, tileMax: int)
    requires tileMax >= 1 && |sp| % 3 == 0 && TextureOk(tex)
    requires |c| == tileMax * TILE_AREA && |d| == tileMax * TILE_AREA
    ensures RingHeld(c, d, c, d, sp, tex, clear, b, tileMax, 0)
  {
    PoolKeptNone(c, b, tileMax);
    PoolKeptNone(d, b, tileMax);
    TilesHeldNone(c, d, sp, tex, clear, b, tileMax);
  }

  /** Tile `n` drawn into its slot, with every other slot kept, extends `RingHeld` by one tile. */
  lemma RingHeldNext(c0: seq<ColorType>, d0: seq<DepthType>, c: seq<ColorType>, d: seq<DepthType>,
                     c1: seq<ColorType>, d1: seq<DepthType>, sp: seq<ScreenPos>, tex: Texture,
                     clear: (int, int) -> ColorType, b: int, tileMax: int, n: nat)
    requires tileMax >= 1 && |sp| % 3 == 0 && TextureOk(tex) && n < NUM_TILES
    requires RingHeld(c0, d0, c, d, sp, tex, clear, b, tileMax, n)
    requires PoolsKept(c, d, c1, d1, b + n, 1, tileMax)
    requires SlotImage(c1, d1, RingSlot(b + n, tileMax), tileMax) == TileAfter(sp, n, tex, clear)
    ensures RingHeld(c0, d0, c1, d1, sp, tex, clear, b, tileMax, n + 1)
  {
    PoolsKeptTrans(c0, d0, c, d, c1, d1, b, n, 1, tileMax);
    TilesHeldNext(c, d, c1, d1, sp, tex, clear, b, tileMax, n);
  }

  /** The request each tile of a `Present` that starts at blit index `b` makes. */
  function PresentRequests(sp: seq<ScreenPos>, tex: Texture, clear: (int, int) -> ColorType,
                           b: nat, tileMax: nat, presentIndex: nat): (r: seq<Request>)
    requires |sp| % 3 == 0 && TextureOk(tex) && tileMax >= 1
    ensures |r| == NUM_TILES
  {
    seq(NUM_TILES, k requires 0 <= k < NUM_TILES => TileRequest(sp, tex, clear, b, tileMax, presentIndex, k))
  }

  /** The requests for tiles `lo .. hi - 1`, in row-major tile order. */
  function TileRequests(sp: seq<ScreenPos>, tex: Texture, clear: (int, int) -> ColorType,
                        b: nat, tileMax: nat, presentIndex: nat, lo: nat, hi: nat): (r: seq<Request>)
    requires |sp| % 3 == 0 && lo <= hi <= NUM_TILES && TextureOk(tex) && tileMax >= 1
    ensures |r| == hi - lo
  {
    PresentRequests(sp, tex, clear, b, tileMax, presentIndex)[lo..hi]
  }

  /** Request `k - lo` of the run is tile `k`'s. */
  lemma TileRequestsAt(sp: seq<ScreenPos>, tex: Texture, clear: (int, int) -> ColorType,
                       b: nat, tileMax: nat, presentIndex: nat, lo: nat, hi: nat, k: nat)
    requires |sp| % 3 == 0 && lo <= k < hi <= NUM_TILES && TextureOk(tex) && tileMax >= 1
    ensures TileRequests(sp, tex, clear, b, tileMax, presentIndex, lo, hi)[k - lo]
         == TileRequest(sp, tex, clear, b, tileMax, presentIndex, k)
  {
    var all := PresentRequests(sp, tex, clear, b, tileMax, presentIndex);
    assert all[lo..hi][k - lo] == all[k];
  }

  lemma SliceSplit<T>(s: seq<T>, lo: nat, mid: nat, hi: nat)
    requires lo <= mid <= hi <= |s|
    ensures s[lo..mid] + s[mid..hi] == s[lo..hi]
  {
    assert s[lo..hi] == s[lo..hi][..mid - lo] + s[lo..hi][mid - lo..];
  }

  lemma Assoc<T>(x: seq<T>, y: seq<T>, z: seq<T>)
    ensures x + (y + z) == x + y + z
  {
  }

  /** Consecutive runs of requests join up. */
  lemma TileRequestsSplit(sp: seq<ScreenPos>, tex: Texture, clear: (int, int) -> ColorType,
                          b: nat, tileMax: nat, presentIndex: nat, lo: nat, mid: nat, hi: nat)
    requires |sp| % 3 == 0 && lo <= mid <= hi <= NUM_TILES && TextureOk(tex) && tileMax >= 1
    ensures TileRequests(sp, tex, clear, b, tileMax, presentIndex, lo, mid)
          + TileRequests(sp, tex, clear, b, tileMax, presentIndex, mid, hi)
         == TileRequests(sp, tex, clear, b, tileMax, presentIndex, lo, hi)
  {
    SliceSplit(PresentRequests(sp, tex, clear, b, tileMax, presentIndex), lo, mid, hi);
  }

  /** A run grows by the request of the next tile. */
  lemma TileRequestsNext(sp: seq<ScreenPos>, tex: Texture, clear: (int, int) -> ColorType,
                         b: nat, tileMax: nat, presentIndex: nat, lo: nat, k: nat)
    requires |sp| % 3 == 0 && lo <= k < NUM_TILES && TextureOk(tex) && tileMax >= 1
    ensures TileRequests(sp, tex, clear, b, tileMax, presentIndex, lo, k + 1)
         == TileRequests(sp, tex, clear, b, tileMax, presentIndex, lo, k) + [TileRequest(sp, tex, clear, b, tileMax, presentIndex, k)]
  {
    TileRequestsSplit(sp, tex, clear, b, tileMax, presentIndex, lo, k, k + 1);
    TileRequestsAt(sp, tex, clear, b, tileMax, presentIndex, k, k + 1, k);
    var one := TileRequests(sp, tex, clear, b, tileMax, presentIndex, k, k + 1);
    assert one == [one[0]];
  }

  /** The triangle walk of one tile in `Present`: draw triangle
      `chainBuffer[p]` for every `p` from `p0` up to the next sentinel. */
  method DrawSegment(colorPool: array<ColorType>, depthPool: array<DepthType>, base: int,
                     sp: seq<ScreenPos>, tex: Texture, textureWidthMask: int, textureHeightMask: int,
                     chainBuffer: seq<u8>, p0: nat, tx: int, ty: int) returns (p: nat)
    requires Slot(colorPool, depthPool, base) && Masks(tex, textureWidthMask, textureHeightMask)
    requires p0 <= NextMark(chainBuffer, p0) < |chainBuffer| && chainBuffer[NextMark(chainBuffer, p0)] == MARK
    requires forall r :: p0 <= r < NextMark(chainBuffer, p0) ==> 3 * chainBuffer[r] + 2 < |sp|
    modifies colorPool, depthPool
    ensures p == NextMark(chainBuffer, p0)
    ensures Image(colorPool, depthPool, base) == DrawList(old(Image(colorPool, depthPool, base)), sp, chainBuffer[p0..p], tx, ty, tex)
    ensures Outside(colorPool, depthPool, base)
  {
    ghost var img0 := Image(colorPool, depthPool, base);
    ghost var e := NextMark(chainBuffer, p0);
    p := p0;
    // The source writes `p != mark`, comparing the pointer itself with 0xFF;
    // the walk reads the byte, as the sentinel-ended chain requires.
    while chainBuffer[p] != MARK
      invariant p0 <= p <= e
      decreases e - p
      invariant Image(colorPool, depthPool, base) == DrawList(img0, sp, chainBuffer[p0..p], tx, ty, tex)
      invariant Outside(colorPool, depthPool, base)
    {
      DrawEntry(colorPool, depthPool, base, sp, tex, textureWidthMask, textureHeightMask, chainBuffer, p0, p, tx, ty, img0);
      p := p + 1;
    }
    NextMarkBefore(chainBuffer, p0, p);
  }

  /** The pool work for tile `k` in `Present`: clear the slot at `base`, then
      draw the tile's chain segment; `p` is left on the segment's sentinel. */
  method RenderTile(colorPool: array<ColorType>, depthPool: array<DepthType>, base: int,
                    sp: seq<ScreenPos>, tex: Texture, textureWidthMask: int, textureHeightMask: int,
                    chainBuffer: seq<u8>, p0: nat, ghost k: nat, tx: int, ty: int, clear: (int, int) -> ColorType)
    returns (p: nat)
    requires Slot(colorPool, depthPool, base) && Masks(tex, textureWidthMask, textureHeightMask)
    requires |sp| % 3 == 0 && k < NUM_TILES && tx == TileX(k) && ty == TileY(k)
    requires chainBuffer == Chain(sp) && p0 == SegStart(chainBuffer, k)
    modifies colorPool, depthPool
    ensures p + 1 == SegStart(chainBuffer, k + 1)
    ensures Image(colorPool, depthPool, base) == TileAfter(sp, k, tex, clear)
    ensures Outside(colorPool, depthPool, base)
  {
    ClearTile(colorPool, depthPool, base, tx, ty, clear);
    SegmentInRange(sp, k);
    p := DrawSegment(colorPool, depthPool, base, sp, tex, textureWidthMask, textureHeightMask,
                     chainBuffer, p0, tx, ty);
    assert chainBuffer[p0..p] == Segment(chainBuffer, k);
  }

  /** The pool work for tile `k` at blit index `tileNumber`: render into slot
      `tileNumber % TILE_MAX`, leaving every other slot of both pools alone. */
  method RenderSlot(colorPool: array<ColorType>, depthPool: array<DepthType>, tileNumber: nat, tileMax: nat,
                    sp: seq<ScreenPos>, tex: Texture, textureWidthMask: int, textureHeightMask: int,
                    chainBuffer: seq<u8>, p0: nat, ghost k: nat, tx: int, ty: int, clear: (int, int) -> ColorType)
    returns (p: nat)
    requires tileMax >= 1 && colorPool != depthPool
    requires colorPool.Length == tileMax * TILE_AREA && depthPool.Length == tileMax * TILE_AREA
    requires Masks(tex, textureWidthMask, textureHeightMask)
    requires |sp| % 3 == 0 && k < NUM_TILES && tx == TileX(k) && ty == TileY(k)
    requires chainBuffer == Chain(sp) && p0 == SegStart(chainBuffer, k)
    modifies colorPool, depthPool
    ensures p + 1 == SegStart(chainBuffer, k + 1)
    ensures RingSlot(tileNumber, tileMax) * TILE_AREA + TILE_AREA <= tileMax * TILE_AREA
    ensures Image(colorPool, depthPool, RingSlot(tileNumber, tileMax) * TILE_AREA) == TileAfter(sp, k, tex, clear)
    ensures PoolsKept(old(colorPool[..]), old(depthPool[..]), colorPool[..], depthPool[..], tileNumber, 1, tileMax)
    ensures SlotImage(colorPool[..], depthPool[..], RingSlot(tileNumber, tileMax), tileMax) == TileAfter(sp, k, tex, clear)
  {
    var base := (tileNumber % tileMax) * TILE_AREA;
    assert base + TILE_AREA <= tileMax * TILE_AREA;
    ghost var c1, d1 := colorPool[..], depthPool[..];
    p := RenderTile(colorPool, depthPool, base, sp, tex, textureWidthMask, textureHeightMask,
                    chainBuffer, p0, k, tx, ty, clear);
    SliceKept(c1, colorPool[..], tileNumber, tileMax);
    SliceKept(d1, depthPool[..], tileNumber, tileMax);
    assert Image(colorPool, depthPool, base) == SlotImage(colorPool[..], depthPool[..], RingSlot(tileNumber, tileMax), tileMax);
  }

  /** One step of the walk in `DrawSegment`: draw triangle `chainBuffer[p]`. */
  method DrawEntry(colorPool: array<ColorType>, depthPool: array<DepthType>, base: int,
                   sp: seq<ScreenPos>, tex: Texture, textureWidthMask: int, textureHeightMask: int,
                   chainBuffer: seq<u8>, p0: nat, p: nat, tx: int, ty: int, ghost img0: TileImage)
    requires Slot(colorPool, depthPool, base) && Masks(tex, textureWidthMask, textureHeightMask)
    requires p0 <= p < |chainBuffer| && forall r :: p0 <= r <= p ==> 3 * chainBuffer[r] + 2 < |sp|
    requires WellSized(img0) && Image(colorPool, depthPool, base) == DrawList(img0, sp, chainBuffer[p0..p], tx, ty, tex)
    modifies colorPool, depthPool
    ensures Image(colorPool, depthPool, base) == DrawList(img0, sp, chainBuffer[p0..p + 1], tx, ty, tex)
    ensures Outside(colorPool, depthPool, base)
  {
    var i := chainBuffer[p] as int;
    assert chainBuffer[p0..p + 1][..p - p0] == chainBuffer[p0..p];
    i := i * 3;
    var v0, v1, v2 := sp[i + 0], sp[i + 1], sp[i + 2];
    RasterTriangle(colorPool, depthPool, base, tx, ty, Tri(v0, v1, v2), tex, textureWidthMask, textureHeightMask);
  }

  // ---------------------------------------------------------------------
  // The renderer

  /** The renderer's mutable variables, for saying what an operation leaves alone. */
  datatype Snapshot = Snapshot(
    vertices: seq<Vertex>, indices: seq<IndexType>,
    viewMatrix: Matrix, projMatrix: Matrix, worldMatrix: Matrix,
    textureData: seq<ColorType>, textureWidth: u16, textureHeight: u16,
    screenpos: seq<ScreenPos>, blitIndex: nat, requests: seq<Request>)

  /** The renderer's file-level state, and the blitter counter it reads. */
  class Renderer {
    // `vertexDataPointer`, `indexDataPointer`
    var vertices: seq<Vertex>
    var indices: seq<IndexType>
    var viewMatrix: Matrix
    var projMatrix: Matrix
    var worldMatrix: Matrix
    // `texturePointer`, `textureWidth`, `textureHeight`
    var textureData: seq<ColorType>
    var textureWidth: u16
    var textureHeight: u16
    const vertexListTemp: Container<VertexNdc>
    const bucket0: Container<VertexNdc>
    const bucket1: Container<VertexNdc>
    var screenpos: seq<ScreenPos>
    /** `present_index`: nothing advances it. */
    const presentIndex: nat
    /** `TILE_MAX`: twice the blit queue length, plus one. */
    const tileMax: nat
    // `vtilebuffer`, `vztilebuffer`: `TILE_MAX` tile buffers each
    const colorPool: array<ColorType>
    const depthPool: array<DepthType>
    /** The blitter's count of requests, which `blit::GetIndex` returns. */
    var blitIndex: nat
    /** Every request handed to the blitter so far. */
    var requests: seq<Request>

    ghost function Snap(): Snapshot
      reads this
    {
      Snapshot(vertices, indices, viewMatrix, projMatrix, worldMatrix, textureData, textureWidth, textureHeight,
               screenpos, blitIndex, requests)
    }

    /** The buffers and their capacities; all of them fixed at construction. */
    predicate Layout()
    {
      vertexListTemp.obj.Length == MAX_PRIMITIVE_COUNT
      && bucket0.obj.Length == MAX_CLIP_COUNT && bucket1.obj.Length == MAX_CLIP_COUNT
      && bucket0 != bucket1 && bucket0 != vertexListTemp && bucket1 != vertexListTemp
      && bucket0.obj != bucket1.obj && bucket0.obj != vertexListTemp.obj && bucket1.obj != vertexListTemp.obj
      && tileMax >= 1 && colorPool != depthPool
      && colorPool.Length == tileMax * TILE_AREA && depthPool.Length == tileMax * TILE_AREA
    }

    /** The layout, with fill counts within capacity. */
    ghost predicate Structure()
      reads this, vertexListTemp, bucket0, bucket1
    {
      Layout() && vertexListTemp.Valid() && bucket0.Valid() && bucket1.Valid()
    }

    /** Between calls: whole triangles of in-frame screen positions. */
    ghost predicate Valid()
      reads this, vertexListTemp, bucket0, bucket1
    {
      Structure() && |screenpos| % 3 == 0 && forall j :: 0 <= j < |screenpos| ==> InFrame(screenpos[j])
    }

    function Tex(): Texture
      reads this
    {
      Texture(textureData, textureWidth as int, textureHeight as int)
    }

    /** The static initial state together with `Setup`, for a blit queue of
        `blitQueueMax` entries: identity matrices, the one-texel
        `0xF0F0` texture, empty lists and zeroed tile pools. */
    constructor (blitQueueMax: nat)
      ensures Valid()
      ensures tileMax == 2 * blitQueueMax + 1 && presentIndex == 0
      ensures fresh(vertexListTemp) && fresh(vertexListTemp.obj) && fresh(bucket0) && fresh(bucket0.obj)
      ensures fresh(bucket1) && fresh(bucket1.obj) && fresh(colorPool) && fresh(depthPool)
      ensures vertexListTemp.Contents() == [] && bucket0.Contents() == [] && bucket1.Contents() == []
      ensures Snap() == Snapshot([], [], DefaultMatrix(), DefaultMatrix(), DefaultMatrix(), [0xF0F0], 1, 1, [], 0, [])
      ensures forall j :: 0 <= j < colorPool.Length ==> colorPool[j] == 0
      ensures forall j :: 0 <= j < depthPool.Length ==> depthPool[j] == 0
    {
      vertices := [];
      indices := [];
      viewMatrix := DefaultMatrix();
      projMatrix := DefaultMatrix();
      worldMatrix := DefaultMatrix();
      textureData := [0xF0F0];
      textureWidth := 1;
      textureHeight := 1;
      vertexListTemp := new Container(MAX_PRIMITIVE_COUNT);
      bucket0 := new Container(MAX_CLIP_COUNT);
      bucket1 := new Container(MAX_CLIP_COUNT);
      screenpos := [];
      presentIndex := 0;
      tileMax := 2 * blitQueueMax + 1;
      colorPool := new ColorType[(2 * blitQueueMax + 1) * TILE_AREA](_ => 0);
      depthPool := new DepthType[(2 * blitQueueMax + 1) * TILE_AREA](_ => 0);
      blitIndex := 0;
      requests := [];
    }

    /** `Reset`: empty the three vertex lists and the screen positions. */
    method Reset()
      requires Valid()
      modifies this, vertexListTemp, bucket0, bucket1
      ensures Valid()
      ensures vertexListTemp.Contents() == [] && bucket0.Contents() == [] && bucket1.Contents() == []
      ensures Snap() == old(Snap()).(screenpos := [])
    {
      vertexListTemp.Clear();
      bucket0.Clear();
      bucket1.Clear();
      screenpos := [];
    }

    method SetVertexPointer(vs: seq<Vertex>)
      requires Valid()
      modifies this
      ensures Valid() && Snap() == old(Snap()).(vertices := vs)
    {
      vertices := vs;
    }

    method SetIndexPointer(ix: seq<IndexType>)
      requires Valid()
      modifies this
      ensures Valid() && Snap() == old(Snap()).(indices := ix)
    {
      indices := ix;
    }

    method SetViewMatrix(m: Matrix)
      requires Valid()
      modifies this
      ensures Valid() && Snap() == old(Snap()).(viewMatrix := m)
    {
      viewMatrix := m;
    }

    method SetProjMatrix(m: Matrix)
      requires Valid()
      modifies this
      ensures Valid() && Snap() == old(Snap()).(projMatrix := m)
    {
      projMatrix := m;
    }

    method SetWorldMatrix(m: Matrix)
      requires Valid()
      modifies this
      ensures Valid() && Snap() == old(Snap()).(worldMatrix := m)
    {
      worldMatrix := m;
    }

    /** `SetTexturePointer`: the sizes are stored in `uint16_t` variables. */
    method SetTexturePointer(data: seq<ColorType>, width: int, height: int)
      requires Valid()
      modifies this
      ensures Valid()
      ensures Snap() == old(Snap()).(textureData := data, textureWidth := width % 0x1_0000, textureHeight := height % 0x1_0000)
    {
      textureData := data;
      textureWidth := width % 0x1_0000;
      textureHeight := height % 0x1_0000;
    }

    /** `PushScreenPos`: quantise one clipped vertex and append it. */
    method PushScreenPos(v: VertexNdc)
      modifies this
      ensures Snap() == old(Snap()).(screenpos := old(screenpos) + [Quantize(v)])
    {
      var x := ToU16(Trunc(0.5 * (v.x + 1.0) * (WIDTH - 1) as real - 0.5));
      var y := ToU16(Trunc(0.5 * (v.y + 1.0) * (HEIGHT - 1) as real + 0.5));
      var z := ToU16(Trunc(DEPTH_MAX as real * (v.z * 0.5 + 0.5)));
      screenpos := screenpos + [ScreenPos(x, y, z, v.u, v.v, v.w)];
    }

    /** The fan loop of `DrawIndex` over the clipped polygon in `result`:
        triangles `(0, i + 1, i + 2)` in turn, up to the first one that
        faces away. */
    method PushFan(result: Container<VertexNdc>)
      requires result.Valid() && result.Size() >= 3
      modifies this
      ensures Snap() == old(Snap()).(screenpos := old(screenpos) + FanFrom(result.Contents(), 0))
    {
      ghost var r := result.Contents();
      var count := result.Size() - 2;
      var baseindex := 1;
      var vbase := result.At(0);
      var i := 0;
      while i < count
        invariant 0 <= i <= count && baseindex == i + 1
        invariant Snap() == old(Snap()).(screenpos := screenpos)
        invariant old(screenpos) + FanFrom(r, 0) == screenpos + FanFrom(r, i)
      {
        // back-face cull
        var a, b := result.At(baseindex + 0), result.At(baseindex + 1);
        var check := EdgeFuncF(vbase, a, b);
        if check <= 0.0 {
          break;
        }
        assert FanFrom(r, i) == FanTri(r, i) + FanFrom(r, i + 1);
        PushTriangle(vbase, a, b);
        baseindex := baseindex + 1;
        i := i + 1;
      }
    }

    /** Three `PushScreenPos` calls in a row. */
    method PushTriangle(a: VertexNdc, b: VertexNdc, c: VertexNdc)
      modifies this
      ensures Snap() == old(Snap()).(screenpos := old(screenpos) + [Quantize(a), Quantize(b), Quantize(c)])
    {
      PushScreenPos(a);
      PushScreenPos(b);
      PushScreenPos(c);
    }

    /** The body of the triangle loop of `DrawIndex`: clip, then fan.
        It appends exactly `TriangleOutput` of the triangle. */
    method ClipAndFan(a: VertexNdc, b: VertexNdc, c: VertexNdc)
      requires Structure() && ClipFitsFrom([a, b, c], 0)
      modifies this, bucket0, bucket0.obj, bucket1, bucket1.obj
      ensures Structure()
      ensures Snap() == old(Snap()).(screenpos := old(screenpos) + TriangleOutput(a, b, c))
    {
      var isDone := ClipBuckets(bucket0, bucket1, a, b, c);
      if isDone {
        return;
      }
      var result := bucket0;
      if result.Size() >= 3 {
        PushFan(result);
      }
    }

    /** How many vertices `DrawIndex(index)` reads from the index buffer. */
    static function Count(index: int): nat
    {
      if index < 0 then 0 else index
    }

    /** `DrawIndex`: append the transformed vertices `indices[0 .. index - 1]`
        to `vertexListTemp`; with fewer than three buffered vertices, keep
        them for the next call; otherwise run every buffered triangle
        through `ClipAndFan` and empty the list. `transform` stands for
        the model-view-projection product of the three matrices followed
        by the perspective divide. The triangle loop reads the array slots
        past the fill count too when the count is not a multiple of three. */
    method DrawIndex(index: int, transform: (Matrix, Matrix, Matrix) -> Vertex -> NdcPos)
      requires Valid()
      requires Count(index) <= |indices| && forall i :: 0 <= i < Count(index) ==> indices[i] < |vertices|
      requires textureWidth > 0 && textureHeight > 0
      requires vertexListTemp.index + Count(index) <= MAX_PRIMITIVE_COUNT
      requires var n := vertexListTemp.index + Count(index);
        var w := Staged(vertexListTemp.obj[..], vertexListTemp.index,
                        Gathered(vertices, indices, Count(index), transform(projMatrix, viewMatrix, worldMatrix), textureWidth, textureHeight));
        n >= 3 ==> 3 * TriangleCount(n) <= MAX_PRIMITIVE_COUNT && FrameFits(w[..3 * TriangleCount(n)], TriangleCount(n))
      modifies this, vertexListTemp, vertexListTemp.obj, bucket0, bucket0.obj, bucket1, bucket1.obj
      ensures Valid()
      ensures var g := Gathered(old(vertices), old(indices), Count(index),
                                transform(old(projMatrix), old(viewMatrix), old(worldMatrix)), old(textureWidth), old(textureHeight));
        var n := old(vertexListTemp.index) + Count(index);
        var w := Staged(old(vertexListTemp.obj[..]), old(vertexListTemp.index), g);
        vertexListTemp.obj[..] == w &&
        if n < 3 then
          vertexListTemp.Contents() == old(vertexListTemp.Contents()) + g && Snap() == old(Snap())
        else
          vertexListTemp.Contents() == []
          && Snap() == old(Snap()).(screenpos := old(screenpos) + FrameOutput(w[..3 * TriangleCount(n)], TriangleCount(n)))
    {
      var project := transform(projMatrix, viewMatrix, worldMatrix);
      Gather(index, project);
      if vertexListTemp.Size() < 3 {
        return;
      }
      ghost var t := TriangleCount(vertexListTemp.index);
      ghost var vs := vertexListTemp.obj[..][..3 * t];
      ghost var s0 := screenpos;
      assert Shaped(s0);
      ghost var parts := Plan(TriangleOutput, vs, t);
      DrawBuffered(parts);
      FrameOutputShape(vs, t);
      ShapedConcat(s0, FrameOutput(vs, t));
      assert screenpos == s0 + FrameOutput(vs, t);
      vertexListTemp.Clear();
    }

    /** The first loop of `DrawIndex`: transform and append the indexed vertices. */
    method Gather(index: int, project: Vertex -> NdcPos)
      requires Structure()
      requires Count(index) <= |indices| && forall i :: 0 <= i < Count(index) ==> indices[i] < |vertices|
      requires textureWidth > 0 && textureHeight > 0
      requires vertexListTemp.index + Count(index) <= MAX_PRIMITIVE_COUNT
      modifies vertexListTemp, vertexListTemp.obj
      ensures Structure() && vertexListTemp.index == old(vertexListTemp.index) + Count(index)
      ensures vertexListTemp.obj[..] == Staged(old(vertexListTemp.obj[..]), old(vertexListTemp.index),
                                               Gathered(vertices, indices, Count(index), project, textureWidth, textureHeight))
    {
      ghost var o, at := vertexListTemp.obj[..], vertexListTemp.index;
      var i := 0;
      while i < index
        invariant 0 <= i <= Count(index) && Structure()
        invariant vertexListTemp.index == at + i
        invariant vertexListTemp.obj[..] == Staged(o, at, Gathered(vertices, indices, i, project, textureWidth, textureHeight))
      {
        var idx := indices[i];
        var p := vertices[idx];
        StagedPush(o, at, Gathered(vertices, indices, i, project, textureWidth, textureHeight),
                   ToNdc(p, project, textureWidth, textureHeight));
        GatheredNext(vertices, indices, i, project, textureWidth, textureHeight);
        vertexListTemp.PushBack(ToNdc(p, project, textureWidth, textureHeight));
        i := i + 1;
      }
    }

    /** The second loop of `DrawIndex`: every buffered triangle, three
        slots at a time, through `ClipAndFan`; `parts` names what each
        triangle yields. */
    method DrawBuffered(ghost parts: seq<seq<ScreenPos>>)
      requires Structure() && vertexListTemp.index >= 3
      requires 3 * TriangleCount(vertexListTemp.index) <= MAX_PRIMITIVE_COUNT
      requires FrameFits(vertexListTemp.obj[..][..3 * TriangleCount(vertexListTemp.index)], TriangleCount(vertexListTemp.index))
      requires Contributions(TriangleOutput, vertexListTemp.obj[..][..3 * TriangleCount(vertexListTemp.index)], parts, TriangleCount(vertexListTemp.index))
      modifies this, bucket0, bucket0.obj, bucket1, bucket1.obj
      ensures Structure()
      ensures Snap() == old(Snap()).(screenpos := old(screenpos) + Flatten(parts, TriangleCount(vertexListTemp.index)))
    {
      ghost var t := TriangleCount(vertexListTemp.index);
      assert vertexListTemp.index <= 3 * t < vertexListTemp.index + 3;
      ghost var vs := vertexListTemp.obj[..][..3 * t];
      ghost var s0 := screenpos;
      ghost var m := 0;
      var j := 0;
      while j < vertexListTemp.Size()
        invariant 0 <= m <= t && j == 3 * m
        invariant Structure() && vertexListTemp.obj[..][..3 * t] == vs
        invariant Snap() == old(Snap()).(screenpos := s0 + Flatten(parts, m))
      {
        DrawSlot(j, vs, parts, s0, t, m);
        j := j + 3;
        m := m + 1;
      }
      assert m == t;
    }

    /** One turn of the triangle loop of `DrawIndex`: the triangle in slots
        `j .. j + 2` through `ClipAndFan`. */
    method DrawSlot(j: nat, ghost vs: seq<VertexNdc>, ghost parts: seq<seq<ScreenPos>>, ghost s0: seq<ScreenPos>, ghost t: nat, ghost m: nat)
      requires Structure() && j == 3 * m && m < t && |vs| == 3 * t <= vertexListTemp.obj.Length
      requires vertexListTemp.obj[..][..|vs|] == vs && FrameFits(vs, t) && Contributions(TriangleOutput, vs, parts, t)
      requires screenpos == s0 + Flatten(parts, m)
      modifies this, bucket0, bucket0.obj, bucket1, bucket1.obj
      ensures Structure()
      ensures Snap() == old(Snap()).(screenpos := s0 + Flatten(parts, m + 1))
    {
      var a, b, c := vertexListTemp.At(j + 0), vertexListTemp.At(j + 1), vertexListTemp.At(j + 2);
      assert a == vs[3 * m] && b == vs[3 * m + 1] && c == vs[3 * m + 2];
      FrameFitsAt(vs, t, m);
      assert TriVerts(vs, m) == [a, b, c];
      Assoc(s0, Flatten(parts, m), parts[m]);
      ClipAndFan(a, b, c);
    }

    /** `blit::Request`: queue the tile and advance the blitter's counter. */
    method BlitRequest(x: int, y: int, w: int, h: int, slot: int, image: TileImage, ext: int)
      modifies this
      ensures Snap() == old(Snap()).(requests := old(requests) + [Request(x, y, w, h, slot, image, ext)],
                                     blitIndex := old(blitIndex) + 1)
    {
      requests := requests + [Request(x, y, w, h, slot, image, ext)];
      blitIndex := blitIndex + 1;
    }

    /** One tile of the second loop nest of `Present`: take slot
        `blitIndex % TILE_MAX`, clear it, draw the triangles of the tile's
        chain segment, request the blit and step past the sentinel. */
    method PresentTile(chainBuffer: seq<u8>, p0: nat, ghost b: nat, ghost k: nat, tx: int, ty: int,
                       textureWidthMask: int, textureHeightMask: int, clear: (int, int) -> ColorType)
      returns (p: nat)
      requires Valid() && TextureOk(Tex()) && Masks(Tex(), textureWidthMask, textureHeightMask)
      requires k < NUM_TILES && tx == TileX(k) && ty == TileY(k)
      requires chainBuffer == Chain(screenpos) && p0 == SegStart(chainBuffer, k) && blitIndex == b + k
      modifies this, colorPool, depthPool
      ensures Valid() && p == SegStart(chainBuffer, k + 1)
      ensures Snap() == old(Snap()).(requests := old(requests) + [TileRequest(old(screenpos), old(Tex()), clear, b, tileMax, presentIndex, k)],
                                     blitIndex := old(blitIndex) + 1)
      ensures PoolsKept(old(colorPool[..]), old(depthPool[..]), colorPool[..], depthPool[..], old(blitIndex), 1, tileMax)
      ensures SlotImage(colorPool[..], depthPool[..], RingSlot(old(blitIndex), tileMax), tileMax) == TileAfter(old(screenpos), k, old(Tex()), clear)
    {
      var tileNumber := blitIndex;
      var slot := tileNumber % tileMax;
      var base := slot * TILE_AREA;
      p := RenderSlot(colorPool, depthPool, tileNumber, tileMax, screenpos, Tex(), textureWidthMask, textureHeightMask,
                      chainBuffer, p0, k, tx, ty, clear);
      BlitRequest(tx, ty * EXT_NUM + BitAnd(presentIndex, 1), TILE_X_SIZE, TILE_Y_SIZE, slot,
                  Image(colorPool, depthPool, base), EXT_NUM);
      p := p + 1;
    }

    /** One pass of the outer loop of `Present`: the tiles of row `row`, left to right. */
    method PresentRow(chainBuffer: seq<u8>, p0: nat, ghost b: nat, ghost row: nat, ty: int,
                      textureWidthMask: int, textureHeightMask: int, clear: (int, int) -> ColorType,
                      ghost sp: seq<ScreenPos>, ghost tex: Texture, ghost c0: seq<ColorType>, ghost d0: seq<DepthType>)
      returns (p: nat)
      requires Valid() && Masks(Tex(), textureWidthMask, textureHeightMask)
      requires row < TILE_Y_DIV && ty == row * TILE_Y_SIZE
      requires chainBuffer == Chain(screenpos) && p0 == SegStart(chainBuffer, row * TILE_X_DIV)
      requires blitIndex == b + row * TILE_X_DIV
      requires sp == screenpos && tex == Tex() && RingHeld(c0, d0, colorPool[..], depthPool[..], sp, tex, clear, b, tileMax, row * TILE_X_DIV)
      modifies this, colorPool, depthPool
      ensures Valid() && p == SegStart(chainBuffer, (row + 1) * TILE_X_DIV)
      ensures Snap() == old(Snap()).(requests := old(requests) + TileRequests(sp, tex, clear, b, tileMax, presentIndex, row * TILE_X_DIV, (row + 1) * TILE_X_DIV),
                                     blitIndex := old(blitIndex) + TILE_X_DIV)
      ensures RingHeld(c0, d0, colorPool[..], depthPool[..], sp, tex, clear, b, tileMax, (row + 1) * TILE_X_DIV)
    {
      ghost var col := 0;
      ghost var k := row * TILE_X_DIV;
      var tx := 0;
      p := p0;
      while tx < WIDTH
        invariant 0 <= col <= TILE_X_DIV && tx == col * TILE_X_SIZE
        invariant Valid() && p == SegStart(chainBuffer, row * TILE_X_DIV + col)
        invariant Snap() == old(Snap()).(requests := old(requests) + TileRequests(sp, tex, clear, b, tileMax, presentIndex, row * TILE_X_DIV, row * TILE_X_DIV + col),
                                         blitIndex := old(blitIndex) + col)
        invariant k == row * TILE_X_DIV + col && RingHeld(c0, d0, colorPool[..], depthPool[..], sp, tex, clear, b, tileMax, k)
      {
        assert TileX(k) == tx && TileY(k) == ty;
        TileRequestsNext(sp, tex, clear, b, tileMax, presentIndex, row * TILE_X_DIV, k);
        Assoc(old(requests), TileRequests(sp, tex, clear, b, tileMax, presentIndex, row * TILE_X_DIV, k),
              [TileRequest(sp, tex, clear, b, tileMax, presentIndex, k)]);
        assert screenpos == sp && Tex() == tex && blitIndex == b + k;
        ghost var cm, dm := colorPool[..], depthPool[..];
        p := PresentTile(chainBuffer, p, b, k, tx, ty, textureWidthMask, textureHeightMask, clear);
        RingHeldNext(c0, d0, cm, dm, colorPool[..], depthPool[..], sp, tex, clear, b, tileMax, k);
        col := col + 1;
        k := k + 1;
        tx := tx + TILE_X_SIZE;
      }
    }

    /** `Present`: bin every triangle into the tile chain, then render the
        tiles in row-major order, one blit request each. The pools change
        only inside the `NUM_TILES` ring slots taken from `blitIndex` on,
        and each slot taken holds the last tile drawn into it. */
    method Present(clear: (int, int) -> ColorType)
      requires Valid() && TextureOk(Tex())
      modifies this, colorPool, depthPool
      ensures Valid()
      ensures Snap() == old(Snap()).(requests := old(requests) + TileRequests(old(screenpos), old(Tex()), clear, old(blitIndex), tileMax, presentIndex, 0, NUM_TILES),
                                     blitIndex := old(blitIndex) + NUM_TILES)
      ensures PoolsKept(old(colorPool[..]), old(depthPool[..]), colorPool[..], depthPool[..], old(blitIndex), NUM_TILES, tileMax)
      ensures TilesHeld(colorPool[..], depthPool[..], old(screenpos), old(Tex()), clear, old(blitIndex), tileMax, NUM_TILES)
      ensures tileMax >= NUM_TILES ==> AllHeld(colorPool[..], depthPool[..], old(screenpos), old(Tex()), clear, old(blitIndex), tileMax)
    {
      var textureWidthMask := textureWidth as int - 1;
      var textureHeightMask := textureHeight as int - 1;
      var chainBuffer := BuildChain(screenpos);
      var p := 0;
      ghost var sp, tex, b := screenpos, Tex(), blitIndex;
      ghost var c0, d0 := colorPool[..], depthPool[..];
      ghost var row := 0;
      var ty := 0;
      RingHeldNone(c0, d0, sp, tex, clear, b, tileMax);
      while ty < HEIGHT
        invariant 0 <= row <= TILE_Y_DIV && ty == row * TILE_Y_SIZE
        invariant Valid() && p == SegStart(chainBuffer, row * TILE_X_DIV)
        invariant Snap() == old(Snap()).(requests := old(requests) + TileRequests(sp, tex, clear, b, tileMax, presentIndex, 0, row * TILE_X_DIV),
                                         blitIndex := b + row * TILE_X_DIV)
        invariant RingHeld(c0, d0, colorPool[..], depthPool[..], sp, tex, clear, b, tileMax, row * TILE_X_DIV)
      {
        assert screenpos == sp && Tex() == tex && blitIndex == b + row * TILE_X_DIV;
        p := PresentRow(chainBuffer, p, b, row, ty, textureWidthMask, textureHeightMask, clear, sp, tex, c0, d0);
        TileRequestsSplit(sp, tex, clear, b, tileMax, presentIndex, 0, row * TILE_X_DIV, (row + 1) * TILE_X_DIV);
        Assoc(old(requests), TileRequests(sp, tex, clear, b, tileMax, presentIndex, 0, row * TILE_X_DIV),
              TileRequests(sp, tex, clear, b, tileMax, presentIndex, row * TILE_X_DIV, (row + 1) * TILE_X_DIV));
        row := row + 1;
        ty := ty + TILE_Y_SIZE;
      }
      assert row * TILE_X_DIV == NUM_TILES && sp == old(screenpos) && tex == old(Tex()) && b == old(blitIndex);
      assert c0 == old(colorPool[..]) && d0 == old(depthPool[..]);
      if tileMax >= NUM_TILES {
        AllTilesHeld(colorPool[..], depthPool[..], sp, tex, clear, b, tileMax);
      }
    }
  }
}
