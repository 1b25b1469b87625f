# SWRasterizer renderer, modelled in Dafny

This project models the software rasterizer of `SWRasterizer/renderer.cpp`
and its configuration in `SWRasterizer/renderer.h`. The rasterizer keeps
file-level state: vertex and index pointers, three matrices, a texture, a
fixed-capacity list of transformed vertices, two clip buckets, the list of
screen positions, and a ring of tile buffers.

- `DrawIndex` does the following:
  - It transforms the indexed vertices and buffers them.
  - It clips every buffered triangle against the six faces of the view
    volume (Sutherland–Hodgman, ping-ponging between the two buckets).
  - It splits each clipped polygon into a triangle fan, stopping at the
    first triangle that faces away.
  - It quantises the vertices of the fan triangles to 16-bit screen
    positions.
- `Present` does the following:
  - It bins every triangle into a byte chain: one list per tile, each
    list ended by the sentinel `0xFF`.
  - Then, tile by tile, it takes the next buffer slot of the ring and
    clears it through the callback.
  - It rasterises the tile's triangles with incrementally stepped edge
    functions, an integer depth test and a masked texel fetch.
  - Finally it hands the tile to the blitter.

The modules follow the source's structure:

| file | what it holds |
|---|---|
| `config.dfy` | the configuration constants and the default `Matrix` |
| `cint.dfy` | the C semantics the code relies on: `_min`/`_max`, truncating `/`, float-to-int truncation, `&` with a mask |
| `container.dfy` | `Container<T, sz>` as a class over an `array` with a fill counter |
| `geometry.dfy` | the vertex formats, `edgefunc`/`edgefuncf`, the plane test `dot`, `MixVertexFormat` and the quantisation of `PushScreenPos` |
| `clip.dfy` | one clip pass as a function (`Pass`), the six passes (`ClipFrom`), their properties, and the pass loop over two containers (`ClipPass`) |
| `fan.dfy` | the fan with back-face cull, and what one `DrawIndex` appends for its buffered triangles |
| `binner.dfy` | the binning loops of `Present`, the chain they build, and the walk over it |
| `raster.dfy` | tile images as values, the per-pixel update, and the in-place clear and triangle walk over the tile pools |
| `renderer.dfy` | the `Renderer` class with the file-level state, its entry points, and the request each tile of `Present` makes |

Things the program does are imperative in the model where the source is
imperative. The containers, the tile pools (`array`s), the clip loop, the
fan loop, the binning loops, the tile clear and the pixel walk are all
methods with loop invariants. Each method is proved against a function on
values:

- `Pass`, `FanFrom` and `TriangleOutput` for `DrawIndex`;
- `Chain`, `Segment` and `DrawList` for `Present`;
- `DrawTri` and `ClearedTile` for a tile's buffers.

What the source promises is then proved about those functions.
`Renderer.Renderer.Present` states its whole effect: one request per tile,
in row-major order. Each request holds:

- the destination rectangle;
- the slot `blitIndex % TILE_MAX`;
- the cleared tile with the triangles of the tile's chain segment drawn
  in chain order.

It also states what the tile pools hold afterwards:

- Outside the `NUM_TILES` slots taken, both pools are unchanged.
- Each tile whose slot no later tile overwrote still holds its drawn tile.
- When `TILE_MAX >= NUM_TILES`, every slot taken holds its tile.

Source details reproduced as written:

- The binner's lower tile edge is `ty + TILE_X_SIZE`
  (`renderer.cpp:332`), not `ty + TILE_Y_SIZE`.
  `Binner.BinTestWidensIntended` and `Binner.BinTestWidensExample` show
  that this only lists extra triangles.
  With up to 255 buffered triangles, `Renderer.TileAfterOverlaps` shows
  that it does not change any pixel. With 256 or more triangles it can:
  tile 0's widened test accepts every in-frame triangle, so triangle 255,
  whose number truncates to the sentinel `0xFF`, lands in tile 0's list
  even when it lies only in the bottom rows. Tile 0's walk then stops at
  that byte, tile 1 reads tile 0's own sentinel and draws nothing, and
  each later tile reads the previous tile's list. With the
  tile-height test such a triangle would be listed only for its own tile.
- Chain bytes are `i / 3` truncated to `uint8_t`. With more than 255
  buffered triangles the numbers alias, and triangle 255 reads as the
  sentinel. The lemmas that give the exact tile contents
  (`Binner.SegmentIsTileList`, `Binner.ChainMarks`) therefore require at
  most 255 triangles. `Binner.SegmentInRange` holds for any count.
- The clip plane test is vecmat's `dot`: three products plus the
  constant 1. The interpolation is `mix(a, b, t) == (1 - t) * a + b * t`.
- The clip loop ping-pongs on `bucket[i & 1]`. The polygon that gets
  fanned is `bucket[0]`, which after six passes holds the last pass's
  output.
- The triangle loop of `DrawIndex` steps by three while below the fill
  count. When the count is not a multiple of three it reads stale array
  slots past the fill count. The model reads those slots too.
- The depth store writes `zz` into a `uint16_t`, so the stored depth is
  `zz % 65536`.
- `textureWidth` and `textureHeight` are 16-bit variables, so
  `SetTexturePointer` stores the sizes modulo 65536.

## Model

| member | source | states |
|---|---|---|
| `Config.DefaultMatrix` | SWRasterizer/renderer.h:36-44 | a default `Matrix` is the 4x4 identity, row-major |
| `Config.DerivedConstants` | SWRasterizer/renderer.h:9-15 | the written-out tile sizes, tile area and tile count are the ones the macros derive |
| `Config.TilesCoverFrame` | SWRasterizer/renderer.h:10-15 | the tile grid covers the frame exactly, with non-empty tiles |
| `Config.DepthMaxIsFarthest` | SWRasterizer/renderer.h:18-27 | no 16-bit depth lies beyond `DEPTH_MAX`, so a cleared depth buffer admits every in-range depth |
| `CInt.Min` | SWRasterizer/vecmat.h:3 | `_min` returns one of its arguments, not above either |
| `CInt.Max` | SWRasterizer/vecmat.h:4 | `_max` returns one of its arguments, not below either |
| `CInt.Min3` | SWRasterizer/renderer.cpp:325 | the nested `_min` of three is one of them and not above any |
| `CInt.Max3` | SWRasterizer/renderer.cpp:326 | the nested `_max` of three is one of them and not below any |
| `CInt.CDiv` | SWRasterizer/renderer.cpp:404-405 | C's integer division: the remainder is smaller than the divisor in magnitude and has the dividend's sign |
| `CInt.Trunc` | SWRasterizer/renderer.cpp:128-130 | float-to-int conversion truncates toward zero: the result is within 1 of the real, on its side of zero |
| `CInt.BitAnd` | SWRasterizer/renderer.cpp:444-445 | `x & m` with a non-negative mask never exceeds the mask |
| `CInt.MaskIsMod` | SWRasterizer/renderer.cpp:444-445 | for a power-of-two size `w`, masking with `w - 1` is the non-negative remainder modulo `w`, negative coordinates included |
| `CInt.TexelIndexInRange` | SWRasterizer/renderer.cpp:444-446 | the masked coordinates stay below the texture sizes, so `u + v * textureWidth` indexes inside a `width * height` texture |
| `Containers.Container.constructor` | SWRasterizer/renderer.cpp:34-38 | a container starts empty over a fresh array of capacity `sz` |
| `Containers.Container.PushBack` | SWRasterizer/renderer.cpp:39-42 | `push_back` writes the slot at `index`, increments `index` and appends to the contents |
| `Containers.Container.Clear` | SWRasterizer/renderer.cpp:43-46 | `clear` empties the contents and leaves the array alone |
| `Containers.Container.Size` | SWRasterizer/renderer.cpp:47-50 | `size` is the number of items pushed since the last clear |
| `Containers.Container.At` | SWRasterizer/renderer.cpp:55-58 | `operator[]` below the fill count returns the pushed item |
| `Geometry.EdgeFuncSwap` | SWRasterizer/renderer.cpp:93-96 | swapping the last two points negates `edgefunc` |
| `Geometry.EdgeFuncRotate` | SWRasterizer/renderer.cpp:93-96 | `edgefunc` is invariant under rotating its points |
| `Geometry.EdgeFuncSum` | SWRasterizer/renderer.cpp:394-397 | the three edge values at any pixel sum to the triangle's own edge value, the normaliser `r_e` |
| `Geometry.EdgeFuncFSwap` | SWRasterizer/renderer.cpp:98-101 | swapping the last two points negates `edgefuncf`, so a triangle and its mirror image face opposite ways |
| `Geometry.InCubeIffPlanes` | SWRasterizer/renderer.cpp:209-216 | a vertex passes all six plane tests of `N` exactly when it lies in the cube `[-1, 1]^3` |
| `Geometry.MixPlaneTest` | SWRasterizer/renderer.cpp:114-124 | the plane test of an interpolated vertex is the interpolation of the two plane tests |
| `Geometry.QuantizeInFrame` | SWRasterizer/renderer.cpp:126-135 | a vertex of the view volume quantises without 16-bit wrap to a position inside the frame with depth at most `DEPTH_MAX` |
| `Clip.PassLength` | SWRasterizer/renderer.cpp:238-257 | a pass outputs one vertex per kept vertex plus one per sign change around the polygon |
| `Clip.PassPrefixLength` | SWRasterizer/renderer.cpp:238-257 | the same count after the first `k` vertices of the pass |
| `Clip.PassAllKept` | SWRasterizer/renderer.cpp:243-247 | when every plane test is `>= 0` the pass returns its input in order |
| `Clip.PassPrefixAllKept` | SWRasterizer/renderer.cpp:243-247 | the same for the first `k` vertices |
| `Clip.PassNoneKept` | SWRasterizer/renderer.cpp:243-254 | when every plane test is `< 0` the pass returns nothing |
| `Clip.PassPrefixNoneKept` | SWRasterizer/renderer.cpp:243-254 | the same for the first `k` vertices |
| `Clip.PassPrefixGrows` | SWRasterizer/renderer.cpp:246-254 | the output only grows as the pass proceeds |
| `Clip.CutBounds` | SWRasterizer/renderer.cpp:242 | for tests on opposite sides, `dt = tprev / (tprev - d)` lies in `[0, 1]` and interpolates the tests to zero |
| `Clip.MixRSign` | SWRasterizer/renderer.cpp:242-252 | interpolating between two tests on one side of a plane stays on that side |
| `Clip.CutOnPlane` | SWRasterizer/renderer.cpp:248-252 | the vertex interpolated on a crossing edge lies on the clip plane |
| `Clip.StepSide` | SWRasterizer/renderer.cpp:246-254 | an edge with both ends on one side of another plane contributes only vertices on that side |
| `Clip.StepOnPlane` | SWRasterizer/renderer.cpp:246-254 | every vertex an edge contributes passes the plane test of the current plane |
| `Clip.PassSides` | SWRasterizer/renderer.cpp:238-257 | a pass keeps vertices on the side of another plane where its input lay, and puts all of them inside its own plane |
| `Clip.PassPrefixSide` | SWRasterizer/renderer.cpp:238-257 | the first half of `PassSides` for the first `k` vertices |
| `Clip.PassPrefixOnPlane` | SWRasterizer/renderer.cpp:238-257 | the second half of `PassSides` for the first `k` vertices |
| `Clip.ClipInsideUnchanged` | SWRasterizer/renderer.cpp:220-258 | a triangle inside the view volume comes out of the six passes unchanged |
| `Clip.ClipFromInside` | SWRasterizer/renderer.cpp:224-258 | the same for any non-empty polygon from pass `i` on |
| `Clip.ClipOutsideDiscards` | SWRasterizer/renderer.cpp:224-260 | a triangle entirely outside one face is discarded or clipped to nothing |
| `Clip.ClipFromOutside` | SWRasterizer/renderer.cpp:224-258 | the same for any polygon from pass `i` on |
| `Clip.ClipOutputInCube` | SWRasterizer/renderer.cpp:224-261 | every vertex that survives clipping lies in the view volume |
| `Clip.TrianglePassLength` | SWRasterizer/renderer.cpp:238-257 | one pass turns a triangle with all or none of its vertices kept into that many vertices, and otherwise adds two crossings: one vertex outside gives 4, two outside give 3 |
| `Clip.ClipFromStraddle` | SWRasterizer/renderer.cpp:224-258 | a polygon inside every plane but `j` comes out of the passes as its pass against plane `j`, when that pass keeps something |
| `Clip.ClipStraddle` | SWRasterizer/renderer.cpp:220-258 | a triangle inside the view volume but for one face clips to exactly 4 vertices when one vertex lies outside that face, and to 3 when two do |
| `Clip.ClipFromInCube` | SWRasterizer/renderer.cpp:224-258 | a polygon inside the first `i` planes comes out of the remaining passes inside all six |
| `Clip.ClipPass` | SWRasterizer/renderer.cpp:229-257 | the pass loop over two containers leaves `dest` holding exactly `Pass` of `src` |
| `Fan.FirstCulled` | SWRasterizer/renderer.cpp:269-276 | the first culled or missing fan triangle lies at or after the start |
| `Fan.FanShape` | SWRasterizer/renderer.cpp:264-284 | the fan holds the accepted triangles `(0, j + 1, j + 2)` up to the first culled one, three entries each, in order |
| `Fan.FanLength` | SWRasterizer/renderer.cpp:264-284 | an n-gon appends a multiple of three entries, at most `3 * (n - 2)` |
| `Fan.FanStep` | SWRasterizer/renderer.cpp:272-282 | an accepted fan triangle is emitted before the rest of the fan |
| `Fan.FanInFrame` | SWRasterizer/renderer.cpp:279-281 | a fan of view-volume vertices appends only in-frame screen positions |
| `Fan.TriangleOutputShape` | SWRasterizer/renderer.cpp:217-284 | what one buffered triangle appends is whole triangles of in-frame screen positions |
| `Fan.OppositeWinding` | SWRasterizer/renderer.cpp:271-276 | of a triangle and its mirror image at most one survives the cull, and exactly one when its area is not zero |
| `Fan.OppositeWindingInside` | SWRasterizer/renderer.cpp:217-284 | the same for whole triangles of the view volume, clipping included |
| `Fan.OutsideContributesNothing` | SWRasterizer/renderer.cpp:217-284 | a triangle entirely outside one face appends nothing |
| `Fan.FrameFitsAt` | SWRasterizer/renderer.cpp:220-258 | each triangle of a frame whose clips fit the buckets fits too |
| `Fan.ContributionsFlatten` | SWRasterizer/renderer.cpp:207-285 | the outputs of the triangles, appended in turn, are what the frame appends |
| `Fan.Plan` | SWRasterizer/renderer.cpp:207-285 | every frame splits into one output per triangle, which together give what the frame appends |
| `Fan.FrameShape` | SWRasterizer/renderer.cpp:207-285 | when every triangle appends whole in-frame triangles, so does the frame |
| `Fan.FrameOutputShape` | SWRasterizer/renderer.cpp:207-285 | one `DrawIndex` appends whole triangles of in-frame screen positions |
| `Binner.ChainPrefixNext` | SWRasterizer/renderer.cpp:318-340 | binning a tile extends the chain by that tile's list and a sentinel |
| `Binner.BuildChain` | SWRasterizer/renderer.cpp:314-341 | the binning loops build exactly the chain: every tile's list, each followed by `0xFF`, in row-major tile order |
| `Binner.BinTile` | SWRasterizer/renderer.cpp:320-338 | the innermost loop appends the 8-bit number of every triangle that passes the test, in order |
| `Binner.BinOverApproximates` | SWRasterizer/renderer.cpp:325-333 | every triangle whose bounding box shares a pixel with the tile is listed for it |
| `Binner.BinTestWidensIntended` | SWRasterizer/renderer.cpp:332 | the test as written accepts everything the test with the tile's own height accepts |
| `Binner.BinTestWidensExample` | SWRasterizer/renderer.cpp:332 | a triangle 30 rows below the first tile passes its test although its box misses the tile |
| `Binner.TileListExact` | SWRasterizer/renderer.cpp:320-338 | up to 256 triangles, a tile's list names in increasing order exactly the triangles that pass the test |
| `Binner.TileListListed` | SWRasterizer/renderer.cpp:334-337 | up to 256 triangles, a triangle that passes the test is appended under its own number |
| `Binner.TileListNoMark` | SWRasterizer/renderer.cpp:336-339 | up to 255 triangles no list byte equals the sentinel |
| `Binner.TileListBelow` | SWRasterizer/renderer.cpp:336 | a list byte never exceeds the number of its triangle |
| `Binner.NextMark` | SWRasterizer/renderer.cpp:367-370 | the walk stops at or after where it starts |
| `Binner.NextMarkBefore` | SWRasterizer/renderer.cpp:367-370 | a walk that meets a sentinel stops at a sentinel no later than it |
| `Binner.NextMarkExact` | SWRasterizer/renderer.cpp:367-370 | a walk stops at the first sentinel |
| `Binner.NextMarkSkips` | SWRasterizer/renderer.cpp:367-370 | every byte the walk reads before stopping is a triangle number inside the chain |
| `Binner.JoinPrefix` | SWRasterizer/renderer.cpp:316-341 | the chain after `k` tiles is a prefix of the chain after any later tile |
| `Binner.JoinMarkAt` | SWRasterizer/renderer.cpp:339 | every tile's block ends with a sentinel inside the chain |
| `Binner.JoinSegStartBound` | SWRasterizer/renderer.cpp:343-473 | tile `k`'s walk starts no later than its own block |
| `Binner.JoinHasSegments` | SWRasterizer/renderer.cpp:367-473 | every tile's walk meets a sentinel inside the chain |
| `Binner.JoinSegmentAtBlock` | SWRasterizer/renderer.cpp:367-473 | a walk that starts at its own block, with no sentinel in the list, reads exactly that list and stops on its sentinel |
| `Binner.JoinSegStartExact` | SWRasterizer/renderer.cpp:343-473 | without sentinels inside the lists every tile's walk starts at its own block |
| `Binner.JoinEntries` | SWRasterizer/renderer.cpp:336-339 | bounds on list bytes carry over to every non-sentinel byte of the chain |
| `Binner.JoinMarks` | SWRasterizer/renderer.cpp:339 | without sentinels inside the lists, `k` blocks hold exactly `k` sentinels |
| `Binner.ChainHasSegments` | SWRasterizer/renderer.cpp:343-473 | whatever the triangle count, no tile's walk runs off the chain |
| `Binner.ChainEntries` | SWRasterizer/renderer.cpp:336-339 | whatever the triangle count, every chain byte is the sentinel or below the triangle count |
| `Binner.SegmentInRange` | SWRasterizer/renderer.cpp:367-376 | every triangle tile `k` reads has its three screen positions in range |
| `Binner.TileListsNoMark` | SWRasterizer/renderer.cpp:336 | up to 255 triangles no tile list holds the sentinel |
| `Binner.SegmentIsTileList` | SWRasterizer/renderer.cpp:343-473 | up to 255 triangles, tile `k` reads exactly its own list |
| `Binner.ChainMarks` | SWRasterizer/renderer.cpp:314-341 | up to 255 triangles the chain holds exactly one sentinel per tile |
| `Raster.IndexDecode` | SWRasterizer/renderer.cpp:431 | `rx + ry * TILE_X_SIZE` lies inside the tile and decodes back to `(rx, ry)` |
| `Raster.RE` | SWRasterizer/renderer.cpp:397-401 | `r_e` is the triangle's edge value, or 1 when that is 0, and never 0 |
| `Raster.MaskedIndex` | SWRasterizer/renderer.cpp:444-446 | the masked texel index lies inside the texture |
| `Raster.TexelIndex` | SWRasterizer/renderer.cpp:439-446 | the fetched texel lies inside the texture whatever the edge values and sizes |
| `Raster.TexelWraps` | SWRasterizer/renderer.cpp:439-446 | with power-of-two sizes the fetch wraps both coordinates around the texture |
| `Raster.ClearedTile` | SWRasterizer/renderer.cpp:355-363 | the cleared tile has the tile's size |
| `Raster.DrawTri` | SWRasterizer/renderer.cpp:379-458 | drawing a triangle keeps the tile's size |
| `Raster.PixelChangesOnlyWhenCovered` | SWRasterizer/renderer.cpp:421-447 | a pixel changes only inside the walked box, where all three edge values are `>= 0` and `zz` passes the depth test; then the texel and `zz % 65536` are written |
| `Raster.DepthNeverFarther` | SWRasterizer/renderer.cpp:436-438 | with a non-negative `zz` the stored depth never increases |
| `Raster.OutsideBoxUntouched` | SWRasterizer/renderer.cpp:379-382 | pixels outside the triangle's box cut to the tile are never touched |
| `Raster.NoOverlapNoChange` | SWRasterizer/renderer.cpp:379-382 | a triangle whose box misses the tile leaves the tile unchanged |
| `Raster.PixelAfterIsUpdate` | SWRasterizer/renderer.cpp:429-447 | the pixel update is a depth-tested write of the covered texel |
| `Raster.UpdateCommutes` | SWRasterizer/renderer.cpp:436-446 | two depth-tested writes at different in-range depths commute, and when both cover the pixel and the nearer passes the test, the nearer one's colour and depth remain |
| `Raster.DepthOrderIndependent` | SWRasterizer/renderer.cpp:429-447 | two triangles at different in-range depths leave a pixel the same in either order; when both cover it and the nearer one's depth is below the stored depth, the pixel holds the nearer one's texel and depth |
| `Raster.EdgeStep` | SWRasterizer/renderer.cpp:449-456 | one pixel right adds `b.y - a.y` to an edge value, one row down subtracts `b.x - a.x` |
| `Raster.EdgesStep` | SWRasterizer/renderer.cpp:449-456 | the walk's increments keep `e0, e1, e2` equal to the three edge values at the current pixel |
| `Raster.EdgeStart` | SWRasterizer/renderer.cpp:394-418 | the start values formed at the tile-relative corner and shifted by the tile origin are the edge values at the box corner |
| `Raster.SetPx` | SWRasterizer/renderer.cpp:438-446 | writing one pixel keeps the tile's size |
| `Raster.Partial` | SWRasterizer/renderer.cpp:421-458 | the partly drawn tile keeps the tile's size |
| `Raster.PartialNone` | SWRasterizer/renderer.cpp:421 | before the first box row nothing is drawn |
| `Raster.PartialRowStart` | SWRasterizer/renderer.cpp:426-427 | a row starts at the box's left edge with nothing of it drawn |
| `Raster.PartialRowEnd` | SWRasterizer/renderer.cpp:427-457 | past the box's right edge the row is complete |
| `Raster.PartialAll` | SWRasterizer/renderer.cpp:421-458 | past the last box row the whole triangle is drawn |
| `Raster.PartialStep` | SWRasterizer/renderer.cpp:427-453 | visiting one box pixel extends the drawn part by exactly that pixel |
| `Raster.PartialVisit` | SWRasterizer/renderer.cpp:427-453 | writing the visited pixel's new value into the current tile gives the next partial tile |
| `Raster.Image` | SWRasterizer/renderer.cpp:351-352 | a slot's buffers have the tile's size |
| `Raster.ClearTile` | SWRasterizer/renderer.cpp:355-363 | the clear loops leave the slot holding the cleared tile and nothing else in the pools changed |
| `Raster.ClearRow` | SWRasterizer/renderer.cpp:357-362 | one tile row is cleared and nothing outside it changes |
| `Raster.StoreDepth` | SWRasterizer/renderer.cpp:438 | the depth store changes one depth entry of the slot and nothing else |
| `Raster.StoreColor` | SWRasterizer/renderer.cpp:446 | the colour store changes one colour entry of the slot and nothing else |
| `Raster.ShadePixel` | SWRasterizer/renderer.cpp:438-446 | a pixel that passed both tests receives the wrapped texel and `zz % 65536` |
| `Raster.VisitPixel` | SWRasterizer/renderer.cpp:429-447 | the body of the pixel loop performs exactly the pixel update of `PixelAfter` |
| `Raster.StepPixel` | SWRasterizer/renderer.cpp:427-453 | one pass of the pixel loop extends the drawn part by one pixel |
| `Raster.RasterRow` | SWRasterizer/renderer.cpp:423-457 | the pixel loop draws one whole row of the box |
| `Raster.WalkRows` | SWRasterizer/renderer.cpp:420-458 | the row loop leaves the slot holding `DrawTri` of its old contents |
| `Raster.RasterTriangle` | SWRasterizer/renderer.cpp:374-458 | drawing one triangle in place leaves the slot holding `DrawTri` of its old contents and nothing else in the pools changed |
| `Renderer.Gathered` | SWRasterizer/renderer.cpp:177-201 | the first loop of `DrawIndex` appends one vertex per index |
| `Renderer.GatheredNext` | SWRasterizer/renderer.cpp:177-201 | each pass of that loop appends the transformed vertex `indices[i]` |
| `Renderer.Staged` | SWRasterizer/renderer.cpp:200 | writing from the fill count on keeps the array's earlier slots and length |
| `Renderer.StagedPush` | SWRasterizer/renderer.cpp:200 | one more `push_back` writes the next slot |
| `Renderer.ClipStep` | SWRasterizer/renderer.cpp:226-258 | one pass of the clip loop stops exactly when its source bucket is empty and otherwise leaves `Pass` of it in the other bucket |
| `Renderer.ClipBuckets` | SWRasterizer/renderer.cpp:217-261 | the six passes report `isDone` exactly when the triangle is discarded, and otherwise leave the clipped polygon in `bucket[0]` |
| `Renderer.DrawList` | SWRasterizer/renderer.cpp:367-459 | drawing a list of triangles keeps the tile's size |
| `Renderer.Overlapping` | SWRasterizer/renderer.cpp:379-382 | the selection keeps only triangles of the list whose box overlaps the tile |
| `Renderer.DrawListOverlapping` | SWRasterizer/renderer.cpp:367-459 | a tile's image depends only on the listed triangles that overlap it, in their order |
| `Renderer.OverlapList` | SWRasterizer/renderer.cpp:320-338 | the overlapping triangles among the first `t` are numbered below `t` |
| `Renderer.TileListOverlapping` | SWRasterizer/renderer.cpp:320-338 | up to 256 triangles, the overlapping entries of a tile's list are exactly the overlapping triangles |
| `Renderer.TileListOverlappingIn` | SWRasterizer/renderer.cpp:334-337 | a listed triangle keeps the selection and the overlap list in step |
| `Renderer.TileListOverlappingOut` | SWRasterizer/renderer.cpp:333-334 | a triangle the binner skips cannot overlap the tile |
| `Renderer.SegmentEntries` | SWRasterizer/renderer.cpp:370-376 | every byte of tile `k`'s segment names a triangle with its three screen positions in range |
| `Renderer.TileAfterOverlaps` | SWRasterizer/renderer.cpp:343-473 | up to 255 triangles, a presented tile is the cleared tile with exactly the triangles whose box overlaps it drawn in submission order |
| `Renderer.SlotsDistinct` | SWRasterizer/renderer.cpp:11 | any `TILE_MAX` consecutive blit indices use pairwise different slots |
| `Renderer.SlotFreeIff` | SWRasterizer/renderer.cpp:348-353 | a slot is free exactly when it is `tileNumber % TILE_MAX` for none of the `n` consecutive blit indices from `b` on |
| `Renderer.SlotFreeSplit` | SWRasterizer/renderer.cpp:344-353 | the slots of `n + m` consecutive tiles are those of the first `n` and the next `m` |
| `Renderer.PoolKeptTrans` | SWRasterizer/renderer.cpp:344-474 | pools unchanged outside `n` slots and then outside the next `m` are unchanged outside all `n + m` |
| `Renderer.PoolsKeptTrans` | SWRasterizer/renderer.cpp:344-474 | the same for the colour and depth pools together |
| `Renderer.SliceKept` | SWRasterizer/renderer.cpp:351-352 | writes confined to the slot at `(tileNumber % TILE_MAX) * TILE_X_SIZE * TILE_Y_SIZE` leave every entry of every other slot unchanged |
| `Renderer.PoolKeptAt` | SWRasterizer/renderer.cpp:351-352 | under the pool frame, an entry whose slot none of the tiles took keeps its value |
| `Renderer.SlotBound` | SWRasterizer/renderer.cpp:351-352 | each of the `TILE_MAX` slots at `slot * TILE_X_SIZE * TILE_Y_SIZE` lies inside the pools |
| `Renderer.SlotImageKept` | SWRasterizer/renderer.cpp:351-352 | a slot that none of the tiles took holds the same colour and depth tile as before |
| `Renderer.TilesHeldNext` | SWRasterizer/renderer.cpp:344-474 | a tile drawn into its slot, with every other slot kept, leaves each earlier tile whose slot it did not take where it was |
| `Renderer.RingHeldNext` | SWRasterizer/renderer.cpp:344-474 | the same together with the pool frame from the start of `Present` |
| `Renderer.AllTilesHeld` | SWRasterizer/renderer.cpp:11 | with `TILE_MAX >= NUM_TILES` no tile of a `Present` overwrites another, so every slot `(b + k) % TILE_MAX` holds `TileAfter` of tile `k` |
| `Renderer.PresentSlotsDistinct` | SWRasterizer/renderer.cpp:348-352 | while there are no more tiles than slots, no two tiles of one `Present` share a slot |
| `Renderer.PresentRequests` | SWRasterizer/renderer.cpp:343-475 | a `Present` makes one request per tile |
| `Renderer.TileRequests` | SWRasterizer/renderer.cpp:343-475 | the requests of tiles `lo .. hi - 1` are `hi - lo` requests |
| `Renderer.TileRequestsAt` | SWRasterizer/renderer.cpp:472 | the request of tile `k` sits at its place among those of a range of tiles |
| `Renderer.TileRequestsSplit` | SWRasterizer/renderer.cpp:344-475 | the requests of consecutive tile ranges concatenate |
| `Renderer.TileRequestsNext` | SWRasterizer/renderer.cpp:346-474 | each tile adds its own request after those of the earlier tiles |
| `Renderer.DrawSegment` | SWRasterizer/renderer.cpp:367-459 | the walk draws the triangles of the chain bytes from its start up to the first sentinel, in order, and stops on that sentinel |
| `Renderer.RenderSlot` | SWRasterizer/renderer.cpp:348-459 | the tile at blit index `tileNumber` is rendered into slot `tileNumber % TILE_MAX`, which then holds `TileAfter` (read from the arrays and as `SlotImage` of the pool contents); every entry of both pools outside that slot is unchanged |
| `Renderer.DrawEntry` | SWRasterizer/renderer.cpp:369-377 | one step of the walk draws triangle `chainBuffer[p]` over the tile |
| `Renderer.RenderTile` | SWRasterizer/renderer.cpp:351-459 | the pool work of one tile leaves the slot holding `TileAfter` and the walk on the tile's sentinel |
| `Renderer.Renderer.constructor` | SWRasterizer/renderer.cpp:62-91 | the initial state: identity matrices, the one-texel `0xF0F0` texture, empty lists, `TILE_MAX = 2 * BLIT_QUEUE_MAX + 1` slots |
| `Renderer.Renderer.Reset` | SWRasterizer/renderer.cpp:137-143 | `Reset` empties the three vertex lists and the screen positions and changes nothing else |
| `Renderer.Renderer.SetVertexPointer` | SWRasterizer/renderer.cpp:145-148 | sets the vertex buffer and nothing else |
| `Renderer.Renderer.SetIndexPointer` | SWRasterizer/renderer.cpp:150-153 | sets the index buffer and nothing else |
| `Renderer.Renderer.SetViewMatrix` | SWRasterizer/renderer.cpp:155-158 | sets the view matrix and nothing else |
| `Renderer.Renderer.SetProjMatrix` | SWRasterizer/renderer.cpp:160-163 | sets the projection matrix and nothing else |
| `Renderer.Renderer.SetWorldMatrix` | SWRasterizer/renderer.cpp:165-168 | sets the world matrix and nothing else |
| `Renderer.Renderer.SetTexturePointer` | SWRasterizer/renderer.cpp:289-294 | sets the texture, with sizes stored modulo 65536, and nothing else |
| `Renderer.Renderer.PushScreenPos` | SWRasterizer/renderer.cpp:126-135 | appends exactly the quantised vertex |
| `Renderer.Renderer.PushTriangle` | SWRasterizer/renderer.cpp:279-281 | appends the three quantised vertices in order |
| `Renderer.Renderer.PushFan` | SWRasterizer/renderer.cpp:264-284 | the fan loop appends exactly `FanFrom` of the clipped polygon |
| `Renderer.Renderer.ClipAndFan` | SWRasterizer/renderer.cpp:217-284 | one turn of the triangle loop appends exactly `TriangleOutput` of the triangle |
| `Renderer.Renderer.DrawIndex` | SWRasterizer/renderer.cpp:170-287 | `DrawIndex` buffers the transformed vertices. Below three it changes nothing else; otherwise it appends `FrameOutput` of every buffered triangle and empties the list |
| `Renderer.Renderer.Gather` | SWRasterizer/renderer.cpp:177-201 | the first loop writes the transformed vertices after the buffered ones |
| `Renderer.Renderer.DrawBuffered` | SWRasterizer/renderer.cpp:207-285 | the triangle loop appends the outputs of the buffered triangles in turn |
| `Renderer.Renderer.DrawSlot` | SWRasterizer/renderer.cpp:220-284 | one turn appends the output of the triangle in slots `j .. j + 2` |
| `Renderer.Renderer.BlitRequest` | SWRasterizer/blit.cpp:24-39 | a request is queued and the blitter's counter advances |
| `Renderer.Renderer.PresentTile` | SWRasterizer/renderer.cpp:346-474 | one tile adds its request (slot `blitIndex % TILE_MAX`, the drawn tile) and the walk moves past its sentinel; afterwards that slot holds `TileAfter` of the tile, the image its request carries, and both pools are unchanged outside that slot |
| `Renderer.Renderer.PresentRow` | SWRasterizer/renderer.cpp:346-474 | one row of tiles adds their requests left to right; `RingHeld` for the tiles before the row, measured from the pools at the start of `Present`, extends to the tiles through the row |
| `Renderer.Renderer.Present` | SWRasterizer/renderer.cpp:299-475 | `Present` adds one request per tile in row-major order, each holding its slot and the cleared tile with its chain segment drawn; of the renderer's state only the blitter's counter and queue change; both pools are unchanged outside the `NUM_TILES` slots taken from `blitIndex` on; every tile whose slot no later tile overwrote still holds its drawn tile, and when `TILE_MAX >= NUM_TILES` every slot `(blitIndex + k) % TILE_MAX` holds `TileAfter` of tile `k` |

## Left out

- The blit queue, the blit task and the LCD transfer are left out
  (`blit.cpp:46-71`). This is concurrency and I/O. `blit::Request` and
  `blit::GetIndex` become the `requests` log and the `blitIndex` counter.
  A request records what the tile buffers hold when it is made. The model
  does not say whether a later `Present` overwrites a slot before the
  blitter has read it. `Renderer.SlotsDistinct` states the ring property
  that the queue length is meant to guarantee.
- `blit.h` is not part of this model. `BLIT_QUEUE_MAX` is the
  constructor's parameter.
- `Setup` merges into the constructor. Taking the address of the two
  static pools is not observable apart from where they are.
- Floats are modelled as exact reals. Float rounding, infinities and NaN
  are not modelled (for instance in `1.0f / ndc_v[3]` or in `dt` when
  `tprev == d`). `dt` is formed only where the two tests differ, the only
  place it is used.
- The transform of `DrawIndex` is a parameter. It takes the three matrices
  and stands for `MatrixMult`/`VecMulMatrix` of `vecmat.h` and the
  perspective divide. The matrix arithmetic is not modelled.
- 32-bit overflow of the depth interpolation in `Present` is not modelled.
  The partial products `(tx + rx - v0.x) * zdx` and `(ty + ry - v0.y) * zdy`
  (`renderer.cpp:433-434`) can leave the `int32_t` range for near-degenerate
  triangles, where `r_e` is forced to 1 (`renderer.cpp:398-401`) and `zdx`,
  `zdy` keep their undivided numerators. For example, the triangle
  `(0, 0, z = 65534)`, `(318, 119, 0)`, `(0, 0, 0)` in tile 5 gives
  `zdx = -7798546` and `zdy = 20839812`, so the products reach about
  ±2479937628 at pixel `(318, 119)`. The model computes `zz` as an
  unbounded integer. Wrap-around agrees with it modulo 2^32, so the
  stored `uint16_t` depth is the same either way. The depth test
  `zz < zbuffer[idx]` can differ only when the exact final `zz` lies
  outside the `int32_t` range. In the example it is back in range, at
  65534; the model does not prove that this holds for every covered pixel.
  The other integer products of the rasteriser involve only on-screen
  coordinates and vertex depths and stay inside `int32_t`.
- The walk loop of `Present` is written `while (p != mark)`
  (`renderer.cpp:367`), which compares the pointer `p` with `0xFF`. That
  comparison never ends the walk at a sentinel. The model does not
  reproduce it: it reads the byte, `chainBuffer[p] != MARK`, which is what
  the surrounding code (`p++` past the sentinel, `int i = *p++`) evidently
  relies on.
- `MixColor` (`renderer.cpp:103-112`) is never called and is left out.
- The `PROFILE_*` blocks, `digitalWrite` and the `printf` statistics
  (`renderer.cpp:304-306`, `461-470`, `476-485`) are debug output and are
  left out. So is the unused `discard_count`.
- `Renderer.Renderer.DrawIndex` requires:
  - that the index and vertex buffers hold what it reads;
  - non-zero texture sizes;
  - room in `vertexListTemp` for the new vertices;
  - that the triangle loop's reads stay inside `vertexListTemp`:
    `3 * TriangleCount(n) <= MAX_PRIMITIVE_COUNT`. With a fill count of
    64 the source reads `vertexListTemp[64]` and `[65]`, past the end of
    the 64-slot array;
  - that no clip pass outputs more than the 8 entries a bucket holds
    (`FrameFits`).

  The source checks none of these; violating one is a buffer overrun or a
  division by zero.
- `Renderer.Renderer.Present` requires a clear callback. The source's
  default is `nullptr`, but it calls the callback for every pixel, so
  omitting it crashes.
- `Renderer.Renderer.Present` requires the texture buffer to hold
  `width * height` texels. The masks keep every fetch inside that.
- `Renderer.Renderer.Present` does not advance `present_index`; the
  source leaves the increment commented out. It is a constant 0 in the
  model.
- `Binner.SegmentIsTileList` and `Binner.ChainMarks` say nothing beyond
  255 buffered triangles, where the chain bytes alias. In that case only
  `Binner.SegmentInRange` and `Binner.ChainHasSegments` hold.
