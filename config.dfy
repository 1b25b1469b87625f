/** Compile-time configuration of the rasterizer: frame and tile geometry,
    fixed capacities, the depth range and the 16-bit storage types. */
module Config {

  /** Display row-extension factor: every rendered row is shown EXT_NUM times. */
  const EXT_NUM: int := 2
  const WIDTH: int := 320
  /** `240 / EXT_NUM`, see `DerivedConstants`. */
  const HEIGHT: int := 120
  const TILE_X_DIV: int := 1
  const TILE_Y_DIV: int := 6
  /** `WIDTH / TILE_X_DIV` */
  const TILE_X_SIZE: int := 320
  /** `HEIGHT / TILE_Y_DIV` */
  const TILE_Y_SIZE: int := 20
  /** Number of pixels in one tile buffer. */
  const TILE_AREA: int := 6400
  /** Number of tiles visited by one frame. */
  const NUM_TILES: int := 6
  /** Capacity of each of the two clip scratch buckets. */
  const MAX_CLIP_COUNT: int := 8
  /** Capacity of the per-call transformed-vertex list. */
  const MAX_PRIMITIVE_COUNT: int := 64
  const DEPTH_MAX: int := 0xFFFF

  /** Values of a C `uint16_t`. */
  type u16 = x: int | 0 <= x < 0x1_0000
  /** Values of a C `uint8_t`. */
  type u8 = x: int | 0 <= x < 0x100

  type ColorType = u16
  type DepthType = u16
  type IndexType = u16

  /** A 4x4 float matrix, row-major, floats read as reals. */
  datatype Matrix = Matrix(data: seq<real>)

  /** The value of a default-initialised `Matrix`. */
  function DefaultMatrix(): (m: Matrix)
    ensures |m.data| == 16
    ensures forall k :: 0 <= k < 16 ==> m.data[k] == if k / 4 == k % 4 then 1.0 else 0.0
  {
    Matrix([1.0, 0.0, 0.0, 0.0,
            0.0, 1.0, 0.0, 0.0,
            0.0, 0.0, 1.0, 0.0,
            0.0, 0.0, 0.0, 1.0])
  }

  /** The values written out above are the ones the configuration derives. */
  lemma DerivedConstants()
    ensures HEIGHT == 240 / EXT_NUM
    ensures TILE_X_SIZE == WIDTH / TILE_X_DIV && TILE_Y_SIZE == HEIGHT / TILE_Y_DIV
    ensures TILE_AREA == TILE_X_SIZE * TILE_Y_SIZE && NUM_TILES == TILE_X_DIV * TILE_Y_DIV
  {
  }

  /** The tile grid covers the frame exactly: no partial tiles. */
  lemma TilesCoverFrame()
    ensures WIDTH == TILE_X_DIV * TILE_X_SIZE && HEIGHT == TILE_Y_DIV * TILE_Y_SIZE
    ensures TILE_X_SIZE > 0 && TILE_Y_SIZE > 0
  {
  }

  /** A cleared depth entry is the largest storable depth, so no stored depth is farther. */
  lemma DepthMaxIsFarthest(d: DepthType)
    ensures d <= DEPTH_MAX
  {
  }
}
