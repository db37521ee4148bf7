/**
 * Block types, grid extents, cell coordinates and the float-to-int
 * conversion shared by every part of the voxel simulation.
 */
module Blocks {

  /** The closed set of block types. Air is the empty cell; every other type is solid. */
  datatype BlockType = Air | Grass | Dirt | Stone | Wood | Water | Sand

  /** Horizontal extent of the grid (x and z). */
  const WorldSize: int := 32
  /** Vertical extent of the grid (y). */
  const WorldHeight: int := 32

  /** Integer cell coordinates; y is vertical. */
  datatype Cell = Cell(x: int, y: int, z: int)

  /** A continuous position. The program's single-precision floats are modelled as reals. */
  datatype Point = Point(x: real, y: real, z: real)

  predicate InBounds(c: Cell) {
    0 <= c.x < WorldSize && 0 <= c.y < WorldHeight && 0 <= c.z < WorldSize
  }

  /** A grid of the program's fixed extents. */
  predicate Dims(w: array3<BlockType>) {
    w.Length0 == WorldSize && w.Length1 == WorldHeight && w.Length2 == WorldSize
  }

  /**
   * `static_cast<int>` of a float: truncation toward zero, which differs from
   * floor for negative values. In particular every value in (-1, 1) becomes 0.
   */
  function Trunc(r: real): (n: int)
    ensures 0.0 <= r ==> n as real <= r < n as real + 1.0
    ensures r < 0.0 ==> n as real - 1.0 < r <= n as real
    ensures n == 0 <==> -1.0 < r < 1.0
  {
    if r >= 0.0 then r.Floor else -((-r).Floor)
  }

  /** A real with no fractional part. */
  predicate IsWhole(r: real) {
    r == r.Floor as real
  }

  /**
   * The cell a position falls in, as the program computes it (truncating each
   * coordinate). Because truncation sends (-1, 0) to 0, a position lands in
   * the grid exactly when each coordinate lies strictly between -1 and the extent.
   */
  function CellOf(p: Point): (c: Cell)
    ensures InBounds(c) <==> && -1.0 < p.x < WorldSize as real
                             && -1.0 < p.y < WorldHeight as real
                             && -1.0 < p.z < WorldSize as real
  {
    Cell(Trunc(p.x), Trunc(p.y), Trunc(p.z))
  }
}
