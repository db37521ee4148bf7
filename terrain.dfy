/**
 * Terrain generation: every column is classified layer by layer against a
 * real-valued surface height, then may receive a Wood trunk and, after that,
 * a Sand cell at its surface. The heightmap and the random draws are inputs.
 */
module Terrain {
  import opened Blocks

  /** Cells strictly below this y that are above the surface hold Water. */
  const SeaLevel: int := 5

  /**
   * The raw `rand()` outcomes one column consumes: the tree draw, the
   * trunk-height draw and the sand draw (each a non-negative integer).
   */
  datatype Rolls = Rolls(tree: nat, trunk: nat, sand: nat)

  /**
   * Layer classification of cell y in a column of height h. The Grass test
   * compares y with h - 1 exactly, so Grass appears only where h is integral.
   */
  function Classify(y: int, h: real): (b: BlockType)
    ensures (b == Grass || b == Dirt || b == Stone) <==> (y as real) < h
    ensures b == Grass <==> y as real == h - 1.0
    ensures b == Water <==> h <= y as real && y < SeaLevel
    ensures b != Wood && b != Sand
  {
    if (y as real) < h then
      if y as real == h - 1.0 then Grass
      else if y as real > h - 4.0 then Dirt
      else Stone
    else if y < SeaLevel then Water
    else Air
  }

  /** A column contains a Grass cell exactly when its height is a whole number in [1, 32]. */
  lemma ColumnGrass(h: real)
    ensures (exists y :: 0 <= y < WorldHeight && Classify(y, h) == Grass)
            <==> IsWhole(h) && 1.0 <= h <= WorldHeight as real
  {
    if IsWhole(h) && 1.0 <= h <= WorldHeight as real {
      var y := h.Floor - 1;
      assert Classify(y, h) == Grass;
    }
  }

  /** Every cell below a solid cell is solid and not Grass; Dirt fills the cells less than 4 below the height, Stone lies deeper. */
  lemma ColumnLayers(h: real, y: int)
    requires Classify(y, h) != Air && Classify(y, h) != Water
    ensures forall j :: j < y ==> Classify(j, h) != Air && Classify(j, h) != Water && Classify(j, h) != Grass
    ensures Classify(y, h) == Dirt ==> y as real > h - 4.0
    ensures Classify(y, h) == Stone ==> y as real <= h - 4.0
  {
  }

  /**
   * A tree is attempted only in interior columns whose surface leaves
   * headroom; the headroom keeps even the tallest trunk inside the grid.
   */
  predicate TreeAt(x: int, z: int, h: real, r: Rolls): (t: bool)
    ensures t ==> InBounds(Cell(x, 0, z))
    ensures t && h > -1.0 ==> 0 <= Trunc(h) && Trunc(h) + TreeHeight(r) <= WorldHeight
  {
    5 < x < WorldSize - 5 && 5 < z < WorldSize - 5 && r.tree % 20 == 0 && h < (WorldHeight - 6) as real
  }

  function TreeHeight(r: Rolls): (t: int)
    ensures 4 <= t <= 6
  {
    4 + r.trunk % 3
  }

  /** Low columns may get a Sand surface cell; it lies inside the grid, at most at sea level. */
  predicate SandAt(h: real, r: Rolls): (s: bool)
    ensures s && h > -1.0 ==> 0 <= Trunc(h) <= SeaLevel
  {
    h < 6.0 && r.sand % 3 == 0
  }

  /**
   * The block the generator leaves at height y of column (x, z). Sand is
   * written last, so it wins over the trunk; the trunk wins over the layers.
   */
  function TerrainCell(x: int, z: int, h: real, r: Rolls, y: int): (b: BlockType)
    ensures b == Sand <==> SandAt(h, r) && y == Trunc(h)
    ensures b == Wood <==> TreeAt(x, z, h, r) && Trunc(h) <= y < Trunc(h) + TreeHeight(r) && b != Sand
    ensures b != Sand && b != Wood ==> b == Classify(y, h)
  {
    if SandAt(h, r) && y == Trunc(h) then Sand
    else if TreeAt(x, z, h, r) && Trunc(h) <= y < Trunc(h) + TreeHeight(r) then Wood
    else Classify(y, h)
  }

  /** Grass survives generation only at y == h - 1 for an integral height h. */
  lemma GrassOnlyAtIntegralHeight(x: int, z: int, h: real, r: Rolls, y: int)
    requires TerrainCell(x, z, h, r, y) == Grass
    ensures IsWhole(h) && y == h.Floor - 1
  {
  }

  /** Below sea level nothing is left empty. */
  lemma NoAirBelowSeaLevel(x: int, z: int, h: real, r: Rolls, y: int)
    requires y < SeaLevel
    ensures TerrainCell(x, z, h, r, y) != Air
  {
  }

  /** Fills column (x, z) and leaves every other column as it was. */
  method FillColumn(world: array3<BlockType>, x: int, z: int, h: real, r: Rolls)
    requires Dims(world) && 0 <= x < WorldSize && 0 <= z < WorldSize
    requires h > -1.0
    modifies world
    ensures forall j :: 0 <= j < WorldHeight ==> world[x, j, z] == TerrainCell(x, z, h, r, j)
    ensures forall i, j, k :: 0 <= i < WorldSize && 0 <= j < WorldHeight && 0 <= k < WorldSize && (i != x || k != z)
              ==> world[i, j, k] == old(world[i, j, k])
  {
    for y := 0 to WorldHeight
      invariant forall j :: 0 <= j < y ==> world[x, j, z] == Classify(j, h)
      invariant forall i, j, k :: 0 <= i < WorldSize && 0 <= j < WorldHeight && 0 <= k < WorldSize && (i != x || k != z)
                  ==> world[i, j, k] == old(world[i, j, k])
    {
      world[x, y, z] := Classify(y, h);
    }

    if TreeAt(x, z, h, r) {
      var treeHeight := TreeHeight(r);
      var treeY := Trunc(h);
      for y := treeY to treeY + treeHeight
        invariant forall j :: 0 <= j < WorldHeight ==>
                    world[x, j, z] == if treeY <= j < y then Wood else Classify(j, h)
        invariant forall i, j, k :: 0 <= i < WorldSize && 0 <= j < WorldHeight && 0 <= k < WorldSize && (i != x || k != z)
                    ==> world[i, j, k] == old(world[i, j, k])
      {
        if y < WorldHeight {
          world[x, y, z] := Wood;
        }
      }
    }

    if h < 6.0 && r.sand % 3 == 0 {
      world[x, Trunc(h), z] := Sand;
    }
  }

  /**
   * Generates the whole grid column by column. The heightmap and the random
   * draws are supplied per column; heights above -1 keep every write in bounds.
   */
  method InitWorld(world: array3<BlockType>, height: (int, int) -> real, rolls: (int, int) -> Rolls)
    requires Dims(world)
    requires forall x, z :: 0 <= x < WorldSize && 0 <= z < WorldSize ==> height(x, z) > -1.0
    modifies world
    ensures forall i, j, k :: 0 <= i < WorldSize && 0 <= j < WorldHeight && 0 <= k < WorldSize
              ==> world[i, j, k] == TerrainCell(i, k, height(i, k), rolls(i, k), j)
  {
    for x := 0 to WorldSize
      invariant forall i, j, k :: 0 <= i < x && 0 <= j < WorldHeight && 0 <= k < WorldSize
                  ==> world[i, j, k] == TerrainCell(i, k, height(i, k), rolls(i, k), j)
    {
      for z := 0 to WorldSize
        invariant forall i, j, k :: 0 <= j < WorldHeight && 0 <= k < WorldSize && (0 <= i < x || (i == x && 0 <= k < z))
                    ==> world[i, j, k] == TerrainCell(i, k, height(i, k), rolls(i, k), j)
      {
        FillColumn(world, x, z, height(x, z), rolls(x, z));
      }
    }
  }
}
