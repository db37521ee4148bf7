/**
 * An abstract view of the world grid: the map from every in-bounds cell to
 * its block type, and the set of solid cells used to state conservation.
 */
module World {
  import opened Blocks

  /** Every in-bounds cell of the grid. */
  function Cells(): (cs: set<Cell>)
    ensures forall c :: c in cs <==> InBounds(c)
  {
    var cs := set x, y, z | 0 <= x < WorldSize && 0 <= y < WorldHeight && 0 <= z < WorldSize :: Cell(x, y, z);
    assert forall c :: InBounds(c) ==> c in cs by {
      forall c | InBounds(c) ensures c in cs {
        assert c == Cell(c.x, c.y, c.z);
      }
    }
    cs
  }

  /** The contents of a grid array as a map from cells to block types. */
  ghost function Grid(w: array3<BlockType>): (g: map<Cell, BlockType>)
    reads w
    requires Dims(w)
    ensures forall c :: c in g <==> InBounds(c)
    ensures forall c :: InBounds(c) ==> c in g && g[c] == w[c.x, c.y, c.z]
  {
    map c | c in Cells() :: w[c.x, c.y, c.z]
  }

  /** The solid (non-Air) cells of a grid. */
  function Solids(g: map<Cell, BlockType>): set<Cell> {
    set c | c in g && g[c] != Air
  }

  /** Writing one cell changes the number of solid cells by what that cell gains or loses. */
  lemma SolidsAfterUpdate(g: map<Cell, BlockType>, c: Cell, b: BlockType)
    requires c in g
    ensures |Solids(g[c := b])| == |Solids(g)| - (if g[c] != Air then 1 else 0) + (if b != Air then 1 else 0)
  {
    var rest := Solids(g) - {c};
    assert Solids(g[c := b]) == if b != Air then rest + {c} else rest;
    assert Solids(g) == if g[c] != Air then rest + {c} else rest;
  }

  /**
   * A grid that agrees with the map `before` everywhere except possibly at
   * cell c has the view `before` updated at c.
   */
  lemma GridAfterWrite(w: array3<BlockType>, before: map<Cell, BlockType>, c: Cell)
    requires Dims(w) && InBounds(c)
    requires forall d :: d in before <==> InBounds(d)
    requires forall d :: InBounds(d) && d != c ==> w[d.x, d.y, d.z] == before[d]
    ensures Grid(w) == before[c := w[c.x, c.y, c.z]]
  {
    var now := Grid(w);
    forall d | d in now
      ensures now[d] == before[c := w[c.x, c.y, c.z]][d]
    {
    }
  }
}
