/**
 * The fixed-step block-targeting march. The ray is given as the sequence of
 * sampled positions (eye + direction * distance for distance = 0, step, ...
 * below reach); each sample is truncated to a cell. The march ends with no
 * target at the first out-of-bounds sample, and with a hit at the first solid
 * cell, remembering the last empty cell it passed through.
 */
module Raycast {
  import opened Blocks

  /** No target, or the first solid cell hit and the last empty cell before it. */
  datatype Aim = Miss | Hit(cell: Cell, before: Cell)

  /** The "nothing recorded yet" value of the before-hit cell: all three coordinates -1. */
  const NoCell: Cell := Cell(-1, -1, -1)

  /**
   * The program's test that a before-hit cell was recorded: it rejects the
   * unset value and accepts every in-bounds cell.
   */
  predicate Recorded(c: Cell): (b: bool)
    ensures c == NoCell ==> !b
    ensures InBounds(c) ==> b
  {
    c.x >= 0 && c.y >= 0 && c.z >= 0
  }

  /** An in-bounds empty cell: one the march passes through. */
  predicate Open(w: array3<BlockType>, c: Cell)
    reads w
    requires Dims(w)
  {
    InBounds(c) && w[c.x, c.y, c.z] == Air
  }

  /**
   * The outcome of marching along `ray` when `last` is the last empty cell
   * visited so far. A hit is always an in-bounds solid cell, and its
   * before-hit cell is `last` or an in-bounds empty cell the march visited.
   */
  function AimFrom(w: array3<BlockType>, ray: seq<Point>, last: Cell): (a: Aim)
    reads w
    requires Dims(w)
    ensures a.Hit? ==> InBounds(a.cell) && w[a.cell.x, a.cell.y, a.cell.z] != Air
    ensures a.Hit? ==> a.before == last || Open(w, a.before)
    decreases |ray|
  {
    if ray == [] then Miss
    else
      var c := CellOf(ray[0]);
      if !InBounds(c) then Miss
      else if w[c.x, c.y, c.z] != Air then Hit(c, last)
      else AimFrom(w, ray[1..], c)
  }

  /**
   * The march stops at the first sample that is not an open cell: if samples
   * 0..k-1 are open, sample k decides the outcome (no target when it is out of
   * bounds or when the ray ends, a hit on it when it is solid).
   */
  lemma {:induction false} AimIsFirstStop(w: array3<BlockType>, ray: seq<Point>, last: Cell, k: nat)
    requires Dims(w) && k <= |ray|
    requires forall j :: 0 <= j < k ==> Open(w, CellOf(ray[j]))
    ensures k == |ray| ==> AimFrom(w, ray, last) == Miss
    ensures k < |ray| && !InBounds(CellOf(ray[k])) ==> AimFrom(w, ray, last) == Miss
    ensures k < |ray| && InBounds(CellOf(ray[k])) && !Open(w, CellOf(ray[k]))
            ==> AimFrom(w, ray, last) == Hit(CellOf(ray[k]), if k == 0 then last else CellOf(ray[k - 1]))
    decreases k
  {
    if k > 0 {
      assert forall j :: 0 <= j < k - 1 ==> ray[1..][j] == ray[j + 1];
      AimIsFirstStop(w, ray[1..], CellOf(ray[0]), k - 1);
    }
  }

  /**
   * The march depends only on the cells the samples fall in: two sample
   * sequences that truncate to the same cells give the same outcome.
   */
  lemma {:induction false} AimDependsOnlyOnCells(w: array3<BlockType>, ray: seq<Point>, ray': seq<Point>, last: Cell)
    requires Dims(w) && |ray| == |ray'|
    requires forall j :: 0 <= j < |ray| ==> CellOf(ray[j]) == CellOf(ray'[j])
    ensures AimFrom(w, ray, last) == AimFrom(w, ray', last)
    decreases |ray|
  {
    if ray != [] {
      var c := CellOf(ray[0]);
      assert c == CellOf(ray'[0]);
      var rest, rest' := ray[1..], ray'[1..];
      forall j | 0 <= j < |rest|
        ensures CellOf(rest[j]) == CellOf(rest'[j])
      {
        assert rest[j] == ray[j + 1] && rest'[j] == ray'[j + 1];
      }
      AimDependsOnlyOnCells(w, rest, rest', c);
    }
  }
}
