/**
 * Break and place: the effect of one interaction on the grid and the
 * inventory, given the aim the march produced and the two mouse buttons.
 */
module Interaction {
  import opened Blocks
  import opened World
  import opened Inventory
  import opened Raycast

  /** An aim the march can produce on grid g: a solid hit, and a before-hit cell that is unrecorded or empty. */
  predicate WellAimed(g: map<Cell, BlockType>, a: Aim) {
    a.Hit? ==>
      && a.cell in g && g[a.cell] != Air
      && (a.before == NoCell || (a.before in g && g[a.before] == Air))
  }

  lemma MarchWellAimed(w: array3<BlockType>, ray: seq<Point>)
    requires Dims(w)
    ensures WellAimed(Grid(w), AimFrom(w, ray, NoCell))
  {
  }

  /**
   * The new grid and inventory. With a target: the break button empties the
   * hit cell and credits its type; otherwise the place button puts the
   * selected slot's type into the recorded before-hit cell if that slot is
   * not empty and the cell is still Air. Break excludes place.
   */
  function Interact(g: map<Cell, BlockType>, inv: seq<Slot>, sel: int, a: Aim, breakHeld: bool, placeHeld: bool)
    : (r: (map<Cell, BlockType>, seq<Slot>))
    requires 0 <= sel < |inv| && WellAimed(g, a)
    ensures r.0.Keys == g.Keys && |r.1| == |inv|
    ensures forall i :: 0 <= i < |inv| ==> r.1[i].kind == inv[i].kind
    ensures !breakHeld && !placeHeld ==> r == (g, inv)
  {
    if a.Miss? then (g, inv)
    else if breakHeld then (g[a.cell := Air], Credit(inv, g[a.cell]))
    else if placeHeld && Recorded(a.before) && inv[sel].count > 0 then
      if g[a.before] == Air then (g[a.before := inv[sel].kind], Spend(inv, sel)) else (g, inv)
    else (g, inv)
  }

  /**
   * What each button does. With a target and break held, the hit cell becomes
   * Air and its type is credited. With a target, only place held, a recorded
   * before-hit cell and a non-empty selected slot, that cell receives the
   * slot's type and the slot is spent. In every other case nothing changes.
   */
  lemma InteractOutcome(g: map<Cell, BlockType>, inv: seq<Slot>, sel: int, a: Aim, breakHeld: bool, placeHeld: bool)
    requires 0 <= sel < |inv| && WellAimed(g, a)
    ensures var (g', inv') := Interact(g, inv, sel, a, breakHeld, placeHeld);
      a.Hit? && breakHeld ==> g' == g[a.cell := Air] && inv' == Credit(inv, g[a.cell])
    ensures var (g', inv') := Interact(g, inv, sel, a, breakHeld, placeHeld);
      a.Hit? && !breakHeld && placeHeld && Recorded(a.before) && inv[sel].count > 0 ==>
        g[a.before] == Air && g' == g[a.before := inv[sel].kind] && inv' == Spend(inv, sel)
    ensures a.Miss? || !(breakHeld || (placeHeld && Recorded(a.before) && inv[sel].count > 0)) ==>
      Interact(g, inv, sel, a, breakHeld, placeHeld) == (g, inv)
  {
  }

  /**
   * Break and place are exclusive: a cell changes only as the hit cell
   * becoming Air while break is held, or as the before-hit cell receiving the
   * selected slot's type while only place is held; and at most one cell changes.
   */
  lemma InteractChangesOneCell(g: map<Cell, BlockType>, inv: seq<Slot>, sel: int, a: Aim, breakHeld: bool, placeHeld: bool)
    requires 0 <= sel < |inv| && WellAimed(g, a)
    ensures var (g', inv') := Interact(g, inv, sel, a, breakHeld, placeHeld);
      forall c :: c in g && g'[c] != g[c] ==>
        && a.Hit?
        && (forall d :: d in g && d != c ==> g'[d] == g[d])
        && (breakHeld ==> c == a.cell && g'[c] == Air && inv' == Credit(inv, g[c]))
        && (!breakHeld ==> placeHeld && c == a.before && g[c] == Air && g'[c] == inv[sel].kind
                           && inv[sel].count > 0 && inv' == Spend(inv, sel))
  {
  }

  /** Counts never go negative: breaking only adds, placing needs a positive count. */
  lemma InteractKeepsCounts(g: map<Cell, BlockType>, inv: seq<Slot>, sel: int, a: Aim, breakHeld: bool, placeHeld: bool)
    requires 0 <= sel < |inv| && WellAimed(g, a) && NonNegative(inv)
    ensures NonNegative(Interact(g, inv, sel, a, breakHeld, placeHeld).1)
  {
  }

  /** Solid cells plus held blocks. */
  function Weight(g: map<Cell, BlockType>, inv: seq<Slot>): int {
    |Solids(g)| + TotalCount(inv)
  }

  /**
   * With an inventory shaped like the starter one (one bin per solid type,
   * none for Air), an interaction neither creates nor destroys blocks.
   */
  lemma InteractConserves(g: map<Cell, BlockType>, inv: seq<Slot>, sel: int, a: Aim, breakHeld: bool, placeHeld: bool)
    requires 0 <= sel < |inv| && WellAimed(g, a) && Stocked(inv)
    ensures var (g', inv') := Interact(g, inv, sel, a, breakHeld, placeHeld);
      Weight(g', inv') == Weight(g, inv)
  {
    if a.Hit? {
      if breakHeld {
        SolidsAfterUpdate(g, a.cell, Air);
        CreditTotal(inv, g[a.cell]);
      } else if placeHeld && Recorded(a.before) && inv[sel].count > 0 && g[a.before] == Air {
        SolidsAfterUpdate(g, a.before, inv[sel].kind);
        SpendTotal(inv, sel);
      }
    }
  }
}
