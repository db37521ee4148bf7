/**
 * The vertical part of a movement step: jump, gravity with a terminal-speed
 * clamp, Euler integration, the floor clamp at y = 1 and the single-cell
 * "stand on top" snap against the cell the new position truncates to.
 */
module Physics {
  import opened Blocks

  const JumpSpeed: real := 0.15
  const Gravity: real := 0.01
  /** Falling speed is clamped to this magnitude. */
  const TerminalSpeed: real := 0.3
  /** Lowest height the player can be at. */
  const FloorY: real := 1.0

  /** Height, vertical velocity and ground contact. */
  datatype Vertical = Vertical(y: real, dy: real, onGround: bool)

  function Max(a: real, b: real): real {
    if a < b then b else a
  }

  /**
   * Jump (only from the ground), gravity, integration and the floor clamp.
   * A jump from the ground launches the player at the jump speed less one
   * step of gravity; otherwise gravity lowers the vertical speed by one step,
   * down to the terminal speed. The player moves by the new speed unless that
   * would end below the floor, in which case (and only then) the player is
   * put on the floor at rest. Without a jump from the ground nothing speeds
   * the player upward.
   */
  function Integrate(v: Vertical, jump: bool): (r: Vertical)
    ensures r.y >= FloorY && r.dy >= -TerminalSpeed
    ensures v.onGround && !r.onGround ==> jump
    ensures !v.onGround && r.onGround ==> r == Vertical(FloorY, 0.0, true)
    ensures !(jump && v.onGround) ==> r.dy <= Max(v.dy - Gravity, 0.0)
    ensures jump && v.onGround ==> r.dy == JumpSpeed - Gravity || r == Vertical(FloorY, 0.0, true)
    ensures jump && v.onGround && v.y + (JumpSpeed - Gravity) >= FloorY ==>
              !r.onGround && r.dy == JumpSpeed - Gravity && r.y == v.y + r.dy
    ensures !(jump && v.onGround) && v.y + Max(v.dy - Gravity, -TerminalSpeed) >= FloorY ==>
              r.dy == Max(v.dy - Gravity, -TerminalSpeed) && r.y == v.y + r.dy && r.onGround == v.onGround
    ensures jump && v.onGround && v.y + (JumpSpeed - Gravity) < FloorY ==> r == Vertical(FloorY, 0.0, true)
    ensures !(jump && v.onGround) && v.y + Max(v.dy - Gravity, -TerminalSpeed) < FloorY ==> r == Vertical(FloorY, 0.0, true)
    ensures !v.onGround && r.onGround ==> v.y + Max(v.dy - Gravity, -TerminalSpeed) < FloorY
  {
    var launched := jump && v.onGround;
    var dy0 := if launched then JumpSpeed else v.dy;
    var ground := if launched then false else v.onGround;
    var dy1 := if dy0 - Gravity < -TerminalSpeed then -TerminalSpeed else dy0 - Gravity;
    var y1 := v.y + dy1;
    if y1 < FloorY then Vertical(FloorY, 0.0, true) else Vertical(y1, dy1, ground)
  }

  /**
   * The "stand on top" correction at horizontal position (x, z): when the
   * cell at the feet is in bounds and solid, the player is put on top of it,
   * at rest and on the ground; otherwise nothing changes.
   */
  function Settle(w: array3<BlockType>, x: real, z: real, u: Vertical): (r: Vertical)
    reads w
    requires Dims(w)
    ensures r == u || (r.dy == 0.0 && r.onGround && IsWhole(r.y) && r.y > u.y)
  {
    var c := CellOf(Point(x, u.y, z));
    if InBounds(c) && w[c.x, c.y, c.z] != Air then Vertical(c.y as real + 1.0, 0.0, true) else u
  }

  /**
   * One vertical step at the new horizontal position (x, z). The result keeps
   * the player at or above the floor with a bounded fall speed, and ground
   * contact is lost only by jumping.
   */
  function VerticalStep(w: array3<BlockType>, x: real, z: real, v: Vertical, jump: bool): (r: Vertical)
    reads w
    requires Dims(w)
    ensures r.y >= FloorY && r.dy >= -TerminalSpeed
    ensures v.onGround && !r.onGround ==> jump
    ensures !v.onGround && r.onGround ==> r.dy == 0.0
    ensures !(jump && v.onGround) ==> r.dy <= Max(v.dy - Gravity, 0.0)
  {
    Settle(w, x, z, Integrate(v, jump))
  }

  /**
   * The snap happens exactly when the cell at the feet is in bounds and
   * solid; it lifts the player onto a whole-number height directly above
   * that cell, so the player then stands on a solid block.
   */
  lemma StandsOnTop(w: array3<BlockType>, x: real, z: real, u: Vertical)
    requires Dims(w) && u.y >= FloorY
    ensures var r, c := Settle(w, x, z, u), CellOf(Point(x, u.y, z));
      if InBounds(c) && w[c.x, c.y, c.z] != Air then
        && r.y > u.y && r.onGround && r.dy == 0.0
        && IsWhole(r.y) && CellOf(Point(x, r.y - 1.0, z)) == c
      else r == u
  {
    var c := CellOf(Point(x, u.y, z));
    if InBounds(c) && w[c.x, c.y, c.z] != Air {
      var ry := c.y as real + 1.0;
      assert (ry - 1.0).Floor == c.y;
    }
  }

  /**
   * Ground clamp: a player below the floor, not rising and not jumping off
   * the ground, ends on the floor at rest, unless the cell at the floor is solid.
   */
  lemma GroundClamp(w: array3<BlockType>, x: real, z: real, v: Vertical, jump: bool)
    requires Dims(w) && v.y < FloorY && v.dy <= 0.0 && !(jump && v.onGround)
    requires var c := CellOf(Point(x, FloorY, z)); !InBounds(c) || w[c.x, c.y, c.z] == Air
    ensures VerticalStep(w, x, z, v, jump) == Vertical(FloorY, 0.0, true)
  {
  }
}
