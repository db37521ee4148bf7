/**
 * The simulation state the program keeps in globals: the block grid, the
 * inventory, the player and the slot-key debounce flag, updated in place
 * once per frame.
 */
module Sandbox {
  import opened Blocks
  import opened World
  import opened Inventory
  import opened Terrain
  import opened Raycast
  import opened Interaction
  import opened Physics
  import opened Controls

  class Game {
    const world: array3<BlockType>
    const inventory: array<Slot>

    // Player position, rotation (rx pitch, ry yaw, in degrees) and velocity.
    var x: real
    var y: real
    var z: real
    var rx: real
    var ry: real
    var dx: real
    var dy: real
    var dz: real
    var onGround: bool
    var selectedSlot: int

    /** Set once a slot key has acted; cleared only when all six keys are up. */
    var keyDebounce: bool

    /** The grid has its fixed extents, the selected slot is a valid index and no count is negative. */
    ghost predicate Valid()
      reads this`selectedSlot, inventory
    {
      && Dims(world)
      && 0 <= selectedSlot < inventory.Length
      && NonNegative(inventory[..])
    }

    /** The program's start-up state: a generated world, the starter inventory and the default player. */
    constructor (height: (int, int) -> real, rolls: (int, int) -> Rolls)
      requires forall i, k :: 0 <= i < WorldSize && 0 <= k < WorldSize ==> height(i, k) > -1.0
      ensures Valid() && fresh(world) && fresh(inventory)
      ensures inventory[..] == Starter && Stocked(inventory[..])
      ensures forall i, j, k :: 0 <= i < WorldSize && 0 <= j < WorldHeight && 0 <= k < WorldSize
                ==> world[i, j, k] == TerrainCell(i, k, height(i, k), rolls(i, k), j)
      ensures x == 8.0 && y == 20.0 && z == 8.0 && rx == 0.0 && ry == 0.0
      ensures dx == 0.0 && dy == 0.0 && dz == 0.0 && !onGround
      ensures selectedSlot == 0 && !keyDebounce
    {
      world := new BlockType[WorldSize, WorldHeight, WorldSize];
      inventory := new Slot[|Starter|](i requires 0 <= i < |Starter| => Starter[i]);
      x, y, z := 8.0, 20.0, 8.0;
      rx, ry := 0.0, 0.0;
      dx, dy, dz := 0.0, 0.0, 0.0;
      onGround := false;
      selectedSlot := 0;
      keyDebounce := false;
      new;
      StarterStocked();
      InitWorld(world, height, rolls);
    }

    /**
     * Mouse look: yaw and pitch move by a tenth of a degree per pixel of
     * cursor offset from the window centre (512, 384); pitch is then clamped.
     */
    method Look(cursorX: real, cursorY: real)
      modifies this`rx, this`ry
      ensures ry == old(ry) + (cursorX - 512.0) * 0.1
      ensures rx == ClampPitch(old(rx) + (cursorY - 384.0) * 0.1)
      ensures -PitchLimit <= rx <= PitchLimit
    {
      ry := ry + (cursorX - 512.0) * 0.1;
      rx := rx + (cursorY - 384.0) * 0.1;
      if rx > 89.0 { rx := 89.0; }
      if rx < -89.0 { rx := -89.0; }
    }

    /**
     * Movement, jump, gravity, integration and the floor clamp. The
     * horizontal velocity (moveDx, moveDz) is the already rotated intent.
     */
    method Move(moveDx: real, moveDz: real, jump: bool)
      requires Valid()
      modifies this`x, this`y, this`z, this`dx, this`dy, this`dz, this`onGround
      ensures Valid()
      ensures dx == moveDx && dz == moveDz
      ensures x == old(x) + moveDx && z == old(z) + moveDz
      ensures Vertical(y, dy, onGround) == Integrate(old(Vertical(y, dy, onGround)), jump)
    {
      dx := moveDx;
      dz := moveDz;

      if jump && onGround {
        dy := JumpSpeed;
        onGround := false;
      }

      dy := dy - Gravity;
      if dy < -TerminalSpeed { dy := -TerminalSpeed; }

      x := x + dx;
      y := y + dy;
      z := z + dz;

      if y < FloorY {
        y := FloorY;
        dy := 0.0;
        onGround := true;
      }
      assert unchanged(inventory) && selectedSlot == old(selectedSlot);
    }

    /** Collision with blocks: the single-cell "stand on top" snap. */
    method Collide()
      requires Valid()
      modifies this`y, this`dy, this`onGround
      ensures Valid()
      ensures Vertical(y, dy, onGround) == Settle(world, x, z, old(Vertical(y, dy, onGround)))
    {
      var playerX, playerY, playerZ := Trunc(x), Trunc(y), Trunc(z);
      if 0 <= playerX < WorldSize && 0 <= playerY < WorldHeight && 0 <= playerZ < WorldSize {
        if world[playerX, playerY, playerZ] != Air {
          y := playerY as real + 1.0;
          dy := 0.0;
          onGround := true;
        }
      }
      assert unchanged(inventory) && selectedSlot == old(selectedSlot);
    }

    /**
     * Slot selection from the six number keys (keys[i] is key i + 1). While
     * the debounce flag is set no key acts; otherwise the lowest pressed key
     * selects its slot if the inventory has that many slots.
     */
    method SelectSlot(keys: seq<bool>)
      requires Valid() && |keys| == SlotKeys
      modifies this`selectedSlot, this`keyDebounce
      ensures Valid()
      ensures var p := FirstPressed(keys);
        selectedSlot == if !old(keyDebounce) && 0 <= p < inventory.Length then p else old(selectedSlot)
      ensures keyDebounce <==> FirstPressed(keys) >= 0
    {
      ghost var p := FirstPressed(keys);
      var i := 0;
      while i < SlotKeys
        invariant 0 <= i <= SlotKeys
        invariant 0 <= selectedSlot < inventory.Length
        invariant old(keyDebounce) ==> keyDebounce && selectedSlot == old(selectedSlot)
        invariant !old(keyDebounce) && !(0 <= p < i) ==> !keyDebounce && selectedSlot == old(selectedSlot)
        invariant !old(keyDebounce) && 0 <= p < i ==>
                    keyDebounce && selectedSlot == if p < inventory.Length then p else old(selectedSlot)
      {
        if keys[i] && !keyDebounce {
          var slot := i;
          if slot < inventory.Length {
            selectedSlot := slot;
          }
          keyDebounce := true;
        }
        i := i + 1;
      }
      if !keys[0] && !keys[1] && !keys[2] && !keys[3] && !keys[4] && !keys[5] {
        keyDebounce := false;
      }
    }

    /** The input handler: movement and physics, block collision, then slot selection. */
    method HandleInput(moveDx: real, moveDz: real, jump: bool, keys: seq<bool>)
      requires Valid() && |keys| == SlotKeys
      modifies this`x, this`y, this`z, this`dx, this`dy, this`dz, this`onGround, this`selectedSlot, this`keyDebounce
      ensures Valid()
      ensures x == old(x) + moveDx && z == old(z) + moveDz && dx == moveDx && dz == moveDz
      ensures Vertical(y, dy, onGround) == VerticalStep(world, x, z, old(Vertical(y, dy, onGround)), jump)
      ensures var p := FirstPressed(keys);
        selectedSlot == if !old(keyDebounce) && 0 <= p < inventory.Length then p else old(selectedSlot)
      ensures keyDebounce <==> FirstPressed(keys) >= 0
      ensures y >= FloorY && dy >= -TerminalSpeed
    {
      Move(moveDx, moveDz, jump);
      Collide();
      SelectSlot(keys);
    }

    /** Adds one block of type b to the first slot of that type, if there is one. */
    method AddToInventory(b: BlockType)
      requires Valid()
      modifies inventory
      ensures Valid()
      ensures inventory[..] == Credit(old(inventory[..]), b)
    {
      var j := 0;
      while j < inventory.Length
        invariant 0 <= j <= inventory.Length
        invariant forall k :: 0 <= k < j ==> inventory[k].kind != b
        invariant inventory[..] == old(inventory[..])
      {
        if inventory[j].kind == b {
          inventory[j] := inventory[j].(count := inventory[j].count + 1);
          break;
        }
        j := j + 1;
      }
    }

    /** Break: the hit cell becomes Air and its block goes to the inventory. */
    method BreakBlock(c: Cell)
      requires Valid() && InBounds(c)
      modifies world, inventory
      ensures Valid()
      ensures Grid(world) == old(Grid(world))[c := Air]
      ensures inventory[..] == Credit(old(inventory[..]), old(world[c.x, c.y, c.z]))
    {
      ghost var before := Grid(world);
      var broken := world[c.x, c.y, c.z];
      world[c.x, c.y, c.z] := Air;
      GridAfterWrite(world, before, c);
      AddToInventory(broken);
    }

    /**
     * Place: when a before-hit cell was recorded, the selected slot is not
     * empty and that cell is still Air, the cell gets the slot's type and the
     * slot loses one block.
     */
    method PlaceBlock(last: Cell)
      requires Valid() && (last == NoCell || InBounds(last))
      modifies world, inventory
      ensures Valid()
      ensures if Recorded(last) && old(inventory[selectedSlot].count) > 0 && old(world[last.x, last.y, last.z]) == Air
              then Grid(world) == old(Grid(world))[last := old(inventory[selectedSlot].kind)]
                   && inventory[..] == Spend(old(inventory[..]), selectedSlot)
              else Grid(world) == old(Grid(world)) && inventory[..] == old(inventory[..])
    {
      if last.x >= 0 && last.y >= 0 && last.z >= 0 && inventory[selectedSlot].count > 0 {
        if world[last.x, last.y, last.z] == Air {
          ghost var before := Grid(world);
          world[last.x, last.y, last.z] := inventory[selectedSlot].kind;
          GridAfterWrite(world, before, last);
          inventory[selectedSlot] := inventory[selectedSlot].(count := inventory[selectedSlot].count - 1);
        }
      }
    }

    /**
     * Block interaction: march along the sampled ray; at the first solid
     * cell break it (break held) or place into the last empty cell (only
     * place held), then stop. The march stops with no effect at the first
     * out-of-bounds sample.
     */
    method HandleBlockInteraction(ray: seq<Point>, breakHeld: bool, placeHeld: bool)
      requires Valid()
      modifies world, inventory
      ensures Valid()
      ensures (Grid(world), inventory[..])
              == Interact(old(Grid(world)), old(inventory[..]), selectedSlot, old(AimFrom(world, ray, NoCell)), breakHeld, placeHeld)
      ensures Stocked(old(inventory[..])) ==> Weight(Grid(world), inventory[..]) == old(Weight(Grid(world), inventory[..]))
    {
      MarchWellAimed(world, ray);
      var i := 0;
      var last := NoCell;
      while i < |ray|
        invariant 0 <= i <= |ray|
        invariant unchanged(world) && unchanged(inventory)
        invariant AimFrom(world, ray[i..], last) == old(AimFrom(world, ray, NoCell))
        invariant last == NoCell || Open(world, last)
      {
        var check := CellOf(ray[i]);
        if check.x < 0 || check.x >= WorldSize || check.y < 0 || check.y >= WorldHeight || check.z < 0 || check.z >= WorldSize {
          break;
        }

        if world[check.x, check.y, check.z] != Air {
          assert old(AimFrom(world, ray, NoCell)) == Hit(check, last);
          if breakHeld {
            BreakBlock(check);
          } else if placeHeld {
            PlaceBlock(last);
          }
          break;
        }

        last := check;
        i := i + 1;
      }
      if Stocked(old(inventory[..])) {
        InteractConserves(old(Grid(world)), old(inventory[..]), selectedSlot, old(AimFrom(world, ray, NoCell)), breakHeld, placeHeld);
      }
    }
  }
}
