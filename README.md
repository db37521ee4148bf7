# BussCraft simulation core in Dafny

A model of the simulation logic of the BussCraft voxel sandbox (`main.cpp`):
the 32×32×32 block grid and its terrain generator, the player's vertical
physics with the floor clamp and the single-cell "stand on top" snap, the
number-key slot selection with its debounce flag, the pitch clamp, and the
fixed-step block-targeting march with break and place tied to the inventory.

The program keeps its state in globals; here it is one object,
`Sandbox.Game`, with the grid as an `array3<BlockType>`, the inventory as an
`array<Slot>`, the player's fields and the static `keyDebounce` flag. Its
methods update that state in place, as the program does, and each is proved
against a specification function over values or the grid array:

- `Terrain.TerrainCell` gives the block the generator leaves in every cell;
  `Terrain.InitWorld` is proved to produce it.
- `Physics.Integrate` and `Physics.Settle` (composed in
  `Physics.VerticalStep`) give the new height, vertical speed and ground
  contact; `Game.Move` and `Game.Collide` are proved to compute them.
- `Controls.FirstPressed` gives the lowest pressed number key;
  `Game.SelectSlot` is proved to follow it and the debounce rule.
- `Raycast.AimFrom` gives the outcome of the march (no target, or the first
  solid cell and the last empty cell before it), and `Interaction.Interact`
  gives the new grid and inventory. `Game.HandleBlockInteraction` is proved
  to turn the grid view `World.Grid` and the inventory into exactly
  `Interact` of their old values.

Properties proved about these functions include:
- the march stops at the first sample that is not an in-bounds empty cell;
- a hit is always an in-bounds solid cell, and the recorded before-hit cell
  is in bounds and empty;
- break excludes place, and at most one cell changes per call;
- counts never go negative;
- with the starter inventory, solid cells plus held blocks are conserved;
- Grass appears only where the column height is a whole number;
- Sand wins over the trunk;
- the player ends at or above y = 1 with a fall speed of at most 0.3, and
  leaves the ground only by jumping;
- the selected slot stays a valid index, and pitch stays within ±89°.

Inputs the program takes from outside the core are parameters:
- the heightmap value of each column;
- the raw `rand()` outcomes of each column (`Terrain.Rolls`);
- the sampled points of the ray;
- the rotated horizontal velocity;
- the key and mouse-button states;
- the cursor position.

## Model

| member | source | states |
|---|---|---|
| `Blocks.Trunc` | main.cpp:386-388 | the float-to-int conversion truncates toward zero: within one of the value, on the zero side, and 0 exactly for values in (-1, 1) |
| `Blocks.CellOf` | main.cpp:386-388 | a position truncates to an in-bounds cell exactly when each coordinate lies strictly between -1 and the grid extent, so positions in (-1, 0) reach cell 0 |
| `World.Grid` | main.cpp:42-44 | the grid's view has exactly the in-bounds cells as keys, each mapped to the block stored there |
| `World.SolidsAfterUpdate` | main.cpp:400-401 | writing one cell changes the number of solid cells by -1, 0 or +1 according to what the cell loses and gains |
| `World.GridAfterWrite` | main.cpp:415 | an array write at one cell is the map update of the grid view at that cell |
| `Inventory.FirstSlotOf` | main.cpp:404-409 | the index found is the first slot of the broken type, or -1 exactly when no slot has that type |
| `Inventory.Credit` | main.cpp:403-409 | after a break only the first slot of the broken type changes, its count rises by one, no slot changes type, and without such a slot nothing changes |
| `Inventory.Spend` | main.cpp:416 | placing lowers the selected slot's count by exactly one and changes nothing else |
| `Inventory.TotalCountUpdate` | main.cpp:406 | replacing one slot changes the total count by the difference of the two counts |
| `Inventory.CreditTotal` | main.cpp:404-409 | a break adds one block to the total exactly when a slot of that type exists |
| `Inventory.SpendTotal` | main.cpp:416 | a place removes exactly one block from the total |
| `Inventory.StarterStocked` | main.cpp:37-39 | the starter inventory has a slot for every solid type, none for Air, and no negative count |
| `Terrain.Classify` | main.cpp:54-68 | a cell is Grass, Dirt or Stone iff it lies below the height, Grass iff y equals height - 1 exactly, Water iff above the height and below 5, never Wood or Sand |
| `Terrain.ColumnGrass` | main.cpp:55-57 | a column has a Grass cell iff its height is a whole number in [1, 32] |
| `Terrain.ColumnLayers` | main.cpp:55-62 | below any solid layer every cell is solid and not Grass; Dirt lies within 4 of the surface and Stone deeper |
| `Terrain.TreeAt` | main.cpp:71-72 | a tree is attempted only in an interior column (6 to 26 in x and z) whose height is below 26 on a 1-in-20 roll; such a column is in bounds and, for heights above -1, even a 6-cell trunk starting at the truncated height stays below the top of the grid |
| `Terrain.SandAt` | main.cpp:86-87 | Sand is attempted for heights below 6 on a 1-in-3 roll; for heights above -1 its cell, at the truncated height, lies between 0 and sea level |
| `Terrain.TreeHeight` | main.cpp:74 | a trunk is 4, 5 or 6 cells tall |
| `Terrain.TerrainCell` | main.cpp:52-88 | Sand exactly at the truncated height of low sand columns, Wood exactly on the trunk cells that Sand did not overwrite, otherwise the layer classification |
| `Terrain.GrassOnlyAtIntegralHeight` | main.cpp:56-57 | a generated Grass cell implies a whole-number height h and lies at y = h - 1 |
| `Terrain.NoAirBelowSeaLevel` | main.cpp:63-64 | no generated cell below y = 5 is Air |
| `Terrain.FillColumn` | main.cpp:52-88 | the column is filled with the terrain specification and every other column is unchanged |
| `Terrain.InitWorld` | main.cpp:47-91 | every cell of the grid holds the terrain specification of its column |
| `Raycast.AimFrom` | main.cpp:385-428 | a hit is an in-bounds solid cell whose before-hit cell is the one passed in or an in-bounds Air cell |
| `Raycast.AimIsFirstStop` | main.cpp:385-397 | the first sample that is not an in-bounds Air cell decides the outcome: out of bounds or end of ray gives no target, solid gives a hit on it with the previous sample's cell as before-hit cell |
| `Raycast.AimDependsOnlyOnCells` | main.cpp:386-388 | two sample sequences that truncate to the same cells give the same outcome |
| `Raycast.Recorded` | main.cpp:413 | the non-negative test on the before-hit cell rejects the unset value (-1, -1, -1) and accepts every in-bounds cell |
| `Interaction.MarchWellAimed` | main.cpp:423-425 | the march's outcome is well aimed: the hit is solid and the before-hit cell is unrecorded or Air |
| `Interaction.Interact` | main.cpp:397-420 | the grid keeps its cells and the inventory its length and slot types, and with neither button held nothing changes |
| `Interaction.InteractOutcome` | main.cpp:397-420 | with a target and break held, the hit cell becomes Air and the first slot of its type gains one; with a target, place alone, a recorded before-hit cell and a non-empty selected slot, that cell (always Air) gets the slot's type and the slot loses one; with no target or neither guard met, nothing changes |
| `Interaction.InteractChangesOneCell` | main.cpp:399-420 | only a hit can change the grid, and any changed cell is the only one: the hit cell becoming Air under break, or the before-hit Air cell receiving the selected type under place alone |
| `Interaction.InteractKeepsCounts` | main.cpp:413-416 | no slot count becomes negative |
| `Interaction.InteractConserves` | main.cpp:400-417 | with a slot for every solid type and none for Air, solid cells plus held blocks stay the same |
| `Physics.Integrate` | main.cpp:311-330 | a jump from the ground launches the player off the ground at 0.15 - 0.01 and moves them by it; otherwise the speed drops by 0.01 down to -0.3 and the player moves by it with ground contact unchanged; the floor clamp to y = 1 at rest on the ground fires exactly when that move would end below 1; so y >= 1, fall speed at most 0.3, and ground is left only by jumping |
| `Physics.Settle` | main.cpp:333-346 | the snap either changes nothing or puts the player at rest on the ground at a whole-number height above the old one |
| `Physics.VerticalStep` | main.cpp:311-346 | the whole vertical step keeps y >= 1 and fall speed at most 0.3, ground is left only by jumping, and no upward speed gain without a jump from the ground |
| `Physics.StandsOnTop` | main.cpp:337-345 | the snap happens exactly when the feet cell is in bounds and solid, and then the player stands directly on that cell |
| `Physics.GroundClamp` | main.cpp:326-330 | a player starting below y = 1, not rising and not jumping off the ground, ends at rest on the ground at y = 1 when its feet cell there is not solid |
| `Controls.FirstPressed` | main.cpp:350-358 | the index is the lowest pressed key, or -1 exactly when no key is pressed |
| `Controls.ClampPitch` | main.cpp:497-498 | the pitch ends in [-89, 89] and is unchanged when already there |
| `Sandbox.Game.constructor` | main.cpp:23-44 | the default player, the starter inventory, the selected slot 0 and a generated grid |
| `Sandbox.Game.Look` | main.cpp:493-498 | yaw and pitch move by a tenth of the cursor offset and pitch ends within ±89 |
| `Sandbox.Game.Move` | main.cpp:289-330 | the horizontal velocity and position follow the input and the vertical state is `Integrate` of the old one |
| `Sandbox.Game.Collide` | main.cpp:332-346 | the vertical state is `Settle` of the old one at the new position |
| `Sandbox.Game.SelectSlot` | main.cpp:348-366 | without debounce the lowest pressed key selects its slot if it is below the inventory size, otherwise the slot is unchanged; debounce ends set iff some key is pressed |
| `Sandbox.Game.HandleInput` | main.cpp:287-367 | movement, collision and slot selection in order; the player ends at y >= 1 with bounded fall speed and a valid selected slot |
| `Sandbox.Game.AddToInventory` | main.cpp:403-409 | the inventory becomes `Credit` of the old one |
| `Sandbox.Game.BreakBlock` | main.cpp:399-410 | the cell becomes Air, nothing else in the grid changes, and the inventory is credited with the old block |
| `Sandbox.Game.PlaceBlock` | main.cpp:412-419 | with a recorded cell, a non-empty selected slot and an Air cell, the cell gets the slot's type and the slot is spent; otherwise nothing changes |
| `Sandbox.Game.HandleBlockInteraction` | main.cpp:370-429 | the new grid and inventory are `Interact` of the old ones under the march's outcome, and with a stocked inventory solid cells plus held blocks are conserved |

## Left out

- Rendering is not modelled: `drawCube`, `drawText`, `drawInventory`, `setPerspective` and the render loop (main.cpp:107-284, 432-454, 509-540). It is presentation through a foreign library.
- `getBlockColor` and `blockNames` are display metadata only.
- Window creation and GLFW polling become inputs: `keys`, `jump`, `breakHeld`, `placeHeld` and the cursor position. This covers `glfwGetKey`, `glfwGetMouseButton`, `glfwGetCursorPos` and cursor capture.
- The sin/cos heightmap (main.cpp:52) is not computed; each column's height is an input. The generator needs every height above -1, which keeps the trunk and sand writes in bounds; the program's heightmap stays within [0, 10].
- `Sandbox.Game.Move` takes the horizontal velocity as input; the yaw rotation of the movement vector (main.cpp:306-308) is not modelled.
- `Sandbox.Game.HandleBlockInteraction` takes the ray as its sampled points. The trig direction (main.cpp:377-383) and the float accumulation of `distance` up to `reach` (4.0, step 0.1) are not modelled, and neither is the `reach` field.
- `rand()` and `srand(time)` are replaced by arbitrary per-column outcomes (`Terrain.Rolls`). The model does not capture that the columns share one random stream.
- Floats are modelled as reals. Rounding of `height - 1`, of the gravity step and of the position sums is not captured, so exact-equality results such as `Terrain.ColumnGrass` hold for the real-valued computation.
- Counts are unbounded integers. The program's 32-bit counts cannot overflow: by `Interaction.InteractConserves`, the total held from the starter inventory never exceeds the 32·32·32 cells plus the 36 starter blocks. Float-to-int casts of positions are modelled as exact truncation; out-of-range casts are not modelled.
- The GCC/MinGW `quick_exit` shim (main.cpp:10-16) is toolchain plumbing.
- The model follows the code as written, including:
  - Grass is tested with the exact equality `y == height - 1`, so a column of non-integral height has no Grass and its topmost layer is Dirt unless Sand or a trunk covers it.
  - The collision and march cells are truncated toward zero.
  - Break and place are exclusive (`else if`): break wins when both buttons are held.
  - The slot keys are polled every frame behind a debounce flag that clears only when all six keys are released.
