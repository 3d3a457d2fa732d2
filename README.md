# Space map renderer core, modelled in Dafny

This project models the deterministic core of `SpaceMap`, the panel that draws
the strategic star map of the game. It covers:

- **The planet sprite catalog** built by `loadPlanetImages`. The base frames of
  the planet asset come first. Four blocks of 16 frames follow: ice, jungle,
  ocean and desert. Each block is derived pixel by pixel from the frames of
  reference style 7 through a 256-entry lookup table.
- **The biome table** built by `setUpPlanetTypes`. The ocean and desert hexes
  of each planet are counted; a hex that is both counts as ocean. Then the
  grass threshold is applied, and the desert threshold overrides it.
- **The planet layer** of `drawPlanets`:
  - the closed tile-set switch that picks a sprite row;
  - the 16-phase animation counter, which advances when the colour-cycle count
    changes;
  - the per-planet phase offset `7 * index`;
  - the name label drawn above each planet;
  - the pass that stops at an unknown tile set.
- **The walk over the 15 x 13 window** shared by `drawMap`, `drawPlanets` and
  `drawUnits`, with its accumulating x/y cursors; the grid layer of `drawMap`;
  and the route lines of `drawJumpRoutes`.
- **The unit layer** of `drawUnits` and `drawUnit`:
  - which faction slots a cell shows (selection blink, the selected faction's
    override, three slots for league owners);
  - the fog-of-war filter on spotted units;
  - the count printed on each icon;
  - the icon bearer and its capture flag;
  - the vertical offset of each drawn icon.
- **The click-versus-drag recogniser** registered by `setUpMouse`.

Drawing calls become *directives* (`MapTypes.Directive`): each draw method
returns the sequence of drawing calls it would make. The fields the Java class
updates in place live in the class `SpaceMapPanel.SpaceMap`:

| field | Java field | Dafny type |
|---|---|---|
| `planetImages` | `planet_images` | `array2<int>` |
| `planetTypes` | `planet_types` | `array<Biome>` |
| `planetPhase` | `planet_phase` | `int` |
| `cycleCount` | `cycle_count` | `int` |

The mouse slot array lives in the class `Clicks.MouseSlots`.

Modules:

- `MapTypes`: constants, game data and directives.
- `Biomes`: hex counting and the thresholds.
- `Catalog`: the specification of the finished sprite catalog.
- `TileStyles`: the tile-set switch.
- `Phases`: the animation counter.
- `Viewport`: window walk, grid layer and jump routes.
- `UnitStacks`: the unit layer.
- `Clicks`: the mouse recogniser.
- `SpaceMapPanel`: the class with its state, and the planet layer.

The `C` constants class is not part of this model. Its values are parameters:

- `EFSPLAN_BIN_LENGTH` is the number of base frames, `|base|`.
- `EFSPLAN_BIN_P_SIZE` is `pixels`.
- `PLANET_MAP_COLUMNS * PLANET_MAP_WIDTH` is `columns * width`.
- `C.LEAGUE` is `UnitView.league`.
- The five tile-set codes are the datatype `TileSet`, and any other code is
  `OtherTileSet`.
- `C.OCEAN` is taken to be 0, the array default, which the switch reads as
  ocean.

Two details of `drawUnit` decide what a stack shows:

- The icon bearer is the **last** spotted unit of a stack, because the unit
  loop overwrites `e` on every spotted unit (`src/gui/SpaceMap.java`,
  lines 571-577).
- A selected cell shows nothing while `getAnimationBlink()` is **true**, and
  shows only the selected faction while it is false (lines 553-558).

## Model

| member | source | states |
|---|---|---|
| `Biomes.CountTerrain` | src/gui/SpaceMap.java:125-133 | the hex loop returns the ocean count and the desert count of hexes that are not ocean, and their sum never exceeds the number of hexes |
| `Biomes.CountsWithinHexes` | src/gui/SpaceMap.java:127-133 | a hex is counted at most once: ocean + desert <= number of hexes |
| `Biomes.Classify` | src/gui/SpaceMap.java:134-139 | defines the biome rule: desert when desert hexes exceed half the area, else grass when ocean hexes are under three quarters of it, else ocean |
| `Biomes.BothCountsAsOcean` | src/gui/SpaceMap.java:128-132 | a hex tagged both ocean and desert raises the ocean count and leaves the desert count unchanged |
| `Biomes.ClassifyMatchesThresholds` | src/gui/SpaceMap.java:134-139 | the two threshold tests, applied grass first and then desert overriding it, give desert iff desert > 0.50 * area, grass iff ocean < 0.75 * area and not desert, and otherwise the default ocean (both directions) |
| `Biomes.ClassifyBoundaries` | src/gui/SpaceMap.java:134-139 | the thresholds are strict: exactly 75% ocean is never grass, whatever the desert count, and exactly 50% desert is not desert |
| `SpaceMapPanel.SpaceMap.SetUpPlanetTypes` | src/gui/SpaceMap.java:122-141 | allocates a fresh biome table of one entry per planet; entry i is the classification of planet i's hex counts; the catalog and the counter are unchanged |
| `Catalog.LowByte` | src/gui/SpaceMap.java:610 | `v & 0xff` yields a value in 0..255 that is congruent to v modulo 256 |
| `Catalog.CatalogPixel` | src/gui/SpaceMap.java:599-636 | defines pixel p of catalog frame f: a base frame is copied, and frame L + 16k + i is table k applied to the low byte of reference frame 7 * 16 + i |
| `Catalog.DerivedFrame` | src/gui/SpaceMap.java:606-636 | frame L + 16k + i of the finished catalog lies past the base frames and inside the catalog, and its pixel j is table k (ice, jungle, ocean, desert) applied to the low byte of reference frame 7 * 16 + i, pixel j |
| `Catalog.BaseFrame` | src/gui/SpaceMap.java:599-604 | the base frames appear unchanged at the front of the catalog |
| `SpaceMapPanel.SpaceMap.DeriveVariant` | src/gui/SpaceMap.java:606-612 | one derivation block writes frames L + 16k .. L + 16k + 15 as the catalog specification says, and leaves every other frame, the base frames included, untouched |
| `SpaceMapPanel.SpaceMap.LoadPlanetImages` | src/gui/SpaceMap.java:597-637 | allocates a fresh catalog of L + 4 * 16 frames of `pixels` pixels; every pixel equals the catalog specification (base frames copied, four derived blocks); the other fields are unchanged |
| `SpaceMapPanel.SpaceMap.constructor` | src/gui/SpaceMap.java:104-120 | builds the catalog and the biome table as specified, and starts the ring counter and the remembered cycle count at 0 |
| `TileStyles.SpriteRow` | src/gui/SpaceMap.java:259-283 | defines the tile-set switch: the style row of each of the five tile sets and each biome, and no row for any other tile set |
| `TileStyles.SpriteRowTotal` | src/gui/SpaceMap.java:258-283 | the switch fails exactly for tile sets outside the five named ones, and every row it picks is a style row 0..11 |
| `TileStyles.RowsMatchVariants` | src/gui/SpaceMap.java:258-283 | rows 8, 9, 10 and 11 (frozen, jungle, normal-ocean, normal-desert) are the derived ice, jungle, ocean and desert blocks iff the asset holds exactly 8 * 16 base frames; the other tile sets use base rows 0, 1 and 7 |
| `TileStyles.DrawnFrameContents` | src/gui/SpaceMap.java:606-636 | with an 8 * 16-frame asset, phase i of the row a planet is drawn with is its biome's table applied to reference frame i, and base-style planets show base frames |
| `Phases.NextPhase` | src/gui/SpaceMap.java:115 | one step of `RingCounter(15, 0)` stays in 0..15 |
| `Phases.NextPhaseWraps` | src/gui/SpaceMap.java:115 | one step is the successor modulo 16 |
| `Phases.Advance` | src/gui/SpaceMap.java:286-290 | the counter after any number of colour-cycle changes stays in 0..15 |
| `Phases.AdvanceIsModular` | src/gui/SpaceMap.java:286-290 | after t changes the counter has moved t places round the ring: (p + t) mod 16 |
| `Phases.CounterPeriod` | src/gui/SpaceMap.java:115 | the counter has period 16 |
| `Phases.CounterReachesAll` | src/gui/SpaceMap.java:115 | from any phase, every phase is reached within 16 changes |
| `Phases.PassPhase` | src/gui/SpaceMap.java:284-290 | the counter value a pass draws with stays in 0..15 |
| `Phases.DisplayedPhase` | src/gui/SpaceMap.java:293 | the phase a planet shows is in 0..15 |
| `Phases.FrameIndex` | src/gui/SpaceMap.java:293 | the frame a planet of style `type` is drawn with lies in [type * 16, type * 16 + 16) |
| `Phases.FrameShowsPhase` | src/gui/SpaceMap.java:293 | the frame's position within its style row is the planet's displayed phase |
| `Phases.SiblingsDesynchronised` | src/gui/SpaceMap.java:293 | two planets show the same phase iff their indices agree modulo 16 (both directions), since 7 is invertible modulo 16 |
| `SpaceMapPanel.DrawCell` | src/gui/SpaceMap.java:238-299 | defines what one window cell draws: the name of the planet in the square below, if there is one; then, when the cell has a planet, the sprite of its style row, or a failure on an unknown tile set |
| `SpaceMapPanel.PlanetPass` | src/gui/SpaceMap.java:236-311 | defines a pass as the cell draws in walk order, stopped at the first failure, noting whether any sprite was drawn |
| `SpaceMapPanel.PassAbortsAtUnknownTileSet` | src/gui/SpaceMap.java:259-282 | a planet pass fails iff one of its cells holds a planet of an unknown tile set (both directions) |
| `SpaceMapPanel.AbortedPassIsFinal` | src/gui/SpaceMap.java:281-282 | once the switch has thrown, later cells draw nothing and change nothing |
| `SpaceMapPanel.PassDrawnByCells` | src/gui/SpaceMap.java:236-311 | every directive of a pass was written by one of its cells |
| `SpaceMapPanel.CellDrawInCatalog` | src/gui/SpaceMap.java:238-296 | a cell writes only a name label and a sprite; the sprite's frame is inside the 12-row catalog, shows the planet's displayed phase and carries the display's doubling flag |
| `SpaceMapPanel.PassSpritesInCatalog` | src/gui/SpaceMap.java:234-311 | every sprite of a whole pass is inside the catalog and shows its planet's phase of the one counter value of the pass |
| `SpaceMapPanel.DrawnSpriteIsCatalogFrame` | src/gui/SpaceMap.java:293-297 | the frame a planet is drawn with indexes the catalog, and with an 8 * 16-frame asset its pixels are the intended biome table applied to the reference frame of the displayed phase |
| `SpaceMapPanel.SpaceMap.DrawPlanetCell` | src/gui/SpaceMap.java:238-299 | one cell draws exactly the label and sprite of the cell specification, fails exactly on an unknown tile set, and brings the counter and cycle count up to date only when it draws a sprite |
| `SpaceMapPanel.SpaceMap.DrawPlanetCells` | src/gui/SpaceMap.java:236-311 | the cell loop draws exactly the pass of the cell draws for the counter value `PassPhase(phase, cycle, count)`, stops at the first unknown tile set, and ends with that counter value and `count` iff it drew a sprite |
| `SpaceMapPanel.SpaceMap.DrawPlanets` | src/gui/SpaceMap.java:219-313 | the whole window is drawn with one counter value, advanced once iff the colour-cycle count differs from the remembered one; the new counter and cycle count are stored iff a planet was drawn, and the counter stays in 0..15 |
| `Viewport.Window` | src/gui/SpaceMap.java:236-237 | the walk visits 15 * 13 cells |
| `Viewport.CellAtIndex` | src/gui/SpaceMap.java:236-310 | visit number c * 13 + r is grid cell (origin.x + c, origin.y + r), drawn at (c * dx, r * dy) |
| `Viewport.WindowPlacesCell` | src/gui/SpaceMap.java:236-310 | every window cell (i, j) is visited once, at position (i - origin.x) * 13 + (j - origin.y), and drawn at ((i - origin.x) * dx, (j - origin.y) * dy) |
| `Viewport.WindowCellsInside` | src/gui/SpaceMap.java:236-310 | every visited cell lies in the window and is drawn at the affine image of its offset from the origin |
| `Viewport.WindowScales` | src/gui/SpaceMap.java:231-232 | doubling the square size doubles every cursor position |
| `Viewport.WindowInGridCells` | src/gui/SpaceMap.java:236-238 | when the window's origin keeps it inside the grid, every visited cell indexes the grid |
| `Viewport.WalkWindow` | src/gui/SpaceMap.java:234-311 | the nested cursor loops produce exactly the window walk, column by column, with x and y growing by dx and dy |
| `Viewport.CellCentre` | src/gui/SpaceMap.java:200-213 | a route endpoint's pixel coordinate lies inside its cell |
| `Viewport.DrawJumpRoutes` | src/gui/SpaceMap.java:191-216 | one line per route, in order, between the cell centres of its endpoints; green iff all four endpoints match the jump path, and otherwise the cycle colour, because the colour is reset after every line |
| `Viewport.MapLayerOutlinesOnlyStacks` | src/gui/SpaceMap.java:340-356 | every outline of the grid layer is a dx x dy rectangle at a window cell that holds a stack, and coordinate labels appear only when the option is on |
| `Viewport.MapLayerOutlinesEveryStack` | src/gui/SpaceMap.java:340-348 | every window cell that holds a stack is outlined |
| `Viewport.DrawMap` | src/gui/SpaceMap.java:320-434 | clears to black, blits the starfield, then draws each window cell's outline and label in walk order |
| `UnitStacks.LastSpotted` | src/gui/SpaceMap.java:571-578 | the icon bearer is a spotted unit and no later unit of the stack is spotted; -1 when none is spotted |
| `UnitStacks.SpottedCount` | src/gui/SpaceMap.java:569-577 | defines the printed count: each spotted unit with its cargo |
| `UnitStacks.SpottedCountPositive` | src/gui/SpaceMap.java:569-579 | a stack has an icon bearer iff its printed count is positive (both directions) |
| `UnitStacks.ScanStack` | src/gui/SpaceMap.java:568-578 | the stack loop finds a spotted unit iff there is one, takes the last spotted unit as bearer, and counts every spotted unit with its cargo |
| `UnitStacks.SlotIcon` | src/gui/SpaceMap.java:565-591 | a slot gives an overlay exactly when its stack is non-null, non-empty and has a spotted unit; the overlay carries the bearer's owner and type, the count, and the capture flag owner != previous owner |
| `UnitStacks.SlotOverlay` | src/gui/SpaceMap.java:565-591 | a slot has an overlay iff its stack exists and has a spotted unit (both directions), and the overlay's count is then positive |
| `UnitStacks.Icons` | src/gui/SpaceMap.java:583-591 | one icon per drawn overlay |
| `UnitStacks.Slots` | src/gui/SpaceMap.java:551-561 | the slots visited are at most three consecutive owners |
| `UnitStacks.Dip` | src/gui/SpaceMap.java:585-589 | defines the k-th icon's offset below the cell: 4k pixels, 8k when doubled |
| `UnitStacks.SlotRule` | src/gui/SpaceMap.java:551-561 | a selected cell shows nothing while the blink is on and only the selected faction otherwise (one slot even for league owners); any other cell shows slots owner, owner + 1, owner + 2 for a league owner and the owner alone otherwise |
| `UnitStacks.OverlaysPerSlot` | src/gui/SpaceMap.java:562-594 | at most one overlay per slot, and nothing is drawn iff no slot has an overlay (both directions) |
| `UnitStacks.Consecutive` | src/gui/SpaceMap.java:562-564 | the loop visits `factions` slots |
| `UnitStacks.DrawSlots` | src/gui/SpaceMap.java:562-594 | the k-th icon drawn is the k-th overlay of the visited slots, placed 4k pixels below the cell (8k when doubled); skipped slots do not advance k |
| `UnitStacks.DrawUnit` | src/gui/SpaceMap.java:548-595 | draws exactly the icons of the overlays of the slots the slot rule selects |
| `UnitStacks.CellIconsBelowCell` | src/gui/SpaceMap.java:583-590 | a cell's icons are at its x, and at most `Dip(2)` below its y, the offset of the third icon |
| `UnitStacks.UnitCellsBelowCells` | src/gui/SpaceMap.java:464-532 | every icon of the unit layer sits at a window cell's x, and at most `Dip(2)` below its y, the offset of the third icon |
| `UnitStacks.DrawUnits` | src/gui/SpaceMap.java:441-534 | draws, in walk order, the icons of every window cell whose stack owner is greater than -1, and nothing for other cells |
| `Clicks.IsClickByDistance` | src/gui/SpaceMap.java:163-165 | the release test is: delay below the multi-click interval and \|dx\|, \|dy\| <= 50 |
| `Clicks.IsClick` | src/gui/SpaceMap.java:164-165 | defines the click test on a press and its release |
| `Clicks.MouseSlots.constructor` | src/gui/SpaceMap.java:145 | one empty slot per mouse button, plus one |
| `Clicks.MouseSlots.MousePressed` | src/gui/SpaceMap.java:148-150 | a press replaces its button's slot and leaves the others unchanged |
| `Clicks.MouseSlots.MouseReleased` | src/gui/SpaceMap.java:154-168 | without a pending press nothing happens; otherwise the slot is emptied whatever the outcome, and the press is forwarded iff the release is a click; other slots are unchanged |
| `Clicks.PressThenRelease` | src/gui/SpaceMap.java:148-168 | a press followed by a release of the same button forwards the press iff the pair is a click, and leaves the slot empty |

## Left out

- Drawing itself is out of scope. This covers AWT/Swing (`Graphics`,
  `BufferedImage`, `WritableRaster`), fonts, colours other than the route
  colour, and the starfield image. Draws are modelled as directives.
- The palace-owner colour of the name labels (lines 240-254) is out of scope.
  It rests on hex iteration and the owner palette, which are not part of this
  model. A label is modelled by its name and position only.
- `Util.readImageData` and the `UtilG.planet2Ice/Jungle/Ocean/Desert` tables
  are inputs. The base frames are `base`, and the four tables are
  `ice, jungle, ocean, desert`.
- The `Toolkit` multi-click property is a parameter, and so are
  `MouseInfo.getNumberOfButtons()` and the listener registration. The forwarded
  `clickOnMainMap` call is the method's result.
- `Util.getHexIter` is the parameter `planetHexes`: for each planet, the flags
  of its hexes.
- `Util.stackSize(stack) > 0` is modelled as a non-empty stack.
- `Util.scale2XImage` is modelled as the sprite's `doubled` flag.
- `RingCounter` is modelled as the wrap from 15 to 0.
- `SpaceMapPanel.SpaceMap.LoadPlanetImages`:
  - The first loop copies the base frames into the catalog. The source instead
    stores the row arrays that `readImageData` returns, so aliasing of those
    arrays is not modelled.
  - It requires at least 8 * 16 base frames (`Catalog.IsBase`), so that the
    reference frames 112..127 are base frames. Smaller assets are not
    modelled.
  - The four derivation blocks, written out one after another in the source,
    are one loop over the four tables (`DeriveVariant`).
- `SpaceMapPanel.SpaceMap.DrawPlanets` takes the colour-cycle count as one
  parameter per pass:
  - The source reads `getColorCycleCount()` again at every planet, so a count
    that changes during a pass is not modelled.
  - The counter and cycle count are carried in locals through the cell loop
    and stored once at its end. The values stored are the ones the source
    leaves behind.
  - The integer overflow of `7 * index` for indices near 2^31 is not modelled;
    indices are unbounded naturals.
- `Clicks.MouseSlots.MouseReleased` is not modelled with 64-bit `long`
  arithmetic. The delay `when - press.when` is an unbounded difference, so
  overflow is not modelled.
- `Viewport.DrawMap` models the coordinate label as present only when the
  option is on. The source always calls `drawString`, with an empty string
  when the option is off, and that call draws nothing. The `Font` setup is
  out of scope.
- `Viewport.WalkWindow` is the one copy of the window loops. `drawMap`,
  `drawPlanets` and `drawUnits` each repeat those loops in the source; here
  each of them walks the cells that `WalkWindow` returns.
- `Phases.NextPhase` and `Phases.FrameIndex` state only their ranges in their
  own contracts. The modular facts are stated in the lemmas `NextPhaseWraps`
  and `FrameShowsPhase`.
- `UnitStacks.DrawUnit` requires that every visited slot indexes the planet's
  stacks and that each unit records the current turn. The source would throw
  an index error otherwise, and that failure is not modelled.
- `SpaceMapPanel.SpaceMap.DrawPlanets` requires two things:
  - the window to lie inside the grid (`WindowInGrid`), which the host keeps
    by clamping the origin;
  - every planet's index to index the biome table (`PlanetsIndexed`).
  The model requires the second of every planet on the grid. The source reads
  the biome table only for planets of the normal tile set that it draws
  (lines 261-263), so grids that break it elsewhere are not modelled.
  `Viewport.DrawMap` and `UnitStacks.DrawUnits` make the same assumption
  about the window.
- `UnitStacks.DrawUnits` requires a parent planet for every window cell that
  holds a stack (`CellUnitsReadable`). That includes the selected cell while
  it blinks, where the source returns before reading the planet (lines
  553-555), so a selected cell without a planet is not modelled.
- The commented-out blocks of `drawMap` and `drawUnits` are not modelled.
