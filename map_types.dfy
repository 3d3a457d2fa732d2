/**
 * Values shared by the space-map model: the constants of SpaceMap.java, the
 * read-only game data the renderer observes (planets, grid squares, units,
 * jump gates) and the draw directives the renderer emits in place of AWT calls.
 */
module MapTypes {

  datatype Option<T> = None | Some(value: T)

  /** PLANET_PHASES: frames in one planet animation cycle. */
  const PlanetPhases: int := 16
  /** The tile style whose frames are recoloured into the four biome variants. */
  const ReferenceStyle: int := 7
  /** Number of biome variants derived from the reference style (ice, jungle, ocean, desert). */
  const VariantCount: int := 4
  /** The visible window is WindowColumns x WindowRows grid cells. */
  const WindowColumns: int := 15
  const WindowRows: int := 13
  /** MARGIN: how far (in pixels, inclusive) a release may stray from its press and still click. */
  const Margin: int := 50

  /** The tile sets a planet can carry; any code outside the five named ones is `OtherTileSet`. */
  datatype TileSet =
    | NormalTileSet
    | JungleTileSet
    | FrozenTileSet
    | MegacityTileSet
    | BarrenTileSet
    | OtherTileSet(code: int)

  /** A planet's biome as stored in planet_types; `Ocean` is the array default 0. */
  datatype Biome = Ocean | Grass | Desert

  /** The two terrain flags of a planet hex that the classifier reads. */
  datatype Hex = Hex(ocean: bool, desert: bool)

  /** A unit: its owners, its per-turn spotted flags and its cargo. */
  datatype Unit = Unit(unitType: int, owner: int, prevOwner: int, spotted: seq<bool>, cargo: seq<Unit>)

  /** A planet as the map sees it; `spaceStacks[f]` is faction f's space stack, `None` for null. */
  datatype Planet = Planet(index: nat, name: string, tileSet: TileSet, spaceStacks: seq<Option<seq<Unit>>>)

  /** A galaxy grid square; `stackOwner` is -1 when no stack is there. */
  datatype Square = Square(planet: Option<Planet>, stackOwner: int, parentPlanet: Option<Planet>)

  datatype Point = Point(x: int, y: int)

  datatype JumpGate = JumpGate(x1: int, y1: int, x2: int, y2: int)

  datatype LineColour = CycleColour | Green

  /** A unit-stack icon: the bearer's owner (which picks the colour), its type, the count and the capture flag. */
  datatype Overlay = Overlay(owner: int, unitType: int, count: nat, captured: bool)

  /** What the renderer draws, one directive per thing drawn. */
  datatype Directive =
    | FillBackground(width: int, height: int)
    | Starfield(x: int, y: int)
    | CellRect(x: int, y: int, width: int, height: int)
    | CoordText(i: int, j: int, x: int, y: int)
    | RouteLine(x1: int, y1: int, x2: int, y2: int, colour: LineColour)
    | PlanetName(name: string, x: int, y: int)
    | PlanetSprite(planet: nat, frame: int, doubled: bool, x: int, y: int)
    | UnitIcon(overlay: Overlay, x: int, y: int)

  /** The galaxy grid is indexed grid[x][y]; every column has the same height. */
  predicate Rectangular(grid: seq<seq<Square>>)
  {
    |grid| > 0 && forall c :: 0 <= c < |grid| ==> |grid[c]| == |grid[0]|
  }

  /** The window whose top-left cell is `origin` lies inside the grid (the host clamps the origin). */
  predicate WindowInGrid(grid: seq<seq<Square>>, origin: Point)
  {
    && Rectangular(grid)
    && 0 <= origin.x && origin.x + WindowColumns <= |grid|
    && 0 <= origin.y && origin.y + WindowRows <= |grid[0]|
  }
}
