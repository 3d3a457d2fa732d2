/**
 * The state SpaceMap.java keeps and updates in place: the planet sprite
 * catalog (planet_images), the biome table (planet_types) and the animation
 * counter with the last colour-cycle count seen (planet_phase, cycle_count),
 * together with drawPlanets, the one drawing pass that changes that state.
 */
module SpaceMapPanel {
  import opened MapTypes
  import opened Biomes
  import opened Catalog
  import opened TileStyles
  import opened Phases
  import opened Viewport

  /** Every planet on the grid indexes the biome table (its index is its place in the game's planet list). */
  predicate PlanetsIndexed(grid: seq<seq<Square>>, planetCount: int)
  {
    forall c, r :: 0 <= c < |grid| && 0 <= r < |grid[c]| && grid[c][r].planet.Some? ==>
      grid[c][r].planet.value.index < planetCount
  }

  /** The cell is on the grid, and a planet there indexes the biome table. */
  predicate PlanetCell(grid: seq<seq<Square>>, c: Cell, planetCount: int)
  {
    && InGrid(grid, c)
    && (grid[c.i][c.j].planet.Some? ==> grid[c.i][c.j].planet.value.index < planetCount)
  }

  predicate PlanetCells(grid: seq<seq<Square>>, cells: seq<Cell>, planetCount: int)
  {
    forall k :: 0 <= k < |cells| ==> PlanetCell(grid, cells[k], planetCount)
  }

  lemma WindowPlanetCells(grid: seq<seq<Square>>, origin: Point, dx: int, dy: int, planetCount: int)
    requires WindowInGrid(grid, origin) && PlanetsIndexed(grid, planetCount)
    ensures PlanetCells(grid, Window(origin, dx, dy), planetCount)
  {
    WindowInGridCells(grid, origin, dx, dy);
  }

  /** The name label drawPlanets writes at a cell: that of the planet one row below, if there is one. */
  function LabelDirectives(grid: seq<seq<Square>>, c: Cell): seq<Directive>
    requires Rectangular(grid) && InGrid(grid, c)
  {
    if c.j < |grid[0]| - 1 && grid[c.i][c.j + 1].planet.Some? then
      [PlanetName(grid[c.i][c.j + 1].planet.value.name, c.x, c.y)]
    else []
  }

  /** What the planet part of drawPlanets does at a cell. */
  datatype SpriteOutcome = NoPlanet | UnknownTileSet | Sprite(directive: Directive)

  function CellSprite(grid: seq<seq<Square>>, types: seq<Biome>, c: Cell, counter: int, isDouble: bool): SpriteOutcome
    requires PlanetCell(grid, c, |types|)
  {
    match grid[c.i][c.j].planet
    case None => NoPlanet
    case Some(planet) =>
      match SpriteRow(planet.tileSet, types[planet.index])
      case None => UnknownTileSet
      case Some(row) => Sprite(PlanetSprite(planet.index, FrameIndex(row, counter, planet.index), isDouble, c.x, c.y))
  }

  /** Everything drawPlanets does at one cell: what it writes (label, then sprite) and how the switch ended. */
  datatype CellDraw = CellDraw(directives: seq<Directive>, outcome: SpriteOutcome)

  function DrawCell(grid: seq<seq<Square>>, types: seq<Biome>, c: Cell, counter: int, isDouble: bool): CellDraw
    requires Rectangular(grid) && PlanetCell(grid, c, |types|)
  {
    var s := CellSprite(grid, types, c, counter, isDouble);
    CellDraw(LabelDirectives(grid, c) + (if s.Sprite? then [s.directive] else []), s)
  }

  /** The cell-by-cell draws of a walk, all with the same counter value. */
  function PlanetCellDraws(grid: seq<seq<Square>>, types: seq<Biome>, cells: seq<Cell>, counter: int,
                           isDouble: bool): seq<CellDraw>
    requires Rectangular(grid) && PlanetCells(grid, cells, |types|)
  {
    seq(|cells|, k requires 0 <= k < |cells| => DrawCell(grid, types, cells[k], counter, isDouble))
  }

  /** The outcome of a planet pass: what was drawn, whether the switch failed, whether a planet was reached. */
  datatype PassResult = PassResult(directives: seq<Directive>, aborted: bool, sawPlanet: bool)

  /** The planet layer after the first n cells; an unknown tile set stops the pass after that cell's label. */
  function PlanetPass(draws: seq<CellDraw>, n: nat): PassResult
    requires n <= |draws|
  {
    if n == 0 then PassResult([], false, false)
    else
      var prev := PlanetPass(draws, n - 1);
      if prev.aborted then prev
      else
        var d := draws[n - 1];
        PassResult(prev.directives + d.directives, d.outcome.UnknownTileSet?, prev.sawPlanet || d.outcome.Sprite?)
  }

  /** A pass that has not failed takes in the next cell's directives and outcome. */
  lemma PassStep(draws: seq<CellDraw>, k: nat)
    requires k < |draws| && !PlanetPass(draws, k).aborted
    ensures PlanetPass(draws, k + 1)
         == PassResult(PlanetPass(draws, k).directives + draws[k].directives, draws[k].outcome.UnknownTileSet?,
                       PlanetPass(draws, k).sawPlanet || draws[k].outcome.Sprite?)
  {
  }

  /** Once the pass has failed, later cells draw nothing and change nothing. */
  lemma {:induction false} AbortedPassIsFinal(draws: seq<CellDraw>, k: nat, n: nat)
    requires k <= n <= |draws| && PlanetPass(draws, k).aborted
    ensures PlanetPass(draws, n) == PlanetPass(draws, k)
  {
    if k < n {
      AbortedPassIsFinal(draws, k, n - 1);
    }
  }

  /** A pass fails exactly when one of its cells holds a planet of an unknown tile set. */
  lemma {:induction false} PassAbortsAtUnknownTileSet(draws: seq<CellDraw>, n: nat)
    requires n <= |draws|
    ensures PlanetPass(draws, n).aborted <==> exists k :: 0 <= k < n && draws[k].outcome.UnknownTileSet?
  {
    if n > 0 {
      PassAbortsAtUnknownTileSet(draws, n - 1);
    }
  }

  /** Whatever a pass writes was written by one of its cells. */
  lemma {:induction false} PassDrawnByCells(draws: seq<CellDraw>, n: nat)
    requires n <= |draws|
    ensures forall d :: d in PlanetPass(draws, n).directives ==> exists k :: 0 <= k < n && d in draws[k].directives
  {
    if n > 0 {
      PassDrawnByCells(draws, n - 1);
    }
  }

  /**
   * A cell writes at most a name label and a sprite whose frame is
   * FrameIndex(row, counter, planet) for a style row 0..11.
   */
  lemma CellDrawInCatalog(grid: seq<seq<Square>>, types: seq<Biome>, c: Cell, counter: int, isDouble: bool)
    requires Rectangular(grid) && PlanetCell(grid, c, |types|)
    ensures forall d :: d in DrawCell(grid, types, c, counter, isDouble).directives ==>
      || d.PlanetName?
      || (&& d.PlanetSprite? && 0 <= d.frame < (ReferenceStyle + 1 + VariantCount) * PlanetPhases
          && d.frame % PlanetPhases == DisplayedPhase(counter, d.planet) && d.doubled == isDouble)
  {
    match grid[c.i][c.j].planet
    case None =>
    case Some(planet) =>
      SpriteRowTotal(planet.tileSet, types[planet.index]);
      match SpriteRow(planet.tileSet, types[planet.index])
      case None =>
      case Some(row) => FrameShowsPhase(row, counter, planet.index);
  }

  /**
   * Every sprite of a pass lies inside a catalog built from at least
   * 8 * PlanetPhases base frames, and shows the planet's own phase of the
   * pass's counter.
   */
  lemma PassSpritesInCatalog(grid: seq<seq<Square>>, types: seq<Biome>, cells: seq<Cell>, counter: int, isDouble: bool)
    requires Rectangular(grid) && PlanetCells(grid, cells, |types|)
    ensures forall d :: d in PlanetPass(PlanetCellDraws(grid, types, cells, counter, isDouble), |cells|).directives ==>
      || d.PlanetName?
      || (&& d.PlanetSprite? && 0 <= d.frame < (ReferenceStyle + 1 + VariantCount) * PlanetPhases
          && d.frame % PlanetPhases == DisplayedPhase(counter, d.planet) && d.doubled == isDouble)
  {
    var draws := PlanetCellDraws(grid, types, cells, counter, isDouble);
    PassDrawnByCells(draws, |cells|);
    forall d | d in PlanetPass(draws, |cells|).directives
      ensures || d.PlanetName?
              || (&& d.PlanetSprite? && 0 <= d.frame < (ReferenceStyle + 1 + VariantCount) * PlanetPhases
                  && d.frame % PlanetPhases == DisplayedPhase(counter, d.planet) && d.doubled == isDouble)
    {
      var k :| 0 <= k < |cells| && d in draws[k].directives;
      CellDrawInCatalog(grid, types, cells[k], counter, isDouble);
    }
  }

  class SpaceMap {
    /** planet_images: frame f, pixel p at planetImages[f, p]. */
    var planetImages: array2<int>
    /** planet_types: the biome of planet i. */
    var planetTypes: array<Biome>
    /** cycle_count: the colour-cycle count seen by the last planet drawn. */
    var cycleCount: int
    /** planet_phase: the animation ring counter. */
    var planetPhase: int

    ghost predicate Valid()
      reads this
    {
      && 0 <= planetPhase < PlanetPhases
      && planetImages.Length0 >= (ReferenceStyle + 1 + VariantCount) * PlanetPhases
    }

    /** The catalog holds exactly the frames CatalogPixel describes. */
    ghost predicate CatalogIs(base: seq<seq<int>>, tables: seq<seq<int>>, pixels: nat)
      reads this, planetImages
      requires IsBase(base, pixels) && AreTables(tables)
    {
      && planetImages.Length0 == CatalogSize(base) && planetImages.Length1 == pixels
      && forall f, p :: 0 <= f < planetImages.Length0 && 0 <= p < planetImages.Length1 ==>
           planetImages[f, p] == CatalogPixel(base, tables, pixels, f, p)
    }

    /** Planet i's biome is the classification of its hex counts against a map of columns x width hexes. */
    ghost predicate TypesAre(planetHexes: seq<seq<Hex>>, columns: nat, width: nat)
      reads this, planetTypes
    {
      && planetTypes.Length == |planetHexes|
      && forall i :: 0 <= i < planetTypes.Length ==>
           planetTypes[i] == Classify(OceanCount(planetHexes[i]), DesertCount(planetHexes[i]), columns * width)
    }

    /** The SpaceMap constructor: build the catalog, start the counter at 0, classify the planets. */
    constructor (base: seq<seq<int>>, ice: seq<int>, jungle: seq<int>, ocean: seq<int>, desert: seq<int>, pixels: nat,
                 planetHexes: seq<seq<Hex>>, columns: nat, width: nat)
      requires IsBase(base, pixels) && AreTables([ice, jungle, ocean, desert])
      ensures Valid() && planetPhase == 0 && cycleCount == 0
      ensures CatalogIs(base, [ice, jungle, ocean, desert], pixels)
      ensures TypesAre(planetHexes, columns, width)
      ensures fresh(planetImages) && fresh(planetTypes)
    {
      planetImages := new int[0, 0];
      planetTypes := new Biome[0];
      cycleCount := 0;
      planetPhase := 0;
      new;
      LoadPlanetImages(base, ice, jungle, ocean, desert, pixels);
      SetUpPlanetTypes(planetHexes, columns, width);
    }

    /**
     * loadPlanetImages: copy the base frames, then derive the ice, jungle,
     * ocean and desert blocks from the reference style's frames.
     */
    method LoadPlanetImages(base: seq<seq<int>>, ice: seq<int>, jungle: seq<int>, ocean: seq<int>, desert: seq<int>,
                            pixels: nat)
      requires IsBase(base, pixels) && AreTables([ice, jungle, ocean, desert])
      requires 0 <= planetPhase < PlanetPhases
      modifies this
      ensures Valid() && fresh(planetImages)
      ensures CatalogIs(base, [ice, jungle, ocean, desert], pixels)
      ensures planetTypes == old(planetTypes) && planetPhase == old(planetPhase) && cycleCount == old(cycleCount)
    {
      var tables := [ice, jungle, ocean, desert];
      var baseCount := |base|;
      planetImages := new int[baseCount + VariantCount * PlanetPhases, pixels];
      var i := 0;
      while i < baseCount
        modifies planetImages
        invariant 0 <= i <= baseCount
        invariant forall f, p :: 0 <= f < i && 0 <= p < pixels ==> planetImages[f, p] == base[f][p]
      {
        var j := 0;
        while j < pixels
          modifies planetImages
          invariant 0 <= j <= pixels
          invariant forall f, p :: 0 <= f < i && 0 <= p < pixels ==> planetImages[f, p] == base[f][p]
          invariant forall p :: 0 <= p < j ==> planetImages[i, p] == base[i][p]
        {
          planetImages[i, j] := base[i][j];
          j := j + 1;
        }
        i := i + 1;
      }
      var k := 0;
      while k < VariantCount
        modifies planetImages
        invariant 0 <= k <= VariantCount
        invariant forall f, p :: 0 <= f < baseCount && 0 <= p < pixels ==> planetImages[f, p] == base[f][p]
        invariant forall f, p :: baseCount <= f < VariantStart(baseCount, k) && 0 <= p < pixels ==>
                    planetImages[f, p] == CatalogPixel(base, tables, pixels, f, p)
      {
        DeriveVariant(base, tables, pixels, k);
        k := k + 1;
      }
    }

    /**
     * One derivation block of loadPlanetImages: frame VariantStart(L, k) + i,
     * pixel j becomes table k applied to the low byte of reference frame
     * 7 * PlanetPhases + i, pixel j.
     */
    method DeriveVariant(base: seq<seq<int>>, tables: seq<seq<int>>, pixels: nat, k: int)
      requires IsBase(base, pixels) && AreTables(tables) && 0 <= k < VariantCount
      requires planetImages.Length0 == CatalogSize(base) && planetImages.Length1 == pixels
      requires forall f, p :: 0 <= f < |base| && 0 <= p < pixels ==> planetImages[f, p] == base[f][p]
      modifies planetImages
      ensures forall f, p :: VariantStart(|base|, k) <= f < VariantStart(|base|, k) + PlanetPhases && 0 <= p < pixels ==>
        planetImages[f, p] == CatalogPixel(base, tables, pixels, f, p)
      ensures forall f, p :: 0 <= f < planetImages.Length0 && 0 <= p < pixels
                             && !(VariantStart(|base|, k) <= f < VariantStart(|base|, k) + PlanetPhases) ==>
        planetImages[f, p] == old(planetImages[f, p])
    {
      var start := |base| + k * PlanetPhases;
      var transform := tables[k];
      var i := 0;
      while i < PlanetPhases
        invariant 0 <= i <= PlanetPhases
        invariant forall f, p :: start <= f < start + i && 0 <= p < pixels ==>
          planetImages[f, p] == CatalogPixel(base, tables, pixels, f, p)
        invariant forall f, p :: 0 <= f < planetImages.Length0 && 0 <= p < pixels && !(start <= f < start + i) ==>
          planetImages[f, p] == old(planetImages[f, p])
      {
        var frame := start + i;
        var j := 0;
        while j < pixels
          invariant 0 <= j <= pixels
          invariant forall f, p :: start <= f < start + i && 0 <= p < pixels ==>
            planetImages[f, p] == CatalogPixel(base, tables, pixels, f, p)
          invariant forall p :: 0 <= p < j ==> planetImages[frame, p] == CatalogPixel(base, tables, pixels, frame, p)
          invariant forall f, p :: 0 <= f < planetImages.Length0 && 0 <= p < pixels && !(start <= f < start + i)
                                   && !(f == frame && p < j) ==>
            planetImages[f, p] == old(planetImages[f, p])
        {
          DerivedFrame(base, tables, pixels, k, i, j);
          planetImages[frame, j] := transform[LowByte(planetImages[ReferenceStyle * PlanetPhases + i, j])];
          j := j + 1;
        }
        i := i + 1;
      }
    }

    /**
     * setUpPlanetTypes: every planet starts as the default (ocean), becomes
     * grass below the ocean threshold, and desert above the desert threshold.
     */
    method SetUpPlanetTypes(planetHexes: seq<seq<Hex>>, columns: nat, width: nat)
      modifies this
      ensures TypesAre(planetHexes, columns, width) && fresh(planetTypes)
      ensures planetImages == old(planetImages) && planetPhase == old(planetPhase) && cycleCount == old(cycleCount)
    {
      planetTypes := new Biome[|planetHexes|](_ => Ocean);
      var area := columns * width;
      var i := 0;
      while i < planetTypes.Length
        modifies planetTypes
        invariant 0 <= i <= planetTypes.Length == |planetHexes|
        invariant forall m :: 0 <= m < i ==>
          planetTypes[m] == Classify(OceanCount(planetHexes[m]), DesertCount(planetHexes[m]), area)
        invariant forall m :: i <= m < planetTypes.Length ==> planetTypes[m] == Ocean
      {
        var ocean, desert := CountTerrain(planetHexes[i]);
        if BelowOceanThreshold(ocean, area) {
          planetTypes[i] := Grass;
        }
        if AboveDesertThreshold(desert, area) {
          planetTypes[i] := Desert;
        }
        ClassifyMatchesThresholds(ocean, desert, area);
        i := i + 1;
      }
    }

    /**
     * One cell of drawPlanets: the label of the planet below, then the tile-set
     * switch; the first planet of a pass brings the counter (`phase`) up to
     * date with the colour-cycle count.
     */
    method DrawPlanetCell(grid: seq<seq<Square>>, c: Cell, phase: int, cycle: int, count: int, isDouble: bool,
                          ghost d: CellDraw)
      returns (ds: seq<Directive>, failed: bool, phase': int, cycle': int)
      requires 0 <= phase < PlanetPhases
      requires Rectangular(grid) && PlanetCell(grid, c, planetTypes.Length)
      requires d == DrawCell(grid, planetTypes[..], c, PassPhase(phase, cycle, count), isDouble)
      ensures && ds == d.directives && failed == d.outcome.UnknownTileSet?
        && phase' == (if d.outcome.Sprite? then PassPhase(phase, cycle, count) else phase)
        && cycle' == (if d.outcome.Sprite? then count else cycle)
    {
      ds := [];
      failed := false;
      phase', cycle' := phase, cycle;
      if c.j < |grid[0]| - 1 && grid[c.i][c.j + 1].planet.Some? {
        ds := ds + [PlanetName(grid[c.i][c.j + 1].planet.value.name, c.x, c.y)];
      }
      var cellPlanet := grid[c.i][c.j].planet;
      if cellPlanet.Some? {
        var planet := cellPlanet.value;
        var row: int;
        match planet.tileSet {
          case NormalTileSet =>
            if planetTypes[planet.index] == Ocean {
              row := 10;
            } else if planetTypes[planet.index] == Desert {
              row := 11;
            } else {
              row := 7;
            }
          case JungleTileSet => row := 9;
          case FrozenTileSet => row := 8;
          case MegacityTileSet => row := 0;
          case BarrenTileSet => row := 1;
          case OtherTileSet(_) =>
            failed := true;
            return;
        }
        var idx := phase';
        if count != cycle' {
          cycle' := count;
          phase' := NextPhase(phase');
          idx := phase';
        }
        idx := row * PlanetPhases + (idx + 7 * planet.index) % PlanetPhases;
        ds := ds + [PlanetSprite(planet.index, idx, isDouble, c.x, c.y)];
      }
    }

    /**
     * drawPlanets: walk the window; at each cell draw the name of the planet
     * below it, then the cell's own planet. The first planet reached advances
     * the counter when the colour-cycle count has changed and records the
     * count, so every planet of the pass is drawn with the same counter value.
     * An unknown tile set ends the pass (AssertionError).
     */
    method DrawPlanets(grid: seq<seq<Square>>, origin: Point, dx: int, dy: int, count: int, isDouble: bool)
      returns (ds: seq<Directive>, aborted: bool)
      requires Valid()
      requires WindowInGrid(grid, origin) && PlanetsIndexed(grid, planetTypes.Length)
      modifies this`cycleCount, this`planetPhase
      ensures Valid()
      ensures PlanetCells(grid, Window(origin, dx, dy), planetTypes.Length)
      ensures var counter := PassPhase(old(planetPhase), old(cycleCount), count);
        var cells := Window(origin, dx, dy);
        var r := PlanetPass(PlanetCellDraws(grid, planetTypes[..], cells, counter, isDouble), |cells|);
        && ds == r.directives && aborted == r.aborted
        && planetPhase == (if r.sawPlanet then counter else old(planetPhase))
        && cycleCount == (if r.sawPlanet then count else old(cycleCount))
    {
      var cells := WalkWindow(origin, dx, dy);
      WindowPlanetCells(grid, origin, dx, dy, planetTypes.Length);
      ghost var draws := PlanetCellDraws(grid, planetTypes[..], cells, PassPhase(planetPhase, cycleCount, count), isDouble);
      ds, aborted, planetPhase, cycleCount := DrawPlanetCells(grid, cells, planetPhase, cycleCount, count, isDouble, draws);
    }

    /** The loop of drawPlanets over a run of cells, in order, from counter `phase` and cycle count `cycle`. */
    method DrawPlanetCells(grid: seq<seq<Square>>, cells: seq<Cell>, phase: int, cycle: int, count: int, isDouble: bool,
                           ghost draws: seq<CellDraw>)
      returns (ds: seq<Directive>, aborted: bool, phase': int, cycle': int)
      requires 0 <= phase < PlanetPhases
      requires Rectangular(grid) && PlanetCells(grid, cells, planetTypes.Length) && |draws| == |cells|
      requires forall i {:trigger cells[i]} :: 0 <= i < |cells| ==>
        draws[i] == DrawCell(grid, planetTypes[..], cells[i], PassPhase(phase, cycle, count), isDouble)
      ensures 0 <= phase' < PlanetPhases
      ensures var r := PlanetPass(draws, |cells|);
        && ds == r.directives && aborted == r.aborted
        && phase' == (if r.sawPlanet then PassPhase(phase, cycle, count) else phase)
        && cycle' == (if r.sawPlanet then count else cycle)
    {
      ghost var counter := PassPhase(phase, cycle, count);
      ghost var seen := false;
      ds := [];
      aborted := false;
      phase', cycle' := phase, cycle;
      var k := 0;
      while k < |cells| && !aborted
        invariant 0 <= k <= |cells|
        invariant PlanetPass(draws, k) == PassResult(ds, aborted, seen)
        invariant phase' == (if seen then counter else phase)
        invariant cycle' == (if seen then count else cycle)
      {
        var cellDs, failed;
        PassStep(draws, k);
        assert PassPhase(phase', cycle', count) == counter;
        cellDs, failed, phase', cycle' := DrawPlanetCell(grid, cells[k], phase', cycle', count, isDouble, draws[k]);
        ds := ds + cellDs;
        aborted := failed;
        seen := seen || draws[k].outcome.Sprite?;
        k := k + 1;
      }
      if aborted {
        AbortedPassIsFinal(draws, k, |cells|);
      }
    }
  }

  /**
   * The frame a planet is drawn with is inside the catalog the constructor
   * builds, and with an asset of exactly 8 * PlanetPhases frames it is the
   * derived frame of the planet's intended biome variant.
   */
  lemma DrawnSpriteIsCatalogFrame(base: seq<seq<int>>, tables: seq<seq<int>>, pixels: nat,
                                  t: TileSet, b: Biome, counter: int, index: nat, p: int)
    requires IsBase(base, pixels) && AreTables(tables) && SpriteRow(t, b).Some? && 0 <= p < pixels
    ensures 0 <= FrameIndex(SpriteRow(t, b).value, counter, index) < CatalogSize(base)
    ensures |base| == (ReferenceStyle + 1) * PlanetPhases && IntendedVariant(t, b).Some? ==>
      CatalogPixel(base, tables, pixels, FrameIndex(SpriteRow(t, b).value, counter, index), p)
        == tables[IntendedVariant(t, b).value][LowByte(base[ReferenceStyle * PlanetPhases + DisplayedPhase(counter, index)][p])]
  {
    SpriteRowTotal(t, b);
    if |base| == (ReferenceStyle + 1) * PlanetPhases {
      DrawnFrameContents(base, tables, pixels, t, b, DisplayedPhase(counter, index), p);
    }
  }
}
