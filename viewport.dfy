/**
 * Grid-to-pixel arithmetic of the space map: the 15 x 13 window walked
 * column by column with accumulating x/y cursors (drawMap, drawPlanets,
 * drawUnits), jump-route endpoints at cell centres (drawJumpRoutes), and the
 * grid layer that drawMap draws.
 */
module Viewport {
  import opened MapTypes

  /** A visited window cell: grid coordinates (i, j) and the pixel cursor (x, y) at which it is drawn. */
  datatype Cell = Cell(i: int, j: int, x: int, y: int)

  /** The k-th cell of the walk: column k / WindowRows of the window, row k % WindowRows. */
  function CellAt(origin: Point, dx: int, dy: int, k: nat): Cell
  {
    var c, r := k / WindowRows, k % WindowRows;
    Cell(origin.x + c, origin.y + r, c * dx, r * dy)
  }

  /** All window cells in the order the drawing loops visit them (column-outer). */
  function Window(origin: Point, dx: int, dy: int): (w: seq<Cell>)
    ensures |w| == WindowColumns * WindowRows
  {
    seq(WindowColumns * WindowRows, k requires 0 <= k => CellAt(origin, dx, dy, k))
  }

  lemma CellAtIndex(origin: Point, dx: int, dy: int, c: int, r: int)
    requires 0 <= c < WindowColumns && 0 <= r < WindowRows
    ensures CellAt(origin, dx, dy, c * WindowRows + r) == Cell(origin.x + c, origin.y + r, c * dx, r * dy)
  {
    assert (c * WindowRows + r) / WindowRows == c;
    assert (c * WindowRows + r) % WindowRows == r;
  }

  /**
   * Cell (i, j) of the window is visited at position (i - origin.x) * 13 + (j - origin.y)
   * and drawn at ((i - origin.x) * dx, (j - origin.y) * dy).
   */
  lemma WindowPlacesCell(origin: Point, dx: int, dy: int, i: int, j: int)
    requires origin.x <= i < origin.x + WindowColumns && origin.y <= j < origin.y + WindowRows
    ensures 0 <= (i - origin.x) * WindowRows + (j - origin.y) < WindowColumns * WindowRows
    ensures Window(origin, dx, dy)[(i - origin.x) * WindowRows + (j - origin.y)]
         == Cell(i, j, (i - origin.x) * dx, (j - origin.y) * dy)
    ensures forall k :: 0 <= k < WindowColumns * WindowRows && Window(origin, dx, dy)[k].i == i ==>
              (Window(origin, dx, dy)[k].j == j ==> k == (i - origin.x) * WindowRows + (j - origin.y))
  {
    CellAtIndex(origin, dx, dy, i - origin.x, j - origin.y);
  }

  /** Every visited cell lies in the window and is drawn at the affine image of its grid offset. */
  lemma WindowCellsInside(origin: Point, dx: int, dy: int, k: int)
    requires 0 <= k < WindowColumns * WindowRows
    ensures var c := Window(origin, dx, dy)[k];
      && origin.x <= c.i < origin.x + WindowColumns && origin.y <= c.j < origin.y + WindowRows
      && c.x == (c.i - origin.x) * dx && c.y == (c.j - origin.y) * dy
  {
  }

  /** Doubling the cell size (pixel-doubled display) doubles every pixel position. */
  lemma WindowScales(origin: Point, dx: int, dy: int, k: int)
    requires 0 <= k < WindowColumns * WindowRows
    ensures Window(origin, 2 * dx, 2 * dy)[k].x == 2 * Window(origin, dx, dy)[k].x
    ensures Window(origin, 2 * dx, 2 * dy)[k].y == 2 * Window(origin, dx, dy)[k].y
  {
    var c, r := k / WindowRows, k % WindowRows;
    assert c * (2 * dx) == 2 * (c * dx);
    assert r * (2 * dy) == 2 * (r * dy);
  }

  /** The cell names a square of the grid. */
  predicate InGrid(grid: seq<seq<Square>>, c: Cell)
  {
    0 <= c.i < |grid| && 0 <= c.j < |grid[c.i]|
  }

  predicate CellsInGrid(grid: seq<seq<Square>>, cells: seq<Cell>)
  {
    forall k :: 0 <= k < |cells| ==> InGrid(grid, cells[k])
  }

  /** The window lies inside the grid whenever its origin does. */
  lemma WindowInGridCells(grid: seq<seq<Square>>, origin: Point, dx: int, dy: int)
    requires WindowInGrid(grid, origin)
    ensures CellsInGrid(grid, Window(origin, dx, dy))
  {
    forall k | 0 <= k < |Window(origin, dx, dy)|
      ensures InGrid(grid, Window(origin, dx, dy)[k])
    {
      WindowCellsInside(origin, dx, dy, k);
    }
  }

  /** The nested cursor loops of the drawing methods: x and y grow by dx and dy per cell. */
  method WalkWindow(origin: Point, dx: int, dy: int) returns (cells: seq<Cell>)
    ensures cells == Window(origin, dx, dy)
  {
    cells := [];
    var x := 0;
    var i := origin.x;
    while i < origin.x + WindowColumns
      invariant origin.x <= i <= origin.x + WindowColumns
      invariant x == (i - origin.x) * dx
      invariant cells == Window(origin, dx, dy)[..(i - origin.x) * WindowRows]
    {
      var y := 0;
      var j := origin.y;
      while j < origin.y + WindowRows
        invariant origin.y <= j <= origin.y + WindowRows
        invariant y == (j - origin.y) * dy
        invariant cells == Window(origin, dx, dy)[..(i - origin.x) * WindowRows + (j - origin.y)]
      {
        CellAtIndex(origin, dx, dy, i - origin.x, j - origin.y);
        cells := cells + [Cell(i, j, x, y)];
        assert (j - origin.y + 1) * dy == (j - origin.y) * dy + dy;
        y := y + dy;
        j := j + 1;
      }
      assert (i - origin.x + 1) * dx == (i - origin.x) * dx + dx;
      x := x + dx;
      i := i + 1;
    }
  }

  /** Pixel coordinate of the centre of grid coordinate v in a cell of side `size`. */
  function CellCentre(v: int, originV: int, size: nat): (c: int)
    ensures (v - originV) * size <= c
    ensures size > 0 ==> c < (v - originV + 1) * size
  {
    assert (v - originV + 1) * size == (v - originV) * size + size;
    (v - originV) * size + size / 2
  }

  /** A route is the current jump path when all four endpoint coordinates agree. */
  predicate OnJumpPath(path: Option<JumpGate>, g: JumpGate)
  {
    path.Some? && path.value.x1 == g.x1 && path.value.y1 == g.y1
      && path.value.x2 == g.x2 && path.value.y2 == g.y2
  }

  /**
   * drawJumpRoutes: one line per route between the centres of its endpoint
   * cells, green when it is the jump path and in the cycle colour otherwise;
   * the colour is reset after every line, so one green line does not colour the next.
   */
  method DrawJumpRoutes(routes: seq<JumpGate>, path: Option<JumpGate>, origin: Point, sw: nat, sh: nat)
    returns (ds: seq<Directive>)
    ensures |ds| == |routes|
    ensures forall m :: 0 <= m < |routes| ==>
      && ds[m].RouteLine?
      && ds[m].x1 == CellCentre(routes[m].x1, origin.x, sw) && ds[m].y1 == CellCentre(routes[m].y1, origin.y, sh)
      && ds[m].x2 == CellCentre(routes[m].x2, origin.x, sw) && ds[m].y2 == CellCentre(routes[m].y2, origin.y, sh)
      && (ds[m].colour == Green <==> OnJumpPath(path, routes[m]))
  {
    var colour := CycleColour;
    var xOffset, yOffset := sw / 2, sh / 2;
    ds := [];
    var k := 0;
    while k < |routes|
      invariant 0 <= k <= |routes|
      invariant colour == CycleColour
      invariant |ds| == k
      invariant forall m :: 0 <= m < k ==>
        && ds[m].RouteLine?
        && ds[m].x1 == CellCentre(routes[m].x1, origin.x, sw) && ds[m].y1 == CellCentre(routes[m].y1, origin.y, sh)
        && ds[m].x2 == CellCentre(routes[m].x2, origin.x, sw) && ds[m].y2 == CellCentre(routes[m].y2, origin.y, sh)
        && (ds[m].colour == Green <==> OnJumpPath(path, routes[m]))
    {
      var g := routes[k];
      if path.Some? && path.value.x1 == g.x1 && path.value.y1 == g.y1
        && path.value.x2 == g.x2 && path.value.y2 == g.y2
      {
        colour := Green;
      }
      ds := ds + [RouteLine((g.x1 - origin.x) * sw + xOffset, (g.y1 - origin.y) * sh + yOffset,
                            (g.x2 - origin.x) * sw + xOffset, (g.y2 - origin.y) * sh + yOffset, colour)];
      colour := CycleColour;
      k := k + 1;
    }
  }

  /** What drawMap draws for one cell: its outline when a stack is there, its coordinates when shown. */
  function MapCellDirectives(grid: seq<seq<Square>>, c: Cell, dx: int, dy: int, showCoords: bool): seq<Directive>
    requires InGrid(grid, c)
  {
    (if grid[c.i][c.j].stackOwner > -1 then [CellRect(c.x, c.y, dx, dy)] else [])
      + (if showCoords then [CoordText(c.i, c.j, c.x, c.y)] else [])
  }

  /** A layer: the directives of the first n cells, cell after cell. */
  function Layer(parts: seq<seq<Directive>>, n: nat): seq<Directive>
    requires n <= |parts|
  {
    if n == 0 then [] else Layer(parts, n - 1) + parts[n - 1]
  }

  /** A directive is in a layer exactly when one of its first n cells drew it. */
  lemma {:induction false} LayerMembers(parts: seq<seq<Directive>>, n: nat)
    requires n <= |parts|
    ensures forall d :: d in Layer(parts, n) <==> exists k :: 0 <= k < n && d in parts[k]
  {
    if n > 0 {
      LayerMembers(parts, n - 1);
    }
  }

  /** What drawMap draws at each cell of a walk. */
  function MapCellParts(grid: seq<seq<Square>>, cells: seq<Cell>, dx: int, dy: int, showCoords: bool): seq<seq<Directive>>
    requires CellsInGrid(grid, cells)
  {
    seq(|cells|, k requires 0 <= k < |cells| => MapCellDirectives(grid, cells[k], dx, dy, showCoords))
  }

  /**
   * Soundness of the grid layer: every outline belongs to a cell that holds a
   * stack, and coordinate labels appear only when the option is on.
   */
  lemma MapLayerOutlinesOnlyStacks(grid: seq<seq<Square>>, cells: seq<Cell>, dx: int, dy: int, showCoords: bool)
    requires CellsInGrid(grid, cells)
    ensures forall d :: d in Layer(MapCellParts(grid, cells, dx, dy, showCoords), |cells|) ==>
      || (&& d.CellRect? && d.width == dx && d.height == dy
          && exists k :: 0 <= k < |cells| && cells[k].x == d.x && cells[k].y == d.y
                         && grid[cells[k].i][cells[k].j].stackOwner > -1)
      || (d.CoordText? && showCoords)
  {
    var parts := MapCellParts(grid, cells, dx, dy, showCoords);
    LayerMembers(parts, |cells|);
    forall d | d in Layer(parts, |cells|)
      ensures || (&& d.CellRect? && d.width == dx && d.height == dy
                  && exists k :: 0 <= k < |cells| && cells[k].x == d.x && cells[k].y == d.y
                                 && grid[cells[k].i][cells[k].j].stackOwner > -1)
              || (d.CoordText? && showCoords)
    {
      var k :| 0 <= k < |cells| && d in parts[k];
      assert d in MapCellDirectives(grid, cells[k], dx, dy, showCoords);
    }
  }

  /** Completeness of the grid layer: every cell that holds a stack is outlined. */
  lemma MapLayerOutlinesEveryStack(grid: seq<seq<Square>>, cells: seq<Cell>, dx: int, dy: int, showCoords: bool)
    requires CellsInGrid(grid, cells)
    ensures forall k :: 0 <= k < |cells| && grid[cells[k].i][cells[k].j].stackOwner > -1 ==>
      CellRect(cells[k].x, cells[k].y, dx, dy) in Layer(MapCellParts(grid, cells, dx, dy, showCoords), |cells|)
  {
    var parts := MapCellParts(grid, cells, dx, dy, showCoords);
    LayerMembers(parts, |cells|);
    forall k | 0 <= k < |cells| && grid[cells[k].i][cells[k].j].stackOwner > -1
      ensures CellRect(cells[k].x, cells[k].y, dx, dy) in Layer(parts, |cells|)
    {
      assert CellRect(cells[k].x, cells[k].y, dx, dy) in parts[k];
    }
  }

  /** drawMap: clear to black, blit the starfield, then draw the grid layer of every window cell. */
  method DrawMap(grid: seq<seq<Square>>, origin: Point, dx: int, dy: int,
                 mapWidth: int, mapHeight: int, starX: int, starY: int, showCoords: bool)
    returns (ds: seq<Directive>)
    requires WindowInGrid(grid, origin)
    ensures CellsInGrid(grid, Window(origin, dx, dy))
    ensures var cells := Window(origin, dx, dy);
      ds == [FillBackground(mapWidth, mapHeight), Starfield(starX, starY)]
            + Layer(MapCellParts(grid, cells, dx, dy, showCoords), |cells|)
  {
    var cells := WalkWindow(origin, dx, dy);
    WindowInGridCells(grid, origin, dx, dy);
    ghost var parts := MapCellParts(grid, cells, dx, dy, showCoords);
    var background := [FillBackground(mapWidth, mapHeight), Starfield(starX, starY)];
    var layer := [];
    var k := 0;
    while k < |cells|
      invariant 0 <= k <= |cells|
      invariant layer == Layer(parts, k)
    {
      var c := cells[k];
      var square := grid[c.i][c.j];
      var cellDs := [];
      if square.stackOwner > -1 {
        cellDs := cellDs + [CellRect(c.x, c.y, dx, dy)];
      }
      if showCoords {
        cellDs := cellDs + [CoordText(c.i, c.j, c.x, c.y)];
      }
      assert cellDs == parts[k];
      layer := layer + cellDs;
      k := k + 1;
    }
    ds := background + layer;
  }
}
