/**
 * Unit-stack icons under fog of war (drawUnit, drawUnits): which faction
 * slots a cell shows, which unit bears each slot's icon, the count printed on
 * it, and the vertical offset of each drawn icon.
 */
module UnitStacks {
  import opened MapTypes
  import opened Viewport

  /** The game and gui state the unit layer reads: selection, blink phase, selected faction pair's `y`, C.LEAGUE, turn, display scale. */
  datatype UnitView = UnitView(selected: Option<Point>, blink: bool, selectedFaction: int,
                               league: int, turn: nat, isDouble: bool)

  /** Every unit of the stack has a spotted flag for `turn`. */
  predicate TurnRecorded(stack: seq<Unit>, turn: nat)
  {
    forall k :: 0 <= k < |stack| ==> turn < |stack[k].spotted|
  }

  /** The count printed on a stack: each spotted unit with its cargo. */
  function SpottedCount(stack: seq<Unit>, turn: nat): nat
    requires TurnRecorded(stack, turn)
  {
    if stack == [] then 0
    else
      var u := stack[|stack| - 1];
      SpottedCount(stack[..|stack| - 1], turn) + (if u.spotted[turn] then 1 + |u.cargo| else 0)
  }

  /** Index of the icon bearer: the last spotted unit in stack order, -1 when none is spotted. */
  function LastSpotted(stack: seq<Unit>, turn: nat): (r: int)
    requires TurnRecorded(stack, turn)
    ensures -1 <= r < |stack|
    ensures r >= 0 ==> stack[r].spotted[turn]
    ensures forall m :: r < m < |stack| ==> !stack[m].spotted[turn]
  {
    if stack == [] then -1
    else if stack[|stack| - 1].spotted[turn] then |stack| - 1
    else LastSpotted(stack[..|stack| - 1], turn)
  }

  /** A stack shows a non-zero count exactly when it has a spotted unit, i.e. exactly when it has an icon bearer. */
  lemma {:induction false} SpottedCountPositive(stack: seq<Unit>, turn: nat)
    requires TurnRecorded(stack, turn)
    ensures SpottedCount(stack, turn) > 0 <==> LastSpotted(stack, turn) >= 0
  {
    if stack != [] {
      SpottedCountPositive(stack[..|stack| - 1], turn);
    }
  }

  /** The cell is the selected unit's position. */
  predicate SelectedHere(view: UnitView, a: int, b: int)
  {
    view.selected.Some? && view.selected.value.x == a && view.selected.value.y == b
  }

  /** The faction slots whose stacks are looked up for a cell with stack owner `owner` at (a, b). */
  function Slots(owner: int, a: int, b: int, view: UnitView): (s: seq<int>)
    ensures |s| <= 3
    ensures forall k :: 0 <= k < |s| ==> s[k] == s[0] + k
  {
    if SelectedHere(view, a, b) then (if view.blink then [] else [view.selectedFaction])
    else if owner >= view.league then [owner, owner + 1, owner + 2]
    else [owner]
  }

  /** The overlay one slot draws, `None` when the stack is null, empty or has no spotted unit. */
  function SlotOverlay(stack: Option<seq<Unit>>, turn: nat): (o: Option<Overlay>)
    requires stack.Some? ==> TurnRecorded(stack.value, turn)
    ensures o.Some? <==> stack.Some? && LastSpotted(stack.value, turn) >= 0
    ensures o.Some? ==> o.value.count > 0
  {
    if stack.None? || |stack.value| == 0 then None
    else
      var e := LastSpotted(stack.value, turn);
      if e < 0 then None
      else
        SpottedCountPositive(stack.value, turn);
        var u := stack.value[e];
        Some(Overlay(u.owner, u.unitType, SpottedCount(stack.value, turn), u.owner != u.prevOwner))
  }

  /** Every slot indexes the planet's stacks, and their units record the current turn. */
  predicate SlotsReadable(stacks: seq<Option<seq<Unit>>>, slots: seq<int>, turn: nat)
  {
    forall k :: 0 <= k < |slots| ==>
      0 <= slots[k] < |stacks| && (stacks[slots[k]].Some? ==> TurnRecorded(stacks[slots[k]].value, turn))
  }

  /** The overlays actually drawn, in slot order; skipped slots leave no gap. */
  function Overlays(stacks: seq<Option<seq<Unit>>>, slots: seq<int>, turn: nat): seq<Overlay>
    requires SlotsReadable(stacks, slots, turn)
  {
    if slots == [] then []
    else
      var prev := Overlays(stacks, slots[..|slots| - 1], turn);
      match SlotOverlay(stacks[slots[|slots| - 1]], turn)
      case None => prev
      case Some(o) => prev + [o]
  }

  lemma OverlaysSnoc(stacks: seq<Option<seq<Unit>>>, slots: seq<int>, turn: nat, i: nat)
    requires SlotsReadable(stacks, slots, turn) && i < |slots|
    ensures SlotsReadable(stacks, slots[..i], turn) && SlotsReadable(stacks, slots[..i + 1], turn)
    ensures SlotOverlay(stacks[slots[i]], turn).None? ==>
      Overlays(stacks, slots[..i + 1], turn) == Overlays(stacks, slots[..i], turn)
    ensures SlotOverlay(stacks[slots[i]], turn).Some? ==>
      Overlays(stacks, slots[..i + 1], turn) == Overlays(stacks, slots[..i], turn) + [SlotOverlay(stacks[slots[i]], turn).value]
  {
    assert slots[..i + 1][..i] == slots[..i];
  }

  /** Vertical offset of the k-th drawn icon: 4 pixels per icon, doubled on a doubled display. */
  function Dip(k: nat, isDouble: bool): int
  {
    if isDouble then 4 * k * 2 else 4 * k
  }

  /** The icons for a run of drawn overlays, stacked downwards from (x, y). */
  function Icons(overlays: seq<Overlay>, x: int, y: int, isDouble: bool): (ds: seq<Directive>)
    ensures |ds| == |overlays|
  {
    seq(|overlays|, k requires 0 <= k < |overlays| => UnitIcon(overlays[k], x, y + Dip(k, isDouble)))
  }

  lemma IconsSnoc(overlays: seq<Overlay>, o: Overlay, x: int, y: int, isDouble: bool)
    ensures Icons(overlays + [o], x, y, isDouble)
         == Icons(overlays, x, y, isDouble) + [UnitIcon(o, x, y + Dip(|overlays|, isDouble))]
  {
  }

  /** At most one overlay per slot, and a slot contributes one exactly when SlotOverlay has one. */
  lemma {:induction false} OverlaysPerSlot(stacks: seq<Option<seq<Unit>>>, slots: seq<int>, turn: nat)
    requires SlotsReadable(stacks, slots, turn)
    ensures |Overlays(stacks, slots, turn)| <= |slots|
    ensures (forall k :: 0 <= k < |slots| ==> SlotOverlay(stacks[slots[k]], turn).None?)
        <==> Overlays(stacks, slots, turn) == []
  {
    if slots != [] {
      var prefix := slots[..|slots| - 1];
      OverlaysPerSlot(stacks, prefix, turn);
      assert forall k :: 0 <= k < |prefix| ==> prefix[k] == slots[k];
    }
  }

  /**
   * The slot rule: a selected cell shows nothing while the blink is on and
   * only the selected faction otherwise (one slot even for league owners);
   * any other cell shows three consecutive slots from a league owner and one
   * slot otherwise.
   */
  lemma SlotRule(owner: int, a: int, b: int, view: UnitView)
    ensures SelectedHere(view, a, b) && view.blink ==> Slots(owner, a, b, view) == []
    ensures SelectedHere(view, a, b) && !view.blink ==> Slots(owner, a, b, view) == [view.selectedFaction]
    ensures !SelectedHere(view, a, b) ==>
      |Slots(owner, a, b, view)| == (if owner >= view.league then 3 else 1)
      && forall k :: 0 <= k < |Slots(owner, a, b, view)| ==> Slots(owner, a, b, view)[k] == owner + k
  {
  }

  /**
   * The inner loop of drawUnit over one stack: the last spotted unit becomes
   * the icon bearer `e`, and every spotted unit adds itself and its cargo to the count.
   */
  method ScanStack(units: seq<Unit>, turn: nat) returns (e: Option<Unit>, nrSpotted: nat, spotted: bool)
    requires TurnRecorded(units, turn)
    ensures spotted <==> LastSpotted(units, turn) >= 0
    ensures spotted ==> e == Some(units[LastSpotted(units, turn)])
    ensures nrSpotted == SpottedCount(units, turn)
  {
    e := None;
    nrSpotted := 0;
    spotted := false;
    var u := 0;
    while u < |units|
      invariant 0 <= u <= |units|
      invariant TurnRecorded(units[..u], turn)
      invariant nrSpotted == SpottedCount(units[..u], turn)
      invariant spotted <==> LastSpotted(units[..u], turn) >= 0
      invariant spotted ==> e == Some(units[LastSpotted(units[..u], turn)])
    {
      assert units[..u + 1][..u] == units[..u];
      if units[u].spotted[turn] {
        spotted := true;
        e := Some(units[u]);
        nrSpotted := nrSpotted + 1;
        nrSpotted := nrSpotted + |units[u].cargo|;
      }
      u := u + 1;
    }
    assert units[..u] == units;
  }

  /** One slot of drawUnit's loop: a non-empty stack with a spotted unit gives the overlay of its last spotted unit. */
  method SlotIcon(stack: Option<seq<Unit>>, turn: nat) returns (overlay: Option<Overlay>)
    requires stack.Some? ==> TurnRecorded(stack.value, turn)
    ensures overlay == SlotOverlay(stack, turn)
  {
    overlay := None;
    if stack.Some? && |stack.value| > 0 {
      var e, nrSpotted, spotted := ScanStack(stack.value, turn);
      if spotted {
        var bearer := e.value;
        overlay := Some(Overlay(bearer.owner, bearer.unitType, nrSpotted, bearer.owner != bearer.prevOwner));
      }
    }
  }

  /** The slots owner, owner + 1, ..., owner + factions - 1 that drawUnit's loop visits. */
  function Consecutive(first: int, factions: nat): (s: seq<int>)
    ensures |s| == factions
  {
    seq(factions, k requires 0 <= k < factions => first + k)
  }

  /**
   * The slot loop of drawUnit: the k-th icon actually drawn is the k-th
   * overlay of the visited slots and sits Dip(k) pixels below (x, y); a slot
   * with nothing to show does not advance k.
   */
  method DrawSlots(stacks: seq<Option<seq<Unit>>>, first: int, factions: nat, x: int, y: int, turn: nat, isDouble: bool)
    returns (ds: seq<Directive>)
    requires SlotsReadable(stacks, Consecutive(first, factions), turn)
    ensures ds == Icons(Overlays(stacks, Consecutive(first, factions), turn), x, y, isDouble)
  {
    ghost var slots := Consecutive(first, factions);
    var counter := 0;
    ds := [];
    var i := 0;
    while i < factions
      invariant 0 <= i <= factions
      invariant SlotsReadable(stacks, slots[..i], turn)
      invariant counter == |Overlays(stacks, slots[..i], turn)| == |ds|
      invariant forall k :: 0 <= k < |ds| ==>
        ds[k] == UnitIcon(Overlays(stacks, slots[..i], turn)[k], x, y + Dip(k, isDouble))
    {
      assert slots[i] == first + i;
      OverlaysSnoc(stacks, slots, turn, i);
      var overlay := SlotIcon(stacks[first + i], turn);
      if overlay.Some? {
        var dip := 4 * counter;
        counter := counter + 1;
        if isDouble {
          dip := dip * 2;
        }
        ds := ds + [UnitIcon(overlay.value, x, y + dip)];
      }
      i := i + 1;
    }
    assert slots[..i] == slots;
  }

  /**
   * drawUnit: choose the slots of a cell (nothing while the selected cell
   * blinks, the selected faction when it does not, three slots for a league
   * owner, one otherwise) and draw their icons.
   */
  method DrawUnit(planet: Planet, x: int, y: int, owner: int, a: int, b: int, view: UnitView)
    returns (ds: seq<Directive>)
    requires SlotsReadable(planet.spaceStacks, Slots(owner, a, b, view), view.turn)
    ensures ds == Icons(Overlays(planet.spaceStacks, Slots(owner, a, b, view), view.turn), x, y, view.isDouble)
  {
    var factions := 1;
    var lookup := owner;
    if view.selected.Some? && view.selected.value.x == a && view.selected.value.y == b {
      if view.blink {
        return [];
      } else {
        lookup := view.selectedFaction;
      }
    } else if owner >= view.league {
      factions := 3;
    }
    assert Slots(owner, a, b, view) == Consecutive(lookup, factions);
    ds := DrawSlots(planet.spaceStacks, lookup, factions, x, y, view.turn, view.isDouble);
  }

  /** The cell is on the grid and everything drawUnit reads for it is there: the parent planet, its stacks, the turn's flags. */
  predicate CellUnitsReadable(grid: seq<seq<Square>>, c: Cell, view: UnitView)
  {
    && InGrid(grid, c)
    && var square := grid[c.i][c.j];
       square.stackOwner > -1 ==>
         && square.parentPlanet.Some?
         && SlotsReadable(square.parentPlanet.value.spaceStacks, Slots(square.stackOwner, c.i, c.j, view), view.turn)
  }

  predicate UnitsReadable(grid: seq<seq<Square>>, cells: seq<Cell>, view: UnitView)
  {
    forall k :: 0 <= k < |cells| ==> CellUnitsReadable(grid, cells[k], view)
  }

  /** The icons drawUnit draws for one cell; nothing when the cell holds no stack. */
  function CellIcons(grid: seq<seq<Square>>, c: Cell, view: UnitView): seq<Directive>
    requires CellUnitsReadable(grid, c, view)
  {
    var square := grid[c.i][c.j];
    if square.stackOwner > -1 then
      Icons(Overlays(square.parentPlanet.value.spaceStacks, Slots(square.stackOwner, c.i, c.j, view), view.turn),
            c.x, c.y, view.isDouble)
    else []
  }

  /** What drawUnit draws at each cell of a walk. */
  function UnitCellParts(grid: seq<seq<Square>>, cells: seq<Cell>, view: UnitView): seq<seq<Directive>>
    requires UnitsReadable(grid, cells, view)
  {
    seq(|cells|, k requires 0 <= k < |cells| => CellIcons(grid, cells[k], view))
  }

  /** The icons of one cell sit at its x, at most Dip(2) below its y: the offset of the third icon. */
  lemma CellIconsBelowCell(grid: seq<seq<Square>>, c: Cell, view: UnitView)
    requires CellUnitsReadable(grid, c, view)
    ensures forall d :: d in CellIcons(grid, c, view) ==>
      d.UnitIcon? && d.x == c.x && c.y <= d.y <= c.y + Dip(2, view.isDouble)
  {
    var square := grid[c.i][c.j];
    if square.stackOwner > -1 {
      var stacks := square.parentPlanet.value.spaceStacks;
      var slots := Slots(square.stackOwner, c.i, c.j, view);
      OverlaysPerSlot(stacks, slots, view.turn);
      assert |slots| <= 3;
    }
  }

  /** Every unit icon of the layer sits at a window cell's x, at most Dip(2) below its y: the offset of the third icon. */
  lemma UnitCellsBelowCells(grid: seq<seq<Square>>, cells: seq<Cell>, view: UnitView)
    requires UnitsReadable(grid, cells, view)
    ensures forall d :: d in Layer(UnitCellParts(grid, cells, view), |cells|) ==>
      d.UnitIcon? && exists k :: 0 <= k < |cells| && d.x == cells[k].x && cells[k].y <= d.y <= cells[k].y + Dip(2, view.isDouble)
  {
    var parts := UnitCellParts(grid, cells, view);
    LayerMembers(parts, |cells|);
    forall d | d in Layer(parts, |cells|)
      ensures d.UnitIcon? && exists k :: 0 <= k < |cells| && d.x == cells[k].x && cells[k].y <= d.y <= cells[k].y + Dip(2, view.isDouble)
    {
      var k :| 0 <= k < |cells| && d in parts[k];
      CellIconsBelowCell(grid, cells[k], view);
    }
  }

  /** drawUnits: walk the window and draw the icons of every cell that holds a stack. */
  method DrawUnits(grid: seq<seq<Square>>, origin: Point, dx: int, dy: int, view: UnitView)
    returns (ds: seq<Directive>)
    requires UnitsReadable(grid, Window(origin, dx, dy), view)
    ensures var cells := Window(origin, dx, dy);
      ds == Layer(UnitCellParts(grid, cells, view), |cells|)
  {
    var cells := WalkWindow(origin, dx, dy);
    ghost var parts := UnitCellParts(grid, cells, view);
    ds := [];
    var k := 0;
    while k < |cells|
      invariant 0 <= k <= |cells|
      invariant ds == Layer(parts, k)
    {
      var c := cells[k];
      var square := grid[c.i][c.j];
      var owner := square.stackOwner;
      var icons := [];
      if owner > -1 {
        icons := DrawUnit(square.parentPlanet.value, c.x, c.y, owner, c.i, c.j, view);
      }
      assert icons == parts[k];
      ds := ds + icons;
      k := k + 1;
    }
  }
}
