/** ace_gfx_resize_rastport() as a value: the pixels first, the cell table after
    them, and what is left behind when only the second step fails. */
module Resizing {
  import opened Raster
  import opened Console
  import opened CellGrid

  const MAX_SIZE := 65535
  const GROW_SLACK := 128
  const HEADROOM_BYTES := 6 * 1024 * 1024
  const HEADROOM_MIN_ROWS := 256
  const HEADROOM_MAX_ROWS := 2048

  function HeadroomRows(width: nat): nat
    requires width > 0
  {
    Max(Min(HEADROOM_BYTES / (width * 4), HEADROOM_MAX_ROWS), HEADROOM_MIN_ROWS)
  }

  datatype Port = Port(screen: Screen, grid: Grid, allocWidth: nat, allocHeight: nat)

  /** The size asked for, the font's cell, the two pens and the background pixel. */
  datatype Ask = Ask(width: int, height: int, cellWidth: int, cellHeight: int, fg: int, bg: int, paper: Pixel)

  /** surface, memory: a new surface, a new cell table could be had. */
  datatype Host = Host(surface: bool, memory: bool)

  predicate GoodSize(a: Ask) { 0 < a.width <= MAX_SIZE && 0 < a.height <= MAX_SIZE }

  predicate SameSize(p: Port, a: Ask) { a.width == p.screen.width && a.height == p.screen.height }

  predicate HasRoom(p: Port, a: Ask) { a.width <= p.allocWidth && a.height <= p.allocHeight }

  predicate CellsHad(a: Ask, h: Host) { a.cellWidth > 0 && a.cellHeight > 0 && h.memory }

  /** The pixels of the new size, in the old allocation or a new one. */
  function Redrawn(p: Port, a: Ask): Port
    requires GoodSize(a)
  {
    var q := p.(screen := Resize(p.screen, a.width, a.height, a.paper));
    if HasRoom(p, a) then q
    else q.(allocWidth := a.width + GROW_SLACK, allocHeight := a.height + HeadroomRows(a.width + GROW_SLACK))
  }

  function Call(p: Port, a: Ask, h: Host): (r: (Port, bool)) {
    if !GoodSize(a) then (p, false)
    else if SameSize(p, a) then (p, true)
    else if !HasRoom(p, a) && !h.surface then (p, false)
    else
      var q := Redrawn(p, a);
      if !CellsHad(a, h) then (q, false)
      else (q.(grid := ResizeCells(p.grid, a.width, a.height, a.cellWidth, a.cellHeight, a.fg, a.bg)), true)
  }

  /** A call that fails leaves the console alone exactly when the size was bad or a
      surface was needed and not had; otherwise the console has its new size. */
  lemma FailsSilently(p: Port, a: Ask, h: Host)
    requires !Call(p, a, h).1
    ensures Call(p, a, h).0 == p <==> !GoodSize(a) || (!HasRoom(p, a) && !h.surface)
    ensures Call(p, a, h).0 != p ==> Call(p, a, h).0.screen == Resize(p.screen, a.width, a.height, a.paper)
    ensures Call(p, a, h).0 != p ==> Call(p, a, h).0.grid == p.grid && !CellsHad(a, h)
  {
    if GoodSize(a) && (HasRoom(p, a) || h.surface) {
      assert Redrawn(p, a).screen.width != p.screen.width || Redrawn(p, a).screen.height != p.screen.height;
    }
  }

  /** After such a failure every retry at that size reports success and does
      nothing: the cell table stays the old one. */
  lemma RetryDoesNothing(p: Port, a: Ask, h: Host, again: Ask, later: Host)
    requires !Call(p, a, h).1 && Call(p, a, h).0 != p && again.width == a.width && again.height == a.height
    ensures Call(Call(p, a, h).0, again, later) == (Call(p, a, h).0, true)
    ensures Call(Call(p, a, h).0, again, later).0.grid == p.grid
  {
    FailsSilently(p, a, h);
  }

  /** The cell table covers the console, with no column or row to spare. */
  predicate Covering(p: Port) {
    && p.grid.cellWidth > 0 && p.grid.cellHeight > 0
    && p.grid.columns == CellsAcross(p.screen.width, p.grid.cellWidth)
    && p.grid.rows == CellsAcross(p.screen.height, p.grid.cellHeight)
  }

  /** Exactly when a call keeps table and console together: it succeeded, or left
      the console alone, or the old table happens to have the new size. */
  lemma StaysCovering(p: Port, a: Ask, h: Host)
    requires Covering(p)
    ensures Covering(Call(p, a, h).0) <==>
              || Call(p, a, h).1 || !GoodSize(a) || (!HasRoom(p, a) && !h.surface)
              || (&& p.grid.columns == CellsAcross(a.width, p.grid.cellWidth)
                  && p.grid.rows == CellsAcross(a.height, p.grid.cellHeight))
  {
  }

  /** A console of 800 by 600 with cells of 8 by 8, widened to 900 without memory
      for the table: the call fails, the console is 900 wide with 100 columns, and
      the retry reports success with 100 columns where 113 are needed. */
  lemma TornResize(p: Port, later: Host)
    requires p.screen.width == 800 && p.screen.height == 600 && p.allocWidth == 928 && p.allocHeight == 2294
    requires p.grid.columns == 100 && p.grid.rows == 75 && p.grid.cellWidth == 8 && p.grid.cellHeight == 8
    ensures var a := Ask(900, 600, 8, 8, 1, 0, 0);
            var (q, ok) := Call(p, a, Host(true, false));
            && Covering(p) && !ok && q.screen.width == 900 && q.grid == p.grid && !Covering(q)
            && Call(q, a, later) == (q, true)
  {
    var a := Ask(900, 600, 8, 8, 1, 0, 0);
    RetryDoesNothing(p, a, Host(true, false), a, later);
    assert CellsAcross(900, 8) == 113 && CellsAcross(800, 8) == 100 && CellsAcross(600, 8) == 75;
  }
}
