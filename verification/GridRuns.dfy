/** Over every run the text grid says what the window shows; what that takes of an
    operation, and operations that do not meet it. */
module GridRuns {
  import opened Bytes
  import opened Raster
  import opened Console
  import opened CellGrid
  import opened TextInk
  import opened Resizing
  import opened GridOps
  import opened GridTruth

  // ------------------------------------------------------------------
  // Steps and runs
  // ------------------------------------------------------------------

  lemma WriteExact(t: Terminal, k: Face, op: Action)
    requires Inv(t, k) && op.Write? && Touches(t, op)
    ensures Inv(Perform(t, k, op), k) <==> Agrees(t, k, op)
  {
    var s, g := t.port.screen, t.port.grid;
    if Fitting(s, g, op.run) > 0 {
      WriteTrue(t, k, op.run, op.baseline);
    } else {
      assert 0 * g.cellWidth == 0;
    }
    if OnCells(g, op.run) && op.run.opaqueBg { ApartIff(s, g, k, op.run, Fitting(s, g, op.run), t.cursor); }
  }

  lemma FillExact(t: Terminal, k: Face, op: Action)
    requires Inv(t, k) && op.Fill? && Touches(t, op) && BlanksAreClear(k)
    ensures Inv(Perform(t, k, op), k) <==> Agrees(t, k, op)
  {
    if !Empty(Clip(t.port.screen.width, t.port.screen.height, op.box)) { FillTrue(t, k, op.box, op.pen, op.style); }
  }

  lemma ComplementExact(t: Terminal, k: Face, op: Action)
    requires Inv(t, k) && op.Complement? && Touches(t, op)
    ensures Inv(Perform(t, k, op), k) <==> Agrees(t, k, op)
  {
    var c := Clip(t.port.screen.width, t.port.screen.height, op.inverted);
    if OneCell(t.port.grid, c) {
      CursorTrue(t, k, op.inverted);
    } else if !Empty(c) {
      ComplementTrue(t, k, op.inverted);
    }
  }

  lemma ScrollExact(t: Terminal, k: Face, op: Action)
    requires Inv(t, k) && op.ScrollBox? && Touches(t, op) && BlanksAreClear(k)
    ensures Inv(Perform(t, k, op), k) <==> Agrees(t, k, op)
  {
    var c := Clip(t.port.screen.width, t.port.screen.height, op.scrolled);
    if !(op.dx == 0 && op.dy == 0) && !Empty(c) {
      if Followed(t.port.grid, c, op.dx, op.dy, op.memory) {
        ScrollTrue(t, k, op.dx, op.dy, op.scrolled, op.fillPen, op.fillStyle, op.memory);
      } else {
        UnfollowedTrue(t, k, op.dx, op.dy, op.scrolled, op.fillPen, op.fillStyle, op.memory);
      }
    }
  }

  lemma ResizeExact(t: Terminal, k: Face, op: Action)
    requires Inv(t, k) && op.ResizeTo? && Touches(t, op) && SameFont(t.port, k, op)
    ensures Inv(Perform(t, k, op), k) <==> Agrees(t, k, op)
  {
    ResizeTrue(t.port, op.ask, op.host, k, t.cursor);
  }

  lemma DeferInv(t: Terminal, k: Face, op: Action)
    requires Inv(t, k) && op.SetDeferred?
    ensures Inv(Perform(t, k, op), k)
  {
    var s, u := t.port.screen, Perform(t, k, op);
    if !u.stale {
      forall x, y | Visible(u.port.screen, x, y) ensures True(u.port.screen, Said(u), k, x, y) {
        assert True(s, Said(t), k, x, y);
      }
    }
  }

  lemma RenderInv(t: Terminal, k: Face, op: Action)
    requires Inv(t, k) && op.RenderGrid?
    ensures Inv(Perform(t, k, op), k)
  {
    RenderTrue(t.port.screen, Said(t), k, k.pen(op.bgPen));
    assert Said(Perform(t, k, op)) == Said(t);
  }

  /** While it is stale, or becomes so, nothing is claimed of the grid. */
  lemma StaleInv(t: Terminal, k: Face, op: Action)
    requires Inv(t, k) && !Touches(t, op) && !op.RenderGrid? && !op.SetDeferred? && SameFont(t.port, k, op)
    ensures Inv(Perform(t, k, op), k)
  {
  }

  /** In every truthful state, for every operation in the same font: the grid is
      truthful afterwards exactly when the operation agrees with it. */
  lemma StepExact(t: Terminal, k: Face, op: Action)
    requires Inv(t, k) && SameFont(t.port, k, op) && BlanksAreClear(k)
    ensures Inv(Perform(t, k, op), k) <==> Enabled(t, k, op)
  {
    if op.RenderGrid? {
      RenderInv(t, k, op);
    } else if op.SetDeferred? {
      DeferInv(t, k, op);
    } else if !Touches(t, op) {
      StaleInv(t, k, op);
    } else {
      match op {
        case Write(_, _) => WriteExact(t, k, op);
        case Fill(_, _, _) => FillExact(t, k, op);
        case Complement(_) => ComplementExact(t, k, op);
        case ScrollBox(_, _, _, _, _, _) => ScrollExact(t, k, op);
        case ResizeTo(_, _) => ResizeExact(t, k, op);
      }
    }
  }

  /** Operations that can follow one another. */
  ghost predicate Possible(t: Terminal, k: Face, ops: seq<Action>)
    requires Inv(t, k) && BlanksAreClear(k)
    decreases ops, 0
  {
    ops == [] || (Possible(t, k, ops[..|ops| - 1]) && Enabled(After(t, k, ops[..|ops| - 1]), k, ops[|ops| - 1]))
  }

  /** Over every run the grid tells the truth: unless it is stale, each visible
      pixel of a valid cell is the one the cell's glyph puts there. */
  ghost function After(t: Terminal, k: Face, ops: seq<Action>): (r: Terminal)
    requires Inv(t, k) && BlanksAreClear(k) && Possible(t, k, ops)
    ensures Inv(r, k)
    decreases ops, 1
  {
    if ops == [] then t
    else
      var u, op := After(t, k, ops[..|ops| - 1]), ops[|ops| - 1];
      StepExact(u, k, op);
      Perform(u, k, op)
  }

  /** A new console: blank cells in the background pen, no cursor. */
  function Fresh(width: nat, height: nat, cellWidth: int, cellHeight: int, fg: int, bg: int, k: Face): Terminal
    requires width > 0 && height > 0 && cellWidth > 0 && cellHeight > 0
  {
    Terminal(Port(Screen(width, height, Plain(k.pen(bg)), DamagedAll(width, height), false),
                  Grid(CellsAcross(width, cellWidth), CellsAcross(height, cellHeight), cellWidth, cellHeight,
                       (c, r) => Blank(bg, fg, FS_NORMAL)),
                  width + GROW_SLACK, height + HeadroomRows(width + GROW_SLACK)),
             None, false)
  }

  lemma FreshInv(width: nat, height: nat, cellWidth: int, cellHeight: int, fg: int, bg: int, k: Face)
    requires width > 0 && height > 0 && cellWidth > 0 && cellHeight > 0 && BlanksAreClear(k)
    ensures Inv(Fresh(width, height, cellWidth, cellHeight, fg, bg, k), k)
  {
    var t := Fresh(width, height, cellWidth, cellHeight, fg, bg, k);
    forall x, y | Visible(t.port.screen, x, y) ensures True(t.port.screen, Said(t), k, x, y) {
      assert t.port.screen.look(x, y) == k.pen(bg);
      BlankShows(k, bg, fg, FS_NORMAL, x % cellWidth, y % cellHeight);
    }
  }

  /** Where every cell is valid the window shows exactly what rendering the grid
      would: over every run, the screen can be drawn afresh from the grid. */
  lemma WindowShowsGrid(t: Terminal, k: Face, ops: seq<Action>, bg: Pixel, x: int, y: int)
    requires Inv(t, k) && BlanksAreClear(k) && Possible(t, k, ops)
    requires !After(t, k, ops).stale && Visible(After(t, k, ops).port.screen, x, y)
    requires Known(After(t, k, ops).port.grid, x, y)
    ensures After(t, k, ops).port.screen.look(x, y) == Rendered(Said(After(t, k, ops)), k, bg)(x, y)
  {
    var u := After(t, k, ops);
    assert True(u.port.screen, Said(u), k, x, y);
  }

  // ------------------------------------------------------------------
  // What it takes to agree
  // ------------------------------------------------------------------

  /** One character with its own background on a whole cell always agrees. */
  lemma OneCharacterAgrees(t: Terminal, k: Face, run: Run, baseline: int)
    requires HasCells(t.port) && OnCells(t.port.grid, run) && run.opaqueBg && |run.text| <= 1
    ensures Enabled(t, k, Write(run, baseline))
  {
    var s, g := t.port.screen, t.port.grid;
    var n := Fitting(s, g, run);
    forall m: int, i: int, j: int | 0 <= m < n && Place(g.cellWidth, g.cellHeight, i, j) && InSight(s, g, run, m, i, j)
      ensures Clean(k, g.cellWidth, run, n, m, i, j)
    {
      OneIsClean(k, g.cellWidth, run, i, j);
    }
  }

  /** So does any text with its own background on whole cells, in a font whose
      characters keep to their cells. */
  lemma TextAgrees(t: Terminal, k: Face, run: Run, baseline: int)
    requires HasCells(t.port) && OnCells(t.port.grid, run) && run.opaqueBg
    requires KeepsIn(k, t.port.grid.cellWidth, t.port.grid.cellHeight, run.style, run.fg, run.bg)
    ensures Enabled(t, k, Write(run, baseline))
  {
    var s, g := t.port.screen, t.port.grid;
    var n := Fitting(s, g, run);
    forall m: int, i: int, j: int | 0 <= m < n && Place(g.cellWidth, g.cellHeight, i, j) && InSight(s, g, run, m, i, j)
      ensures Clean(k, g.cellWidth, run, n, m, i, j)
    {
      PaintedAfter(k, g.cellWidth, g.cellHeight, run, n, m, i, j);
    }
  }

  /** Fills and scrolls agree while no cursor is drawn and nothing is underlined. */
  lemma PlainAgrees(t: Terminal, k: Face, op: Action)
    requires HasCells(t.port) && t.cursor.None?
    requires (op.Fill? && !Underlined(op.style)) || (op.ScrollBox? && !Underlined(op.fillStyle))
    ensures Enabled(t, k, op)
  {
  }

  /** The cursor can be drawn on any valid cell while it is drawn nowhere. */
  lemma CursorAgrees(t: Terminal, k: Face, b: Box)
    requires Inv(t, k) && BlanksAreClear(k) && t.cursor.None? && Clip(t.port.screen.width, t.port.screen.height, b) == b
    requires OneCell(t.port.grid, b)
    ensures Enabled(t, k, Complement(b)) && Inv(Perform(t, k, Complement(b)), k)
    ensures var u := Perform(t, k, Complement(b));
            && u.cursor == Some((b.x0 / t.port.grid.cellWidth, b.y0 / t.port.grid.cellHeight))
            && u.port == t.port.(screen := u.port.screen) && (u.stale <==> t.stale || t.port.screen.deferred)
            && u.port.screen == t.port.screen.(look := u.port.screen.look, damage := u.port.screen.damage)
  {
    StepExact(t, k, Complement(b));
  }

  /** Drawn twice on a cell, the cursor is off again and every pixel what it was. */
  lemma CursorUndone(t: Terminal, k: Face, b: Box, x: int, y: int)
    requires Inv(t, k) && !t.stale && t.cursor.None? && !t.port.screen.deferred
    requires Clip(t.port.screen.width, t.port.screen.height, b) == b && OneCell(t.port.grid, b)
    requires Visible(t.port.screen, x, y)
    ensures var u := Perform(Perform(t, k, Complement(b)), k, Complement(b));
            && u.cursor.None? && u.port.grid == t.port.grid && !u.stale
            && u.port.screen.look(x, y) == t.port.screen.look(x, y)
  {
    var g, s := t.port.grid, t.port.screen;
    var u := Perform(t, k, Complement(b));
    var c, r := b.x0 / g.cellWidth, b.y0 / g.cellHeight;
    OneCellBox(g, b, x, y);
    DrawnLook(s, b, CellInk(Displayed(g, u.cursor), k, c, r), x, y);
    DrawnLook(u.port.screen, b, CellInk(Displayed(g, None), k, c, r), x, y);
    DisplayedAt(g, None, c, r);
    assert True(s, Said(t), k, x, y);
    assert CellInk(Displayed(g, None), k, c, r)(x, y) == Glyph(k, g.at(c, r), x % g.cellWidth, y % g.cellHeight);
  }

  /** A resize agrees if the grid reaches every edge of the console, no cell is cut
      off at an edge the size grows past, and the cursor is in the grid. */
  lemma WholeCellsAgree(p: Port, a: Ask, h: Host, k: Face, cursor: Option<(int, int)>)
    requires HasCells(p) && BlanksAreClear(k) && a.paper == k.pen(a.bg)
    requires cursor.Some? ==> Covers(p.grid, cursor.value.0, cursor.value.1)
    requires p.screen.width <= p.grid.columns * p.grid.cellWidth && p.screen.height <= p.grid.rows * p.grid.cellHeight
    requires a.width <= p.screen.width || p.grid.columns * p.grid.cellWidth <= p.screen.width
    requires a.height <= p.screen.height || p.grid.rows * p.grid.cellHeight <= p.screen.height
    ensures ResizeAgrees(p, a, h, k, cursor)
  {
    var g := p.grid;
    forall x, y | 0 <= x < a.width && 0 <= y < a.height ensures ResizeAgreesAt(p, a, h, k, cursor, x, y) {
      if x >= p.screen.width {
        PastEdge(x, g.columns, g.cellWidth, p.screen.width);
      } else if y >= p.screen.height {
        PastEdge(y, g.rows, g.cellHeight, p.screen.height);
      } else {
        BeforeEdge(x, g.columns, g.cellWidth, p.screen.width);
        BeforeEdge(y, g.rows, g.cellHeight, p.screen.height);
      }
      BlankShows(k, a.bg, a.fg, FS_NORMAL, x % g.cellWidth, y % g.cellHeight);
    }
  }

  // ------------------------------------------------------------------
  // Operations that do not agree
  // ------------------------------------------------------------------

  /** Two cells, and a character whose ink reaches the corner of the next one,
      which is recorded as a blank. */
  lemma OverhangLies(k: Face, a: int)
    requires BlanksAreClear(k) && k.over(Mark(a, FS_NORMAL, 1), 8, 0, k.pen(0)) != k.pen(0)
    ensures var t := Fresh(16, 8, 8, 8, 1, 0, k);
            var op := Write(Run(0, 0, [a, SPACE], true, FS_NORMAL, 1, 0), 6);
            Inv(t, k) && !Inv(Perform(t, k, op), k)
  {
    var t, run := Fresh(16, 8, 8, 8, 1, 0, k), Run(0, 0, [a, SPACE], true, FS_NORMAL, 1, 0);
    FreshInv(16, 8, 8, 8, 1, 0, k);
    assert CellsAcross(16, 8) == 2 && CellsAcross(8, 8) == 1 && Fitting(t.port.screen, t.port.grid, run) == 2;
    PaintedSpaces(k, 8, run, 2, 1 * 8 + 0, 0, k.pen(0));
    assert MarkAt(run, 0) == Mark(a, FS_NORMAL, 1) && MarkAt(run, 1) == Mark(SPACE, FS_NORMAL, 1);
    assert InSight(t.port.screen, t.port.grid, run, 1, 0, 0) && !Clean(k, 8, run, 2, 1, 0, 0);
    StepExact(t, k, Write(run, 6));
  }

  /** A console of 12 pixels has a second cell of 8 cut off at 4; widened to 16 on
      another background, that cell still says the old one while half of it shows
      the new. */
  lemma CutOffCellLies(k: Face)
    requires BlanksAreClear(k) && k.pen(0) != k.pen(1)
    ensures var t := Fresh(12, 8, 8, 8, 1, 0, k);
            Inv(t, k) && !Inv(Perform(t, k, ResizeTo(Ask(16, 8, 8, 8, 0, 1, k.pen(1)), Host(true, true))), k)
  {
    var t, a := Fresh(12, 8, 8, 8, 1, 0, k), Ask(16, 8, 8, 8, 0, 1, k.pen(1));
    FreshInv(12, 8, 8, 8, 1, 0, k);
    assert CellsAcross(12, 8) == 2 && CellsAcross(8, 8) == 1;
    BlankShows(k, 0, 1, FS_NORMAL, 4, 0);
    assert !ResizeAgreesAt(t.port, a, Host(true, true), k, None, 12, 0);
    StepExact(t, k, ResizeTo(a, Host(true, true)));
  }

  /** A console of one cell is widened to two without memory for the table, a
      character is written in the second, and the console is widened to three: each
      step but the last agrees, and the new table calls the second cell a blank. */
  lemma TornCellLies(k: Face, a: int)
    requires BlanksAreClear(k) && k.over(Mark(a, FS_NORMAL, 1), 0, 0, k.pen(0)) != k.pen(0)
    ensures var ops := [ResizeTo(Ask(16, 8, 8, 8, 1, 0, k.pen(0)), Host(true, false)),
                        Write(Run(8, 0, [a], true, FS_NORMAL, 1, 0), 6)];
            var t := Fresh(8, 8, 8, 8, 1, 0, k);
            var u := Perform(Perform(t, k, ops[0]), k, ops[1]);
            && Inv(t, k) && Enabled(t, k, ops[0]) && Enabled(Perform(t, k, ops[0]), k, ops[1]) && Inv(u, k) && !u.stale
            && !Inv(Perform(u, k, ResizeTo(Ask(24, 8, 8, 8, 1, 0, k.pen(0)), Host(true, true))), k)
  {
    var t, first := Fresh(8, 8, 8, 8, 1, 0, k), ResizeTo(Ask(16, 8, 8, 8, 1, 0, k.pen(0)), Host(true, false));
    FreshInv(8, 8, 8, 8, 1, 0, k);
    assert CellsAcross(8, 8) == 1;
    WholeCellsAgree(t.port, first.ask, first.host, k, None);
    StepExact(t, k, first);
    TornWrite(Perform(t, k, first), k, a);
  }

  lemma TornWrite(t: Terminal, k: Face, a: int)
    requires BlanksAreClear(k) && k.over(Mark(a, FS_NORMAL, 1), 0, 0, k.pen(0)) != k.pen(0)
    requires Inv(t, k) && !t.stale && t.cursor.None? && !t.port.screen.deferred
    requires t.port.screen.width == 16 && t.port.screen.height == 8
    requires t.port.grid.columns == 1 && t.port.grid.rows == 1
    requires t.port.grid.cellWidth == 8 && t.port.grid.cellHeight == 8
    ensures var op := Write(Run(8, 0, [a], true, FS_NORMAL, 1, 0), 6);
            var u := Perform(t, k, op);
            && Enabled(t, k, op) && Inv(u, k) && !u.stale
            && !Inv(Perform(u, k, ResizeTo(Ask(24, 8, 8, 8, 1, 0, k.pen(0)), Host(true, true))), k)
  {
    var run, b := Run(8, 0, [a], true, FS_NORMAL, 1, 0), Ask(24, 8, 8, 8, 1, 0, k.pen(0));
    var u := Perform(t, k, Write(run, 6));
    OneCharacterAgrees(t, k, run, 6);
    StepExact(t, k, Write(run, 6));
    var ink := RunInk(k, 8, run, 1, t.port.screen.look);
    assert Fitting(t.port.screen, t.port.grid, run) == 1;
    TextLook(t.port.screen, t.port.grid, run, 6, ink, 8, 0);
    OneIsClean(k, 8, run, 0, 0);
    assert ink(8, 0) == Together(k, 8, run, 1, 0, 0, 0) && MarkAt(run, 0) == Mark(a, FS_NORMAL, 1);
    assert u.port.screen.look(8, 0) == ink(8, 0);
    BlankShows(k, 0, 1, FS_NORMAL, 0, 0);
    assert !ResizeAgreesAt(u.port, b, Host(true, true), k, None, 8, 0);
    StepExact(u, k, ResizeTo(b, Host(true, true)));
  }

  /** A character between two cells is recorded in neither. */
  lemma UnalignedTextLies(k: Face, a: int)
    requires BlanksAreClear(k) && k.over(Mark(a, FS_NORMAL, 1), 0, 0, k.pen(0)) != k.pen(0)
    ensures var t := Fresh(16, 8, 8, 8, 1, 0, k);
            Inv(t, k) && !Inv(Perform(t, k, Write(Run(4, 0, [a], true, FS_NORMAL, 1, 0), 6)), k)
  {
    var t, run := Fresh(16, 8, 8, 8, 1, 0, k), Run(4, 0, [a], true, FS_NORMAL, 1, 0);
    var ink := RunInk(k, 8, run, 1, t.port.screen.look);
    FreshInv(16, 8, 8, 8, 1, 0, k);
    OneIsClean(k, 8, run, 0, 0);
    BlankShows(k, 0, 1, FS_NORMAL, 4, 0);
    assert CellsAcross(16, 8) == 2 && CellsAcross(8, 8) == 1 && Fitting(t.port.screen, t.port.grid, run) == 1;
    assert ink(4, 0) == Together(k, 8, run, 1, 0, 0, 0) && MarkAt(run, 0) == Mark(a, FS_NORMAL, 1);
    assert !Draws(Said(t), k, ink, 4, 0);
    StepExact(t, k, Write(run, 6));
  }

  /** The cursor is drawn on the first of two rows and the second row is scrolled:
      the grid forgets the cursor, and the first row still shows it. */
  lemma ScrolledCursorLies(k: Face)
    requires BlanksAreClear(k) && k.pen(0) != k.pen(7)
    ensures var t := Fresh(8, 16, 8, 8, 1, 0, k);
            var u := Perform(t, k, Complement(Box(0, 0, 7, 7)));
            && Inv(t, k) && Enabled(t, k, Complement(Box(0, 0, 7, 7))) && Inv(u, k)
            && !Inv(Perform(u, k, ScrollBox(0, 8, Box(0, 8, 7, 15), 0, FS_NORMAL, true)), k)
  {
    var t, b := Fresh(8, 16, 8, 8, 1, 0, k), Box(0, 0, 7, 7);
    FreshInv(8, 16, 8, 8, 1, 0, k);
    assert CellsAcross(8, 8) == 1 && CellsAcross(16, 8) == 2;
    assert Clip(8, 16, b) == b && OneCell(t.port.grid, b);
    CursorAgrees(t, k, b);
    ScrollUnder(Perform(t, k, Complement(b)), k);
  }

  lemma ScrollUnder(t: Terminal, k: Face)
    requires BlanksAreClear(k) && k.pen(0) != k.pen(7) && Inv(t, k) && !t.stale && t.cursor == Some((0, 0))
    requires t.port.screen.width == 8 && t.port.screen.height == 16 && !t.port.screen.deferred
    requires t.port.grid.columns == 1 && t.port.grid.rows == 2
    requires t.port.grid.cellWidth == 8 && t.port.grid.cellHeight == 8
    requires t.port.grid.at(0, 0) == Blank(0, 1, FS_NORMAL)
    ensures !Inv(Perform(t, k, ScrollBox(0, 8, Box(0, 8, 7, 15), 0, FS_NORMAL, true)), k)
  {
    var b := Box(0, 8, 7, 15);
    BlankShows(k, 0, 1, FS_NORMAL, 0, 0);
    BlankShows(k, 7, Flip(1), FS_NORMAL, 0, 0);
    DisplayedAt(t.port.grid, t.cursor, 0, 0);
    assert Flipped(Blank(0, 1, FS_NORMAL)) == Blank(7, Flip(1), FS_NORMAL);
    assert !Unflipped(t.port.grid, k, t.cursor, 0, 0);
    assert Clip(8, 16, b) == b && Followed(t.port.grid, b, 0, 8, true);
    assert !ScrollAgreesAt(t.port.grid, k, b, 0, 8, 0, FS_NORMAL, t.cursor, 0, 0);
    StepExact(t, k, ScrollBox(0, 8, b, 0, FS_NORMAL, true));
  }
}
