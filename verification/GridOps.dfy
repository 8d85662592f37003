/** The console with its text grid: what writes, fills, the cursor, scrolls, resizes
    and renders do to both, and when each leaves the grid truthful. */
module GridOps {
  import opened Bytes
  import opened Raster
  import opened Console
  import opened CellGrid
  import opened TextInk
  import opened Resizing

  /** cursor: the cell drawn with both pens flipped.  stale: the grid has changed
      while rendering was deferred, and has not been rendered since. */
  datatype Terminal = Terminal(port: Port, cursor: Option<(int, int)>, stale: bool)

  const PEN_COUNT := 8

  /** A pen with its bits under the pen mask inverted. */
  function Flip(pen: int): int { pen - pen % PEN_COUNT + (PEN_COUNT - 1 - pen % PEN_COUNT) }

  function Flipped(cell: Cell): Cell { cell.(fg := Flip(cell.fg), bg := Flip(cell.bg)) }

  /** The cells as they are drawn, the cursor's with its pens flipped. */
  function Displayed(g: Grid, cursor: Option<(int, int)>): Grid {
    g.(at := (c, r) => if cursor == Some((c, r)) then Flipped(g.at(c, r)) else g.at(c, r))
  }

  function Said(t: Terminal): Grid { Displayed(t.port.grid, t.cursor) }

  // ------------------------------------------------------------------
  // Operations
  // ------------------------------------------------------------------

  /** Text starts on a cell's corner: only then is it recorded. */
  predicate OnCells(g: Grid, t: Run)
    requires g.cellWidth > 0 && g.cellHeight > 0
  {
    t.x % g.cellWidth == 0 && t.top % g.cellHeight == 0
  }

  /** cell_record(): without a background of its own, a character keeps the cell's. */
  function RunCell(was: Cell, t: Run, m: int): Cell {
    Cell(MarkAt(t, m).character, t.style, t.opaqueBg, true, t.fg, if !t.opaqueBg && was.valid then was.bg else t.bg)
  }

  /** The pixels of the first n characters, and their cells. */
  function RunBounds(g: Grid, t: Run, n: nat): Box {
    Box(t.x, t.top, t.x + n * g.cellWidth - 1, t.top + g.cellHeight - 1)
  }

  function RunCells(g: Grid, t: Run, n: nat): Box
    requires g.cellWidth > 0 && g.cellHeight > 0
  {
    Box(t.x / g.cellWidth, t.top / g.cellHeight, t.x / g.cellWidth + n - 1, t.top / g.cellHeight)
  }

  function WriteCells(g: Grid, t: Run, n: nat): Grid
    requires g.cellWidth > 0 && g.cellHeight > 0
  {
    if !OnCells(g, t) then g
    else
      var cells := RunCells(g, t, n);
      g.(at := (c, r) => if In(cells, c, r) then RunCell(g.at(c, r), t, c - cells.x0) else g.at(c, r))
  }

  /** The cursor, unless its cell is among these. */
  function Off(cursor: Option<(int, int)>, cells: Box): Option<(int, int)> {
    if cursor.Some? && In(cells, cursor.value.0, cursor.value.1) then None else cursor
  }

  function WriteCursor(g: Grid, t: Run, n: nat, cursor: Option<(int, int)>): Option<(int, int)>
    requires g.cellWidth > 0 && g.cellHeight > 0
  {
    if OnCells(g, t) && cursor.Some? && Covers(g, cursor.value.0, cursor.value.1) then Off(cursor, RunCells(g, t, n))
    else cursor
  }

  /** How many characters fit to the right of the start. */
  function Fitting(s: Screen, g: Grid, t: Run): nat
    requires g.cellWidth > 0
  {
    if t.x >= s.width then 0 else Min(|t.text|, (s.width - t.x) / g.cellWidth)
  }

  /** cell_invalidate_box(). */
  function Invalidate(g: Grid, b: Box): Grid
    requires g.cellWidth > 0 && g.cellHeight > 0
  {
    var touched := Touched(g, b);
    g.(at := (c, r) => if In(touched, c, r) then g.at(c, r).(valid := false) else g.at(c, r))
  }

  /** The box is exactly one valid cell of the grid. */
  predicate OneCell(g: Grid, b: Box)
    requires g.cellWidth > 0 && g.cellHeight > 0
  {
    && b.x1 - b.x0 + 1 == g.cellWidth && b.y1 - b.y0 + 1 == g.cellHeight
    && b.x0 % g.cellWidth == 0 && b.y0 % g.cellHeight == 0
    && Covers(g, b.x0 / g.cellWidth, b.y0 / g.cellHeight) && g.at(b.x0 / g.cellWidth, b.y0 / g.cellHeight).valid
  }

  datatype Action =
    | Write(run: Run, baseline: int)
    | Fill(box: Box, pen: int, style: int)
    | Complement(inverted: Box)
    | ScrollBox(dx: int, dy: int, scrolled: Box, fillPen: int, fillStyle: int, memory: bool)
    | ResizeTo(ask: Ask, host: Host)
    | RenderGrid(bgPen: int)
    | SetDeferred(deferred: bool)

  predicate HasCells(p: Port) { p.grid.cellWidth > 0 && p.grid.cellHeight > 0 }

  /** Grid, cursor and pixels changed together, or the pixels not while deferred. */
  function Changed(t: Terminal, grid: Grid, cursor: Option<(int, int)>, screen: Screen): Terminal {
    Terminal(t.port.(grid := grid, screen := screen), cursor, t.stale || t.port.screen.deferred)
  }

  function Written(t: Terminal, k: Face, run: Run, baseline: int): Terminal
    requires HasCells(t.port)
  {
    var s, g := t.port.screen, t.port.grid;
    var n := Fitting(s, g, run);
    if n == 0 then t
    else
      Changed(t, WriteCells(g, run, n), WriteCursor(g, run, n, t.cursor),
              DrawText(s, run.x, run.top + baseline, baseline, g.cellWidth, g.cellHeight, |run.text|,
                       RunInk(k, g.cellWidth, run, n, s.look)))
  }

  function Filling(t: Terminal, k: Face, b: Box, pen: int, style: int): Terminal
    requires HasCells(t.port)
  {
    var s, g := t.port.screen, t.port.grid;
    var c := Clip(s.width, s.height, b);
    if Empty(c) then t
    else Changed(t, FillCells(g, c, pen, style), Off(t.cursor, Touched(g, c)), Draw(s, b, Plain(k.pen(pen))))
  }

  /** The cursor drawn on a cell, or taken off it; any other box is complemented
      pixel by pixel, the grid none the wiser. */
  function Complemented(t: Terminal, k: Face, b: Box): Terminal
    requires HasCells(t.port)
  {
    var s, g := t.port.screen, t.port.grid;
    var c := Clip(s.width, s.height, b);
    if Empty(c) then t
    else if OneCell(g, c) then
      var at := (c.x0 / g.cellWidth, c.y0 / g.cellHeight);
      var cursor := if t.cursor == Some(at) then None else Some(at);
      Changed(t, g, cursor, Draw(s, b, CellInk(Displayed(g, cursor), k, at.0, at.1)))
    else
      Changed(t, if s.deferred then Invalidate(g, c) else g,
              if s.deferred then Off(t.cursor, Touched(g, c)) else t.cursor,
              Draw(s, b, (x: int, y: int) => k.complement(s.look(x, y))))
  }

  /** update_cells_after_scroll() follows the scroll, or gives the cells up. */
  predicate Followed(g: Grid, b: Box, dx: int, dy: int, memory: bool) { memory && Scrollable(g, b, dx, dy) }

  ghost function Scrolling(t: Terminal, k: Face, dx: int, dy: int, b: Box, pen: int, style: int, memory: bool): Terminal
    requires HasCells(t.port)
  {
    var s, g := t.port.screen, t.port.grid;
    var c := Clip(s.width, s.height, b);
    if (dx == 0 && dy == 0) || Empty(c) then t
    else if Followed(g, c, dx, dy, memory) then
      Changed(t, ScrollCells(g, c, dx, dy, pen, style), None, Scroll(s, dx, dy, b, k.pen(pen)))
    else
      Changed(t, Invalidate(g, c), Off(t.cursor, Touched(g, c)), Scroll(s, dx, dy, b, k.pen(pen)))
  }

  ghost function Perform(t: Terminal, k: Face, op: Action): Terminal
    requires HasCells(t.port)
  {
    match op
    case Write(run, baseline) => Written(t, k, run, baseline)
    case Fill(b, pen, style) => Filling(t, k, b, pen, style)
    case Complement(b) => Complemented(t, k, b)
    case ScrollBox(dx, dy, b, pen, style, memory) => Scrolling(t, k, dx, dy, b, pen, style, memory)
    case ResizeTo(a, h) => t.(port := Call(t.port, a, h).0)
    case RenderGrid(bg) =>
      var ink := DrawRows(Plain(k.pen(bg)), Said(t), k, t.port.grid.rows);
      t.(port := t.port.(screen := Render(t.port.screen, ink)), stale := false)
    case SetDeferred(d) => t.(port := t.port.(screen := t.port.screen.(deferred := d)))
  }

  // ------------------------------------------------------------------
  // The truth of the grid
  // ------------------------------------------------------------------

  /** What a valid cell of the grid shows at x, y. */
  function Shows(g: Grid, k: Face, x: int, y: int): Pixel
    requires g.cellWidth > 0 && g.cellHeight > 0
  {
    Glyph(k, g.at(x / g.cellWidth, y / g.cellHeight), x % g.cellWidth, y % g.cellHeight)
  }

  /** x, y lies in a valid cell. */
  predicate Known(g: Grid, x: int, y: int)
    requires g.cellWidth > 0 && g.cellHeight > 0
  {
    Covers(g, x / g.cellWidth, y / g.cellHeight) && g.at(x / g.cellWidth, y / g.cellHeight).valid
  }

  /** If the cell that x, y lies in is valid, the pixel is the one its glyph puts there. */
  ghost predicate True(s: Screen, g: Grid, k: Face, x: int, y: int)
    requires g.cellWidth > 0 && g.cellHeight > 0
  {
    Known(g, x, y) ==> s.look(x, y) == Shows(g, k, x, y)
  }

  ghost predicate Truthful(s: Screen, g: Grid, k: Face)
    requires g.cellWidth > 0 && g.cellHeight > 0
  {
    forall x, y :: Visible(s, x, y) ==> True(s, g, k, x, y)
  }

  ghost predicate Inv(t: Terminal, k: Face) {
    HasCells(t.port) && (!t.stale ==> Truthful(t.port.screen, Said(t), k))
  }

  // ------------------------------------------------------------------
  // When an operation keeps it
  // ------------------------------------------------------------------

  /** Place i, j of the run's cell m is on the screen, and the cell in the grid. */
  predicate InSight(s: Screen, g: Grid, t: Run, m: int, i: int, j: int)
    requires g.cellWidth > 0 && g.cellHeight > 0
  {
    Visible(s, t.x + m * g.cellWidth + i, t.top + j) && Covers(g, t.x / g.cellWidth + m, t.top / g.cellHeight)
  }

  /** Text with its own background on whole cells: no character of the run changes
      what another shows on a visible pixel of the grid.  The font, the characters
      and how many of them there is room for decide it. */
  ghost predicate Apart(s: Screen, g: Grid, k: Face, t: Run, n: nat)
    requires g.cellWidth > 0 && g.cellHeight > 0
  {
    forall m: int, i: int, j: int ::
      0 <= m < n && Place(g.cellWidth, g.cellHeight, i, j) && InSight(s, g, t, m, i, j) ==>
        Clean(k, g.cellWidth, t, n, m, i, j)
  }

  /** Other text: wherever it is drawn, the cell there says so. */
  ghost predicate Overdraws(s: Screen, g: Grid, k: Face, t: Run, n: nat, cursor: Option<(int, int)>)
    requires g.cellWidth > 0 && g.cellHeight > 0
  {
    var d := Displayed(WriteCells(g, t, n), WriteCursor(g, t, n, cursor));
    forall x, y :: Visible(s, x, y) && In(RunBounds(g, t, n), x, y) ==>
      Draws(d, k, RunInk(k, g.cellWidth, t, n, s.look), x, y)
  }

  ghost predicate Draws(g: Grid, k: Face, ink: Picture, x: int, y: int)
    requires g.cellWidth > 0 && g.cellHeight > 0
  {
    Known(g, x, y) ==> ink(x, y) == Shows(g, k, x, y)
  }

  ghost predicate WriteAgrees(s: Screen, g: Grid, k: Face, t: Run, cursor: Option<(int, int)>)
    requires g.cellWidth > 0 && g.cellHeight > 0
  {
    var n := Fitting(s, g, t);
    if OnCells(g, t) && t.opaqueBg then Apart(s, g, k, t, n) else Overdraws(s, g, k, t, n, cursor)
  }

  /** Underlining leaves row j of a blank as it is. */
  predicate Unruled(k: Face, style: int, fg: int, j: int, pen: int) { Ruled(k, style, fg, j, k.pen(pen)) == k.pen(pen) }

  /** A fill: the blanks it leaves are recorded as underlined only if that shows nowhere. */
  ghost predicate FillAgrees(s: Screen, g: Grid, k: Face, b: Box, pen: int, style: int)
    requires g.cellWidth > 0 && g.cellHeight > 0
  {
    forall x, y :: Visible(s, x, y) ==> FillAgreesAt(g, k, Clip(s.width, s.height, b), pen, style, x, y)
  }

  ghost predicate FillAgreesAt(g: Grid, k: Face, b: Box, pen: int, style: int, x: int, y: int)
    requires g.cellWidth > 0 && g.cellHeight > 0
  {
    var c, r := x / g.cellWidth, y / g.cellHeight;
    In(Whole(g, b), c, r) && Covers(g, c, r) ==> Unruled(k, style, g.at(c, r).fg, y % g.cellHeight, pen)
  }

  /** The cell looks the same there with its pens flipped, or is not the cursor's. */
  ghost predicate Unflipped(g: Grid, k: Face, cursor: Option<(int, int)>, x: int, y: int)
    requires g.cellWidth > 0 && g.cellHeight > 0
  {
    cursor == Some((x / g.cellWidth, y / g.cellHeight)) && Known(g, x, y) ==>
      Shows(g, k, x, y) == Shows(Displayed(g, cursor), k, x, y)
  }

  /** A box complemented: the cursor, unless it shows on another cell too; or pixels
      of no valid cell, unless complementing does not show. */
  ghost predicate ComplementAgrees(s: Screen, g: Grid, k: Face, b: Box, cursor: Option<(int, int)>)
    requires g.cellWidth > 0 && g.cellHeight > 0
  {
    var c := Clip(s.width, s.height, b);
    if OneCell(g, c) then forall x, y :: Visible(s, x, y) && !In(c, x, y) ==> Unflipped(g, k, cursor, x, y)
    else forall x, y :: Visible(s, x, y) && In(c, x, y) && Known(g, x, y) ==> k.complement(s.look(x, y)) == s.look(x, y)
  }

  /** A scroll the grid follows: it forgets the cursor, which must not show on any
      cell that stays; and as for a fill where it leaves blanks. */
  ghost predicate ScrollAgrees(s: Screen, g: Grid, k: Face, b: Box, dx: int, dy: int, pen: int, style: int,
                               cursor: Option<(int, int)>)
    requires g.cellWidth > 0 && g.cellHeight > 0
  {
    forall x, y :: Visible(s, x, y) ==>
      ScrollAgreesAt(g, k, Clip(s.width, s.height, b), dx, dy, pen, style, cursor, x, y)
  }

  ghost predicate ScrollAgreesAt(g: Grid, k: Face, b: Box, dx: int, dy: int, pen: int, style: int,
                                 cursor: Option<(int, int)>, x: int, y: int)
    requires g.cellWidth > 0 && g.cellHeight > 0
  {
    if !In(b, x, y) then Unflipped(g, k, cursor, x, y)
    else if In(b, x + dx, y + dy) then Unflipped(g, k, cursor, x + dx, y + dy)
    else Unruled(k, style, 1, y % g.cellHeight, pen)
  }

  /** The cell of the new table where the old one has none. */
  function NewCell(a: Ask, cursor: Option<(int, int)>, c: int, r: int): Cell {
    var blank := Blank(a.bg, a.fg, FS_NORMAL);
    if cursor == Some((c, r)) then Flipped(blank) else blank
  }

  /** A resize: a pixel gained in a cell of the old grid is what the cell draws
      there; where the new table has a cell and the old one none, the pixel is a
      blank's, kept or gained. */
  ghost predicate ResizeAgrees(p: Port, a: Ask, h: Host, k: Face, cursor: Option<(int, int)>)
    requires HasCells(p)
  {
    forall x, y :: 0 <= x < a.width && 0 <= y < a.height ==> ResizeAgreesAt(p, a, h, k, cursor, x, y)
  }

  ghost predicate ResizeAgreesAt(p: Port, a: Ask, h: Host, k: Face, cursor: Option<(int, int)>, x: int, y: int)
    requires HasCells(p)
  {
    var g, kept := p.grid, Visible(p.screen, x, y);
    var c, r := x / g.cellWidth, y / g.cellHeight;
    if Covers(g, c, r) then !kept && g.at(c, r).valid ==> Shows(Displayed(g, cursor), k, x, y) == a.paper
    else
      var shown := if kept then p.screen.look(x, y) else a.paper;
      CellsHad(a, h) ==> Glyph(k, NewCell(a, cursor, c, r), x % g.cellWidth, y % g.cellHeight) == shown
  }

  /** The font stays the same, and the new background is the background pen's. */
  predicate SameFont(p: Port, k: Face, op: Action) {
    op.ResizeTo? ==>
      op.ask.cellWidth == p.grid.cellWidth && op.ask.cellHeight == p.grid.cellHeight && op.ask.paper == k.pen(op.ask.bg)
  }

  /** Pixels of a grid that is not stale are about to change. */
  ghost predicate Touches(t: Terminal, op: Action) {
    !t.stale && if op.ResizeTo? then Call(t.port, op.ask, op.host).0 != t.port else !t.port.screen.deferred
  }

  /** What an operation must meet for the grid to stay truthful. */
  ghost predicate Agrees(t: Terminal, k: Face, op: Action)
    requires HasCells(t.port)
  {
    var s, g := t.port.screen, t.port.grid;
    match op
    case Write(run, _) => WriteAgrees(s, g, k, run, t.cursor)
    case Fill(b, pen, style) => Empty(Clip(s.width, s.height, b)) || FillAgrees(s, g, k, b, pen, style)
    case Complement(b) => Empty(Clip(s.width, s.height, b)) || ComplementAgrees(s, g, k, b, t.cursor)
    case ScrollBox(dx, dy, b, pen, style, memory) =>
      var c := Clip(s.width, s.height, b);
      (dx == 0 && dy == 0) || Empty(c) || !Followed(g, c, dx, dy, memory)
      || ScrollAgrees(s, g, k, b, dx, dy, pen, style, t.cursor)
    case ResizeTo(a, h) => ResizeAgrees(t.port, a, h, k, t.cursor)
    case RenderGrid(_) => true
    case SetDeferred(_) => true
  }

  ghost predicate Enabled(t: Terminal, k: Face, op: Action)
    requires HasCells(t.port)
  {
    SameFont(t.port, k, op) && (Touches(t, op) ==> Agrees(t, k, op))
  }
}
