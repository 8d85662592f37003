/** The logical text grid behind the pixels, and what rendering it shows. */
module CellGrid {
  import opened Raster
  import opened Console

  datatype Cell = Cell(character: int, style: int, opaqueBg: bool, valid: bool, fg: int, bg: int)

  /** Cell (column, row) covers cellWidth by cellHeight pixels from
      (column * cellWidth, row * cellHeight) on. */
  datatype Grid = Grid(columns: nat, rows: nat, cellWidth: int, cellHeight: int, at: (int, int) -> Cell)

  const SPACE := 32

  /** cell_set_blank(). */
  function Blank(bg: int, fg: int, style: int): Cell { Cell(SPACE, style, true, true, fg, bg) }

  /** What decides the shape and colour of a character's ink. */
  datatype Mark = Mark(character: int, style: int, fg: int)

  /** A font and a palette.  over: what painting a character puts at columns i and
      rows j from the corner of its cell, in it or past its edges, on a pixel.
      rule: what underlining in a pen puts in row j of a cell on a pixel.
      complement: what COMPLEMENT makes of a pixel of no known cell. */
  datatype Face = Face(over: (Mark, int, int, Pixel) -> Pixel, rule: (int, int, Pixel) -> Pixel, pen: int -> Pixel,
                       complement: Pixel -> Pixel)

  /** The low bit of a style underlines. */
  predicate Underlined(style: int) { style % 2 == 1 }

  function Ruled(k: Face, style: int, fg: int, j: int, below: Pixel): Pixel {
    if Underlined(style) then k.rule(fg, j, below) else below
  }

  /** The pixels of a valid cell: its background, its character, its underline. */
  function Glyph(k: Face, cell: Cell, i: int, j: int): Pixel {
    Ruled(k, cell.style, cell.fg, j, k.over(Mark(cell.character, cell.style, cell.fg), i, j, k.pen(cell.bg)))
  }

  /** A space has no ink. */
  ghost predicate BlanksAreClear(k: Face) {
    forall style: int, fg: int, i: int, j: int, p: Pixel {:trigger k.over(Mark(SPACE, style, fg), i, j, p)} ::
      k.over(Mark(SPACE, style, fg), i, j, p) == p
  }

  /** A blank is nothing but its background, and its underline if it has one. */
  lemma BlankShows(k: Face, bg: int, fg: int, style: int, i: int, j: int)
    requires BlanksAreClear(k)
    ensures Glyph(k, Blank(bg, fg, style), i, j) == Ruled(k, style, fg, j, k.pen(bg))
  {
    assert k.over(Mark(SPACE, style, fg), i, j, k.pen(bg)) == k.pen(bg);
  }

  predicate Covers(g: Grid, column: int, row: int) { 0 <= column < g.columns && 0 <= row < g.rows }

  /** What a place in a cell shows: the cell's glyph if it is valid, else the background. */
  function ShownAt(g: Grid, k: Face, bg: Pixel, c: int, r: int, i: int, j: int): Pixel {
    if Covers(g, c, r) && g.at(c, r).valid then Glyph(k, g.at(c, r), i, j) else bg
  }

  /** What the grid shows. */
  function Rendered(g: Grid, k: Face, bg: Pixel): Picture
    requires g.cellWidth > 0 && g.cellHeight > 0
  {
    (x: int, y: int) => ShownAt(g, k, bg, x / g.cellWidth, y / g.cellHeight, x % g.cellWidth, y % g.cellHeight)
  }

  // ------------------------------------------------------------------
  // Boxes of cells
  // ------------------------------------------------------------------

  /** The box starts and ends on cell edges, and so do its cells in the grid. */
  predicate Aligned(g: Grid, b: Box) {
    && g.cellWidth > 0 && g.cellHeight > 0 && 0 <= b.x0 && 0 <= b.y0
    && b.x0 % g.cellWidth == 0 && b.y0 % g.cellHeight == 0
    && (b.x1 + 1) % g.cellWidth == 0 && (b.y1 + 1) % g.cellHeight == 0
  }

  /** The cells of a box of pixels. */
  function CellsOf(g: Grid, b: Box): Box
    requires g.cellWidth > 0 && g.cellHeight > 0
  {
    Box(b.x0 / g.cellWidth, b.y0 / g.cellHeight, (b.x1 + 1) / g.cellWidth - 1, (b.y1 + 1) / g.cellHeight - 1)
  }

  /** cell_scroll_box() accepts the scroll. */
  predicate Scrollable(g: Grid, b: Box, dx: int, dy: int) {
    && Aligned(g, b) && dx % g.cellWidth == 0 && dy % g.cellHeight == 0
    && !Empty(CellsOf(g, b)) && CellsOf(g, b).x1 < g.columns && CellsOf(g, b).y1 < g.rows
  }

  /** The cells scrolled: those whose source falls outside the box are blank. */
  function ScrollCells(g: Grid, b: Box, dx: int, dy: int, pen: int, style: int): Grid
    requires Scrollable(g, b, dx, dy)
  {
    ShiftCells(g, CellsOf(g, b), dx / g.cellWidth, dy / g.cellHeight, Blank(pen, 1, style))
  }

  /** Each cell of the box from i columns and j rows further on, or blank. */
  function ShiftCells(g: Grid, cells: Box, i: int, j: int, blank: Cell): Grid {
    g.(at := (c, r) => if !In(cells, c, r) then g.at(c, r)
                       else if In(cells, c + i, r + j) then g.at(c + i, r + j) else blank)
  }

  // ------------------------------------------------------------------
  // Division
  // ------------------------------------------------------------------

  /** A pixel lies between two cell edges exactly when its cell does. */
  lemma BetweenEdges(x: int, w: int, lo: int, hi: int)
    requires w > 0 && lo % w == 0 && hi % w == 0
    ensures lo <= x < hi <==> lo / w <= x / w < hi / w
  {
    EdgeBelow(x, w, lo);
    EdgeBelow(x, w, hi);
  }

  lemma EdgeBelow(x: int, w: int, e: int)
    requires w > 0 && e % w == 0
    ensures e <= x <==> e / w <= x / w
  {
    var q, p, m := e / w, x / w, x % w;
    assert e == q * w && x == p * w + m;
    if q <= p { MulLe(q, p, w); } else { MulLe(p + 1, q, w); }
  }

  lemma MulLe(a: int, b: int, w: int)
    requires a <= b && w > 0
    ensures a * w <= b * w
  {
  }

  /** Shifting by whole cells shifts the cell and keeps the place in it. */
  lemma WholeCells(x: int, w: int, d: int)
    requires w > 0 && d % w == 0
    ensures (x + d) / w == x / w + d / w && (x + d) % w == x % w
  {
    var p, m, q := x / w, x % w, d / w;
    assert x == p * w + m && d == q * w;
    Distribute(p, q, w);
    assert x + d == (p + q) * w + m;
    DivMod(x + d, w, p + q, m);
  }

  lemma Distribute(p: int, q: int, w: int)
    ensures (p + q) * w == p * w + q * w
  {
  }

  lemma DivMod(x: int, w: int, q: int, m: int)
    requires w > 0 && x == q * w + m && 0 <= m < w
    ensures x / w == q && x % w == m
  {
    var p, n := x / w, x % w;
    assert x == p * w + n;
    if p < q { MulLe(p + 1, q, w); } else if q < p { MulLe(q + 1, p, w); }
  }

  lemma BoxOfCells(g: Grid, b: Box, x: int, y: int)
    requires Aligned(g, b)
    ensures In(b, x, y) <==> In(CellsOf(g, b), x / g.cellWidth, y / g.cellHeight)
  {
    BetweenEdges(x, g.cellWidth, b.x0, b.x1 + 1);
    BetweenEdges(y, g.cellHeight, b.y0, b.y1 + 1);
  }

  // ------------------------------------------------------------------
  // Grid and pixels
  // ------------------------------------------------------------------

  /** A shifted grid, cell by cell. */
  lemma ShiftShows(g: Grid, k: Face, bg: Pixel, cells: Box, i: int, j: int, blank: Cell, c: int, r: int, u: int, v: int)
    requires 0 <= cells.x0 && 0 <= cells.y0 && cells.x1 < g.columns && cells.y1 < g.rows && blank.valid
    ensures ShownAt(ShiftCells(g, cells, i, j, blank), k, bg, c, r, u, v)
         == if !In(cells, c, r) then ShownAt(g, k, bg, c, r, u, v)
            else if In(cells, c + i, r + j) then ShownAt(g, k, bg, c + i, r + j, u, v) else Glyph(k, blank, u, v)
  {
    var at := ShiftCells(g, cells, i, j, blank).at;
    assert at(c, r) == if !In(cells, c, r) then g.at(c, r)
                       else if In(cells, c + i, r + j) then g.at(c + i, r + j) else blank;
  }

  lemma ScrolledAt(look: Picture, b: Box, dx: int, dy: int, fill: Pixel, x: int, y: int)
    ensures Scrolled(look, b, dx, dy, fill)(x, y)
         == if !In(b, x, y) then look(x, y) else if In(b, x + dx, y + dy) then look(x + dx, y + dy) else fill
  {
  }

  /** Scrolling the cells and then rendering shows what rendering and then
      scrolling the pixels shows. */
  lemma ScrollCommutes(g: Grid, k: Face, bg: Pixel, b: Box, dx: int, dy: int, pen: int, style: int, x: int, y: int)
    requires Scrollable(g, b, dx, dy) && BlanksAreClear(k) && !Underlined(style)
    ensures Rendered(ScrollCells(g, b, dx, dy, pen, style), k, bg)(x, y)
         == Scrolled(Rendered(g, k, bg), b, dx, dy, k.pen(pen))(x, y)
  {
    BoxOfCells(g, b, x, y);
    BoxOfCells(g, b, x + dx, y + dy);
    WholeCells(x, g.cellWidth, dx);
    WholeCells(y, g.cellHeight, dy);
    EdgeBelow(b.x0, g.cellWidth, 0);
    EdgeBelow(b.y0, g.cellHeight, 0);
    ShiftShows(g, k, bg, CellsOf(g, b), dx / g.cellWidth, dy / g.cellHeight, Blank(pen, 1, style),
               x / g.cellWidth, y / g.cellHeight, x % g.cellWidth, y % g.cellHeight);
    ScrolledAt(Rendered(g, k, bg), b, dx, dy, k.pen(pen), x, y);
    BlankShows(k, pen, 1, style, x % g.cellWidth, y % g.cellHeight);
  }

  // ------------------------------------------------------------------
  // Filling
  // ------------------------------------------------------------------

  /** The cells a box of pixels touches at all. */
  function Touched(g: Grid, b: Box): Box
    requires g.cellWidth > 0 && g.cellHeight > 0
  {
    Box(b.x0 / g.cellWidth, b.y0 / g.cellHeight, b.x1 / g.cellWidth, b.y1 / g.cellHeight)
  }

  /** The cells it covers whole. */
  function Whole(g: Grid, b: Box): Box
    requires g.cellWidth > 0 && g.cellHeight > 0
  {
    Box((b.x0 + g.cellWidth - 1) / g.cellWidth, (b.y0 + g.cellHeight - 1) / g.cellHeight,
        (b.x1 + 1) / g.cellWidth - 1, (b.y1 + 1) / g.cellHeight - 1)
  }

  /** cell_fill_box(): whole cells become blank in the pen, cells only touched
      are no longer known. */
  function FillCells(g: Grid, b: Box, pen: int, style: int): Grid
    requires g.cellWidth > 0 && g.cellHeight > 0
  {
    var whole, touched := Whole(g, b), Touched(g, b);
    g.(at := (c, r) => if In(whole, c, r) then Blank(pen, g.at(c, r).fg, style)
                       else if In(touched, c, r) then g.at(c, r).(valid := false) else g.at(c, r))
  }

  /** On cell edges the cells touched are the cells covered whole. */
  lemma EdgesMeet(w: int, lo: int, hi: int)
    requires w > 0 && lo % w == 0 && (hi + 1) % w == 0
    ensures (lo + w - 1) / w == lo / w && hi / w == (hi + 1) / w - 1
  {
    var p, q := lo / w, (hi + 1) / w;
    assert lo == p * w && hi + 1 == q * w;
    Distribute(q - 1, 1, w);
    DivMod(lo + w - 1, w, p, w - 1);
    DivMod(hi, w, q - 1, w - 1);
  }

  lemma FillShows(g: Grid, k: Face, bg: Pixel, b: Box, pen: int, style: int, c: int, r: int, u: int, v: int)
    requires Aligned(g, b) && BlanksAreClear(k) && !Underlined(style)
    requires !Empty(CellsOf(g, b)) && CellsOf(g, b).x1 < g.columns && CellsOf(g, b).y1 < g.rows
    ensures ShownAt(FillCells(g, b, pen, style), k, bg, c, r, u, v)
         == if In(CellsOf(g, b), c, r) then k.pen(pen) else ShownAt(g, k, bg, c, r, u, v)
  {
    EdgesMeet(g.cellWidth, b.x0, b.x1);
    EdgesMeet(g.cellHeight, b.y0, b.y1);
    EdgeBelow(b.x0, g.cellWidth, 0);
    EdgeBelow(b.y0, g.cellHeight, 0);
    var at := FillCells(g, b, pen, style).at;
    assert at(c, r) == if In(Whole(g, b), c, r) then Blank(pen, g.at(c, r).fg, style)
                       else if In(Touched(g, b), c, r) then g.at(c, r).(valid := false) else g.at(c, r);
    BlankShows(k, pen, g.at(c, r).fg, style, u, v);
  }

  /** Filling the cells and then rendering shows what rendering and then filling
      the pixels shows. */
  lemma FillCommutes(g: Grid, k: Face, bg: Pixel, b: Box, pen: int, style: int, x: int, y: int)
    requires Aligned(g, b) && BlanksAreClear(k) && !Underlined(style)
    requires !Empty(CellsOf(g, b)) && CellsOf(g, b).x1 < g.columns && CellsOf(g, b).y1 < g.rows
    ensures Rendered(FillCells(g, b, pen, style), k, bg)(x, y) == Filled(Rendered(g, k, bg), b, k.pen(pen))(x, y)
  {
    BoxOfCells(g, b, x, y);
    FillShows(g, k, bg, b, pen, style, x / g.cellWidth, y / g.cellHeight, x % g.cellWidth, y % g.cellHeight);
    assert Filled(Rendered(g, k, bg), b, k.pen(pen))(x, y)
         == if In(b, x, y) then k.pen(pen) else Rendered(g, k, bg)(x, y);
  }

  // ------------------------------------------------------------------
  // Drawing cell by cell
  // ------------------------------------------------------------------

  function CellBox(g: Grid, c: int, r: int): Box {
    Box(c * g.cellWidth, r * g.cellHeight, c * g.cellWidth + g.cellWidth - 1, r * g.cellHeight + g.cellHeight - 1)
  }

  /** render_cell(): a valid cell drawn over whatever is there, clipped to its own box. */
  function DrawCell(look: Picture, g: Grid, k: Face, c: int, r: int): Picture
    requires g.cellWidth > 0 && g.cellHeight > 0
  {
    if !g.at(c, r).valid then look
    else Inked(look, CellBox(g, c, r), CellInk(g, k, c, r))
  }

  function CellInk(g: Grid, k: Face, c: int, r: int): Picture
    requires g.cellWidth > 0 && g.cellHeight > 0
  {
    (x: int, y: int) => Glyph(k, g.at(c, r), x % g.cellWidth, y % g.cellHeight)
  }

  /** The first n cells of row r drawn. */
  function DrawRow(look: Picture, g: Grid, k: Face, r: int, n: nat): Picture
    requires g.cellWidth > 0 && g.cellHeight > 0
  {
    if n == 0 then look else DrawCell(DrawRow(look, g, k, r, n - 1), g, k, n - 1, r)
  }

  /** The first n rows drawn. */
  function DrawRows(look: Picture, g: Grid, k: Face, n: nat): Picture
    requires g.cellWidth > 0 && g.cellHeight > 0
  {
    if n == 0 then look else DrawRow(DrawRows(look, g, k, n - 1), g, k, n - 1, g.columns)
  }

  lemma InCell(x: int, w: int, c: int)
    requires w > 0
    ensures c * w <= x <= c * w + w - 1 <==> x / w == c
  {
    var p, m := x / w, x % w;
    assert x == p * w + m;
    if p < c { MulLe(p + 1, c, w); } else if c < p { MulLe(c + 1, p, w); }
  }

  lemma DrawCellAt(look: Picture, g: Grid, k: Face, c: int, r: int, x: int, y: int)
    requires g.cellWidth > 0 && g.cellHeight > 0
    ensures DrawCell(look, g, k, c, r)(x, y)
         == if x / g.cellWidth == c && y / g.cellHeight == r && g.at(c, r).valid
            then Glyph(k, g.at(c, r), x % g.cellWidth, y % g.cellHeight) else look(x, y)
  {
    InCell(x, g.cellWidth, c);
    InCell(y, g.cellHeight, r);
    assert Inked(look, CellBox(g, c, r), CellInk(g, k, c, r))(x, y)
        == if In(CellBox(g, c, r), x, y) then CellInk(g, k, c, r)(x, y) else look(x, y);
    assert CellInk(g, k, c, r)(x, y) == Glyph(k, g.at(c, r), x % g.cellWidth, y % g.cellHeight);
  }

  lemma {:induction false} DrawRowAt(look: Picture, g: Grid, k: Face, r: int, n: nat, x: int, y: int)
    requires g.cellWidth > 0 && g.cellHeight > 0
    ensures DrawRow(look, g, k, r, n)(x, y)
         == if 0 <= x / g.cellWidth < n && y / g.cellHeight == r && g.at(x / g.cellWidth, r).valid
            then Glyph(k, g.at(x / g.cellWidth, r), x % g.cellWidth, y % g.cellHeight) else look(x, y)
  {
    if n > 0 {
      DrawRowAt(look, g, k, r, n - 1, x, y);
      DrawCellAt(DrawRow(look, g, k, r, n - 1), g, k, n - 1, r, x, y);
    }
  }

  lemma {:induction false} DrawRowsAt(look: Picture, g: Grid, k: Face, n: nat, x: int, y: int)
    requires g.cellWidth > 0 && g.cellHeight > 0
    ensures DrawRows(look, g, k, n)(x, y)
         == if 0 <= x / g.cellWidth < g.columns && 0 <= y / g.cellHeight < n
               && g.at(x / g.cellWidth, y / g.cellHeight).valid
            then Glyph(k, g.at(x / g.cellWidth, y / g.cellHeight), x % g.cellWidth, y % g.cellHeight) else look(x, y)
  {
    if n > 0 {
      DrawRowsAt(look, g, k, n - 1, x, y);
      DrawRowAt(DrawRows(look, g, k, n - 1), g, k, n - 1, g.columns, x, y);
    }
  }

  function Plain(bg: Pixel): Picture { (x, y) => bg }

  /** ace_gfx_render_grid(): the background, then each valid cell in turn, shows the grid. */
  lemma RenderShowsGrid(g: Grid, k: Face, bg: Pixel, x: int, y: int)
    requires g.cellWidth > 0 && g.cellHeight > 0
    ensures DrawRows(Plain(bg), g, k, g.rows)(x, y) == Rendered(g, k, bg)(x, y)
  {
    DrawRowsAt(Plain(bg), g, k, g.rows, x, y);
    assert Plain(bg)(x, y) == bg;
  }

  // ------------------------------------------------------------------
  // Another size
  // ------------------------------------------------------------------

  /** Cells across n pixels, the last one perhaps cut off. */
  function CellsAcross(n: nat, size: int): nat
    requires size > 0
  {
    (n + size - 1) / size
  }

  const FS_NORMAL := 0

  /** cell_cache_resize(): with the same font the cells both grids have stay, and
      every other cell is blank. */
  function ResizeCells(g: Grid, width: nat, height: nat, cellWidth: int, cellHeight: int, fg: int, bg: int): Grid
    requires cellWidth > 0 && cellHeight > 0
  {
    Grid(CellsAcross(width, cellWidth), CellsAcross(height, cellHeight), cellWidth, cellHeight,
         (c, r) => if g.cellWidth == cellWidth && g.cellHeight == cellHeight && Covers(g, c, r) then g.at(c, r)
                   else Blank(bg, fg, FS_NORMAL))
  }
}
