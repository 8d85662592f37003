/** What a run of text draws and records, character by character. */
module TextExact {
  import opened Bytes
  import opened Raster
  import opened Console
  import opened CellGrid
  import opened TextInk
  import opened Resizing
  import opened GridOps
  import opened GridTruth

  /** Character m of the run has its whole cell before the right edge. */
  predicate Drawn(s: Screen, g: Grid, t: Run, m: int) {
    0 <= m < |t.text| && t.x + (m + 1) * g.cellWidth <= s.width
  }

  lemma QuotientIs(a: int, w: int, m: int)
    requires w > 0
    ensures (m + 1) * w <= a <==> m + 1 <= a / w
  {
    var q := a / w;
    assert a == q * w + a % w;
    if m + 1 <= q { MulLe(m + 1, q, w); } else { MulLe(q + 1, m + 1, w); Distribute(q, 1, w); }
  }

  /** The characters drawn are those whose cells fit. */
  lemma FittingIs(s: Screen, g: Grid, t: Run, m: nat)
    requires g.cellWidth > 0
    ensures m < Fitting(s, g, t) <==> Drawn(s, g, t, m)
  {
    if t.x >= s.width {
      MulLe(1, m + 1, g.cellWidth);
    } else {
      QuotientIs(s.width - t.x, g.cellWidth, m);
    }
  }

  /** The run's cell at a place of the grid: the character that belongs there, if any. */
  function CharacterAt(g: Grid, t: Run, c: int, r: int): int
    requires g.cellWidth > 0 && g.cellHeight > 0
  {
    if r == t.top / g.cellHeight then c - t.x / g.cellWidth else -1
  }

  /** A run on cells records in each cell the character drawn there, with its style
      and pens, and leaves every other cell and the cursor elsewhere alone; a run
      between cells records nothing. */
  lemma TextRecords(t: Terminal, k: Face, run: Run, baseline: int, c: int, r: int)
    requires HasCells(t.port)
    ensures var s, g := t.port.screen, t.port.grid;
            var m := CharacterAt(g, run, c, r);
            Written(t, k, run, baseline).port.grid.at(c, r)
            == if OnCells(g, run) && Drawn(s, g, run, m)
               then Cell(run.text[m], run.style, run.opaqueBg, true, run.fg,
                         if run.opaqueBg || !g.at(c, r).valid then run.bg else g.at(c, r).bg)
               else g.at(c, r)
  {
    var s, g := t.port.screen, t.port.grid;
    var n, m := Fitting(s, g, run), CharacterAt(g, run, c, r);
    WrittenAt(g, run, n, c, r);
    if m >= 0 { FittingIs(s, g, run, m); }
  }

  /** The pixel belongs to a character drawn. */
  predicate UnderText(s: Screen, g: Grid, t: Run, x: int, y: int)
    requires g.cellWidth > 0
  {
    t.top <= y < t.top + g.cellHeight && t.x <= x && Drawn(s, g, t, (x - t.x) / g.cellWidth)
  }

  lemma UnderIs(s: Screen, g: Grid, t: Run, x: int, y: int)
    requires g.cellWidth > 0
    ensures UnderText(s, g, t, x, y) <==> In(RunBounds(g, t, Fitting(s, g, t)), x, y)
  {
    if t.x <= x {
      ColumnIs(x - t.x, g.cellWidth, Fitting(s, g, t));
      FittingIs(s, g, t, (x - t.x) / g.cellWidth);
    }
  }

  lemma ColumnIs(a: int, w: int, n: nat)
    requires a >= 0 && w > 0
    ensures a / w >= 0 && (a <= n * w - 1 <==> a / w < n)
  {
    NonNegative(a, w);
    if n > 0 { QuotientIs(a, w, n - 1); }
  }

  lemma NonNegative(a: int, w: int)
    requires a >= 0 && w > 0
    ensures a / w >= 0
  {
  }

  /** Nothing is drawn while rendering is deferred; otherwise every pixel of a
      character drawn takes the run's ink, and no other changes. */
  lemma TextDraws(t: Terminal, k: Face, run: Run, baseline: int, x: int, y: int)
    requires HasCells(t.port) && Visible(t.port.screen, x, y)
    ensures var s, g := t.port.screen, t.port.grid;
            Written(t, k, run, baseline).port.screen.look(x, y)
            == if !s.deferred && UnderText(s, g, run, x, y)
               then RunInk(k, g.cellWidth, run, Fitting(s, g, run), s.look)(x, y) else s.look(x, y)
  {
    var s, g := t.port.screen, t.port.grid;
    UnderIs(s, g, run, x, y);
    if s.deferred {
      DeferredText(s, g, run, baseline, RunInk(k, g.cellWidth, run, Fitting(s, g, run), s.look));
    } else {
      TextLook(s, g, run, baseline, RunInk(k, g.cellWidth, run, Fitting(s, g, run), s.look), x, y);
    }
  }

  lemma DeferredText(s: Screen, g: Grid, t: Run, baseline: int, ink: Picture)
    requires s.deferred && g.cellWidth > 0 && g.cellHeight > 0
    ensures DrawText(s, t.x, t.top + baseline, baseline, g.cellWidth, g.cellHeight, |t.text|, ink) == s
  {
  }

  /** Opaque text on cells whose characters keep apart shows, in the cell of each
      character drawn, that character alone on its background: its glyph. */
  lemma TextShows(t: Terminal, k: Face, run: Run, baseline: int, m: nat, i: int, j: int)
    requires HasCells(t.port) && !t.port.screen.deferred && OnCells(t.port.grid, run) && run.opaqueBg
    requires Drawn(t.port.screen, t.port.grid, run, m) && Place(t.port.grid.cellWidth, t.port.grid.cellHeight, i, j)
    requires InSight(t.port.screen, t.port.grid, run, m, i, j)
    requires WriteAgrees(t.port.screen, t.port.grid, k, run, t.cursor)
    ensures Written(t, k, run, baseline).port.screen.look(run.x + m * t.port.grid.cellWidth + i, run.top + j)
         == Glyph(k, Cell(run.text[m], run.style, true, true, run.fg, run.bg), i, j)
  {
    var s, g := t.port.screen, t.port.grid;
    var n, x, y := Fitting(s, g, run), run.x + m * g.cellWidth + i, run.top + j;
    FittingIs(s, g, run, m);
    PlaceOf(g, run, n, m, i, j);
    TextLook(s, g, run, baseline, RunInk(k, g.cellWidth, run, n, s.look), x, y);
    assert Clean(k, g.cellWidth, run, n, m, i, j);
    assert RunInk(k, g.cellWidth, run, n, s.look)(x, y) == Together(k, g.cellWidth, run, n, m, i, j);
  }

  // ------------------------------------------------------------------
  // Cells and the box of pixels an operation is given
  // ------------------------------------------------------------------

  /** Some pixel of the cell lies in the box. */
  ghost predicate Meets(g: Grid, b: Box, c: int, r: int)
    requires g.cellWidth > 0 && g.cellHeight > 0
  {
    exists x, y :: In(b, x, y) && x / g.cellWidth == c && y / g.cellHeight == r
  }

  /** Every pixel of the cell lies in the box. */
  ghost predicate Contained(g: Grid, b: Box, c: int, r: int)
    requires g.cellWidth > 0 && g.cellHeight > 0
  {
    forall x, y :: x / g.cellWidth == c && y / g.cellHeight == r ==> In(b, x, y)
  }

  lemma CellSpan(w: int, c: int)
    requires w > 0
    ensures (c * w) / w == c && (c * w + w - 1) / w == c
  {
    DivMod(c * w, w, c, 0);
    DivMod(c * w + w - 1, w, c, w - 1);
  }

  /** Some number of the interval has the quotient. */
  lemma SpanMeets(lo: int, hi: int, w: int, c: int) returns (x: int)
    requires w > 0 && lo / w <= c <= hi / w && lo <= hi
    ensures lo <= x <= hi && x / w == c
  {
    if c == lo / w {
      x := lo;
    } else {
      x := c * w;
      CellSpan(w, c);
      assert hi == (hi / w) * w + hi % w && lo == (lo / w) * w + lo % w;
      MulLe(c, hi / w, w);
      MulLe(lo / w + 1, c, w);
      Distribute(lo / w, 1, w);
    }
  }

  lemma MeetsIff(g: Grid, b: Box, c: int, r: int)
    requires g.cellWidth > 0 && g.cellHeight > 0 && !Empty(b)
    ensures In(Touched(g, b), c, r) <==> Meets(g, b, c, r)
  {
    if In(Touched(g, b), c, r) {
      var x := SpanMeets(b.x0, b.x1, g.cellWidth, c);
      var y := SpanMeets(b.y0, b.y1, g.cellHeight, r);
      assert In(b, x, y);
    }
    forall x, y | In(b, x, y) && x / g.cellWidth == c && y / g.cellHeight == r ensures In(Touched(g, b), c, r) {
      InTouched(g, b, x, y);
    }
  }

  lemma SpanWithin(lo: int, hi: int, w: int, c: int)
    requires w > 0 && lo <= c * w && c * w + w - 1 <= hi
    ensures (lo + w - 1) / w <= c <= (hi + 1) / w - 1
  {
    CellSpan(w, c);
    DivLe(lo + w - 1, c * w + w - 1, w);
    DivMod((c + 1) * w, w, c + 1, 0);
    Distribute(c, 1, w);
    DivLe((c + 1) * w, hi + 1, w);
  }

  lemma ContainedIff(g: Grid, b: Box, c: int, r: int)
    requires g.cellWidth > 0 && g.cellHeight > 0
    ensures In(Whole(g, b), c, r) <==> Contained(g, b, c, r)
  {
    if In(Whole(g, b), c, r) {
      forall x, y | x / g.cellWidth == c && y / g.cellHeight == r ensures In(b, x, y) {
        InWhole(g, b, x, y);
      }
    }
    if Contained(g, b, c, r) {
      CellSpan(g.cellWidth, c);
      CellSpan(g.cellHeight, r);
      assert In(b, c * g.cellWidth, r * g.cellHeight);
      assert In(b, c * g.cellWidth + g.cellWidth - 1, r * g.cellHeight + g.cellHeight - 1);
      SpanWithin(b.x0, b.x1, g.cellWidth, c);
      SpanWithin(b.y0, b.y1, g.cellHeight, r);
    }
  }

  /** A fill blanks, in its pen and style, exactly the cells all of whose pixels it
      covers, gives up those it covers in part, and leaves the others alone. */
  lemma FillRecords(t: Terminal, k: Face, b: Box, pen: int, style: int, c: int, r: int)
    requires HasCells(t.port) && !Empty(Clip(t.port.screen.width, t.port.screen.height, b))
    ensures var g, d := t.port.grid, Clip(t.port.screen.width, t.port.screen.height, b);
            Filling(t, k, b, pen, style).port.grid.at(c, r)
            == if Contained(g, d, c, r) then Cell(SPACE, style, true, true, g.at(c, r).fg, pen)
               else if Meets(g, d, c, r) then g.at(c, r).(valid := false) else g.at(c, r)
  {
    var g, d := t.port.grid, Clip(t.port.screen.width, t.port.screen.height, b);
    FilledCellAt(g, d, pen, style, c, r);
    ContainedIff(g, d, c, r);
    MeetsIff(g, d, c, r);
  }

  /** A scroll the grid cannot follow gives up exactly the cells it covers in part
      or whole. */
  lemma GiveUpRecords(g: Grid, b: Box, c: int, r: int)
    requires g.cellWidth > 0 && g.cellHeight > 0 && !Empty(b)
    ensures Invalidate(g, b).at(c, r) == if Meets(g, b, c, r) then g.at(c, r).(valid := false) else g.at(c, r)
  {
    InvalidAt(g, b, c, r);
    MeetsIff(g, b, c, r);
  }

  /** A scroll the grid follows gives each cell of the box the cell as many columns
      and rows further on as the scroll is wide and high, or a blank in the fill pen
      and style, and leaves every other alone; drawn or deferred. */
  lemma ScrollRecords(t: Terminal, k: Face, dx: int, dy: int, b: Box, pen: int, style: int, memory: bool, i: int,
                      j: int, c: int, r: int)
    requires HasCells(t.port) && dx == i * t.port.grid.cellWidth && dy == j * t.port.grid.cellHeight
    requires var d := Clip(t.port.screen.width, t.port.screen.height, b);
             !(dx == 0 && dy == 0) && !Empty(d) && Followed(t.port.grid, d, dx, dy, memory)
    ensures var g, d := t.port.grid, Clip(t.port.screen.width, t.port.screen.height, b);
            Scrolling(t, k, dx, dy, b, pen, style, memory).port.grid.at(c, r)
            == if !Contained(g, d, c, r) then g.at(c, r)
               else if Contained(g, d, c + i, r + j) then g.at(c + i, r + j)
               else Cell(SPACE, style, true, true, 1, pen)
  {
    var g, d := t.port.grid, Clip(t.port.screen.width, t.port.screen.height, b);
    DivMod(dx, g.cellWidth, i, 0);
    DivMod(dy, g.cellHeight, j, 0);
    EdgesMeet(g.cellWidth, d.x0, d.x1);
    EdgesMeet(g.cellHeight, d.y0, d.y1);
    ShiftedAt(g, CellsOf(g, d), i, j, Blank(pen, 1, style), c, r);
    ContainedIff(g, d, c, r);
    ContainedIff(g, d, c + i, r + j);
  }
}
