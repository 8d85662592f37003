/** Pixel by pixel: an operation leaves a valid cell saying what its pixels show
    exactly where it agrees with the grid. */
module GridTruth {
  import opened Bytes
  import opened Raster
  import opened Console
  import opened CellGrid
  import opened TextInk
  import opened Resizing
  import opened GridOps

  // ------------------------------------------------------------------
  // Cells and cursor
  // ------------------------------------------------------------------

  lemma DisplayedAt(g: Grid, cursor: Option<(int, int)>, c: int, r: int)
    ensures Displayed(g, cursor).at(c, r) == if cursor == Some((c, r)) then Flipped(g.at(c, r)) else g.at(c, r)
    ensures Displayed(g, cursor).at(c, r).valid == g.at(c, r).valid
  {
  }

  /** Two grids that display the same cell at x, y say the same there. */
  lemma SameThere(s: Screen, u: Screen, g: Grid, h: Grid, k: Face, x: int, y: int)
    requires g.cellWidth > 0 && g.cellHeight > 0 && h == g.(at := h.at) && u.look(x, y) == s.look(x, y)
    requires h.at(x / g.cellWidth, y / g.cellHeight) == g.at(x / g.cellWidth, y / g.cellHeight)
    ensures True(u, h, k, x, y) <==> True(s, g, k, x, y)
  {
  }

  // ------------------------------------------------------------------
  // Text
  // ------------------------------------------------------------------

  lemma Edges(a: int, n: int, w: int)
    requires w > 0
    ensures (a * w) % w == 0 && (a * w) / w == a && (a * w + n * w) % w == 0 && (a * w + n * w) / w == a + n
  {
    DivMod(a * w, w, a, 0);
    Distribute(a, n, w);
    DivMod(a * w + n * w, w, a + n, 0);
  }

  /** n cells from an edge on hold the pixels between two edges. */
  lemma Span(x: int, w: int, a: int, n: int)
    requires w > 0 && a % w == 0
    ensures a <= x <= a + n * w - 1 <==> a / w <= x / w <= a / w + n - 1
  {
    var c := a / w;
    assert a == c * w;
    Edges(c, n, w);
    BetweenEdges(x, w, c * w, c * w + n * w);
  }

  /** On whole cells, the pixels of the run are those of its cells. */
  lemma RunBox(g: Grid, t: Run, n: nat, x: int, y: int)
    requires g.cellWidth > 0 && g.cellHeight > 0 && OnCells(g, t)
    ensures In(RunBounds(g, t, n), x, y) <==> In(RunCells(g, t, n), x / g.cellWidth, y / g.cellHeight)
  {
    Span(x, g.cellWidth, t.x, n);
    Span(y, g.cellHeight, t.top, 1);
  }

  lemma TextIs(s: Screen, g: Grid, t: Run, baseline: int, ink: Picture)
    requires g.cellWidth > 0 && g.cellHeight > 0
    ensures DrawText(s, t.x, t.top + baseline, baseline, g.cellWidth, g.cellHeight, |t.text|, ink)
         == if Fitting(s, g, t) == 0 then s else Draw(s, RunBounds(g, t, Fitting(s, g, t)), ink)
  {
  }

  lemma DrawnLook(s: Screen, b: Box, ink: Picture, x: int, y: int)
    requires !s.deferred && Visible(s, x, y)
    ensures Draw(s, b, ink).look(x, y) == if In(b, x, y) then ink(x, y) else s.look(x, y)
  {
    var c := Clip(s.width, s.height, b);
    assert In(c, x, y) <==> In(b, x, y);
    if !Empty(c) { assert Inked(s.look, c, ink)(x, y) == if In(c, x, y) then ink(x, y) else s.look(x, y); }
  }

  lemma TextLook(s: Screen, g: Grid, t: Run, baseline: int, ink: Picture, x: int, y: int)
    requires g.cellWidth > 0 && g.cellHeight > 0 && !s.deferred && Visible(s, x, y)
    ensures DrawText(s, t.x, t.top + baseline, baseline, g.cellWidth, g.cellHeight, |t.text|, ink).look(x, y)
         == if In(RunBounds(g, t, Fitting(s, g, t)), x, y) then ink(x, y) else s.look(x, y)
  {
    TextIs(s, g, t, baseline, ink);
    if Fitting(s, g, t) > 0 {
      DrawnLook(s, RunBounds(g, t, Fitting(s, g, t)), ink, x, y);
    } else {
      assert 0 * g.cellWidth == 0;
    }
  }

  lemma WrittenAt(g: Grid, t: Run, n: nat, c: int, r: int)
    requires g.cellWidth > 0 && g.cellHeight > 0
    ensures WriteCells(g, t, n).at(c, r)
         == if OnCells(g, t) && In(RunCells(g, t, n), c, r) then RunCell(g.at(c, r), t, c - t.x / g.cellWidth)
            else g.at(c, r)
  {
  }

  /** Outside the run, cells and cursor are as before. */
  lemma UnwrittenAt(g: Grid, t: Run, n: nat, cursor: Option<(int, int)>, x: int, y: int)
    requires g.cellWidth > 0 && g.cellHeight > 0 && !In(RunBounds(g, t, n), x, y)
    ensures var c, r := x / g.cellWidth, y / g.cellHeight;
            Displayed(WriteCells(g, t, n), WriteCursor(g, t, n, cursor)).at(c, r) == Displayed(g, cursor).at(c, r)
  {
    var c, r := x / g.cellWidth, y / g.cellHeight;
    if OnCells(g, t) { RunBox(g, t, n, x, y); }
    WrittenAt(g, t, n, c, r);
    DisplayedAt(g, cursor, c, r);
    DisplayedAt(WriteCells(g, t, n), WriteCursor(g, t, n, cursor), c, r);
  }

  lemma WriteTrue(t: Terminal, k: Face, run: Run, baseline: int)
    requires Inv(t, k) && !t.stale && !t.port.screen.deferred && Fitting(t.port.screen, t.port.grid, run) > 0
    ensures Truthful(Written(t, k, run, baseline).port.screen, Said(Written(t, k, run, baseline)), k)
       <==> Overdraws(t.port.screen, t.port.grid, k, run, Fitting(t.port.screen, t.port.grid, run), t.cursor)
  {
    var s, g, u := t.port.screen, t.port.grid, Written(t, k, run, baseline);
    var n := Fitting(s, g, run);
    var ink, d := RunInk(k, g.cellWidth, run, n, s.look), Said(u);
    assert d == Displayed(WriteCells(g, run, n), WriteCursor(g, run, n, t.cursor));
    TextIs(s, g, run, baseline, ink);
    forall x, y | Visible(s, x, y)
      ensures True(u.port.screen, d, k, x, y) <==> (In(RunBounds(g, run, n), x, y) ==> Draws(d, k, ink, x, y))
    {
      TextLook(s, g, run, baseline, ink, x, y);
      if !In(RunBounds(g, run, n), x, y) {
        assert True(s, Said(t), k, x, y);
        UnwrittenAt(g, run, n, t.cursor, x, y);
        SameThere(s, u.port.screen, Said(t), d, k, x, y);
      }
    }
  }

  /** Place i of the cell m cells from an edge on. */
  lemma CellOf(a: int, w: int, m: int, i: int)
    requires w > 0 && a % w == 0 && 0 <= i < w
    ensures (a + m * w + i) / w == a / w + m && (a + m * w + i) % w == i
  {
    var c := a / w;
    assert a == c * w;
    Distribute(c, m, w);
    DivMod(a + m * w + i, w, c + m, i);
  }

  /** A pixel of a run on whole cells, by its cell and its place in it. */
  lemma PlaceOf(g: Grid, t: Run, n: nat, m: int, i: int, j: int)
    requires g.cellWidth > 0 && g.cellHeight > 0 && OnCells(g, t) && Place(g.cellWidth, g.cellHeight, i, j)
    ensures var x, y := t.x + m * g.cellWidth + i, t.top + j;
            && x / g.cellWidth == t.x / g.cellWidth + m && x % g.cellWidth == i
            && y / g.cellHeight == t.top / g.cellHeight && y % g.cellHeight == j
            && (In(RunBounds(g, t, n), x, y) <==> 0 <= m < n)
  {
    CellOf(t.x, g.cellWidth, m, i);
    CellOf(t.top, g.cellHeight, 0, j);
    RunBox(g, t, n, t.x + m * g.cellWidth + i, t.top + j);
  }

  /** Text with its own background is what its cells say exactly where the other
      characters make no difference. */
  lemma CleanDraws(s: Screen, g: Grid, k: Face, t: Run, n: nat, cursor: Option<(int, int)>, m: int, i: int, j: int)
    requires g.cellWidth > 0 && g.cellHeight > 0 && OnCells(g, t) && t.opaqueBg
    requires Place(g.cellWidth, g.cellHeight, i, j) && 0 <= m < n
    ensures var d := Displayed(WriteCells(g, t, n), WriteCursor(g, t, n, cursor));
            Draws(d, k, RunInk(k, g.cellWidth, t, n, s.look), t.x + m * g.cellWidth + i, t.top + j)
            <==> (Covers(g, t.x / g.cellWidth + m, t.top / g.cellHeight) ==> Clean(k, g.cellWidth, t, n, m, i, j))
  {
    var x, y, c, r := t.x + m * g.cellWidth + i, t.top + j, t.x / g.cellWidth + m, t.top / g.cellHeight;
    PlaceOf(g, t, n, m, i, j);
    RunBox(g, t, n, x, y);
    WrittenAt(g, t, n, c, r);
    DisplayedAt(WriteCells(g, t, n), WriteCursor(g, t, n, cursor), c, r);
    assert RunInk(k, g.cellWidth, t, n, s.look)(x, y) == Together(k, g.cellWidth, t, n, m, i, j);
    assert Glyph(k, RunCell(g.at(c, r), t, m), i, j) == Alone(k, t, m, i, j);
  }

  lemma ApartIfDrawn(s: Screen, g: Grid, k: Face, t: Run, n: nat, cursor: Option<(int, int)>, m: int, i: int, j: int)
    requires g.cellWidth > 0 && g.cellHeight > 0 && OnCells(g, t) && t.opaqueBg && Overdraws(s, g, k, t, n, cursor)
    requires 0 <= m < n && Place(g.cellWidth, g.cellHeight, i, j) && InSight(s, g, t, m, i, j)
    ensures Clean(k, g.cellWidth, t, n, m, i, j)
  {
    PlaceOf(g, t, n, m, i, j);
    var d := Displayed(WriteCells(g, t, n), WriteCursor(g, t, n, cursor));
    assert Draws(d, k, RunInk(k, g.cellWidth, t, n, s.look), t.x + m * g.cellWidth + i, t.top + j);
    CleanDraws(s, g, k, t, n, cursor, m, i, j);
  }

  /** Every pixel of the run is some place of some cell of it. */
  lemma PlaceIn(g: Grid, t: Run, n: nat, x: int, y: int) returns (m: int, i: int, j: int)
    requires g.cellWidth > 0 && g.cellHeight > 0 && OnCells(g, t) && In(RunBounds(g, t, n), x, y)
    ensures x == t.x + m * g.cellWidth + i && y == t.top + j && Place(g.cellWidth, g.cellHeight, i, j) && 0 <= m < n
  {
    m, i, j := (x - t.x) / g.cellWidth, (x - t.x) % g.cellWidth, y - t.top;
    assert x - t.x == m * g.cellWidth + i;
    PlaceOf(g, t, n, m, i, j);
  }

  lemma DrawnIfApart(s: Screen, g: Grid, k: Face, t: Run, n: nat, cursor: Option<(int, int)>, x: int, y: int)
    requires g.cellWidth > 0 && g.cellHeight > 0 && OnCells(g, t) && t.opaqueBg && Apart(s, g, k, t, n)
    requires Visible(s, x, y) && In(RunBounds(g, t, n), x, y)
    ensures var d := Displayed(WriteCells(g, t, n), WriteCursor(g, t, n, cursor));
            Draws(d, k, RunInk(k, g.cellWidth, t, n, s.look), x, y)
  {
    var m, i, j := PlaceIn(g, t, n, x, y);
    assert InSight(s, g, t, m, i, j) ==> Clean(k, g.cellWidth, t, n, m, i, j);
    CleanDraws(s, g, k, t, n, cursor, m, i, j);
  }

  lemma ApartIff(s: Screen, g: Grid, k: Face, t: Run, n: nat, cursor: Option<(int, int)>)
    requires g.cellWidth > 0 && g.cellHeight > 0 && OnCells(g, t) && t.opaqueBg
    ensures Overdraws(s, g, k, t, n, cursor) <==> Apart(s, g, k, t, n)
  {
    var d := Displayed(WriteCells(g, t, n), WriteCursor(g, t, n, cursor));
    if Overdraws(s, g, k, t, n, cursor) {
      forall m: int, i: int, j: int | 0 <= m < n && Place(g.cellWidth, g.cellHeight, i, j) && InSight(s, g, t, m, i, j)
        ensures Clean(k, g.cellWidth, t, n, m, i, j)
      {
        ApartIfDrawn(s, g, k, t, n, cursor, m, i, j);
      }
    }
    if Apart(s, g, k, t, n) {
      forall x, y | Visible(s, x, y) && In(RunBounds(g, t, n), x, y)
        ensures Draws(d, k, RunInk(k, g.cellWidth, t, n, s.look), x, y)
      {
        DrawnIfApart(s, g, k, t, n, cursor, x, y);
      }
    }
  }

  // ------------------------------------------------------------------
  // Fills and the cursor
  // ------------------------------------------------------------------

  lemma DivLe(x: int, y: int, w: int)
    requires w > 0 && x <= y
    ensures x / w <= y / w
  {
    var p, q := x / w, y / w;
    assert x == p * w + x % w && y == q * w + y % w;
    if q < p { MulLe(q + 1, p, w); Distribute(q, 1, w); }
  }

  /** A pixel of a box lies in a cell the box touches. */
  lemma InTouched(g: Grid, b: Box, x: int, y: int)
    requires g.cellWidth > 0 && g.cellHeight > 0 && In(b, x, y)
    ensures In(Touched(g, b), x / g.cellWidth, y / g.cellHeight)
  {
    DivLe(b.x0, x, g.cellWidth);
    DivLe(x, b.x1, g.cellWidth);
    DivLe(b.y0, y, g.cellHeight);
    DivLe(y, b.y1, g.cellHeight);
  }

  lemma WholeSpan(lo: int, hi: int, x: int, w: int)
    requires w > 0 && (lo + w - 1) / w <= x / w <= (hi + 1) / w - 1
    ensures lo <= x <= hi
  {
    var p, q, c := (lo + w - 1) / w, (hi + 1) / w, x / w;
    assert lo + w - 1 == p * w + (lo + w - 1) % w && hi + 1 == q * w + (hi + 1) % w && x == c * w + x % w;
    MulLe(p, c, w);
    MulLe(c + 1, q, w);
    Distribute(c, 1, w);
  }

  /** The pixels of a cell the box covers whole lie in the box. */
  lemma InWhole(g: Grid, b: Box, x: int, y: int)
    requires g.cellWidth > 0 && g.cellHeight > 0 && In(Whole(g, b), x / g.cellWidth, y / g.cellHeight)
    ensures In(b, x, y)
  {
    WholeSpan(b.x0, b.x1, x, g.cellWidth);
    WholeSpan(b.y0, b.y1, y, g.cellHeight);
  }

  lemma FilledCellAt(g: Grid, b: Box, pen: int, style: int, c: int, r: int)
    requires g.cellWidth > 0 && g.cellHeight > 0
    ensures FillCells(g, b, pen, style).at(c, r)
         == if In(Whole(g, b), c, r) then Blank(pen, g.at(c, r).fg, style)
            else if In(Touched(g, b), c, r) then g.at(c, r).(valid := false) else g.at(c, r)
  {
  }

  lemma FillTrueAt(s: Screen, g: Grid, k: Face, b: Box, pen: int, style: int, cursor: Option<(int, int)>, x: int,
                   y: int)
    requires g.cellWidth > 0 && g.cellHeight > 0 && BlanksAreClear(k)
    requires !s.deferred && Visible(s, x, y) && True(s, Displayed(g, cursor), k, x, y)
    ensures var c := Clip(s.width, s.height, b);
            True(Draw(s, b, Plain(k.pen(pen))), Displayed(FillCells(g, c, pen, style), Off(cursor, Touched(g, c))), k,
                 x, y)
            <==> FillAgreesAt(g, k, c, pen, style, x, y)
  {
    var d, c, r := Clip(s.width, s.height, b), x / g.cellWidth, y / g.cellHeight;
    DrawnLook(s, b, Plain(k.pen(pen)), x, y);
    assert Plain(k.pen(pen))(x, y) == k.pen(pen);
    FilledCellAt(g, d, pen, style, c, r);
    DisplayedAt(g, cursor, c, r);
    DisplayedAt(FillCells(g, d, pen, style), Off(cursor, Touched(g, d)), c, r);
    assert In(d, x, y) <==> In(b, x, y);
    if In(Whole(g, d), c, r) { InWhole(g, d, x, y); }
    if In(d, x, y) { InTouched(g, d, x, y); }
    BlankShows(k, pen, g.at(c, r).fg, style, x % g.cellWidth, y % g.cellHeight);
  }

  lemma FillTrue(t: Terminal, k: Face, b: Box, pen: int, style: int)
    requires Inv(t, k) && !t.stale && !t.port.screen.deferred && BlanksAreClear(k)
    requires !Empty(Clip(t.port.screen.width, t.port.screen.height, b))
    ensures Truthful(Filling(t, k, b, pen, style).port.screen, Said(Filling(t, k, b, pen, style)), k)
       <==> FillAgrees(t.port.screen, t.port.grid, k, b, pen, style)
  {
    var s, g, u := t.port.screen, t.port.grid, Filling(t, k, b, pen, style);
    forall x, y | Visible(s, x, y)
      ensures True(u.port.screen, Said(u), k, x, y)
         <==> FillAgreesAt(g, k, Clip(s.width, s.height, b), pen, style, x, y)
    {
      assert True(s, Said(t), k, x, y);
      FillTrueAt(s, g, k, b, pen, style, t.cursor, x, y);
    }
  }

  /** A box that is one cell holds that cell's pixels. */
  lemma OneCellBox(g: Grid, b: Box, x: int, y: int)
    requires g.cellWidth > 0 && g.cellHeight > 0 && OneCell(g, b)
    ensures In(b, x, y) <==> x / g.cellWidth == b.x0 / g.cellWidth && y / g.cellHeight == b.y0 / g.cellHeight
  {
    var c, r := b.x0 / g.cellWidth, b.y0 / g.cellHeight;
    assert b.x0 == c * g.cellWidth && b.y0 == r * g.cellHeight;
    InCell(x, g.cellWidth, c);
    InCell(y, g.cellHeight, r);
  }

  /** The cursor drawn or taken off: its own cell is as the grid says; another that
      had it must not show it. */
  lemma CursorTrueAt(s: Screen, g: Grid, k: Face, b: Box, was: Option<(int, int)>, now: Option<(int, int)>, x: int,
                     y: int)
    requires g.cellWidth > 0 && g.cellHeight > 0 && !s.deferred
    requires Visible(s, x, y) && True(s, Displayed(g, was), k, x, y)
    requires OneCell(g, Clip(s.width, s.height, b))
    requires var c := Clip(s.width, s.height, b);
             var at := (c.x0 / g.cellWidth, c.y0 / g.cellHeight);
             now == if was == Some(at) then None else Some(at)
    ensures var c := Clip(s.width, s.height, b);
            var d := Displayed(g, now);
            True(Draw(s, b, CellInk(d, k, c.x0 / g.cellWidth, c.y0 / g.cellHeight)), d, k, x, y)
            <==> (!In(c, x, y) ==> Unflipped(g, k, was, x, y))
  {
    var e, d := Clip(s.width, s.height, b), Displayed(g, now);
    var c, r := e.x0 / g.cellWidth, e.y0 / g.cellHeight;
    DrawnLook(s, b, CellInk(d, k, c, r), x, y);
    OneCellBox(g, e, x, y);
    assert In(e, x, y) <==> In(b, x, y);
    assert CellInk(d, k, c, r)(x, y) == Glyph(k, d.at(c, r), x % g.cellWidth, y % g.cellHeight);
    DisplayedAt(g, was, x / g.cellWidth, y / g.cellHeight);
    DisplayedAt(g, now, x / g.cellWidth, y / g.cellHeight);
  }

  lemma ComplementLook(s: Screen, k: Face, b: Box, x: int, y: int)
    requires !s.deferred && Visible(s, x, y)
    ensures Draw(s, b, (x: int, y: int) => k.complement(s.look(x, y))).look(x, y)
         == if In(b, x, y) then k.complement(s.look(x, y)) else s.look(x, y)
  {
    DrawnLook(s, b, (x: int, y: int) => k.complement(s.look(x, y)), x, y);
  }

  lemma CursorTrue(t: Terminal, k: Face, b: Box)
    requires Inv(t, k) && !t.stale && !t.port.screen.deferred
    requires OneCell(t.port.grid, Clip(t.port.screen.width, t.port.screen.height, b))
    ensures Truthful(Complemented(t, k, b).port.screen, Said(Complemented(t, k, b)), k)
       <==> ComplementAgrees(t.port.screen, t.port.grid, k, b, t.cursor)
  {
    var s, g, u := t.port.screen, t.port.grid, Complemented(t, k, b);
    var c := Clip(s.width, s.height, b);
    forall x, y | Visible(s, x, y)
      ensures True(u.port.screen, Said(u), k, x, y) <==> (!In(c, x, y) ==> Unflipped(g, k, t.cursor, x, y))
    {
      assert True(s, Said(t), k, x, y);
      CursorTrueAt(s, g, k, b, t.cursor, u.cursor, x, y);
    }
  }

  lemma ComplementTrue(t: Terminal, k: Face, b: Box)
    requires Inv(t, k) && !t.stale && !t.port.screen.deferred
    requires var c := Clip(t.port.screen.width, t.port.screen.height, b);
             !Empty(c) && !OneCell(t.port.grid, c)
    ensures Truthful(Complemented(t, k, b).port.screen, Said(Complemented(t, k, b)), k)
       <==> ComplementAgrees(t.port.screen, t.port.grid, k, b, t.cursor)
  {
    var s, g, u := t.port.screen, t.port.grid, Complemented(t, k, b);
    var c := Clip(s.width, s.height, b);
    forall x, y | Visible(s, x, y)
      ensures True(u.port.screen, Said(u), k, x, y)
         <==> (In(c, x, y) && Known(g, x, y) ==> k.complement(s.look(x, y)) == s.look(x, y))
    {
      assert True(s, Said(t), k, x, y);
      ComplementLook(s, k, b, x, y);
      DisplayedAt(g, t.cursor, x / g.cellWidth, y / g.cellHeight);
    }
  }

  // ------------------------------------------------------------------
  // Scrolls
  // ------------------------------------------------------------------

  lemma ScrollLook(s: Screen, dx: int, dy: int, b: Box, fill: Pixel, x: int, y: int)
    requires !s.deferred && !(dx == 0 && dy == 0) && !Empty(Clip(s.width, s.height, b))
    ensures Scroll(s, dx, dy, b, fill).look(x, y) == Scrolled(s.look, Clip(s.width, s.height, b), dx, dy, fill)(x, y)
  {
  }

  lemma InvalidAt(g: Grid, b: Box, c: int, r: int)
    requires g.cellWidth > 0 && g.cellHeight > 0
    ensures Invalidate(g, b).at(c, r) == if In(Touched(g, b), c, r) then g.at(c, r).(valid := false) else g.at(c, r)
  {
  }

  /** A scroll the grid cannot follow: every cell it touches is given up. */
  lemma GivenUpTrue(s: Screen, g: Grid, k: Face, b: Box, dx: int, dy: int, fill: Pixel, u: Screen,
                    cursor: Option<(int, int)>, x: int, y: int)
    requires g.cellWidth > 0 && g.cellHeight > 0 && True(s, Displayed(g, cursor), k, x, y)
    requires u.look(x, y) == Scrolled(s.look, b, dx, dy, fill)(x, y)
    ensures True(u, Displayed(Invalidate(g, b), Off(cursor, Touched(g, b))), k, x, y)
  {
    var c, r := x / g.cellWidth, y / g.cellHeight;
    ScrolledAt(s.look, b, dx, dy, fill, x, y);
    InvalidAt(g, b, c, r);
    DisplayedAt(g, cursor, c, r);
    DisplayedAt(Invalidate(g, b), Off(cursor, Touched(g, b)), c, r);
    if In(b, x, y) { InTouched(g, b, x, y); }
  }

  lemma ShiftedAt(g: Grid, cells: Box, i: int, j: int, blank: Cell, c: int, r: int)
    ensures ShiftCells(g, cells, i, j, blank).at(c, r)
         == if !In(cells, c, r) then g.at(c, r) else if In(cells, c + i, r + j) then g.at(c + i, r + j) else blank
  {
  }

  /** The cell a followed scroll leaves at x, y: the one that was there, the one
      its pixel comes from, or a blank. */
  lemma ScrolledCell(g: Grid, b: Box, dx: int, dy: int, pen: int, style: int, x: int, y: int)
    requires Scrollable(g, b, dx, dy)
    ensures ScrollCells(g, b, dx, dy, pen, style).at(x / g.cellWidth, y / g.cellHeight)
         == if !In(b, x, y) then g.at(x / g.cellWidth, y / g.cellHeight)
            else if In(b, x + dx, y + dy) then g.at((x + dx) / g.cellWidth, (y + dy) / g.cellHeight)
            else Blank(pen, 1, style)
    ensures (x + dx) % g.cellWidth == x % g.cellWidth && (y + dy) % g.cellHeight == y % g.cellHeight
    ensures In(b, x, y) ==> Covers(g, x / g.cellWidth, y / g.cellHeight)
  {
    BoxOfCells(g, b, x, y);
    BoxOfCells(g, b, x + dx, y + dy);
    WholeCells(x, g.cellWidth, dx);
    WholeCells(y, g.cellHeight, dy);
    ShiftedAt(g, CellsOf(g, b), dx / g.cellWidth, dy / g.cellHeight, Blank(pen, 1, style),
              x / g.cellWidth, y / g.cellHeight);
    EdgeBelow(b.x0, g.cellWidth, 0);
    EdgeBelow(b.y0, g.cellHeight, 0);
  }

  /** A cell that stays is right without the cursor exactly where the cursor did not show. */
  lemma StaysTrue(s: Screen, g: Grid, k: Face, cursor: Option<(int, int)>, x: int, y: int)
    requires g.cellWidth > 0 && g.cellHeight > 0 && True(s, Displayed(g, cursor), k, x, y)
    ensures (Known(g, x, y) ==> s.look(x, y) == Shows(g, k, x, y)) <==> Unflipped(g, k, cursor, x, y)
  {
    DisplayedAt(g, cursor, x / g.cellWidth, y / g.cellHeight);
  }

  /** A scroll the grid follows: pixel and cell come from the same place, without
      the cursor. */
  lemma FollowedTrue(s: Screen, g: Grid, k: Face, b: Box, dx: int, dy: int, pen: int, style: int, u: Screen,
                     cursor: Option<(int, int)>, x: int, y: int)
    requires Scrollable(g, b, dx, dy) && BlanksAreClear(k) && True(s, Displayed(g, cursor), k, x, y)
    requires In(b, x, y) && In(b, x + dx, y + dy) ==> True(s, Displayed(g, cursor), k, x + dx, y + dy)
    requires u.look(x, y) == Scrolled(s.look, b, dx, dy, k.pen(pen))(x, y)
    ensures True(u, Displayed(ScrollCells(g, b, dx, dy, pen, style), None), k, x, y)
       <==> ScrollAgreesAt(g, k, b, dx, dy, pen, style, cursor, x, y)
  {
    ScrolledAt(s.look, b, dx, dy, k.pen(pen), x, y);
    ScrolledCell(g, b, dx, dy, pen, style, x, y);
    DisplayedAt(ScrollCells(g, b, dx, dy, pen, style), None, x / g.cellWidth, y / g.cellHeight);
    if !In(b, x, y) {
      StaysTrue(s, g, k, cursor, x, y);
    } else if In(b, x + dx, y + dy) {
      ScrolledCell(g, b, 0, 0, pen, style, x + dx, y + dy);
      StaysTrue(s, g, k, cursor, x + dx, y + dy);
    } else {
      BlankShows(k, pen, 1, style, x % g.cellWidth, y % g.cellHeight);
    }
  }

  lemma ScrollTrue(t: Terminal, k: Face, dx: int, dy: int, b: Box, pen: int, style: int, memory: bool)
    requires Inv(t, k) && !t.stale && !t.port.screen.deferred && BlanksAreClear(k)
    requires var c := Clip(t.port.screen.width, t.port.screen.height, b);
             !(dx == 0 && dy == 0) && !Empty(c) && Followed(t.port.grid, c, dx, dy, memory)
    ensures Truthful(Scrolling(t, k, dx, dy, b, pen, style, memory).port.screen,
                     Said(Scrolling(t, k, dx, dy, b, pen, style, memory)), k)
       <==> ScrollAgrees(t.port.screen, t.port.grid, k, b, dx, dy, pen, style, t.cursor)
  {
    var s, g, u := t.port.screen, t.port.grid, Scrolling(t, k, dx, dy, b, pen, style, memory);
    var d := Clip(s.width, s.height, b);
    forall x, y | Visible(s, x, y)
      ensures True(u.port.screen, Said(u), k, x, y) <==> ScrollAgreesAt(g, k, d, dx, dy, pen, style, t.cursor, x, y)
    {
      ScrollLook(s, dx, dy, b, k.pen(pen), x, y);
      assert True(s, Said(t), k, x, y);
      assert In(d, x + dx, y + dy) ==> Visible(s, x + dx, y + dy) && True(s, Said(t), k, x + dx, y + dy);
      FollowedTrue(s, g, k, d, dx, dy, pen, style, u.port.screen, t.cursor, x, y);
    }
  }

  lemma UnfollowedTrue(t: Terminal, k: Face, dx: int, dy: int, b: Box, pen: int, style: int, memory: bool)
    requires Inv(t, k) && !t.stale && !t.port.screen.deferred
    requires var c := Clip(t.port.screen.width, t.port.screen.height, b);
             !(dx == 0 && dy == 0) && !Empty(c) && !Followed(t.port.grid, c, dx, dy, memory)
    ensures Truthful(Scrolling(t, k, dx, dy, b, pen, style, memory).port.screen,
                     Said(Scrolling(t, k, dx, dy, b, pen, style, memory)), k)
  {
    var s, g, u := t.port.screen, t.port.grid, Scrolling(t, k, dx, dy, b, pen, style, memory);
    forall x, y | Visible(s, x, y) ensures True(u.port.screen, Said(u), k, x, y) {
      ScrollLook(s, dx, dy, b, k.pen(pen), x, y);
      assert True(s, Said(t), k, x, y);
      GivenUpTrue(s, g, k, Clip(s.width, s.height, b), dx, dy, k.pen(pen), u.port.screen, t.cursor, x, y);
    }
  }

  // ------------------------------------------------------------------
  // Rendering and resizing
  // ------------------------------------------------------------------

  /** After a render every visible pixel is the grid's, valid cells and all. */
  lemma RenderTrue(s: Screen, g: Grid, k: Face, bg: Pixel)
    requires g.cellWidth > 0 && g.cellHeight > 0
    ensures Truthful(Render(s, DrawRows(Plain(bg), g, k, g.rows)), g, k)
  {
    var u := Render(s, DrawRows(Plain(bg), g, k, g.rows));
    forall x, y | Visible(u, x, y) ensures True(u, g, k, x, y) {
      RenderShowsGrid(g, k, bg, x, y);
    }
  }

  lemma ResizedAt(g: Grid, a: Ask, c: int, r: int)
    requires a.width > 0 && a.height > 0 && a.cellWidth > 0 && a.cellHeight > 0
    requires a.cellWidth == g.cellWidth && a.cellHeight == g.cellHeight
    ensures ResizeCells(g, a.width, a.height, a.cellWidth, a.cellHeight, a.fg, a.bg).at(c, r)
         == if Covers(g, c, r) then g.at(c, r) else Blank(a.bg, a.fg, FS_NORMAL)
  {
  }

  lemma BeforeEdge(x: int, n: nat, w: int, edge: nat)
    requires w > 0 && 0 <= x < edge <= n * w
    ensures 0 <= x / w < n
  {
    Edges(n, 0, w);
    EdgeBelow(x, w, n * w);
    EdgeBelow(x, w, 0);
  }

  /** Past the grid's last edge a pixel is in none of its cells. */
  lemma PastEdge(x: int, n: nat, w: int, edge: nat)
    requires w > 0 && n * w <= edge <= x
    ensures x / w >= n
  {
    Edges(n, 0, w);
    EdgeBelow(x, w, n * w);
  }

  lemma AcrossReaches(size: int, w: int)
    requires size > 0 && w > 0
    ensures size <= CellsAcross(size, w) * w
  {
    var n := size + w - 1;
    assert n == (n / w) * w + n % w;
  }

  /** A pixel of the new size lies in a cell of the new table. */
  lemma NewCovered(a: Ask, x: int, y: int)
    requires a.cellWidth > 0 && a.cellHeight > 0 && 0 <= x < a.width && 0 <= y < a.height
    ensures 0 <= x / a.cellWidth < CellsAcross(a.width, a.cellWidth)
    ensures 0 <= y / a.cellHeight < CellsAcross(a.height, a.cellHeight)
  {
    AcrossReaches(a.width, a.cellWidth);
    AcrossReaches(a.height, a.cellHeight);
    BeforeEdge(x, CellsAcross(a.width, a.cellWidth), a.cellWidth, a.width);
    BeforeEdge(y, CellsAcross(a.height, a.cellHeight), a.cellHeight, a.height);
  }

  lemma KeptLook(s: Screen, a: Ask, x: int, y: int)
    requires GoodSize(a) && !(a.width == s.width && a.height == s.height) && 0 <= x < a.width && 0 <= y < a.height
    ensures Resize(s, a.width, a.height, a.paper).look(x, y) == if Visible(s, x, y) then s.look(x, y) else a.paper
  {
    var b := All(Min(a.width, s.width), Min(a.height, s.height));
    assert In(b, x, y) <==> Visible(s, x, y);
    assert Kept(s.look, b, a.paper)(x, y) == if In(b, x, y) then s.look(x, y) else a.paper;
  }

  /** The table of the old size, because no new one could be had. */
  lemma TornTrueAt(p: Port, a: Ask, h: Host, k: Face, cursor: Option<(int, int)>, x: int, y: int)
    requires HasCells(p) && GoodSize(a) && !SameSize(p, a) && !CellsHad(a, h) && 0 <= x < a.width && 0 <= y < a.height
    requires Visible(p.screen, x, y) ==> True(p.screen, Displayed(p.grid, cursor), k, x, y)
    ensures True(Resize(p.screen, a.width, a.height, a.paper), Displayed(p.grid, cursor), k, x, y)
       <==> ResizeAgreesAt(p, a, h, k, cursor, x, y)
  {
    KeptLook(p.screen, a, x, y);
    DisplayedAt(p.grid, cursor, x / p.grid.cellWidth, y / p.grid.cellHeight);
  }

  /** The new table: the old cells, and blanks where there were none. */
  lemma HadTrueAt(p: Port, a: Ask, h: Host, k: Face, cursor: Option<(int, int)>, x: int, y: int)
    requires HasCells(p) && GoodSize(a) && !SameSize(p, a) && CellsHad(a, h) && 0 <= x < a.width && 0 <= y < a.height
    requires a.cellWidth == p.grid.cellWidth && a.cellHeight == p.grid.cellHeight
    requires Visible(p.screen, x, y) ==> True(p.screen, Displayed(p.grid, cursor), k, x, y)
    ensures var g := ResizeCells(p.grid, a.width, a.height, a.cellWidth, a.cellHeight, a.fg, a.bg);
            True(Resize(p.screen, a.width, a.height, a.paper), Displayed(g, cursor), k, x, y)
            <==> ResizeAgreesAt(p, a, h, k, cursor, x, y)
  {
    var c, r := x / a.cellWidth, y / a.cellHeight;
    KeptLook(p.screen, a, x, y);
    ResizedAt(p.grid, a, c, r);
    NewCovered(a, x, y);
    DisplayedAt(p.grid, cursor, c, r);
    DisplayedAt(ResizeCells(p.grid, a.width, a.height, a.cellWidth, a.cellHeight, a.fg, a.bg), cursor, c, r);
  }

  /** A resize in the same font that changes the console keeps a truthful grid
      truthful exactly when it agrees with the grid, whether or not the new cell
      table could be had and whatever earlier resizes left behind. */
  lemma ResizeTrue(p: Port, a: Ask, h: Host, k: Face, cursor: Option<(int, int)>)
    requires HasCells(p) && a.cellWidth == p.grid.cellWidth && a.cellHeight == p.grid.cellHeight
    requires Truthful(p.screen, Displayed(p.grid, cursor), k) && Call(p, a, h).0 != p
    ensures HasCells(Call(p, a, h).0)
    ensures Truthful(Call(p, a, h).0.screen, Displayed(Call(p, a, h).0.grid, cursor), k)
       <==> ResizeAgrees(p, a, h, k, cursor)
  {
    var q := Call(p, a, h).0;
    forall x, y | 0 <= x < a.width && 0 <= y < a.height
      ensures True(q.screen, Displayed(q.grid, cursor), k, x, y) <==> ResizeAgreesAt(p, a, h, k, cursor, x, y)
    {
      assert Visible(p.screen, x, y) ==> True(p.screen, Displayed(p.grid, cursor), k, x, y);
      if CellsHad(a, h) { HadTrueAt(p, a, h, k, cursor, x, y); } else { TornTrueAt(p, a, h, k, cursor, x, y); }
    }
  }
}
