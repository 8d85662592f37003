/** The cells as the surface keeps them: one array, row after row. */
module CellTable {
  import opened Raster
  import opened Console
  import opened CellGrid

  /** The grid with every cell of the box before column c of row r shifted. */
  ghost function Partly(g: Grid, shifted: Grid, c: int, r: int): Grid {
    g.(at := (u, v) => if v < r || (v == r && u < c) then shifted.at(u, v) else g.at(u, v))
  }

  ghost function Replaced(g: Grid, c: int, r: int, x: Cell): Grid {
    g.(at := (u, v) => if u == c && v == r then x else g.at(u, v))
  }

  ghost predicate SameCells(g: Grid, h: Grid) {
    && g.columns == h.columns && g.rows == h.rows && g.cellWidth == h.cellWidth && g.cellHeight == h.cellHeight
    && forall c, r :: Covers(g, c, r) ==> g.at(c, r) == h.at(c, r)
  }

  class Table {
    var cells: array<Cell>
    var columns: nat
    var rows: nat
    var cellWidth: int
    var cellHeight: int
    var cursorInverted: bool

    ghost predicate Holds(g: Grid)
      reads this, cells
    {
      && g.columns == columns && g.rows == rows && g.cellWidth == cellWidth && g.cellHeight == cellHeight
      && cells.Length == Rows(columns, rows)
      && HasCells(cells[..], g)
    }

    /** cell_at() for a cell of the grid. */
    method At(c: nat, r: nat, ghost g: Grid) returns (x: Cell)
      requires Holds(g) && c < columns && r < rows
      ensures x == g.at(c, r)
    {
      WordInside(columns, rows, r, c);
      x := cells[RowStart(columns, r) + c];
      assert x == Stored(cells[..], g, c, r);
    }

    method Put(c: nat, r: nat, x: Cell, ghost g: Grid, ghost h: Grid)
      requires Holds(g) && c < columns && r < rows
      requires SameCells(Replaced(g, c, r, x), h)
      modifies cells
      ensures Holds(h)
    {
      ghost var was := cells[..];
      WordInside(columns, rows, r, c);
      cells[RowStart(columns, r) + c] := x;
      PutCell(was, cells[..], g, h, c, r, x);
    }

    /** The cells of a box, row after row. */
    method Save(b: Box, ghost g: Grid) returns (saved: array<Cell>)
      requires Holds(g) && 0 <= b.x0 <= b.x1 < columns && 0 <= b.y0 <= b.y1 < rows
      ensures fresh(saved) && saved.Length == Rows(b.x1 - b.x0 + 1, b.y1 - b.y0 + 1)
      ensures Saves(saved[..], b, g, b.y1 - b.y0 + 1, 0)
    {
      var wide, high := b.x1 - b.x0 + 1, b.y1 - b.y0 + 1;
      saved := new Cell[RowStart(wide, high)](_ => Blank(0, 0, 0));
      var r := 0;
      while r < high
        invariant r <= high && fresh(saved) && saved.Length == Rows(wide, high)
        invariant Saves(saved[..], b, g, r, 0)
      {
        var c := 0;
        while c < wide
          invariant c <= wide && saved.Length == Rows(wide, high)
          invariant Saves(saved[..], b, g, r, c)
        {
          var x := At(b.x0 + c, b.y0 + r, g);
          ghost var was := saved[..];
          WordInside(wide, high, r, c);
          saved[RowStart(wide, r) + c] := x;
          SaveNext(was, saved[..], b, g, r, c, x);
          c := c + 1;
        }
        SaveRow(saved[..], b, g, r);
        r := r + 1;
      }
    }

    /** cell_scroll_box(); memory is whether the copy could be made. */
    method ScrollBox(b: Box, dx: int, dy: int, pen: int, style: int, memory: bool, ghost g: Grid) returns (ok: bool)
      requires Holds(g) && 0 <= b.x0 && 0 <= b.y0
      modifies this`cursorInverted, cells
      ensures ok <==> memory && Scrollable(g, b, dx, dy)
      ensures Holds(if ok then ScrollCells(g, b, dx, dy, pen, style) else g)
      ensures cursorInverted == (old(cursorInverted) && !ok)
    {
      if !memory || cellWidth <= 0 || cellHeight <= 0 || b.x0 % cellWidth != 0 || b.y0 % cellHeight != 0
        || (b.x1 + 1) % cellWidth != 0 || (b.y1 + 1) % cellHeight != 0 || dx % cellWidth != 0 || dy % cellHeight != 0 {
        return false;
      }
      var box := Box(b.x0 / cellWidth, b.y0 / cellHeight, (b.x1 + 1) / cellWidth - 1, (b.y1 + 1) / cellHeight - 1);
      if Empty(box) || box.x1 >= columns || box.y1 >= rows { return false; }
      EdgeBelow(b.x0, cellWidth, 0);
      EdgeBelow(b.y0, cellHeight, 0);
      var saved := Save(box, g);
      cursorInverted := false;
      ShiftFrom(saved, box, dx / cellWidth, dy / cellHeight, Blank(pen, 1, style), g);
      return true;
    }

    method ShiftFrom(saved: array<Cell>, b: Box, i: int, j: int, blank: Cell, ghost g: Grid)
      requires Holds(g) && 0 <= b.x0 <= b.x1 < columns && 0 <= b.y0 <= b.y1 < rows && saved != cells
      requires saved.Length == Rows(b.x1 - b.x0 + 1, b.y1 - b.y0 + 1) && Saves(saved[..], b, g, b.y1 - b.y0 + 1, 0)
      modifies cells
      ensures Holds(ShiftCells(g, b, i, j, blank))
    {
      ghost var h := ShiftCells(g, b, i, j, blank);
      StartPartly(g, b, i, j, blank);
      HoldsSame(g, Partly(g, h, b.x0, b.y0));
      var r := b.y0;
      while r <= b.y1
        invariant b.y0 <= r <= b.y1 + 1 && Holds(Partly(g, h, b.x0, r))
      {
        ShiftRow(saved, b, i, j, blank, r, g);
        r := r + 1;
      }
      EndPartly(g, b, i, j, blank);
      HoldsSame(Partly(g, h, b.x0, r), h);
    }

    method ShiftRow(saved: array<Cell>, b: Box, i: int, j: int, blank: Cell, r: nat, ghost g: Grid)
      requires 0 <= b.x0 <= b.x1 < columns && 0 <= b.y0 <= r <= b.y1 < rows && saved != cells
      requires saved.Length == Rows(b.x1 - b.x0 + 1, b.y1 - b.y0 + 1) && Saves(saved[..], b, g, b.y1 - b.y0 + 1, 0)
      requires Holds(Partly(g, ShiftCells(g, b, i, j, blank), b.x0, r))
      modifies cells
      ensures Holds(Partly(g, ShiftCells(g, b, i, j, blank), b.x0, r + 1))
    {
      ghost var h := ShiftCells(g, b, i, j, blank);
      var wide := b.x1 - b.x0 + 1;
      var c := b.x0;
      while c <= b.x1
        invariant b.x0 <= c <= b.x1 + 1 && Holds(Partly(g, h, c, r))
      {
        var x := blank;
        if b.x0 <= c + i <= b.x1 && b.y0 <= r + j <= b.y1 {
          WordInside(wide, b.y1 - b.y0 + 1, r + j - b.y0, c + i - b.x0);
          x := saved[RowStart(wide, r + j - b.y0) + (c + i - b.x0)];
          assert x == SavedAt(saved[..], b, c + i - b.x0, r + j - b.y0);
        }
        ShiftedCell(g, b, i, j, blank, c, r);
        assert x == h.at(c, r);
        PartlyNext(g, h, c, r);
        Put(c, r, x, Partly(g, h, c, r), Partly(g, h, c + 1, r));
        c := c + 1;
      }
      PartlyRow(g, b, i, j, blank, r);
      HoldsSame(Partly(g, h, c, r), Partly(g, h, b.x0, r + 1));
    }

    /** cell_cache_resize(); memory is whether the new table could be had. */
    method Resize(width: nat, height: nat, newWidth: int, newHeight: int, fg: int, bg: int, memory: bool, ghost g: Grid)
      returns (ok: bool)
      requires Holds(g)
      modifies this
      ensures ok <==> newWidth > 0 && newHeight > 0 && memory
      ensures Holds(if ok then ResizeCells(g, width, height, newWidth, newHeight, fg, bg) else g)
    {
      if newWidth <= 0 || newHeight <= 0 || !memory { return false; }
      var newColumns, newRows := CellsAcross(width, newWidth), CellsAcross(height, newHeight);
      ghost var h := ResizeCells(g, width, height, newWidth, newHeight, fg, bg);
      ghost var start := h.(at := (c, r) => Blank(bg, fg, FS_NORMAL));
      var next := new Cell[RowStart(newColumns, newRows)](_ => Blank(bg, fg, FS_NORMAL));
      AllBlank(next[..], start, Blank(bg, fg, FS_NORMAL));
      if cellWidth == newWidth && cellHeight == newHeight {
        CopyOver(next, newColumns, newRows, g, start, h);
      } else {
        SameStored(next[..], start, h);
      }
      cells, columns, rows, cellWidth, cellHeight := next, newColumns, newRows, newWidth, newHeight;
      return true;
    }

    /** The cells both tables have, row by row. */
    method CopyOver(next: array<Cell>, newColumns: nat, newRows: nat, ghost g: Grid, ghost start: Grid, ghost h: Grid)
      requires Holds(g) && next != cells && next.Length == Rows(newColumns, newRows) && HasCells(next[..], start)
      requires SameShape(start, h) && h.columns == newColumns && h.rows == newRows
      requires forall c, r :: Covers(h, c, r) ==> h.at(c, r) == if Covers(g, c, r) then g.at(c, r) else start.at(c, r)
      modifies next
      ensures HasCells(next[..], h)
    {
      var copyColumns := if columns < newColumns then columns else newColumns;
      var copyRows := if rows < newRows then rows else newRows;
      FirstPartly(start, h);
      SameStored(next[..], start, Partly(start, h, 0, 0));
      var r := 0;
      while r < copyRows
        invariant r <= copyRows && HasCells(next[..], Partly(start, h, 0, r))
      {
        CopyRow(next, newColumns, newRows, copyColumns, r, g, start, h);
        r := r + 1;
      }
      LastPartly(g, start, h, copyRows);
      SameStored(next[..], Partly(start, h, 0, copyRows), h);
    }

    method CopyRow(next: array<Cell>, newColumns: nat, newRows: nat, copyColumns: nat, r: nat, ghost g: Grid,
                   ghost start: Grid, ghost h: Grid)
      requires Holds(g) && next != cells && next.Length == Rows(newColumns, newRows) && r < rows && r < newRows
      requires copyColumns == if columns < newColumns then columns else newColumns
      requires SameShape(start, h) && h.columns == newColumns && h.rows == newRows
      requires forall c, v :: Covers(h, c, v) ==> h.at(c, v) == if Covers(g, c, v) then g.at(c, v) else start.at(c, v)
      requires HasCells(next[..], Partly(start, h, 0, r))
      modifies next
      ensures HasCells(next[..], Partly(start, h, 0, r + 1))
    {
      var c := 0;
      while c < copyColumns
        invariant c <= copyColumns && HasCells(next[..], Partly(start, h, c, r))
      {
        var x := At(c, r, g);
        ghost var was := next[..];
        WordInside(newColumns, newRows, r, c);
        next[RowStart(newColumns, r) + c] := x;
        assert Covers(h, c, r);
        PartlyNext(start, h, c, r);
        PutCell(was, next[..], Partly(start, h, c, r), Partly(start, h, c + 1, r), c, r, x);
        c := c + 1;
      }
      RowPartly(g, start, h, c, r);
      SameStored(next[..], Partly(start, h, c, r), Partly(start, h, 0, r + 1));
    }

    lemma HoldsSame(g: Grid, h: Grid)
      requires Holds(g) && SameCells(g, h)
      ensures Holds(h)
    {
      forall c: nat, r: nat {:trigger Stored(cells[..], h, c, r)} | c < h.columns && r < h.rows
        ensures Stored(cells[..], h, c, r) == h.at(c, r)
      {
        assert Stored(cells[..], g, c, r) == g.at(c, r);
        assert Covers(g, c, r);
      }
    }
  }

  function RowStart(columns: nat, r: nat): (start: nat)
    ensures start == Rows(columns, r)
  {
    RowsProduct(columns, r);
    r * columns
  }

  /** The cell stored for column c, row r. */
  ghost function Stored(cells: seq<Cell>, g: Grid, c: nat, r: nat): Cell {
    if Word(g.columns, r, c) < |cells| then cells[Word(g.columns, r, c)] else Blank(0, 0, 0)
  }

  ghost predicate HasCells(cells: seq<Cell>, g: Grid) {
    forall c: nat, r: nat {:trigger Stored(cells, g, c, r)} :: c < g.columns && r < g.rows ==>
      Stored(cells, g, c, r) == g.at(c, r)
  }

  lemma PutCell(was: seq<Cell>, now: seq<Cell>, g: Grid, h: Grid, c: nat, r: nat, x: Cell)
    requires |was| == Rows(g.columns, g.rows) && c < g.columns && r < g.rows && Word(g.columns, r, c) < |was|
    requires HasCells(was, g) && now == was[Word(g.columns, r, c) := x]
    requires SameCells(Replaced(g, c, r, x), h)
    ensures HasCells(now, h)
  {
    forall u: nat, v: nat {:trigger Stored(now, h, u, v)} | u < h.columns && v < h.rows
      ensures Stored(now, h, u, v) == h.at(u, v)
    {
      WordInside(g.columns, g.rows, v, u);
      if Word(g.columns, v, u) == Word(g.columns, r, c) { WordUnique(g.columns, v, u, r, c); }
      assert Stored(was, g, u, v) == g.at(u, v);
      assert Covers(g, u, v);
    }
  }

  // ------------------------------------------------------------------
  // The saved box
  // ------------------------------------------------------------------

  /** What was saved for column c, row r of the box. */
  ghost function SavedAt(saved: seq<Cell>, b: Box, c: nat, r: nat): Cell {
    if b.x0 <= b.x1 && Word(b.x1 - b.x0 + 1, r, c) < |saved| then saved[Word(b.x1 - b.x0 + 1, r, c)] else Blank(0, 0, 0)
  }

  /** The rows before row r, and row r up to column c, are saved. */
  ghost predicate Saves(saved: seq<Cell>, b: Box, g: Grid, r: nat, c: nat) {
    forall u: nat, v: nat {:trigger SavedAt(saved, b, u, v)} :: u <= b.x1 - b.x0 && (v < r || (v == r && u < c)) ==>
      SavedAt(saved, b, u, v) == g.at(b.x0 + u, b.y0 + v)
  }

  lemma SaveNext(was: seq<Cell>, now: seq<Cell>, b: Box, g: Grid, r: nat, c: nat, x: Cell)
    requires b.x0 <= b.x1 && c <= b.x1 - b.x0 && Word(b.x1 - b.x0 + 1, r, c) < |was| && x == g.at(b.x0 + c, b.y0 + r)
    requires Saves(was, b, g, r, c) && now == was[Word(b.x1 - b.x0 + 1, r, c) := x]
    ensures Saves(now, b, g, r, c + 1)
  {
    var wide := b.x1 - b.x0 + 1;
    forall u: nat, v: nat {:trigger SavedAt(now, b, u, v)} | u <= b.x1 - b.x0 && (v < r || (v == r && u < c + 1))
      ensures SavedAt(now, b, u, v) == g.at(b.x0 + u, b.y0 + v)
    {
      if Word(wide, v, u) == Word(wide, r, c) {
        WordUnique(wide, v, u, r, c);
      } else {
        assert SavedAt(was, b, u, v) == g.at(b.x0 + u, b.y0 + v);
      }
    }
  }

  lemma SaveRow(saved: seq<Cell>, b: Box, g: Grid, r: nat)
    requires b.x0 <= b.x1 && Saves(saved, b, g, r, b.x1 - b.x0 + 1)
    ensures Saves(saved, b, g, r + 1, 0)
  {
  }

  // ------------------------------------------------------------------
  // One cell after another
  // ------------------------------------------------------------------

  lemma ShiftedCell(g: Grid, b: Box, i: int, j: int, blank: Cell, c: int, r: int)
    ensures ShiftCells(g, b, i, j, blank).at(c, r)
         == if !In(b, c, r) then g.at(c, r) else if In(b, c + i, r + j) then g.at(c + i, r + j) else blank
  {
  }

  lemma PartlyAt(g: Grid, h: Grid, c: int, r: int, u: int, v: int)
    ensures Partly(g, h, c, r).at(u, v) == if v < r || (v == r && u < c) then h.at(u, v) else g.at(u, v)
  {
  }

  lemma StartPartly(g: Grid, b: Box, i: int, j: int, blank: Cell)
    ensures SameCells(g, Partly(g, ShiftCells(g, b, i, j, blank), b.x0, b.y0))
  {
    var h := ShiftCells(g, b, i, j, blank);
    forall c, r | Covers(g, c, r) ensures g.at(c, r) == Partly(g, h, b.x0, b.y0).at(c, r) {
      PartlyAt(g, h, b.x0, b.y0, c, r);
      ShiftedCell(g, b, i, j, blank, c, r);
    }
  }

  lemma EndPartly(g: Grid, b: Box, i: int, j: int, blank: Cell)
    ensures SameCells(Partly(g, ShiftCells(g, b, i, j, blank), b.x0, b.y1 + 1), ShiftCells(g, b, i, j, blank))
  {
    var h := ShiftCells(g, b, i, j, blank);
    var p := Partly(g, h, b.x0, b.y1 + 1);
    forall c, r | Covers(p, c, r) ensures p.at(c, r) == h.at(c, r) {
      PartlyAt(g, h, b.x0, b.y1 + 1, c, r);
      ShiftedCell(g, b, i, j, blank, c, r);
    }
  }

  lemma PartlyNext(g: Grid, h: Grid, c: int, r: int)
    ensures SameCells(Replaced(Partly(g, h, c, r), c, r, h.at(c, r)), Partly(g, h, c + 1, r))
  {
    var p, q := Partly(g, h, c, r), Partly(g, h, c + 1, r);
    var a := Replaced(p, c, r, h.at(c, r));
    forall u, v | Covers(a, u, v) ensures a.at(u, v) == q.at(u, v) {
      assert a.at(u, v) == if u == c && v == r then h.at(c, r) else p.at(u, v);
      PartlyAt(g, h, c, r, u, v);
      PartlyAt(g, h, c + 1, r, u, v);
    }
  }

  lemma PartlyRow(g: Grid, b: Box, i: int, j: int, blank: Cell, r: int)
    ensures SameCells(Partly(g, ShiftCells(g, b, i, j, blank), b.x1 + 1, r),
                      Partly(g, ShiftCells(g, b, i, j, blank), b.x0, r + 1))
  {
    var h := ShiftCells(g, b, i, j, blank);
    var p, q := Partly(g, h, b.x1 + 1, r), Partly(g, h, b.x0, r + 1);
    forall u, v | Covers(p, u, v) ensures p.at(u, v) == q.at(u, v) {
      PartlyAt(g, h, b.x1 + 1, r, u, v);
      PartlyAt(g, h, b.x0, r + 1, u, v);
      ShiftedCell(g, b, i, j, blank, u, v);
    }
  }

  // ------------------------------------------------------------------
  // One row of a copy after another
  // ------------------------------------------------------------------

  ghost predicate SameShape(g: Grid, h: Grid) {
    g.columns == h.columns && g.rows == h.rows && g.cellWidth == h.cellWidth && g.cellHeight == h.cellHeight
  }

  lemma AllBlank(cells: seq<Cell>, g: Grid, blank: Cell)
    requires |cells| == Rows(g.columns, g.rows) && forall i :: 0 <= i < |cells| ==> cells[i] == blank
    requires forall c, r :: Covers(g, c, r) ==> g.at(c, r) == blank
    ensures HasCells(cells, g)
  {
    forall c: nat, r: nat {:trigger Stored(cells, g, c, r)} | c < g.columns && r < g.rows
      ensures Stored(cells, g, c, r) == g.at(c, r)
    {
      WordInside(g.columns, g.rows, r, c);
      assert Covers(g, c, r);
    }
  }

  lemma SameStored(cells: seq<Cell>, g: Grid, h: Grid)
    requires HasCells(cells, g) && SameCells(g, h)
    ensures HasCells(cells, h)
  {
    forall c: nat, r: nat {:trigger Stored(cells, h, c, r)} | c < h.columns && r < h.rows
      ensures Stored(cells, h, c, r) == h.at(c, r)
    {
      assert Stored(cells, g, c, r) == g.at(c, r);
      assert Covers(g, c, r);
    }
  }

  lemma FirstPartly(start: Grid, h: Grid)
    requires SameShape(start, h)
    ensures SameCells(start, Partly(start, h, 0, 0))
  {
    forall c, r | Covers(start, c, r) ensures start.at(c, r) == Partly(start, h, 0, 0).at(c, r) {
      PartlyAt(start, h, 0, 0, c, r);
    }
  }

  /** Past the last column both tables have, the row stays as it was. */
  lemma RowPartly(g: Grid, start: Grid, h: Grid, c: nat, r: nat)
    requires SameShape(start, h) && c == if g.columns < h.columns then g.columns else h.columns
    requires forall u, v :: Covers(h, u, v) ==> h.at(u, v) == if Covers(g, u, v) then g.at(u, v) else start.at(u, v)
    ensures SameCells(Partly(start, h, c, r), Partly(start, h, 0, r + 1))
  {
    var p, q := Partly(start, h, c, r), Partly(start, h, 0, r + 1);
    forall u, v | Covers(p, u, v) ensures p.at(u, v) == q.at(u, v) {
      PartlyAt(start, h, c, r, u, v);
      PartlyAt(start, h, 0, r + 1, u, v);
      assert Covers(h, u, v);
    }
  }

  /** Past the last row both tables have, the table stays as it was. */
  lemma LastPartly(g: Grid, start: Grid, h: Grid, n: nat)
    requires SameShape(start, h) && n == if g.rows < h.rows then g.rows else h.rows
    requires forall u, v :: Covers(h, u, v) ==> h.at(u, v) == if Covers(g, u, v) then g.at(u, v) else start.at(u, v)
    ensures SameCells(Partly(start, h, 0, n), h)
  {
    var p := Partly(start, h, 0, n);
    forall u, v | Covers(p, u, v) ensures p.at(u, v) == h.at(u, v) {
      PartlyAt(start, h, 0, n, u, v);
      assert Covers(h, u, v);
    }
  }
}
