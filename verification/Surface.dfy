/** The pixel surface: a console that is a window into an over-allocated buffer.
    Scrolling moves the window where it can and copies rows where it cannot;
    resizing reuses the allocation where it fits.  Every routine shows what the
    same operation on a plain screen shows. */
module Surface {
  import opened Bytes
  import opened Raster
  import opened Console
  import opened Window
  import opened Resizing
  import CellTable

  // ------------------------------------------------------------------
  // Scrolls in terms of their parts
  // ------------------------------------------------------------------

  /** The pixels that survive a scroll of b, where they end up. */
  function Survivors(b: Box, dx: int, dy: int): Box {
    Box(if dx > 0 then b.x0 else b.x0 - dx, if dy > 0 then b.y0 else b.y0 - dy,
        if dx > 0 then b.x1 - dx else b.x1, if dy > 0 then b.y1 - dy else b.y1)
  }

  /** The rows a scroll vacates. */
  function VacatedRows(b: Box, dy: int): Box {
    if dy > 0 then b.(y0 := b.y1 - dy + 1) else b.(y1 := b.y0 - dy - 1)
  }

  /** The columns it vacates beside the surviving rows. */
  function VacatedColumns(b: Box, dx: int, dy: int): Box {
    var d := Survivors(b, dx, dy);
    if dx > 0 then d.(x0 := d.x1 + 1, x1 := b.x1) else d.(x0 := b.x0, x1 := d.x0 - 1)
  }

  /** Moving the survivors and filling the two strips is the scroll. */
  lemma PartsMakeScroll(look: Picture, b: Box, dx: int, dy: int, fill: Pixel, x: int, y: int)
    requires -(b.x1 - b.x0) <= dx <= b.x1 - b.x0 && -(b.y1 - b.y0) <= dy <= b.y1 - b.y0
    ensures Filled(Filled(Offset(look, Survivors(b, dx, dy), dx, dy), VacatedRows(b, dy), fill),
                   VacatedColumns(b, dx, dy), fill)(x, y)
         == Scrolled(look, b, dx, dy, fill)(x, y)
  {
    var moved := Offset(look, Survivors(b, dx, dy), dx, dy);
    var rows := Filled(moved, VacatedRows(b, dy), fill);
    assert moved(x, y) == if In(Survivors(b, dx, dy), x, y) then look(x + dx, y + dy) else look(x, y);
    assert rows(x, y) == if In(VacatedRows(b, dy), x, y) then fill else moved(x, y);
    assert Filled(rows, VacatedColumns(b, dx, dy), fill)(x, y)
        == if In(VacatedColumns(b, dx, dy), x, y) then fill else rows(x, y);
    assert Scrolled(look, b, dx, dy, fill)(x, y)
        == if !In(b, x, y) then look(x, y) else if In(b, x + dx, y + dy) then look(x + dx, y + dy) else fill;
  }

  /** A scroll by at least the size of the box leaves only the colour. */
  lemma FarScroll(look: Picture, b: Box, dx: int, dy: int, fill: Pixel, x: int, y: int)
    requires dx > b.x1 - b.x0 || -dx > b.x1 - b.x0 || dy > b.y1 - b.y0 || -dy > b.y1 - b.y0
    ensures Filled(look, b, fill)(x, y) == Scrolled(look, b, dx, dy, fill)(x, y)
  {
    assert Filled(look, b, fill)(x, y) == if In(b, x, y) then fill else look(x, y);
    assert Scrolled(look, b, dx, dy, fill)(x, y)
        == if !In(b, x, y) then look(x, y) else if In(b, x + dx, y + dy) then look(x + dx, y + dy) else fill;
  }

  /** With margins of the fill colour, moving the whole console up is the scroll. */
  lemma OriginMakesScroll(s: Screen, look: Picture, b: Box, dy: int, fill: Pixel, x: int, y: int)
    requires ByOrigin(s, 0, dy, b, fill) && b.x1 < s.width && b.y1 < s.height && Visible(s, x, y)
    requires y < s.height - dy ==> look(x, y) == s.look(x, y + dy)
    ensures Filled(look, Box(0, s.height - dy, s.width - 1, s.height - 1), fill)(x, y)
         == Scrolled(s.look, b, 0, dy, fill)(x, y)
  {
    assert Scrolled(s.look, b, 0, dy, fill)(x, y)
        == if !In(b, x, y) then s.look(x, y) else if In(b, x, y + dy) then s.look(x, y + dy) else fill;
    assert Filled(look, Box(0, s.height - dy, s.width - 1, s.height - 1), fill)(x, y)
        == if In(Box(0, s.height - dy, s.width - 1, s.height - 1), x, y) then fill else look(x, y);
    assert (x > b.x1 || y > b.y1) ==> s.look(x, y) == fill;
    assert y + dy < s.height && (x > b.x1 || y + dy > b.y1) ==> s.look(x, y + dy) == fill;
  }

  lemma ScrollParts(l: Layout, look: Picture, b: Box, dx: int, dy: int, fill: Pixel)
    requires -(b.x1 - b.x0) <= dx <= b.x1 - b.x0 && -(b.y1 - b.y0) <= dy <= b.y1 - b.y0
    ensures Agree(l, Filled(Filled(Offset(look, Survivors(b, dx, dy), dx, dy), VacatedRows(b, dy), fill),
                            VacatedColumns(b, dx, dy), fill),
                  Scrolled(look, b, dx, dy, fill))
  {
    forall x, y | 0 <= x < l.width && 0 <= y < l.height
      ensures Filled(Filled(Offset(look, Survivors(b, dx, dy), dx, dy), VacatedRows(b, dy), fill),
                     VacatedColumns(b, dx, dy), fill)(x, y)
           == Scrolled(look, b, dx, dy, fill)(x, y)
    {
      PartsMakeScroll(look, b, dx, dy, fill, x, y);
    }
  }

  // ------------------------------------------------------------------
  // The surface
  // ------------------------------------------------------------------

  class RastPort {
    var pixels: array<Pixel>
    var stride: nat
    var allocWidth: nat
    var allocHeight: nat
    var originY: nat
    var width: nat
    var height: nat
    var damage: Box
    var deferred: bool

    /** ace_gfx_create_rastport(): a console of background colour, all of it damaged. */
    constructor (w: nat, h: nat, newStride: nat, bg: Pixel)
      requires 0 < w && 0 < h && newStride >= w + GROW_SLACK
      ensures Valid() && fresh(pixels)
      ensures Displays(Screen(w, h, (x, y) => bg, DamagedAll(w, h), false))
    {
      var rows := h + HeadroomRows(w + GROW_SLACK);
      RowsProduct(newStride, rows);
      pixels := new Pixel[rows * newStride];
      stride, allocWidth, allocHeight, originY := newStride, w + GROW_SLACK, rows, 0;
      width, height, damage, deferred := w, h, DamagedAll(w, h), false;
      new;
      ghost var look := Whatever(Place(), pixels[..]);
      FillStrip(All(w, h), bg, look);
      ghost var solid: Picture := (x, y) => bg;
      forall x, y | 0 <= x < w && 0 <= y < h ensures Filled(look, All(w, h), bg)(x, y) == solid(x, y) {
        assert In(All(w, h), x, y);
      }
      ShowsAgreeing(Place(), pixels[..], Filled(look, All(w, h), bg), solid);
    }

    ghost function Place(): Layout
      reads this
    {
      Layout(stride, allocHeight, originY, width, height)
    }

    /** The console fits the allocation, and its window lies inside it. */
    ghost predicate Valid()
      reads this, pixels
    {
      && 0 < width <= allocWidth <= stride && 0 < height && originY + height <= allocHeight
      && Fits(pixels[..], stride, allocHeight)
    }

    ghost predicate Displays(s: Screen)
      reads this, pixels
    {
      && s.width == width && s.height == height && s.damage == damage && s.deferred == deferred
      && Window.Shows(Place(), pixels[..], s.look)
    }

    /** row_ptr(). */
    method RowStart(r: nat) returns (start: nat)
      ensures start == Rows(stride, r)
    {
      start := r * stride;
      RowsProduct(stride, r);
    }

    /** fill_rect_raw(): the first row word by word, the others copied from it. */
    method FillRect(b: Box, pixel: Pixel, ghost look: Picture)
      requires Valid() && Window.Shows(Place(), pixels[..], look)
      modifies pixels
      ensures Valid() && Window.Shows(Place(), pixels[..], Filled(look, Clip(width, height, b), pixel))
    {
      var c := Clip(width, height, b);
      ghost var l := Place();
      if Empty(c) {
        EmptyFill(l, look, c, pixel);
        ShowsAgreeing(l, pixels[..], look, Filled(look, c, pixel));
        return;
      }
      EmptyFill(l, look, c.(y1 := c.y0 - 1), pixel);
      ShowsAgreeing(l, pixels[..], look, Filled(look, c.(y1 := c.y0 - 1), pixel));
      ghost var was := pixels[..];
      var first := RowStart(originY + c.y0);
      FillRun(pixels, stride, allocHeight, originY + c.y0, first, c.x0, c.x1 + 1, pixel);
      FilledRow(l, was, pixels[..], look, c, c.y0, pixel, (_: int) => pixel);
      var y := c.y0 + 1;
      while y <= c.y1
        invariant c.y0 < y <= c.y1 + 1 && Valid()
        invariant Window.Shows(l, pixels[..], Filled(look, c.(y1 := y - 1), pixel))
      {
        FillCopy(c, y, first, pixel, look);
        y := y + 1;
      }
    }

    /** One more row, copied from the first. */
    method FillCopy(c: Box, y: nat, first: nat, pixel: Pixel, ghost look: Picture)
      requires Valid() && 0 <= c.x0 <= c.x1 < width
      requires 0 <= c.y0 < y <= c.y1 < height && first == Rows(stride, originY + c.y0)
      requires Window.Shows(Place(), pixels[..], Filled(look, c.(y1 := y - 1), pixel))
      modifies pixels
      ensures Valid() && Window.Shows(Place(), pixels[..], Filled(look, c.(y1 := y), pixel))
    {
      ghost var l, before := Place(), pixels[..];
      var start := RowStart(originY + y);
      CopyRun(pixels, stride, allocHeight, originY + y, originY + c.y0, start, first, c.x0, c.x1 + 1, c.x0);
      ghost var ink := Raster.Shifted(before, stride, originY + c.y0, c.x0, c.x0);
      forall x | c.x0 <= x <= c.x1 ensures ink(x) == pixel {
        assert In(c.(y1 := y - 1), x, c.y0);
        assert Filled(look, c.(y1 := y - 1), pixel)(x, c.y0) == pixel;
        assert Seen(l, before, x, c.y0) == pixel;
      }
      FilledRow(l, before, pixels[..], look, c, y, pixel, ink);
    }

    // ----------------------------------------------------------------
    // Scrolling
    // ----------------------------------------------------------------

    /** The survivors row by row, away from the vacated edge. */
    method MoveBox(d: Box, dx: int, dy: int, ghost look: Picture)
      requires Valid() && 0 <= d.x0 <= d.x1 < width && 0 <= d.y0 <= d.y1 < height
      requires 0 <= d.x0 + dx && d.x1 + dx < width && 0 <= d.y0 + dy && d.y1 + dy < height
      requires Window.Shows(Place(), pixels[..], look)
      modifies pixels
      ensures Valid() && Window.Shows(Place(), pixels[..], Offset(look, d, dx, dy))
    {
      ghost var l := Place();
      if dy > 0 {
        EmptyMove(l, look, d.(y1 := d.y0 - 1), dx, dy);
        ShowsAgreeing(l, pixels[..], look, Offset(look, d.(y1 := d.y0 - 1), dx, dy));
        var y := d.y0;
        while y <= d.y1
          invariant d.y0 <= y <= d.y1 + 1 && Valid()
          invariant Window.Shows(l, pixels[..], Offset(look, d.(y1 := y - 1), dx, dy))
        {
          MoveOne(d, d.(y1 := y - 1), d.(y1 := y), y, dx, dy, look);
          y := y + 1;
        }
      } else {
        EmptyMove(l, look, d.(y0 := d.y1 + 1), dx, dy);
        ShowsAgreeing(l, pixels[..], look, Offset(look, d.(y0 := d.y1 + 1), dx, dy));
        var y := d.y1;
        while y >= d.y0
          invariant d.y0 - 1 <= y <= d.y1 && Valid()
          invariant Window.Shows(l, pixels[..], Offset(look, d.(y0 := y + 1), dx, dy))
        {
          MoveOne(d, d.(y0 := y + 1), d.(y0 := y), y, dx, dy, look);
          y := y - 1;
        }
      }
    }

    method MoveOne(d: Box, ghost moved: Box, ghost next: Box, y: nat, dx: int, dy: int, ghost look: Picture)
      requires Valid() && 0 <= d.x0 <= d.x1 < width && d.y0 <= y <= d.y1 < height
      requires 0 <= d.x0 + dx && d.x1 + dx < width && 0 <= y + dy < height
      requires (moved == d.(y1 := y - 1) && next == d.(y1 := y) && dy > 0)
            || (moved == d.(y0 := y + 1) && next == d.(y0 := y) && dy <= 0)
      requires Window.Shows(Place(), pixels[..], Offset(look, moved, dx, dy))
      modifies pixels
      ensures Valid() && Window.Shows(Place(), pixels[..], Offset(look, next, dx, dy))
    {
      ghost var l, before := Place(), pixels[..];
      var to := RowStart(originY + y);
      var from := RowStart(originY + y + dy);
      CopyRun(pixels, stride, allocHeight, originY + y, originY + y + dy, to, from, d.x0, d.x1 + 1, d.x0 + dx);
      MovedRow(l, before, pixels[..], look, d, moved, next, y, dx, dy);
    }

    /** The copying path of ScrollRaster(), for a shift smaller than the box. */
    method ScrollByCopy(c: Box, dx: int, dy: int, fill: Pixel, ghost look: Picture)
      requires Valid() && 0 <= c.x0 <= c.x1 < width && 0 <= c.y0 <= c.y1 < height
      requires -(c.x1 - c.x0) <= dx <= c.x1 - c.x0 && -(c.y1 - c.y0) <= dy <= c.y1 - c.y0
      requires Window.Shows(Place(), pixels[..], look)
      modifies pixels
      ensures Valid() && Window.Shows(Place(), pixels[..], Scrolled(look, c, dx, dy, fill))
    {
      ghost var l := Place();
      var d := Survivors(c, dx, dy);
      MoveBox(d, dx, dy, look);
      ghost var moved := Offset(look, d, dx, dy);
      FillStrip(VacatedRows(c, dy), fill, moved);
      FillStrip(VacatedColumns(c, dx, dy), fill, Filled(moved, VacatedRows(c, dy), fill));
      ScrollParts(l, look, c, dx, dy, fill);
      ShowsAgreeing(l, pixels[..],
                    Filled(Filled(moved, VacatedRows(c, dy), fill), VacatedColumns(c, dx, dy), fill),
                    Scrolled(look, c, dx, dy, fill));
    }

    /** A strip inside the console, or an empty one. */
    method FillStrip(b: Box, pixel: Pixel, ghost look: Picture)
      requires Valid() && 0 <= b.x0 && 0 <= b.y0 && b.x1 < width && b.y1 < height
      requires Window.Shows(Place(), pixels[..], look)
      modifies pixels
      ensures Valid() && Window.Shows(Place(), pixels[..], Filled(look, b, pixel))
    {
      FillRect(b, pixel, look);
      assert Clip(width, height, b) == b;
    }

    method Read(x: nat, y: nat, ghost s: Screen) returns (p: Pixel)
      requires Valid() && Displays(s) && x < width && y < height
      ensures p == s.look(x, y)
    {
      var start := RowStart(originY + y);
      WordInside(stride, allocHeight, originY + y, x);
      p := pixels[start + x];
      assert Seen(Place(), pixels[..], x, y) == p;
    }

    /** Do rows y0 up to y1 of columns x0 up to x1 all show one colour? */
    method AllShow(x0: nat, x1: nat, y0: nat, y1: nat, fill: Pixel, ghost s: Screen) returns (same: bool)
      requires Valid() && Displays(s) && x1 <= width && y1 <= height
      ensures same <==> forall x, y :: x0 <= x < x1 && y0 <= y < y1 ==> s.look(x, y) == fill
    {
      var x := x0;
      while x < x1
        invariant x0 <= x && forall u, v :: x0 <= u < x && u < x1 && y0 <= v < y1 ==> s.look(u, v) == fill
      {
        var y := y0;
        while y < y1
          invariant y0 <= y && forall v :: y0 <= v < y && v < y1 ==> s.look(x, v) == fill
        {
          var p := Read(x, y, s);
          if p != fill { return false; }
          y := y + 1;
        }
        x := x + 1;
      }
      return true;
    }

    /** Whether the margins right of and below the box show the fill colour. */
    method MarginsShow(c: Box, fill: Pixel, ghost s: Screen) returns (same: bool)
      requires Valid() && Displays(s) && 0 <= c.x1 < width && 0 <= c.y1 < height
      ensures same <==> MarginsAre(s, c, fill)
    {
      same := AllShow(c.x1 + 1, width, 0, height, fill, s);
      if same { same := AllShow(0, c.x1 + 1, c.y1 + 1, height, fill, s); }
    }

    /** scroll_by_origin(): move the window down, or fold it back to the top of the
        buffer when there is no room below. */
    method ScrollByOrigin(dy: nat, c: Box, fill: Pixel, ghost s: Screen) returns (done: bool)
      requires Valid() && Displays(s) && 0 < dy < height
      requires c.x0 == 0 == c.y0 && 0 <= c.x1 < width && 0 <= c.y1 < height
      modifies this`originY, this`damage, pixels
      ensures Valid() && done == ByOrigin(s, 0, dy, c, fill)
      ensures done ==> Displays(s.(look := Scrolled(s.look, c, 0, dy, fill), damage := DamagedAll(width, height)))
      ensures !done ==> Displays(s) && damage == old(damage)
    {
      done := MarginsShow(c, fill, s);
      if !done { return; }
      ghost var look := MoveWindow(dy, s);
      FillRect(Box(0, height - dy, width - 1, height - 1), fill, look);
      damage := DamagedAll(width, height);
      ghost var strip := Box(0, height - dy, width - 1, height - 1);
      assert Clip(width, height, strip) == strip;
      forall x, y | 0 <= x < width && 0 <= y < height
        ensures Filled(look, strip, fill)(x, y) == Scrolled(s.look, c, 0, dy, fill)(x, y)
      {
        OriginMakesScroll(s, look, c, dy, fill, x, y);
      }
      ShowsAgreeing(Place(), pixels[..], Filled(look, strip, fill), Scrolled(s.look, c, 0, dy, fill));
    }

    /** After this, row y shows what row y + dy showed; the last dy rows show whatever. */
    method MoveWindow(dy: nat, ghost s: Screen) returns (ghost look: Picture)
      requires Valid() && Displays(s) && 0 < dy < height
      modifies this`originY, pixels
      ensures Valid() && Window.Shows(Place(), pixels[..], look)
      ensures forall x, y :: 0 <= x < width && 0 <= y < height - dy ==> look(x, y) == s.look(x, y + dy)
    {
      ghost var l, was := Place(), pixels[..];
      if originY + dy + height > allocHeight {
        FoldBack(originY + dy, height - dy);
      } else {
        originY := originY + dy;
      }
      look := Whatever(Place(), pixels[..]);
      RowsKept(l, was, Place(), pixels[..], s.look, dy, width, height - dy);
    }

    /** n rows from row q of the buffer on, moved to its top along with the window. */
    method FoldBack(q: nat, n: nat)
      requires Valid() && q + n <= allocHeight
      modifies this`originY, pixels
      ensures Valid() && originY == 0 && RowsMoved(old(pixels[..]), pixels[..], stride, allocHeight, q, n)
    {
      var from := RowStart(q);
      var words := RowStart(n);
      MoveRowsUp(pixels, stride, allocHeight, q, from, n, words);
      originY := 0;
    }

    /** ScrollRaster(). */
    method ScrollRaster(dx: int, dy: int, b: Box, fill: Pixel, ghost s: Screen)
      requires Valid() && Displays(s)
      modifies this`originY, this`damage, pixels
      ensures Valid() && Displays(Scroll(s, dx, dy, b, fill))
    {
      var c := Clip(width, height, b);
      if (dx == 0 && dy == 0) || Empty(c) || deferred { return; }
      if dx == 0 && 0 < dy < height && c.x0 == 0 && c.y0 == 0 {
        var done := ScrollByOrigin(dy, c, fill, s);
        if done { return; }
      }
      ScrollInPlace(c, dx, dy, fill, s);
    }

    method ScrollInPlace(c: Box, dx: int, dy: int, fill: Pixel, ghost s: Screen)
      requires Valid() && Displays(s) && 0 <= c.x0 <= c.x1 < width && 0 <= c.y0 <= c.y1 < height
      modifies this`damage, pixels
      ensures Valid()
      ensures Displays(s.(look := Scrolled(s.look, c, dx, dy, fill), damage := Damaged(width, height, s.damage, c)))
    {
      if dx > c.x1 - c.x0 || -dx > c.x1 - c.x0 || dy > c.y1 - c.y0 || -dy > c.y1 - c.y0 {
        FillStrip(c, fill, s.look);
        forall x, y | 0 <= x < width && 0 <= y < height
          ensures Filled(s.look, c, fill)(x, y) == Scrolled(s.look, c, dx, dy, fill)(x, y)
        {
          FarScroll(s.look, c, dx, dy, fill, x, y);
        }
        ShowsAgreeing(Place(), pixels[..], Filled(s.look, c, fill), Scrolled(s.look, c, dx, dy, fill));
      } else {
        ScrollByCopy(c, dx, dy, fill, s.look);
      }
      damage := Damaged(width, height, damage, c);
    }

    // ----------------------------------------------------------------
    // Resizing
    // ----------------------------------------------------------------

    /** This surface and its cells are in state p. */
    ghost predicate Holds(p: Port, table: CellTable.Table)
      reads this, pixels, table, table.cells
    {
      Valid() && Displays(p.screen) && allocWidth == p.allocWidth && allocHeight == p.allocHeight && table.Holds(p.grid)
    }

    /** ace_gfx_resize_rastport(); made is the stride of a new surface, if one is
        needed and can be had, memory whether a new cell table can.  The pixels are
        resized before the table, and stay so when the table cannot be had. */
    method ResizeTo(a: Ask, made: Option<nat>, table: CellTable.Table, memory: bool, ghost p: Port) returns (ok: bool)
      requires Holds(p, table) && (made.Some? ==> made.value >= a.width + GROW_SLACK)
      modifies this, pixels, table
      ensures Holds(Call(p, a, Host(made.Some?, memory)).0, table) && fresh({pixels} - {old(pixels)})
      ensures ok <==>
                && GoodSize(a)
                && (SameSize(p, a) || ((HasRoom(p, a) || made.Some?) && CellsHad(a, Host(made.Some?, memory))))
    {
      if !(0 < a.width <= MAX_SIZE && 0 < a.height <= MAX_SIZE) { return false; }
      if a.width == width && a.height == height { return true; }
      if a.width > allocWidth || a.height > allocHeight {
        if made.None? { return false; }
        Rebind(a.width, a.height, a.paper, made.value, p.screen);
      } else {
        Reuse(a.width, a.height, a.paper, p.screen);
      }
      ok := table.Resize(a.width, a.height, a.cellWidth, a.cellHeight, a.fg, a.bg, memory, p.grid);
    }

    /** The new console fits the allocation: what is gained is painted, the rest
        stays where it is or is folded back to the top. */
    method Reuse(w: nat, h: nat, bg: Pixel, ghost s: Screen)
      requires Valid() && Displays(s) && 0 < w <= allocWidth && 0 < h <= allocHeight
      modifies this, pixels
      ensures Valid() && pixels == old(pixels) && allocWidth == old(allocWidth) && allocHeight == old(allocHeight)
      ensures Displays(s.(width := w, height := h, look := Kept(s.look, All(Min(w, s.width), Min(h, s.height)), bg),
                          damage := DamagedAll(w, h)))
    {
      ghost var l, was := Place(), pixels[..];
      var keepWidth, keepHeight := Min(w, width), Min(h, height);
      if originY + h > allocHeight {
        FoldBack(originY, keepHeight);
      }
      width, height := w, h;
      ghost var look := Whatever(Place(), pixels[..]);
      RowsKept(l, was, Place(), pixels[..], s.look, 0, keepWidth, keepHeight);
      PaintGained(keepWidth, keepHeight, bg, look, s.look);
      damage := DamagedAll(width, height);
    }

    method PaintGained(keepWidth: nat, keepHeight: nat, bg: Pixel, ghost look: Picture, ghost kept: Picture)
      requires Valid() && keepWidth <= width && keepHeight <= height && Window.Shows(Place(), pixels[..], look)
      requires forall x, y :: 0 <= x < keepWidth && 0 <= y < keepHeight ==> look(x, y) == kept(x, y)
      modifies pixels
      ensures Valid() && Window.Shows(Place(), pixels[..], Kept(kept, All(keepWidth, keepHeight), bg))
    {
      var right, below := Box(keepWidth, 0, width - 1, keepHeight - 1), Box(0, keepHeight, width - 1, height - 1);
      FillStrip(right, bg, look);
      FillStrip(below, bg, Filled(look, right, bg));
      forall x, y | 0 <= x < width && 0 <= y < height
        ensures Filled(Filled(look, right, bg), below, bg)(x, y) == Kept(kept, All(keepWidth, keepHeight), bg)(x, y)
      {
        assert Filled(look, right, bg)(x, y) == if In(right, x, y) then bg else look(x, y);
        assert Filled(Filled(look, right, bg), below, bg)(x, y)
             == if In(below, x, y) then bg else Filled(look, right, bg)(x, y);
        assert Kept(kept, All(keepWidth, keepHeight), bg)(x, y)
            == if In(All(keepWidth, keepHeight), x, y) then kept(x, y) else bg;
      }
      ShowsAgreeing(Place(), pixels[..], Filled(Filled(look, right, bg), below, bg),
                    Kept(kept, All(keepWidth, keepHeight), bg));
    }

    /** The new console needs a new surface: what both sizes show is carried over
        row by row. */
    method Rebind(w: nat, h: nat, bg: Pixel, newStride: nat, ghost s: Screen)
      requires Valid() && Displays(s) && 0 < w && 0 < h && newStride >= w + GROW_SLACK
      modifies this
      ensures Valid() && fresh(pixels)
      ensures allocWidth == w + GROW_SLACK && allocHeight == h + HeadroomRows(w + GROW_SLACK)
      ensures Displays(s.(width := w, height := h, look := Kept(s.look, All(Min(w, s.width), Min(h, s.height)), bg),
                          damage := DamagedAll(w, h)))
    {
      var keepWidth, keepHeight := Min(w, width), Min(h, height);
      var next, newHeight := NewBuffer(w, h, newStride);
      CarryOver(next, newStride, newHeight, keepWidth, keepHeight, s);
      Adopt(next, newStride, newHeight, w, h);
      Carried(Place(), pixels[..], s.look, keepWidth, keepHeight);
      PaintGained(keepWidth, keepHeight, bg, Whatever(Place(), pixels[..]), s.look);
    }

    /** The console moves to a buffer of its own, to be shown all over. */
    method Adopt(next: array<Pixel>, newStride: nat, rows: nat, w: nat, h: nat)
      requires 0 < w && 0 < h <= rows && w + GROW_SLACK <= newStride && Fits(next[..], newStride, rows)
      modifies this
      ensures Valid() && pixels == next && stride == newStride && allocWidth == w + GROW_SLACK && allocHeight == rows
      ensures originY == 0 && width == w && height == h && damage == DamagedAll(w, h) && deferred == old(deferred)
    {
      pixels, stride, allocWidth, allocHeight, originY := next, newStride, w + GROW_SLACK, rows, 0;
      width, height := w, h;
      damage := DamagedAll(width, height);
    }

    /** surface_bind(): headroom below the console for it to scroll into. */
    method NewBuffer(w: nat, h: nat, newStride: nat) returns (next: array<Pixel>, rows: nat)
      ensures fresh(next) && rows == h + HeadroomRows(w + GROW_SLACK) && Fits(next[..], newStride, rows)
    {
      rows := h + HeadroomRows(w + GROW_SLACK);
      RowsProduct(newStride, rows);
      next := new Pixel[rows * newStride];
    }

    method CarryOver(next: array<Pixel>, newStride: nat, ghost newRows: nat, keepWidth: nat, keepHeight: nat,
                     ghost s: Screen)
      requires Valid() && Displays(s) && next != pixels && Fits(next[..], newStride, newRows)
      requires keepWidth <= width && keepHeight <= height && keepWidth <= newStride && keepHeight <= newRows
      modifies next
      ensures Fits(next[..], newStride, newRows)
      ensures forall x: nat, y: nat :: x < keepWidth && y < keepHeight ==>
                Look(next[..], newStride, y, x) == s.look(x, y)
    {
      var y := 0;
      while y < keepHeight
        invariant y <= keepHeight && Fits(next[..], newStride, newRows)
        invariant forall x: nat, v: nat :: x < keepWidth && v < y ==> Look(next[..], newStride, v, x) == s.look(x, v)
      {
        CarryRow(next, newStride, newRows, y, keepWidth, s);
        y := y + 1;
      }
    }

    method CarryRow(next: array<Pixel>, newStride: nat, ghost newRows: nat, y: nat, n: nat, ghost s: Screen)
      requires Valid() && Displays(s) && next != pixels && Fits(next[..], newStride, newRows)
      requires n <= width && y < height && n <= newStride && y < newRows
      modifies next
      ensures RunDrawn(old(next[..]), next[..], newStride, newRows, y, 0, n, RowOf(s, y))
    {
      var from := RowStart(originY + y);
      var to := y * newStride;
      RowsProduct(newStride, y);
      RowsAbove(newStride, y, newRows);
      RowsAbove(stride, originY + y, allocHeight);
      ghost var was := next[..];
      CopyAcross(next, to, pixels, from, n);
      forall i {:trigger next[i]} | to <= i < to + n ensures next[i] == s.look(i - to, y) {
        assert Seen(Place(), pixels[..], i - to, y) == s.look(i - to, y);
      }
      CarriedRow(was, next[..], newStride, newRows, y, n, RowOf(s, y));
    }

    /** memcpy() between buffers. */
    static method CopyAcross(next: array<Pixel>, to: nat, src: array<Pixel>, from: nat, n: nat)
      requires next != src && to + n <= next.Length && from + n <= src.Length
      modifies next
      ensures forall i {:trigger next[i]} :: to <= i < to + n ==> next[i] == src[from + (i - to)]
      ensures forall i {:trigger next[i]} :: 0 <= i < next.Length && !(to <= i < to + n) ==> next[i] == old(next[i])
    {
      forall i | to <= i < to + n { next[i] := src[from + (i - to)]; }
    }

    // ----------------------------------------------------------------
    // Drawing and damage
    // ----------------------------------------------------------------

    /** RectFill() in a solid colour. */
    method RectFill(b: Box, pixel: Pixel, ghost s: Screen)
      requires Valid() && Displays(s)
      modifies this`damage, pixels
      ensures Valid() && Displays(Draw(s, b, (x, y) => pixel))
    {
      var c := Clip(width, height, b);
      if deferred || Empty(c) { return; }
      FillStrip(c, pixel, s.look);
      damage := Damaged(width, height, damage, c);
      ghost var ink: Picture := (x, y) => pixel;
      forall x, y | 0 <= x < width && 0 <= y < height
        ensures Filled(s.look, c, pixel)(x, y) == Inked(s.look, c, ink)(x, y)
      {
        assert Inked(s.look, c, ink)(x, y) == if In(c, x, y) then ink(x, y) else s.look(x, y);
      }
      ShowsAgreeing(Place(), pixels[..], Filled(s.look, c, pixel), Inked(s.look, c, ink));
    }

    /** ace_gfx_take_damage(). */
    method TakeDamage(ghost s: Screen) returns (r: Option<Box>)
      requires Valid() && Displays(s)
      modifies this`damage
      ensures Valid() && Displays(Take(s).0) && r == Take(s).1
    {
      if damage.x1 < damage.x0 { return None; }
      r := Some(damage);
      damage := NO_DAMAGE;
    }
  }

  /** Rows still in the buffer, seen from a window placed where they now are. */
  lemma RowsKept(l: Layout, was: seq<Pixel>, m: Layout, now: seq<Pixel>, look: Picture, dy: nat, width: nat,
                 height: nat)
    requires Sits(l, was) && Window.Shows(l, was, look) && m.stride == l.stride
    requires width <= l.width && height + dy <= l.height
    requires (now == was && m.origin == l.origin + dy)
          || (m.origin == 0 && RowsMoved(was, now, l.stride, l.rows, l.origin + dy, height))
    ensures forall x, y :: 0 <= x < width && 0 <= y < height ==> Whatever(m, now)(x, y) == look(x, y + dy)
  {
    forall x, y | 0 <= x < width && 0 <= y < height ensures Whatever(m, now)(x, y) == look(x, y + dy) {
      assert Seen(l, was, x, y + dy) == look(x, y + dy);
      assert Whatever(m, now)(x, y) == Seen(m, now, x, y);
      assert Look(now, l.stride, m.origin + y, x) == Look(was, l.stride, l.origin + dy + y, x);
    }
  }

  ghost function RowOf(s: Screen, y: int): int -> Pixel { (x: int) => s.look(x, y) }

  lemma CarriedRow(was: seq<Pixel>, now: seq<Pixel>, stride: nat, rows: nat, y: nat, n: nat, ink: int -> Pixel)
    requires Fits(was, stride, rows) && |now| == |was| && y < rows && n <= stride && Rows(stride, y) + n <= |was|
    requires forall i {:trigger now[i]} :: Rows(stride, y) <= i < Rows(stride, y) + n ==>
               now[i] == ink(i - Rows(stride, y))
    requires forall i {:trigger now[i]} :: 0 <= i < |was| && !(Rows(stride, y) <= i < Rows(stride, y) + n) ==>
               now[i] == was[i]
    ensures RunDrawn(was, now, stride, rows, y, 0, n, ink)
  {
    DrawnIsRun(was, now, stride, rows, y, 0, n, ink);
  }

  lemma Carried(m: Layout, now: seq<Pixel>, look: Picture, width: nat, height: nat)
    requires m.origin == 0
    requires forall x: nat, y: nat :: x < width && y < height ==> Look(now, m.stride, y, x) == look(x, y)
    ensures forall x, y :: 0 <= x < width && 0 <= y < height ==> Whatever(m, now)(x, y) == look(x, y)
  {
    forall x, y | 0 <= x < width && 0 <= y < height ensures Whatever(m, now)(x, y) == look(x, y) {
      assert Whatever(m, now)(x, y) == Look(now, m.stride, y, x);
    }
  }

  lemma EmptyMove(l: Layout, look: Picture, b: Box, dx: int, dy: int)
    requires Empty(b)
    ensures Agree(l, look, Offset(look, b, dx, dy))
  {
  }

  lemma EmptyFill(l: Layout, look: Picture, b: Box, p: Pixel)
    requires Empty(b)
    ensures Agree(l, look, Filled(look, b, p))
  {
  }
}
