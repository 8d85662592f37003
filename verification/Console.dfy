/** The console as a user sees it: a window of pixels and the rectangle to be
    redrawn.  Drawing, scrolling and resizing are stated on the window, with no
    buffer, stride or origin in sight. */
module Console {
  import opened Raster
  import opened Bytes

  /** An inclusive rectangle. */
  datatype Box = Box(x0: int, y0: int, x1: int, y1: int)

  type Picture = (int, int) -> Pixel

  /** deferred: drawing is recorded in the cell grid only. */
  datatype Screen = Screen(width: nat, height: nat, look: Picture, damage: Box, deferred: bool)

  const NO_DAMAGE := Box(0, 0, -1, -1)

  function Max(a: int, b: int): int { if a < b then b else a }
  function Min(a: int, b: int): int { if a < b then a else b }

  predicate In(b: Box, x: int, y: int) { b.x0 <= x <= b.x1 && b.y0 <= y <= b.y1 }
  predicate Empty(b: Box) { b.x0 > b.x1 || b.y0 > b.y1 }

  function All(width: nat, height: nat): Box { Box(0, 0, width - 1, height - 1) }

  function Clip(width: nat, height: nat, b: Box): Box {
    Box(Max(b.x0, 0), Max(b.y0, 0), Min(b.x1, width - 1), Min(b.y1, height - 1))
  }

  // ------------------------------------------------------------------
  // Pictures
  // ------------------------------------------------------------------

  function Filled(look: Picture, b: Box, p: Pixel): Picture {
    (x, y) => if In(b, x, y) then p else look(x, y)
  }

  function Inked(look: Picture, b: Box, ink: Picture): Picture {
    (x, y) => if In(b, x, y) then ink(x, y) else look(x, y)
  }

  /** The picture inside b, and one colour around it. */
  function Kept(look: Picture, b: Box, p: Pixel): Picture {
    (x, y) => if In(b, x, y) then look(x, y) else p
  }

  /** The pixels of b replaced by those dx columns and dy rows further on. */
  function Offset(look: Picture, b: Box, dx: int, dy: int): Picture {
    (x, y) => if In(b, x, y) then look(x + dx, y + dy) else look(x, y)
  }

  /** A scroll: inside the box each pixel comes from dx, dy further on if that is
      in the box too, and is fill otherwise; outside nothing changes. */
  function Scrolled(look: Picture, b: Box, dx: int, dy: int, fill: Pixel): Picture {
    (x, y) => if !In(b, x, y) then look(x, y) else if In(b, x + dx, y + dy) then look(x + dx, y + dy) else fill
  }

  // ------------------------------------------------------------------
  // Operations
  // ------------------------------------------------------------------

  /** damage_add(). */
  function Damaged(width: nat, height: nat, damage: Box, b: Box): Box {
    var c := Clip(width, height, b);
    if Empty(c) then damage
    else if damage.x1 < damage.x0 then c
    else Box(Min(c.x0, damage.x0), Min(c.y0, damage.y0), Max(c.x1, damage.x1), Max(c.y1, damage.y1))
  }

  function DamagedAll(width: nat, height: nat): Box {
    Damaged(width, height, NO_DAMAGE, All(width, height))
  }

  /** RectFill(): whatever the ink, it stays in the box. */
  function Draw(s: Screen, b: Box, ink: Picture): Screen {
    var c := Clip(s.width, s.height, b);
    if s.deferred || Empty(c) then s
    else s.(look := Inked(s.look, c, ink), damage := Damaged(s.width, s.height, s.damage, c))
  }

  /** Text(): as many of count cells as fit to the right of the pen, drawn with
      whatever ink inside their box. */
  function DrawText(s: Screen, penX: int, penY: int, baseline: int, cellWidth: int, cellHeight: int, count: nat,
                    ink: Picture): Screen
  {
    if cellWidth <= 0 || cellHeight <= 0 then s
    else
      var fits := if penX >= s.width then 0 else (s.width - penX) / cellWidth;
      var drawn, top := Min(count, fits), penY - baseline;
      if drawn == 0 then s else Draw(s, Box(penX, top, penX + drawn * cellWidth - 1, top + cellHeight - 1), ink)
  }

  /** The margins right of and below the box already show the colour. */
  ghost predicate MarginsAre(s: Screen, b: Box, fill: Pixel) {
    forall x, y {:trigger s.look(x, y)} :: 0 <= x < s.width && 0 <= y < s.height && (x > b.x1 || y > b.y1) ==>
      s.look(x, y) == fill
  }

  /** The scrolls served by moving the origin. */
  ghost predicate ByOrigin(s: Screen, dx: int, dy: int, b: Box, fill: Pixel) {
    dx == 0 && 0 < dy < s.height && b.x0 == 0 && b.y0 == 0 && MarginsAre(s, b, fill)
  }

  /** ScrollRaster(). */
  ghost function Scroll(s: Screen, dx: int, dy: int, b: Box, fill: Pixel): Screen {
    var c := Clip(s.width, s.height, b);
    if (dx == 0 && dy == 0) || Empty(c) || s.deferred then s
    else
      s.(look := Scrolled(s.look, c, dx, dy, fill),
         damage := if ByOrigin(s, dx, dy, c, fill) then DamagedAll(s.width, s.height)
                   else Damaged(s.width, s.height, s.damage, c))
  }

  /** ace_gfx_resize_rastport(): what both sizes show stays, the rest is background. */
  function Resize(s: Screen, width: int, height: int, bg: Pixel): Screen {
    if !(0 < width <= 65535 && 0 < height <= 65535) || (width == s.width && height == s.height) then s
    else
      s.(width := width, height := height,
         look := Kept(s.look, All(Min(width, s.width), Min(height, s.height)), bg),
         damage := DamagedAll(width, height))
  }

  /** ace_gfx_render_grid(): everything is drawn afresh, deferred or not. */
  function Render(s: Screen, ink: Picture): Screen {
    s.(look := ink, damage := DamagedAll(s.width, s.height))
  }

  /** ace_gfx_take_damage(). */
  function Take(s: Screen): (Screen, Option<Box>) {
    if s.damage.x1 < s.damage.x0 then (s, None) else (s.(damage := NO_DAMAGE), Some(s.damage))
  }

  // ------------------------------------------------------------------
  // Runs
  // ------------------------------------------------------------------

  datatype Op =
    | DrawOp(drawn: Box, drawInk: Picture)
    | TextOp(penX: int, penY: int, baseline: int, cellWidth: int, cellHeight: int, count: nat, textInk: Picture)
    | ScrollOp(dx: int, dy: int, scrolled: Box, fill: Pixel)
    | ResizeOp(width: int, height: int, bg: Pixel)
    | RenderOp(renderInk: Picture)
    | DeferOp(deferred: bool)

  ghost function Step(s: Screen, op: Op): Screen {
    match op
    case DrawOp(b, ink) => Draw(s, b, ink)
    case TextOp(x, y, baseline, w, h, count, ink) => DrawText(s, x, y, baseline, w, h, count, ink)
    case ScrollOp(dx, dy, b, fill) => Scroll(s, dx, dy, b, fill)
    case ResizeOp(width, height, bg) => Resize(s, width, height, bg)
    case RenderOp(ink) => Render(s, ink)
    case DeferOp(deferred) => s.(deferred := deferred)
  }

  ghost function After(s: Screen, ops: seq<Op>): Screen {
    if ops == [] then s else Step(After(s, ops[..|ops| - 1]), ops[|ops| - 1])
  }

  predicate Visible(s: Screen, x: int, y: int) { 0 <= x < s.width && 0 <= y < s.height }

  /** A damage rectangle that lies inside the console, or none. */
  predicate Inside(width: nat, height: nat, d: Box) {
    d.x1 < d.x0 || (0 <= d.x0 && 0 <= d.y0 <= d.y1 && d.x1 < width && d.y1 < height)
  }

  predicate Reports(d: Box, x: int, y: int) { d.x0 <= d.x1 && In(d, x, y) }

  /** Every visible pixel outside the damage was visible before, and showed the same. */
  ghost predicate Covered(base: Screen, s: Screen) {
    forall x, y :: Visible(s, x, y) && !Reports(s.damage, x, y) ==>
      Visible(base, x, y) && s.look(x, y) == base.look(x, y)
  }

  ghost predicate Sound(base: Screen, s: Screen) {
    s.width > 0 && s.height > 0 && Inside(s.width, s.height, s.damage) && Covered(base, s)
  }

  // ------------------------------------------------------------------
  // Damage
  // ------------------------------------------------------------------

  lemma DamagedInside(width: nat, height: nat, damage: Box, b: Box)
    requires Inside(width, height, damage)
    ensures Inside(width, height, Damaged(width, height, damage, b))
  {
  }

  lemma DamagedReports(width: nat, height: nat, damage: Box, b: Box, x: int, y: int)
    requires Inside(width, height, damage)
    requires Reports(damage, x, y) || In(Clip(width, height, b), x, y)
    ensures Reports(Damaged(width, height, damage, b), x, y)
  {
  }

  /** Changing pixels in c and damaging c keeps the damage sound. */
  lemma ChangeSound(base: Screen, s: Screen, c: Box, t: Screen)
    requires Sound(base, s)
    requires t == s.(look := t.look, damage := Damaged(s.width, s.height, s.damage, c))
    requires forall x, y :: Visible(s, x, y) && !In(Clip(s.width, s.height, c), x, y) ==> t.look(x, y) == s.look(x, y)
    ensures Sound(base, t)
  {
    DamagedInside(s.width, s.height, s.damage, c);
    forall x, y | Visible(t, x, y) && !Reports(t.damage, x, y)
      ensures Visible(base, x, y) && t.look(x, y) == base.look(x, y)
    {
      if Reports(s.damage, x, y) || In(Clip(s.width, s.height, c), x, y) {
        DamagedReports(s.width, s.height, s.damage, c, x, y);
      }
      assert Visible(s, x, y);
    }
  }

  /** Damaging everything is always sound. */
  lemma AllSound(base: Screen, s: Screen)
    requires s.width > 0 && s.height > 0 && s.damage == DamagedAll(s.width, s.height)
    ensures Sound(base, s)
  {
    forall x, y | Visible(s, x, y) ensures Reports(s.damage, x, y) { }
  }

  lemma DeferSound(base: Screen, s: Screen, t: Screen)
    requires Sound(base, s) && t == s.(deferred := t.deferred)
    ensures Sound(base, t)
  {
    forall x, y | Visible(t, x, y) && !Reports(t.damage, x, y)
      ensures Visible(base, x, y) && t.look(x, y) == base.look(x, y)
    {
      assert Visible(s, x, y);
    }
  }

  lemma DrawSound(base: Screen, s: Screen, b: Box, ink: Picture)
    requires Sound(base, s)
    ensures Sound(base, Draw(s, b, ink))
  {
    var c := Clip(s.width, s.height, b);
    if !s.deferred && !Empty(c) { ChangeSound(base, s, c, Draw(s, b, ink)); }
  }

  lemma TextSound(base: Screen, s: Screen, x: int, y: int, baseline: int, w: int, h: int, count: nat, ink: Picture)
    requires Sound(base, s)
    ensures Sound(base, DrawText(s, x, y, baseline, w, h, count, ink))
  {
    forall b: Box ensures Sound(base, Draw(s, b, ink)) {
      DrawSound(base, s, b, ink);
    }
  }

  lemma StepSound(base: Screen, s: Screen, op: Op)
    requires Sound(base, s)
    ensures Sound(base, Step(s, op))
  {
    match op
    case DrawOp(b, ink) => DrawSound(base, s, b, ink);
    case TextOp(x, y, baseline, w, h, count, ink) => TextSound(base, s, x, y, baseline, w, h, count, ink);
    case ScrollOp(dx, dy, b, fill) =>
      var c := Clip(s.width, s.height, b);
      if (dx == 0 && dy == 0) || Empty(c) || s.deferred {
      } else if ByOrigin(s, dx, dy, c, fill) {
        AllSound(base, Step(s, op));
      } else {
        ChangeSound(base, s, c, Step(s, op));
      }
    case ResizeOp(width, height, bg) => if Resize(s, width, height, bg) != s { AllSound(base, Step(s, op)); }
    case RenderOp(_) => AllSound(base, Step(s, op));
    case DeferOp(_) => DeferSound(base, s, Step(s, op));
  }

  /** From one take of the damage to the next, over any run in between: the
      rectangle reported lies inside the console, and every visible pixel outside
      it was visible at the first take and shows what it showed then. */
  lemma {:induction false} DamageSound(base: Screen, ops: seq<Op>)
    requires base.width > 0 && base.height > 0 && base.damage == NO_DAMAGE
    ensures Sound(base, After(base, ops))
  {
    if ops != [] {
      DamageSound(base, ops[..|ops| - 1]);
      StepSound(base, After(base, ops[..|ops| - 1]), ops[|ops| - 1]);
    }
  }

  /** Reporting nothing means nothing changed. */
  lemma NothingToReport(base: Screen, ops: seq<Op>, x: int, y: int)
    requires base.width > 0 && base.height > 0 && base.damage == NO_DAMAGE
    requires Take(After(base, ops)).1.None? && Visible(After(base, ops), x, y)
    ensures Visible(base, x, y) && After(base, ops).look(x, y) == base.look(x, y)
  {
    DamageSound(base, ops);
  }

  // ------------------------------------------------------------------
  // Where pixels go, and how little is reported
  // ------------------------------------------------------------------

  /** Positive dx and dy move the pixels left and up: each lands dx to the left and
      dy above where it was, if that is in the box too. */
  lemma ScrollMoves(s: Screen, dx: int, dy: int, b: Box, fill: Pixel, x: int, y: int)
    requires !s.deferred && !(dx == 0 && dy == 0)
    requires var c := Clip(s.width, s.height, b);
             In(c, x, y) && In(c, x - dx, y - dy)
    ensures Scroll(s, dx, dy, b, fill).look(x - dx, y - dy) == s.look(x, y)
  {
    var c := Clip(s.width, s.height, b);
    assert Scrolled(s.look, c, dx, dy, fill)(x - dx, y - dy) == s.look(x - dx + dx, y - dy + dy);
  }

  predicate Encloses(a: Box, b: Box) { a.x0 <= b.x0 && a.y0 <= b.y0 && b.x1 <= a.x1 && b.y1 <= a.y1 }

  /** The rectangle grows no further than it must: any that holds the damage so far
      and the visible part of the new holds it. */
  lemma DamageLeast(width: nat, height: nat, damage: Box, b: Box, a: Box)
    requires damage.x1 >= damage.x0 ==> Encloses(a, damage)
    requires !Empty(Clip(width, height, b)) ==> Encloses(a, Clip(width, height, b))
    requires damage.x1 >= damage.x0 || !Empty(Clip(width, height, b))
    ensures Encloses(a, Damaged(width, height, damage, b))
    ensures damage.x1 >= damage.x0 ==> Encloses(Damaged(width, height, damage, b), damage)
    ensures !Empty(Clip(width, height, b)) ==> Encloses(Damaged(width, height, damage, b), Clip(width, height, b))
  {
  }

  /** So drawing reports no more than it must. */
  lemma DrawLeast(s: Screen, b: Box, ink: Picture, a: Box)
    requires !s.deferred && !Empty(Clip(s.width, s.height, b)) && Encloses(a, Clip(s.width, s.height, b))
    requires s.damage.x1 >= s.damage.x0 ==> Encloses(a, s.damage)
    ensures Encloses(a, Draw(s, b, ink).damage)
  {
    DamageLeast(s.width, s.height, s.damage, Clip(s.width, s.height, b), a);
  }
}
