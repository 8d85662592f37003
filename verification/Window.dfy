/** The console's window into a larger buffer: which picture a buffer shows, and
    what writing a run of one row does to it. */
module Window {
  import opened Raster
  import opened Console

  /** Row 0 of the console is row origin of a buffer of so many rows. */
  datatype Layout = Layout(stride: nat, rows: nat, origin: nat, width: nat, height: nat)

  ghost predicate Sits(l: Layout, buf: seq<Pixel>) {
    Fits(buf, l.stride, l.rows) && l.width <= l.stride && l.origin + l.height <= l.rows
  }

  /** What the console shows at x, y. */
  ghost function Seen(l: Layout, buf: seq<Pixel>, x: nat, y: nat): Pixel {
    Look(buf, l.stride, l.origin + y, x)
  }

  ghost predicate Shows(l: Layout, buf: seq<Pixel>, look: Picture) {
    forall x: nat, y: nat {:trigger Seen(l, buf, x, y)} :: x < l.width && y < l.height ==>
      Seen(l, buf, x, y) == look(x, y)
  }

  predicate Agree(l: Layout, look: Picture, other: Picture) {
    forall x, y :: 0 <= x < l.width && 0 <= y < l.height ==> look(x, y) == other(x, y)
  }

  /** The picture that happens to be there. */
  ghost function Whatever(l: Layout, buf: seq<Pixel>): Picture {
    (x, y) => if x >= 0 && y >= 0 then Seen(l, buf, x, y) else 0
  }

  lemma ShowsAgreeing(l: Layout, buf: seq<Pixel>, look: Picture, other: Picture)
    requires Shows(l, buf, look) && Agree(l, look, other)
    ensures Shows(l, buf, other)
  {
    forall x: nat, y: nat {:trigger Seen(l, buf, x, y)} | x < l.width && y < l.height
      ensures Seen(l, buf, x, y) == other(x, y)
    {
      assert look(x, y) == other(x, y);
    }
  }

  /** One run of row y drawn. */
  lemma RowShows(l: Layout, was: seq<Pixel>, now: seq<Pixel>, look: Picture, y: nat, x0: nat, x1: nat,
                 ink: int -> Pixel, after: Picture)
    requires Sits(l, was) && Shows(l, was, look) && y < l.height
    requires RunDrawn(was, now, l.stride, l.rows, l.origin + y, x0, x1, ink)
    requires forall u, v {:trigger after(u, v)} :: 0 <= u < l.width && 0 <= v < l.height ==>
               after(u, v) == if v == y && x0 <= u < x1 then ink(u) else look(u, v)
    ensures Sits(l, now) && Shows(l, now, after)
  {
    forall u: nat, v: nat {:trigger Seen(l, now, u, v)} | u < l.width && v < l.height
      ensures Seen(l, now, u, v) == after(u, v)
    {
      assert Seen(l, was, u, v) == look(u, v);
      assert Look(now, l.stride, l.origin + v, u)
          == if v == y && x0 <= u < x1 then ink(u) else Look(was, l.stride, l.origin + v, u);
    }
  }

  /** A row of a filled box: drawn directly, or copied from a row already filled. */
  lemma FilledRow(l: Layout, was: seq<Pixel>, now: seq<Pixel>, look: Picture, b: Box, y: nat, p: Pixel,
                  ink: int -> Pixel)
    requires Sits(l, was) && 0 <= b.x0 <= b.x1 < l.width && 0 <= b.y0 <= y < l.height
    requires Shows(l, was, Filled(look, b.(y1 := y - 1), p))
    requires RunDrawn(was, now, l.stride, l.rows, l.origin + y, b.x0, b.x1 + 1, ink)
    requires forall x :: b.x0 <= x <= b.x1 ==> ink(x) == p
    ensures Sits(l, now) && Shows(l, now, Filled(look, b.(y1 := y), p))
  {
    var before, after := Filled(look, b.(y1 := y - 1), p), Filled(look, b.(y1 := y), p);
    forall u, v {:trigger after(u, v)} | 0 <= u < l.width && 0 <= v < l.height
      ensures after(u, v) == if v == y && b.x0 <= u < b.x1 + 1 then ink(u) else before(u, v)
    {
      assert before(u, v) == if In(b.(y1 := y - 1), u, v) then p else look(u, v);
      assert after(u, v) == if In(b.(y1 := y), u, v) then p else look(u, v);
    }
    RowShows(l, was, now, before, y, b.x0, b.x1 + 1, ink, after);
  }

  /** A row of a moved box: the row it comes from has not been overwritten yet. */
  lemma MovedRow(l: Layout, was: seq<Pixel>, now: seq<Pixel>, look: Picture, b: Box, moved: Box, next: Box, y: nat,
                 dx: int, dy: int)
    requires Sits(l, was) && 0 <= b.x0 <= b.x1 < l.width && b.y0 <= y <= b.y1 < l.height
    requires 0 <= b.x0 + dx && b.x1 + dx < l.width && 0 <= y + dy < l.height
    requires || (moved == b.(y1 := y - 1) && next == b.(y1 := y) && dy > 0)
             || (moved == b.(y0 := y + 1) && next == b.(y0 := y) && dy <= 0)
    requires Shows(l, was, Offset(look, moved, dx, dy))
    requires RunDrawn(was, now, l.stride, l.rows, l.origin + y, b.x0, b.x1 + 1,
                      Shifted(was, l.stride, l.origin + y + dy, b.x0, b.x0 + dx))
    ensures Sits(l, now) && Shows(l, now, Offset(look, next, dx, dy))
  {
    var ink := Shifted(was, l.stride, l.origin + y + dy, b.x0, b.x0 + dx);
    forall x | b.x0 <= x <= b.x1 ensures ink(x) == look(x + dx, y + dy) {
      assert Seen(l, was, x + dx, y + dy) == Offset(look, moved, dx, dy)(x + dx, y + dy);
    }
    var before, after := Offset(look, moved, dx, dy), Offset(look, next, dx, dy);
    forall u, v {:trigger after(u, v)} | 0 <= u < l.width && 0 <= v < l.height
      ensures after(u, v) == if v == y && b.x0 <= u < b.x1 + 1 then ink(u) else before(u, v)
    {
      assert before(u, v) == if In(moved, u, v) then look(u + dx, v + dy) else look(u, v);
      assert after(u, v) == if In(next, u, v) then look(u + dx, v + dy) else look(u, v);
    }
    RowShows(l, was, now, before, y, b.x0, b.x1 + 1, ink, after);
  }
}
