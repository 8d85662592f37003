/** The ink of a run of text: character after character under one clip, each free
    to reach into the cells of the others. */
module TextInk {
  import opened Raster
  import opened Console
  import opened CellGrid

  /** A run of text from a corner on, in a style and two pens; opaqueBg: the
      background is painted first. */
  datatype Run = Run(x: int, top: int, text: seq<int>, opaqueBg: bool, style: int, fg: int, bg: int)

  function MarkAt(t: Run, m: int): Mark {
    Mark(if 0 <= m < |t.text| then t.text[m] else SPACE, t.style, t.fg)
  }

  /** A pixel u columns and v rows from the run's corner, once the first n
      characters have been painted on it, w columns apart. */
  function Painted(k: Face, w: int, t: Run, n: nat, u: int, v: int, below: Pixel): Pixel {
    if n == 0 then below else k.over(MarkAt(t, n - 1), u - (n - 1) * w, v, Painted(k, w, t, n - 1, u, v, below))
  }

  /** What Text() draws: characters and then one underline, on the background or on
      what was there. */
  function RunInk(k: Face, w: int, t: Run, n: nat, look: Picture): Picture {
    (x: int, y: int) =>
      Ruled(k, t.style, t.fg, y - t.top,
            Painted(k, w, t, n, x - t.x, y - t.top, if t.opaqueBg then k.pen(t.bg) else look(x, y)))
  }

  // ------------------------------------------------------------------
  // Characters that keep to their cells
  // ------------------------------------------------------------------

  /** Place i, j of the run's cell m, all n characters painted. */
  function Together(k: Face, w: int, t: Run, n: nat, m: int, i: int, j: int): Pixel {
    Ruled(k, t.style, t.fg, j, Painted(k, w, t, n, m * w + i, j, k.pen(t.bg)))
  }

  /** The same with character m alone. */
  function Alone(k: Face, t: Run, m: int, i: int, j: int): Pixel {
    Ruled(k, t.style, t.fg, j, k.over(MarkAt(t, m), i, j, k.pen(t.bg)))
  }

  /** The other characters of the run make no difference to the place. */
  predicate Clean(k: Face, w: int, t: Run, n: nat, m: int, i: int, j: int) {
    Together(k, w, t, n, m, i, j) == Alone(k, t, m, i, j)
  }

  predicate Place(w: int, h: int, i: int, j: int) { 0 <= i < w && 0 <= j < h }

  /** No ink of character a on the background, d cells to its right. */
  predicate ClearRight(k: Face, w: int, a: Mark, bg: int, d: int, i: int, j: int) {
    k.over(a, d * w + i, j, k.pen(bg)) == k.pen(bg)
  }

  /** No ink of character b on what character a shows, d cells to its left. */
  predicate ClearLeft(k: Face, w: int, a: Mark, b: Mark, bg: int, d: int, i: int, j: int) {
    k.over(b, i - d * w, j, k.over(a, i, j, k.pen(bg))) == k.over(a, i, j, k.pen(bg))
  }

  /** No character of the style and pens inks a cell that is not its own. */
  ghost predicate KeepsIn(k: Face, w: int, h: int, style: int, fg: int, bg: int) {
    && (forall a: int, d: int, i: int, j: int :: d > 0 && Place(w, h, i, j) ==>
          ClearRight(k, w, Mark(a, style, fg), bg, d, i, j))
    && (forall a: int, b: int, d: int, i: int, j: int :: d > 0 && Place(w, h, i, j) ==>
          ClearLeft(k, w, Mark(a, style, fg), Mark(b, style, fg), bg, d, i, j))
  }

  predicate Worn(t: Run, style: int, fg: int, bg: int) { t.style == style && t.fg == fg && t.bg == bg }

  /** Whatever is written in the style and pens, no character disturbs another. */
  ghost predicate AlwaysClean(k: Face, w: int, h: int, style: int, fg: int, bg: int) {
    forall t: Run, n: nat, m: nat, i: int, j: int ::
      Worn(t, style, fg, bg) && m < n <= |t.text| && Place(w, h, i, j) ==> Clean(k, w, t, n, m, i, j)
  }

  lemma Shift(w: int, m: int, n: int, i: int)
    ensures m * w + i - n * w == (m - n) * w + i && m * w + i - n * w == i - (n - m) * w
  {
  }

  lemma {:induction false} PaintedBefore(k: Face, w: int, h: int, t: Run, n: nat, m: nat, i: int, j: int)
    requires KeepsIn(k, w, h, t.style, t.fg, t.bg) && Place(w, h, i, j) && n <= m
    ensures Painted(k, w, t, n, m * w + i, j, k.pen(t.bg)) == k.pen(t.bg)
  {
    if n > 0 {
      PaintedBefore(k, w, h, t, n - 1, m, i, j);
      Shift(w, m, n - 1, i);
      assert ClearRight(k, w, Mark(MarkAt(t, n - 1).character, t.style, t.fg), t.bg, m - (n - 1), i, j);
    }
  }

  lemma {:induction false} PaintedAfter(k: Face, w: int, h: int, t: Run, n: nat, m: nat, i: int, j: int)
    requires KeepsIn(k, w, h, t.style, t.fg, t.bg) && Place(w, h, i, j) && m < n
    ensures Painted(k, w, t, n, m * w + i, j, k.pen(t.bg)) == k.over(MarkAt(t, m), i, j, k.pen(t.bg))
  {
    Shift(w, m, n - 1, i);
    if n == m + 1 {
      PaintedBefore(k, w, h, t, m, m, i, j);
    } else {
      PaintedAfter(k, w, h, t, n - 1, m, i, j);
      assert ClearLeft(k, w, Mark(MarkAt(t, m).character, t.style, t.fg),
                       Mark(MarkAt(t, n - 1).character, t.style, t.fg), t.bg, n - 1 - m, i, j);
    }
  }

  function Spaces(n: nat): seq<int> { seq(n, _ => SPACE) }

  /** Characters of which only the first has ink. */
  lemma {:induction false} PaintedSpaces(k: Face, w: int, t: Run, n: nat, u: int, v: int, below: Pixel)
    requires BlanksAreClear(k) && 0 < n <= |t.text| && forall m :: 0 < m < n ==> t.text[m] == SPACE
    ensures Painted(k, w, t, n, u, v, below) == k.over(MarkAt(t, 0), u, v, below)
  {
    if n > 1 {
      PaintedSpaces(k, w, t, n - 1, u, v, below);
      assert MarkAt(t, n - 1) == Mark(SPACE, t.style, t.fg);
    } else {
      assert Painted(k, w, t, 0, u, v, below) == below;
      assert 0 * w == 0;
    }
  }

  /** A character with a space d cells on tells whether it reaches there. */
  lemma RightTells(k: Face, w: int, h: int, a: int, style: int, fg: int, bg: int, d: nat, i: int, j: int)
    requires BlanksAreClear(k) && !Underlined(style) && d > 0
    requires Place(w, h, i, j) && AlwaysClean(k, w, h, style, fg, bg)
    ensures ClearRight(k, w, Mark(a, style, fg), bg, d, i, j)
  {
    var t := Run(0, 0, [a] + Spaces(d), true, style, fg, bg);
    PaintedSpaces(k, w, t, d + 1, d * w + i, j, k.pen(bg));
    assert Worn(t, style, fg, bg) && Clean(k, w, t, d + 1, d, i, j);
    assert MarkAt(t, 0) == Mark(a, style, fg) && MarkAt(t, d) == Mark(SPACE, style, fg);
  }

  /** And with another d cells on, whether that reaches back. */
  lemma LeftTells(k: Face, w: int, h: int, a: int, b: int, style: int, fg: int, bg: int, d: nat, i: int, j: int)
    requires BlanksAreClear(k) && !Underlined(style) && d > 0
    requires Place(w, h, i, j) && AlwaysClean(k, w, h, style, fg, bg)
    ensures ClearLeft(k, w, Mark(a, style, fg), Mark(b, style, fg), bg, d, i, j)
  {
    var t := Run(0, 0, [a] + Spaces(d - 1) + [b], true, style, fg, bg);
    PaintedSpaces(k, w, t, d, 0 * w + i, j, k.pen(bg));
    assert Worn(t, style, fg, bg) && Clean(k, w, t, d + 1, 0, i, j);
    assert MarkAt(t, 0) == Mark(a, style, fg) && MarkAt(t, d) == Mark(b, style, fg);
    assert 0 * w + i == i;
  }

  /** A font, in a style and two pens, never lets one character of a run disturb
      another exactly when no character of it inks a cell that is not its own. */
  lemma FontKeepsIn(k: Face, w: int, h: int, style: int, fg: int, bg: int)
    requires BlanksAreClear(k) && !Underlined(style)
    ensures AlwaysClean(k, w, h, style, fg, bg) <==> KeepsIn(k, w, h, style, fg, bg)
  {
    if KeepsIn(k, w, h, style, fg, bg) {
      forall t: Run, n: nat, m: nat, i: int, j: int | Worn(t, style, fg, bg) && m < n <= |t.text| && Place(w, h, i, j)
        ensures Clean(k, w, t, n, m, i, j)
      {
        PaintedAfter(k, w, h, t, n, m, i, j);
      }
    }
    if AlwaysClean(k, w, h, style, fg, bg) {
      forall a: int, d: int, i: int, j: int | d > 0 && Place(w, h, i, j)
        ensures ClearRight(k, w, Mark(a, style, fg), bg, d, i, j)
      {
        RightTells(k, w, h, a, style, fg, bg, d, i, j);
      }
      forall a: int, b: int, d: int, i: int, j: int | d > 0 && Place(w, h, i, j)
        ensures ClearLeft(k, w, Mark(a, style, fg), Mark(b, style, fg), bg, d, i, j)
      {
        LeftTells(k, w, h, a, b, style, fg, bg, d, i, j);
      }
    }
  }

  /** One character has no other to disturb. */
  lemma OneIsClean(k: Face, w: int, t: Run, i: int, j: int)
    ensures Clean(k, w, t, 1, 0, i, j)
  {
    assert Painted(k, w, t, 0, 0 * w + i, j, k.pen(t.bg)) == k.pen(t.bg);
    assert 0 * w + i - 0 * w == i;
  }
}
