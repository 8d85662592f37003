/** A picture stored row after row in one buffer, and the three ways the surface
    writes to it: a run of one colour, a run copied from another place, and whole
    rows moved to the top.  Each is stated on rows and columns, for every row and
    column of the buffer. */
module Raster {
  type Pixel = int

  /** Words in the first r rows. */
  function Rows(stride: nat, r: nat): nat {
    if r == 0 then 0 else Rows(stride, r - 1) + stride
  }

  lemma {:induction false} RowsAdd(stride: nat, r: nat, s: nat)
    ensures Rows(stride, r + s) == Rows(stride, r) + Rows(stride, s)
  {
    if s > 0 { RowsAdd(stride, r, s - 1); }
  }

  lemma {:induction false} RowsAbove(stride: nat, r: nat, s: nat)
    requires r < s
    ensures Rows(stride, r) + stride <= Rows(stride, s)
  {
    if r < s - 1 { RowsAbove(stride, r, s - 1); }
  }

  lemma {:induction false} RowsProduct(stride: nat, r: nat)
    ensures Rows(stride, r) == r * stride
  {
    if r > 0 { RowsProduct(stride, r - 1); }
  }

  /** The word of row r, column x. */
  function Word(stride: nat, r: nat, x: nat): nat { Rows(stride, r) + x }

  lemma WordInside(stride: nat, rows: nat, r: nat, x: nat)
    requires r < rows && x < stride
    ensures Word(stride, r, x) < Rows(stride, rows)
  {
    RowsAbove(stride, r, rows);
  }

  /** Every word is one row's and one column's. */
  lemma WordUnique(stride: nat, r: nat, x: nat, s: nat, y: nat)
    requires x < stride && y < stride && Word(stride, r, x) == Word(stride, s, y)
    ensures r == s && x == y
  {
    if r < s { RowsAbove(stride, r, s); } else if s < r { RowsAbove(stride, s, r); }
  }

  /** A buffer of so many rows. */
  ghost predicate Fits(buf: seq<Pixel>, stride: nat, rows: nat) {
    |buf| == Rows(stride, rows)
  }

  /** What row r shows in column x. */
  ghost function Look(buf: seq<Pixel>, stride: nat, r: nat, x: nat): Pixel {
    if Word(stride, r, x) < |buf| then buf[Word(stride, r, x)] else 0
  }

  /** now is was but for columns x0 up to x1 of row r, which are ink. */
  ghost predicate RunDrawn(was: seq<Pixel>, now: seq<Pixel>, stride: nat, rows: nat, r: nat, x0: nat, x1: nat,
                           ink: int -> Pixel)
  {
    && Fits(now, stride, rows)
    && forall s: nat, x: nat {:trigger Look(now, stride, s, x)} :: s < rows && x < stride ==>
         Look(now, stride, s, x) == if s == r && x0 <= x < x1 then ink(x) else Look(was, stride, s, x)
  }

  /** Consecutive words, and nothing else, take new values. */
  lemma DrawnIsRun(was: seq<Pixel>, now: seq<Pixel>, stride: nat, rows: nat, r: nat, x0: nat, x1: nat,
                   ink: int -> Pixel)
    requires Fits(was, stride, rows) && |now| == |was| && r < rows && x0 <= x1 <= stride
    requires forall i {:trigger now[i]} :: 0 <= i < |was| ==>
               now[i] == if Word(stride, r, x0) <= i < Word(stride, r, x1) then ink(i - Rows(stride, r)) else was[i]
    ensures RunDrawn(was, now, stride, rows, r, x0, x1, ink)
  {
    forall s: nat, x: nat {:trigger Look(now, stride, s, x)} | s < rows && x < stride
      ensures Look(now, stride, s, x) == if s == r && x0 <= x < x1 then ink(x) else Look(was, stride, s, x)
    {
      WordInside(stride, rows, s, x);
      InRun(stride, r, x0, x1, s, x);
    }
  }

  /** A word lies in a run of row r exactly when its row is r and its column is in the run. */
  lemma InRun(stride: nat, r: nat, x0: nat, x1: nat, s: nat, x: nat)
    requires x0 <= x1 <= stride && x < stride
    ensures Word(stride, r, x0) <= Word(stride, s, x) < Word(stride, r, x1) <==> s == r && x0 <= x < x1
  {
    if s < r { RowsAbove(stride, s, r); } else if r < s { RowsAbove(stride, r, s); }
  }

  /** Word by word, one colour. */
  method FillRun(a: array<Pixel>, stride: nat, ghost rows: nat, ghost r: nat, start: nat, x0: nat, x1: nat,
                 pixel: Pixel)
    requires Fits(a[..], stride, rows) && r < rows && x0 <= x1 <= stride && start == Rows(stride, r)
    modifies a
    ensures RunDrawn(old(a[..]), a[..], stride, rows, r, x0, x1, (_: int) => pixel)
  {
    RowsAbove(stride, r, rows);
    ghost var was := a[..];
    var x := x0;
    while x < x1
      invariant x0 <= x <= x1
      invariant forall i :: 0 <= i < a.Length ==> a[i] == if start + x0 <= i < start + x then pixel else was[i]
    {
      a[start + x] := pixel;
      x := x + 1;
    }
    DrawnIsRun(was, a[..], stride, rows, r, x0, x1, (_: int) => pixel);
  }

  /** now is was with n words from s on laid over the words from d on. */
  ghost predicate Moves(was: seq<Pixel>, now: seq<Pixel>, d: nat, s: nat, n: nat)
    requires d + n <= |was| && s + n <= |was|
  {
    && |now| == |was|
    && (forall i {:trigger now[i]} :: d <= i < d + n ==> now[i] == was[s + (i - d)])
    && (forall i {:trigger now[i]} :: 0 <= i < |was| && !(d <= i < d + n) ==> now[i] == was[i])
  }

  /** memmove(): as if by way of a copy. */
  method Memmove(a: array<Pixel>, d: nat, s: nat, n: nat)
    requires d + n <= a.Length && s + n <= a.Length
    modifies a
    ensures Moves(old(a[..]), a[..], d, s, n)
  {
    forall i | d <= i < d + n { a[i] := a[s + (i - d)]; }
  }

  /** What row q shows from column from on, laid from column x0 on. */
  ghost function Shifted(buf: seq<Pixel>, stride: nat, q: nat, x0: nat, from: nat): int -> Pixel {
    (x: int) => if x0 <= x then Look(buf, stride, q, from + (x - x0)) else 0
  }

  /** Columns x0 up to x1 of row r, taken from row q. */
  method CopyRun(a: array<Pixel>, stride: nat, ghost rows: nat, ghost r: nat, ghost q: nat, rStart: nat, qStart: nat,
                 x0: nat, x1: nat, from: nat)
    requires Fits(a[..], stride, rows) && r < rows && q < rows && x0 <= x1 <= stride && from + (x1 - x0) <= stride
    requires rStart == Rows(stride, r) && qStart == Rows(stride, q)
    modifies a
    ensures RunDrawn(old(a[..]), a[..], stride, rows, r, x0, x1, Shifted(old(a[..]), stride, q, x0, from))
  {
    RowsAbove(stride, r, rows);
    RowsAbove(stride, q, rows);
    ghost var was := a[..];
    Memmove(a, rStart + x0, qStart + from, x1 - x0);
    MovedIsRun(was, a[..], stride, rows, r, q, x0, x1, from);
  }

  lemma MovedIsRun(was: seq<Pixel>, now: seq<Pixel>, stride: nat, rows: nat, r: nat, q: nat, x0: nat, x1: nat,
                   from: nat)
    requires Fits(was, stride, rows) && r < rows && q < rows && x0 <= x1 <= stride && from + (x1 - x0) <= stride
    requires Rows(stride, r) + stride <= |was| && Rows(stride, q) + stride <= |was|
    requires Moves(was, now, Rows(stride, r) + x0, Rows(stride, q) + from, x1 - x0)
    ensures RunDrawn(was, now, stride, rows, r, x0, x1, Shifted(was, stride, q, x0, from))
  {
    var ink := Shifted(was, stride, q, x0, from);
    forall s: nat, x: nat {:trigger Look(now, stride, s, x)} | s < rows && x < stride
      ensures Look(now, stride, s, x) == if s == r && x0 <= x < x1 then ink(x) else Look(was, stride, s, x)
    {
      if s == r && x0 <= x < x1 {
        OnRun(was, now, stride, r, q, x0, x1, from, x);
      } else {
        OffRun(was, now, stride, rows, r, q, x0, x1, from, s, x);
      }
    }
  }

  lemma OnRun(was: seq<Pixel>, now: seq<Pixel>, stride: nat, r: nat, q: nat, x0: nat, x1: nat, from: nat, x: nat)
    requires x0 <= x < x1 && Rows(stride, r) + x1 <= |was| && Rows(stride, q) + from + (x1 - x0) <= |was|
    requires Moves(was, now, Rows(stride, r) + x0, Rows(stride, q) + from, x1 - x0)
    ensures Look(now, stride, r, x) == Look(was, stride, q, from + (x - x0))
  {
    var i := x - x0;
    assert Word(stride, r, x) == Rows(stride, r) + x0 + i && Word(stride, q, from + i) == Rows(stride, q) + from + i;
  }

  lemma OffRun(was: seq<Pixel>, now: seq<Pixel>, stride: nat, rows: nat, r: nat, q: nat, x0: nat, x1: nat, from: nat,
               s: nat, x: nat)
    requires x0 <= x1 <= stride && Rows(stride, r) + x1 <= |was| && Rows(stride, q) + from + (x1 - x0) <= |was|
    requires Moves(was, now, Rows(stride, r) + x0, Rows(stride, q) + from, x1 - x0)
    requires s < rows && x < stride && Fits(was, stride, rows) && !(s == r && x0 <= x < x1)
    ensures Look(now, stride, s, x) == Look(was, stride, s, x)
  {
    WordInside(stride, rows, s, x);
    if s < r { RowsAbove(stride, s, r); } else if r < s { RowsAbove(stride, r, s); }
  }

  /** n whole rows, from row q on, to the top. */
  method MoveRowsUp(a: array<Pixel>, stride: nat, ghost rows: nat, ghost q: nat, qStart: nat, ghost n: nat, words: nat)
    requires Fits(a[..], stride, rows) && q + n <= rows && qStart == Rows(stride, q) && words == Rows(stride, n)
    modifies a
    ensures RowsMoved(old(a[..]), a[..], stride, rows, q, n)
  {
    RowsAdd(stride, q, n);
    if q + n < rows { RowsAbove(stride, q + n, rows); }
    ghost var was := a[..];
    Memmove(a, 0, qStart, words);
    ghost var now := a[..];
    forall r: nat, x: nat {:trigger Look(now, stride, r, x)} | r < n && x < stride
      ensures Look(now, stride, r, x) == Look(was, stride, q + r, x)
    {
      RowsAbove(stride, r, n);
      RowsAdd(stride, q, r);
      assert now[Word(stride, r, x)] == was[qStart + Word(stride, r, x)];
    }
  }

  /** The first n rows are now those from row q on. */
  ghost predicate RowsMoved(was: seq<Pixel>, now: seq<Pixel>, stride: nat, rows: nat, q: nat, n: nat) {
    && Fits(now, stride, rows)
    && forall r: nat, x: nat {:trigger Look(now, stride, r, x)} :: r < n && x < stride ==>
      Look(now, stride, r, x) == Look(was, stride, q + r, x)
  }
}
