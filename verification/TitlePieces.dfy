/** The title filter by what a stream is made of: bytes of their own, title sequences,
    sequences broken off, and at the end perhaps one unfinished. */
module TitlePieces {
  import opened Bytes
  import opened TitleFilter

  /** An introducer begun and not gone on with. */
  predicate Abandoned(p: Text) {
    2 <= |p| <= 4 && p[..|p| - 1] == INTRODUCER[..|p| - 1] && p[|p| - 1] != INTRODUCER[|p| - 1]
  }

  /** The title of a sequence that has come to its last byte. */
  function Inner(p: Text): Text
    requires |p| >= 5
  {
    p[4..|p| - 1]
  }

  predicate Titled(p: Text) { |p| >= 5 && p[..4] == INTRODUCER && Proper(Inner(p)) }

  /** A title sequence, whole. */
  predicate Complete(p: Text) { Titled(p) && p[|p| - 1] == BEL }

  /** One that an ESC or one byte too many has spoilt. */
  predicate Spoilt(p: Text) {
    Titled(p) && (p[|p| - 1] == ESC || (|Inner(p)| == 1023 && p[|p| - 1] != BEL))
  }

  predicate Piece(p: Text) { (|p| == 1 && p[0] != ESC) || Abandoned(p) || Complete(p) || Spoilt(p) }

  /** What may yet become a title sequence. */
  predicate Unfinished(p: Text) {
    || (|p| < 4 && p == INTRODUCER[..|p|])
    || (|p| >= 4 && p[..4] == INTRODUCER && Proper(p[4..]))
  }

  /** A title sequence comes out as its title, anything else as it is. */
  function PieceItems(p: Text): seq<Item> { if Complete(p) then [Title(Inner(p))] else Passing(p) }

  // ------------------------------------------------------------------
  // One piece
  // ------------------------------------------------------------------

  lemma {:induction false} Begins(f: Filter, n: nat)
    requires f.state == 0 && n <= 4
    ensures State(f, INTRODUCER[..n]).state == n && Items(f, INTRODUCER[..n]) == []
    ensures n == 4 ==> State(f, INTRODUCER[..n]) == Filter(4, [])
  {
    if n > 0 {
      Begins(f, n - 1);
      assert INTRODUCER[..n] == INTRODUCER[..n - 1] + [INTRODUCER[n - 1]];
      One(f, INTRODUCER[..n - 1], INTRODUCER[n - 1]);
    }
  }

  lemma SplitLast(p: Text)
    requires p != []
    ensures p == p[..|p| - 1] + [p[|p| - 1]]
  {
  }

  lemma AbandonedPasses(f: Filter, p: Text)
    requires f.state == 0 && Abandoned(p)
    ensures Items(f, p) == Passing(p) && State(f, p).state == 0
  {
    var n := |p| - 1;
    Begins(f, n);
    SplitLast(p);
    One(f, p[..n], p[n]);
    BrokenOff(State(f, p[..n]), p[n]);
  }

  /** A title is gathered and nothing comes out. */
  lemma Gathers(f: Filter, t: Text)
    requires f.state == 0 && Proper(t)
    ensures State(f, INTRODUCER + t) == Filter(4, t) && Items(f, INTRODUCER + t) == []
  {
    Introduces(f);
    Splits(f, INTRODUCER, t);
    Collects(t);
  }

  lemma Ending(t: Text, b: byte)
    requires Proper(t) && (b == BEL || b == ESC || |t| == 1023)
    ensures Next(Filter(4, t), b).state == 0
    ensures Out(Filter(4, t), b) == if b == BEL then [Title(t)] else Passing(INTRODUCER + t + [b])
  {
  }

  lemma TitledEnds(f: Filter, p: Text)
    requires f.state == 0 && (Complete(p) || Spoilt(p))
    ensures Items(f, p) == PieceItems(p) && State(f, p).state == 0
  {
    var t, b := Inner(p), p[|p| - 1];
    assert p[..|p| - 1] == INTRODUCER + t;
    SplitLast(p);
    Gathers(f, t);
    One(f, INTRODUCER + t, b);
    Ending(t, b);
  }

  /** A piece between sequences comes out as it should, and leaves the filter between
      sequences. */
  lemma PieceComesOut(f: Filter, p: Text)
    requires f.state == 0 && Piece(p)
    ensures Items(f, p) == PieceItems(p) && State(f, p).state == 0
  {
    if Abandoned(p) {
      AbandonedPasses(f, p);
    } else if Complete(p) || Spoilt(p) {
      TitledEnds(f, p);
    } else {
      assert p == [] + [p[0]];
      One(f, [], p[0]);
      assert Passing(p) == [Passed(p[0])];
    }
  }

  lemma UnfinishedIsHeld(f: Filter, p: Text)
    requires f.state == 0 && Unfinished(p)
    ensures Items(f, p) == [] && Held(State(f, p)) == p
  {
    if |p| < 4 {
      Begins(f, |p|);
    } else {
      assert p == INTRODUCER + p[4..];
      Gathers(f, p[4..]);
    }
  }

  // ------------------------------------------------------------------
  // Whole streams
  // ------------------------------------------------------------------

  function AllItems(pieces: seq<Text>): seq<Item> {
    if pieces == [] then [] else AllItems(pieces[..|pieces| - 1]) + PieceItems(pieces[|pieces| - 1])
  }

  predicate AllPieces(pieces: seq<Text>) { forall i :: 0 <= i < |pieces| ==> Piece(pieces[i]) }

  lemma {:induction false} PiecesComeOut(f: Filter, pieces: seq<Text>)
    requires f.state == 0 && AllPieces(pieces)
    ensures Items(f, Concat(pieces)) == AllItems(pieces) && State(f, Concat(pieces)).state == 0
  {
    if pieces != [] {
      var n := |pieces| - 1;
      PiecesComeOut(f, pieces[..n]);
      Splits(f, Concat(pieces[..n]), pieces[n]);
      PieceComesOut(State(f, Concat(pieces[..n])), pieces[n]);
    }
  }

  /** However a stream is made of pieces and a rest, its titles come out as titles,
      every other piece as it is, and the rest is held. */
  lemma StreamExactly(pieces: seq<Text>, rest: Text)
    requires AllPieces(pieces) && Unfinished(rest)
    ensures Items(IDLE, Concat(pieces) + rest) == AllItems(pieces)
    ensures Held(State(IDLE, Concat(pieces) + rest)) == rest
  {
    PiecesComeOut(IDLE, pieces);
    Splits(IDLE, Concat(pieces), rest);
    UnfinishedIsHeld(State(IDLE, Concat(pieces)), rest);
  }

  /** How much of the stream is an introducer. */
  function Matched(data: Text, n: nat): (m: nat)
    requires n <= |data| && n <= 4 && data[..n] == INTRODUCER[..n]
    ensures m <= |data| && m <= 4 && data[..m] == INTRODUCER[..m]
    ensures m < 4 && m < |data| ==> data[m] != INTRODUCER[m]
    decreases 4 - n
  {
    if n == 4 || n == |data| || data[n] != INTRODUCER[n] then n
    else
      assert data[..n + 1] == data[..n] + [data[n]] && INTRODUCER[..n + 1] == INTRODUCER[..n] + [INTRODUCER[n]];
      Matched(data, n + 1)
  }

  /** How much of the stream, from n on, is a proper title. */
  function TitleEnd(data: Text, n: nat): (m: nat)
    requires 4 <= n <= |data| && Proper(data[4..n])
    ensures n <= m <= |data| && Proper(data[4..m])
    ensures m < |data| ==> data[m] == ESC || data[m] == BEL || m - 4 == 1023
    decreases |data| - n
  {
    if n == |data| || data[n] == ESC || data[n] == BEL || n - 4 == 1023 then n
    else
      assert data[4..n + 1] == data[4..n] + [data[n]];
      TitleEnd(data, n + 1)
  }

  /** Every stream is unfinished, or starts with a piece. */
  lemma FirstPiece(data: Text) returns (n: nat)
    requires !Unfinished(data)
    ensures 0 < n <= |data| && Piece(data[..n])
  {
    var m := Matched(data, 0);
    assert data[..|data|] == data;
    if m < 4 {
      n := m + 1;
      assert data[..n][..m] == data[..m];
    } else {
      var e := TitleEnd(data, 4);
      assert data[4..|data|] == data[4..];
      n := e + 1;
      var p := data[..n];
      assert p[..4] == data[..4] && Inner(p) == data[4..e] && p[|p| - 1] == data[e];
    }
  }

  lemma ConcatLast(pieces: seq<Text>, p: Text)
    ensures Concat(pieces + [p]) == Concat(pieces) + p
  {
    assert (pieces + [p])[..|pieces|] == pieces;
  }

  lemma {:induction false} ConcatFront(p: Text, pieces: seq<Text>)
    ensures Concat([p] + pieces) == p + Concat(pieces)
  {
    if pieces == [] {
      ConcatLast([], p);
      assert [p] + pieces == [] + [p] && [] + p == p + [];
    } else {
      var front, last := pieces[..|pieces| - 1], pieces[|pieces| - 1];
      ConcatFront(p, front);
      assert [p] + pieces == [p] + front + [last] && pieces == front + [last];
      ConcatLast([p] + front, last);
      ConcatLast(front, last);
      Regroup(p, Concat(front), last);
    }
  }

  lemma JoinPieces(data: Text, n: nat, more: seq<Text>, last: Text)
    requires n <= |data| && data[n..] == Concat(more) + last
    ensures data == Concat([data[..n]] + more) + last
  {
    ConcatFront(data[..n], more);
    Regroup(data[..n], Concat(more), last);
    assert data == data[..n] + data[n..];
  }

  lemma AllPiecesFront(p: Text, pieces: seq<Text>)
    requires Piece(p) && AllPieces(pieces)
    ensures AllPieces([p] + pieces)
  {
  }

  /** And so every stream is made of pieces and a rest. */
  lemma {:induction false} EveryStream(data: Text) returns (pieces: seq<Text>, rest: Text)
    ensures AllPieces(pieces) && Unfinished(rest) && data == Concat(pieces) + rest
    decreases |data|
  {
    if Unfinished(data) {
      pieces, rest := [], data;
      assert Concat([]) + data == data;
    } else {
      var n := FirstPiece(data);
      pieces, rest := EveryStream(data[n..]);
      JoinPieces(data, n, pieces, rest);
      AllPiecesFront(data[..n], pieces);
      pieces := [data[..n]] + pieces;
    }
  }
}
