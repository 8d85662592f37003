/** The console's filter for window titles: ESC ] 2 ; title BEL is taken out of the
    byte stream, everything else goes to the device unchanged. */
module TitleFilter {
  import opened Bytes

  const ESC: byte := 0x1B
  const BEL: byte := 0x07
  const BRACKET: byte := 0x5D
  const TWO: byte := 0x32
  const SEMICOLON: byte := 0x3B
  const BUFFER_SIZE := 1024

  /** How far into a title sequence the stream is: the bytes of the introducer
      seen (0 to 4), and the title so far. */
  datatype Filter = Filter(state: nat, title: Text)

  const IDLE := Filter(0, [])

  /** What the filter makes of its input, in order. */
  datatype Item = Passed(b: byte) | Title(text: Text)

  const INTRODUCER: Text := [ESC, BRACKET, TWO, SEMICOLON]

  function Passing(t: Text): (r: seq<Item>)
    ensures |r| == |t| && forall i :: 0 <= i < |t| ==> r[i] == Passed(t[i])
  {
    seq(|t|, i requires 0 <= i < |t| => Passed(t[i]))
  }

  /** Where one more byte leads. */
  function Next(f: Filter, b: byte): Filter {
    if f.state == 0 then if b == ESC then f.(state := 1) else f
    else if f.state == 1 then f.(state := if b == BRACKET then 2 else 0)
    else if f.state == 2 then f.(state := if b == TWO then 3 else 0)
    else if f.state == 3 then if b == SEMICOLON then Filter(4, []) else f.(state := 0)
    else if b == BEL || b == ESC || |f.title| + 1 >= BUFFER_SIZE then f.(state := 0)
    else f.(title := f.title + [b])
  }

  /** What comes out on one more byte: nothing while a title is in the making, the
      title when it is complete, and everything held when it turns out not to be one. */
  function Out(f: Filter, b: byte): seq<Item> {
    if f.state == 0 then if b == ESC then [] else [Passed(b)]
    else if f.state == 1 then if b == BRACKET then [] else Passing([ESC, b])
    else if f.state == 2 then if b == TWO then [] else Passing([ESC, BRACKET, b])
    else if f.state == 3 then if b == SEMICOLON then [] else Passing([ESC, BRACKET, TWO, b])
    else if b == BEL then [Title(f.title)]
    else if b == ESC || |f.title| + 1 >= BUFFER_SIZE then Passing(INTRODUCER + f.title + [b])
    else []
  }

  /** Where a stretch of input leads. */
  function State(f: Filter, data: Text): Filter {
    if data == [] then f else Next(State(f, data[..|data| - 1]), data[|data| - 1])
  }

  /** What comes out on a stretch of input. */
  function Items(f: Filter, data: Text): seq<Item> {
    if data == [] then []
    else Items(f, data[..|data| - 1]) + Out(State(f, data[..|data| - 1]), data[|data| - 1])
  }

  /** One read after another. */
  function ChunkState(f: Filter, chunks: seq<Text>): Filter {
    if chunks == [] then f else State(ChunkState(f, chunks[..|chunks| - 1]), chunks[|chunks| - 1])
  }

  function ChunkItems(f: Filter, chunks: seq<Text>): seq<Item> {
    if chunks == [] then []
    else
      ChunkItems(f, chunks[..|chunks| - 1]) + Items(ChunkState(f, chunks[..|chunks| - 1]), chunks[|chunks| - 1])
  }

  function Concat(chunks: seq<Text>): Text {
    if chunks == [] then [] else Concat(chunks[..|chunks| - 1]) + chunks[|chunks| - 1]
  }

  /** The bytes the device gets. */
  function ToDevice(items: seq<Item>): Text {
    if items == [] then []
    else ToDevice(items[..|items| - 1]) + if items[|items| - 1].Passed? then [items[|items| - 1].b] else []
  }

  /** The titles set, as C strings. */
  function Titles(items: seq<Item>): seq<Text> {
    if items == [] then []
    else Titles(items[..|items| - 1]) + if items[|items| - 1].Title? then [CString(items[|items| - 1].text)] else []
  }

  function Spell(item: Item): Text {
    if item.Passed? then [item.b] else INTRODUCER + item.text + [BEL]
  }

  /** The stream with every title put back where it was. */
  function Restore(items: seq<Item>): Text {
    if items == [] then [] else Restore(items[..|items| - 1]) + Spell(items[|items| - 1])
  }

  /** The bytes held back because a title may be in the making. */
  function Held(f: Filter): Text {
    if f.state < 4 then INTRODUCER[..f.state] else INTRODUCER + f.title
  }

  /** The title and its terminator always fit the buffer. */
  predicate Valid(f: Filter) { f.state <= 4 && |f.title| < BUFFER_SIZE }

  lemma Regroup<T>(a: seq<T>, b: seq<T>, c: seq<T>)
    ensures a + (b + c) == a + b + c
  {
  }

  lemma Shorter<T>(a: seq<T>, b: seq<T>)
    requires b != []
    ensures (a + b)[..|a + b| - 1] == a + b[..|b| - 1] && (a + b)[|a + b| - 1] == b[|b| - 1]
  {
  }

  // ------------------------------------------------------------------
  // Chunks
  // ------------------------------------------------------------------

  lemma {:induction false} Splits(f: Filter, a: Text, b: Text)
    ensures State(f, a + b) == State(State(f, a), b)
    ensures Items(f, a + b) == Items(f, a) + Items(State(f, a), b)
  {
    if b == [] {
      assert a + b == a;
    } else {
      var n, g := |b| - 1, State(f, a);
      Splits(f, a, b[..n]);
      Shorter(a, b);
      Regroup(Items(f, a), Items(g, b[..n]), Out(State(g, b[..n]), b[n]));
    }
  }

  /** However the stream is cut into reads, the outcome is that of one read of it all. */
  lemma {:induction false} ChunksDoNotMatter(f: Filter, chunks: seq<Text>)
    ensures ChunkState(f, chunks) == State(f, Concat(chunks)) && ChunkItems(f, chunks) == Items(f, Concat(chunks))
  {
    if chunks != [] {
      var n := |chunks| - 1;
      ChunksDoNotMatter(f, chunks[..n]);
      Splits(f, Concat(chunks[..n]), chunks[n]);
    }
  }

  // ------------------------------------------------------------------
  // Nothing is lost
  // ------------------------------------------------------------------

  lemma {:induction false} RestoreJoins(a: seq<Item>, b: seq<Item>)
    ensures Restore(a + b) == Restore(a) + Restore(b)
  {
    if b == [] {
      assert a + b == a;
    } else {
      var n := |b| - 1;
      RestoreJoins(a, b[..n]);
      Shorter(a, b);
      Regroup(Restore(a), Restore(b[..n]), Spell(b[n]));
    }
  }

  lemma {:induction false} RestorePassing(t: Text)
    ensures Restore(Passing(t)) == t
  {
    if t != [] {
      var n := |t| - 1;
      RestorePassing(t[..n]);
      assert Passing(t)[..n] == Passing(t[..n]);
      assert t == t[..n] + [t[n]];
    }
  }

  lemma RestoreOne(item: Item)
    ensures Restore([item]) == Spell(item)
  {
    assert [item][..0] == [];
    assert Restore([item][..0]) == [];
  }

  /** A byte in: what was held and the byte are what comes out and what is held. */
  ghost predicate Keeps(f: Filter, b: byte) {
    Restore(Out(f, b)) + Held(Next(f, b)) == Held(f) + [b]
  }

  /** A byte that breaks an introducer off lets out what was held and itself. */
  lemma BrokenOff(f: Filter, b: byte)
    requires f.state < 4 && b != INTRODUCER[f.state]
    ensures Out(f, b) == Passing(INTRODUCER[..f.state] + [b])
  {
    var t := INTRODUCER[..f.state] + [b];
    if f.state == 0 {
      assert t == [b];
    } else if f.state == 1 {
      assert t == [ESC, b];
    } else if f.state == 2 {
      assert t == [ESC, BRACKET, b];
    } else {
      assert t == [ESC, BRACKET, TWO, b];
    }
  }

  lemma IntroducerKeeps(f: Filter, b: byte)
    requires f.state < 4
    ensures Keeps(f, b)
  {
    if b == INTRODUCER[f.state] {
      GoesOn(f);
    } else {
      BrokenOff(f, b);
      RestorePassing(INTRODUCER[..f.state] + [b]);
      assert Held(Next(f, b)) == [];
    }
  }

  /** The next byte of the introducer is held with the others. */
  lemma GoesOn(f: Filter)
    requires f.state < 4
    ensures Keeps(f, INTRODUCER[f.state])
  {
    var n := f.state;
    assert INTRODUCER[..n + 1] == INTRODUCER[..n] + [INTRODUCER[n]];
    assert Out(f, INTRODUCER[n]) == [] && Held(Next(f, INTRODUCER[n])) == INTRODUCER[..n + 1];
  }

  lemma TitleKeeps(f: Filter, b: byte)
    requires f.state == 4
    ensures Keeps(f, b)
  {
    RestorePassing(INTRODUCER + f.title + [b]);
    RestoreOne(Title(f.title));
    Regroup(INTRODUCER, f.title, [b]);
  }

  lemma Glue(r: Text, h: Text, d: Text, o: Text, next: Text, b: byte)
    requires r + h == d && o + next == h + [b]
    ensures r + o + next == d + [b]
  {
    Regroup(r, o, next);
    Regroup(r, h, [b]);
  }

  lemma NextKeeps(f: Filter, b: byte)
    requires Valid(f)
    ensures Valid(Next(f, b)) && Keeps(f, b)
  {
    if f.state < 4 { IntroducerKeeps(f, b); } else { TitleKeeps(f, b); }
  }

  /** After data has gone in, items have come out and f is held: nothing is lost. */
  ghost predicate Fed(f: Filter, items: seq<Item>, data: Text) {
    Valid(f) && Restore(items) + Held(f) == data
  }

  lemma OneMore(f: Filter, items: seq<Item>, data: Text, b: byte)
    requires Fed(f, items, data)
    ensures Fed(Next(f, b), items + Out(f, b), data + [b])
  {
    NextKeeps(f, b);
    Glue(Restore(items), Held(f), data, Restore(Out(f, b)), Held(Next(f, b)), b);
    RestoreJoins(items, Out(f, b));
  }

  lemma {:induction false} FedAll(data: Text)
    ensures Fed(State(IDLE, data), Items(IDLE, data), data)
  {
    if data == [] {
      assert Restore([]) + Held(IDLE) == [];
    } else {
      var n := |data| - 1;
      FedAll(data[..n]);
      OneMore(State(IDLE, data[..n]), Items(IDLE, data[..n]), data[..n], data[n]);
      assert data == data[..n] + [data[n]];
    }
  }

  /** For every stream: what passed, with the titles taken out put back, and what is
      still held, are the stream; and the title buffer never overflows. */
  lemma Lossless(data: Text)
    ensures Valid(State(IDLE, data))
    ensures Restore(Items(IDLE, data)) + Held(State(IDLE, data)) == data
  {
    FedAll(data);
  }

  // ------------------------------------------------------------------
  // Which titles are recognised
  // ------------------------------------------------------------------

  predicate Proper(t: Text) { ESC !in t && BEL !in t && |t| < BUFFER_SIZE }

  lemma One(f: Filter, t: Text, b: byte)
    ensures State(f, t + [b]) == Next(State(f, t), b) && Items(f, t + [b]) == Items(f, t) + Out(State(f, t), b)
  {
    assert (t + [b])[..|t|] == t;
  }

  lemma {:induction false} Collects(t: Text)
    requires Proper(t)
    ensures State(Filter(4, []), t) == Filter(4, t) && Items(Filter(4, []), t) == []
  {
    if t != [] {
      var n := |t| - 1;
      Collects(t[..n]);
      assert t == t[..n] + [t[n]];
    }
  }

  lemma Introduces(f: Filter)
    requires f.state == 0
    ensures State(f, INTRODUCER) == Filter(4, []) && Items(f, INTRODUCER) == []
  {
    One(f, [], ESC);
    One(f, [] + [ESC], BRACKET);
    One(f, [] + [ESC] + [BRACKET], TWO);
    One(f, [] + [ESC] + [BRACKET] + [TWO], SEMICOLON);
    assert INTRODUCER == [] + [ESC] + [BRACKET] + [TWO] + [SEMICOLON];
  }

  /** With an ESC or a BEL in it, or too long, a title has had something come out
      before its end. */
  lemma {:induction false} Improper(t: Text)
    requires !Proper(t)
    ensures Items(Filter(4, []), t) != []
  {
    var n := |t| - 1;
    if Proper(t[..n]) {
      Collects(t[..n]);
      assert t == t[..n] + [t[n]];
      Rejected(Filter(4, t[..n]), t[n]);
    } else {
      Improper(t[..n]);
    }
  }

  lemma Rejected(f: Filter, b: byte)
    requires f.state == 4 && (b == ESC || b == BEL || |f.title| + 1 >= BUFFER_SIZE)
    ensures |Out(f, b)| > 0
  {
  }

  lemma BellComesOut(f: Filter)
    ensures |Out(f, BEL)| > 0
  {
  }

  /** Between sequences, a title sequence is taken out whole exactly when the title
      has no ESC, no BEL and fits the buffer. */
  lemma TitleTaken(f: Filter, t: Text)
    requires f.state == 0
    ensures Proper(t) <==> Items(f, INTRODUCER + t + [BEL]) == [Title(t)]
  {
    Introduces(f);
    Splits(f, INTRODUCER, t);
    One(f, INTRODUCER + t, BEL);
    AfterIntroducer(t);
  }

  lemma AfterIntroducer(t: Text)
    ensures Proper(t) <==> [] + Items(Filter(4, []), t) + Out(State(Filter(4, []), t), BEL) == [Title(t)]
  {
    if Proper(t) {
      Collects(t);
    } else {
      Improper(t);
      BellComesOut(State(Filter(4, []), t));
    }
  }
}
