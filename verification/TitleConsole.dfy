/** output_console(): the filter run byte by byte over each read, with the title in
    a fixed buffer and the bytes for the device gathered in another. */
module TitleConsole {
  import opened Bytes
  import opened TitleFilter

  const GATHERED := 8192

  // ------------------------------------------------------------------
  // What goes where
  // ------------------------------------------------------------------

  lemma {:induction false} OutJoins(a: seq<Item>, b: seq<Item>)
    ensures ToDevice(a + b) == ToDevice(a) + ToDevice(b) && Titles(a + b) == Titles(a) + Titles(b)
  {
    if b == [] {
      assert a + b == a;
    } else {
      var n := |b| - 1;
      OutJoins(a, b[..n]);
      Shorter(a, b);
      Regroup(ToDevice(a), ToDevice(b[..n]), if b[n].Passed? then [b[n].b] else []);
      Regroup(Titles(a), Titles(b[..n]), if b[n].Title? then [CString(b[n].text)] else []);
    }
  }

  lemma {:induction false} PassingGoesToDevice(t: Text)
    ensures ToDevice(Passing(t)) == t && Titles(Passing(t)) == []
  {
    if t != [] {
      var n := |t| - 1;
      PassingGoesToDevice(t[..n]);
      assert Passing(t)[..n] == Passing(t[..n]);
      assert t == t[..n] + [t[n]];
    }
  }

  lemma OneGoes(item: Item)
    ensures ToDevice([item]) == (if item.Passed? then [item.b] else [])
    ensures Titles([item]) == if item.Title? then [CString(item.text)] else []
  {
    assert [item][..0] == [];
  }

  /** device and titles are was and were with what came out added. */
  ghost predicate Emitted(was: Text, were: seq<Text>, out: seq<Item>, device: Text, titles: seq<Text>) {
    device == was + ToDevice(out) && titles == were + Titles(out)
  }

  lemma NothingEmitted(was: Text, were: seq<Text>)
    ensures Emitted(was, were, [], was, were)
  {
    assert was + [] == was && were + [] == were;
  }

  lemma TextEmitted(was: Text, were: seq<Text>, t: Text)
    ensures Emitted(was, were, Passing(t), was + t, were)
  {
    PassingGoesToDevice(t);
    assert were + [] == were;
  }

  lemma TitleEmitted(was: Text, were: seq<Text>, title: Text)
    ensures Emitted(was, were, [Title(title)], was, were + [CString(title)])
  {
    OneGoes(Title(title));
    assert was + [] == was;
  }

  // ------------------------------------------------------------------
  // The console
  // ------------------------------------------------------------------

  class Window {
    var titleState: nat
    const titleBuffer: array<byte>
    var titleLength: nat
    /** What the device has been given, and the titles set, since the start. */
    ghost var device: Text
    ghost var titles: seq<Text>

    ghost predicate Ready()
      reads this
    {
      titleBuffer.Length == BUFFER_SIZE && titleLength < BUFFER_SIZE && titleState <= 4
    }

    ghost function State(): Filter
      requires titleLength <= titleBuffer.Length
      reads this, titleBuffer
    {
      Filter(titleState, titleBuffer[..titleLength])
    }

    constructor ()
      ensures Ready() && State() == IDLE && device == [] && titles == [] && fresh(titleBuffer)
    {
      titleState, titleLength, device, titles := 0, 0, [], [];
      titleBuffer := new byte[BUFFER_SIZE](_ => 0);
    }

    /** What has been given to the device or gathered for it. */
    ghost function Sent(ordinary: array<byte>, n: nat): Text
      requires n <= ordinary.Length
      reads this, ordinary
    {
      device + ordinary[..n]
    }

    /** output_console_byte(): a full buffer is written out first. */
    method OutputByte(b: byte, ordinary: array<byte>, n: nat) returns (m: nat)
      requires n <= ordinary.Length == GATHERED
      modifies this`device, ordinary
      ensures m <= GATHERED && Sent(ordinary, m) == old(Sent(ordinary, n)) + [b]
    {
      m := n;
      if m == GATHERED {
        device := device + ordinary[..m];
        m := 0;
      }
      ordinary[m] := b;
      m := m + 1;
    }

    method OutputText(t: Text, ordinary: array<byte>, n: nat) returns (m: nat)
      requires n <= ordinary.Length == GATHERED
      modifies this`device, ordinary
      ensures m <= GATHERED && Sent(ordinary, m) == old(Sent(ordinary, n)) + t
    {
      m := n;
      var i := 0;
      while i < |t|
        invariant i <= |t| && m <= GATHERED && Sent(ordinary, m) == old(Sent(ordinary, n)) + t[..i]
      {
        m := OutputByte(t[i], ordinary, m);
        assert t[..i + 1] == t[..i] + [t[i]];
        i := i + 1;
      }
      assert t[..i] == t;
    }

    /** A title that is none after all goes out as it came. */
    method OutputRejected(b: byte, ordinary: array<byte>, n: nat) returns (m: nat)
      requires titleLength <= titleBuffer.Length && n <= ordinary.Length == GATHERED && ordinary != titleBuffer
      modifies this`device, ordinary
      ensures m <= GATHERED
      ensures Sent(ordinary, m) == old(Sent(ordinary, n)) + (INTRODUCER + titleBuffer[..titleLength] + [b])
    {
      ghost var was := Sent(ordinary, n);
      m := OutputText(INTRODUCER, ordinary, n);
      var i := 0;
      while i < titleLength
        invariant i <= titleLength && m <= GATHERED && titleBuffer[..] == old(titleBuffer[..])
        invariant Sent(ordinary, m) == was + (INTRODUCER + titleBuffer[..i])
      {
        m := OutputByte(titleBuffer[i], ordinary, m);
        Extend(was, INTRODUCER, titleBuffer[..], i);
        i := i + 1;
      }
      m := OutputByte(b, ordinary, m);
      Regroup(was, INTRODUCER + titleBuffer[..i], [b]);
    }

    /** One byte of a read. */
    method Take(b: byte, ordinary: array<byte>, n: nat) returns (m: nat)
      requires Ready() && n <= ordinary.Length == GATHERED && ordinary != titleBuffer
      modifies this, titleBuffer, ordinary
      ensures Ready() && m <= GATHERED && State() == Next(old(State()), b)
      ensures Emitted(old(Sent(ordinary, n)), old(titles), Out(old(State()), b), Sent(ordinary, m), titles)
    {
      if titleState < 4 {
        m := TakeIntroducer(b, ordinary, n);
      } else {
        m := TakeTitle(b, ordinary, n);
      }
    }

    method TakeIntroducer(b: byte, ordinary: array<byte>, n: nat) returns (m: nat)
      requires Ready() && titleState < 4 && n <= ordinary.Length == GATHERED && ordinary != titleBuffer
      modifies this, ordinary
      ensures Ready() && m <= GATHERED && State() == Next(old(State()), b)
      ensures Emitted(old(Sent(ordinary, n)), old(titles), Out(old(State()), b), Sent(ordinary, m), titles)
    {
      ghost var was, f := Sent(ordinary, n), State();
      var seen := INTRODUCER[..titleState];
      if b == INTRODUCER[titleState] {
        NothingEmitted(was, titles);
        if titleState == 3 { titleLength := 0; }
        titleState := titleState + 1;
        return n;
      }
      m := OutputText(seen + [b], ordinary, n);
      titleState := 0;
      assert Out(f, b) == Passing(seen + [b]) by { BrokenOff(f, b); }
      TextEmitted(was, titles, seen + [b]);
    }

    method TakeTitle(b: byte, ordinary: array<byte>, n: nat) returns (m: nat)
      requires Ready() && titleState == 4 && n <= ordinary.Length == GATHERED && ordinary != titleBuffer
      modifies this, titleBuffer, ordinary
      ensures Ready() && m <= GATHERED && State() == Next(old(State()), b)
      ensures Emitted(old(Sent(ordinary, n)), old(titles), Out(old(State()), b), Sent(ordinary, m), titles)
    {
      ghost var was, f := Sent(ordinary, n), State();
      m := n;
      if b == BEL {
        TitleEmitted(was, titles, f.title);
        titles := titles + [CString(titleBuffer[..titleLength])];
        titleState := 0;
      } else if b == ESC || titleLength + 1 >= BUFFER_SIZE {
        m := OutputRejected(b, ordinary, n);
        titleState := 0;
        TextEmitted(was, titles, INTRODUCER + f.title + [b]);
      } else {
        NothingEmitted(was, titles);
        titleBuffer[titleLength] := b;
        titleLength := titleLength + 1;
      }
    }

    /** Byte i of a read that started in state f. */
    method TakeNext(data: Text, i: nat, ordinary: array<byte>, n: nat, ghost f: Filter, ghost was: Text,
                    ghost were: seq<Text>)
      returns (m: nat)
      requires Ready() && i < |data| && n <= ordinary.Length == GATHERED && ordinary != titleBuffer
      requires State() == TitleFilter.State(f, data[..i])
      requires Progress(Sent(ordinary, n), titles, was, were, Items(f, data[..i]))
      modifies this, titleBuffer, ordinary
      ensures Ready() && m <= GATHERED && State() == TitleFilter.State(f, data[..i + 1])
      ensures Progress(Sent(ordinary, m), titles, was, were, Items(f, data[..i + 1]))
    {
      ghost var sent, named, out := Sent(ordinary, n), titles, Out(State(), data[i]);
      m := Take(data[i], ordinary, n);
      ItemsNext(f, data, i, out);
      ProgressOn(sent, named, was, were, f, data, i, out, Sent(ordinary, m), titles);
    }

    /** output_console(): one read. */
    method Output(data: Text)
      requires Ready()
      modifies this, titleBuffer
      ensures Ready() && State() == TitleFilter.State(old(State()), data)
      ensures device == old(device) + ToDevice(Items(old(State()), data))
      ensures titles == old(titles) + Titles(Items(old(State()), data))
    {
      var ordinary := new byte[GATHERED];
      var m: nat := 0;
      ghost var f, was, were := State(), device, titles;
      var i := 0;
      assert was + [] == was && were + [] == were;
      while i < |data|
        invariant i <= |data| && m <= GATHERED && Ready() && fresh(ordinary)
        invariant State() == TitleFilter.State(f, data[..i])
        invariant Progress(Sent(ordinary, m), titles, was, were, Items(f, data[..i]))
      {
        m := TakeNext(data, i, ordinary, m, f, was, were);
        i := i + 1;
      }
      assert data[..i] == data;
      if m != 0 { device := device + ordinary[..m]; } else { assert device + ordinary[..0] == device; }
    }
  }

  lemma Extend(was: Text, a: Text, t: Text, i: nat)
    requires i < |t|
    ensures was + (a + t[..i]) + [t[i]] == was + (a + t[..i + 1])
  {
    assert t[..i + 1] == t[..i] + [t[i]];
  }

  ghost predicate Progress(sent: Text, named: seq<Text>, was: Text, were: seq<Text>, items: seq<Item>) {
    sent == was + ToDevice(items) && named == were + Titles(items)
  }

  lemma ItemsNext(f: Filter, data: Text, i: nat, out: seq<Item>)
    requires i < |data| && out == Out(TitleFilter.State(f, data[..i]), data[i])
    ensures TitleFilter.State(f, data[..i + 1]) == Next(TitleFilter.State(f, data[..i]), data[i])
    ensures Items(f, data[..i + 1]) == Items(f, data[..i]) + out
  {
    assert data[..i + 1] == data[..i] + [data[i]];
    One(f, data[..i], data[i]);
  }

  lemma ProgressOn(sent: Text, named: seq<Text>, was: Text, were: seq<Text>, f: Filter, data: Text, i: nat,
                   out: seq<Item>, device: Text, titles: seq<Text>)
    requires i < |data| && Items(f, data[..i + 1]) == Items(f, data[..i]) + out
    requires Progress(sent, named, was, were, Items(f, data[..i])) && Emitted(sent, named, out, device, titles)
    ensures Progress(device, titles, was, were, Items(f, data[..i + 1]))
  {
    ProgressJoins(sent, named, was, were, Items(f, data[..i]), out);
  }

  lemma ProgressJoins(sent: Text, named: seq<Text>, was: Text, were: seq<Text>, items: seq<Item>, more: seq<Item>)
    requires Progress(sent, named, was, were, items)
    ensures Progress(sent + ToDevice(more), named + Titles(more), was, were, items + more)
  {
    OutJoins(items, more);
    Regroup(was, ToDevice(items), ToDevice(more));
    Regroup(were, Titles(items), Titles(more));
  }
}
