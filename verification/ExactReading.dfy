/** Exactly what any component typed stands for. */
module ExactReading {
  import opened Bytes
  import opened Escape
  import opened NameMapper
  import opened ExactSpelling
  import TextCode
  import Alphabets
  import Pack39

  // ------------------------------------------------------------------
  // What an escape is
  // ------------------------------------------------------------------

  /** Base32, in whatever case, of the tail and its NUL. */
  ghost predicate Literal(suffix: Text, tail: Text) {
    NoNul(tail) && |tail| + 1 <= PAYLOAD_SIZE && UpperText(suffix) == Base32Encode(tail + [0])
  }

  /** A zero and DENSE128 of what an engine makes of the tail. */
  ghost predicate Compressed(z: Deflater, suffix: Text, tail: Text) {
    && NoNul(tail) && |tail| <= NAME_MAX + 1
    && exists p :: MadeFrom(z, tail, p) && |p| <= PAYLOAD_SIZE && suffix == [ZERO] + DenseEncode(p)
  }

  lemma UpperFolds(t: Text)
    ensures FoldEq(UpperText(t), t)
  {
  }

  lemma LiteralReads(suffix: Text, tail: Text)
    requires Literal(suffix, tail)
    ensures Base32Decode(suffix, PAYLOAD_SIZE) == Some(tail + [0]) && suffix != [] && suffix[0] != ZERO
    ensures |tail| + 1 < PAYLOAD_SIZE ==> Base32Decode(suffix, PAYLOAD_SIZE - 1) == Some(tail + [0])
  {
    Alphabets.Base32Sound();
    var s := UpperText(suffix);
    UpperFolds(suffix);
    TextCode.EncodeDecode(Alphabets.BASE32, tail + [0], PAYLOAD_SIZE);
    Base32FoldsCase(s, suffix, PAYLOAD_SIZE);
    TextCode.EncodedSize(Alphabets.BASE32, tail + [0]);
    Base32Readable(suffix, PAYLOAD_SIZE, 0);
    if |tail| + 1 < PAYLOAD_SIZE {
      TextCode.EncodeDecode(Alphabets.BASE32, tail + [0], PAYLOAD_SIZE - 1);
      Base32FoldsCase(s, suffix, PAYLOAD_SIZE - 1);
    }
  }

  lemma ReadIsLiteral(suffix: Text) returns (tail: Text)
    requires Base32Decode(suffix, PAYLOAD_SIZE).Some? && Terminated(Base32Decode(suffix, PAYLOAD_SIZE).value)
    ensures Literal(suffix, tail)
  {
    Alphabets.Base32Sound();
    var p := Base32Decode(suffix, PAYLOAD_SIZE).value;
    TextCode.DecodeEncode(Alphabets.BASE32, suffix, PAYLOAD_SIZE);
    tail := p[..|p| - 1];
    assert tail + [0] == p;
  }

  lemma DeflatedReads(z: Deflater, tail: Text)
    requires Lossless(z) && NoNul(tail) && |tail| <= NAME_MAX + 1
    ensures Decompress(z, z.compress(tail), DEFLATE_TRAILER) == Some(tail)
  {
    WholeString(tail);
  }

  lemma PackedReads(z: Deflater, tail: Text)
    requires Pack39.Encodable(tail) && |tail| <= NAME_MAX
    ensures Decompress(z, Pack39.Encode(tail), PACK39_TRAILER) == Some(tail)
  {
    Pack39.EncodeDecode(tail, PAYLOAD_SIZE);
  }

  lemma MadeReads(z: Deflater, tail: Text, p: seq<byte>)
    requires Lossless(z) && NoNul(tail) && |tail| <= NAME_MAX + 1 && MadeFrom(z, tail, p)
    ensures p != [] && Decompress(z, p[..|p| - 1], p[|p| - 1]) == Some(tail)
  {
    if p == z.compress(tail) + [DEFLATE_TRAILER] {
      assert p[..|p| - 1] == z.compress(tail);
      DeflatedReads(z, tail);
    } else {
      assert p[..|p| - 1] == Pack39.Encode(tail);
      PackedReads(z, tail);
    }
  }

  lemma DenseReads(z: Deflater, p: seq<byte>)
    requires p != [] && |p| <= PAYLOAD_SIZE
    ensures CompressedDecode(z, DenseEncode(p)) == Decompress(z, p[..|p| - 1], p[|p| - 1])
  {
    Alphabets.Dense128Sound();
    TextCode.EncodeDecode(Alphabets.DENSE128, p, PAYLOAD_SIZE);
  }

  lemma CompressedReads(z: Deflater, suffix: Text, tail: Text)
    requires Lossless(z) && Compressed(z, suffix, tail)
    ensures suffix != [] && suffix[0] == ZERO && CompressedDecode(z, suffix[1..]) == Some(tail)
  {
    var p :| MadeFrom(z, tail, p) && |p| <= PAYLOAD_SIZE && suffix == [ZERO] + DenseEncode(p);
    assert suffix[1..] == DenseEncode(p);
    MadeReads(z, tail, p);
    DenseReads(z, p);
  }

  /** Decompressing proves itself by compressing again. */
  lemma DecompressedMakes(z: Deflater, body: seq<byte>, trailer: byte)
    requires Lossless(z) && Decompress(z, body, trailer).Some?
    ensures var tail := Decompress(z, body, trailer).value;
            MadeFrom(z, tail, body + [trailer]) && |tail| <= NAME_MAX + 1 && NoNul(tail)
  {
    if trailer == PACK39_TRAILER {
      PackedHasNoNul(Decompress(z, body, trailer).value);
    } else {
      assert z.inflate(z.compress(CString(z.inflate(body).value))) == Some(CString(z.inflate(body).value));
    }
  }

  lemma PackedHasNoNul(t: Text)
    requires Pack39.Encodable(t)
    ensures NoNul(t)
  {
    forall i | 0 <= i < |t| ensures t[i] != 0 {
      assert Pack39.SymbolValue(t[i]).Some?;
    }
  }

  lemma DenseWas(z: Deflater, t: Text) returns (p: seq<byte>)
    requires CompressedDecode(z, t).Some?
    ensures p != [] && |p| <= PAYLOAD_SIZE && DenseEncode(p) == t
    ensures CompressedDecode(z, t) == Decompress(z, p[..|p| - 1], p[|p| - 1])
  {
    Alphabets.Dense128Sound();
    p := DenseDecode(t, PAYLOAD_SIZE).value;
    TextCode.DecodeEncode(Alphabets.DENSE128, t, PAYLOAD_SIZE);
  }

  lemma ReadIsCompressed(z: Deflater, suffix: Text)
    requires Lossless(z) && suffix != [] && suffix[0] == ZERO && CompressedDecode(z, suffix[1..]).Some?
    ensures Compressed(z, suffix, CompressedDecode(z, suffix[1..]).value)
  {
    var t, tail := suffix[1..], CompressedDecode(z, suffix[1..]).value;
    var p := DenseWas(z, t);
    MadeWas(z, p, tail);
    MadeIsCompressed(z, suffix, tail, p);
  }

  lemma MadeWas(z: Deflater, p: seq<byte>, tail: Text)
    requires Lossless(z) && p != [] && Decompress(z, p[..|p| - 1], p[|p| - 1]) == Some(tail)
    ensures MadeFrom(z, tail, p) && |tail| <= NAME_MAX + 1 && NoNul(tail)
  {
    DecompressedMakes(z, p[..|p| - 1], p[|p| - 1]);
    assert p[..|p| - 1] + [p[|p| - 1]] == p;
  }

  lemma MadeIsCompressed(z: Deflater, suffix: Text, tail: Text, p: seq<byte>)
    requires NoNul(tail) && |tail| <= NAME_MAX + 1 && MadeFrom(z, tail, p) && |p| <= PAYLOAD_SIZE
    requires suffix != [] && suffix[0] == ZERO && DenseEncode(p) == suffix[1..]
    ensures Compressed(z, suffix, tail)
  {
    assert suffix == [ZERO] + suffix[1..];
  }

  /** A caret opens an escape exactly when what follows could have been written for
      some tail. */
  lemma ValidIff(z: Deflater, suffix: Text)
    requires Lossless(z)
    ensures PayloadValid(z, suffix) <==> exists tail :: Literal(suffix, tail) || Compressed(z, suffix, tail)
  {
    if PayloadValid(z, suffix) {
      if suffix != [] && suffix[0] == ZERO {
        ReadIsCompressed(z, suffix);
      } else {
        var tail := ReadIsLiteral(suffix);
      }
    }
    forall tail | Literal(suffix, tail) || Compressed(z, suffix, tail) ensures PayloadValid(z, suffix) {
      CarriedIsValid(z, suffix, tail);
    }
  }

  lemma CarriedIsValid(z: Deflater, suffix: Text, tail: Text)
    requires Lossless(z) && (Literal(suffix, tail) || Compressed(z, suffix, tail))
    ensures PayloadValid(z, suffix)
  {
    if Literal(suffix, tail) { LiteralReads(suffix, tail); } else { CompressedReads(z, suffix, tail); }
  }

  // ------------------------------------------------------------------
  // Reading
  // ------------------------------------------------------------------

  /** A header, a caret and what could have been written for a tail stand for the
      header and the tail, whatever the directory holds.  The one base32 payload as
      long as its buffer, which passes the test and does not fit the reading, is
      handed back as it was. */
  lemma EscapeReads(z: Deflater, d: Directory, header: Text, suffix: Text, tail: Text, size: nat)
    requires Lossless(z) && (Literal(suffix, tail) || Compressed(z, suffix, tail))
    ensures Unmap(z, d, header + [CARET] + suffix, size)
         == if Literal(suffix, tail) && |tail| + 1 == PAYLOAD_SIZE then Within(header + [CARET] + suffix, size)
            else Within(header + tail, size)
  {
    CarriedIsValid(z, suffix, tail);
    UnmapEscaped(z, d, header, suffix, size);
    NotFixed(header, suffix);
    if Literal(suffix, tail) {
      LiteralUnescapes(z, header, suffix, tail, size);
    } else {
      CompressedReads(z, suffix, tail);
    }
  }

  lemma NotFixed(header: Text, suffix: Text)
    ensures HostForFixed(header + [CARET] + suffix).None?
  {
    var t := header + [CARET] + suffix;
    assert t[|header|] == CARET;
  }

  lemma LiteralUnescapes(z: Deflater, header: Text, suffix: Text, tail: Text, size: nat)
    requires Literal(suffix, tail)
    ensures Unescape(z, header, suffix, size)
         == if |tail| + 1 == PAYLOAD_SIZE then Within(header + [CARET] + suffix, size) else Within(header + tail, size)
  {
    LiteralReads(suffix, tail);
    assert (tail + [0])[..|tail|] == tail;
    if |tail| + 1 == PAYLOAD_SIZE { TooLong(suffix, tail); }
  }

  lemma TooLong(suffix: Text, tail: Text)
    requires Base32Decode(suffix, PAYLOAD_SIZE) == Some(tail + [0]) && |tail| + 1 == PAYLOAD_SIZE
    ensures Base32Decode(suffix, PAYLOAD_SIZE - 1) == None
  {
  }

  lemma {:induction false} LeastOf(s: set<Text>) returns (m: Text)
    requires s != {}
    ensures m in s && forall e :: e in s ==> !Less(e, m)
    decreases |s|
  {
    var x :| x in s;
    LessTotal(x, x);
    if s == {x} {
      m := x;
    } else {
      assert s - {x} != {};
      var y := LeastOf(s - {x});
      LessTotal(x, y);
      m := if Less(x, y) then x else y;
      forall e | e in s ensures !Less(e, m) {
        if Less(x, y) && Less(e, x) && e != x { LessTransitive(e, x, y); }
      }
    }
  }

  /** Some entry folds to the name exactly when a first one does. */
  lemma FirstExists(d: Directory, name: Text)
    ensures (exists f :: IsFirst(d, name, f)) <==> exists e :: e in d && FoldEq(e, name)
  {
    var s := set e | e in d && FoldEq(e, name);
    if e :| e in d && FoldEq(e, name) {
      assert e in s;
      var m := LeastOf(s);
      assert IsFirst(d, name, m);
    }
  }

  /** No caret of the text opens an escape. */
  ghost predicate NoEscape(z: Deflater, t: Text) {
    forall i :: 0 <= i < |t| && t[i] == CARET ==> !PayloadValid(z, t[i + 1..])
  }

  /** Text without an escape, in whatever case, stands for the least entry that
      folds to it, and for itself if none does. */
  lemma TypedReads(z: Deflater, d: Directory, t: Text, size: nat)
    requires NoEscape(z, t) && t != [DOT] && t != [DOT, DOT] && |t| < size
    ensures Unmap(z, d, t, size).Some?
    ensures (forall e :: e in d ==> !FoldEq(e, t)) ==> Unmap(z, d, t, size) == Some(t)
    ensures (exists e :: e in d && FoldEq(e, t)) ==> IsFirst(d, t, Unmap(z, d, t, size).value)
  {
    FirstExists(d, t);
    assert MarkerFrom(z, t, 0).None?;
  }

  lemma NoCaretBehind(z: Deflater, t: Text, i: nat, j: nat)
    requires i < j < |t| && PayloadValid(z, t[i + 1..])
    ensures t[j] != CARET
  {
    NoCaretIn(z, t[i + 1..], t, i + 1, j);
  }

  lemma NoCaretIn(z: Deflater, s: Text, t: Text, i: nat, j: nat)
    requires i <= j < |t| && s == t[i..] && PayloadValid(z, s)
    ensures t[j] != CARET
  {
    assert s[j - i] == t[j];
    ValidHasNoCaret(z, s, j - i);
  }

  /** A text has an escape at one place at most. */
  lemma EscapeUnique(z: Deflater, t: Text, i: nat, j: nat)
    requires i < |t| && j < |t| && t[i] == CARET && t[j] == CARET
    requires PayloadValid(z, t[i + 1..]) && PayloadValid(z, t[j + 1..])
    ensures i == j
  {
    if i < j { NoCaretBehind(z, t, i, j); }
    if j < i { NoCaretBehind(z, t, j, i); }
  }
}
