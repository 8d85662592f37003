/** Exactly which names are spelled how, and exactly which cannot be spelled. */
module ExactSpelling {
  import opened Bytes
  import opened Escape
  import opened NameMapper
  import BitPacking
  import Pack39

  // ------------------------------------------------------------------
  // Which names are spelled as themselves
  // ------------------------------------------------------------------

  /** No other entry folds to the name, or the name is the least of those that do. */
  ghost predicate FirstOfItsCase(d: Directory, host: Text) {
    || (forall e :: e in d && FoldEq(e, host) ==> e == host)
    || (host in d && forall e :: e in d && FoldEq(e, host) ==> !Less(e, host))
  }

  /** A name AmigaDOS can hold and the reader takes for itself. */
  ghost predicate Ordinary(z: Deflater, d: Directory, host: Text) {
    && |host| <= 107 && COLON !in host && SLASH !in host
    && (forall i :: 0 <= i < |host| && host[i] == CARET ==> !PayloadValid(z, host[i + 1..]))
    && FirstOfItsCase(d, host)
  }

  lemma FoldsToItself(host: Text)
    ensures FoldEq(host, host)
  {
  }

  lemma FirstIff(d: Directory, host: Text)
    ensures NeedsCaseEscape(d, host) <==> !FirstOfItsCase(d, host)
  {
    FoldsToItself(host);
  }

  lemma OrdinaryIff(z: Deflater, d: Directory, host: Text)
    ensures Plain(z, d, host) <==> Ordinary(z, d, host)
  {
    FirstIff(d, host);
    if NeedsMapping(z, host) && |host| <= 107 {
      var i := UnspellableFrom(z, host, 0).value;
      assert Unspellable(z, host, i) && host[i] in host;
    }
    if !NeedsMapping(z, host) {
      forall i | 0 <= i < |host| ensures host[i] != COLON && host[i] != SLASH && !IsMarker(z, host, i) {
        assert !Unspellable(z, host, i);
      }
    }
  }

  // ------------------------------------------------------------------
  // Where an escape starts
  // ------------------------------------------------------------------

  /** The first k bytes can stand as they are: each can be spelled, and every other
      entry that folds to the name has the same ones. */
  ghost predicate Headed(z: Deflater, d: Directory, host: Text, k: nat) {
    && k <= |host|
    && (forall i :: 0 <= i < k ==> host[i] != COLON && host[i] != SLASH)
    && (forall i :: 0 <= i < k && host[i] == CARET ==> !PayloadValid(z, host[i + 1..]))
    && (forall e :: e in d && FoldEq(e, host) ==> e[..k] == host[..k])
  }

  /** As much of the name as can stand. */
  ghost predicate IsHeader(z: Deflater, d: Directory, host: Text, k: nat) {
    Headed(z, d, host, k) && forall j: nat :: Headed(z, d, host, j) ==> j <= k
  }

  lemma AgreeUpTo(e: Text, n: Text, k: nat)
    requires |e| == |n| && k <= |n|
    ensures e[..k] == n[..k] <==> k <= FirstDifference(e, n)
  {
    var f := FirstDifference(e, n);
    if k <= f {
      assert e[..k] == e[..f][..k] && n[..k] == n[..f][..k];
    } else {
      assert e[..k][f] == e[f] && n[..k][f] == n[f];
    }
  }

  lemma BeforeIff(d: Directory, host: Text, k: nat)
    requires k <= |host|
    ensures BeforeVariants(d, host, k) <==> forall e :: e in d && FoldEq(e, host) ==> e[..k] == host[..k]
  {
    forall e | e in d && FoldEq(e, host) ensures e[..k] == host[..k] <==> e == host || k <= FirstDifference(e, host) {
      AgreeUpTo(e, host, k);
    }
  }

  lemma SpellableIff(z: Deflater, host: Text, k: nat)
    requires k <= |host|
    ensures (UnspellableFrom(z, host, 0).None? || k <= UnspellableFrom(z, host, 0).value)
       <==> forall i :: 0 <= i < k ==> !Unspellable(z, host, i)
  {
  }

  lemma HeadedIff(z: Deflater, d: Directory, host: Text, k: nat)
    requires k <= |host|
    ensures Headed(z, d, host, k)
       <==> BeforeVariants(d, host, k) && (UnspellableFrom(z, host, 0).None? || k <= UnspellableFrom(z, host, 0).value)
  {
    BeforeIff(d, host, k);
    SpellableIff(z, host, k);
    assert forall i :: Unspellable(z, host, i) <==>
      0 <= i < |host| && (host[i] == COLON || host[i] == SLASH || (host[i] == CARET && PayloadValid(z, host[i + 1..])));
  }

  /** component_split_point() keeps as much of the name as can stand. */
  lemma SplitIsHeader(z: Deflater, d: Directory, host: Text)
    ensures IsHeader(z, d, host, SplitPoint(z, d, host))
  {
    SplitIsLatest(z, d, host);
    HeadedIff(z, d, host, SplitPoint(z, d, host));
    forall j: nat | Headed(z, d, host, j) ensures j <= SplitPoint(z, d, host) {
      HeadedIff(z, d, host, j);
    }
  }

  lemma HeaderIsSplit(z: Deflater, d: Directory, host: Text, k: nat)
    requires IsHeader(z, d, host, k)
    ensures k == SplitPoint(z, d, host)
  {
    SplitIsHeader(z, d, host);
  }

  // ------------------------------------------------------------------
  // The escapes
  // ------------------------------------------------------------------

  /** The rest of the name and its NUL, five bits to a character, fit behind k
      bytes and a caret. */
  predicate LiteralRoom(host: Text, k: nat) { 8 * (|host| - k + 1) <= 5 * (106 - k) }

  /** Where a compressed tail starts: behind the header, or at the front if the
      header is the whole name. */
  function TailStart(host: Text, k: nat): nat { if k == |host| then 0 else k }

  /** One of the two engines makes p of the tail. */
  ghost predicate MadeFrom(z: Deflater, tail: Text, p: seq<byte>) {
    || (Pack39.Encodable(tail) && |tail| <= NAME_MAX && p == Pack39.Encode(tail) + [PACK39_TRAILER])
    || p == z.compress(tail) + [DEFLATE_TRAILER]
  }

  /** No engine makes less of it; of two equals PACK39's. */
  ghost predicate Shortest(z: Deflater, tail: Text, p: seq<byte>) {
    && MadeFrom(z, tail, p)
    && (forall q :: MadeFrom(z, tail, q) ==> |p| <= |q|)
    && (forall q :: MadeFrom(z, tail, q) && |q| == |p| && q[|q| - 1] == PACK39_TRAILER ==> p == q)
  }

  /** Seven bits to a character, it fits behind k bytes, a caret and a zero. */
  predicate CompressedRoom(k: nat, p: seq<byte>) { 8 * |p| <= 7 * (105 - k) }

  function Within(t: Text, size: nat): Option<Text> { if |t| < size then Some(t) else None }

  ghost function LiteralText(host: Text, k: nat): Text
    requires k <= |host|
  {
    host[..k] + [CARET] + Base32Encode(host[k..] + [0])
  }

  ghost function CompressedText(host: Text, t: nat, p: seq<byte>): Text
    requires t <= |host|
  {
    host[..t] + [CARET] + ([ZERO] + DenseEncode(p))
  }

  lemma LiteralLength(n: nat, k: nat)
    requires k <= n
    ensures k + 1 + BitPacking.EncodedLength(5, n - k + 1) <= LIMIT <==> 8 * (n - k + 1) <= 5 * (106 - k)
    ensures k + 1 + BitPacking.EncodedLength(5, n - k + 1) > n
  {
  }

  lemma DenseLength(n: nat, k: nat)
    ensures k + 2 + BitPacking.EncodedLength(7, n) <= LIMIT <==> 8 * n <= 7 * (105 - k)
  {
  }

  /** The best the mapper finds is the shortest, if that has room at all. */
  lemma BestIsShortest(z: Deflater, tail: Text, p: seq<byte>, k: nat)
    requires |tail| <= NAME_MAX && Shortest(z, tail, p)
    ensures Best(z, tail) == Some(p) || (Best(z, tail).None? && !CompressedRoom(k, p))
  {
    var deflated := z.compress(tail) + [DEFLATE_TRAILER];
    assert MadeFrom(z, tail, deflated);
    if Pack39.Encodable(tail) {
      var packed := Pack39.Encode(tail) + [PACK39_TRAILER];
      Pack39.EncodeCanonical(tail);
      assert MadeFrom(z, tail, packed) && packed[|packed| - 1] == PACK39_TRAILER;
      assert |deflated| == |packed| ==> p == packed;
    }
  }

  /** The escape of a name that is not ordinary, header k and payload p given. */
  ghost function Escaping(host: Text, k: nat, p: seq<byte>): Option<Text>
    requires k <= |host|
  {
    if LiteralRoom(host, k) then Some(LiteralText(host, k))
    else if CompressedRoom(TailStart(host, k), p) then Some(CompressedText(host, TailStart(host, k), p))
    else None
  }

  lemma LiteralMaps(z: Deflater, d: Directory, host: Text, size: nat, k: nat)
    requires Legal(host) && FixedFor(host).None? && !Ordinary(z, d, host) && IsHeader(z, d, host, k)
    requires LiteralRoom(host, k)
    ensures Map(z, d, host, size) == Within(LiteralText(host, k), size)
  {
    OrdinaryIff(z, d, host);
    HeaderIsSplit(z, d, host, k);
    LiteralLength(|host|, k);
  }

  lemma FormIs(z: Deflater, host: Text, k: nat, t: nat)
    requires k <= |host| <= NAME_MAX && t == TailStart(host, k)
    ensures var b := Best(z, host[t..]);
            CompressedForm(z, host, k)
            == if b.Some? && CompressedRoom(t, b.value) then Some(CompressedText(host, t, b.value)) else None
  {
    assert CompressSplit(host, k) == t;
    var b := Best(z, host[t..]);
    if b.Some? { DenseLength(|b.value|, t); }
  }

  lemma CompressedIs(z: Deflater, host: Text, k: nat, p: seq<byte>)
    requires k <= |host| <= NAME_MAX && Shortest(z, host[TailStart(host, k)..], p)
    ensures CompressedForm(z, host, k)
         == if CompressedRoom(TailStart(host, k), p) then Some(CompressedText(host, TailStart(host, k), p)) else None
  {
    var t := TailStart(host, k);
    FormIs(z, host, k, t);
    BestIsShortest(z, host[t..], p, t);
  }

  lemma CompressedMaps(z: Deflater, d: Directory, host: Text, size: nat, k: nat)
    requires Legal(host) && FixedFor(host).None? && !Ordinary(z, d, host) && IsHeader(z, d, host, k)
    requires !LiteralRoom(host, k)
    ensures var c := CompressedForm(z, host, k);
            Map(z, d, host, size) == if c.Some? then Within(c.value, size) else None
  {
    OrdinaryIff(z, d, host);
    HeaderIsSplit(z, d, host, k);
    LiteralLength(|host|, k);
  }

  lemma EscapeMaps(z: Deflater, d: Directory, host: Text, size: nat, k: nat, p: seq<byte>)
    requires Legal(host) && FixedFor(host).None? && !Ordinary(z, d, host) && IsHeader(z, d, host, k)
    requires Shortest(z, host[TailStart(host, k)..], p)
    ensures var e := Escaping(host, k, p);
            Map(z, d, host, size) == if e.Some? then Within(e.value, size) else None
  {
    if LiteralRoom(host, k) {
      LiteralMaps(z, d, host, size, k);
    } else {
      CompressedMaps(z, d, host, size, k);
      CompressedIs(z, host, k, p);
    }
  }

  lemma ShortestExists(z: Deflater, tail: Text) returns (p: seq<byte>)
    requires |tail| <= NAME_MAX
    ensures Shortest(z, tail, p)
  {
    p := z.compress(tail) + [DEFLATE_TRAILER];
    if Pack39.Encodable(tail) && |Pack39.Encode(tail) + [PACK39_TRAILER]| <= |p| {
      p := Pack39.Encode(tail) + [PACK39_TRAILER];
    }
  }

  lemma FixedMaps(z: Deflater, d: Directory, host: Text, size: nat)
    requires FixedFor(host).Some?
    ensures Map(z, d, host, size) == Within(FixedFor(host).value, size)
  {
  }

  lemma OrdinaryMaps(z: Deflater, d: Directory, host: Text, size: nat)
    requires FixedFor(host).None? && Ordinary(z, d, host)
    ensures Map(z, d, host, size) == Within(host, size)
  {
    OrdinaryIff(z, d, host);
  }

  /** ':' and '::' apart, an ordinary name is spelled as itself and any other by its escape. */
  ghost function Spelling(z: Deflater, d: Directory, host: Text, k: nat, p: seq<byte>): Option<Text>
    requires k <= |host|
  {
    if host == [COLON] then Some([DOT]) else if host == [COLON, COLON] then Some([DOT, DOT])
    else if Ordinary(z, d, host) then Some(host) else Escaping(host, k, p)
  }

  /** What map_component() writes, for every name Linux allows: ':' and '::' as '.'
      and '..'; an ordinary name as itself; any other as much of itself as can
      stand, and the rest in base32 if that has room, else compressed by the engine
      that makes less of it if that has room, else not at all. */
  lemma MapsExactly(z: Deflater, d: Directory, host: Text, size: nat, k: nat, p: seq<byte>)
    requires Legal(host) && IsHeader(z, d, host, k) && Shortest(z, host[TailStart(host, k)..], p)
    ensures var t := Spelling(z, d, host, k, p);
            Map(z, d, host, size) == if t.Some? then Within(t.value, size) else None
  {
    if host == [COLON] || host == [COLON, COLON] {
      FixedMaps(z, d, host, size);
    } else if Ordinary(z, d, host) {
      OrdinaryMaps(z, d, host, size);
      assert Spelling(z, d, host, k, p) == Some(host);
    } else {
      EscapeMaps(z, d, host, size, k, p);
      assert Spelling(z, d, host, k, p) == Escaping(host, k, p);
    }
  }

  lemma EscapeFits(host: Text, k: nat, p: seq<byte>)
    requires k <= |host|
    ensures |LiteralText(host, k)| > |host| && (LiteralRoom(host, k) <==> |LiteralText(host, k)| <= 107)
    ensures CompressedRoom(k, p) <==> |CompressedText(host, k, p)| <= 107
  {
    Base32Separable(host[k..] + [0]);
    DenseSeparable(p);
    LiteralLength(|host|, k);
    DenseLength(|p|, k);
  }

  lemma SpellingFits(z: Deflater, d: Directory, host: Text, k: nat, p: seq<byte>)
    requires Legal(host) && k <= |host| && Spelling(z, d, host, k, p).Some?
    ensures |Spelling(z, d, host, k, p).value| <= 107
  {
    if FixedFor(host).None? && !Ordinary(z, d, host) { EscapingFits(host, k, p); }
  }

  lemma EscapingFits(host: Text, k: nat, p: seq<byte>)
    requires k <= |host| && Escaping(host, k, p).Some?
    ensures |Escaping(host, k, p).value| <= 107
  {
    EscapeFits(host, k, p);
    EscapeFits(host, TailStart(host, k), p);
  }

  /** Both engines' payloads are too long for the place. */
  ghost predicate NoEngineFits(z: Deflater, tail: Text, t: nat) {
    forall q :: MadeFrom(z, tail, q) ==> !CompressedRoom(t, q)
  }

  lemma NoneFits(z: Deflater, tail: Text, t: nat, p: seq<byte>)
    requires Shortest(z, tail, p)
    ensures NoEngineFits(z, tail, t) <==> !CompressedRoom(t, p)
  {
  }

  /** In a component's buffer a name cannot be spelled exactly when it is not
      ordinary, base32 has no room for what cannot stand, and neither engine's
      payload has. */
  lemma RefusedExactly(z: Deflater, d: Directory, host: Text, size: nat, k: nat)
    requires Legal(host) && size > 107 && IsHeader(z, d, host, k)
    ensures Map(z, d, host, size).None? <==>
              && host != [COLON] && host != [COLON, COLON] && !Ordinary(z, d, host) && !LiteralRoom(host, k)
              && NoEngineFits(z, host[TailStart(host, k)..], TailStart(host, k))
  {
    var t := TailStart(host, k);
    var p := ShortestExists(z, host[t..]);
    MapsExactly(z, d, host, size, k, p);
    NoneFits(z, host[t..], t, p);
    if Spelling(z, d, host, k, p).Some? { SpellingFits(z, d, host, k, p); }
  }

  // ------------------------------------------------------------------
  // Names that are their own escape
  // ------------------------------------------------------------------

  /** What follows k in the name is a caret, a zero and the very payload DEFLATE
      makes of it. */
  ghost predicate SpellsItself(z: Deflater, host: Text, k: nat) {
    k <= |host| && CompressedText(host, k, z.compress(host[k..]) + [DEFLATE_TRAILER]) == host
  }

  /** No caret is a symbol of PACK39. */
  lemma CaretNotPacked(t: Text)
    requires t != [] && t[0] == CARET
    ensures !Pack39.Encodable(t)
  {
  }

  lemma OnlyDeflate(z: Deflater, host: Text, t: nat, p: seq<byte>)
    requires t <= |host| && Shortest(z, host[t..], p) && |host| > t && host[t] == CARET
    ensures p == z.compress(host[t..]) + [DEFLATE_TRAILER]
  {
    CaretNotPacked(host[t..]);
  }

  lemma CaretThere(host: Text, t: nat, p: seq<byte>)
    requires t <= |host| && CompressedText(host, t, p) == host
    ensures t + 1 < |host| && host[t] == CARET && host[t + 1..] == [ZERO] + DenseEncode(p)
  {
    var c := CompressedText(host, t, p);
    assert c[t] == CARET && c[t + 1..] == [ZERO] + DenseEncode(p) && |c| > t + 1;
  }

  /** A compressed escape is the name it spells exactly when DEFLATE makes it so. */
  lemma CompressedIsItself(z: Deflater, host: Text, t: nat, p: seq<byte>)
    requires t <= |host| && Shortest(z, host[t..], p)
    ensures CompressedText(host, t, p) == host <==> SpellsItself(z, host, t)
  {
    var q := z.compress(host[t..]) + [DEFLATE_TRAILER];
    if CompressedText(host, t, p) == host { CaretThere(host, t, p); OnlyDeflate(z, host, t, p); }
    if CompressedText(host, t, q) == host { CaretThere(host, t, q); OnlyDeflate(z, host, t, p); }
  }

  /** A name that spells itself has a caret that opens an escape. */
  lemma ItselfIsEscape(z: Deflater, d: Directory, host: Text, k: nat)
    requires Lossless(z) && Legal(host) && |host| <= 107 && SpellsItself(z, host, k)
    ensures !Ordinary(z, d, host)
  {
    var p := z.compress(host[k..]) + [DEFLATE_TRAILER];
    EscapeFits(host, k, p);
    CaretThere(host, k, p);
    assert NoNul(host[k..]);
    CompressedPayload(z, p, host[k..]);
  }

  /** With room for it, a name is spelled as itself exactly when it is ordinary, or
      is by chance the compressed escape of itself: it is short enough, base32 has
      no room for what cannot stand, and DEFLATE makes of that the very payload it
      already carries. */
  lemma PlainExactly(z: Deflater, d: Directory, host: Text, size: nat, k: nat)
    requires Lossless(z) && Legal(host) && |host| < size && IsHeader(z, d, host, k)
    requires host != [COLON] && host != [COLON, COLON]
    ensures Map(z, d, host, size) == Some(host) <==>
              || Ordinary(z, d, host)
              || (|host| <= 107 && !LiteralRoom(host, k) && SpellsItself(z, host, TailStart(host, k)))
  {
    var t := TailStart(host, k);
    var p := ShortestExists(z, host[t..]);
    MapsExactly(z, d, host, size, k, p);
    if !Ordinary(z, d, host) { EscapedItself(z, host, k, p); }
    if |host| <= 107 && SpellsItself(z, host, t) { ItselfIsEscape(z, d, host, t); }
  }

  lemma EscapedItself(z: Deflater, host: Text, k: nat, p: seq<byte>)
    requires k <= |host| && Shortest(z, host[TailStart(host, k)..], p)
    ensures Escaping(host, k, p) == Some(host) <==>
              |host| <= 107 && !LiteralRoom(host, k) && SpellsItself(z, host, TailStart(host, k))
  {
    var t := TailStart(host, k);
    EscapeFits(host, k, p);
    EscapeFits(host, t, p);
    CompressedIsItself(z, host, t, p);
  }
}
