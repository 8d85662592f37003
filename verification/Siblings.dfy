/** Which spellings of one directory AmigaDOS, which ignores case, can tell apart. */
module Siblings {
  import opened Bytes
  import opened Escape
  import opened NameMapper
  import BitPacking
  import Alphabets
  import Pack39

  ghost predicate IsPlain(z: Deflater, d: Directory, host: Text) {
    FixedFor(host).None? && Plain(z, d, host)
  }

  ghost predicate IsLiteral(z: Deflater, d: Directory, host: Text) {
    FixedFor(host).None? && !Plain(z, d, host) && LiteralFits(host, SplitPoint(z, d, host))
  }

  ghost predicate IsCompressed(z: Deflater, d: Directory, host: Text) {
    && FixedFor(host).None? && !Plain(z, d, host) && !LiteralFits(host, SplitPoint(z, d, host))
    && CompressedForm(z, host, SplitPoint(z, d, host)).Some?
  }

  lemma LastCaret(h: Text, p: Text, i: nat)
    requires CARET !in p && i < |h| + 1 + |p| && Lower((h + [CARET] + p)[i]) == Lower(CARET)
    ensures i <= |h|
  {
    if i > |h| { CaretBehind(h, p, i); }
  }

  lemma CaretBehind(h: Text, p: Text, i: nat)
    requires |h| < i < |h| + 1 + |p|
    ensures (h + [CARET] + p)[i] in p
  {
    assert (h + [CARET] + p)[i] == p[i - |h| - 1];
  }

  /** Two escaped spellings that fold together have headers and payloads that do:
      the last caret is the marker in both. */
  lemma AlignMarkers(h: Text, p: Text, h': Text, p': Text)
    requires CARET !in p && CARET !in p'
    requires FoldEq(h + [CARET] + p, h' + [CARET] + p')
    ensures |h| == |h'| && FoldEq(h, h') && FoldEq(p, p')
  {
    var s, t := h + [CARET] + p, h' + [CARET] + p';
    assert s[|h|] == CARET && t[|h'|] == CARET;
    assert Lower(s[|h'|]) == Lower(t[|h'|]) && Lower(s[|h|]) == Lower(t[|h|]);
    LastCaret(h, p, |h'|);
    LastCaret(h', p', |h|);
    forall i | 0 <= i < |h| ensures Lower(h[i]) == Lower(h'[i]) {
      assert s[i] == h[i] && t[i] == h'[i];
    }
    forall i | 0 <= i < |p| ensures Lower(p[i]) == Lower(p'[i]) {
      assert s[|h| + 1 + i] == p[i] && t[|h| + 1 + i] == p'[i];
    }
  }

  lemma UpperFoldEq(p: Text, q: Text)
    requires FoldEq(p, q)
    requires forall i :: 0 <= i < |p| ==> Upper(p[i]) == p[i]
    requires forall i :: 0 <= i < |q| ==> Upper(q[i]) == q[i]
    ensures p == q
  {
    forall i | 0 <= i < |p| ensures p[i] == q[i] {
      assert Lower(p[i]) == Lower(q[i]);
    }
  }

  /** The split is at or before the first byte where a case variant differs. */
  lemma SplitAgrees(z: Deflater, d: Directory, a: Text, b: Text, k: nat)
    requires b in d && Variant(b, a) && k <= SplitPoint(z, d, a)
    ensures b[..k] == a[..k]
  {
    SplitIsLatest(z, d, a);
    var j := FirstDifference(b, a);
    assert b[..k] == b[..j][..k] && a[..k] == a[..j][..k];
  }

  lemma FoldJoin(a: Text, b: Text, k: nat)
    requires |a| == |b| && k <= |a| && FoldEq(a[..k], b[..k]) && a[k..] == b[k..]
    ensures FoldEq(b, a)
  {
    forall i | 0 <= i < |a| ensures Lower(b[i]) == Lower(a[i]) {
      if i < k { assert a[..k][i] == a[i] && b[..k][i] == b[i]; }
      else { assert a[k..][i - k] == a[i] && b[k..][i - k] == b[i]; }
    }
  }

  /** So siblings that agree from the split on and fold together before it are one. */
  lemma SplitSeparates(z: Deflater, d: Directory, a: Text, b: Text, k: nat)
    requires b in d && |a| == |b| && k <= |a| && k <= SplitPoint(z, d, a)
    requires FoldEq(a[..k], b[..k]) && a[k..] == b[k..]
    ensures a == b
  {
    FoldJoin(a, b, k);
    if b != a { SplitAgrees(z, d, a, b, k); }
    assert a[..k] == b[..k];
    assert a == a[..k] + a[k..] && b == b[..k] + b[k..];
  }

  lemma PlainsDiffer(z: Deflater, d: Directory, a: Text, b: Text)
    requires a in d && b in d && a != b && Plain(z, d, a) && Plain(z, d, b)
    ensures !FoldEq(a, b)
  {
    if FoldEq(a, b) {
      assert Variant(b, a) && Variant(a, b);
      assert IsFirst(d, a, a) && IsFirst(d, b, b);
      assert FoldEq(b, a);
      LessTotal(a, b);
    }
  }

  /** Text that folds to a literal spelling is an escape at the same caret. */
  lemma FoldedLiteralIsEscape(z: Deflater, a: Text, b: Text, split: nat)
    requires Legal(b) && split <= |b| && LiteralFits(b, split) && FoldEq(a, LiteralSpelling(b, split))
    ensures IsMarker(z, a, split)
  {
    var s := LiteralSpelling(b, split);
    var payload, suffix := Base32Encode(b[split..] + [0]), a[split + 1..];
    LiteralPayload(z, b[split..], PAYLOAD_SIZE);
    assert s[split] == CARET && s[split + 1..] == payload;
    assert Lower(a[split]) == Lower(s[split]);
    assert FoldEq(payload, suffix) by {
      forall i | 0 <= i < |payload| ensures Lower(payload[i]) == Lower(suffix[i]) {
        assert suffix[i] == a[split + 1 + i] && payload[i] == s[split + 1 + i];
      }
    }
    Base32FoldsCase(payload, suffix, PAYLOAD_SIZE);
    Base32Readable(suffix, PAYLOAD_SIZE, 0);
  }

  lemma PlainHasNoMarker(z: Deflater, d: Directory, a: Text, k: nat)
    requires Plain(z, d, a)
    ensures !IsMarker(z, a, k)
  {
    assert k < |a| ==> !Unspellable(z, a, k);
  }

  lemma PlainIsNotLiteral(z: Deflater, d: Directory, a: Text, b: Text, split: nat)
    requires Legal(a) && Legal(b) && Plain(z, d, a) && split <= |b| && LiteralFits(b, split)
    ensures !FoldEq(a, LiteralSpelling(b, split))
  {
    PlainHasNoMarker(z, d, a, split);
    if FoldEq(a, LiteralSpelling(b, split)) {
      FoldedLiteralIsEscape(z, a, b, split);
    }
  }

  /** Escaped spellings in upper-case codes that fold together have one payload. */
  lemma OnePayload(h: Text, p: Text, h': Text, p': Text)
    requires CARET !in p && CARET !in p'
    requires forall i :: 0 <= i < |p| ==> Upper(p[i]) == p[i]
    requires forall i :: 0 <= i < |p'| ==> Upper(p'[i]) == p'[i]
    requires FoldEq(h + [CARET] + p, h' + [CARET] + p')
    ensures |h| == |h'| && FoldEq(h, h') && p == p'
  {
    AlignMarkers(h, p, h', p');
    UpperFoldEq(p, p');
  }

  lemma LiteralInjective(z: Deflater, s: Text, t: Text)
    requires NoNul(s) && NoNul(t) && |s| + 1 <= PAYLOAD_SIZE && |t| + 1 <= PAYLOAD_SIZE
    requires Base32Encode(s + [0]) == Base32Encode(t + [0])
    ensures s == t
  {
    LiteralPayload(z, s, PAYLOAD_SIZE);
    LiteralPayload(z, t, PAYLOAD_SIZE);
    assert (s + [0])[..|s|] == s && (t + [0])[..|t|] == t;
  }

  /** Literal spellings that fold together carry one tail. */
  lemma LiteralAlign(z: Deflater, a: Text, i: nat, b: Text, j: nat)
    requires Legal(a) && Legal(b) && i <= |a| && j <= |b| && LiteralFits(a, i) && LiteralFits(b, j)
    requires FoldEq(LiteralSpelling(a, i), LiteralSpelling(b, j))
    ensures i == j && FoldEq(a[..i], b[..i]) && a[i..] == b[i..]
  {
    Base32Separable(a[i..] + [0]);
    Base32Separable(b[j..] + [0]);
    OnePayload(a[..i], Base32Encode(a[i..] + [0]), b[..j], Base32Encode(b[j..] + [0]));
    LiteralInjective(z, a[i..], b[j..]);
  }

  lemma LiteralsDiffer(z: Deflater, d: Directory, a: Text, b: Text)
    requires a in d && b in d && a != b && Legal(a) && Legal(b)
    requires LiteralFits(a, SplitPoint(z, d, a)) && LiteralFits(b, SplitPoint(z, d, b))
    ensures !FoldEq(LiteralSpelling(a, SplitPoint(z, d, a)), LiteralSpelling(b, SplitPoint(z, d, b)))
  {
    var i, j := SplitPoint(z, d, a), SplitPoint(z, d, b);
    if FoldEq(LiteralSpelling(a, i), LiteralSpelling(b, j)) {
      LiteralAlign(z, a, i, b, j);
      SplitSeparates(z, d, a, b, i);
    }
  }

  lemma FoldHead(p: Text, q: Text)
    requires FoldEq(p, q) && p != []
    ensures Lower(p[0]) == Lower(q[0])
  {
  }

  lemma LiteralIsNotCompressed(a: Text, split: nat, b: Text, k: nat, best: seq<byte>, z: Deflater)
    requires Legal(a) && split <= |a| && LiteralFits(a, split) && k <= |b|
    ensures !FoldEq(LiteralSpelling(a, split), CompressedSpelling(b, k, best))
  {
    if FoldEq(LiteralSpelling(a, split), CompressedSpelling(b, k, best)) {
      var p, q := Base32Encode(a[split..] + [0]), [ZERO] + DenseEncode(best);
      Base32Separable(a[split..] + [0]);
      DenseSeparable(best);
      AlignMarkers(a[..split], p, b[..k], q);
      LiteralPayload(z, a[split..], PAYLOAD_SIZE);
      FoldHead(p, q);
    }
  }

  /** Compressed spellings that fold together carry one tail. */
  lemma CompressedAlign(z: Deflater, a: Text, i: nat, x: seq<byte>, b: Text, j: nat, y: seq<byte>)
    requires Lossless(z) && Legal(a) && Legal(b) && i <= |a| && j <= |b|
    requires Compresses(z, x, a[i..]) && |x| <= PAYLOAD_SIZE && Compresses(z, y, b[j..]) && |y| <= PAYLOAD_SIZE
    requires FoldEq(CompressedSpelling(a, i, x), CompressedSpelling(b, j, y))
    ensures i == j && FoldEq(a[..i], b[..i]) && a[i..] == b[i..]
  {
    DenseSeparable(x);
    DenseSeparable(y);
    var p, q := [ZERO] + DenseEncode(x), [ZERO] + DenseEncode(y);
    OnePayload(a[..i], p, b[..j], q);
    assert p[1..] == DenseEncode(x) && q[1..] == DenseEncode(y);
    CompressedInjective(z, x, a[i..], y, b[j..]);
  }

  lemma CompressedInjective(z: Deflater, x: seq<byte>, s: Text, y: seq<byte>, t: Text)
    requires Lossless(z) && NoNul(s) && NoNul(t) && |s| <= NAME_MAX && |t| <= NAME_MAX
    requires Compresses(z, x, s) && |x| <= PAYLOAD_SIZE && Compresses(z, y, t) && |y| <= PAYLOAD_SIZE
    requires DenseEncode(x) == DenseEncode(y)
    ensures s == t
  {
    CompressedPayload(z, x, s);
    CompressedPayload(z, y, t);
  }

  lemma CompressedDiffer(z: Deflater, d: Directory, a: Text, b: Text)
    requires Lossless(z) && a in d && b in d && a != b && Legal(a) && Legal(b)
    requires IsCompressed(z, d, a) && IsCompressed(z, d, b)
    ensures !FoldEq(CompressedForm(z, a, SplitPoint(z, d, a)).value, CompressedForm(z, b, SplitPoint(z, d, b)).value)
  {
    var i, j := CompressSplit(a, SplitPoint(z, d, a)), CompressSplit(b, SplitPoint(z, d, b));
    var x, y := Best(z, a[i..]).value, Best(z, b[j..]).value;
    if FoldEq(CompressedSpelling(a, i, x), CompressedSpelling(b, j, y)) {
      CompressedAlign(z, a, i, x, b, j, y);
      SplitSeparates(z, d, a, b, i);
    }
  }

  /** Does the mapper take PACK39 for a tail?  Where it can, unless DEFLATE is shorter. */
  ghost predicate PrefersPack39(z: Deflater, tail: Text) {
    && Pack39.Encodable(tail) && |tail| <= NAME_MAX && |Pack39.Encode(tail)| < PAYLOAD_SIZE
    && !(|z.compress(tail)| < PAYLOAD_SIZE && |z.compress(tail)| < |Pack39.Encode(tail)|)
  }

  /** The engine byte a DENSE128 payload ends in, as the reader finds it. */
  ghost function Engine(payload: Text): byte {
    var p := DenseDecode(payload, PAYLOAD_SIZE);
    if p.Some? && p.value != [] then p.value[|p.value| - 1] else 0
  }

  /** The reader takes the payload for the tail, packed by the engine preferred. */
  ghost predicate ReadsAs(z: Deflater, payload: Text, tail: Text) {
    && CompressedDecode(z, payload) == Some(tail)
    && Engine(payload) == if PrefersPack39(z, tail) then PACK39_TRAILER else DEFLATE_TRAILER
  }

  /** The one way two siblings can collide: a is spelled plainly and b compressed
      behind its first k bytes; a has a "^0" there behind the same bytes up to
      case; and what follows, put in upper case, is a payload the reader takes for
      b's tail, packed by the engine preferred for it.  In lower case the reader
      does not take it: DENSE128, unlike base32, does not fold case. */
  ghost predicate Shadows(z: Deflater, d: Directory, a: Text, b: Text) {
    && IsPlain(z, d, a) && IsCompressed(z, d, b)
    && var k := CompressSplit(b, SplitPoint(z, d, b));
       ShadowsAt(z, a, b[..k], b[k..])
  }

  ghost predicate ShadowsAt(z: Deflater, a: Text, header: Text, tail: Text) {
    && |a| >= |header| + 2 && FoldEq(a[..|header|], header) && a[|header|] == CARET && a[|header| + 1] == ZERO
    && ReadsAs(z, UpperText(a[|header| + 2..]), tail)
  }

  /** The reader accepts nothing but what an engine makes of the text it reads. */
  lemma ReadIsPacked(z: Deflater, payload: Text, tail: Text)
    requires CompressedDecode(z, payload) == Some(tail)
    ensures var p := DenseDecode(payload, PAYLOAD_SIZE);
            && p.Some? && p.value != [] && |p.value| <= PAYLOAD_SIZE && DenseEncode(p.value) == payload
            && p.value[..|p.value| - 1]
            == (if Engine(payload) == PACK39_TRAILER then Pack39.Encode(tail) else z.compress(tail))
  {
    Alphabets.Dense128Sound();
    TextCode.DecodeEncode(Alphabets.DENSE128, payload, PAYLOAD_SIZE);
  }

  /** The mapper's choice is the engine preferred. */
  lemma BestIsPreferred(z: Deflater, tail: Text)
    requires Best(z, tail).Some?
    ensures Best(z, tail).value == if PrefersPack39(z, tail) then Pack39.Encode(tail) + [PACK39_TRAILER]
                                   else z.compress(tail) + [DEFLATE_TRAILER]
  {
  }

  lemma EngineOf(best: seq<byte>)
    requires best != [] && |best| <= PAYLOAD_SIZE
    ensures Engine(DenseEncode(best)) == best[|best| - 1]
  {
    Alphabets.Dense128Sound();
    TextCode.EncodeDecode(Alphabets.DENSE128, best, PAYLOAD_SIZE);
  }

  lemma WrittenReads(z: Deflater, tail: Text)
    requires Lossless(z) && NoNul(tail) && |tail| <= NAME_MAX && Best(z, tail).Some?
    ensures ReadsAs(z, DenseEncode(Best(z, tail).value), tail)
  {
    var best := Best(z, tail).value;
    BestIsPreferred(z, tail);
    CompressedPayload(z, best, tail);
    EngineOf(best);
  }

  lemma ReadWasWritten(z: Deflater, payload: Text, tail: Text)
    requires Best(z, tail).Some? && ReadsAs(z, payload, tail)
    ensures payload == DenseEncode(Best(z, tail).value)
  {
    ReadIsPacked(z, payload, tail);
    BestIsPreferred(z, tail);
    LastByte(DenseDecode(payload, PAYLOAD_SIZE).value, Best(z, tail).value);
  }

  lemma LastByte(p: seq<byte>, q: seq<byte>)
    requires p != [] && q != [] && p[..|p| - 1] == q[..|q| - 1] && p[|p| - 1] == q[|q| - 1]
    ensures p == q
  {
    assert p == p[..|p| - 1] + [p[|p| - 1]] && q == q[..|q| - 1] + [q[|q| - 1]];
  }

  /** What the reader makes of a payload and what the mapper writes for a tail are
      the same question. */
  lemma ReadsIff(z: Deflater, payload: Text, tail: Text)
    requires Lossless(z) && NoNul(tail) && |tail| <= NAME_MAX && Best(z, tail).Some?
    ensures payload == DenseEncode(Best(z, tail).value) <==> ReadsAs(z, payload, tail)
  {
    WrittenReads(z, tail);
    if ReadsAs(z, payload, tail) { ReadWasWritten(z, payload, tail); }
  }

  lemma PlainCompressedIff(z: Deflater, d: Directory, a: Text, b: Text)
    requires Lossless(z) && Legal(b) && IsPlain(z, d, a) && IsCompressed(z, d, b)
    ensures FoldEq(a, CompressedForm(z, b, SplitPoint(z, d, b)).value) <==> Shadows(z, d, a, b)
  {
    var k := CompressSplit(b, SplitPoint(z, d, b));
    DenseSeparable(Best(z, b[k..]).value);
    EscapedFold(a, b[..k], DenseEncode(Best(z, b[k..]).value));
    SpellsReads(z, a, b[..k], b[k..]);
  }

  lemma SpellsReads(z: Deflater, a: Text, header: Text, tail: Text)
    requires Lossless(z) && NoNul(tail) && |tail| <= NAME_MAX && Best(z, tail).Some?
    ensures SpellsEscape(a, header, DenseEncode(Best(z, tail).value)) <==> ShadowsAt(z, a, header, tail)
  {
    if |a| >= |header| + 2 { ReadsIff(z, UpperText(a[|header| + 2..]), tail); }
  }

  lemma EscapedFold(a: Text, header: Text, payload: Text)
    requires forall i :: 0 <= i < |payload| ==> Upper(payload[i]) == payload[i]
    ensures FoldEq(a, header + [CARET] + ([ZERO] + payload)) <==> SpellsEscape(a, header, payload)
  {
    if FoldEq(a, header + [CARET] + ([ZERO] + payload)) { FoldSpells(a, header, payload); }
    if SpellsEscape(a, header, payload) { SpellsFold(a, header, payload); }
  }

  /** a is header ^ 0 payload, up to the case of the header and of the payload. */
  predicate SpellsEscape(a: Text, header: Text, payload: Text) {
    && |a| >= |header| + 2 && FoldEq(a[..|header|], header) && a[|header|] == CARET && a[|header| + 1] == ZERO
    && UpperText(a[|header| + 2..]) == payload
  }

  lemma FoldSpells(a: Text, header: Text, payload: Text)
    requires forall i :: 0 <= i < |payload| ==> Upper(payload[i]) == payload[i]
    requires FoldEq(a, header + [CARET] + ([ZERO] + payload))
    ensures SpellsEscape(a, header, payload)
  {
    var k, s := |header|, header + [CARET] + ([ZERO] + payload);
    assert s[k] == CARET && s[k + 1] == ZERO;
    assert Lower(a[k]) == Lower(s[k]) && Lower(a[k + 1]) == Lower(s[k + 1]);
    forall i | 0 <= i < k ensures Lower(a[..k][i]) == Lower(header[i]) {
      assert Lower(a[i]) == Lower(s[i]) && s[i] == header[i];
    }
    forall i | 0 <= i < |payload| ensures UpperText(a[k + 2..])[i] == payload[i] {
      assert Lower(a[k + 2 + i]) == Lower(s[k + 2 + i]) && s[k + 2 + i] == payload[i];
    }
  }

  lemma SpellsFold(a: Text, header: Text, payload: Text)
    requires SpellsEscape(a, header, payload)
    ensures FoldEq(a, header + [CARET] + ([ZERO] + payload))
  {
    var k, s := |header|, header + [CARET] + ([ZERO] + payload);
    assert |a| == k + 2 + |payload|;
    forall i | 0 <= i < |a| ensures Lower(a[i]) == Lower(s[i]) {
      if i < k {
        assert a[..k][i] == a[i] && s[i] == header[i];
      } else if i >= k + 2 {
        assert a[k + 2..][i - k - 2] == a[i] && payload[i - k - 2] == s[i];
      }
    }
  }

  /** Two entries of one directory get spellings that AmigaDOS tells apart,
      exactly unless one shadows the other. */
  lemma SiblingsDistinct(z: Deflater, d: Directory, a: Text, b: Text, size: nat)
    requires Lossless(z) && a in d && b in d && a != b && Legal(a) && Legal(b)
    requires Map(z, d, a, size).Some? && Map(z, d, b, size).Some?
    ensures FoldEq(Map(z, d, a, size).value, Map(z, d, b, size).value)
       <==> (Shadows(z, d, a, b) || Shadows(z, d, b, a))
  {
    var s, t := Map(z, d, a, size).value, Map(z, d, b, size).value;
    FoldEqSymmetric(s, t);
    if FixedFor(a).Some? {
      FixedIsAlone(z, d, a, b, size);
    } else if FixedFor(b).Some? {
      FixedIsAlone(z, d, b, a, size);
    } else if IsPlain(z, d, a) {
      PlainAgainst(z, d, a, b, size);
    } else if IsPlain(z, d, b) {
      PlainAgainst(z, d, b, a, size);
    } else {
      EscapedAgainst(z, d, a, b, size);
    }
  }

  lemma FoldEqSymmetric(s: Text, t: Text)
    ensures FoldEq(s, t) <==> FoldEq(t, s)
  {
  }

  lemma FixedIsAlone(z: Deflater, d: Directory, a: Text, b: Text, size: nat)
    requires a != b && Legal(a) && Legal(b) && FixedFor(a).Some?
    requires Map(z, d, a, size).Some? && Map(z, d, b, size).Some?
    ensures !FoldEq(Map(z, d, a, size).value, Map(z, d, b, size).value)
  {
    if FoldEq(Map(z, d, a, size).value, Map(z, d, b, size).value) {
      FoldOfDots(Map(z, d, a, size).value, Map(z, d, b, size).value);
      if FixedFor(b).None? && !IsPlain(z, d, b) {
        EscapedHasCaret(z, d, b, size);
      }
    }
  }

  lemma FoldOfDots(s: Text, t: Text)
    requires FoldEq(s, t) && (s == [DOT] || s == [DOT, DOT])
    ensures s == t
  {
    forall i | 0 <= i < |t| ensures t[i] == s[i] {
      assert Lower(s[i]) == Lower(t[i]);
    }
  }

  lemma EscapedHasCaret(z: Deflater, d: Directory, b: Text, size: nat)
    requires FixedFor(b).None? && !IsPlain(z, d, b) && Map(z, d, b, size).Some?
    ensures CARET in Map(z, d, b, size).value
  {
    var t := Map(z, d, b, size).value;
    var split := SplitPoint(z, d, b);
    var k := if LiteralFits(b, split) then split else CompressSplit(b, split);
    assert t[k] == CARET;
  }

  lemma PlainAgainst(z: Deflater, d: Directory, a: Text, b: Text, size: nat)
    requires Lossless(z) && a in d && b in d && a != b && Legal(a) && Legal(b) && IsPlain(z, d, a) && FixedFor(b).None?
    requires Map(z, d, a, size).Some? && Map(z, d, b, size).Some?
    ensures FoldEq(Map(z, d, a, size).value, Map(z, d, b, size).value) <==> Shadows(z, d, a, b)
    ensures !Shadows(z, d, b, a)
  {
    if IsPlain(z, d, b) {
      PlainsDiffer(z, d, a, b);
    } else if IsLiteral(z, d, b) {
      PlainIsNotLiteral(z, d, a, b, SplitPoint(z, d, b));
    } else {
      PlainCompressedIff(z, d, a, b);
    }
  }

  lemma EscapedAgainst(z: Deflater, d: Directory, a: Text, b: Text, size: nat)
    requires Lossless(z) && a in d && b in d && a != b && Legal(a) && Legal(b)
    requires FixedFor(a).None? && FixedFor(b).None? && !IsPlain(z, d, a) && !IsPlain(z, d, b)
    requires Map(z, d, a, size).Some? && Map(z, d, b, size).Some?
    ensures !FoldEq(Map(z, d, a, size).value, Map(z, d, b, size).value)
  {
    var i, j := SplitPoint(z, d, a), SplitPoint(z, d, b);
    FoldEqSymmetric(Map(z, d, a, size).value, Map(z, d, b, size).value);
    if IsLiteral(z, d, a) {
      if IsLiteral(z, d, b) {
        LiteralsDiffer(z, d, a, b);
      } else {
        var k := CompressSplit(b, j);
        LiteralIsNotCompressed(a, i, b, k, Best(z, b[k..]).value, z);
      }
    } else if IsLiteral(z, d, b) {
      var k := CompressSplit(a, i);
      LiteralIsNotCompressed(b, j, a, k, Best(z, a[k..]).value, z);
    } else {
      CompressedDiffer(z, d, a, b);
    }
  }

  /** There is a lower-case letter behind a "^0". */
  predicate LowerCaseEscape(a: Text) {
    exists k, j :: 0 <= k && k + 2 <= j < |a| && a[k] == CARET && a[k + 1] == ZERO && Upper(a[j]) != a[j]
  }

  /** A check on the plain name alone: only such a name can shadow another. */
  lemma ShadowHasLowerCase(z: Deflater, d: Directory, a: Text, b: Text)
    requires Shadows(z, d, a, b)
    ensures LowerCaseEscape(a)
  {
    var k := CompressSplit(b, SplitPoint(z, d, b));
    PlainHasNoMarker(z, d, a, k);
    NoLowerCase(a, k);
    if !LowerCaseEscape(a) { UpperCaseIsEscape(z, a, k); }
  }

  /** What a caller can see from the two names: unless one of them has a lower-case
      letter behind a "^0", their spellings differ. */
  lemma DistinctByName(z: Deflater, d: Directory, a: Text, b: Text, size: nat)
    requires Lossless(z) && a in d && b in d && a != b && Legal(a) && Legal(b)
    requires Map(z, d, a, size).Some? && Map(z, d, b, size).Some? && !LowerCaseEscape(a) && !LowerCaseEscape(b)
    ensures !FoldEq(Map(z, d, a, size).value, Map(z, d, b, size).value)
  {
    SiblingsDistinct(z, d, a, b, size);
    if Shadows(z, d, a, b) {
      ShadowHasLowerCase(z, d, a, b);
    } else if Shadows(z, d, b, a) {
      ShadowHasLowerCase(z, d, b, a);
    }
  }

  lemma NoLowerCase(a: Text, k: nat)
    requires k + 2 <= |a| && a[k] == CARET && a[k + 1] == ZERO
    ensures LowerCaseEscape(a) || UpperText(a[k + 2..]) == a[k + 2..]
  {
    var t := a[k + 2..];
    if !LowerCaseEscape(a) {
      forall j | 0 <= j < |t| ensures Upper(t[j]) == t[j] {
        assert t[j] == a[k + 2 + j];
      }
    }
  }

  lemma UpperCaseIsEscape(z: Deflater, a: Text, k: nat)
    requires k + 2 <= |a| && a[k] == CARET && a[k + 1] == ZERO && CompressedDecode(z, a[k + 2..]).Some?
    ensures IsMarker(z, a, k)
  {
    var suffix := a[k + 1..];
    assert suffix[0] == ZERO && suffix[1..] == a[k + 2..];
    CompressedIsValid(z, suffix, a[k + 2..]);
  }

  lemma CompressedIsValid(z: Deflater, suffix: Text, payload: Text)
    requires suffix != [] && suffix[0] == ZERO && suffix[1..] == payload && CompressedDecode(z, payload).Some?
    ensures PayloadValid(z, suffix)
  {
  }

  // ------------------------------------------------------------------
  // Siblings that do collide
  // ------------------------------------------------------------------

  /** One hundred and eight letters 'a': too long for an Amiga component, and the zero of PACK39. */
  function ManyAs(n: nat): (t: Text)
    ensures |t| == n && forall i :: 0 <= i < n ==> t[i] == 97
  {
    seq(n, _ => 97)
  }

  /** "^0yc!" */
  const SHADOW: Text := [CARET, ZERO, 121, 99, 33]

  /** "YC!" */
  const MANY_AS_PAYLOAD: Text := [89, 67, 33]

  lemma {:induction false} ZerosAccumulate(v: seq<int>)
    requires forall i :: 0 <= i < |v| ==> v[i] == 0
    ensures Pack39.Accumulate(v) == []
  {
    if v != [] { ZerosAccumulate(v[..|v| - 1]); }
  }

  lemma ManyAsPacked()
    ensures Pack39.Encodable(ManyAs(108)) && Pack39.Encode(ManyAs(108)) == [108]
  {
    ZerosAccumulate(Pack39.Values(ManyAs(108)));
  }

  lemma DenseOfManyAs()
    ensures DenseEncode([108, PACK39_TRAILER]) == MANY_AS_PAYLOAD
  {
    Alphabets.Dense128Sound();
    PacksManyAs([108, 128], [54, 32, 0]);
    BitPacking.PackPacks(7, [108, 128]);
    BitPacking.PacksUniqueDigits(7, [108, 128], BitPacking.Pack(7, [108, 128]), [54, 32, 0]);
    Alphabets.Dense128Runs(54);
    Alphabets.Dense128Runs(32);
    Alphabets.Dense128Runs(0);
  }

  lemma PacksManyAs(data: seq<byte>, digits: seq<int>)
    requires data == [108, 128] && digits == [54, 32, 0]
    ensures BitPacking.Packs(7, data, digits)
  {
    BitPacking.PowValues();
    BitPacking.ShlValues(0);
    BitPacking.ShlValues(54);
    BitPacking.ShlValues(6944);
    BitPacking.ShlValues(108);
    BitPacking.ShlValues(27776);
    BitPacking.BitsIsProduct(7, 3);
    BitPacking.BitsIsProduct(8, 2);
    BitPacking.ValAppend(7, [54, 32], 0);
    BitPacking.ValAppend(7, [54], 32);
    BitPacking.ValAppend(7, [], 54);
    BitPacking.ValAppend(8, [108], 128);
    BitPacking.ValAppend(8, [], 108);
    assert [] + [54] == [54] && [54] + [32] == [54, 32] && [54, 32] + [0] == digits;
    assert [] + [108] == [108] && [108] + [128] == data;
  }

  lemma ShadowIsPlain(z: Deflater, d: Directory)
    requires d == {ManyAs(108), SHADOW}
    ensures IsPlain(z, d, SHADOW)
  {
    forall i | 0 <= i < |SHADOW| ensures !Unspellable(z, SHADOW, i) {
      if i == 0 { ShadowIsNoEscape(z); }
    }
    forall e | e in d ensures !Variant(e, SHADOW) { }
  }

  lemma ShadowIsNoEscape(z: Deflater)
    ensures !IsMarker(z, SHADOW, 0)
  {
    assert SHADOW[1..][1..] == [121, 99, 33];
    if DenseDecode(SHADOW[1..][1..], PAYLOAD_SIZE).Some? {
      DenseReadable(SHADOW[1..][1..], PAYLOAD_SIZE, 0);
      Alphabets.SymbolsAreOrdinary(121);
    }
  }

  lemma ManyAsSplit(z: Deflater, d: Directory)
    requires d == {ManyAs(108), SHADOW}
    ensures SplitPoint(z, d, ManyAs(108)) == 108 && !Plain(z, d, ManyAs(108))
    ensures FixedFor(ManyAs(108)).None? && !LiteralFits(ManyAs(108), 108)
  {
    forall i | 0 <= i < 108 ensures !Unspellable(z, ManyAs(108), i) { }
    forall e | e in d ensures !Variant(e, ManyAs(108)) {
      if e == ManyAs(108) { }
    }
  }

  lemma ManyAsBest(z: Deflater)
    requires z.compress(ManyAs(108)) != []
    ensures Best(z, ManyAs(108)) == Some([108, PACK39_TRAILER])
  {
    ManyAsPacked();
    assert Pack39.Encode(ManyAs(108)) + [PACK39_TRAILER] == [108, PACK39_TRAILER];
  }

  lemma ManyAsSpelling()
    ensures CompressedSpelling(ManyAs(108), 0, [108, PACK39_TRAILER]) == [CARET, ZERO] + MANY_AS_PAYLOAD
  {
    DenseOfManyAs();
  }

  lemma ManyAsMaps(z: Deflater, d: Directory)
    requires d == {ManyAs(108), SHADOW} && z.compress(ManyAs(108)) != []
    ensures Map(z, d, ManyAs(108), LIMIT + 1) == Some([CARET, ZERO] + MANY_AS_PAYLOAD)
  {
    ManyAsSplit(z, d);
    ManyAsBest(z);
    ManyAsSpelling();
    assert ManyAs(108)[0..] == ManyAs(108);
  }

  lemma ShadowMaps(z: Deflater, d: Directory)
    requires d == {ManyAs(108), SHADOW}
    ensures Map(z, d, SHADOW, LIMIT + 1) == Some(SHADOW)
  {
    ShadowIsPlain(z, d);
  }

  lemma ShadowFolds()
    ensures Legal(ManyAs(108)) && Legal(SHADOW) && FoldEq([CARET, ZERO] + MANY_AS_PAYLOAD, SHADOW)
  {
  }

  /** The failing family is real: in a directory holding these two names both get
      the same spelling up to case, whenever DEFLATE does not compress a name to
      nothing. */
  lemma SiblingsCollide(z: Deflater, d: Directory)
    requires d == {ManyAs(108), SHADOW} && z.compress(ManyAs(108)) != []
    ensures Legal(ManyAs(108)) && Legal(SHADOW)
    ensures Map(z, d, ManyAs(108), LIMIT + 1) == Some([CARET, ZERO] + MANY_AS_PAYLOAD)
    ensures Map(z, d, SHADOW, LIMIT + 1) == Some(SHADOW)
    ensures FoldEq([CARET, ZERO] + MANY_AS_PAYLOAD, SHADOW)
  {
    ShadowMaps(z, d);
    ManyAsMaps(z, d);
    ShadowFolds();
  }
}
