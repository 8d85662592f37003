/** The escapes of the name mapper: a caret followed by a payload that one of
    the codecs really produces.  Everything else keeps its caret. */
module Escape {
  import opened Bytes
  import opened TextCode
  import opened Alphabets
  import Pack39

  const NAME_MAX := 255
  /** sizeof(payload) == NAME_MAX + 2. */
  const PAYLOAD_SIZE := 257
  const PACK39_TRAILER: byte := 0x80
  const DEFLATE_TRAILER: byte := 0x81

  /** Raw DEFLATE with the preset dictionary, as a pair of functions. */
  datatype Deflater = Deflater(compress: seq<byte> -> seq<byte>, inflate: seq<byte> -> Option<seq<byte>>)

  /** The one fact about DEFLATE that is used: inflating undoes compressing. */
  ghost predicate Lossless(z: Deflater) {
    forall t: seq<byte> :: z.inflate(z.compress(t)) == Some(t)
  }

  ghost function Base32Encode(data: seq<byte>): Text {
    Base32Sound();
    Encode(BASE32, data)
  }

  ghost function Base32Decode(t: Text, cap: nat): Option<seq<byte>> {
    Base32Sound();
    Decode(BASE32, t, cap)
  }

  ghost function DenseEncode(data: seq<byte>): Text {
    Dense128Sound();
    Encode(DENSE128, data)
  }

  ghost function DenseDecode(t: Text, cap: nat): Option<seq<byte>> {
    Dense128Sound();
    Decode(DENSE128, t, cap)
  }

  /** What is compressed: the payload without its trailer. */
  ghost function Decompress(z: Deflater, body: seq<byte>, trailer: byte): Option<Text> {
    if trailer == PACK39_TRAILER then
      (if Pack39.Accepted(body, PAYLOAD_SIZE) then Pack39.Decode(body, PAYLOAD_SIZE) else None)
    else if trailer == DEFLATE_TRAILER then
      var raw := z.inflate(body);
      if raw.Some? && |raw.value| <= NAME_MAX + 1 && z.compress(CString(raw.value)) == body
      then Some(CString(raw.value)) else None
    else None
  }

  /** compressed_payload_decode(): decode, then prove it by encoding again. */
  ghost function CompressedDecode(z: Deflater, suffix: Text): Option<Text> {
    var p := DenseDecode(suffix, PAYLOAD_SIZE);
    if p.None? || p.value == [] then None
    else Decompress(z, p.value[..|p.value| - 1], p.value[|p.value| - 1])
  }

  /** A literal payload: the rest of a name, and its NUL. */
  predicate Terminated(p: seq<byte>) {
    p != [] && p[|p| - 1] == 0 && forall i :: 0 <= i < |p| - 1 ==> p[i] != 0
  }

  /** escape_payload_valid(). */
  ghost predicate PayloadValid(z: Deflater, suffix: Text) {
    if suffix != [] && suffix[0] == ZERO then CompressedDecode(z, suffix[1..]).Some?
    else
      var p := Base32Decode(suffix, PAYLOAD_SIZE);
      p.Some? && Terminated(p.value)
  }

  ghost predicate IsMarker(z: Deflater, name: Text, i: int) {
    0 <= i < |name| && name[i] == CARET && PayloadValid(z, name[i + 1..])
  }

  /** The first of the places from i up to n that is wanted. */
  ghost function Least(n: nat, wanted: int -> bool, i: nat): (r: Option<nat>)
    requires i <= n
    ensures r.Some? ==> i <= r.value < n && wanted(r.value)
    ensures forall k :: i <= k < (if r.Some? then r.value else n) ==> !wanted(k)
    decreases n - i
  {
    if i == n then None else if wanted(i) then Some(i) else Least(n, wanted, i + 1)
  }

  lemma LeastIs(n: nat, wanted: int -> bool, i: nat, k: nat)
    requires i <= k < n && wanted(k) && forall j :: i <= j < k ==> !wanted(j)
    ensures Least(n, wanted, i) == Some(k)
  {
    var r := Least(n, wanted, i);
    assert r.None? ==> !wanted(k);
    assert r.Some? && k < r.value ==> !wanted(k);
  }

  ghost function Markers(z: Deflater, name: Text): int -> bool { (i: int) => IsMarker(z, name, i) }

  /** escape_marker(): the first caret that opens an escape. */
  ghost function MarkerFrom(z: Deflater, name: Text, i: nat): (r: Option<nat>)
    requires i <= |name|
    ensures r.Some? ==> i <= r.value && IsMarker(z, name, r.value)
    ensures forall k :: i <= k < (if r.Some? then r.value else |name|) ==> !IsMarker(z, name, k)
  {
    var m := Markers(z, name);
    assert forall k :: m(k) == IsMarker(z, name, k);
    Least(|name|, m, i)
  }

  ghost predicate Unspellable(z: Deflater, name: Text, i: int) {
    0 <= i < |name| && (name[i] == COLON || name[i] == SLASH || IsMarker(z, name, i))
  }

  ghost function Unspellables(z: Deflater, name: Text): int -> bool { (i: int) => Unspellable(z, name, i) }

  /** first_unspellable_index(). */
  ghost function UnspellableFrom(z: Deflater, name: Text, i: nat): (r: Option<nat>)
    requires i <= |name|
    ensures r.Some? ==> i <= r.value && Unspellable(z, name, r.value)
    ensures forall k :: i <= k < (if r.Some? then r.value else |name|) ==> !Unspellable(z, name, k)
  {
    var u := Unspellables(z, name);
    assert forall k :: u(k) == Unspellable(z, name, k);
    Least(|name|, u, i)
  }

  // ------------------------------------------------------------------
  // Payloads
  // ------------------------------------------------------------------

  lemma Base32Readable(t: Text, cap: nat, i: nat)
    requires Base32Decode(t, cap).Some? && i < |t|
    ensures Upper(t[i]) in BASE32_ALPHABET && t[i] != CARET && t[i] != ZERO
  {
    Base32Sound();
    assert DigitOf(BASE32, t[i]).Some?;
    SymbolsAreOrdinary(Upper(t[i]));
  }

  lemma DenseReadable(t: Text, cap: nat, i: nat)
    requires DenseDecode(t, cap).Some? && i < |t|
    ensures t[i] in DENSE128_ALPHABET && t[i] != CARET
  {
    Dense128Sound();
    assert DigitOf(DENSE128, t[i]).Some?;
    SymbolsAreOrdinary(t[i]);
  }

  /** No payload holds a caret: this is what makes the marker unambiguous. */
  lemma ValidHasNoCaret(z: Deflater, suffix: Text, i: nat)
    requires PayloadValid(z, suffix) && i < |suffix|
    ensures suffix[i] != CARET
  {
    if suffix[0] == ZERO {
      if i > 0 { DenseReadable(suffix[1..], PAYLOAD_SIZE, i - 1); }
    } else {
      Base32Readable(suffix, PAYLOAD_SIZE, i);
    }
  }

  /** Only case decides what reads the same in a base32 payload. */
  lemma Base32FoldsCase(s: Text, t: Text, cap: nat)
    requires FoldEq(s, t) && Base32Decode(s, cap).Some?
    ensures Base32Decode(t, cap) == Base32Decode(s, cap)
  {
    Base32Sound();
    forall i | 0 <= i < |s| ensures DigitOf(BASE32, t[i]) == DigitOf(BASE32, s[i]) {
      assert Lower(s[i]) == Lower(t[i]);
      assert Folded(BASE32, s[i]) == Folded(BASE32, t[i]);
      assert DigitOf(BASE32, s[i]).Some?;
      DigitOfSymbol(BASE32, DigitOf(BASE32, s[i]).value);
      SameDigit(BASE32, s[i], t[i]);
    }
    assert Read(BASE32, s) == Read(BASE32, t);
  }

  lemma SameDigit(c: Code, s: byte, t: byte)
    requires Sound(c) && Folded(c, s) == Folded(c, t)
    ensures DigitOf(c, s) == DigitOf(c, t)
  {
  }

  predicate NoNul(t: Text) { forall i :: 0 <= i < |t| ==> t[i] != 0 }

  lemma LiteralPayload(z: Deflater, tail: Text, cap: nat)
    requires NoNul(tail) && |tail| + 1 <= cap
    ensures Base32Decode(Base32Encode(tail + [0]), cap) == Some(tail + [0])
    ensures Base32Encode(tail + [0]) != [] && Base32Encode(tail + [0])[0] != ZERO
    ensures cap <= PAYLOAD_SIZE ==> PayloadValid(z, Base32Encode(tail + [0]))
  {
    Base32Sound();
    var p, s := tail + [0], Base32Encode(tail + [0]);
    EncodeDecode(BASE32, p, cap);
    EncodeDecode(BASE32, p, if cap <= PAYLOAD_SIZE then PAYLOAD_SIZE else cap);
    EncodedSize(BASE32, p);
    Base32Readable(s, cap, 0);
  }

  /** What the mapper compresses: the trailer names the engine. */
  ghost predicate Compresses(z: Deflater, best: seq<byte>, tail: Text) {
    || (Pack39.Encodable(tail) && |tail| <= NAME_MAX && best == Pack39.Encode(tail) + [PACK39_TRAILER])
    || best == z.compress(tail) + [DEFLATE_TRAILER]
  }

  lemma CompressedPayload(z: Deflater, best: seq<byte>, tail: Text)
    requires Lossless(z) && NoNul(tail) && |tail| <= NAME_MAX
    requires Compresses(z, best, tail) && |best| <= PAYLOAD_SIZE
    ensures CompressedDecode(z, DenseEncode(best)) == Some(tail)
    ensures PayloadValid(z, [ZERO] + DenseEncode(best))
  {
    Dense128Sound();
    EncodeDecode(DENSE128, best, PAYLOAD_SIZE);
    var body := best[..|best| - 1];
    if Pack39.Encodable(tail) && best == Pack39.Encode(tail) + [PACK39_TRAILER] {
      assert body == Pack39.Encode(tail);
      Pack39.EncodeDecode(tail, PAYLOAD_SIZE);
    } else {
      assert body == z.compress(tail);
      WholeString(tail);
    }
    assert ([ZERO] + DenseEncode(best))[1..] == DenseEncode(best);
  }

  lemma {:induction false} WholeString(t: Text)
    requires NoNul(t)
    ensures CString(t) == t
  {
    if t != [] {
      WholeString(t[1..]);
      assert t == [t[0]] + t[1..];
    }
  }

  /** The marker of header ^ payload is the caret between them, whatever carets
      the header holds. */
  lemma MarkerAtHeader(z: Deflater, header: Text, payload: Text)
    requires PayloadValid(z, payload)
    ensures MarkerFrom(z, header + [CARET] + payload, 0) == Some(|header|)
  {
    var name := header + [CARET] + payload;
    assert name[|header| + 1..] == payload;
    assert IsMarker(z, name, |header|);
    var m := Markers(z, name);
    forall i | 0 <= i < |header| ensures !m(i) {
      HeaderCaret(z, header, payload, i);
    }
    LeastIs(|name|, m, 0, |header|);
  }

  lemma HeaderCaret(z: Deflater, header: Text, payload: Text, i: nat)
    requires i < |header|
    ensures !IsMarker(z, header + [CARET] + payload, i)
  {
    var name := header + [CARET] + payload;
    if IsMarker(z, name, i) {
      assert name[i + 1..][|header| - i - 1] == CARET;
      ValidHasNoCaret(z, name[i + 1..], |header| - i - 1);
    }
  }
}
