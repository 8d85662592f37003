/** A bit-packing text code: a digit width, its alphabet, and whether reading
    folds case.  The encoder and decoder are the broker's loops over a 32-bit
    accumulator that silently loses its high bits; they are proved to compute
    the packing of module BitPacking. */
module TextCode {
  import opened Bytes
  import opened BitPacking

  datatype Code = Code(width: nat, alphabet: seq<byte>, folds: bool)

  /** One symbol per digit value, none of them NUL; a folding code has no lower case. */
  ghost predicate Sound(c: Code) {
    && Width(c.width)
    && |c.alphabet| == P2(c.width)
    && (forall i, j :: 0 <= i < j < |c.alphabet| ==> c.alphabet[i] != c.alphabet[j])
    && (forall i :: 0 <= i < |c.alphabet| ==> c.alphabet[i] != 0)
    && (c.folds ==> forall i :: 0 <= i < |c.alphabet| ==> Upper(c.alphabet[i]) == c.alphabet[i])
  }

  /** The symbol a character is looked up as. */
  function Folded(c: Code, symbol: byte): byte {
    if c.folds then Upper(symbol) else symbol
  }

  /** The digit a character stands for. */
  ghost function DigitOf(c: Code, symbol: byte): (r: Option<nat>)
    ensures r.Some? ==> r.value < |c.alphabet| && c.alphabet[r.value] == Folded(c, symbol)
    ensures r.None? ==> Folded(c, symbol) !in c.alphabet
  {
    if Folded(c, symbol) in c.alphabet then
      var d: nat :| d < |c.alphabet| && c.alphabet[d] == Folded(c, symbol);
      Some(d)
    else None
  }

  lemma DigitOfSymbol(c: Code, d: nat)
    requires Sound(c) && d < |c.alphabet|
    ensures DigitOf(c, c.alphabet[d]) == Some(d)
  {
    assert c.alphabet[d] in c.alphabet;
  }

  /** The search of the alphabet: strchr() in base32_decode(), and dense128_value(). */
  method FindDigit(c: Code, symbol: byte) returns (r: Option<nat>)
    requires Sound(c)
    ensures r == DigitOf(c, symbol)
  {
    var wanted := Folded(c, symbol);
    for index := 0 to |c.alphabet|
      invariant forall i :: 0 <= i < index ==> c.alphabet[i] != wanted
    {
      if c.alphabet[index] == wanted { return Some(index); }
    }
    r := None;
  }

  function Spell(c: Code, digits: seq<int>): (t: Text)
    requires forall i :: 0 <= i < |digits| ==> 0 <= digits[i] < |c.alphabet|
    ensures |t| == |digits| && forall i :: 0 <= i < |t| ==> t[i] == c.alphabet[digits[i]]
  {
    seq(|digits|, i requires 0 <= i < |digits| => c.alphabet[digits[i]])
  }

  ghost predicate Readable(c: Code, t: Text) {
    forall i :: 0 <= i < |t| ==> DigitOf(c, t[i]).Some?
  }

  ghost function Read(c: Code, t: Text): (digits: seq<int>)
    requires Readable(c, t)
    ensures |digits| == |t| && forall i :: 0 <= i < |t| ==> digits[i] == DigitOf(c, t[i]).value
  {
    seq(|t|, i requires 0 <= i < |t| => DigitOf(c, t[i]).value)
  }

  lemma ReadDigits(c: Code, t: Text)
    requires Sound(c) && Readable(c, t)
    ensures Digits(c.width, Read(c, t))
  {
  }

  ghost function Encode(c: Code, data: seq<byte>): Text
    requires Sound(c)
  {
    PackPacks(c.width, data);
    Spell(c, Pack(c.width, data))
  }

  /** What a decoder with room for cap bytes makes of a text. */
  ghost function Decode(c: Code, t: Text, cap: nat): Option<seq<byte>>
    requires Sound(c)
  {
    if !Readable(c, t) then None
    else
      ReadDigits(c, t);
      var r := Unpack(c.width, Read(c, t));
      if r.Some? && |r.value| <= cap then r else None
  }

  lemma SpellRead(c: Code, digits: seq<int>)
    requires Sound(c) && Digits(c.width, digits)
    ensures Readable(c, Spell(c, digits)) && Read(c, Spell(c, digits)) == digits
  {
    forall i | 0 <= i < |digits| ensures DigitOf(c, Spell(c, digits)[i]) == Some(digits[i]) {
      DigitOfSymbol(c, digits[i]);
    }
  }

  lemma ReadSpell(c: Code, t: Text)
    requires Sound(c) && Readable(c, t)
    ensures Digits(c.width, Read(c, t))
    ensures Spell(c, Read(c, t)) == if c.folds then UpperText(t) else t
  {
  }

  /** Encoding is canonical: decoding gives the data back ... */
  lemma EncodeDecode(c: Code, data: seq<byte>, cap: nat)
    requires Sound(c) && data != [] && |data| <= cap
    ensures Decode(c, Encode(c, data), cap) == Some(data)
  {
    PackUnpack(c.width, data);
    SpellRead(c, Pack(c.width, data));
  }

  /** ... and the decoder accepts nothing but encodings, up to case when the code folds it. */
  lemma DecodeEncode(c: Code, t: Text, cap: nat)
    requires Sound(c) && Decode(c, t, cap).Some?
    ensures Decode(c, t, cap).value != []
    ensures Encode(c, Decode(c, t, cap).value) == if c.folds then UpperText(t) else t
  {
    ReadSpell(c, t);
    UnpackPack(c.width, Read(c, t));
  }

  /** One unreadable character, and the whole text is. */
  lemma DecodeRefuses(c: Code, t: Text, i: nat, cap: nat)
    requires Sound(c) && i < |t| && DigitOf(c, t[i]).None?
    ensures Decode(c, t, cap) == None
  {
  }

  lemma EncodeSymbols(c: Code, data: seq<byte>)
    requires Sound(c)
    ensures forall s :: s in Encode(c, data) ==> s in c.alphabet
  {
    PackPacks(c.width, data);
  }

  // ------------------------------------------------------------------
  // The 32-bit accumulator
  // ------------------------------------------------------------------

  function U32(x: int): int { x % 0x1_0000_0000 }

  lemma ShlWord(h: int)
    ensures Shl(h, 32) == h * 0x1_0000_0000
  {
    ShlValues(h);
    ShlValues(Shl(h, 8));
    ShlValues(Shl(h, 16));
    ShlValues(Shl(h, 24));
    ShlShl(h, 8, 8);
    ShlShl(h, 16, 8);
    ShlShl(h, 24, 8);
  }

  /** The low k bits of the accumulator are a, whatever is above them. */
  predicate Pending(accumulator: int, k: nat, a: int) {
    accumulator >= 0 && 0 <= a < P2(k) && Low(accumulator, k) == a
  }

  lemma PendingIf(accumulator: nat, k: nat, q: int, a: int)
    requires 0 <= a < P2(k) && accumulator == Shl(q, k) + a
    ensures Pending(accumulator, k, a) && Shr(accumulator, k) == q
  {
    LowRange(accumulator, k);
    ShlUnique(Shr(accumulator, k), Low(accumulator, k), q, a, k);
  }

  /** Reducing modulo 2^32 keeps any k <= 32 low bits. */
  lemma PendingWord(x: nat, k: nat, q: int, a: int)
    requires k <= 32 && 0 <= a < P2(k) && x == Shl(q, k) + a
    ensures Pending(U32(x), k, a)
  {
    var h := x / 0x1_0000_0000;
    ShlWord(h);
    ShlShl(h, 32 - k, k);
    ShlAdd(q - Shl(h, 32 - k), Shl(h, 32 - k), k);
    PendingIf(U32(x), k, q - Shl(h, 32 - k), a);
  }

  /** Shifting the accumulator shifts what is pending. */
  lemma ShlPending(accumulator: nat, bits: nat, a: int, k: nat)
    requires Pending(accumulator, bits, a)
    ensures Shl(accumulator, k) >= 0
    ensures Shl(accumulator, k) == Shl(Shr(accumulator, bits), bits + k) + Shl(a, k)
    ensures 0 <= Shl(a, k) && Shl(a, k) + P2(k) <= P2(bits + k) && P2(k) >= 1
  {
    var q := Shr(accumulator, bits);
    ShlAdd(Shl(q, bits), a, k);
    ShlShl(q, bits, k);
    ShlOrder(a, P2(bits), k);
    ShlOrder(0, a, k);
    ShlShl(1, bits, k);
    ShlOrder(0, accumulator, k);
  }

  /** accumulator = (accumulator << width) | d in 32 bits. */
  lemma PendingTake(accumulator: nat, bits: nat, a: int, width: nat, d: nat)
    requires Pending(accumulator, bits, a) && bits + width <= 32 && d < P2(width)
    ensures Pending(U32(Shl(accumulator, width)) + d, bits + width, Shl(a, width) + d)
  {
    ShlPending(accumulator, bits, a, width);
    PendingWord(Shl(accumulator, width), bits + width, Shr(accumulator, bits), Shl(a, width));
    var m := U32(Shl(accumulator, width));
    PendingIf(m + d, bits + width, Shr(m, bits + width), Shl(a, width) + d);
  }

  /** (accumulator >> k) & mask reads the top w of w + k pending bits, and k stay pending. */
  lemma PendingEmit(accumulator: nat, w: nat, k: nat, a: int)
    requires Pending(accumulator, w + k, a)
    ensures Low(Shr(accumulator, k), w) == Shr(a, k)
    ensures Pending(accumulator, k, Low(a, k))
  {
    var q := Shr(accumulator, w + k);
    Regroup(q, a, w, k);
    PendingIf(accumulator, k, Shl(q, w) + Shr(a, k), Low(a, k));
    PendingIf(Shl(q, w) + Shr(a, k), w, q, Shr(a, k));
  }

  /** (accumulator << k) & mask left-aligns the last bits in their digit. */
  lemma PendingPad(accumulator: nat, bits: nat, a: int, k: nat)
    requires Pending(accumulator, bits, a) && bits + k <= 32
    ensures U32(Shl(accumulator, k)) >= 0 && Low(U32(Shl(accumulator, k)), bits + k) == Shl(a, k)
  {
    ShlPending(accumulator, bits, a, k);
    PendingWord(Shl(accumulator, k), bits + k, Shr(accumulator, bits), Shl(a, k));
  }

  // ------------------------------------------------------------------
  // The loops
  // ------------------------------------------------------------------

  /** What has been written spells the digits written. */
  ghost predicate Spelled(c: Code, out: seq<int>, written: seq<byte>)
    requires Sound(c)
  {
    Digits(c.width, out) && |written| == |out| && written == Spell(c, out)
  }

  /** The encoder's variables stand for packer state s. */
  ghost predicate Encoding(c: Code, s: State, accumulator: int, bits: int, written: seq<byte>)
    requires Sound(c)
  {
    bits == s.bits && Pending(accumulator, bits, s.acc) && Spelled(c, s.out, written)
  }

  lemma SpelledStart(c: Code)
    requires Sound(c)
    ensures Spelled(c, [], [])
  {
  }

  lemma PendingStart()
    ensures Pending(0, 0, 0)
  {
  }

  lemma EncodingStart(c: Code, s: State, accumulator: int, bits: int, written: seq<byte>)
    requires Sound(c) && s == State([], 0, 0) && accumulator == 0 && bits == 0 && written == []
    ensures Encoding(c, s, accumulator, bits, written)
  {
    SpelledStart(c);
    PendingStart();
    assert Spelled(c, s.out, written);
    assert Pending(accumulator, s.bits, s.acc);
  }

  lemma EncodeNothing(w: nat, data: seq<byte>)
    requires Width(w)
    ensures EncodeState(w, data[..0]) == State([], 0, 0)
  {
  }

  /** The empty accumulator. */
  method StartEncoding(c: Code, data: seq<byte>) returns (accumulator: nat, bits: nat, ghost s: State)
    requires Sound(c)
    ensures s == EncodeState(c.width, data[..0]) && bits < c.width && s.out == []
    ensures Encoding(c, s, accumulator, bits, [])
  {
    accumulator, bits, s := 0, 0, EncodeState(c.width, data[..0]);
    EncodeNothing(c.width, data);
    EncodingStart(c, s, accumulator, bits, []);
  }

  lemma ByteRange(d: byte)
    ensures d < P2(8)
  {
    PowValues();
  }

  lemma EncodingAfter(c: Code, s: State, t: State, accumulator: int, bits: int, written: seq<byte>)
    requires Sound(c) && Spelled(c, s.out, written) && t.out == s.out
    requires bits == t.bits && Pending(accumulator, bits, t.acc)
    ensures Encoding(c, t, accumulator, bits, written)
  {
  }

  lemma EncodingTake(c: Code, s: State, accumulator: int, bits: int, written: seq<byte>, w: nat, d: nat)
    requires Sound(c) && Encoding(c, s, accumulator, bits, written) && bits + w <= 32 && d < P2(w)
    ensures Encoding(c, Take(s, w, d), U32(Shl(accumulator, w)) + d, bits + w, written)
  {
    PendingTake(accumulator, bits, s.acc, w, d);
    EncodingAfter(c, s, Take(s, w, d), U32(Shl(accumulator, w)) + d, bits + w, written);
  }

  lemma EncodingEmit(c: Code, s: State, accumulator: int, bits: int, written: seq<byte>)
    requires Sound(c) && Encoding(c, s, accumulator, bits, written) && bits >= c.width
    ensures 0 <= Low(Shr(accumulator, bits - c.width), c.width) < |c.alphabet|
    ensures Encoding(c, Emit(s, c.width), accumulator, bits - c.width,
                     written + [c.alphabet[Low(Shr(accumulator, bits - c.width), c.width)]])
  {
    PendingEmit(accumulator, c.width, bits - c.width, s.acc);
    Regroup(0, s.acc, c.width, bits - c.width);
  }

  lemma EncodingPad(c: Code, data: seq<byte>, s: State, accumulator: int, bits: int, written: seq<byte>)
    requires Sound(c) && Encoding(c, s, accumulator, bits, written) && 0 < bits < c.width
    requires s == EncodeState(c.width, data)
    ensures U32(Shl(accumulator, c.width - bits)) >= 0
    ensures 0 <= Low(U32(Shl(accumulator, c.width - bits)), c.width) < |c.alphabet|
    ensures written + [c.alphabet[Low(U32(Shl(accumulator, c.width - bits)), c.width)]] == Encode(c, data)
  {
    PendingPad(accumulator, bits, s.acc, c.width - bits);
    var d := Low(U32(Shl(accumulator, c.width - bits)), c.width);
    LowRange(U32(Shl(accumulator, c.width - bits)), c.width);
    assert Pack(c.width, data) == s.out + [d];
    PackPacks(c.width, data);
  }

  /** Appending to a buffer. */
  method Put(result: array<byte>, used: nat, symbol: byte)
    requires used < result.Length
    modifies result
    ensures result[..used + 1] == old(result[..used]) + [symbol]
  {
    result[used] := symbol;
  }

  /** The inner loop of the encoders: write whole digits while they fit. */
  method DrainInto(c: Code, accumulator: nat, bits0: nat, used0: nat, result: array<byte>, ghost s0: State)
    returns (bits: nat, used: nat, full: bool)
    requires Sound(c) && used0 < result.Length && Encoding(c, s0, accumulator, bits0, result[..used0])
    modifies result
    ensures full ==> |Drain(c.width, s0).out| + 1 > result.Length
    ensures !full ==> used < result.Length && bits < c.width
    ensures !full ==> Encoding(c, Drain(c.width, s0), accumulator, bits, result[..used])
  {
    bits, used, full := bits0, used0, false;
    ghost var s := s0;
    while bits >= c.width
      invariant Drain(c.width, s) == Drain(c.width, s0)
      invariant used < result.Length && Encoding(c, s, accumulator, bits, result[..used])
    {
      if used + 1 >= result.Length {
        DrainGrows(c.width, s);
        return bits, used, true;
      }
      EncodingEmit(c, s, accumulator, bits, result[..used]);
      Put(result, used, c.alphabet[Low(Shr(accumulator, bits - c.width), c.width)]);
      s := Emit(s, c.width);
      used := used + 1;
      bits := bits - c.width;
    }
  }

  /** base32_encode() and dense128_encode(): fill result with the encoding and
      its NUL and return its length, or return 0 when it does not fit (or when
      there is nothing to encode). */
  method EncodeInto(c: Code, data: seq<byte>, result: array<byte>) returns (used: nat)
    requires Sound(c) && result.Length >= 1
    modifies result
    ensures used != 0 ==> used < result.Length && result[..used] == Encode(c, data) && result[used] == 0
    ensures used == 0 <==> data == [] || |Encode(c, data)| + 1 > result.Length
  {
    var accumulator, bits, s := StartEncoding(c, data);
    assert result[..0] == [];
    var index := 0;
    used := 0;
    EncodedSize(c, data);
    while index < |data|
      invariant index <= |data| && s == EncodeState(c.width, data[..index]) && bits < c.width
      invariant used < result.Length && Encoding(c, s, accumulator, bits, result[..used])
    {
      ByteRange(data[index]);
      EncodingTake(c, s, accumulator, bits, result[..used], 8, data[index]);
      accumulator := U32(Shl(accumulator, 8)) + data[index];
      s := Take(s, 8, data[index]);
      assert data[..index + 1][..index] == data[..index];
      var full;
      bits, used, full := DrainInto(c, accumulator, bits + 8, used, result, s);
      s := EncodeState(c.width, data[..index + 1]);
      if full {
        EncodeGrows(c.width, data, index + 1);
        return 0;
      }
      index := index + 1;
    }
    assert data[..index] == data;
    used := FinishInto(c, data, accumulator, bits, used, result, s);
  }

  lemma EncodingWhole(c: Code, data: seq<byte>, s: State, accumulator: int, written: seq<byte>)
    requires Sound(c) && s == EncodeState(c.width, data) && Encoding(c, s, accumulator, 0, written)
    ensures written == Encode(c, data)
  {
    assert Pack(c.width, data) == s.out;
    PackPacks(c.width, data);
  }

  /** The NUL behind what is written. */
  method Terminate(result: array<byte>, used: nat, ghost t: seq<byte>)
    requires used < result.Length && result[..used] == t
    modifies result
    ensures result[..used] == t && result[used] == 0
  {
    result[used] := 0;
  }

  /** The last digit, left-aligned and zero-filled, and the NUL. */
  method FinishInto(c: Code, data: seq<byte>, accumulator: nat, bits: nat, used0: nat, result: array<byte>,
                    ghost s: State)
    returns (used: nat)
    requires Sound(c) && used0 < result.Length && bits < c.width
    requires s == EncodeState(c.width, data) && Encoding(c, s, accumulator, bits, result[..used0])
    modifies result
    ensures used != 0 ==> used < result.Length && result[..used] == Encode(c, data) && result[used] == 0
    ensures used == 0 <==> data == [] || |Encode(c, data)| + 1 > result.Length
  {
    ghost var t := Encode(c, data);
    SizeOf(c, data, s, accumulator, bits, result[..used0]);
    used := used0;
    if bits != 0 {
      if used + 1 >= result.Length { return 0; }
      EncodingPad(c, data, s, accumulator, bits, result[..used]);
      Put(result, used, c.alphabet[Low(U32(Shl(accumulator, c.width - bits)), c.width)]);
      used := used + 1;
    } else {
      EncodingWhole(c, data, s, accumulator, result[..used]);
    }
    Terminate(result, used, t);
  }

  /** What is written, and a digit for the bits left over, is the length. */
  lemma SizeOf(c: Code, data: seq<byte>, s: State, accumulator: int, bits: int, written: seq<byte>)
    requires Sound(c) && s == EncodeState(c.width, data) && Encoding(c, s, accumulator, bits, written)
    ensures |Encode(c, data)| == |written| + (if bits == 0 then 0 else 1) && (data == [] <==> |Encode(c, data)| == 0)
  {
    EncodedSize(c, data);
  }

  lemma EncodedSize(c: Code, data: seq<byte>)
    requires Sound(c)
    ensures |Encode(c, data)| == |Pack(c.width, data)|
    ensures var s := EncodeState(c.width, data); |Encode(c, data)| == |s.out| + if s.bits == 0 then 0 else 1
    ensures data == [] <==> Encode(c, data) == []
  {
    EncodeStands(c.width, data);
    PackPacks(c.width, data);
    if data != [] { BitsOrder(8, 0, |data|); }
  }

  lemma {:induction false} DrainGrows(w: nat, s: State)
    requires Width(w)
    ensures |Drain(w, s).out| >= |s.out|
    ensures s.bits >= w ==> |Drain(w, s).out| > |s.out|
    decreases s.bits
  {
    if s.bits >= w { DrainGrows(w, Emit(s, w)); }
  }

  lemma {:induction false} EncodeGrows(w: nat, data: seq<byte>, i: nat)
    requires Width(w) && i <= |data|
    ensures |EncodeState(w, data[..i]).out| <= |Pack(w, data)|
    decreases |data| - i
  {
    if i == |data| {
      assert data[..i] == data;
    } else {
      assert data[..i + 1][..i] == data[..i];
      DrainGrows(w, Take(EncodeState(w, data[..i]), 8, data[i]));
      EncodeGrows(w, data, i + 1);
    }
  }

  /** The decoder's variables stand for unpacker state s. */
  ghost predicate Decoding(s: State, accumulator: int, bits: int, written: seq<byte>) {
    bits == s.bits && Pending(accumulator, bits, s.acc) && written == s.out
  }

  lemma ReadNothing(c: Code, text: Text)
    requires Sound(c)
    ensures Readable(c, text[..0]) && Read(c, text[..0]) == []
    ensures Digits(c.width, Read(c, text[..0])) && DecodeState(c.width, Read(c, text[..0])) == State([], 0, 0)
  {
  }

  lemma DecodingStart(s: State, accumulator: int, bits: int, written: seq<byte>)
    requires s == State([], 0, 0) && accumulator == 0 && bits == 0 && written == []
    ensures Decoding(s, accumulator, bits, written)
  {
    PendingStart();
  }

  method StartDecoding(c: Code, text: Text) returns (accumulator: nat, bits: nat, ghost s: State)
    requires Sound(c)
    ensures Progress(c, text[..0], s) && bits < 8 && s.out == []
    ensures Decoding(s, accumulator, bits, [])
  {
    ReadNothing(c, text);
    accumulator, bits, s := 0, 0, DecodeState(c.width, Read(c, text[..0]));
    DecodingStart(s, accumulator, bits, []);
  }

  lemma DecodingTake(c: Code, s: State, accumulator: int, bits: int, written: seq<byte>, d: nat)
    requires Sound(c) && Decoding(s, accumulator, bits, written) && bits < 8 && d < P2(c.width)
    ensures Decoding(Take(s, c.width, d), U32(Shl(accumulator, c.width)) + d, bits + c.width, written)
  {
    PendingTake(accumulator, bits, s.acc, c.width, d);
  }

  lemma DecodingEmit(s: State, accumulator: int, bits: int, written: seq<byte>)
    requires Decoding(s, accumulator, bits, written) && bits >= 8
    ensures 0 <= Low(Shr(accumulator, bits - 8), 8) < 256
    ensures Decoding(Emit(s, 8), accumulator, bits - 8, written + [Low(Shr(accumulator, bits - 8), 8)])
  {
    PendingEmit(accumulator, 8, bits - 8, s.acc);
    LowRange(Shr(accumulator, bits - 8), 8);
    PowValues();
  }

  /** A whole byte goes from the accumulator to the buffer. */
  method EmitByte(result: array<byte>, used: nat, accumulator: nat, bits: nat, ghost s: State)
    requires used < result.Length && bits >= 8 && Decoding(s, accumulator, bits, result[..used])
    modifies result
    ensures Decoding(Emit(s, 8), accumulator, bits - 8, result[..used + 1])
  {
    DecodingEmit(s, accumulator, bits, result[..used]);
    Put(result, used, Low(Shr(accumulator, bits - 8), 8));
  }

  /** base32_decode() and dense128_decode(): 0 with the bytes, or -1. */
  method DecodeInto(c: Code, text: Text, result: array<byte>) returns (status: int, length: nat)
    requires Sound(c)
    modifies result
    ensures status == 0 || status == -1
    ensures status == 0 <==> Decode(c, text, result.Length).Some?
    ensures status == 0 ==> length <= result.Length && result[..length] == Decode(c, text, result.Length).value
  {
    var accumulator, bits, s := StartDecoding(c, text);
    assert result[..0] == [];
    var index, used: nat := 0, 0;
    length := 0;
    while index < |text|
      invariant index <= |text| && bits < 8 && Progress(c, text[..index], s)
      invariant used <= result.Length && Decoding(s, accumulator, bits, result[..used])
    {
      var position := FindDigit(c, text[index]);
      if position.None? {
        DecodeRefuses(c, text, index, result.Length);
        return -1, 0;
      }
      var d, full := position.value, false;
      accumulator, bits, used, full, s := DecodeDigit(c, text, index, d, accumulator, bits, used, result, s);
      if full { return -1, 0; }
      index := index + 1;
    }
    assert text[..index] == text;
    DecodeEnd(c, text, s, accumulator, bits, result[..used], result.Length);
    if bits >= c.width || Low(accumulator, bits) != 0 { return -1, 0; }
    length := used;
    status := if used != 0 then 0 else -1;
  }

  /** One digit taken, and the byte that is then due, if there is room for it. */
  method DecodeDigit(c: Code, text: Text, index: nat, d: nat, accumulator0: nat, bits0: nat, used0: nat,
                     result: array<byte>, ghost s0: State)
    returns (accumulator: nat, bits: nat, used: nat, full: bool, ghost s: State)
    requires Sound(c) && index < |text| && Progress(c, text[..index], s0) && DigitOf(c, text[index]) == Some(d)
    requires bits0 < 8 && used0 <= result.Length && Decoding(s0, accumulator0, bits0, result[..used0])
    modifies result
    ensures full ==> Decode(c, text, result.Length) == None
    ensures !full ==> bits < 8 && used <= result.Length && Progress(c, text[..index + 1], s)
    ensures !full ==> Decoding(s, accumulator, bits, result[..used])
  {
    DigitTaken(c, text, index, s0, accumulator0, bits0, result[..used0], d);
    accumulator, bits, used, full := U32(Shl(accumulator0, c.width)) + d, bits0 + c.width, used0, false;
    s := Take(s0, c.width, d);
    if bits >= 8 {
      if used >= result.Length {
        DecodeTooLong(c, text, index + 1, Emit(s, 8), result.Length);
        full := true;
        return;
      }
      EmitByte(result, used, accumulator, bits, s);
      s := Emit(s, 8);
      used, bits := used + 1, bits - 8;
    }
  }

  /** What the variables say once the whole text is read. */
  lemma DecodeEnd(c: Code, text: Text, s: State, accumulator: nat, bits: nat, written: seq<byte>, cap: nat)
    requires Sound(c) && Progress(c, text, s) && bits < 8 && Decoding(s, accumulator, bits, written) && |written| <= cap
    ensures Decode(c, text, cap)
         == if bits >= c.width || Low(accumulator, bits) != 0 || written == [] then None else Some(written)
  {
  }

  /** s is where the decoder stands after reading a text. */
  ghost predicate Progress(c: Code, read: Text, s: State)
    requires Sound(c)
  {
    Readable(c, read) && Digits(c.width, Read(c, read)) && s == DecodeState(c.width, Read(c, read))
  }

  lemma ReadStep(c: Code, text: Text, i: nat, s: State)
    requires Sound(c) && i < |text| && Progress(c, text[..i], s) && DigitOf(c, text[i]).Some?
    ensures DigitOf(c, text[i]).value < P2(c.width)
    ensures Progress(c, text[..i + 1], Settle(Take(s, c.width, DigitOf(c, text[i]).value)))
  {
    var r := Read(c, text[..i + 1]);
    assert r[..i] == Read(c, text[..i]);
  }

  /** One more digit read: at most one byte is then due. */
  lemma DigitTaken(c: Code, text: Text, i: nat, s: State, accumulator: nat, bits: nat, written: seq<byte>, d: nat)
    requires Sound(c) && i < |text| && Progress(c, text[..i], s) && DigitOf(c, text[i]) == Some(d)
    requires bits < 8 && Decoding(s, accumulator, bits, written)
    ensures var t := Take(s, c.width, d);
            && Decoding(t, U32(Shl(accumulator, c.width)) + d, bits + c.width, written)
            && Progress(c, text[..i + 1], if bits + c.width >= 8 then Emit(t, 8) else t) && bits + c.width < 16
            && (bits + c.width >= 8 ==> |Emit(t, 8).out| == |written| + 1)
  {
    ReadStep(c, text, i, s);
    DecodingTake(c, s, accumulator, bits, written, d);
  }

  lemma {:induction false} DecodeGrows(w: nat, digits: seq<int>, i: nat)
    requires Width(w) && Digits(w, digits) && i <= |digits|
    ensures |DecodeState(w, digits[..i]).out| <= |DecodeState(w, digits).out|
    decreases |digits| - i
  {
    if i == |digits| {
      assert digits[..i] == digits;
    } else {
      assert digits[..i + 1][..i] == digits[..i];
      DecodeGrows(w, digits, i + 1);
    }
  }

  lemma DecodeTooLong(c: Code, text: Text, i: nat, s: State, cap: nat)
    requires Sound(c) && i <= |text| && Progress(c, text[..i], s) && |s.out| > cap
    ensures Decode(c, text, cap) == None
  {
    if Readable(c, text) {
      ReadDigits(c, text);
      assert Read(c, text)[..i] == Read(c, text[..i]);
      DecodeGrows(c.width, Read(c, text), i);
    }
  }
}
