/** The bit-packing text codes of the broker: base32 (five bits a character)
    and DENSE128 (seven bits a character) are one algorithm over two alphabets.

    The reference definition is arithmetic and mentions no accumulator: a digit
    string packs a byte string when its value is the bytes' value followed by
    fewer than one digit's worth of zero bits (Packs).  Multiplication by a
    power of two is written as a shift. */
module BitPacking {
  import opened Bytes

  // ------------------------------------------------------------------
  // Shifts
  // ------------------------------------------------------------------

  function Shl(x: int, k: nat): int {
    if k == 0 then x else 2 * Shl(x, k - 1)
  }

  function Shr(x: nat, k: nat): nat {
    if k == 0 then x else Shr(x, k - 1) / 2
  }

  /** The k low bits of x. */
  function Low(x: nat, k: nat): int {
    x - Shl(Shr(x, k), k)
  }

  function P2(k: nat): int { Shl(1, k) }

  lemma {:induction false} ShlAdd(x: int, y: int, k: nat)
    ensures Shl(x + y, k) == Shl(x, k) + Shl(y, k)
  {
    if k > 0 { ShlAdd(x, y, k - 1); }
  }

  lemma {:induction false} ShlShl(x: int, j: nat, k: nat)
    ensures Shl(Shl(x, j), k) == Shl(x, j + k)
  {
    if k > 0 { ShlShl(x, j, k - 1); }
  }

  /** Shifting is strictly monotone, and distinct values end up P2(k) apart. */
  lemma {:induction false} ShlOrder(x: int, y: int, k: nat)
    ensures x < y ==> Shl(x, k) + P2(k) <= Shl(y, k)
    ensures y < x ==> Shl(y, k) + P2(k) <= Shl(x, k)
    ensures P2(k) >= 1 && Shl(0, k) == 0
  {
    if k > 0 { ShlOrder(x, y, k - 1); }
  }

  lemma {:induction false} LowRange(x: nat, k: nat)
    ensures 0 <= Low(x, k) < P2(k)
  {
    if k > 0 {
      LowRange(x, k - 1);
      var h := Shr(x, k - 1);
      ShlAdd(2 * (h / 2), h % 2, k - 1);
      ShlTwice(h / 2, k - 1);
      if h % 2 == 0 { ShlOrder(0, 0, k - 1); }
    }
  }

  lemma {:induction false} ShlTwice(x: int, k: nat)
    ensures Shl(2 * x, k) == 2 * Shl(x, k)
  {
    if k > 0 { ShlTwice(x, k - 1); }
  }

  lemma ShrBound(x: nat, y: int, k: nat)
    requires x < Shl(y, k)
    ensures Shr(x, k) < y
  {
    LowRange(x, k);
    ShlOrder(Shr(x, k), y, k);
  }

  /** A value above k bits with fewer than k bits below it splits back uniquely. */
  lemma ShlUnique(x: int, a: int, y: int, b: int, k: nat)
    requires 0 <= a < P2(k) && 0 <= b < P2(k)
    requires Shl(x, k) + a == Shl(y, k) + b
    ensures x == y && a == b
  {
    ShlOrder(x, y, k);
  }

  /** n digits of w bits. */
  function Bits(w: nat, n: nat): nat {
    if n == 0 then 0 else Bits(w, n - 1) + w
  }

  lemma {:induction false} BitsOrder(w: nat, m: nat, n: nat)
    requires m < n
    ensures Bits(w, m) + w <= Bits(w, n)
    decreases n
  {
    if m < n - 1 { BitsOrder(w, m, n - 1); }
  }

  lemma {:induction false} BitsIsProduct(w: nat, n: nat)
    ensures Bits(w, n) == w * n
  {
    if n > 0 {
      BitsIsProduct(w, n - 1);
      assert w * (n - 1) + w == w * n;
    }
  }

  // ------------------------------------------------------------------
  // Values of digit strings, and the reference relation
  // ------------------------------------------------------------------

  /** The value of a big-endian string of w-bit digits. */
  function Val(w: nat, s: seq<int>): int {
    if s == [] then 0 else Shl(Val(w, s[..|s| - 1]), w) + s[|s| - 1]
  }

  predicate Digits(w: nat, s: seq<int>) {
    forall i :: 0 <= i < |s| ==> 0 <= s[i] < P2(w)
  }

  lemma ValAppend(w: nat, s: seq<int>, d: int)
    ensures Val(w, s + [d]) == Shl(Val(w, s), w) + d
  {
    assert (s + [d])[..|s|] == s;
  }

  lemma {:induction false} ValInjective(w: nat, s: seq<int>, t: seq<int>)
    requires Digits(w, s) && Digits(w, t) && |s| == |t|
    requires Val(w, s) == Val(w, t)
    ensures s == t
  {
    if s != [] {
      var n := |s| - 1;
      ShlUnique(Val(w, s[..n]), s[n], Val(w, t[..n]), t[n], w);
      ValInjective(w, s[..n], t[..n]);
      assert s == s[..n] + [s[n]] && t == t[..n] + [t[n]];
    }
  }

  predicate Width(w: nat) { 1 <= w < 8 }

  predicate Packs(w: nat, data: seq<byte>, digits: seq<int>) {
    var pad := Bits(w, |digits|) - Bits(8, |data|);
    && Digits(w, digits)
    && 0 <= pad < w
    && Val(w, digits) == Shl(Val(8, data), pad)
  }

  lemma ByteDigits(data: seq<byte>)
    ensures Digits(8, data)
  {
    assert P2(8) == 256 by { PowValues(); }
  }

  lemma ShlValues(h: int)
    ensures Shl(h, 5) == 32 * h && Shl(h, 7) == 128 * h && Shl(h, 8) == 256 * h
  {
    assert Shl(h, 1) == 2 * h;
    assert Shl(h, 3) == 8 * h;
    assert Shl(h, 5) == 32 * h;
    assert Shl(h, 7) == 128 * h;
  }

  lemma PowValues()
    ensures P2(5) == 32 && P2(7) == 128 && P2(8) == 256
  {
    ShlValues(1);
  }

  lemma PacksUniqueData(w: nat, a: seq<byte>, b: seq<byte>, digits: seq<int>)
    requires Width(w) && Packs(w, a, digits) && Packs(w, b, digits)
    ensures a == b
  {
    if |a| < |b| { BitsOrder(8, |a|, |b|); }
    if |b| < |a| { BitsOrder(8, |b|, |a|); }
    ShlOrder(Val(8, a), Val(8, b), Bits(w, |digits|) - Bits(8, |a|));
    ByteDigits(a);
    ByteDigits(b);
    ValInjective(8, a, b);
  }

  lemma PacksUniqueDigits(w: nat, data: seq<byte>, s: seq<int>, t: seq<int>)
    requires Width(w) && Packs(w, data, s) && Packs(w, data, t)
    ensures s == t
  {
    if |s| < |t| { BitsOrder(w, |s|, |t|); }
    if |t| < |s| { BitsOrder(w, |t|, |s|); }
    ValInjective(w, s, t);
  }

  // ------------------------------------------------------------------
  // The packer as a function of the bytes read so far
  // ------------------------------------------------------------------

  /** What the loops hold: digits or bytes written, and the bits not yet written. */
  datatype State = State(out: seq<int>, acc: nat, bits: nat)

  /** Write the top width bits of the pending ones. */
  function Emit(s: State, width: nat): State
    requires width <= s.bits
  {
    LowRange(s.acc, s.bits - width);
    State(s.out + [Shr(s.acc, s.bits - width)], Low(s.acc, s.bits - width), s.bits - width)
  }

  /** Read one digit of the given width. */
  function Take(s: State, width: nat, d: nat): State {
    ShlOrder(0, s.acc, width);
    State(s.out, Shl(s.acc, width) + d, s.bits + width)
  }

  /** State s stands for v: what is written, then what is pending. */
  predicate Stands(v: int, w: nat, s: State) {
    && s.acc < P2(s.bits)
    && Digits(w, s.out)
    && v == Shl(Val(w, s.out), s.bits) + s.acc
  }

  lemma TakeStands(v: int, w: nat, s: State, width: nat, d: nat)
    requires Stands(v, w, s) && d < P2(width)
    ensures Stands(Shl(v, width) + d, w, Take(s, width, d))
  {
    ShlAdd(Shl(Val(w, s.out), s.bits), s.acc, width);
    ShlShl(Val(w, s.out), s.bits, width);
    ShlOrder(s.acc, P2(s.bits), width);
    ShlShl(1, s.bits, width);
  }

  /** Moving the top w of w + k pending bits behind x leaves the value alone. */
  lemma Regroup(x: int, acc: nat, w: nat, k: nat)
    requires acc < P2(w + k)
    ensures Shr(acc, k) < P2(w) && 0 <= Low(acc, k) < P2(k)
    ensures Shl(Shl(x, w) + Shr(acc, k), k) + Low(acc, k) == Shl(x, w + k) + acc
  {
    LowRange(acc, k);
    ShlShl(1, w, k);
    ShrBound(acc, P2(w), k);
    ShlAdd(Shl(x, w), Shr(acc, k), k);
    ShlShl(x, w, k);
  }

  lemma EmitStands(v: int, w: nat, s: State)
    requires Stands(v, w, s) && w <= s.bits
    ensures Stands(v, w, Emit(s, w))
  {
    var e, d := Emit(s, w), Shr(s.acc, s.bits - w);
    Regroup(Val(w, s.out), s.acc, w, e.bits);
    ValAppend(w, s.out, d);
    assert v == Shl(Val(w, e.out), e.bits) + e.acc;
    assert Digits(w, e.out);
  }

  /** Write whole digits while enough bits are pending. */
  function Drain(w: nat, s: State): State
    requires Width(w)
    decreases s.bits
  {
    if s.bits < w then s else Drain(w, Emit(s, w))
  }

  function EncodeState(w: nat, data: seq<byte>): State
    requires Width(w)
  {
    if data == [] then State([], 0, 0)
    else Drain(w, Take(EncodeState(w, data[..|data| - 1]), 8, data[|data| - 1]))
  }

  function Pack(w: nat, data: seq<byte>): seq<int>
    requires Width(w)
  {
    var s := EncodeState(w, data);
    if s.bits == 0 || s.bits >= w then s.out else s.out + [Shl(s.acc, w - s.bits)]
  }

  lemma {:induction false} DrainStands(v: int, w: nat, s: State)
    requires Width(w) && Stands(v, w, s)
    ensures Stands(v, w, Drain(w, s)) && Drain(w, s).bits < w
    ensures Bits(w, |Drain(w, s).out|) + Drain(w, s).bits == Bits(w, |s.out|) + s.bits
    decreases s.bits
  {
    if s.bits >= w {
      EmitStands(v, w, s);
      DrainStands(v, w, Emit(s, w));
    }
  }

  lemma {:induction false} EncodeStands(w: nat, data: seq<byte>)
    requires Width(w)
    ensures Stands(Val(8, data), w, EncodeState(w, data)) && EncodeState(w, data).bits < w
    ensures Bits(8, |data|) == Bits(w, |EncodeState(w, data).out|) + EncodeState(w, data).bits
  {
    if data != [] {
      var n := |data| - 1;
      EncodeStands(w, data[..n]);
      PowValues();
      var s := EncodeState(w, data[..n]);
      TakeStands(Val(8, data[..n]), w, s, 8, data[n]);
      DrainStands(Val(8, data), w, Take(s, 8, data[n]));
    }
  }

  /** The packer meets the reference relation. */
  lemma PackPacks(w: nat, data: seq<byte>)
    requires Width(w)
    ensures Packs(w, data, Pack(w, data))
  {
    EncodeStands(w, data);
    var s := EncodeState(w, data);
    if s.bits > 0 {
      var k := w - s.bits;
      ShlOrder(s.acc, P2(s.bits), k);
      ShlOrder(0, s.acc, k);
      ShlShl(1, s.bits, k);
      ValAppend(w, s.out, Shl(s.acc, k));
      ShlAdd(Shl(Val(w, s.out), s.bits), s.acc, k);
      ShlShl(Val(w, s.out), s.bits, k);
    }
  }

  /** base32_encoded_length() and dense128_encoded_length(). */
  function EncodedLength(w: nat, bytes: nat): nat
    requires Width(w)
  {
    (bytes * 8 + (w - 1)) / w
  }

  lemma PackLength(w: nat, data: seq<byte>)
    requires w == 5 || w == 7
    ensures |Pack(w, data)| == EncodedLength(w, |data|)
  {
    PackPacks(w, data);
    BitsIsProduct(w, |Pack(w, data)|);
    BitsIsProduct(8, |data|);
  }

  // ------------------------------------------------------------------
  // The unpacker
  // ------------------------------------------------------------------

  /** Write one byte when eight bits are pending. */
  function Settle(s: State): State {
    if s.bits < 8 then s else Emit(s, 8)
  }

  function DecodeState(w: nat, digits: seq<int>): State
    requires Width(w) && Digits(w, digits)
  {
    if digits == [] then State([], 0, 0)
    else Settle(Take(DecodeState(w, digits[..|digits| - 1]), w, digits[|digits| - 1]))
  }

  lemma {:induction false} DecodeStands(w: nat, digits: seq<int>)
    requires Width(w) && Digits(w, digits)
    ensures Stands(Val(w, digits), 8, DecodeState(w, digits)) && DecodeState(w, digits).bits < 8
    ensures Bits(w, |digits|) == Bits(8, |DecodeState(w, digits).out|) + DecodeState(w, digits).bits
  {
    if digits != [] {
      var n := |digits| - 1;
      DecodeStands(w, digits[..n]);
      var s := DecodeState(w, digits[..n]);
      TakeStands(Val(w, digits[..n]), 8, s, w, digits[n]);
      var t := Take(s, w, digits[n]);
      if t.bits >= 8 { EmitStands(Val(w, digits), 8, t); }
    }
  }

  /** The decoders' answer: every pad bit must be zero and less than a digit of
      them may be left over; an empty result is refused. */
  function Unpack(w: nat, digits: seq<int>): (r: Option<seq<byte>>)
    requires Width(w) && Digits(w, digits)
  {
    var s := DecodeState(w, digits);
    DecodeStands(w, digits);
    PowValues();
    if s.bits >= w || s.acc != 0 || s.out == [] then None
    else
      var bytes: seq<byte> := s.out;
      Some(bytes)
  }

  /** The decoder accepts exactly the packings of non-empty byte strings, and
      returns the string packed. */
  lemma UnpackIff(w: nat, digits: seq<int>, data: seq<byte>)
    requires Width(w) && Digits(w, digits)
    ensures Unpack(w, digits) == Some(data) <==> (data != [] && Packs(w, data, digits))
  {
    DecodeStands(w, digits);
    var s := DecodeState(w, digits);
    if data != [] && Packs(w, data, digits) {
      if |s.out| < |data| { BitsOrder(8, |s.out|, |data|); }
      if |data| < |s.out| { BitsOrder(8, |data|, |s.out|); }
      ShlOrder(0, 0, s.bits);
      ShlUnique(Val(8, s.out), s.acc, Val(8, data), 0, s.bits);
      ByteDigits(data);
      ValInjective(8, s.out, data);
    }
  }

  lemma PackUnpack(w: nat, data: seq<byte>)
    requires Width(w) && data != []
    ensures Digits(w, Pack(w, data)) && Unpack(w, Pack(w, data)) == Some(data)
  {
    PackPacks(w, data);
    UnpackIff(w, Pack(w, data), data);
  }

  lemma UnpackPack(w: nat, digits: seq<int>)
    requires Width(w) && Digits(w, digits) && Unpack(w, digits).Some?
    ensures Pack(w, Unpack(w, digits).value) == digits
  {
    var data := Unpack(w, digits).value;
    UnpackIff(w, digits, data);
    PackPacks(w, data);
    PacksUniqueDigits(w, data, Pack(w, data), digits);
  }
}
