/** PACK39: a string over [a-z0-9_.-] as its length and the base-256 digits of
    its base-39 value, by multiply-and-carry one way and repeated division the
    other.  The reference is the value: module Radix. */
module Pack39 {
  import opened Bytes
  import opened Radix

  const NAME_MAX := 255

  /** "abcdefghijklmnopqrstuvwxyz0123456789_.-". */
  const PACK39_ALPHABET: seq<byte> := [
    97, 98, 99, 100, 101, 102, 103, 104, 105, 106, 107, 108, 109, 110, 111, 112, 113, 114, 115, 116,
    117, 118, 119, 120, 121, 122, 48, 49, 50, 51, 52, 53, 54, 55, 56, 57, 95, 46, 45
  ]

  /** The symbol of a value, by the runs of the alphabet. */
  function Symbol(i: nat): byte
    requires i < 39
  {
    if i < 26 then i + 97 else if i < 36 then i + 22 else if i == 36 then 95 else if i == 37 then 46 else 45
  }

  function SymbolValue(c: byte): Option<nat> {
    if 97 <= c <= 122 then Some(c - 97)
    else if 48 <= c <= 57 then Some(c - 22)
    else if c == 95 then Some(36) else if c == 46 then Some(37) else if c == 45 then Some(38)
    else None
  }

  lemma AlphabetRuns(i: nat)
    requires i < 39
    ensures PACK39_ALPHABET[i] == Symbol(i)
  {
  }

  /** pack39_value() is the position in the alphabet. */
  lemma SymbolValueIsPosition(c: byte, i: nat)
    requires i < 39
    ensures PACK39_ALPHABET[i] == c <==> SymbolValue(c) == Some(i)
    ensures c in PACK39_ALPHABET <==> SymbolValue(c).Some?
  {
    AlphabetRuns(i);
    if c in PACK39_ALPHABET {
      var j :| 0 <= j < 39 && PACK39_ALPHABET[j] == c;
      AlphabetRuns(j);
    }
    if SymbolValue(c).Some? {
      AlphabetRuns(SymbolValue(c).value);
      assert PACK39_ALPHABET[SymbolValue(c).value] == c;
    }
  }

  /** pack39_encodable(). */
  predicate Encodable(t: Text) {
    t != [] && AllSymbols(t)
  }

  predicate AllSymbols(t: Text) {
    forall i :: 0 <= i < |t| ==> SymbolValue(t[i]).Some?
  }

  function Values(t: Text): (v: seq<int>)
    requires AllSymbols(t)
    ensures |v| == |t| && Digits(39, v)
    ensures forall i :: 0 <= i < |t| ==> v[i] == SymbolValue(t[i]).value
  {
    seq(|t|, i requires 0 <= i < |t| => SymbolValue(t[i]).value)
  }

  function Symbols(v: seq<int>): (t: Text)
    requires Digits(39, v)
    ensures |t| == |v| && forall i :: 0 <= i < |v| ==> t[i] == Symbol(v[i])
  {
    seq(|v|, i requires 0 <= i < |v| => Symbol(v[i]))
  }

  lemma ValuesSymbols(v: seq<int>)
    requires Digits(39, v)
    ensures AllSymbols(Symbols(v)) && Values(Symbols(v)) == v
  {
    forall i | 0 <= i < |v| ensures SymbolValue(Symbols(v)[i]) == Some(v[i]) { }
  }

  // ------------------------------------------------------------------
  // Representations without leading zeros
  // ------------------------------------------------------------------

  predicate Minimal(d: seq<int>) { d != [] ==> d[0] != 0 }

  lemma {:induction false} MinimalPositive(d: seq<int>)
    requires Digits(256, d) && Minimal(d) && d != []
    ensures Val(256, d) > 0
  {
    if |d| > 1 { MinimalPositive(d[..|d| - 1]); }
  }

  lemma {:induction false} MinimalUnique(a: seq<int>, b: seq<int>)
    requires Digits(256, a) && Digits(256, b) && Minimal(a) && Minimal(b)
    requires Val(256, a) == Val(256, b)
    ensures a == b
  {
    if a == [] {
      if b != [] { MinimalPositive(b); }
    } else if b == [] {
      MinimalPositive(a);
    } else {
      var m, n := |a| - 1, |b| - 1;
      DivUnique(Val(256, a), 256, Val(256, a[..m]), a[m]);
      DivUnique(Val(256, b), 256, Val(256, b[..n]), b[n]);
      MinimalUnique(a[..m], b[..n]);
      assert a == a[..m] + [a[m]] && b == b[..n] + [b[n]];
    }
  }

  /** A minimal representation of a value below 39^n has at most n digits. */
  lemma {:induction false} MinimalShort(d: seq<int>, n: nat)
    requires Digits(256, d) && Minimal(d) && Val(256, d) < Pow(39, n)
    ensures |d| <= n
    decreases n
  {
    if d != [] {
      MinimalPositive(d);
      assert n > 0;
      MinimalShort(d[..|d| - 1], n - 1);
    }
  }

  // ------------------------------------------------------------------
  // Multiply and carry
  // ------------------------------------------------------------------

  function LVal(d: seq<int>): int {
    if d == [] then 0 else d[0] + 256 * LVal(d[1..])
  }

  /** The digits a last carry adds. */
  function CarryDigits(carry: nat): seq<int> {
    if carry == 0 then [] else [carry % 256] + CarryDigits(carry / 256)
  }

  lemma {:induction false} CarryValue(carry: nat)
    ensures LVal(CarryDigits(carry)) == carry
    ensures Digits(256, CarryDigits(carry)) && TopNonZero(CarryDigits(carry))
    ensures carry != 0 ==> CarryDigits(carry) != []
  {
    if carry != 0 { CarryValue(carry / 256); }
  }

  /** d * 39 + carry, least significant digit first. */
  function MulAdd(d: seq<int>, carry: nat): seq<int>
    requires Digits(256, d)
  {
    if d == [] then CarryDigits(carry)
    else
      var product := d[0] * 39 + carry;
      [product % 256] + MulAdd(d[1..], product / 256)
  }

  predicate TopNonZero(d: seq<int>) { d != [] ==> d[|d| - 1] != 0 }

  lemma {:induction false} MulAddValue(d: seq<int>, carry: nat)
    requires Digits(256, d)
    ensures LVal(MulAdd(d, carry)) == 39 * LVal(d) + carry
    ensures Digits(256, MulAdd(d, carry))
  {
    if d == [] {
      CarryValue(carry);
    } else {
      var product := d[0] * 39 + carry;
      var low, high := product % 256, product / 256;
      MulAddValue(d[1..], high);
      LValFront(low, MulAdd(d[1..], high));
    }
  }

  lemma LValFront(x: int, d: seq<int>)
    ensures LVal([x] + d) == x + 256 * LVal(d)
  {
    assert ([x] + d)[1..] == d;
  }

  lemma {:induction false} MulAddTop(d: seq<int>, carry: nat)
    requires Digits(256, d) && TopNonZero(d)
    ensures TopNonZero(MulAdd(d, carry))
    ensures d != [] ==> MulAdd(d, carry) != []
  {
    if d == [] {
      CarryValue(carry);
    } else {
      var product := d[0] * 39 + carry;
      assert TopNonZero(d[1..]);
      MulAddTop(d[1..], product / 256);
      if |d| == 1 { CarryValue(product / 256); }
    }
  }

  /** The digit array after reading the symbols, least significant first. */
  function Accumulate(v: seq<int>): (d: seq<int>)
    requires Digits(39, v)
    ensures Digits(256, d)
  {
    if v == [] then []
    else
      MulAddValue(Accumulate(v[..|v| - 1]), v[|v| - 1]);
      MulAdd(Accumulate(v[..|v| - 1]), v[|v| - 1])
  }

  lemma {:induction false} AccumulateValue(v: seq<int>)
    requires Digits(39, v)
    ensures LVal(Accumulate(v)) == Val(39, v) && TopNonZero(Accumulate(v))
  {
    if v != [] {
      AccumulateValue(v[..|v| - 1]);
      MulAddValue(Accumulate(v[..|v| - 1]), v[|v| - 1]);
      MulAddTop(Accumulate(v[..|v| - 1]), v[|v| - 1]);
    }
  }

  function Reversed(d: seq<int>): (r: seq<int>)
    ensures |r| == |d| && forall i :: 0 <= i < |d| ==> r[i] == d[|d| - 1 - i]
  {
    if d == [] then [] else Reversed(d[1..]) + [d[0]]
  }

  lemma {:induction false} ReversedValue(d: seq<int>)
    ensures Val(256, Reversed(d)) == LVal(d)
  {
    if d != [] {
      ReversedValue(d[1..]);
      ValAppend(256, Reversed(d[1..]), d[0]);
    }
  }

  /** The big-endian digits of the value of a string of symbols: minimal, no
      more of them than symbols. */
  lemma BigEndian(v: seq<int>)
    requires Digits(39, v)
    ensures Digits(256, Reversed(Accumulate(v))) && Minimal(Reversed(Accumulate(v)))
    ensures Val(256, Reversed(Accumulate(v))) == Val(39, v)
    ensures |Accumulate(v)| <= |v|
  {
    AccumulateValue(v);
    ReversedValue(Accumulate(v));
    ValBound(39, v);
    MinimalShort(Reversed(Accumulate(v)), |v|);
  }

  /** pack39_encode() without its buffers: [length][digits]. */
  function Encode(t: Text): (p: seq<byte>)
    requires Encodable(t) && |t| <= NAME_MAX
    ensures |p| >= 1 && p[0] == |t|
  {
    BigEndian(Values(t));
    var digits: seq<byte> := Reversed(Accumulate(Values(t)));
    [|t|] + digits
  }

  // ------------------------------------------------------------------
  // Repeated division
  // ------------------------------------------------------------------

  datatype Division = Division(quotient: seq<int>, remainder: nat)

  /** The next digit of a long division by 39; leading zeros are dropped. */
  function DivideDigit(s: Division, x: nat): Division {
    var current := s.remainder * 256 + x;
    Division(if current / 39 != 0 || s.quotient != [] then s.quotient + [current / 39] else [], current % 39)
  }

  /** Division by 39, most significant digit first. */
  function Divide(d: seq<int>): (r: Division)
    requires Digits(256, d)
    ensures r.remainder < 39 && Digits(256, r.quotient) && |r.quotient| <= |d|
    ensures Minimal(r.quotient)
  {
    if d == [] then Division([], 0) else DivideDigit(Divide(d[..|d| - 1]), d[|d| - 1])
  }

  lemma {:induction false} DivideValue(d: seq<int>)
    requires Digits(256, d)
    ensures Val(256, d) == 39 * Val(256, Divide(d).quotient) + Divide(d).remainder
  {
    if d != [] {
      var n := |d| - 1;
      DivideValue(d[..n]);
      var s := Divide(d[..n]);
      var q := (s.remainder * 256 + d[n]) / 39;
      ValAppend(256, s.quotient, q);
    }
  }

  /** n divisions; nothing may be left over. */
  function Expand(d: seq<int>, n: nat): (r: Option<seq<int>>)
    requires Digits(256, d)
    ensures r.Some? ==> |r.value| == n && Digits(39, r.value)
    decreases n
  {
    if n == 0 then (if d == [] then Some([]) else None)
    else
      var s := Divide(d);
      var rest := Expand(s.quotient, n - 1);
      if rest.Some? then Some(rest.value + [s.remainder]) else None
  }

  lemma {:induction false} ExpandValue(d: seq<int>, n: nat)
    requires Digits(256, d) && Expand(d, n).Some?
    ensures Val(39, Expand(d, n).value) == Val(256, d)
    decreases n
  {
    if n > 0 {
      var s := Divide(d);
      DivideValue(d);
      ExpandValue(s.quotient, n - 1);
      ValAppend(39, Expand(s.quotient, n - 1).value, s.remainder);
    }
  }

  lemma {:induction false} ExpandSucceeds(d: seq<int>, n: nat)
    requires Digits(256, d) && (n > 0 || Minimal(d))
    ensures Expand(d, n).Some? <==> Val(256, d) < Pow(39, n)
    decreases n
  {
    ValBound(256, d);
    if n == 0 {
      if d != [] { MinimalPositive(d); }
    } else {
      var s := Divide(d);
      DivideValue(d);
      ValBound(256, s.quotient);
      ExpandSucceeds(s.quotient, n - 1);
      assert Pow(39, n) == Pow(39, n - 1) * 39;
    }
  }

  /** pack39_decode() into a buffer of textSize bytes. */
  function Decode(p: seq<byte>, textSize: nat): (r: Option<Text>)
    ensures r.Some? ==> |p| >= 1 && |r.value| == p[0] && 1 <= |r.value| < textSize
  {
    if |p| < 1 || p[0] == 0 || p[0] >= textSize || |p| - 1 > NAME_MAX + 2 then None
    else
      var v := Expand(p[1..], p[0]);
      if v.Some? then Some(Symbols(v.value)) else None
  }

  /** n divisions recover n symbols from their value. */
  lemma ExpandUnique(d: seq<int>, v: seq<int>)
    requires Digits(256, d) && Digits(39, v) && v != [] && Val(256, d) == Val(39, v)
    ensures Expand(d, |v|) == Some(v)
  {
    ValBound(39, v);
    ExpandSucceeds(d, |v|);
    ExpandValue(d, |v|);
    ValInjective(39, Expand(d, |v|).value, v);
  }

  lemma SymbolsValues(t: Text)
    requires AllSymbols(t)
    ensures Symbols(Values(t)) == t
  {
  }

  /** Division undoes multiplication, leading zero-valued symbols included. */
  lemma EncodeDecode(t: Text, textSize: nat)
    requires Encodable(t) && |t| <= NAME_MAX && |t| < textSize
    ensures Decode(Encode(t), textSize) == Some(t)
  {
    BigEndian(Values(t));
    ExpandUnique(Reversed(Accumulate(Values(t))), Values(t));
    assert Encode(t)[1..] == Reversed(Accumulate(Values(t)));
    SymbolsValues(t);
  }

  /** Is p the canonical form of a string: no leading zero digit, and a value
      its length can hold? */
  predicate Canonical(p: seq<byte>) {
    |p| >= 1 && p[0] != 0 && Minimal(p[1..]) && Val(256, p[1..]) < Pow(39, p[0])
  }

  lemma EncodeCanonical(t: Text)
    requires Encodable(t) && |t| <= NAME_MAX
    ensures Canonical(Encode(t)) && |Encode(t)| <= |t| + 1
  {
    var v := Values(t);
    BigEndian(v);
    assert Encode(t)[1..] == Reversed(Accumulate(v));
    ValBound(39, v);
  }

  /** Decode-then-re-encode accepts a payload. */
  predicate Accepted(p: seq<byte>, textSize: nat) {
    var t := Decode(p, textSize);
    t.Some? && Encodable(t.value) && |t.value| <= NAME_MAX && Encode(t.value) == p
  }

  /** It accepts exactly the canonical payloads, which are exactly what the
      encoder produces. */
  lemma AcceptedIffCanonical(p: seq<byte>)
    ensures Accepted(p, NAME_MAX + 2) <==> Canonical(p)
    ensures Accepted(p, NAME_MAX + 2) <==> exists t :: Encodable(t) && |t| <= NAME_MAX && Encode(t) == p
  {
    if Accepted(p, NAME_MAX + 2) {
      EncodeCanonical(Decode(p, NAME_MAX + 2).value);
    }
    if Canonical(p) {
      CanonicalProduced(p);
    }
    forall t | Encodable(t) && |t| <= NAME_MAX && Encode(t) == p ensures Accepted(p, NAME_MAX + 2) {
      EncodeDecode(t, NAME_MAX + 2);
    }
  }

  lemma CanonicalProduced(p: seq<byte>)
    requires Canonical(p)
    ensures Accepted(p, NAME_MAX + 2)
  {
    var d := p[1..];
    ExpandSucceeds(d, p[0]);
    MinimalShort(d, p[0]);
    ReEncode(p, Expand(d, p[0]).value);
  }

  /** Equal values have equal digits. */
  lemma SameDigits(v: seq<int>, d: seq<int>)
    requires Digits(39, v) && Digits(256, d) && Minimal(d) && Val(39, v) == Val(256, d)
    ensures Reversed(Accumulate(v)) == d
  {
    BigEndian(v);
    MinimalUnique(Reversed(Accumulate(v)), d);
  }

  lemma ReEncode(p: seq<byte>, v: seq<int>)
    requires Canonical(p) && Expand(p[1..], p[0]) == Some(v)
    ensures Encodable(Symbols(v)) && |Symbols(v)| == p[0] && Encode(Symbols(v)) == p
  {
    ExpandValue(p[1..], p[0]);
    SameDigits(v, p[1..]);
    ValuesSymbols(v);
    assert p == [p[0]] + p[1..];
    assert Encode(Symbols(v)) == [p[0]] + Reversed(Accumulate(v));
  }

  // ------------------------------------------------------------------
  // The loops
  // ------------------------------------------------------------------

  /** Write the digits of a carry behind the first count ones. */
  method AppendCarry(digits: array<byte>, count: nat, carry0: nat) returns (newCount: nat, ok: bool)
    requires count <= digits.Length
    modifies digits
    ensures ok <==> count + |CarryDigits(carry0)| <= digits.Length
    ensures ok ==> newCount <= digits.Length && digits[..newCount] == old(digits[..count]) + CarryDigits(carry0)
  {
    ghost var before := digits[..count];
    var carry: nat := carry0;
    newCount, ok := count, true;
    while carry != 0
      invariant newCount <= digits.Length && ok
      invariant digits[..newCount] + CarryDigits(carry) == before + CarryDigits(carry0)
    {
      if newCount >= digits.Length {
        CarryValue(carry);
        assert |digits[..newCount] + CarryDigits(carry)| == |before + CarryDigits(carry0)|;
        return newCount, false;
      }
      ghost var done := digits[..newCount];
      digits[newCount] := carry % 256;
      assert digits[..newCount + 1] == done + [carry % 256];
      assert done + CarryDigits(carry) == (done + [carry % 256]) + CarryDigits(carry / 256);
      newCount := newCount + 1;
      carry := carry / 256;
    }
  }

  lemma MulAddStep(done: seq<int>, d: seq<int>, carry: nat)
    requires Digits(256, d) && d != []
    ensures Digits(256, d[1..])
    ensures done + MulAdd(d, carry)
         == (done + [(d[0] * 39 + carry) % 256]) + MulAdd(d[1..], (d[0] * 39 + carry) / 256)
  {
  }

  /** Multiply the first count digits by 39 and add value, in place. */
  method MultiplyInto(digits: array<byte>, count: nat, value: nat) returns (newCount: nat, ok: bool)
    requires count <= digits.Length && value < 39
    modifies digits
    ensures ok <==> |MulAdd(old(digits[..count]), value)| <= digits.Length
    ensures ok ==> newCount <= digits.Length && digits[..newCount] == MulAdd(old(digits[..count]), value)
  {
    ghost var before: seq<int> := digits[..count];
    var carry: nat := value;
    var digit := 0;
    assert before[0..] == before && digits[..0] == [];
    while digit < count
      invariant digit <= count && MultipliedTo(digits[..], before, carry, digit, MulAdd(before, value))
    {
      carry := MultiplyOne(digits, carry, digit, before, MulAdd(before, value));
      digit := digit + 1;
    }
    assert before[count..] == [];
    newCount, ok := AppendCarry(digits, count, carry);
  }

  /** The digits written, and the product of those still to come, are the whole product. */
  ghost predicate MultipliedTo(digits: seq<int>, before: seq<int>, carry: nat, digit: nat, product: seq<int>) {
    && Digits(256, before) && digit <= |before| <= |digits|
    && (forall i :: digit <= i < |before| ==> digits[i] == before[i])
    && digits[..digit] + MulAdd(before[digit..], carry) == product
  }

  method MultiplyOne(digits: array<byte>, carry: nat, digit: nat, ghost before: seq<int>, ghost whole: seq<int>)
    returns (newCarry: nat)
    requires digit < |before| && MultipliedTo(digits[..], before, carry, digit, whole)
    modifies digits
    ensures MultipliedTo(digits[..], before, newCarry, digit + 1, whole)
  {
    ghost var done := digits[..digit];
    assert before[digit..][1..] == before[digit + 1..];
    MulAddStep(done, before[digit..], carry);
    var product := digits[digit] * 39 + carry;
    digits[digit] := product % 256;
    newCarry := product / 256;
    assert digits[..digit + 1] == done + [product % 256];
  }

  lemma AccumulateStep(text: Text, i: nat)
    requires i < |text| && AllSymbols(text[..i]) && SymbolValue(text[i]).Some?
    ensures AllSymbols(text[..i + 1])
    ensures Accumulate(Values(text[..i + 1])) == MulAdd(Accumulate(Values(text[..i])), SymbolValue(text[i]).value)
    ensures |Accumulate(Values(text[..i + 1]))| <= i + 1
  {
    assert text[..i + 1] == text[..i] + [text[i]];
    var v := Values(text[..i + 1]);
    assert v[..i] == Values(text[..i]);
    BigEndian(v);
  }

  /** pack39_encode(): the digit buffer never overflows, so the only failures are
      an unencodable or over-long string and a result that does not fit. */
  method EncodeInto(text: Text, result: array<byte>) returns (ok: bool, length: nat)
    modifies result
    ensures ok <==> Encodable(text) && |text| <= NAME_MAX && |Encode(text)| <= result.Length
    ensures ok ==> length == |Encode(text)| && result[..length] == Encode(text)
  {
    length := 0;
    if text == [] || |text| > NAME_MAX { return false, 0; }
    var digits := new byte[NAME_MAX + 2];
    var count: nat, index: nat := 0, 0;
    assert digits[..0] == [];
    while index < |text|
      invariant index <= |text| && count <= digits.Length && fresh(digits)
      invariant AllSymbols(text[..index])
      invariant digits[..count] == Accumulate(Values(text[..index]))
    {
      var value := SymbolValue(text[index]);
      if value.None? { return false, 0; }
      AccumulateStep(text, index);
      var fits;
      count, fits := MultiplyInto(digits, count, value.value);
      assert fits;
      index := index + 1;
    }
    assert text[..index] == text;
    if 1 + count > result.Length { return false, 0; }
    WriteReversed(digits, count, |text|, result);
    ok, length := true, 1 + count;
  }

  /** The length byte, then the digits most significant first. */
  method WriteReversed(digits: array<byte>, count: nat, head: byte, result: array<byte>)
    requires count <= digits.Length && 1 + count <= result.Length && digits != result
    modifies result
    ensures result[..1 + count] == [head] + Reversed(digits[..count])
  {
    result[0] := head;
    var index := 0;
    while index < count
      invariant index <= count && result[0] == head
      invariant forall i :: 1 <= i <= index ==> result[i] == digits[count - i]
    {
      result[1 + index] := digits[count - 1 - index];
      index := index + 1;
    }
  }

  lemma DivideStep(d: seq<int>, i: nat)
    requires Digits(256, d) && i < |d|
    ensures Divide(d[..i + 1]) == DivideDigit(Divide(d[..i]), d[i])
  {
    assert d[..i + 1][..i] == d[..i];
  }

  /** Divide the first count digits by 39 in place. */
  method DivideInPlace(digits: array<byte>, count: nat) returns (newCount: nat, remainder: nat)
    requires count <= digits.Length
    modifies digits
    ensures newCount <= count && digits[..newCount] == Divide(old(digits[..count])).quotient
    ensures remainder == Divide(old(digits[..count])).remainder
  {
    ghost var before: seq<int> := digits[..count];
    newCount, remainder := 0, 0;
    var digit := 0;
    DivideNone(before);
    while digit < count
      invariant digit <= count && DividedTo(digits[..], before, newCount, remainder, digit)
    {
      newCount, remainder := DivideNext(digits, newCount, remainder, digit, before);
      digit := digit + 1;
    }
    assert before[..count] == before;
  }

  /** The first digit digits of before are divided, the others not yet read. */
  ghost predicate DividedTo(digits: seq<int>, before: seq<int>, count: nat, remainder: nat, digit: nat) {
    && Digits(256, before) && count <= digit <= |before| <= |digits|
    && (forall i :: digit <= i < |before| ==> digits[i] == before[i])
    && Division(digits[..count], remainder) == Divide(before[..digit])
  }

  lemma DivideNone(before: seq<int>)
    ensures Divide(before[..0]) == Division([], 0)
  {
    assert before[..0] == [];
  }

  method DivideNext(digits: array<byte>, count: nat, remainder: nat, digit: nat, ghost before: seq<int>)
    returns (newCount: nat, newRemainder: nat)
    requires digit < |before| && DividedTo(digits[..], before, count, remainder, digit)
    modifies digits
    ensures DividedTo(digits[..], before, newCount, newRemainder, digit + 1)
  {
    DivideStep(before, digit);
    newCount, newRemainder := DivideOne(digits, count, remainder, digit);
  }

  /** One step: the quotient digit goes behind those already found, never past the digit read. */
  method DivideOne(digits: array<byte>, count: nat, remainder: nat, digit: nat)
    returns (newCount: nat, newRemainder: nat)
    requires count <= digit < digits.Length && remainder < 39
    modifies digits
    ensures newCount <= digit + 1
    ensures Division(digits[..newCount], newRemainder)
         == DivideDigit(Division(old(digits[..count]), remainder), old(digits[digit]))
    ensures forall i :: digit < i < digits.Length ==> digits[i] == old(digits[i])
  {
    ghost var done := digits[..count];
    var current := remainder * 256 + digits[digit];
    var quotient := current / 39;
    newCount, newRemainder := count, current % 39;
    if quotient != 0 || count != 0 {
      digits[count] := quotient;
      newCount := count + 1;
      assert digits[..newCount] == done + [quotient];
    }
  }

  /** pack39_decode(). */
  method DecodeInto(data: seq<byte>, text: array<byte>) returns (ok: bool, length: nat)
    modifies text
    ensures ok <==> Decode(data, text.Length).Some?
    ensures ok ==> length == |Decode(data, text.Length).value| && text[..length] == Decode(data, text.Length).value
    ensures ok ==> text[length] == 0
  {
    length := 0;
    if |data| < 1 { return false, 0; }
    var original: nat := data[0];
    if original == 0 || original > NAME_MAX || original >= text.Length { return false, 0; }
    var count: nat := |data| - 1;
    if count > NAME_MAX + 2 { return false, 0; }
    var digits := new byte[NAME_MAX + 2];
    forall i | 0 <= i < count { digits[i] := data[1 + i]; }
    assert digits[..count] == data[1..];
    var reversed := new byte[NAME_MAX + 1];
    var left, v := ExpandInto(digits, count, original, reversed);
    if left != 0 { return false, 0; }
    CopyReversed(reversed, original, text);
    ok, length := true, original;
    assert text[..length] == Symbols(v);
  }

  method SymbolAt(value: nat) returns (symbol: byte)
    requires value < 39
    ensures symbol == Symbol(value)
  {
    AlphabetRuns(value);
    symbol := PACK39_ALPHABET[value];
  }

  lemma SymbolsFront(r: nat, v: seq<int>)
    requires r < 39 && Digits(39, v)
    ensures Digits(39, [r] + v) && Symbols([r] + v) == [Symbol(r)] + Symbols(v)
  {
  }

  /** The division loop: one symbol per division, last symbol first. */
  method ExpandInto(digits: array<byte>, count: nat, n: nat, reversed: array<byte>)
    returns (left: nat, ghost v: seq<int>)
    requires count <= digits.Length && n <= reversed.Length && digits != reversed
    modifies digits, reversed
    ensures Expand(old(digits[..count]), n) == if left == 0 then Some(v) else None
    ensures |v| == n && Digits(39, v)
    ensures forall i :: 0 <= i < n ==> reversed[i] == Symbols(v)[n - 1 - i]
  {
    ghost var original := Expand(digits[..count], n);
    left, v := count, [];
    var produced := 0;
    JoinNothing(original);
    while produced < n
      invariant produced <= n && left <= digits.Length
      invariant original == Join(Expand(digits[..left], n - produced), v)
      invariant Written(reversed[..], v, produced)
    {
      left, v := ExpandNext(digits, left, n - produced, reversed, produced, v);
      produced := produced + 1;
    }
    JoinLeft(digits[..left], v);
  }

  /** The symbols found so far, last first. */
  ghost predicate Written(reversed: seq<int>, v: seq<int>, n: nat) {
    && |v| == n <= |reversed| && Digits(39, v)
    && forall i :: 0 <= i < n ==> reversed[i] == Symbols(v)[n - 1 - i]
  }

  method ExpandNext(digits: array<byte>, count: nat, n: nat, reversed: array<byte>, produced: nat, ghost v: seq<int>)
    returns (left: nat, ghost w: seq<int>)
    requires count <= digits.Length && n > 0 && produced < reversed.Length && digits != reversed
    requires Written(reversed[..], v, produced)
    modifies digits, reversed
    ensures left <= digits.Length && Written(reversed[..], w, produced + 1)
    ensures Join(Expand(digits[..left], n - 1), w) == Join(Expand(old(digits[..count]), n), v)
  {
    var remainder;
    left, remainder := ExpandOne(digits, count, n, v);
    SymbolsFront(remainder, v);
    var symbol := SymbolAt(remainder);
    reversed[produced] := symbol;
    w := [remainder] + v;
  }

  /** One division moves one symbol from the digits to those already out. */
  method ExpandOne(digits: array<byte>, count: nat, n: nat, ghost v: seq<int>) returns (left: nat, remainder: nat)
    requires count <= digits.Length && n > 0
    modifies digits
    ensures left <= digits.Length && remainder < 39
    ensures Join(Expand(digits[..left], n - 1), [remainder] + v) == Join(Expand(old(digits[..count]), n), v)
  {
    JoinStep(digits[..count], n, v);
    left, remainder := DivideInPlace(digits, count);
  }

  lemma JoinLeft(d: seq<int>, v: seq<int>)
    requires Digits(256, d)
    ensures Join(Expand(d, 0), v) == if d == [] then Some(v) else None
  {
    assert [] + v == v;
  }

  /** Turn the symbols round, and end them. */
  method CopyReversed(reversed: array<byte>, produced: nat, text: array<byte>)
    requires produced <= reversed.Length && produced < text.Length && reversed != text
    modifies text
    ensures forall i :: 0 <= i < produced ==> text[i] == reversed[produced - 1 - i]
    ensures text[produced] == 0
  {
    var index := 0;
    while index < produced
      invariant index <= produced
      invariant forall i :: 0 <= i < index ==> text[i] == reversed[produced - 1 - i]
    {
      text[index] := reversed[produced - 1 - index];
      index := index + 1;
    }
    text[produced] := 0;
  }

  /** Symbols still to be divided out, then those already out. */
  function Join(high: Option<seq<int>>, low: seq<int>): Option<seq<int>> {
    if high.Some? then Some(high.value + low) else None
  }

  lemma JoinNothing(high: Option<seq<int>>)
    ensures Join(high, []) == high
  {
    if high.Some? { assert high.value + [] == high.value; }
  }

  lemma JoinStep(d: seq<int>, n: nat, low: seq<int>)
    requires Digits(256, d) && n > 0
    ensures Join(Expand(d, n), low) == Join(Expand(Divide(d).quotient, n - 1), [Divide(d).remainder] + low)
  {
    var rest := Expand(Divide(d).quotient, n - 1);
    if rest.Some? {
      assert (rest.value + [Divide(d).remainder]) + low == rest.value + ([Divide(d).remainder] + low);
    }
  }
}
