/** The two text codes of the broker. */
module Alphabets {
  import opened Bytes
  import opened BitPacking
  import opened TextCode

  /** A-Z then 2-7: section 6 of RFC 4648. */
  const BASE32_ALPHABET: seq<byte> := [
    65, 66, 67, 68, 69, 70, 71, 72, 73, 74, 75, 76, 77, 78, 79, 80,
    81, 82, 83, 84, 85, 86, 87, 88, 89, 90, 50, 51, 52, 53, 54, 55
  ]

  /** Printable ASCII without lower case, ':', '/', '^' and space; then Latin-1 0xa1-0xdf. */
  const DENSE128_ROW0: seq<byte> := [
    0x21, 0x22, 0x23, 0x24, 0x25, 0x26, 0x27, 0x28, 0x29, 0x2a, 0x2b, 0x2c, 0x2d, 0x2e, 0x30, 0x31,
    0x32, 0x33, 0x34, 0x35, 0x36, 0x37, 0x38, 0x39, 0x3b, 0x3c, 0x3d, 0x3e, 0x3f, 0x40, 0x41, 0x42
  ]
  const DENSE128_ROW1: seq<byte> := [
    0x43, 0x44, 0x45, 0x46, 0x47, 0x48, 0x49, 0x4a, 0x4b, 0x4c, 0x4d, 0x4e, 0x4f, 0x50, 0x51, 0x52,
    0x53, 0x54, 0x55, 0x56, 0x57, 0x58, 0x59, 0x5a, 0x5b, 0x5c, 0x5d, 0x5f, 0x60, 0x7b, 0x7c, 0x7d
  ]
  const DENSE128_ROW2: seq<byte> := [
    0x7e, 0xa1, 0xa2, 0xa3, 0xa4, 0xa5, 0xa6, 0xa7, 0xa8, 0xa9, 0xaa, 0xab, 0xac, 0xad, 0xae, 0xaf,
    0xb0, 0xb1, 0xb2, 0xb3, 0xb4, 0xb5, 0xb6, 0xb7, 0xb8, 0xb9, 0xba, 0xbb, 0xbc, 0xbd, 0xbe, 0xbf
  ]
  const DENSE128_ROW3: seq<byte> := [
    0xc0, 0xc1, 0xc2, 0xc3, 0xc4, 0xc5, 0xc6, 0xc7, 0xc8, 0xc9, 0xca, 0xcb, 0xcc, 0xcd, 0xce, 0xcf,
    0xd0, 0xd1, 0xd2, 0xd3, 0xd4, 0xd5, 0xd6, 0xd7, 0xd8, 0xd9, 0xda, 0xdb, 0xdc, 0xdd, 0xde, 0xdf
  ]
  const DENSE128_ALPHABET: seq<byte> := DENSE128_ROW0 + DENSE128_ROW1 + DENSE128_ROW2 + DENSE128_ROW3

  const BASE32 := Code(5, BASE32_ALPHABET, true)
  const DENSE128 := Code(7, DENSE128_ALPHABET, false)

  lemma Base32Runs(i: nat)
    requires i < 32
    ensures BASE32_ALPHABET[i] == if i < 26 then i + 65 else i + 24
  {
  }

  function Dense128Symbol(i: nat): int {
    if i < 14 then i + 0x21 else if i < 24 then i + 0x22 else if i < 59 then i + 0x23
    else if i < 61 then i + 0x24 else if i < 65 then i + 0x3e else i + 0x60
  }

  lemma Row0(i: nat) requires i < 32 ensures DENSE128_ROW0[i] == Dense128Symbol(i) {}
  lemma Row1(i: nat) requires i < 32 ensures DENSE128_ROW1[i] == Dense128Symbol(i + 32) {}
  lemma Row2(i: nat) requires i < 32 ensures DENSE128_ROW2[i] == Dense128Symbol(i + 64) {}
  lemma Row3(i: nat) requires i < 32 ensures DENSE128_ROW3[i] == Dense128Symbol(i + 96) {}

  lemma Dense128Runs(i: nat)
    requires i < 128
    ensures DENSE128_ALPHABET[i] == Dense128Symbol(i)
  {
    if i < 32 { Row0(i); } else if i < 64 { Row1(i - 32); } else if i < 96 { Row2(i - 64); } else { Row3(i - 96); }
  }

  lemma Base32Sound()
    ensures Sound(BASE32)
  {
    PowValues();
    forall i | 0 <= i < 32 ensures BASE32_ALPHABET[i] == if i < 26 then i + 65 else i + 24 { Base32Runs(i); }
  }

  lemma Dense128Sound()
    ensures Sound(DENSE128)
  {
    PowValues();
    forall i | 0 <= i < 128 ensures DENSE128_ALPHABET[i] == Dense128Symbol(i) { Dense128Runs(i); }
  }

  /** No symbol of either code means anything to a path or to an escape, and
      neither alphabet has a pair of letters one case fold apart. */
  lemma SymbolsAreOrdinary(symbol: byte)
    requires symbol in BASE32_ALPHABET || symbol in DENSE128_ALPHABET
    ensures symbol != CARET && symbol != COLON && symbol != SLASH && symbol != 0 && Upper(symbol) == symbol
    ensures symbol in BASE32_ALPHABET ==> symbol != ZERO
  {
    if symbol in BASE32_ALPHABET {
      var i :| 0 <= i < 32 && BASE32_ALPHABET[i] == symbol;
      Base32Runs(i);
    }
    if symbol in DENSE128_ALPHABET {
      var i :| 0 <= i < 128 && DENSE128_ALPHABET[i] == symbol;
      Dense128Runs(i);
    }
  }
}
