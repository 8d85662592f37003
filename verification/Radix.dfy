/** Big-endian digit strings and their values. */
module Radix {

  function Pow(b: nat, n: nat): nat {
    if n == 0 then 1 else Pow(b, n - 1) * b
  }

  function Val(b: nat, s: seq<int>): int {
    if s == [] then 0 else Val(b, s[..|s| - 1]) * b + s[|s| - 1]
  }

  predicate Digits(b: nat, s: seq<int>) {
    forall i :: 0 <= i < |s| ==> 0 <= s[i] < b
  }

  /** Products with a positive factor keep their distance. */
  lemma {:induction false} MulStep(x: int, y: int, p: int)
    requires p > 0 && x < y
    ensures x * p + p <= y * p
    decreases y - x
  {
    if x + 1 < y { MulStep(x, y - 1, p); }
    assert (y - 1) * p + p == y * p;
  }

  lemma MulGap(x: int, y: int, p: int)
    requires p > 0
    ensures x < y ==> x * p + p <= y * p
    ensures y < x ==> y * p + p <= x * p
  {
    if x < y { MulStep(x, y, p); }
    if y < x { MulStep(y, x, p); }
  }

  lemma ValAppend(b: nat, s: seq<int>, d: int)
    ensures Val(b, s + [d]) == Val(b, s) * b + d
  {
    assert (s + [d])[..|s|] == s;
  }

  lemma {:induction false} ValBound(b: nat, s: seq<int>)
    requires Digits(b, s)
    ensures 0 <= Val(b, s) < Pow(b, |s|)
  {
    if s != [] {
      var p, d := s[..|s| - 1], s[|s| - 1];
      ValBound(b, p);
      MulGap(Val(b, p), Pow(b, |p|), b);
    }
  }

  /** Quotient and remainder are determined by x == q * d + r, 0 <= r < d. */
  lemma DivUnique(x: int, d: int, q: int, r: int)
    requires 0 <= r < d && x == q * d + r
    ensures x / d == q && x % d == r
  {
    MulGap(q, x / d, d);
  }

  /** Digit strings of one length with one value are one digit string. */
  lemma {:induction false} ValInjective(b: nat, s: seq<int>, t: seq<int>)
    requires Digits(b, s) && Digits(b, t)
    requires |s| == |t| && Val(b, s) == Val(b, t)
    ensures s == t
  {
    if s != [] {
      var n := |s| - 1;
      DivUnique(Val(b, s), b, Val(b, s[..n]), s[n]);
      DivUnique(Val(b, t), b, Val(b, t[..n]), t[n]);
      ValInjective(b, s[..n], t[..n]);
      assert s == s[..n] + [s[n]] && t == t[..n] + [t[n]];
    }
  }
}
