/** Bytes, C strings without their terminator, and the two comparisons the
    broker uses on them: strcmp() and the ASCII strcasecmp(). */
module Bytes {

  datatype Option<+T> = None | Some(value: T)

  type byte = x: int | 0 <= x < 256

  /** A C string: the bytes before the NUL. */
  type Text = seq<byte>

  const CARET: byte := 94
  const COLON: byte := 58
  const SLASH: byte := 47
  const DOT: byte := 46
  const ZERO: byte := 48

  function Upper(c: byte): byte {
    if 97 <= c <= 122 then c - 32 else c
  }

  function Lower(c: byte): byte {
    if 65 <= c <= 90 then c + 32 else c
  }

  function UpperText(t: Text): (r: Text)
    ensures |r| == |t| && forall i :: 0 <= i < |t| ==> r[i] == Upper(t[i])
  {
    seq(|t|, i requires 0 <= i < |t| => Upper(t[i]))
  }

  /** strcasecmp(a, b) == 0. */
  predicate FoldEq(a: Text, b: Text) {
    |a| == |b| && forall i :: 0 <= i < |a| ==> Lower(a[i]) == Lower(b[i])
  }

  /** strcmp(a, b) < 0. */
  predicate Less(a: Text, b: Text) {
    b != [] && (a == [] || a[0] < b[0] || (a[0] == b[0] && Less(a[1..], b[1..])))
  }

  lemma {:induction false} LessTotal(a: Text, b: Text)
    ensures a == b || Less(a, b) || Less(b, a)
    ensures !(Less(a, b) && Less(b, a))
    ensures Less(a, b) ==> a != b
  {
    if a != [] && b != [] {
      LessTotal(a[1..], b[1..]);
      if a[0] == b[0] && a[1..] == b[1..] {
        assert a == [a[0]] + a[1..] && b == [b[0]] + b[1..];
      }
    }
  }

  lemma {:induction false} LessTransitive(a: Text, b: Text, c: Text)
    requires Less(a, b) && Less(b, c)
    ensures Less(a, c)
  {
    if a != [] && a[0] == b[0] && b[0] == c[0] {
      LessTransitive(a[1..], b[1..], c[1..]);
    }
  }

  /** Everything before the first NUL: what strlen() sees of a buffer. */
  function CString(t: seq<byte>): (r: Text)
    ensures |r| <= |t| && r == t[..|r|] && 0 !in r
    ensures |r| < |t| ==> t[|r|] == 0
  {
    if t == [] || t[0] == 0 then [] else [t[0]] + CString(t[1..])
  }

  /** The first slot that satisfies p: every table is searched from the front. */
  function First<T>(s: seq<T>, p: T -> bool, i: nat := 0): (r: Option<nat>)
    requires i <= |s|
    ensures r.Some? ==> i <= r.value < |s| && p(s[r.value]) && forall k :: i <= k < r.value ==> !p(s[k])
    ensures r.None? ==> forall k :: i <= k < |s| ==> !p(s[k])
    decreases |s| - i
  {
    if i == |s| then None else if p(s[i]) then Some(i) else First(s, p, i + 1)
  }
}
