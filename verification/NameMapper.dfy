/** map_component() and unmap_component(): the Amiga spelling of a Linux file
    name and back.  A directory is the set of names it holds; one that cannot be
    opened behaves as an empty one. */
module NameMapper {
  import opened Bytes
  import opened Escape
  import BitPacking
  import TextCode
  import Alphabets
  import Pack39

  /** AMIGA_COMPONENT_LIMIT. */
  const LIMIT := 107

  type Directory = set<Text>

  /** A name Linux allows in a directory. */
  predicate Legal(n: Text) {
    && 1 <= |n| <= NAME_MAX && NoNul(n) && SLASH !in n
    && n != [DOT] && n != [DOT, DOT]
  }

  // ------------------------------------------------------------------
  // What the directory decides
  // ------------------------------------------------------------------

  /** Another entry that AmigaDOS would call the same name. */
  predicate Variant(entry: Text, name: Text) { FoldEq(entry, name) && entry != name }

  /** first: the lexically least entry that folds to name. */
  predicate IsFirst(d: Directory, name: Text, first: Text) {
    first in d && FoldEq(first, name) && forall e :: e in d && FoldEq(e, name) ==> !Less(e, first)
  }

  /** host_case_variant_needs_mapping(): a case variant exists, and name is not the first of them. */
  ghost predicate NeedsCaseEscape(d: Directory, name: Text) {
    (exists e :: e in d && Variant(e, name)) && !IsFirst(d, name, name)
  }

  /** match_existing_case(): the first entry that folds to name, or name itself. */
  ghost function MatchExisting(d: Directory, name: Text): (r: Text)
    ensures (exists f :: IsFirst(d, name, f)) ==> IsFirst(d, name, r)
    ensures (forall f :: !IsFirst(d, name, f)) ==> r == name
  {
    if exists f :: IsFirst(d, name, f) then
      var f :| IsFirst(d, name, f);
      f
    else name
  }

  lemma FirstUnique(d: Directory, name: Text, f: Text, g: Text)
    requires IsFirst(d, name, f) && IsFirst(d, name, g)
    ensures f == g
  {
    LessTotal(f, g);
  }

  /** The first byte where an entry and a name part. */
  function FirstDifference(e: Text, n: Text): (k: nat)
    ensures k <= |e| && k <= |n| && e[..k] == n[..k]
    ensures k < |e| && k < |n| ==> e[k] != n[k]
  {
    if e == [] || n == [] || e[0] != n[0] then 0
    else
      var k := FirstDifference(e[1..], n[1..]);
      assert e[..k + 1] == [e[0]] + e[1..][..k] && n[..k + 1] == [n[0]] + n[1..][..k];
      k + 1
  }

  ghost predicate BeforeVariants(d: Directory, name: Text, k: nat) {
    forall e :: e in d && Variant(e, name) ==> k <= FirstDifference(e, name)
  }

  /** The largest k <= bound at or before every case variant's first difference. */
  ghost function LatestSplit(d: Directory, name: Text, bound: nat): (k: nat)
    ensures k <= bound && BeforeVariants(d, name, k)
    ensures forall j :: k < j <= bound ==> !BeforeVariants(d, name, j)
  {
    if BeforeVariants(d, name, bound) then bound else LatestSplit(d, name, bound - 1)
  }

  /** component_split_point(). */
  ghost function SplitPoint(z: Deflater, d: Directory, name: Text): (k: nat)
    ensures k <= |name|
  {
    var u := UnspellableFrom(z, name, 0);
    LatestSplit(d, name, if u.Some? then u.value else |name|)
  }

  // ------------------------------------------------------------------
  // Printing
  // ------------------------------------------------------------------

  /** ':' and '::' are spelled '.' and '..'. */
  function FixedFor(host: Text): Option<Text> {
    if host == [COLON] then Some([DOT]) else if host == [COLON, COLON] then Some([DOT, DOT]) else None
  }

  function HostForFixed(amiga: Text): Option<Text> {
    if amiga == [DOT] then Some([COLON]) else if amiga == [DOT, DOT] then Some([COLON, COLON]) else None
  }

  ghost predicate NeedsMapping(z: Deflater, name: Text) {
    |name| > LIMIT || UnspellableFrom(z, name, 0).Some?
  }

  /** Copy into a buffer of size bytes, NUL included. */
  function Fit(t: Text, size: nat): Option<Text> {
    if |t| < size then Some(t) else None
  }

  ghost predicate Plain(z: Deflater, d: Directory, host: Text) {
    !NeedsMapping(z, host) && !NeedsCaseEscape(d, host)
  }

  /** header ^ base32(tail NUL). */
  ghost function LiteralSpelling(host: Text, split: nat): Text
    requires split <= |host|
  {
    host[..split] + [CARET] + Base32Encode(host[split..] + [0])
  }

  ghost predicate LiteralFits(host: Text, split: nat)
    requires split <= |host|
  {
    && |host| - split + 1 <= PAYLOAD_SIZE
    && split + 1 + BitPacking.EncodedLength(5, |host| - split + 1) <= LIMIT
  }

  /** Where the compressed tail starts: at the split, or at 0 when the split left no tail. */
  function CompressSplit(host: Text, split: nat): nat {
    if split >= |host| then 0 else split
  }

  /** The shorter of the two engines' payloads, PACK39 winning ties; none when neither fits its buffer. */
  ghost function Best(z: Deflater, tail: Text): (r: Option<seq<byte>>)
    ensures r.Some? ==> Compresses(z, r.value, tail) && |r.value| <= PAYLOAD_SIZE
  {
    var packed :=
      if Pack39.Encodable(tail) && |tail| <= NAME_MAX && |Pack39.Encode(tail)| <= PAYLOAD_SIZE - 1
      then Some(Pack39.Encode(tail) + [PACK39_TRAILER]) else None;
    var deflated := z.compress(tail);
    if |deflated| <= PAYLOAD_SIZE - 1 && (packed.None? || |deflated| + 1 < |packed.value|)
    then Some(deflated + [DEFLATE_TRAILER]) else packed
  }

  /** header ^ 0 dense128(best). */
  ghost function CompressedSpelling(host: Text, split: nat, best: seq<byte>): Text
    requires split <= |host|
  {
    host[..split] + [CARET] + ([ZERO] + DenseEncode(best))
  }

  ghost function CompressedForm(z: Deflater, host: Text, split: nat): Option<Text>
    requires split <= |host|
  {
    var k := CompressSplit(host, split);
    if |host| - k > NAME_MAX then None
    else
      var best := Best(z, host[k..]);
      if best.Some? && k + 2 + BitPacking.EncodedLength(7, |best.value|) <= LIMIT
      then Some(CompressedSpelling(host, k, best.value)) else None
  }

  /** map_component() into a buffer of size bytes. */
  ghost function Map(z: Deflater, d: Directory, host: Text, size: nat): Option<Text> {
    if FixedFor(host).Some? then Fit(FixedFor(host).value, size)
    else if Plain(z, d, host) then Fit(host, size)
    else
      var split := SplitPoint(z, d, host);
      if LiteralFits(host, split) then Fit(LiteralSpelling(host, split), size)
      else
        var c := CompressedForm(z, host, split);
        if c.Some? then Fit(c.value, size) else None
  }

  // ------------------------------------------------------------------
  // Parsing
  // ------------------------------------------------------------------

  /** Reading an escape: the header, then what the payload decodes to; text that
      does not decode is handed back as it was. */
  ghost function Unescape(z: Deflater, header: Text, suffix: Text, size: nat): Option<Text> {
    var amiga := header + [CARET] + suffix;
    if suffix != [] && suffix[0] == ZERO then
      var tail := CompressedDecode(z, suffix[1..]);
      if tail.Some? then Fit(header + tail.value, size) else Fit(amiga, size)
    else
      var p := Base32Decode(suffix, PAYLOAD_SIZE - 1);
      if p.Some? && p.value != [] && p.value[|p.value| - 1] == 0
      then Fit(header + p.value[..|p.value| - 1], size)
      else Fit(amiga, size)
  }

  /** unmap_component() into a buffer of size bytes. */
  ghost function Unmap(z: Deflater, d: Directory, amiga: Text, size: nat): Option<Text> {
    if HostForFixed(amiga).Some? then Fit(HostForFixed(amiga).value, size)
    else
      var marker := MarkerFrom(z, amiga, 0);
      if marker.Some? then Unescape(z, amiga[..marker.value], amiga[marker.value + 1..], size)
      else if |amiga| >= size then None
      else
        var best := MatchExisting(d, amiga);
        Some(if |best| < size then best else amiga)
  }

  lemma UnmapEscaped(z: Deflater, d: Directory, header: Text, payload: Text, size: nat)
    requires PayloadValid(z, payload)
    ensures Unmap(z, d, header + [CARET] + payload, size) == Unescape(z, header, payload, size)
  {
    MarkerAtHeader(z, header, payload);
    var amiga := header + [CARET] + payload;
    assert amiga[|header|] == CARET;
    assert amiga[..|header|] == header && amiga[|header| + 1..] == payload;
  }

  // ------------------------------------------------------------------
  // The component round trip
  // ------------------------------------------------------------------

  /** No ':' and no '/': what a component must be to sit in a path. */
  predicate Separable(t: Text) { COLON !in t && SLASH !in t }

  lemma HeaderSeparable(z: Deflater, d: Directory, host: Text, k: nat)
    requires k <= SplitPoint(z, d, host)
    ensures Separable(host[..k])
  {
    forall i | 0 <= i < k ensures host[..k][i] != COLON && host[..k][i] != SLASH {
      assert !Unspellable(z, host, i);
    }
  }

  /** The split is the latest place at or before the first byte that cannot be
      spelled and every case variant's first difference. */
  lemma SplitIsLatest(z: Deflater, d: Directory, host: Text)
    ensures UnspellableFrom(z, host, 0).Some? ==> SplitPoint(z, d, host) <= UnspellableFrom(z, host, 0).value
    ensures BeforeVariants(d, host, SplitPoint(z, d, host))
    ensures forall j :: SplitPoint(z, d, host) < j <= |host| ==>
              || !BeforeVariants(d, host, j)
              || (UnspellableFrom(z, host, 0).Some? && j > UnspellableFrom(z, host, 0).value)
  {
  }

  lemma Base32Separable(data: seq<byte>)
    ensures Separable(Base32Encode(data)) && CARET !in Base32Encode(data)
    ensures |Base32Encode(data)| == BitPacking.EncodedLength(5, |data|)
    ensures forall i :: 0 <= i < |Base32Encode(data)| ==> Upper(Base32Encode(data)[i]) == Base32Encode(data)[i]
  {
    Alphabets.Base32Sound();
    TextCode.EncodeSymbols(Alphabets.BASE32, data);
    TextCode.EncodedSize(Alphabets.BASE32, data);
    BitPacking.PackLength(5, data);
    var t := Base32Encode(data);
    forall i | 0 <= i < |t| ensures t[i] != CARET && t[i] != COLON && t[i] != SLASH && Upper(t[i]) == t[i] {
      Alphabets.SymbolsAreOrdinary(t[i]);
    }
  }

  lemma DenseSeparable(data: seq<byte>)
    ensures Separable(DenseEncode(data)) && CARET !in DenseEncode(data)
    ensures |DenseEncode(data)| == BitPacking.EncodedLength(7, |data|)
    ensures forall i :: 0 <= i < |DenseEncode(data)| ==> Upper(DenseEncode(data)[i]) == DenseEncode(data)[i]
  {
    Alphabets.Dense128Sound();
    TextCode.EncodeSymbols(Alphabets.DENSE128, data);
    TextCode.EncodedSize(Alphabets.DENSE128, data);
    BitPacking.PackLength(7, data);
    var t := DenseEncode(data);
    forall i | 0 <= i < |t| ensures t[i] != CARET && t[i] != COLON && t[i] != SLASH && Upper(t[i]) == t[i] {
      Alphabets.SymbolsAreOrdinary(t[i]);
    }
  }

  /** A plain name resolves to itself, present in the directory or not. */
  lemma PlainMatches(d: Directory, host: Text)
    requires !NeedsCaseEscape(d, host)
    ensures MatchExisting(d, host) == host
  {
    var f := MatchExisting(d, host);
    if IsFirst(d, host, f) && f != host {
      assert Variant(f, host);
      FirstUnique(d, host, f, host);
    }
  }

  lemma PlainRoundTrip(z: Deflater, d: Directory, host: Text, size: nat)
    requires Legal(host) && Plain(z, d, host) && |host| < size
    ensures Unmap(z, d, host, size) == Some(host)
    ensures Separable(host)
  {
    forall i | 0 <= i < |host| ensures !IsMarker(z, host, i) && host[i] != COLON && host[i] != SLASH {
      assert !Unspellable(z, host, i);
    }
    PlainMatches(d, host);
  }

  lemma LiteralRoundTrip(z: Deflater, d: Directory, host: Text, split: nat, size: nat)
    requires Legal(host) && split <= |host| && LiteralFits(host, split) && |host| < size
    ensures Unmap(z, d, LiteralSpelling(host, split), size) == Some(host)
  {
    var header, tail := host[..split], host[split..];
    assert host == header + tail;
    LiteralPayload(z, tail, PAYLOAD_SIZE - 1);
    LiteralPayload(z, tail, PAYLOAD_SIZE);
    UnmapEscaped(z, d, header, Base32Encode(tail + [0]), size);
    assert (tail + [0])[..|tail|] == tail;
  }

  lemma CompressedRoundTrip(z: Deflater, d: Directory, host: Text, k: nat, best: seq<byte>, size: nat)
    requires Lossless(z) && Legal(host) && k <= |host| && |host| < size
    requires Compresses(z, best, host[k..]) && |best| <= PAYLOAD_SIZE
    ensures Unmap(z, d, CompressedSpelling(host, k, best), size) == Some(host)
  {
    var header, tail := host[..k], host[k..];
    assert host == header + tail;
    CompressedPayload(z, best, tail);
    var payload := [ZERO] + DenseEncode(best);
    UnmapEscaped(z, d, header, payload, size);
    assert payload[1..] == DenseEncode(best);
  }

  /** What a spelling must do: fit, hold no separator, and read back. */
  ghost predicate Spells(z: Deflater, d: Directory, spelling: Text, host: Text, room: nat) {
    1 <= |spelling| <= LIMIT && Separable(spelling) && Unmap(z, d, spelling, room) == Some(host)
  }

  lemma LiteralSpells(z: Deflater, d: Directory, host: Text, size: nat, room: nat)
    requires Legal(host) && |host| < room && Map(z, d, host, size).Some?
    requires FixedFor(host).None? && !Plain(z, d, host) && LiteralFits(host, SplitPoint(z, d, host))
    ensures Spells(z, d, Map(z, d, host, size).value, host, room)
  {
    var split := SplitPoint(z, d, host);
    LiteralRoundTrip(z, d, host, split, room);
    HeaderSeparable(z, d, host, split);
    Base32Separable(host[split..] + [0]);
  }

  lemma CompressedSpells(z: Deflater, d: Directory, host: Text, size: nat, room: nat)
    requires Lossless(z) && Legal(host) && |host| < room && Map(z, d, host, size).Some?
    requires FixedFor(host).None? && !Plain(z, d, host) && !LiteralFits(host, SplitPoint(z, d, host))
    ensures Spells(z, d, Map(z, d, host, size).value, host, room)
  {
    var k := CompressSplit(host, SplitPoint(z, d, host));
    var best := Best(z, host[k..]).value;
    CompressedRoundTrip(z, d, host, k, best, room);
    HeaderSeparable(z, d, host, k);
    DenseSeparable(best);
  }

  /** Whatever tier spelled it, a component reads back as the name it stands
      for, fits an Amiga component and holds no separator. */
  lemma ComponentRoundTrip(z: Deflater, d: Directory, host: Text, size: nat, room: nat)
    requires Lossless(z) && Legal(host) && |host| < room && Map(z, d, host, size).Some?
    ensures Unmap(z, d, Map(z, d, host, size).value, room) == Some(host)
    ensures 1 <= |Map(z, d, host, size).value| <= LIMIT && Separable(Map(z, d, host, size).value)
  {
    if FixedFor(host).None? {
      if Plain(z, d, host) {
        PlainRoundTrip(z, d, host, room);
      } else if LiteralFits(host, SplitPoint(z, d, host)) {
        LiteralSpells(z, d, host, size, room);
      } else {
        CompressedSpells(z, d, host, size, room);
      }
    }
  }
}
