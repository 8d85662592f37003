/** The readdir() loops of the name mapper.  A listing is what readdir() yields,
    "." and ".." included, in whatever order: each loop is proved to compute the
    function of the set of entries that module NameMapper uses. */
module DirectoryScan {
  import opened Bytes
  import opened NameMapper

  predicate Dots(e: Text) { e == [DOT] || e == [DOT, DOT] }

  function Entries(listing: seq<Text>): Directory {
    set e | e in listing && !Dots(e)
  }

  lemma EntriesStep(listing: seq<Text>, i: nat)
    requires i < |listing|
    ensures Entries(listing[..i + 1]) == Entries(listing[..i]) + (if Dots(listing[i]) then {} else {listing[i]})
  {
    assert listing[..i + 1] == listing[..i] + [listing[i]];
  }

  /** What the scans know of the entries read so far: the least match, if any. */
  ghost predicate Scanned(d: Directory, name: Text, found: bool, first: Text) {
    if found then IsFirst(d, name, first) else forall e :: e in d ==> !FoldEq(e, name)
  }

  lemma ScanStep(d: Directory, name: Text, found: bool, first: Text, e: Text)
    requires Scanned(d, name, found, first)
    ensures !FoldEq(e, name) ==> Scanned(d + {e}, name, found, first)
    ensures FoldEq(e, name) && (!found || Less(e, first)) ==> Scanned(d + {e}, name, true, e)
    ensures FoldEq(e, name) && found && !Less(e, first) ==> Scanned(d + {e}, name, true, first)
  {
    LessTotal(e, e);
    if found {
      forall f | f in d && FoldEq(f, name) && Less(e, first) ensures !Less(f, e) {
        LessTotal(f, first);
        LessTotal(f, e);
        if Less(f, e) { LessTransitive(f, e, first); }
      }
    }
  }

  /** host_case_variant_needs_mapping(). */
  method CaseVariantNeedsMapping(listing: seq<Text>, host: Text) returns (needs: bool)
    ensures needs <==> NeedsCaseEscape(Entries(listing), host)
  {
    var first: Text := [];
    var collision, found := false, false;
    var i := 0;
    while i < |listing|
      invariant i <= |listing|
      invariant Scanned(Entries(listing[..i]), host, found, first)
      invariant collision <==> exists e :: e in Entries(listing[..i]) && Variant(e, host)
    {
      var entry := listing[i];
      EntriesStep(listing, i);
      i := i + 1;
      if Dots(entry) || !FoldEq(entry, host) {
        ScanStep(Entries(listing[..i - 1]), host, found, first, entry);
        continue;
      }
      ScanStep(Entries(listing[..i - 1]), host, found, first, entry);
      if !found || Less(entry, first) { first, found := entry, true; }
      if entry != host { collision := true; }
    }
    assert listing[..i] == listing;
    needs := collision && host != first;
    FirstDecides(Entries(listing), host, found, first);
  }

  lemma FirstDecides(d: Directory, host: Text, found: bool, first: Text)
    requires Scanned(d, host, found, first)
    ensures (exists e :: e in d && Variant(e, host)) ==> (IsFirst(d, host, host) <==> host == first)
  {
    if found && IsFirst(d, host, host) { FirstUnique(d, host, host, first); }
  }

  /** match_existing_case(): the name as it stands in a buffer of size bytes afterwards. */
  method MatchExistingCase(listing: seq<Text>, name: Text, size: nat) returns (result: Text)
    requires forall e :: e in listing ==> |e| <= 255
    ensures var best := MatchExisting(Entries(listing), name); result == if |best| < size then best else name
  {
    var best: Text := [];
    var found := false;
    var i := 0;
    while i < |listing|
      invariant i <= |listing|
      invariant Scanned(Entries(listing[..i]), name, found, best)
    {
      var entry := listing[i];
      EntriesStep(listing, i);
      ScanStep(Entries(listing[..i]), name, found, best, entry);
      i := i + 1;
      if Dots(entry) || !FoldEq(entry, name) || |entry| >= 256 { continue; }
      if !found || Less(entry, best) { best, found := entry, true; }
    }
    assert listing[..i] == listing;
    result := if found && |best| < size then best else name;
    var d := Entries(listing);
    if found {
      FirstUnique(d, name, best, MatchExisting(d, name));
    }
  }

  /** Where an entry and the host name part, byte by byte. */
  method Compare(entry: Text, host: Text) returns (index: nat)
    requires |entry| == |host|
    ensures index == FirstDifference(entry, host)
  {
    index := 0;
    while index < |entry| && entry[index] == host[index]
      invariant index <= |entry| && entry[..index] == host[..index]
    {
      index := index + 1;
    }
    DifferenceUnique(entry, host, index);
  }

  lemma {:induction false} DifferenceUnique(e: Text, n: Text, k: nat)
    requires |e| == |n| && k <= |e| && e[..k] == n[..k] && (k < |e| ==> e[k] != n[k])
    ensures k == FirstDifference(e, n)
  {
    if k > 0 {
      assert e[0] == e[..k][0] && n[0] == n[..k][0];
      assert e[1..][..k - 1] == e[..k][1..] && n[1..][..k - 1] == n[..k][1..];
      DifferenceUnique(e[1..], n[1..], k - 1);
    }
  }

  /** component_split_point(), from the first unspellable index (or the length) on. */
  method LowerSplit(listing: seq<Text>, host: Text, bound: nat) returns (split: nat)
    ensures split == LatestSplit(Entries(listing), host, bound)
  {
    split := bound;
    ghost var nearest: Text := [];
    var i := 0;
    while i < |listing|
      invariant i <= |listing| && split <= bound
      invariant BeforeVariants(Entries(listing[..i]), host, split)
      invariant split < bound ==>
        nearest in Entries(listing[..i]) && Variant(nearest, host) && FirstDifference(nearest, host) == split
    {
      var entry := listing[i];
      EntriesStep(listing, i);
      i := i + 1;
      if Dots(entry) || entry == host || !FoldEq(entry, host) { continue; }
      var index := Compare(entry, host);
      if index < split { split, nearest := index, entry; }
    }
    assert listing[..i] == listing;
    ghost var k := LatestSplit(Entries(listing), host, bound);
    assert split <= k;
  }
}
