/** name_from_host_with_mappings() and normalize_mapped_path(): whole paths, one
    component at a time, each against its own host parent. */
module Paths {
  import opened Bytes
  import opened Escape
  import opened NameMapper

  const PATH_MAX := 4096

  /** What every directory holds, by host path. */
  type Snapshot = Text -> Directory

  /** A host path one component further down; the root already ends in its slash. */
  function Below(parent: Text, component: Text): Text {
    parent + (if parent == [SLASH] then [] else [SLASH]) + component
  }

  function HostPath(root: Text, components: seq<Text>): Text
    decreases |components|
  {
    if components == [] then root else HostPath(Below(root, components[0]), components[1..])
  }

  // ------------------------------------------------------------------
  // Printing
  // ------------------------------------------------------------------

  /** append_path_text(). */
  function Append(printed: Text, text: Text, size: nat): Option<Text> {
    var separator: Text := if printed != [] && printed[|printed| - 1] != COLON then [SLASH] else [];
    Fit(printed + separator + text, size)
  }

  /** The loop of name_from_host_with_mappings() over the components still to print. */
  ghost function Print(z: Deflater, snap: Snapshot, parent: Text, hosts: seq<Text>, printed: Text, size: nat)
    : Option<Text>
    decreases |hosts|
  {
    if hosts == [] then Some(printed)
    else
      var mapped := Map(z, snap(parent), hosts[0], LIMIT + 1);
      if mapped.None? then None
      else
        var longer := Append(printed, mapped.value, size);
        if longer.None? || |parent| + |hosts[0]| + 2 >= PATH_MAX then None
        else Print(z, snap, Below(parent, hosts[0]), hosts[1..], longer.value, size)
  }

  /** The Amiga name of a host path below a volume root: the volume's name and
      colon, then the mapped components. */
  ghost function NameFromHost(z: Deflater, snap: Snapshot, volume: Text, root: Text, hosts: seq<Text>, size: nat)
    : Option<Text>
  {
    if |volume| >= size || |root| >= PATH_MAX then None else Print(z, snap, root, hosts, volume, size)
  }

  // ------------------------------------------------------------------
  // Parsing
  // ------------------------------------------------------------------

  /** strchr(t, '/'), or the end. */
  function SlashAt(t: Text): (i: nat)
    ensures i <= |t| && SLASH !in t[..i] && (i < |t| ==> t[i] == SLASH)
  {
    if t == [] || t[0] == SLASH then 0
    else
      var i := SlashAt(t[1..]);
      assert t[..i + 1] == [t[0]] + t[1..][..i];
      i + 1
  }

  /** The loop of normalize_mapped_path() over the text still to read. */
  ghost function Parse(z: Deflater, snap: Snapshot, result: Text, text: Text, size: nat): Option<Text>
    decreases |text|
  {
    if text == [] then Some(result)
    else
      var i := SlashAt(text);
      var next := if i == 0 then Some(result) else ParseComponent(z, snap, result, text[..i], size);
      if next.None? then None
      else if i == |text| then next
      else Parse(z, snap, next.value, text[i + 1..], size)
  }

  ghost function ParseComponent(z: Deflater, snap: Snapshot, result: Text, component: Text, size: nat): Option<Text> {
    var decoded := Unmap(z, snap(result), component, PATH_MAX);
    if decoded.None? then None
    else Fit(result + (if |result| > 1 then [SLASH] else []) + decoded.value, size)
  }

  /** normalize_mapped_path(). */
  ghost function NormalizeMapped(z: Deflater, snap: Snapshot, base: Text, path: Text, size: nat): Option<Text> {
    if |path| >= 2 * PATH_MAX then None
    else if path != [] && path[0] == SLASH then Parse(z, snap, [SLASH], path, size)
    else if |base| >= size then None
    else Parse(z, snap, base, path, size)
  }

  // ------------------------------------------------------------------
  // The whole-path round trip
  // ------------------------------------------------------------------

  /** The spellings of the components, each in its own parent. */
  ghost function Spellings(z: Deflater, snap: Snapshot, parent: Text, hosts: seq<Text>): Option<seq<Text>>
    decreases |hosts|
  {
    if hosts == [] then Some([])
    else
      var mapped := Map(z, snap(parent), hosts[0], LIMIT + 1);
      var rest := Spellings(z, snap, Below(parent, hosts[0]), hosts[1..]);
      if mapped.Some? && rest.Some? then Some([mapped.value] + rest.value) else None
  }

  /** Components with slashes between them. */
  function Glue(components: seq<Text>): Text
    decreases |components|
  {
    if components == [] then []
    else if |components| == 1 then components[0]
    else components[0] + [SLASH] + Glue(components[1..])
  }

  predicate AllLegal(hosts: seq<Text>) { forall i :: 0 <= i < |hosts| ==> Legal(hosts[i]) }

  predicate AllSeparable(ms: seq<Text>) { forall i :: 0 <= i < |ms| ==> ms[i] != [] && Separable(ms[i]) }

  lemma {:induction false} SpellingsSeparable(z: Deflater, snap: Snapshot, parent: Text, hosts: seq<Text>)
    requires Lossless(z) && AllLegal(hosts) && Spellings(z, snap, parent, hosts).Some?
    ensures AllSeparable(Spellings(z, snap, parent, hosts).value)
    ensures |Spellings(z, snap, parent, hosts).value| == |hosts|
    decreases |hosts|
  {
    if hosts != [] {
      ComponentRoundTrip(z, snap(parent), hosts[0], LIMIT + 1, PATH_MAX);
      SpellingsSeparable(z, snap, Below(parent, hosts[0]), hosts[1..]);
    }
  }

  /** The separator due after a text. */
  function Separator(printed: Text): Text {
    if printed != [] && printed[|printed| - 1] != COLON then [SLASH] else []
  }

  lemma AppendEnds(printed: Text, m: Text, size: nat)
    requires m != [] && Separable(m) && Append(printed, m, size).Some?
    ensures Append(printed, m, size).value == printed + Separator(printed) + m
    ensures Append(printed, m, size).value != [] && Separator(Append(printed, m, size).value) == [SLASH]
  {
    var longer := printed + Separator(printed) + m;
    assert longer[|longer| - 1] == m[|m| - 1];
    assert m[|m| - 1] in m;
  }

  function Written(printed: Text, ms: seq<Text>): Text {
    printed + (if ms == [] then [] else Separator(printed)) + Glue(ms)
  }

  lemma WrittenAfterColon(volume: Text, ms: seq<Text>)
    requires volume != [] && volume[|volume| - 1] == COLON
    ensures volume <= Written(volume, ms) && Written(volume, ms)[|volume|..] == Glue(ms)
  {
    assert Written(volume, ms) == volume + Glue(ms);
  }

  /** What the printer writes: its text so far, the separator due, and the spellings. */
  lemma {:induction false} PrintWrites(z: Deflater, snap: Snapshot, parent: Text, hosts: seq<Text>, printed: Text,
                                       size: nat)
    requires Lossless(z) && AllLegal(hosts) && printed != [] && Print(z, snap, parent, hosts, printed, size).Some?
    ensures Spellings(z, snap, parent, hosts).Some?
    ensures Print(z, snap, parent, hosts, printed, size).value
         == Written(printed, Spellings(z, snap, parent, hosts).value)
    decreases |hosts|
  {
    if hosts == [] {
      assert printed + [] + [] == printed;
    } else {
      var m := Map(z, snap(parent), hosts[0], LIMIT + 1).value;
      ComponentRoundTrip(z, snap(parent), hosts[0], LIMIT + 1, PATH_MAX);
      AppendEnds(printed, m, size);
      var longer, below := Append(printed, m, size).value, Below(parent, hosts[0]);
      PrintWrites(z, snap, below, hosts[1..], longer, size);
      var rest := Spellings(z, snap, below, hosts[1..]).value;
      Regroup(printed, Separator(printed), m, rest);
    }
  }

  lemma Regroup(printed: Text, separator: Text, m: Text, rest: seq<Text>)
    ensures printed + separator + m + (if rest == [] then [] else [SLASH]) + Glue(rest)
         == printed + separator + Glue([m] + rest)
  {
    GlueFront(m, rest);
  }

  lemma GlueFront(m: Text, rest: seq<Text>)
    ensures Glue([m] + rest) == m + (if rest == [] then [] else [SLASH]) + Glue(rest)
  {
    assert ([m] + rest)[1..] == rest;
  }

  lemma {:induction false} SlashAfter(m: Text, rest: Text)
    requires SLASH !in m && (rest == [] || rest[0] == SLASH)
    ensures SlashAt(m + rest) == |m|
  {
    if m == [] {
      assert m + rest == rest;
    } else {
      assert (m + rest)[1..] == m[1..] + rest && (m + rest)[0] == m[0];
      SlashAfter(m[1..], rest);
    }
  }

  lemma ParseFront(z: Deflater, snap: Snapshot, result: Text, m: Text, rest: seq<Text>, size: nat)
    requires m != [] && SLASH !in m && AllSeparable(rest)
    ensures Parse(z, snap, result, Glue([m] + rest), size) ==
      var next := ParseComponent(z, snap, result, m, size);
      if next.None? then None else Parse(z, snap, next.value, Glue(rest), size)
  {
    GlueFront(m, rest);
    if rest == [] {
      SlashAfter(m, []);
      assert Glue([m] + rest) == m + [] == m;
      assert m[..|m|] == m;
    } else {
      var tail := [SLASH] + Glue(rest);
      SlashAfter(m, tail);
      assert Glue([m] + rest) == m + tail;
      assert (m + tail)[..|m|] == m && (m + tail)[|m| + 1..] == Glue(rest);
    }
  }

  /** Both walks stand in the same host parent at every step. */
  lemma {:induction false} ParsePrinted(z: Deflater, snap: Snapshot, parent: Text, hosts: seq<Text>, size: nat)
    requires Lossless(z) && AllLegal(hosts) && parent != [] && parent[0] == SLASH
    requires Spellings(z, snap, parent, hosts).Some? && |HostPath(parent, hosts)| < size
    ensures Parse(z, snap, parent, Glue(Spellings(z, snap, parent, hosts).value), size)
         == Some(HostPath(parent, hosts))
    decreases |hosts|
  {
    if hosts != [] {
      var host, below := hosts[0], Below(parent, hosts[0]);
      var m := Map(z, snap(parent), host, LIMIT + 1).value;
      var rest := Spellings(z, snap, below, hosts[1..]).value;
      ComponentRoundTrip(z, snap(parent), host, LIMIT + 1, PATH_MAX);
      SpellingsSeparable(z, snap, below, hosts[1..]);
      HostPathGrows(below, hosts[1..]);
      ParseFront(z, snap, parent, m, rest, size);
      ParsePrinted(z, snap, below, hosts[1..], size);
    }
  }

  lemma {:induction false} HostPathGrows(parent: Text, hosts: seq<Text>)
    ensures |HostPath(parent, hosts)| >= |parent|
    decreases |hosts|
  {
    if hosts != [] { HostPathGrows(Below(parent, hosts[0]), hosts[1..]); }
  }

  lemma GlueStart(ms: seq<Text>)
    requires AllSeparable(ms)
    ensures Glue(ms) != [] ==> Glue(ms)[0] != SLASH
  {
    if ms != [] { assert ms[0][0] in ms[0]; }
  }

  /** The name of a host path, resolved again below the same volume root, is that host path. */
  lemma WholePathRoundTrip(z: Deflater, snap: Snapshot, volume: Text, root: Text, hosts: seq<Text>, size: nat,
                           room: nat)
    requires Lossless(z) && AllLegal(hosts)
    requires volume != [] && volume[|volume| - 1] == COLON && root != [] && root[0] == SLASH
    requires NameFromHost(z, snap, volume, root, hosts, size).Some?
    requires |HostPath(root, hosts)| < room
    ensures volume <= NameFromHost(z, snap, volume, root, hosts, size).value
    ensures var path := NameFromHost(z, snap, volume, root, hosts, size).value[|volume|..];
            |path| < 2 * PATH_MAX ==> NormalizeMapped(z, snap, root, path, room) == Some(HostPath(root, hosts))
  {
    NameIsGlued(z, snap, volume, root, hosts, size);
    SpellingsSeparable(z, snap, root, hosts);
    GlueStart(Spellings(z, snap, root, hosts).value);
    HostPathGrows(root, hosts);
    ParsePrinted(z, snap, root, hosts, room);
  }

  lemma NameIsGlued(z: Deflater, snap: Snapshot, volume: Text, root: Text, hosts: seq<Text>, size: nat)
    requires Lossless(z) && AllLegal(hosts) && volume != [] && volume[|volume| - 1] == COLON
    requires NameFromHost(z, snap, volume, root, hosts, size).Some?
    ensures Spellings(z, snap, root, hosts).Some?
    ensures volume <= NameFromHost(z, snap, volume, root, hosts, size).value
    ensures NameFromHost(z, snap, volume, root, hosts, size).value[|volume|..]
         == Glue(Spellings(z, snap, root, hosts).value)
  {
    PrintWrites(z, snap, root, hosts, volume, size);
    WrittenAfterColon(volume, Spellings(z, snap, root, hosts).value);
  }

  // ------------------------------------------------------------------
  // When a path can be named, and paths from the root
  // ------------------------------------------------------------------

  /** Every host parent leaves the next component its room. */
  predicate ParentsFit(parent: Text, hosts: seq<Text>) {
    forall i :: 0 <= i < |hosts| ==> |HostPath(parent, hosts[..i])| + |hosts[i]| + 2 < PATH_MAX
  }

  lemma HostPathNext(parent: Text, hosts: seq<Text>, i: nat)
    requires i < |hosts|
    ensures HostPath(Below(parent, hosts[0]), hosts[1..][..i]) == HostPath(parent, hosts[..i + 1])
  {
    assert hosts[..i + 1][1..] == hosts[1..][..i] && hosts[..i + 1][0] == hosts[0];
  }

  lemma ParentsFitFront(parent: Text, hosts: seq<Text>)
    requires hosts != []
    ensures ParentsFit(parent, hosts) <==>
              |parent| + |hosts[0]| + 2 < PATH_MAX && ParentsFit(Below(parent, hosts[0]), hosts[1..])
  {
    var below, rest := Below(parent, hosts[0]), hosts[1..];
    assert hosts[..0] == [];
    forall i | 0 <= i < |rest| ensures HostPath(below, rest[..i]) == HostPath(parent, hosts[..i + 1]) {
      HostPathNext(parent, hosts, i);
    }
    if ParentsFit(parent, hosts) {
      forall i | 0 <= i < |rest| ensures |HostPath(below, rest[..i])| + |rest[i]| + 2 < PATH_MAX {
        assert |HostPath(parent, hosts[..i + 1])| + |hosts[i + 1]| + 2 < PATH_MAX;
      }
    }
    if |parent| + |hosts[0]| + 2 < PATH_MAX && ParentsFit(below, rest) {
      forall i | 0 <= i < |hosts| ensures |HostPath(parent, hosts[..i])| + |hosts[i]| + 2 < PATH_MAX {
        if i > 0 { assert |HostPath(below, rest[..i - 1])| + |rest[i - 1]| + 2 < PATH_MAX; }
      }
    }
  }

  /** A host path can be named exactly when each of its components can be spelled in
      its own parent, the whole name fits the buffer, and every host parent fits
      its own. */
  lemma {:induction false} PrintsExactly(z: Deflater, snap: Snapshot, parent: Text, hosts: seq<Text>, printed: Text,
                                         size: nat)
    requires Lossless(z) && AllLegal(hosts) && printed != [] && |printed| < size
    ensures Print(z, snap, parent, hosts, printed, size).Some? <==>
              && Spellings(z, snap, parent, hosts).Some? && ParentsFit(parent, hosts)
              && |Written(printed, Spellings(z, snap, parent, hosts).value)| < size
    decreases |hosts|
  {
    if hosts != [] && Map(z, snap(parent), hosts[0], LIMIT + 1).Some? {
      var m, below := Map(z, snap(parent), hosts[0], LIMIT + 1).value, Below(parent, hosts[0]);
      ComponentRoundTrip(z, snap(parent), hosts[0], LIMIT + 1, PATH_MAX);
      ParentsFitFront(parent, hosts);
      var rest := Spellings(z, snap, below, hosts[1..]);
      if rest.Some? { Regroup(printed, Separator(printed), m, rest.value); }
      if Append(printed, m, size).Some? {
        AppendEnds(printed, m, size);
        PrintsExactly(z, snap, below, hosts[1..], Append(printed, m, size).value, size);
      }
    }
  }

  /** A path that starts with a slash is read from the root, whatever the current
      directory. */
  lemma AbsoluteRoundTrip(z: Deflater, snap: Snapshot, base: Text, hosts: seq<Text>, room: nat)
    requires Lossless(z) && AllLegal(hosts) && Spellings(z, snap, [SLASH], hosts).Some?
    requires |HostPath([SLASH], hosts)| < room && |Glue(Spellings(z, snap, [SLASH], hosts).value)| + 1 < 2 * PATH_MAX
    ensures NormalizeMapped(z, snap, base, [SLASH] + Glue(Spellings(z, snap, [SLASH], hosts).value), room)
         == Some(HostPath([SLASH], hosts))
  {
    var text := Glue(Spellings(z, snap, [SLASH], hosts).value);
    ParsePrinted(z, snap, [SLASH], hosts, room);
    SlashAfter([], [SLASH] + text);
    assert [] + ([SLASH] + text) == [SLASH] + text && ([SLASH] + text)[1..] == text;
  }
}
