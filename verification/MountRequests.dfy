/** Exactly when the volume worker grants a request, what it then mounts, and that no
    two filesystems share a view. */
module MountRequests {
  import opened Bytes
  import opened MountLedger

  // ------------------------------------------------------------------
  // Keys
  // ------------------------------------------------------------------

  const DASH: byte := 0x2D

  predicate Digit(c: byte) { 0x30 <= c <= 0x39 }

  lemma {:induction false} DecimalDigits(n: nat)
    ensures Decimal(n) != [] && forall i :: 0 <= i < |Decimal(n)| ==> Digit(Decimal(n)[i])
    ensures n >= 10 ==> |Decimal(n)| >= 2
  {
    if n >= 10 { DecimalDigits(n / 10); }
  }

  /** A number has one decimal, and a decimal one number. */
  lemma {:induction false} DecimalInjective(a: nat, b: nat)
    requires Decimal(a) == Decimal(b)
    ensures a == b
  {
    DecimalDigits(a);
    DecimalDigits(b);
    var d := Decimal(a);
    assert d[|d| - 1] == 0x30 + (a % 10) as byte && d[|d| - 1] == 0x30 + (b % 10) as byte;
    if a >= 10 && b >= 10 {
      assert d[..|d| - 1] == Decimal(a / 10) && d[..|d| - 1] == Decimal(b / 10);
      DecimalInjective(a / 10, b / 10);
    }
  }

  lemma DashSplits(a: Text, b: Text, c: Text, d: Text)
    requires a + [DASH] + b == c + [DASH] + d && DASH !in a && DASH !in c
    ensures a == c && b == d
  {
    var t, u := a + [DASH] + b, c + [DASH] + d;
    assert t[|a|] == DASH && u[|c|] == DASH;
    assert forall i :: 0 <= i < |a| ==> t[i] in a;
    assert forall i :: 0 <= i < |c| ==> u[i] in c;
    assert t[..|a|] == a && u[..|c|] == c && t[|a| + 1..] == b && u[|c| + 1..] == d;
  }

  lemma NoDash(n: nat)
    ensures DASH !in Decimal(n)
  {
    DecimalDigits(n);
  }

  /** Two filesystems bound under one key are one filesystem. */
  lemma BindKeyInjective(major: nat, minor: nat, major': nat, minor': nat)
    requires BindKey(major, minor) == BindKey(major', minor')
    ensures major == major' && minor == minor'
  {
    var k, l := BindKey(major, minor), BindKey(major', minor');
    assert k[3..] == Decimal(major) + [DASH] + Decimal(minor);
    assert l[3..] == Decimal(major') + [DASH] + Decimal(minor');
    NoDash(major);
    NoDash(major');
    DashSplits(Decimal(major), Decimal(minor), Decimal(major'), Decimal(minor'));
    DecimalInjective(major, major');
    DecimalInjective(minor, minor');
  }

  /** A bind key is a name a device could have, and a device so named would share its
      view: these are the names that start with "fs-", a number, a dash, a number. */
  lemma BindKeyIsName(major: nat, minor: nat)
    ensures KernelName(BindKey(major, minor)) <==> |BindKey(major, minor)| < 64
  {
    DecimalDigits(major);
    DecimalDigits(minor);
    var k, m := BindKey(major, minor), |Decimal(major)|;
    forall i | 0 <= i < |k| ensures NameByte(k[i]) {
      if 3 <= i < 3 + m { assert k[i] == Decimal(major)[i - 3]; }
      if i > 3 + m { assert k[i] == Decimal(minor)[i - 4 - m]; }
    }
  }

  // ------------------------------------------------------------------
  // Views
  // ------------------------------------------------------------------

  /** A view is mounted under the key. */
  predicate Viewed(k: Ledger, key: Text) {
    exists i :: 0 <= i < |k.volumes| && k.volumes[i].inUse && k.volumes[i].key == key
  }

  predicate HasFree(k: Ledger) { exists i :: 0 <= i < |k.volumes| && !k.volumes[i].inUse }

  /** The host lets the view be mounted. */
  predicate Mountable(h: Host) { h.source == Ok && h.directory && !h.busy && h.mounted }

  predicate Short(k: Ledger, key: Text) { |k.viewRoot| + 1 + |key| < 4096 }

  /** A view is granted exactly when its place is not too long, it is there already or
      the host lets it be mounted and an entry is free, and the reply fits. */
  lemma ViewGrants(k: Ledger, key: Text, h: Host)
    requires Inv(k)
    ensures View(k, key, h).1 == Ok <==> Short(k, key) && h.fits && (Viewed(k, key) || (Mountable(h) && HasFree(k)))
  {
    var entry, slot := EntryFor(k.volumes, key), FreeEntry(k.volumes);
    if entry.Some? {
      PlaceIsThere(k, entry.value);
      assert k.volumes[entry.value].inUse && k.volumes[entry.value].key == key;
    } else if slot.Some? {
      assert !k.volumes[slot.value].inUse;
    }
  }

  /** And a mount is made, whether or not the reply fits, exactly when it was not
      there and all else is met; nothing else is mounted or detached. */
  lemma ViewMounts(k: Ledger, key: Text, h: Host)
    requires Inv(k)
    ensures View(k, key, h).0.mounts
         == if Short(k, key) && !Viewed(k, key) && Mountable(h) && HasFree(k)
            then k.mounts + multiset{k.viewRoot + [SLASH] + key} else k.mounts
  {
    var entry, slot := EntryFor(k.volumes, key), FreeEntry(k.volumes);
    if entry.Some? {
      PlaceIsThere(k, entry.value);
      assert k.volumes[entry.value].inUse && k.volumes[entry.value].key == key;
    } else if slot.Some? {
      assert !k.volumes[slot.value].inUse;
    }
  }

  /** The root of the views is there, or the host makes it. */
  predicate Rooted(k: Ledger, made: Option<Text>) { k.viewRoot != [] || (made.Some? && made.value != []) }

  /** The ledger with its root. */
  function WithRoot(k: Ledger, made: Option<Text>): Ledger
    requires Rooted(k, made)
  {
    if k.viewRoot != [] then k else k.(viewRoot := made.value)
  }

  lemma RootIs(k: Ledger, made: Option<Text>)
    requires Inv(k)
    ensures EnsureRoot(k, made).1 <==> Rooted(k, made)
    ensures Rooted(k, made) ==> EnsureRoot(k, made).0 == WithRoot(k, made) && Inv(WithRoot(k, made))
  {
    EnsureRootInv(k, made);
  }

  /** MOUNT succeeds exactly when it names a device and a type that are good and
      there, the namespace and the root are, and the view is granted. */
  lemma MountGrants(k: Ledger, name: Option<Text>, typeValid: bool, typeSupported: bool, device: Status,
                    made: Option<Text>, h: Host)
    requires Inv(k)
    ensures Mount(k, name, typeValid, typeSupported, device, made, h).1 == Ok <==>
              && name.Some? && KernelName(name.value) && typeValid && typeSupported && k.ready && device == Ok
              && Rooted(k, made) && Short(WithRoot(k, made), name.value) && h.fits
              && (Viewed(k, name.value) || (h.directory && !h.busy && h.mounted && HasFree(k)))
  {
    RootIs(k, made);
    if name.Some? && Rooted(k, made) { ViewGrants(WithRoot(k, made), name.value, h.(source := Ok)); }
  }

  /** BIND succeeds exactly when it names a filesystem, the namespace and the root are
      there, its key is short enough, and the view is granted. */
  lemma BindGrants(k: Ledger, device: Option<(nat, nat)>, made: Option<Text>, h: Host)
    requires Inv(k)
    ensures Bind(k, device, made, h).1 == Ok <==>
              && device.Some? && k.ready && Rooted(k, made) && |BindKey(device.value.0, device.value.1)| < 64
              && Short(WithRoot(k, made), BindKey(device.value.0, device.value.1)) && h.fits
              && (Viewed(k, BindKey(device.value.0, device.value.1)) || (Mountable(h) && HasFree(k)))
  {
    RootIs(k, made);
    if device.Some? && Rooted(k, made) {
      ViewGrants(WithRoot(k, made), BindKey(device.value.0, device.value.1), h);
    }
  }

  /** UNMOUNT succeeds exactly when its device has a view and that was detached. */
  lemma UnmountGrants(k: Ledger, name: Option<Text>, detached: bool)
    requires Inv(k)
    ensures Unmount(k, name, detached).1 == Ok <==>
              name.Some? && KernelName(name.value) && Viewed(k, name.value) && detached
    ensures Unmount(k, name, detached).1 == Ok ==>
              Unmount(k, name, detached).0.mounts == k.mounts - multiset{k.viewRoot + [SLASH] + name.value}
    ensures Unmount(k, name, detached).1 != Ok ==> Unmount(k, name, detached).0 == k
  {
    if name.Some? {
      var entry := EntryFor(k.volumes, name.value);
      if entry.Some? {
        PlaceIsThere(k, entry.value);
        assert k.volumes[entry.value].inUse && k.volumes[entry.value].key == name.value;
      }
    }
  }

  /** The namespace is there exactly when it was, or it had not failed before and the
      host makes it; an attempt that fails is remembered. */
  lemma StartExactly(k: Ledger, unshared: bool)
    requires Inv(k)
    ensures StartNamespace(k, unshared).ready <==> k.ready || (!k.failed && unshared)
    ensures StartNamespace(k, unshared).failed <==> !StartNamespace(k, unshared).ready
  {
  }
}
