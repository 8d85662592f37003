/** The volume worker's state as it keeps it, updated in place. */
module MountTable {
  import opened Bytes
  import opened MountLedger

  class Worker {
    const volumes: array<Entry>
    var viewRoot: Text
    var ready: bool
    var failed: bool
    ghost var mounts: multiset<Text>

    ghost function Ledger(): Ledger
      reads this, volumes
    {
      MountLedger.Ledger(volumes[..], viewRoot, ready, failed, mounts)
    }

    constructor ()
      ensures Ledger() == EMPTY && fresh(volumes)
    {
      volumes := new Entry[MAX_DEVICES](_ => NO_ENTRY);
      viewRoot, ready, failed, mounts := [], false, false, multiset{};
      new;
      assert volumes[..] == EMPTY.volumes;
    }

    /** entry_for() and free_entry(). */
    method Find(fits: Entry -> bool) returns (r: Option<nat>)
      ensures r == First(volumes[..], fits)
    {
      var i := 0;
      while i < volumes.Length && !fits(volumes[i])
        invariant i <= volumes.Length && First(volumes[..], fits) == First(volumes[..], fits, i)
      {
        i := i + 1;
      }
      r := if i < volumes.Length then Some(i) else None;
    }

    method InitNamespace(unshared: bool) returns (status: Status)
      modifies this`ready
      ensures (Ledger(), status) == MountLedger.InitNamespace(old(Ledger()), unshared)
    {
      if ready { return Ok; }
      if failed || !unshared { return HostError; }
      ready := true;
      return Ok;
    }

    method StartNamespace(unshared: bool)
      modifies this`ready, this`failed
      ensures Ledger() == MountLedger.StartNamespace(old(Ledger()), unshared)
    {
      var status := InitNamespace(unshared);
      if status != Ok { failed := true; }
    }

    method EnsureRoot(made: Option<Text>) returns (ok: bool)
      modifies this`viewRoot
      ensures (Ledger(), ok) == MountLedger.EnsureRoot(old(Ledger()), made)
    {
      if viewRoot != [] { return true; }
      if made.None? || made.value == [] { return false; }
      viewRoot := made.value;
      return true;
    }

    /** From the look-up of the key on; a mount that finds no free entry is taken
        down again at once. */
    method View(key: Text, h: Host) returns (status: Status)
      modifies this`mounts, volumes
      ensures (Ledger(), status) == MountLedger.View(old(Ledger()), key, h)
    {
      var target := Target(viewRoot, key);
      if |target| >= PATH_MAX { return Escaped; }
      var entry := Find((e: Entry) => e.inUse && e.key == key);
      if entry.Some? && volumes[entry.value].path != [] { return if h.fits then Ok else ProtocolError; }
      if h.source != Ok { return h.source; }
      if !h.directory || h.busy || !h.mounted { return HostError; }
      var slot := entry;
      if slot.None? { slot := Find((e: Entry) => !e.inUse); }
      var entered := Record(slot, key, target);
      return if !entered then HostError else if h.fits then Ok else ProtocolError;
    }

    /** The mount is made, and entered or taken down again. */
    method Record(slot: Option<nat>, key: Text, target: Text) returns (entered: bool)
      requires slot.Some? ==> slot.value < volumes.Length
      modifies this`mounts, volumes
      ensures entered == slot.Some?
      ensures Ledger() == if slot.None? then old(Ledger()) else Enter(old(Ledger()), slot.value, key, target)
    {
      mounts := mounts + multiset{target};
      if slot.None? {
        mounts := mounts - multiset{target};
        assert mounts == old(mounts);
        return false;
      }
      volumes[slot.value] := Entry(true, key, target);
      return true;
    }

    method Mount(name: Option<Text>, typeValid: bool, typeSupported: bool, device: Status, made: Option<Text>, h: Host)
      returns (status: Status)
      modifies this`viewRoot, this`mounts, volumes
      ensures (Ledger(), status) == MountLedger.Mount(old(Ledger()), name, typeValid, typeSupported, device, made, h)
    {
      if name.None? { return ProtocolError; }
      if !KernelName(name.value) || !typeValid { return Escaped; }
      if !typeSupported { return Unsupported; }
      if !ready { return Refused; }
      if device != Ok { return device; }
      var rooted := EnsureRoot(made);
      if !rooted { return HostError; }
      status := View(name.value, h.(source := Ok));
    }

    method Bind(device: Option<(nat, nat)>, made: Option<Text>, h: Host) returns (status: Status)
      modifies this`viewRoot, this`mounts, volumes
      ensures (Ledger(), status) == MountLedger.Bind(old(Ledger()), device, made, h)
    {
      if device.None? { return ProtocolError; }
      if !ready { return Refused; }
      var rooted := EnsureRoot(made);
      if !rooted { return HostError; }
      var key := BindKey(device.value.0, device.value.1);
      if |key| >= NAME_MAX { return Escaped; }
      status := View(key, h);
    }

    method Unmount(name: Option<Text>, detached: bool) returns (status: Status)
      modifies this`mounts, volumes
      ensures (Ledger(), status) == MountLedger.Unmount(old(Ledger()), name, detached)
    {
      if name.None? { return ProtocolError; }
      if !KernelName(name.value) { return Escaped; }
      var entry := Find((e: Entry) => e.inUse && e.key == name.value);
      if entry.None? || volumes[entry.value].path == [] || !detached { return HostError; }
      Release(entry.value);
      return Ok;
    }

    method Release(slot: nat)
      requires slot < volumes.Length
      modifies this`mounts, volumes
      ensures Ledger() == Leave(old(Ledger()), slot)
    {
      mounts := mounts - multiset{volumes[slot].path};
      volumes[slot] := Entry(false, volumes[slot].key, []);
    }

    /** ace_fmm_volume_shutdown(): from the last entry to the first. */
    method ShutDown()
      modifies this`mounts, this`viewRoot, volumes
      ensures Ledger() == MountLedger.ShutDown(old(Ledger()), volumes.Length)
    {
      var n: nat := volumes.Length;
      ghost var k := Ledger();
      while n > 0
        invariant n <= volumes.Length == |k.volumes| && LeadsTo(Ledger(), n, k, volumes.Length)
      {
        n := n - 1;
        TakeDown(n, k);
      }
      viewRoot := [];
    }

    /** What is left to take down leads to the same end. */
    static ghost predicate LeadsTo(j: Ledger, i: nat, k: Ledger, n: nat) {
      i <= |j.volumes| && n <= |k.volumes| && MountLedger.ShutDown(j, i) == MountLedger.ShutDown(k, n)
    }

    method TakeDown(i: nat, ghost k: Ledger)
      requires i < volumes.Length && LeadsTo(Ledger(), i + 1, k, volumes.Length)
      modifies this`mounts, volumes
      ensures LeadsTo(Ledger(), i, k, volumes.Length)
    {
      if volumes[i].inUse && volumes[i].path != [] { Release(i); }
      assert Ledger() == MountLedger.TakeDown(old(Ledger()), i);
    }
  }
}
