/** The volume worker's ledger of the mounts it has made.  What the host answers
    (is the device there, did the mount succeed) is an argument; detaching is
    taken to succeed when it is reported to. */
module MountLedger {
  import opened Bytes

  const MAX_DEVICES := 128
  const NAME_MAX := 64
  const PATH_MAX := 4096

  datatype Status = Ok | Refused | Escaped | HostError | Unsupported | ProtocolError

  /** path is empty when the entry stands for no mount. */
  datatype Entry = Entry(inUse: bool, key: Text, path: Text)

  const NO_ENTRY := Entry(false, [], [])

  /** mounts: every mount the worker has made and not detached, by place. */
  datatype Ledger = Ledger(volumes: seq<Entry>, viewRoot: Text, ready: bool, failed: bool, mounts: multiset<Text>)

  const EMPTY := Ledger(seq(MAX_DEVICES, _ => NO_ENTRY), [], false, false, multiset{})

  function EntryFor(v: seq<Entry>, key: Text): Option<nat> {
    First(v, (e: Entry) => e.inUse && e.key == key)
  }

  function FreeEntry(v: seq<Entry>): Option<nat> {
    First(v, (e: Entry) => !e.inUse)
  }

  /** init_namespace(); unshared is whether the host makes one. */
  function InitNamespace(k: Ledger, unshared: bool): (Ledger, Status) {
    if k.ready then (k, Ok)
    else if k.failed || !unshared then (k, HostError)
    else (k.(ready := true), Ok)
  }

  /** ace_fmm_volume_start_namespace(): the one attempt, its failure remembered. */
  function StartNamespace(k: Ledger, unshared: bool): Ledger {
    var (j, status) := InitNamespace(k, unshared);
    if status == Ok then j else j.(failed := true)
  }

  /** ensure_view_root(); made is the directory the host provides, if any. */
  function EnsureRoot(k: Ledger, made: Option<Text>): (Ledger, bool) {
    if k.viewRoot != [] then (k, true)
    else if made.None? || made.value == [] then (k, false)
    else (k.(viewRoot := made.value), true)
  }

  function Target(root: Text, key: Text): Text { root + [SLASH] + key }

  /** What the host says while a view is being made: whether the filesystem can be
      taken (Ok, or why not), whether the directory can be made, whether something
      is mounted there, whether the mount succeeds, whether the reply fits. */
  datatype Host = Host(source: Status, directory: bool, busy: bool, mounted: bool, fits: bool)

  /** The common part of do_mount() and do_bind(), once the key is settled. */
  function View(k: Ledger, key: Text, h: Host): (Ledger, Status) {
    var target := Target(k.viewRoot, key);
    var entry := EntryFor(k.volumes, key);
    if |target| >= PATH_MAX then (k, Escaped)
    else if entry.Some? && k.volumes[entry.value].path != [] then (k, if h.fits then Ok else ProtocolError)
    else if h.source != Ok then (k, h.source)
    else if !h.directory || h.busy || !h.mounted then (k, HostError)
    else
      var slot := if entry.Some? then entry else FreeEntry(k.volumes);
      if slot.None? then (k, HostError)
      else (Enter(k, slot.value, key, target), if h.fits then Ok else ProtocolError)
  }

  function Enter(k: Ledger, slot: nat, key: Text, target: Text): Ledger
    requires slot < |k.volumes|
  {
    k.(volumes := k.volumes[slot := Entry(true, key, target)], mounts := k.mounts + multiset{target})
  }

  predicate KernelName(name: Text) {
    && 0 < |name| < NAME_MAX
    && forall i :: 0 <= i < |name| ==> NameByte(name[i])
  }

  predicate NameByte(c: byte) {
    (0x30 <= c <= 0x39) || (0x41 <= c <= 0x5A) || (0x61 <= c <= 0x7A) || c == 0x2D || c == 0x5F
  }

  /** do_mount(); name is None when the payload does not hold two strings. */
  function Mount(k: Ledger, name: Option<Text>, typeValid: bool, typeSupported: bool, device: Status,
                 made: Option<Text>, h: Host): (Ledger, Status)
  {
    if name.None? then (k, ProtocolError)
    else if !KernelName(name.value) || !typeValid then (k, Escaped)
    else if !typeSupported then (k, Unsupported)
    else if !k.ready then (k, Refused)
    else if device != Ok then (k, device)
    else
      var (j, rooted) := EnsureRoot(k, made);
      if !rooted then (j, HostError) else View(j, name.value, h.(source := Ok))
  }

  function Decimal(n: nat): Text {
    (if n < 10 then [] else Decimal(n / 10)) + [0x30 + (n % 10) as byte]
  }

  /** The key of a filesystem without a device of its own: fs-major-minor. */
  function BindKey(major: nat, minor: nat): Text {
    [0x66, 0x73, 0x2D] + Decimal(major) + [0x2D] + Decimal(minor)
  }

  /** do_bind(); device is None when the payload is not major:minor. */
  function Bind(k: Ledger, device: Option<(nat, nat)>, made: Option<Text>, h: Host): (Ledger, Status) {
    if device.None? then (k, ProtocolError)
    else if !k.ready then (k, Refused)
    else
      var (j, rooted) := EnsureRoot(k, made);
      var key := BindKey(device.value.0, device.value.1);
      if !rooted then (j, HostError) else if |key| >= NAME_MAX then (j, Escaped) else View(j, key, h)
  }

  /** do_unmount(). */
  function Unmount(k: Ledger, name: Option<Text>, detached: bool): (Ledger, Status) {
    if name.None? then (k, ProtocolError)
    else if !KernelName(name.value) then (k, Escaped)
    else
      var entry := EntryFor(k.volumes, name.value);
      if entry.None? || k.volumes[entry.value].path == [] || !detached then (k, HostError)
      else (Leave(k, entry.value), Ok)
  }

  function Leave(k: Ledger, slot: nat): Ledger
    requires slot < |k.volumes|
  {
    k.(volumes := k.volumes[slot := Entry(false, k.volumes[slot].key, [])],
       mounts := k.mounts - multiset{k.volumes[slot].path})
  }

  /** Shutdown of one entry. */
  function TakeDown(k: Ledger, i: nat): (j: Ledger)
    requires i < |k.volumes|
    ensures |j.volumes| == |k.volumes|
  {
    if k.volumes[i].inUse && k.volumes[i].path != [] then Leave(k, i) else k
  }

  /** ace_fmm_volume_shutdown(), from slot n - 1 down. */
  function ShutDown(k: Ledger, n: nat): Ledger
    requires n <= |k.volumes|
    decreases n
  {
    if n == 0 then k.(viewRoot := []) else ShutDown(TakeDown(k, n - 1), n - 1)
  }

  // ------------------------------------------------------------------
  // Runs
  // ------------------------------------------------------------------

  datatype Event =
    | StartOp(startUnshared: bool)
    | InitOp(unshared: bool)
    | PrepareOp(prepUnshared: bool, prepMade: Option<Text>)
    | MountOp(name: Option<Text>, typeValid: bool, typeSupported: bool, device: Status, made: Option<Text>, host: Host)
    | BindOp(bindDevice: Option<(nat, nat)>, bindMade: Option<Text>, bindHost: Host)
    | UnmountOp(unmountName: Option<Text>, detached: bool)

  function Step(k: Ledger, e: Event): Ledger {
    match e
    case StartOp(unshared) => StartNamespace(k, unshared)
    case InitOp(unshared) => InitNamespace(k, unshared).0
    case PrepareOp(unshared, made) =>
      var (j, status) := InitNamespace(k, unshared);
      if status != Ok then j else EnsureRoot(j, made).0
    case MountOp(name, typeValid, typeSupported, device, made, host) =>
      Mount(k, name, typeValid, typeSupported, device, made, host).0
    case BindOp(device, made, host) => Bind(k, device, made, host).0
    case UnmountOp(name, detached) => Unmount(k, name, detached).0
  }

  function After(k: Ledger, events: seq<Event>): Ledger {
    if events == [] then k else Step(After(k, events[..|events| - 1]), events[|events| - 1])
  }

  // ------------------------------------------------------------------
  // Invariants
  // ------------------------------------------------------------------

  /** The places of the entries in use. */
  function Places(v: seq<Entry>): multiset<Text> {
    if v == [] then multiset{}
    else Places(v[..|v| - 1]) + if v[|v| - 1].inUse then multiset{v[|v| - 1].path} else multiset{}
  }

  /** Keys are distinct, and every entry in use stands for the place its key names. */
  predicate Entries(v: seq<Entry>, root: Text) {
    && (forall i, j :: 0 <= i < j < |v| && v[i].inUse && v[j].inUse ==> v[i].key != v[j].key)
    && (forall i :: 0 <= i < |v| && v[i].inUse ==> root != [] && v[i].path == Target(root, v[i].key))
  }

  predicate Inv(k: Ledger) {
    && |k.volumes| == MAX_DEVICES && Entries(k.volumes, k.viewRoot)
    && k.mounts == Places(k.volumes)
    && (k.failed ==> !k.ready) && (!k.ready ==> k.mounts == multiset{})
  }

  function Holds(e: Entry, p: Text): nat { if e.inUse && e.path == p then 1 else 0 }

  /** How many entries in use stand for p. */
  function Count(v: seq<Entry>, p: Text): nat {
    if v == [] then 0 else Count(v[..|v| - 1], p) + Holds(v[|v| - 1], p)
  }

  lemma {:induction false} PlacesCount(v: seq<Entry>, p: Text)
    ensures Places(v)[p] == Count(v, p)
  {
    if v != [] { PlacesCount(v[..|v| - 1], p); }
  }

  lemma {:induction false} UpdateCount(v: seq<Entry>, i: nat, e: Entry, p: Text)
    requires i < |v|
    ensures Count(v[i := e], p) + Holds(v[i], p) == Count(v, p) + Holds(e, p)
  {
    var n, w := |v| - 1, v[i := e];
    if i == n {
      assert w[..n] == v[..n];
    } else {
      UpdateCount(v[..n], i, e, p);
      assert w[..n] == v[..n][i := e];
    }
  }

  lemma UpdatePlaces(v: seq<Entry>, i: nat, e: Entry, p: Text)
    requires i < |v|
    ensures Places(v[i := e])[p] + Holds(v[i], p) == Places(v)[p] + Holds(e, p)
  {
    UpdateCount(v, i, e, p);
    PlacesCount(v, p);
    PlacesCount(v[i := e], p);
  }

  lemma PlaceAdded(v: seq<Entry>, i: nat, e: Entry)
    requires i < |v| && !v[i].inUse && e.inUse
    ensures Places(v[i := e]) == Places(v) + multiset{e.path}
  {
    forall p: Text ensures Places(v[i := e])[p] == (Places(v) + multiset{e.path})[p] {
      UpdatePlaces(v, i, e, p);
    }
  }

  lemma PlaceTaken(v: seq<Entry>, i: nat, e: Entry)
    requires i < |v| && v[i].inUse && !e.inUse
    ensures Places(v[i := e]) == Places(v) - multiset{v[i].path}
  {
    forall p: Text ensures Places(v[i := e])[p] == (Places(v) - multiset{v[i].path})[p] {
      UpdatePlaces(v, i, e, p);
    }
  }

  lemma TargetNamesKey(root: Text, a: Text, b: Text)
    requires Target(root, a) == Target(root, b)
    ensures a == b
  {
    assert a == Target(root, a)[|root| + 1..] && b == Target(root, b)[|root| + 1..];
  }

  /** No place is mounted twice. */
  lemma {:induction false} NeverStacked(v: seq<Entry>, root: Text, p: Text)
    requires Entries(v, root)
    ensures Places(v)[p] <= 1
    ensures p in Places(v) ==> exists i :: 0 <= i < |v| && v[i].inUse && v[i].path == p
  {
    if v != [] {
      var n := |v| - 1;
      var w := v[..n];
      assert forall i :: 0 <= i < n ==> w[i] == v[i];
      NeverStacked(w, root, p);
      if v[n].inUse && v[n].path == p && p in Places(w) {
        var i :| 0 <= i < n && w[i].inUse && w[i].path == p;
        TargetNamesKey(root, v[i].key, v[n].key);
      }
    }
  }

  // ------------------------------------------------------------------
  // Steps
  // ------------------------------------------------------------------

  lemma EnsureRootInv(k: Ledger, made: Option<Text>)
    requires Inv(k)
    ensures Inv(EnsureRoot(k, made).0) && EnsureRoot(k, made).0.ready == k.ready
    ensures EnsureRoot(k, made).1 ==> EnsureRoot(k, made).0.viewRoot != []
  {
  }

  lemma PlaceIsThere(k: Ledger, i: nat)
    requires Inv(k) && i < |k.volumes| && k.volumes[i].inUse
    ensures k.volumes[i].path != []
  {
    assert |Target(k.viewRoot, k.volumes[i].key)| > 0;
  }

  lemma EnterInv(k: Ledger, slot: nat, key: Text)
    requires Inv(k) && k.ready && k.viewRoot != [] && slot < |k.volumes| && !k.volumes[slot].inUse
    requires forall i :: 0 <= i < |k.volumes| && k.volumes[i].inUse ==> k.volumes[i].key != key
    ensures Inv(Enter(k, slot, key, Target(k.viewRoot, key)))
  {
    PlaceAdded(k.volumes, slot, Entry(true, key, Target(k.viewRoot, key)));
  }

  /** An entry in use always stands for a mount, so a repeat makes no second one. */
  lemma ViewInv(k: Ledger, key: Text, h: Host)
    requires Inv(k) && k.ready && k.viewRoot != []
    ensures Inv(View(k, key, h).0)
    ensures EntryFor(k.volumes, key).Some? ==> View(k, key, h).0 == k
  {
    var entry, slot := EntryFor(k.volumes, key), FreeEntry(k.volumes);
    if entry.Some? {
      PlaceIsThere(k, entry.value);
    } else if slot.Some? {
      EnterInv(k, slot.value, key);
    }
  }

  lemma LeaveInv(k: Ledger, slot: nat)
    requires Inv(k) && slot < |k.volumes| && k.volumes[slot].inUse
    ensures Inv(Leave(k, slot)) && k.volumes[slot].path in k.mounts
  {
    PlaceTaken(k.volumes, slot, Entry(false, k.volumes[slot].key, []));
    InUseIsPlaced(k.volumes, slot);
  }

  lemma {:induction false} InUseIsPlaced(v: seq<Entry>, i: nat)
    requires i < |v| && v[i].inUse
    ensures v[i].path in Places(v)
  {
    if i < |v| - 1 { InUseIsPlaced(v[..|v| - 1], i); }
  }

  /** A view granted is mounted, and making it disturbs no other place. */
  lemma ViewMakes(k: Ledger, key: Text, h: Host, p: Text)
    requires Inv(k) && k.ready && k.viewRoot != []
    ensures View(k, key, h).1 == Ok ==> Target(k.viewRoot, key) in View(k, key, h).0.mounts
    ensures p != Target(k.viewRoot, key) ==> View(k, key, h).0.mounts[p] == k.mounts[p]
  {
    var entry := EntryFor(k.volumes, key);
    if entry.Some? { InUseIsPlaced(k.volumes, entry.value); }
  }

  /** An unmount granted takes down that mount and no other. */
  lemma UnmountTakes(k: Ledger, name: Text, detached: bool, p: Text)
    requires Inv(k)
    ensures Unmount(k, Some(name), detached).1 == Ok ==> Target(k.viewRoot, name) in k.mounts
    ensures Unmount(k, Some(name), detached).1 == Ok ==>
              Target(k.viewRoot, name) !in Unmount(k, Some(name), detached).0.mounts
    ensures p != Target(k.viewRoot, name) ==> Unmount(k, Some(name), detached).0.mounts[p] == k.mounts[p]
  {
    var entry := EntryFor(k.volumes, name);
    if entry.Some? {
      InUseIsPlaced(k.volumes, entry.value);
      NeverStacked(k.volumes, k.viewRoot, Target(k.viewRoot, name));
    }
  }

  lemma MountInv(k: Ledger, e: Event)
    requires Inv(k) && e.MountOp?
    ensures Inv(Step(k, e))
  {
    EnsureRootInv(k, e.made);
    var (j, rooted) := EnsureRoot(k, e.made);
    if k.ready && rooted && e.name.Some? { ViewInv(j, e.name.value, e.host.(source := Ok)); }
  }

  lemma BindInv(k: Ledger, e: Event)
    requires Inv(k) && e.BindOp?
    ensures Inv(Step(k, e))
  {
    EnsureRootInv(k, e.bindMade);
    var (j, rooted) := EnsureRoot(k, e.bindMade);
    if k.ready && rooted && e.bindDevice.Some? {
      ViewInv(j, BindKey(e.bindDevice.value.0, e.bindDevice.value.1), e.bindHost);
    }
  }

  lemma UnmountInv(k: Ledger, name: Option<Text>, detached: bool)
    requires Inv(k)
    ensures Inv(Unmount(k, name, detached).0)
  {
    if name.Some? {
      var entry := EntryFor(k.volumes, name.value);
      if entry.Some? { LeaveInv(k, entry.value); }
    }
  }

  lemma InitInv(k: Ledger, unshared: bool)
    requires Inv(k)
    ensures Inv(InitNamespace(k, unshared).0) && Inv(StartNamespace(k, unshared))
    ensures k.failed ==> InitNamespace(k, unshared).0.failed && StartNamespace(k, unshared).failed
  {
  }

  lemma PrepareInv(k: Ledger, unshared: bool, made: Option<Text>)
    requires Inv(k)
    ensures Inv(Step(k, PrepareOp(unshared, made))) && (k.failed ==> Step(k, PrepareOp(unshared, made)).failed)
  {
    InitInv(k, unshared);
    EnsureRootInv(InitNamespace(k, unshared).0, made);
  }

  lemma StepInv(k: Ledger, e: Event)
    requires Inv(k)
    ensures Inv(Step(k, e)) && (k.failed ==> Step(k, e).failed)
  {
    FailedStays(k, e);
    match e
    case StartOp(unshared) => InitInv(k, unshared);
    case InitOp(unshared) => InitInv(k, unshared);
    case PrepareOp(unshared, made) => PrepareInv(k, unshared, made);
    case MountOp(_, _, _, _, _, _) => MountInv(k, e);
    case BindOp(_, _, _) => BindInv(k, e);
    case UnmountOp(name, detached) => UnmountInv(k, name, detached);
  }

  lemma FailedStays(k: Ledger, e: Event)
    ensures k.failed ==> Step(k, e).failed
  {
  }

  lemma {:induction false} RunInv(k: Ledger, events: seq<Event>)
    requires Inv(k)
    ensures Inv(After(k, events)) && (k.failed ==> After(k, events).failed)
  {
    if events != [] {
      RunInv(k, events[..|events| - 1]);
      StepInv(After(k, events[..|events| - 1]), events[|events| - 1]);
    }
  }

  lemma {:induction false} NoPlaces(v: seq<Entry>)
    requires forall i :: 0 <= i < |v| ==> !v[i].inUse
    ensures Places(v) == multiset{}
  {
    if v != [] { NoPlaces(v[..|v| - 1]); }
  }

  lemma EmptyInv()
    ensures Inv(EMPTY)
  {
    NoPlaces(EMPTY.volumes);
  }

  /** Over every run the entries in use are exactly the mounts made and not
      detached, each once, under distinct keys. */
  lemma LedgerExact(events: seq<Event>, p: Text)
    ensures Inv(After(EMPTY, events))
    ensures After(EMPTY, events).mounts[p] <= 1
    ensures p in After(EMPTY, events).mounts <==>
              exists i :: && 0 <= i < MAX_DEVICES && After(EMPTY, events).volumes[i].inUse
                          && After(EMPTY, events).volumes[i].path == p
  {
    EmptyInv();
    RunInv(EMPTY, events);
    var k := After(EMPTY, events);
    NeverStacked(k.volumes, k.viewRoot, p);
    if i :| 0 <= i < MAX_DEVICES && k.volumes[i].inUse && k.volumes[i].path == p {
      InUseIsPlaced(k.volumes, i);
    }
  }

  /** Once the one attempt at a namespace has failed, nothing is ever mounted. */
  lemma NothingAfterFailure(k: Ledger, events: seq<Event>)
    requires Inv(k) && k.failed
    ensures After(k, events).mounts == multiset{} && !After(k, events).ready
  {
    RunInv(k, events);
  }

  /** The entries from slot n on are free. */
  predicate FreeFrom(v: seq<Entry>, n: nat) {
    forall i :: n <= i < |v| ==> !v[i].inUse
  }

  /** Every entry in use has its place. */
  predicate Placed(v: seq<Entry>) {
    forall i :: 0 <= i < |v| && v[i].inUse ==> v[i].path != []
  }

  lemma TakeDownFrees(k: Ledger, i: nat)
    requires i < |k.volumes| && FreeFrom(k.volumes, i + 1) && Placed(k.volumes)
    ensures FreeFrom(TakeDown(k, i).volumes, i) && Placed(TakeDown(k, i).volumes)
  {
  }

  lemma {:induction false} ShutDownFrees(k: Ledger, n: nat)
    requires n <= |k.volumes| && FreeFrom(k.volumes, n) && Placed(k.volumes)
    ensures FreeFrom(ShutDown(k, n).volumes, 0)
    decreases n
  {
    if n > 0 {
      TakeDownFrees(k, n - 1);
      ShutDownFrees(TakeDown(k, n - 1), n - 1);
    }
  }

  ghost predicate Exact(k: Ledger) { k.mounts == Places(k.volumes) }

  lemma TakeDownExact(k: Ledger, i: nat)
    requires i < |k.volumes| && Exact(k)
    ensures Exact(TakeDown(k, i))
  {
    if k.volumes[i].inUse { PlaceTaken(k.volumes, i, Entry(false, k.volumes[i].key, [])); }
  }

  lemma ShutDownNext(k: Ledger, n: nat) returns (j: Ledger)
    requires 0 < n <= |k.volumes| && Exact(k)
    ensures |j.volumes| == |k.volumes| && Exact(j) && ShutDown(k, n) == ShutDown(j, n - 1)
  {
    j := TakeDown(k, n - 1);
    TakeDownExact(k, n - 1);
  }

  lemma {:induction false} ShutDownExact(k: Ledger, n: nat)
    requires n <= |k.volumes| && Exact(k)
    ensures Exact(ShutDown(k, n))
    decreases n
  {
    if n > 0 {
      var j := ShutDownNext(k, n);
      ShutDownExact(j, n - 1);
    }
  }

  lemma AllPlaced(k: Ledger)
    requires Inv(k)
    ensures Placed(k.volumes)
  {
    forall i | 0 <= i < |k.volumes| && k.volumes[i].inUse ensures k.volumes[i].path != [] {
      PlaceIsThere(k, i);
    }
  }

  /** Shutdown takes down every mount and leaves no entry in use. */
  lemma ShutDownEmpties(k: Ledger)
    requires Inv(k)
    ensures ShutDown(k, |k.volumes|).mounts == multiset{} && FreeFrom(ShutDown(k, |k.volumes|).volumes, 0)
  {
    AllPlaced(k);
    ShutDownFrees(k, |k.volumes|);
    ShutDownExact(k, |k.volumes|);
    NoPlaces(ShutDown(k, |k.volumes|).volumes);
  }
}
