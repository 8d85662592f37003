/** The broker as a step machine: connections come, make requests and go, in any
    interleaving; sessions are claimed and released; in root mode the privileged
    services live as long as some shell is attached. */
module BrokerCore {
  import opened Bytes
  import opened MessageDesk

  const MAX_SESSIONS := 64
  const MAX_CONNECTIONS := 256
  const MAX_SESSION_ID := 128

  datatype Session = Session(inUse: bool, lastUsed: nat, anchors: nat, id: Text)
  /** anchor: the session claimed with ATTACH, or -1; taskId and channelId: 0 for none. */
  datatype Connection = Connection(fd: int, anchor: int, taskId: nat, channelId: nat)

  const NO_SESSION := Session(false, 0, 0, [])

  /** idle: the idle deadline is armed.  fmm, crm: the handle is live. */
  datatype Broker = Broker(root: bool, sessions: seq<Session>, clock: nat, connections: seq<Connection>, desk: Desk,
                           rootShells: nat, fmm: bool, crm: bool, idle: bool)

  function Initial(root: bool): Broker {
    Broker(root, seq(MAX_SESSIONS, _ => NO_SESSION), 0, [], EMPTY_DESK, 0, false, false, true)
  }

  // ------------------------------------------------------------------
  // Sessions
  // ------------------------------------------------------------------

  /** The session nobody claimed that was used longest ago; the first of equals. */
  function Coldest(s: seq<Session>): (r: Option<nat>)
    ensures r.Some? ==> r.value < |s| && s[r.value].inUse && s[r.value].anchors == 0
    ensures r.Some? ==> forall k :: 0 <= k < |s| && s[k].inUse && s[k].anchors == 0 ==>
              s[r.value].lastUsed <= s[k].lastUsed
    ensures r.None? ==> forall k :: 0 <= k < |s| && s[k].inUse ==> s[k].anchors > 0
  {
    if s == [] then None
    else
      var n := |s| - 1;
      var c := Coldest(s[..n]);
      assert forall k :: 0 <= k < n ==> s[..n][k] == s[k];
      if s[n].inUse && s[n].anchors == 0 && (c.None? || s[n].lastUsed < s[c.value].lastUsed) then Some(n) else c
  }

  function FindSession(s: seq<Session>, id: Text): Option<nat> {
    First(s, (x: Session) => x.inUse && x.id == id)
  }

  /** Where a new session goes: a free slot, else the coldest unclaimed one. */
  function Vacancy(s: seq<Session>): (r: Option<nat>)
    ensures r.Some? ==> r.value < |s| && (!s[r.value].inUse || s[r.value].anchors == 0)
  {
    var free := First(s, (x: Session) => !x.inUse);
    if free.Some? then free else Coldest(s)
  }

  function Touch(b: Broker, slot: nat): Broker
    requires slot < |b.sessions|
  {
    b.(sessions := b.sessions[slot := b.sessions[slot].(lastUsed := b.clock + 1)], clock := b.clock + 1)
  }

  function Open(b: Broker, slot: nat, id: Text): Broker
    requires slot < |b.sessions|
  {
    b.(sessions := b.sessions[slot := Session(true, b.clock + 1, 0, id)], clock := b.clock + 1)
  }

  /** get_session(): find, or create in a free slot, or take over the coldest unclaimed one. */
  function GetSession(b: Broker, id: Text): (r: (Broker, Option<nat>)) {
    var found, slot := FindSession(b.sessions, id), Vacancy(b.sessions);
    if found.Some? then (Touch(b, found.value), found)
    else if slot.None? || |id| >= MAX_SESSION_ID then (b, None)
    else (Open(b, slot.value, id), slot)
  }

  // ------------------------------------------------------------------
  // Privileged services
  // ------------------------------------------------------------------

  /** start_root_services(); started and prepared say what the host answers. */
  function StartServices(b: Broker, started: bool, prepared: bool): (r: (Broker, bool)) {
    if !b.root || b.fmm then (b, true)
    else if started && prepared then (b.(fmm := true), true)
    else (b, false)
  }

  function StopServices(b: Broker): Broker { b.(fmm := false, crm := false) }

  /** What the host answers to one privileged operation. */
  datatype Attempt = Attempt(started: bool, prepared: bool, spawned: bool, channelOk: bool)

  /** perform_privileged_operation(): build the access worker if it is missing,
      and drop it when its channel fails. */
  function Privileged(b: Broker, a: Attempt): Broker {
    if b.crm then b.(crm := a.channelOk)
    else if !b.root then b
    else
      var (c, ok) := StartServices(b, a.started, a.prepared);
      if !ok then c else c.(crm := a.spawned && a.channelOk)
  }

  /** One privileged operation after another. */
  function PrivilegedAll(b: Broker, attempts: seq<Attempt>): Broker {
    if attempts == [] then b else Privileged(PrivilegedAll(b, attempts[..|attempts| - 1]), attempts[|attempts| - 1])
  }

  // ------------------------------------------------------------------
  // Connections
  // ------------------------------------------------------------------

  /** connections[i] = connections[--connection_count]. */
  function Remove(c: seq<Connection>, i: nat): seq<Connection>
    requires i < |c|
  {
    var n := |c| - 1;
    if i == n then c[..n] else c[..n][i := c[n]]
  }

  /** Giving back a claim: the last one frees the session. */
  function Release(s: seq<Session>, anchor: int): seq<Session> {
    if !(0 <= anchor < |s|) || s[anchor].anchors == 0 then s
    else if s[anchor].anchors == 1 then s[anchor := NO_SESSION]
    else s[anchor := s[anchor].(anchors := s[anchor].anchors - 1)]
  }

  /** One root shell fewer: the last one takes the privileged services with it. */
  function Leave(b: Broker): Broker {
    if !b.root || b.rootShells == 0 then b
    else if b.rootShells == 1 then StopServices(b.(rootShells := 0))
    else b.(rootShells := b.rootShells - 1)
  }

  /** drop_connection(). */
  function Drop(b: Broker, i: nat): Broker
    requires i < |b.connections|
  {
    var c := b.connections[i];
    var d := if c.anchor < 0 then b else Leave(b);
    d.(desk := Disconnect(b.desk, c.fd, c.taskId), sessions := Release(b.sessions, c.anchor),
       connections := Remove(b.connections, i), idle := |b.connections| == 1)
  }

  /** accept_connection(): a full table turns the newcomer away. */
  function Accept(b: Broker, fd: int): Broker {
    if |b.connections| == MAX_CONNECTIONS then b
    else b.(connections := b.connections + [Connection(fd, -1, 0, 0)], idle := false)
  }

  // ------------------------------------------------------------------
  // Requests
  // ------------------------------------------------------------------

  /** PrivOps: PRIVOP makes one privileged operation, SETCWD at most one, GETCWD one
      for each ancestor it has to try. */
  datatype Request =
    | Attach(started: bool, prepared: bool)
    | TaskAttach(taskName: Text, taskPid: Option<int>)
    | PortAttach(channelPid: Option<int>)
    | PortAdd(portName: Text, portPid: Option<int>)
    | PortRem(portId: Option<nat>)
    | PortPut(name: Text, sender: int, pushed: bool)
    | PortReply(messageId: Option<nat>, replier: int)
    | CloneSession(child: Text)
    | PrivOps(attempts: seq<Attempt>)
    | Unrelated

  /** One request on connection i, using session slot. */
  function Apply(b: Broker, i: nat, slot: nat, request: Request): Broker
    requires i < |b.connections| && slot < |b.sessions|
  {
    var c := b.connections[i];
    match request
    case Attach(started, prepared) =>
      if c.anchor >= 0 then b
      else
        var (s, ok) := if b.root && b.rootShells == 0 then StartServices(b, started, prepared) else (b, true);
        if !ok then s else Claim(s, i, slot)
    case TaskAttach(name, pid) =>
      if c.taskId != 0 then b
      else
        var (desk, id) := AttachTask(b.desk, c.fd, name, pid);
        b.(desk := desk, connections := b.connections[i := c.(taskId := id)])
    case PortAttach(pid) =>
      if c.channelId != 0 then b
      else
        var (desk, id) := AttachChannel(b.desk, c.fd, pid);
        b.(desk := desk, connections := b.connections[i := c.(channelId := id)])
    case PortAdd(name, pid) => b.(desk := AddPort(b.desk, c.fd, name, pid).0)
    case PortRem(id) => b.(desk := RemovePort(b.desk, id).0)
    case PortPut(name, sender, pushed) => b.(desk := Put(b.desk, name, sender, pushed).0)
    case PortReply(id, replier) => b.(desk := Reply(b.desk, id, replier).0)
    case CloneSession(child) =>
      if child == [] || |child| >= MAX_SESSION_ID || child == b.sessions[slot].id then b
      else
        var existing := FindSession(b.sessions, child);
        if existing.Some? then Touch(b, existing.value) else GetSession(b, child).0
    case PrivOps(attempts) => PrivilegedAll(b, attempts)
    case Unrelated => b
  }

  /** The claim ATTACH makes. */
  function Claim(b: Broker, i: nat, slot: nat): Broker
    requires i < |b.connections| && slot < |b.sessions|
  {
    b.(sessions := b.sessions[slot := b.sessions[slot].(anchors := b.sessions[slot].anchors + 1)],
       connections := b.connections[i := b.connections[i].(anchor := slot)],
       rootShells := if b.root then b.rootShells + 1 else b.rootShells)
  }

  /** handle_client() and what the poll loop does with its outcome: a response
      that cannot be written drops the connection. */
  function Serve(b: Broker, i: nat, session: Text, request: Request, answered: bool): Broker
    requires i < |b.connections|
  {
    var (c, slot) := GetSession(b, session);
    if slot.None? || slot.value >= |c.sessions| then c
    else
      var d := Apply(c, i, slot.value, request);
      if answered || i >= |d.connections| then d else Drop(d, i)
  }

  // ------------------------------------------------------------------
  // Steps and runs
  // ------------------------------------------------------------------

  datatype Event =
    | Accepted(fd: int)
    | Served(i: nat, session: Text, request: Request, answered: bool)
    | Closed(i: nat)

  function Fds(c: seq<Connection>): set<int> { set i | 0 <= i < |c| :: c[i].fd }

  /** The kernel hands out descriptors that are not open; only open connections speak. */
  predicate Enabled(b: Broker, e: Event) {
    match e
    case Accepted(fd) => fd !in Fds(b.connections)
    case Served(i, _, _, _) => i < |b.connections|
    case Closed(i) => i < |b.connections|
  }

  function Next(b: Broker, e: Event): Broker
    requires Enabled(b, e)
  {
    match e
    case Accepted(fd) => Accept(b, fd)
    case Served(i, session, request, answered) => Serve(b, i, session, request, answered)
    case Closed(i) => Drop(b, i)
  }

  /** A run: events that can follow one another from b. */
  predicate Possible(b: Broker, events: seq<Event>)
    decreases events, 0
  {
    events == []
    || (Possible(b, events[..|events| - 1]) && Enabled(After(b, events[..|events| - 1]), events[|events| - 1]))
  }

  /** The state a run ends in. */
  function After(b: Broker, events: seq<Event>): Broker
    requires Possible(b, events)
    decreases events, 1
  {
    if events == [] then b else Next(After(b, events[..|events| - 1]), events[|events| - 1])
  }

  // ------------------------------------------------------------------
  // Invariants
  // ------------------------------------------------------------------

  /** Open connections and the task each holds. */
  function Held(c: seq<Connection>): map<int, nat> {
    if c == [] then map[] else Held(c[..|c| - 1])[c[|c| - 1].fd := c[|c| - 1].taskId]
  }

  /** How many connections claim session k. */
  function Claims(c: seq<Connection>, k: int): nat {
    if c == [] then 0 else Claims(c[..|c| - 1], k) + if c[|c| - 1].anchor == k then 1 else 0
  }

  /** How many connections claim any session. */
  function Anchored(c: seq<Connection>): nat {
    if c == [] then 0 else Anchored(c[..|c| - 1]) + if c[|c| - 1].anchor >= 0 then 1 else 0
  }

  predicate ConnectionsInv(c: seq<Connection>) {
    && |c| <= MAX_CONNECTIONS
    && (forall i, j :: 0 <= i < j < |c| ==> c[i].fd != c[j].fd)
    && (forall i :: 0 <= i < |c| ==> -1 <= c[i].anchor < MAX_SESSIONS)
  }

  /** A session has as many anchors as connections claim it; a claimed session is
      in use; ids are unique. */
  predicate SessionsInv(s: seq<Session>, c: seq<Connection>) {
    && |s| == MAX_SESSIONS
    && (forall k :: 0 <= k < |s| ==> s[k].anchors == Claims(c, k))
    && (forall k :: 0 <= k < |s| && !s[k].inUse ==> s[k].anchors == 0)
    && (forall j, k :: 0 <= j < k < |s| && s[j].inUse && s[k].inUse ==> s[j].id != s[k].id)
  }

  /** Attached root shells keep the privileged side alive, and the access worker
      never outlives the mount mediator. */
  predicate RootInv(b: Broker) {
    && b.rootShells == (if b.root then Anchored(b.connections) else 0)
    && (b.rootShells > 0 ==> b.fmm)
    && (b.crm ==> b.fmm)
    && (b.fmm ==> b.root)
  }

  ghost predicate BrokerInv(b: Broker) {
    && ConnectionsInv(b.connections) && SessionsInv(b.sessions, b.connections) && RootInv(b)
    && (b.idle <==> b.connections == [])
    && Inv(b.desk, Held(b.connections))
  }
}
