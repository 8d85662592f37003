/** Every step of the broker keeps its invariants, so they hold over every run. */
module BrokerInvariants {
  import opened Bytes
  import opened MessageDesk
  import opened DeskInvariants
  import opened BrokerCore

  // ------------------------------------------------------------------
  // Counting claims and looking up tasks
  // ------------------------------------------------------------------

  lemma {:induction false} UpdateClaims(c: seq<Connection>, i: nat, x: Connection, k: int)
    requires i < |c|
    ensures Claims(c[i := x], k) + (if c[i].anchor == k then 1 else 0) == Claims(c, k) + if x.anchor == k then 1 else 0
    ensures Anchored(c[i := x]) + (if c[i].anchor >= 0 then 1 else 0) == Anchored(c) + if x.anchor >= 0 then 1 else 0
  {
    var n := |c| - 1;
    if i == n {
      assert c[i := x][..n] == c[..n];
    } else {
      UpdateClaims(c[..n], i, x, k);
      assert c[i := x][..n] == c[..n][i := x];
    }
  }

  lemma RemoveClaims(c: seq<Connection>, i: nat, k: int)
    requires i < |c|
    ensures Claims(Remove(c, i), k) == Claims(c, k) - if c[i].anchor == k then 1 else 0
    ensures Anchored(Remove(c, i)) == Anchored(c) - if c[i].anchor >= 0 then 1 else 0
  {
    var n := |c| - 1;
    if i < n { UpdateClaims(c[..n], i, c[n], k); }
  }

  lemma {:induction false} ClaimsPositive(c: seq<Connection>, k: int, i: nat)
    requires i < |c| && c[i].anchor == k
    ensures Claims(c, k) > 0 && (k >= 0 ==> Anchored(c) > 0)
  {
    var n := |c| - 1;
    if i < n { ClaimsPositive(c[..n], k, i); }
  }

  predicate Distinct(c: seq<Connection>) {
    forall i, j :: 0 <= i < j < |c| ==> c[i].fd != c[j].fd
  }

  lemma {:induction false} HeldLooksUp(c: seq<Connection>)
    requires Distinct(c)
    ensures Held(c).Keys == Fds(c)
    ensures forall i :: 0 <= i < |c| ==> c[i].fd in Held(c) && Held(c)[c[i].fd] == c[i].taskId
  {
    if c != [] {
      var n := |c| - 1;
      var p := c[..n];
      HeldLooksUp(p);
      assert forall i :: 0 <= i < n ==> p[i] == c[i];
      forall i | 0 <= i < |c| ensures c[i].fd in Held(c) && Held(c)[c[i].fd] == c[i].taskId {
        if i < n { assert p[i].fd in Held(p); }
      }
      assert Fds(c) == Fds(p) + {c[n].fd};
    }
  }

  /** Equal keys and equal look-ups make equal maps. */
  lemma HeldIs(c: seq<Connection>, m: map<int, nat>)
    requires Distinct(c) && m.Keys == Fds(c)
    requires forall i :: 0 <= i < |c| ==> c[i].fd in m && m[c[i].fd] == c[i].taskId
    ensures Held(c) == m
  {
    HeldLooksUp(c);
    forall fd | fd in m ensures Held(c)[fd] == m[fd] {
      var i :| 0 <= i < |c| && c[i].fd == fd;
      assert Held(c)[c[i].fd] == c[i].taskId;
    }
  }

  lemma HeldUpdate(c: seq<Connection>, i: nat, x: Connection)
    requires Distinct(c) && i < |c| && x.fd == c[i].fd
    ensures Distinct(c[i := x]) && Held(c[i := x]) == Held(c)[x.fd := x.taskId]
  {
    HeldLooksUp(c);
    var d := c[i := x];
    assert forall k :: 0 <= k < |c| ==> d[k].fd == c[k].fd;
    assert Fds(d) == Fds(c);
    HeldIs(d, Held(c)[x.fd := x.taskId]);
  }

  /** The slot of c that slot k of Remove(c, i) was filled from. */
  function Source(c: seq<Connection>, i: nat, k: nat): int {
    if k == i then |c| - 1 else k
  }

  lemma RemoveAt(c: seq<Connection>, i: nat)
    requires i < |c|
    ensures |Remove(c, i)| == |c| - 1
    ensures forall k :: 0 <= k < |c| - 1 ==> 0 <= Source(c, i, k) < |c| && Source(c, i, k) != i
    ensures forall k :: 0 <= k < |c| - 1 ==> Remove(c, i)[k] == c[Source(c, i, k)]
  {
  }

  lemma RemoveDistinct(c: seq<Connection>, i: nat)
    requires Distinct(c) && i < |c|
    ensures Distinct(Remove(c, i))
  {
    var d := Remove(c, i);
    forall j, k | 0 <= j < k < |d| ensures d[j].fd != d[k].fd {
      RemoveAt(c, i);
      var x, y := Source(c, i, j), Source(c, i, k);
      assert x != y;
      assert if x < y then c[x].fd != c[y].fd else c[y].fd != c[x].fd;
    }
  }

  lemma RemoveFds(c: seq<Connection>, i: nat)
    requires Distinct(c) && i < |c|
    ensures Fds(Remove(c, i)) == Fds(c) - {c[i].fd}
  {
    var d, n := Remove(c, i), |c| - 1;
    RemoveAt(c, i);
    forall fd | fd in Fds(d) ensures fd in Fds(c) - {c[i].fd} {
      var k :| 0 <= k < |d| && d[k].fd == fd;
      var x := Source(c, i, k);
      assert if x < i then c[x].fd != c[i].fd else c[i].fd != c[x].fd;
    }
    forall fd | fd in Fds(c) - {c[i].fd} ensures fd in Fds(d) {
      var k :| 0 <= k < |c| && c[k].fd == fd;
      assert d[if k == n then i else k].fd == fd;
    }
  }

  lemma HeldRemove(c: seq<Connection>, i: nat)
    requires Distinct(c) && i < |c|
    ensures Distinct(Remove(c, i)) && Held(Remove(c, i)) == Held(c) - {c[i].fd}
  {
    var d, m := Remove(c, i), Held(c) - {c[i].fd};
    HeldLooksUp(c);
    RemoveDistinct(c, i);
    RemoveFds(c, i);
    assert m.Keys == Fds(d);
    forall k | 0 <= k < |d| ensures d[k].fd in m && m[d[k].fd] == d[k].taskId {
      RemoveAt(c, i);
      assert d[k].fd in Fds(d);
      assert d[k] == c[Source(c, i, k)];
    }
    HeldIs(d, m);
  }

  // ------------------------------------------------------------------
  // Sessions
  // ------------------------------------------------------------------

  /** Every claimed session stays in its slot under its id. */
  predicate ClaimedStay(b: Broker, c: Broker) {
    |c.sessions| == |b.sessions|
    && forall k :: 0 <= k < |b.sessions| && b.sessions[k].anchors > 0 ==>
         c.sessions[k].inUse && c.sessions[k].id == b.sessions[k].id && c.sessions[k].anchors == b.sessions[k].anchors
  }

  /** The slot handed back is in use under the id asked for. */
  predicate Found(c: Broker, slot: Option<nat>, id: Text) {
    slot.Some? ==> slot.value < |c.sessions| && c.sessions[slot.value].inUse && c.sessions[slot.value].id == id
  }

  lemma TouchKeeps(b: Broker, slot: nat)
    requires SessionsInv(b.sessions, b.connections) && slot < |b.sessions|
    ensures SessionsInv(Touch(b, slot).sessions, b.connections) && ClaimedStay(b, Touch(b, slot))
  {
  }

  /** An unclaimed slot may be given to an id no session has. */
  lemma OpenKeeps(b: Broker, slot: nat, id: Text)
    requires SessionsInv(b.sessions, b.connections) && slot < |b.sessions| && b.sessions[slot].anchors == 0
    requires forall k :: 0 <= k < |b.sessions| && b.sessions[k].inUse ==> b.sessions[k].id != id
    ensures SessionsInv(Open(b, slot, id).sessions, b.connections) && ClaimedStay(b, Open(b, slot, id))
  {
  }

  /** A claimed session is never given away. */
  lemma GetSessionKeeps(b: Broker, id: Text)
    requires SessionsInv(b.sessions, b.connections)
    ensures SessionsInv(GetSession(b, id).0.sessions, b.connections)
    ensures GetSession(b, id).0 == b.(sessions := GetSession(b, id).0.sessions, clock := GetSession(b, id).0.clock)
    ensures ClaimedStay(b, GetSession(b, id).0) && Found(GetSession(b, id).0, GetSession(b, id).1, id)
  {
    var found, slot := FindSession(b.sessions, id), Vacancy(b.sessions);
    if found.Some? {
      TouchKeeps(b, found.value);
    } else if slot.Some? && |id| < MAX_SESSION_ID {
      OpenKeeps(b, slot.value, id);
    }
  }

  /** A request fails for want of a session exactly when the id is too long, or
      every slot is claimed and none has that id. */
  lemma GetSessionFails(b: Broker, id: Text)
    ensures GetSession(b, id).1.None? <==>
              && (forall k :: 0 <= k < |b.sessions| ==> !(b.sessions[k].inUse && b.sessions[k].id == id))
              && (|id| >= MAX_SESSION_ID
                  || forall k :: 0 <= k < |b.sessions| ==> b.sessions[k].inUse && b.sessions[k].anchors > 0)
  {
    var found := FindSession(b.sessions, id);
    var free := First(b.sessions, (x: Session) => !x.inUse);
    if found.Some? {
      assert b.sessions[found.value].inUse && b.sessions[found.value].id == id;
    } else {
      assert forall k :: 0 <= k < |b.sessions| ==> !(b.sessions[k].inUse && b.sessions[k].id == id);
      if free.Some? { assert !b.sessions[free.value].inUse; }
    }
  }

  lemma ClaimSessions(c: seq<Connection>, s: seq<Session>, i: nat, slot: nat, x: Connection, y: Session)
    requires SessionsInv(s, c) && i < |c| && slot < |s| && c[i].anchor < 0 && s[slot].inUse
    requires x.anchor == slot && y == s[slot].(anchors := s[slot].anchors + 1)
    ensures SessionsInv(s[slot := y], c[i := x])
  {
    var t, d := s[slot := y], c[i := x];
    forall k | 0 <= k < |t| ensures t[k].anchors == Claims(d, k) {
      UpdateClaims(c, i, x, k);
    }
  }

  lemma ClaimRoot(b: Broker, i: nat, slot: nat)
    requires RootInv(b) && i < |b.connections| && slot < |b.sessions|
    requires b.connections[i].anchor < 0 && (b.root ==> b.fmm)
    ensures RootInv(Claim(b, i, slot))
  {
    UpdateClaims(b.connections, i, b.connections[i].(anchor := slot), slot);
  }

  /** A connection that keeps its descriptor and task keeps what is held. */
  lemma SameHeld(c: seq<Connection>, i: nat, x: Connection)
    requires Distinct(c) && i < |c| && x.fd == c[i].fd && x.taskId == c[i].taskId
    ensures Held(c[i := x]) == Held(c)
  {
    HeldLooksUp(c);
    HeldUpdate(c, i, x);
    assert Held(c)[x.fd := x.taskId] == Held(c);
  }

  lemma ClaimInv(b: Broker, i: nat, slot: nat)
    requires BrokerInv(b) && i < |b.connections| && slot < |b.sessions|
    requires b.connections[i].anchor < 0 && b.sessions[slot].inUse && (b.root ==> b.fmm)
    ensures BrokerInv(Claim(b, i, slot))
  {
    var x, y := b.connections[i].(anchor := slot), b.sessions[slot].(anchors := b.sessions[slot].anchors + 1);
    ClaimSessions(b.connections, b.sessions, i, slot, x, y);
    ClaimRoot(b, i, slot);
    SameHeld(b.connections, i, x);
  }

  // ------------------------------------------------------------------
  // Requests
  // ------------------------------------------------------------------

  lemma PrivilegedInv(b: Broker, a: Attempt)
    requires BrokerInv(b)
    ensures BrokerInv(Privileged(b, a))
  {
    var c := Privileged(b, a);
    assert c == b.(fmm := c.fmm, crm := c.crm);
    assert RootInv(c);
  }

  lemma {:induction false} PrivilegedAllInv(b: Broker, attempts: seq<Attempt>)
    requires BrokerInv(b)
    ensures BrokerInv(PrivilegedAll(b, attempts)) && PrivilegedAll(b, attempts).connections == b.connections
  {
    if attempts != [] {
      PrivilegedAllInv(b, attempts[..|attempts| - 1]);
      PrivilegedInv(PrivilegedAll(b, attempts[..|attempts| - 1]), attempts[|attempts| - 1]);
    }
  }

  /** Changing a connection's task or channel id leaves the claims alone. */
  lemma SameClaims(b: Broker, i: nat, x: Connection, desk: Desk)
    requires BrokerInv(b) && i < |b.connections| && x.fd == b.connections[i].fd && x.anchor == b.connections[i].anchor
    requires Inv(desk, Held(b.connections)[x.fd := x.taskId])
    ensures BrokerInv(b.(desk := desk, connections := b.connections[i := x]))
  {
    var d := b.connections[i := x];
    forall k: int ensures Claims(d, k) == Claims(b.connections, k) && Anchored(d) == Anchored(b.connections) {
      UpdateClaims(b.connections, i, x, k);
    }
    HeldUpdate(b.connections, i, x);
    assert SessionsInv(b.sessions, d);
    assert Anchored(d) == Anchored(b.connections) by { UpdateClaims(b.connections, i, x, 0); }
  }

  lemma TaskAttachInv(b: Broker, i: nat, name: Text, pid: Option<int>)
    requires BrokerInv(b) && i < |b.connections| && b.connections[i].taskId == 0
    ensures var (desk, id) := AttachTask(b.desk, b.connections[i].fd, name, pid);
            BrokerInv(b.(desk := desk, connections := b.connections[i := b.connections[i].(taskId := id)]))
  {
    var c := b.connections[i];
    HeldLooksUp(b.connections);
    AttachTaskInv(b.desk, Held(b.connections), c.fd, name, pid);
    var (desk, id) := AttachTask(b.desk, c.fd, name, pid);
    SameClaims(b, i, c.(taskId := id), desk);
  }

  lemma PortAttachInv(b: Broker, i: nat, pid: Option<int>)
    requires BrokerInv(b) && i < |b.connections|
    ensures var (desk, id) := AttachChannel(b.desk, b.connections[i].fd, pid);
            BrokerInv(b.(desk := desk, connections := b.connections[i := b.connections[i].(channelId := id)]))
  {
    var c := b.connections[i];
    HeldLooksUp(b.connections);
    AttachChannelInv(b.desk, Held(b.connections), c.fd, pid);
    var (desk, id) := AttachChannel(b.desk, c.fd, pid);
    assert Held(b.connections)[c.fd := c.taskId] == Held(b.connections);
    SameClaims(b, i, c.(channelId := id), desk);
  }

  lemma AttachInv(b: Broker, i: nat, slot: nat, started: bool, prepared: bool)
    requires BrokerInv(b) && i < |b.connections| && slot < |b.sessions| && b.sessions[slot].inUse
    ensures BrokerInv(Apply(b, i, slot, Attach(started, prepared)))
  {
    if b.connections[i].anchor < 0 {
      var (s, ok) := if b.root && b.rootShells == 0 then StartServices(b, started, prepared) else (b, true);
      assert s == b.(fmm := s.fmm);
      assert BrokerInv(s);
      if ok { ClaimInv(s, i, slot); }
    }
  }

  lemma CloneInv(b: Broker, i: nat, slot: nat, child: Text)
    requires BrokerInv(b) && i < |b.connections| && slot < |b.sessions|
    ensures BrokerInv(Apply(b, i, slot, CloneSession(child)))
  {
    var existing := FindSession(b.sessions, child);
    if existing.Some? { TouchKeeps(b, existing.value); }
    GetSessionKeeps(b, child);
  }

  /** A request that changes the desk alone. */
  lemma DeskChanged(b: Broker, k: Desk)
    requires BrokerInv(b) && Inv(k, Held(b.connections))
    ensures BrokerInv(b.(desk := k))
  {
  }

  lemma PortAddInv(b: Broker, i: nat, slot: nat, name: Text, pid: Option<int>)
    requires BrokerInv(b) && i < |b.connections| && slot < |b.sessions|
    ensures BrokerInv(Apply(b, i, slot, PortAdd(name, pid)))
  {
    HeldLooksUp(b.connections);
    AddPortInv(b.desk, Held(b.connections), b.connections[i].fd, name, pid);
    DeskChanged(b, AddPort(b.desk, b.connections[i].fd, name, pid).0);
  }

  lemma PortRemInv(b: Broker, i: nat, slot: nat, id: Option<nat>)
    requires BrokerInv(b) && i < |b.connections| && slot < |b.sessions|
    ensures BrokerInv(Apply(b, i, slot, PortRem(id)))
  {
    RemovePortInv(b.desk, Held(b.connections), id);
    DeskChanged(b, RemovePort(b.desk, id).0);
  }

  lemma PortPutInv(b: Broker, i: nat, slot: nat, name: Text, sender: int, pushed: bool)
    requires BrokerInv(b) && i < |b.connections| && slot < |b.sessions|
    ensures BrokerInv(Apply(b, i, slot, PortPut(name, sender, pushed)))
  {
    PutInv(b.desk, Held(b.connections), name, sender, pushed);
    DeskChanged(b, Put(b.desk, name, sender, pushed).0);
  }

  lemma PortReplyInv(b: Broker, i: nat, slot: nat, id: Option<nat>, replier: int)
    requires BrokerInv(b) && i < |b.connections| && slot < |b.sessions|
    ensures BrokerInv(Apply(b, i, slot, PortReply(id, replier)))
  {
    ReplyInv(b.desk, Held(b.connections), id, replier);
    DeskChanged(b, Reply(b.desk, id, replier).0);
  }

  lemma ApplyInv(b: Broker, i: nat, slot: nat, request: Request)
    requires BrokerInv(b) && i < |b.connections| && slot < |b.sessions| && b.sessions[slot].inUse
    ensures BrokerInv(Apply(b, i, slot, request))
  {
    match request
    case Attach(started, prepared) => AttachInv(b, i, slot, started, prepared);
    case TaskAttach(name, pid) => if b.connections[i].taskId == 0 { TaskAttachInv(b, i, name, pid); }
    case PortAttach(pid) => if b.connections[i].channelId == 0 { PortAttachInv(b, i, pid); }
    case PortAdd(name, pid) => PortAddInv(b, i, slot, name, pid);
    case PortRem(id) => PortRemInv(b, i, slot, id);
    case PortPut(name, sender, pushed) => PortPutInv(b, i, slot, name, sender, pushed);
    case PortReply(id, replier) => PortReplyInv(b, i, slot, id, replier);
    case CloneSession(child) => CloneInv(b, i, slot, child);
    case PrivOps(attempts) => PrivilegedAllInv(b, attempts);
    case Unrelated =>
  }

  // ------------------------------------------------------------------
  // Connections
  // ------------------------------------------------------------------

  lemma JoinConnections(c: seq<Connection>, fd: int)
    requires ConnectionsInv(c) && |c| < MAX_CONNECTIONS && fd !in Fds(c)
    ensures ConnectionsInv(c + [Connection(fd, -1, 0, 0)])
  {
    var d := c + [Connection(fd, -1, 0, 0)];
    forall i, j | 0 <= i < j < |d| ensures d[i].fd != d[j].fd {
      assert c[i].fd in Fds(c);
    }
  }

  /** A new connection claims nothing and has no task. */
  lemma JoinCounts(c: seq<Connection>, x: Connection)
    requires x.anchor == -1 && x.taskId == 0
    ensures forall k :: k >= 0 ==> Claims(c + [x], k) == Claims(c, k)
    ensures Anchored(c + [x]) == Anchored(c) && Held(c + [x]) == Held(c)[x.fd := 0]
  {
    assert (c + [x])[..|c|] == c;
  }

  lemma JoinSessions(s: seq<Session>, c: seq<Connection>, d: seq<Connection>)
    requires SessionsInv(s, c) && forall k :: k >= 0 ==> Claims(d, k) == Claims(c, k)
    ensures SessionsInv(s, d)
  {
  }

  lemma AcceptedInv(b: Broker, fd: int)
    requires BrokerInv(b) && fd !in Fds(b.connections)
    ensures BrokerInv(Accept(b, fd))
  {
    if |b.connections| < MAX_CONNECTIONS {
      var x := Connection(fd, -1, 0, 0);
      JoinConnections(b.connections, fd);
      JoinCounts(b.connections, x);
      JoinSessions(b.sessions, b.connections, b.connections + [x]);
      HeldLooksUp(b.connections);
      AcceptInv(b.desk, Held(b.connections), fd);
    }
  }

  lemma DropInv(b: Broker, i: nat)
    requires BrokerInv(b) && i < |b.connections|
    ensures BrokerInv(Drop(b, i))
  {
    DropDesk(b, i);
    DropSessions(b, i);
    DropRoot(b, i);
    DropConnections(b.connections, i);
  }

  lemma DropConnections(c: seq<Connection>, i: nat)
    requires ConnectionsInv(c) && i < |c|
    ensures ConnectionsInv(Remove(c, i))
  {
    RemoveAt(c, i);
    RemoveDistinct(c, i);
  }

  lemma DropDesk(b: Broker, i: nat)
    requires BrokerInv(b) && i < |b.connections|
    ensures Inv(Drop(b, i).desk, Held(Remove(b.connections, i)))
  {
    var fd := b.connections[i].fd;
    HeldLooksUp(b.connections);
    DisconnectInv(b.desk, Held(b.connections), fd);
    HeldRemove(b.connections, i);
    assert Drop(b, i).desk == Disconnect(b.desk, fd, b.connections[i].taskId);
  }

  lemma DropSessions(b: Broker, i: nat)
    requires ConnectionsInv(b.connections) && SessionsInv(b.sessions, b.connections) && i < |b.connections|
    ensures SessionsInv(Drop(b, i).sessions, Remove(b.connections, i))
  {
    var a := b.connections[i].anchor;
    forall k: int ensures Claims(Remove(b.connections, i), k) == Claims(b.connections, k) - if a == k then 1 else 0 {
      RemoveClaims(b.connections, i, k);
    }
    if a >= 0 {
      ClaimsPositive(b.connections, a, i);
      ReleaseKeeps(b.sessions, b.connections, Remove(b.connections, i), a);
    }
  }

  /** One claim fewer: the slot counts down, and the last claim frees it. */
  lemma ReleaseKeeps(s: seq<Session>, c: seq<Connection>, d: seq<Connection>, a: nat)
    requires SessionsInv(s, c) && a < |s| && s[a].anchors > 0
    requires forall k: int :: Claims(d, k) == Claims(c, k) - if a == k then 1 else 0
    ensures SessionsInv(Release(s, a), d)
  {
  }

  lemma DropRoot(b: Broker, i: nat)
    requires RootInv(b) && i < |b.connections|
    ensures RootInv(Drop(b, i))
  {
    var a := b.connections[i].anchor;
    if a >= 0 { ClaimsPositive(b.connections, a, i); }
    RemoveClaims(b.connections, i, 0);
  }

  // ------------------------------------------------------------------
  // Steps and runs
  // ------------------------------------------------------------------

  lemma InitialInv(root: bool)
    ensures BrokerInv(Initial(root))
  {
    EmptyInv();
  }

  lemma FoundInv(b: Broker, session: Text)
    requires BrokerInv(b)
    ensures BrokerInv(GetSession(b, session).0) && Found(GetSession(b, session).0, GetSession(b, session).1, session)
    ensures GetSession(b, session).0.connections == b.connections
  {
    GetSessionKeeps(b, session);
  }

  lemma AppliedInv(b: Broker, i: nat, slot: nat, request: Request, answered: bool)
    requires BrokerInv(b) && i < |b.connections| && slot < |b.sessions| && b.sessions[slot].inUse
    ensures var d := Apply(b, i, slot, request);
            BrokerInv(if answered || i >= |d.connections| then d else Drop(d, i))
  {
    ApplyInv(b, i, slot, request);
    var d := Apply(b, i, slot, request);
    if !answered && i < |d.connections| { DropInv(d, i); }
  }

  lemma ServeInv(b: Broker, i: nat, session: Text, request: Request, answered: bool)
    requires BrokerInv(b) && i < |b.connections|
    ensures BrokerInv(Serve(b, i, session, request, answered))
  {
    FoundInv(b, session);
    var (c, slot) := GetSession(b, session);
    if slot.Some? {
      AppliedInv(c, i, slot.value, request, answered);
    }
  }

  lemma NextInv(b: Broker, e: Event)
    requires BrokerInv(b) && Enabled(b, e)
    ensures BrokerInv(Next(b, e))
  {
    match e
    case Accepted(fd) => AcceptedInv(b, fd);
    case Served(i, session, request, answered) => ServeInv(b, i, session, request, answered);
    case Closed(i) => DropInv(b, i);
  }

  lemma {:induction false} AfterInv(b: Broker, events: seq<Event>)
    requires BrokerInv(b) && Possible(b, events)
    ensures BrokerInv(After(b, events))
  {
    if events != [] {
      var n := |events| - 1;
      AfterInv(b, events[..n]);
      NextInv(After(b, events[..n]), events[n]);
    }
  }

  /** The invariants hold in every state every run can reach. */
  lemma RunInv(root: bool, events: seq<Event>)
    requires Possible(Initial(root), events)
    ensures BrokerInv(After(Initial(root), events))
  {
    InitialInv(root);
    AfterInv(Initial(root), events);
  }
}
