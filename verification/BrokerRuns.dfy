/** What the invariants mean over whole runs: how long a claimed session lives,
    how each message ends, and which connection a poll result belongs to. */
module BrokerRuns {
  import opened Bytes
  import opened MessageDesk
  import opened DeskInvariants
  import opened BrokerCore
  import opened BrokerInvariants

  // ------------------------------------------------------------------
  // Which connection a step drops
  // ------------------------------------------------------------------

  /** The broker just before a step drops its connection, or after the step if it drops none. */
  function BeforeDrop(b: Broker, e: Event): Broker
    requires Enabled(b, e)
  {
    match e
    case Accepted(fd) => Accept(b, fd)
    case Served(i, session, request, _) => Serve(b, i, session, request, true)
    case Closed(_) => b
  }

  /** Does this step drop a connection?  A request turned away for want of a
      session does not. */
  predicate Drops(b: Broker, e: Event) {
    e.Closed? || (e.Served? && !e.answered && GetSession(b, e.session).1.Some?)
  }

  function Index(e: Event): nat
    requires e.Served? || e.Closed?
  {
    e.i
  }

  /** Privileged operations touch the two handles only. */
  lemma {:induction false} PrivilegedFrame(b: Broker, attempts: seq<Attempt>)
    ensures PrivilegedAll(b, attempts) == b.(fmm := PrivilegedAll(b, attempts).fmm,
                                             crm := PrivilegedAll(b, attempts).crm)
  {
    if attempts != [] { PrivilegedFrame(b, attempts[..|attempts| - 1]); }
  }

  /** Finding a session touches the session table only. */
  lemma GetSessionFrame(b: Broker, id: Text)
    ensures GetSession(b, id).0.connections == b.connections && GetSession(b, id).0.desk == b.desk
    ensures GetSession(b, id).1.Some? ==> GetSession(b, id).1.value < |GetSession(b, id).0.sessions|
  {
  }

  /** d is c with at most connection i's ids changed. */
  predicate SameConnections(c: seq<Connection>, d: seq<Connection>, i: nat) {
    && |d| == |c| && (forall k :: 0 <= k < |c| ==> d[k].fd == c[k].fd)
    && forall k :: 0 <= k < |c| && k != i ==> d[k] == c[k]
  }

  /** No request adds, drops or moves a connection. */
  lemma ApplyConnections(b: Broker, i: nat, slot: nat, request: Request)
    requires i < |b.connections| && slot < |b.sessions|
    ensures SameConnections(b.connections, Apply(b, i, slot, request).connections, i)
  {
    if request.CloneSession? { GetSessionFrame(b, request.child); }
    if request.PrivOps? { PrivilegedFrame(b, request.attempts); }
  }

  /** Nor does serving one, but for dropping the connection itself. */
  lemma ServeConnections(b: Broker, i: nat, session: Text, request: Request)
    requires i < |b.connections|
    ensures SameConnections(b.connections, Serve(b, i, session, request, true).connections, i)
  {
    GetSessionFrame(b, session);
    var (c, slot) := GetSession(b, session);
    if slot.Some? { ApplyConnections(c, i, slot.value, request); }
  }

  /** A step is its request followed by the drop, if there is one. */
  lemma StepSplits(b: Broker, e: Event)
    requires Enabled(b, e)
    ensures Drops(b, e) ==> Index(e) < |BeforeDrop(b, e).connections| && Next(b, e) == Drop(BeforeDrop(b, e), Index(e))
    ensures !Drops(b, e) ==> Next(b, e) == BeforeDrop(b, e)
  {
    if e.Served? {
      ServeConnections(b, e.i, e.session, e.request);
      GetSessionFrame(b, e.session);
    }
  }

  lemma BeforeDropInv(b: Broker, e: Event)
    requires BrokerInv(b) && Enabled(b, e)
    ensures BrokerInv(BeforeDrop(b, e))
  {
    match e
    case Accepted(fd) => AcceptedInv(b, fd);
    case Served(i, session, request, _) => ServeInv(b, i, session, request, true);
    case Closed(_) =>
  }

  // ------------------------------------------------------------------
  // The life of a claimed session
  // ------------------------------------------------------------------

  /** The step closes the only connection that claims session k. */
  predicate LastClaimCloses(b: Broker, e: Event, k: nat) {
    && Drops(b, e) && Index(e) < |b.connections| && k < |b.sessions|
    && b.connections[Index(e)].anchor == k && b.sessions[k].anchors == 1
  }

  /** Session k stays claimed, in its slot, under its id. */
  predicate Stays(b: Broker, c: Broker, k: nat) {
    && k < |b.sessions| == |c.sessions|
    && c.sessions[k].inUse && c.sessions[k].anchors > 0 && c.sessions[k].id == b.sessions[k].id
  }

  /** Session k stays, connection i keeps the claim it had, and a claim it has
      newly made on k is not the only one. */
  predicate ClaimsStay(b: Broker, c: Broker, i: nat, k: nat) {
    && Stays(b, c, k) && i < |b.connections| == |c.connections|
    && (b.connections[i].anchor == k ==> c.sessions[k].anchors == b.sessions[k].anchors)
    && (b.connections[i].anchor >= 0 ==> c.connections[i].anchor == b.connections[i].anchor)
    && (b.connections[i].anchor != k && c.connections[i].anchor == k ==> c.sessions[k].anchors > 1)
  }

  /** Requests never take a claim away; only ATTACH on this connection adds one. */
  lemma ApplyStays(b: Broker, i: nat, slot: nat, request: Request, k: nat)
    requires BrokerInv(b) && i < |b.connections| && slot < |b.sessions| && k < |b.sessions| && b.sessions[k].anchors > 0
    ensures ClaimsStay(b, Apply(b, i, slot, request), i, k)
  {
    match request
    case Attach(started, prepared) => AttachStays(b, i, slot, started, prepared, k);
    case CloneSession(child) => CloneStays(b, i, slot, child, k);
    case PrivOps(attempts) => PrivilegedFrame(b, attempts);
    case _ => OtherStays(b, i, slot, request);
  }

  lemma AttachStays(b: Broker, i: nat, slot: nat, started: bool, prepared: bool, k: nat)
    requires BrokerInv(b) && i < |b.connections| && slot < |b.sessions| && k < |b.sessions| && b.sessions[k].anchors > 0
    ensures ClaimsStay(b, Apply(b, i, slot, Attach(started, prepared)), i, k)
  {
  }

  lemma CloneStays(b: Broker, i: nat, slot: nat, child: Text, k: nat)
    requires BrokerInv(b) && i < |b.connections| && slot < |b.sessions| && k < |b.sessions| && b.sessions[k].anchors > 0
    ensures var c := Apply(b, i, slot, CloneSession(child));
            Stays(b, c, k) && c.sessions[k].anchors == b.sessions[k].anchors && c.connections == b.connections
  {
    GetSessionKeeps(b, child);
    GetSessionFrame(b, child);
    var existing := FindSession(b.sessions, child);
    if existing.Some? { TouchKeeps(b, existing.value); }
  }

  /** Every other request leaves sessions and claims alone. */
  lemma OtherStays(b: Broker, i: nat, slot: nat, request: Request)
    requires i < |b.connections| && slot < |b.sessions|
    requires !request.Attach? && !request.CloneSession? && !request.PrivOps?
    ensures Apply(b, i, slot, request).sessions == b.sessions
    ensures |Apply(b, i, slot, request).connections| == |b.connections|
    ensures Apply(b, i, slot, request).connections[i].anchor == b.connections[i].anchor
  {
  }

  lemma ServedStays(b: Broker, e: Event, k: nat)
    requires BrokerInv(b) && Enabled(b, e) && k < |b.sessions| && b.sessions[k].anchors > 0
    ensures Stays(b, BeforeDrop(b, e), k)
    ensures Drops(b, e) ==>
              && Index(e) < |b.connections| && Index(e) < |BeforeDrop(b, e).connections|
              && (LastClaimCloses(b, e, k) <==>
                    BeforeDrop(b, e).connections[Index(e)].anchor == k && BeforeDrop(b, e).sessions[k].anchors == 1)
  {
    if e.Served? {
      ServeConnections(b, e.i, e.session, e.request);
      GetSessionKeeps(b, e.session);
      var (c, slot) := GetSession(b, e.session);
      if slot.Some? {
        assert BrokerInv(c);
        ApplyStays(c, e.i, slot.value, e.request, k);
      }
    }
  }

  lemma ReleaseStays(b: Broker, i: nat, k: nat)
    requires BrokerInv(b) && i < |b.connections| && k < |b.sessions| && b.sessions[k].inUse && b.sessions[k].anchors > 0
    ensures b.connections[i].anchor == k && b.sessions[k].anchors == 1 ==> Drop(b, i).sessions[k] == NO_SESSION
    ensures !(b.connections[i].anchor == k && b.sessions[k].anchors == 1) ==> Stays(b, Drop(b, i), k)
  {
  }

  /** A claimed session keeps its slot and id through every step, and is freed
      exactly by the step that closes its last claim. */
  lemma ClaimedSession(b: Broker, e: Event, k: nat)
    requires BrokerInv(b) && Enabled(b, e) && k < |b.sessions| && b.sessions[k].anchors > 0
    ensures LastClaimCloses(b, e, k) ==> |Next(b, e).sessions| == |b.sessions| && Next(b, e).sessions[k] == NO_SESSION
    ensures !LastClaimCloses(b, e, k) ==> Stays(b, Next(b, e), k)
  {
    StepSplits(b, e);
    BeforeDropInv(b, e);
    ServedStays(b, e, k);
    if Drops(b, e) { ReleaseStays(BeforeDrop(b, e), Index(e), k); }
  }

  lemma StaysOn(a: Broker, b: Broker, e: Event, c: Broker, k: nat)
    requires BrokerInv(b) && Enabled(b, e) && c == Next(b, e)
    requires Stays(a, b, k) && !LastClaimCloses(b, e, k)
    ensures Stays(a, c, k)
  {
    ClaimedSession(b, e, k);
  }

  /** No event of the run closes session k's last claim. */
  predicate NeverCloses(b: Broker, events: seq<Event>, k: nat)
    requires Possible(b, events)
  {
    events == [] || (NeverCloses(b, events[..|events| - 1], k)
                     && !LastClaimCloses(After(b, events[..|events| - 1]), events[|events| - 1], k))
  }

  /** Over any run in which its last claim does not close, a claimed session is
      the same session. */
  lemma {:induction false} ClaimedOverRun(b: Broker, events: seq<Event>, k: nat)
    requires BrokerInv(b) && Possible(b, events) && k < |b.sessions| && b.sessions[k].anchors > 0
    requires NeverCloses(b, events, k)
    ensures Stays(b, After(b, events), k)
  {
    if events != [] {
      var n := |events| - 1;
      ClaimedOverRun(b, events[..n], k);
      AfterInv(b, events[..n]);
      StaysOn(b, After(b, events[..n]), events[n], After(b, events), k);
    }
  }

  // ------------------------------------------------------------------
  // How messages end
  // ------------------------------------------------------------------

  /** Nothing in the history is ever taken back. */
  ghost predicate Grows(h: History, g: History) {
    && h.issued <= g.issued
    && (forall id: nat :: h.replied[id] <= g.replied[id] && h.abandoned[id] <= g.abandoned[id]
                          && h.forgotten[id] <= g.forgotten[id])
  }

  lemma GrowsOn(h: History, g: History, f: History)
    requires Grows(h, g) && Grows(g, f)
    ensures Grows(h, f)
  {
    forall id: nat ensures h.replied[id] <= f.replied[id] && h.abandoned[id] <= f.abandoned[id]
                           && h.forgotten[id] <= f.forgotten[id]
    {
      assert h.replied[id] <= g.replied[id] && g.replied[id] <= f.replied[id];
    }
  }

  lemma AbandonGrows(k: Desk, hit: Message -> bool)
    ensures Grows(k.history, Abandon(k, hit).history) && Grows(k.history, Forget(k, hit).history)
    ensures Abandon(k, hit).history.forgotten == k.history.forgotten
    ensures Abandon(k, hit).history.replied == k.history.replied && Forget(k, hit).history.replied == k.history.replied
  {
  }

  /** What a request may add to the history: only PORT_REPLY replies, and none forgets. */
  ghost predicate Adds(k: Desk, j: Desk) {
    Grows(k.history, j.history) && j.history.forgotten == k.history.forgotten && j.history.replied == k.history.replied
  }

  lemma RemovePortAdds(k: Desk, id: Option<nat>)
    ensures Adds(k, RemovePort(k, id).0)
  {
    if id.Some? { AbandonGrows(k, (m: Message) => m.portId == id.value); }
  }

  lemma AttachChannelAdds(k: Desk, fd: int, pid: Option<int>)
    ensures Adds(k, AttachChannel(k, fd, pid).0)
  {
    if pid.Some? { AbandonGrows(k, (m: Message) => m.ownerPid == pid.value); }
  }

  lemma PutAdds(k: Desk, name: Text, peer: int, pushed: bool)
    ensures Adds(k, Put(k, name, peer, pushed).0)
  {
  }

  lemma ReplyAdds(k: Desk, id: Option<nat>, peer: int)
    ensures Grows(k.history, Reply(k, id, peer).0.history)
    ensures Reply(k, id, peer).0.history.forgotten == k.history.forgotten
  {
  }

  lemma SameAdds(k: Desk, j: Desk)
    requires j.history == k.history
    ensures Adds(k, j)
  {
  }

  /** Requests that leave the history alone. */
  lemma QuietApply(b: Broker, i: nat, slot: nat, request: Request)
    requires i < |b.connections| && slot < |b.sessions|
    requires !request.PortAttach? && !request.PortRem? && !request.PortPut? && !request.PortReply?
    ensures Apply(b, i, slot, request).desk.history == b.desk.history
  {
    if request.CloneSession? { GetSessionFrame(b, request.child); }
    if request.PrivOps? { PrivilegedFrame(b, request.attempts); }
  }

  lemma ApplyAdds(b: Broker, i: nat, slot: nat, request: Request)
    requires i < |b.connections| && slot < |b.sessions| && !request.PortReply?
    ensures Adds(b.desk, Apply(b, i, slot, request).desk)
  {
    if request.PortAttach? {
      AttachAdds(b, i, slot, request.channelPid);
    } else if request.PortRem? {
      RemovePortAdds(b.desk, request.portId);
    } else if request.PortPut? {
      PutAdds(b.desk, request.name, request.sender, request.pushed);
    } else {
      QuietApply(b, i, slot, request);
      SameAdds(b.desk, Apply(b, i, slot, request).desk);
    }
  }

  lemma AttachAdds(b: Broker, i: nat, slot: nat, pid: Option<int>)
    requires i < |b.connections| && slot < |b.sessions|
    ensures Adds(b.desk, Apply(b, i, slot, PortAttach(pid)).desk)
  {
    SameAdds(b.desk, b.desk);
    AttachChannelAdds(b.desk, b.connections[i].fd, pid);
  }

  lemma DisconnectGrows(k: Desk, fd: int, taskId: nat)
    ensures Grows(k.history, Disconnect(k, fd, taskId).history)
    ensures Disconnect(k, fd, taskId).history.replied == k.history.replied
  {
    var a := DropTask(k, taskId);
    AbandonGrows(a, (m: Message) => OnPortOf(a.ports, fd, m.portId));
    var b := DropPorts(a, fd);
    AbandonGrows(b, (m: Message) => OwnedVia(b.channels, fd, m.ownerPid));
    var c := DropChannels(b, fd);
    AbandonGrows(c, SentBy(fd));
    GrowsOn(k.history, b.history, c.history);
    GrowsOn(k.history, c.history, DropMessages(c, fd).history);
  }

  /** What serving a request does to the history. */
  lemma BeforeDropGrows(b: Broker, e: Event)
    requires Enabled(b, e)
    ensures Grows(b.desk.history, BeforeDrop(b, e).desk.history)
    ensures BeforeDrop(b, e).desk.history.forgotten == b.desk.history.forgotten
    ensures BeforeDrop(b, e).desk.history.replied == b.desk.history.replied || Replies(b, e)
  {
    if e.Served? {
      GetSessionFrame(b, e.session);
      var (c, slot) := GetSession(b, e.session);
      if slot.Some? {
        if e.request.PortReply? {
          ReplyAdds(b.desk, e.request.messageId, e.request.replier);
        } else {
          ApplyAdds(c, e.i, slot.value, e.request);
        }
      }
    }
  }

  /** The step is a PORT_REPLY that goes through. */
  predicate Replies(b: Broker, e: Event)
    requires Enabled(b, e)
  {
    && e.Served? && e.request.PortReply?
    && BeforeDrop(b, e).desk == Reply(b.desk, e.request.messageId, e.request.replier).0
  }

  lemma StepGrows(b: Broker, e: Event)
    requires Enabled(b, e)
    ensures Grows(b.desk.history, Next(b, e).desk.history)
    ensures Next(b, e).desk.history.replied == BeforeDrop(b, e).desk.history.replied
  {
    StepSplits(b, e);
    BeforeDropGrows(b, e);
    if Drops(b, e) {
      var c := BeforeDrop(b, e);
      var x := c.connections[Index(e)];
      DisconnectGrows(c.desk, x.fd, x.taskId);
      GrowsOn(b.desk.history, c.desk.history, Next(b, e).desk.history);
    }
  }

  lemma GrowsStep(h: History, b: Broker, e: Event, c: Broker)
    requires Grows(h, b.desk.history) && Enabled(b, e) && c == Next(b, e)
    ensures Grows(h, c.desk.history)
  {
    StepGrows(b, e);
    GrowsOn(h, b.desk.history, c.desk.history);
  }

  lemma {:induction false} GrowsOverRun(b: Broker, events: seq<Event>)
    requires Possible(b, events)
    ensures Grows(b.desk.history, After(b, events).desk.history)
  {
    if events != [] {
      var n := |events| - 1;
      GrowsOverRun(b, events[..n]);
      GrowsStep(b.desk.history, After(b, events[..n]), events[n], After(b, events));
    }
  }

  /** A message once issued stays accounted for, exactly once, in every later
      state; an end it has reached is the end it keeps. */
  lemma MessageFate(b: Broker, events: seq<Event>, id: nat)
    requires BrokerInv(b) && Possible(b, events) && id in b.desk.history.issued
    ensures Ends(After(b, events).desk, id) == 1
    ensures Grows(b.desk.history, After(b, events).desk.history)
  {
    GrowsOverRun(b, events);
    AfterInv(b, events);
    assert Conserved(After(b, events).desk);
  }

  /** In every state every run can reach, the ids handed out are those pending and
      those replied to, abandoned or dropped with their sender, each exactly once. */
  lemma RunConserves(root: bool, events: seq<Event>)
    requires BrokerCore.Possible(Initial(root), events)
    ensures var k := After(Initial(root), events).desk;
            var h := k.history;
            multiset(h.issued) == Pending(k.messages) + h.replied + h.abandoned + h.forgotten
  {
    RunInv(root, events);
    Conservation(After(Initial(root), events).desk);
  }

  /** A message is forgotten only by the step that closes the connection its
      reply would have gone to. */
  lemma ForgottenOnlyBySender(b: Broker, e: Event, x: nat)
    requires BrokerInv(b) && Enabled(b, e)
    requires Next(b, e).desk.history.forgotten[x] != b.desk.history.forgotten[x]
    ensures Drops(b, e) && Index(e) < |BeforeDrop(b, e).connections|
    ensures exists m :: m in BeforeDrop(b, e).desk.messages && m.id == x && x != 0
                        && m.senderFd == BeforeDrop(b, e).connections[Index(e)].fd
  {
    StepSplits(b, e);
    BeforeDropGrows(b, e);
    BeforeDropInv(b, e);
    DropForgets(BeforeDrop(b, e), Index(e), x);
  }

  lemma DropForgets(c: Broker, i: nat, x: nat)
    requires BrokerInv(c) && i < |c.connections| && Drop(c, i).desk.history.forgotten[x] != c.desk.history.forgotten[x]
    ensures exists m :: m in c.desk.messages && m.id == x && x != 0 && m.senderFd == c.connections[i].fd
  {
    var fd := c.connections[i].fd;
    HeldLooksUp(c.connections);
    ForgottenBySender(c.desk, Held(c.connections), fd, x);
    var j :| 0 <= j < |c.desk.messages| && c.desk.messages[j].id == x && x != 0 && c.desk.messages[j].senderFd == fd;
    assert c.desk.messages[j] in c.desk.messages;
  }

  /** A reply is pushed only for the message it names, while that message is
      pending, at the request of the process it was delivered to. */
  lemma RepliedOnlyByOwner(b: Broker, e: Event, x: nat)
    requires BrokerInv(b) && Enabled(b, e)
    requires Next(b, e).desk.history.replied[x] != b.desk.history.replied[x]
    ensures e.Served? && e.request.PortReply? && e.request.messageId == Some(x)
    ensures exists m :: m in b.desk.messages && m.id == x && x != 0 && m.ownerPid == e.request.replier
  {
    StepGrows(b, e);
    BeforeDropGrows(b, e);
    RepliedByOwner(b.desk, Held(b.connections), e.request.messageId, e.request.replier, x);
    var i :| 0 <= i < |b.desk.messages| && b.desk.messages[i].id == x && x != 0
             && b.desk.messages[i].ownerPid == e.request.replier;
    assert b.desk.messages[i] in b.desk.messages;
  }

  // ------------------------------------------------------------------
  // The poll loop
  // ------------------------------------------------------------------

  /** What poll() reported for one connection: nothing, a request, or a hang-up. */
  datatype Report = Quiet | Request(session: Text, request: BrokerCore.Request, answered: bool) | Hangup

  /** One connection's turn. */
  function Turn(b: Broker, i: nat, r: Report): Broker
    requires i < |b.connections|
  {
    match r
    case Quiet => b
    case Request(session, request, answered) => Serve(b, i, session, request, answered)
    case Hangup => Drop(b, i)
  }

  /** The connections from the last polled down to index i have had their turn. */
  function Pass(b: Broker, reports: seq<Report>, i: nat): (r: Broker)
    requires i <= |reports| == |b.connections|
    ensures Polled(b, r, i)
    decreases |reports| - i
  {
    if i == |reports| then b
    else
      var c := Pass(b, reports, i + 1);
      TurnKeeps(b, c, i, reports[i]);
      Turn(c, i, reports[i])
  }

  /** The first i slots still hold the connections that were polled there. */
  predicate Polled(b: Broker, c: Broker, i: nat) {
    i <= |c.connections| <= |b.connections|
    && forall k :: 0 <= k < i ==> c.connections[k].fd == b.connections[k].fd
  }

  lemma TurnKeeps(b: Broker, c: Broker, i: nat, r: Report)
    requires Polled(b, c, i + 1)
    ensures Polled(b, Turn(c, i, r), i)
  {
    match r
    case Quiet =>
    case Request(session, request, answered) =>
      ServeConnections(c, i, session, request);
      StepSplits(c, Served(i, session, request, answered));
      var d := Serve(c, i, session, request, true);
      if d.connections != [] { DropPolled(b.connections, d.connections, i); }
    case Hangup => DropPolled(b.connections, c.connections, i);
  }

  /** Filling slot i from the end leaves the slots before it alone. */
  lemma DropPolled(b: seq<Connection>, c: seq<Connection>, i: nat)
    requires i < |c| <= |b| && forall k :: 0 <= k < i ==> c[k].fd == b[k].fd
    ensures i <= |Remove(c, i)| <= |b| && forall k :: 0 <= k < i ==> Remove(c, i)[k].fd == b[k].fd
  {
  }

  /** Going backwards, every turn is taken by the connection that was polled,
      whatever the turns before it dropped. */
  lemma TurnIsThePolled(b: Broker, reports: seq<Report>, i: nat)
    requires i < |reports| == |b.connections|
    ensures i < |Pass(b, reports, i + 1).connections|
    ensures Pass(b, reports, i + 1).connections[i].fd == b.connections[i].fd
    ensures Pass(b, reports, i) == Turn(Pass(b, reports, i + 1), i, reports[i])
  {
    assert Polled(b, Pass(b, reports, i + 1), i + 1);
  }

  lemma PassNext(b: Broker, reports: seq<Report>, i: nat)
    requires i < |reports| == |b.connections| && BrokerInv(Pass(b, reports, i + 1))
    ensures BrokerInv(Pass(b, reports, i))
  {
    TurnIsThePolled(b, reports, i);
    TurnInv(Pass(b, reports, i + 1), i, reports[i]);
  }

  lemma {:induction false} PassInv(b: Broker, reports: seq<Report>, i: nat)
    requires BrokerInv(b) && i <= |reports| == |b.connections|
    ensures BrokerInv(Pass(b, reports, i))
    decreases |reports| - i
  {
    if i < |reports| {
      PassInv(b, reports, i + 1);
      PassNext(b, reports, i);
    } else {
      assert Pass(b, reports, i) == b;
    }
  }

  lemma TurnInv(b: Broker, i: nat, r: Report)
    requires BrokerInv(b) && i < |b.connections|
    ensures BrokerInv(Turn(b, i, r))
  {
    match r
    case Quiet =>
    case Request(session, request, answered) => ServeInv(b, i, session, request, answered);
    case Hangup => DropInv(b, i);
  }
}
