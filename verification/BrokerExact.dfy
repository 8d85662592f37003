/** What the broker's steps do, beyond what they keep: which session a request makes
    the most recent, when a claim is made, when the privileged services end, and
    that what was recorded of a message stays what it was. */
module BrokerExact {
  import opened Bytes
  import opened MessageDesk
  import opened DeskInvariants
  import opened DeskRequests
  import opened BrokerCore
  import opened BrokerInvariants
  import opened BrokerRuns

  // ------------------------------------------------------------------
  // The most recent session
  // ------------------------------------------------------------------

  /** No session has been used after now. */
  predicate Clocked(b: Broker) {
    forall k :: 0 <= k < |b.sessions| ==> b.sessions[k].lastUsed <= b.clock
  }

  /** The session has been used after every other. */
  predicate Newest(b: Broker, slot: nat) {
    && slot < |b.sessions|
    && forall k :: 0 <= k < |b.sessions| && k != slot ==> b.sessions[k].lastUsed < b.sessions[slot].lastUsed
  }

  /** The session a request is given is from then on the most recently used. */
  lemma GetSessionNewest(b: Broker, id: Text)
    requires Clocked(b)
    ensures Clocked(GetSession(b, id).0)
    ensures GetSession(b, id).1.Some? ==> Newest(GetSession(b, id).0, GetSession(b, id).1.value)
  {
    var found, slot := FindSession(b.sessions, id), Vacancy(b.sessions);
    if found.Some? {
      TouchNewest(b, found.value);
    } else if slot.Some? {
      OpenNewest(b, slot.value, id);
    }
  }

  lemma TouchNewest(b: Broker, slot: nat)
    requires Clocked(b) && slot < |b.sessions|
    ensures Clocked(Touch(b, slot)) && Newest(Touch(b, slot), slot)
  {
  }

  lemma OpenNewest(b: Broker, slot: nat, id: Text)
    requires Clocked(b) && slot < |b.sessions|
    ensures Clocked(Open(b, slot, id)) && Newest(Open(b, slot, id), slot)
  {
  }

  lemma ApplyClocked(b: Broker, i: nat, slot: nat, request: Request)
    requires Clocked(b) && i < |b.connections| && slot < |b.sessions|
    ensures Clocked(Apply(b, i, slot, request))
  {
    if request.CloneSession? { GetSessionNewest(b, request.child); }
    if request.PrivOps? { PrivilegedFrame(b, request.attempts); }
  }

  lemma DropClocked(b: Broker, i: nat)
    requires Clocked(b) && i < |b.connections|
    ensures Clocked(Drop(b, i))
  {
  }

  lemma NextClocked(b: Broker, e: Event)
    requires Clocked(b) && Enabled(b, e)
    ensures Clocked(Next(b, e))
  {
    match e
    case Accepted(_) =>
    case Served(i, session, request, answered) =>
      GetSessionNewest(b, session);
      GetSessionFrame(b, session);
      var (c, slot) := GetSession(b, session);
      if slot.Some? {
        ApplyClocked(c, i, slot.value, request);
        var d := Apply(c, i, slot.value, request);
        if i < |d.connections| { DropClocked(d, i); }
      }
    case Closed(i) => DropClocked(b, i);
  }

  /** In every state every run can reach, so that the session a request finds or
      makes there becomes the most recently used of all. */
  lemma {:induction false} RunClocked(root: bool, events: seq<Event>, id: Text)
    requires Possible(Initial(root), events)
    ensures var b := After(Initial(root), events);
            Clocked(b) && (GetSession(b, id).1.Some? ==> Newest(GetSession(b, id).0, GetSession(b, id).1.value))
  {
    if events != [] {
      RunClocked(root, events[..|events| - 1], id);
      NextClocked(After(Initial(root), events[..|events| - 1]), events[|events| - 1]);
    }
    GetSessionNewest(After(Initial(root), events), id);
  }

  // ------------------------------------------------------------------
  // Claims
  // ------------------------------------------------------------------

  /** ATTACH is granted exactly when the connection has no claim yet and, for the
      first shell of a root broker, the privileged services are there or can be
      started. */
  predicate Claimable(b: Broker, i: nat, started: bool, prepared: bool)
    requires i < |b.connections|
  {
    b.connections[i].anchor < 0 && (!b.root || b.rootShells > 0 || b.fmm || (started && prepared))
  }

  /** A claim granted is the connection's and the session's, one more than before,
      and nobody else's; one refused changes nothing. */
  lemma AttachClaims(b: Broker, i: nat, slot: nat, started: bool, prepared: bool)
    requires BrokerInv(b) && i < |b.connections| && slot < |b.sessions|
    ensures var c := Apply(b, i, slot, Attach(started, prepared));
            && |c.connections| == |b.connections| && |c.sessions| == |b.sessions|
            && (!Claimable(b, i, started, prepared) ==> c == b)
            && (Claimable(b, i, started, prepared) ==>
                  && c.connections[i].anchor == slot && c.sessions[slot].anchors == b.sessions[slot].anchors + 1
                  && (forall j :: 0 <= j < |b.connections| && j != i ==> c.connections[j] == b.connections[j])
                  && (forall k :: 0 <= k < |b.sessions| && k != slot ==> c.sessions[k] == b.sessions[k])
                  && (b.root ==> c.fmm))
  {
  }

  /** The privileged services end with the step that drops the last claim, and with
      no other drop. */
  lemma LastShellStops(b: Broker, i: nat)
    requires BrokerInv(b) && b.root && i < |b.connections|
    ensures b.connections[i].anchor >= 0 && Anchored(Drop(b, i).connections) == 0 ==>
              !Drop(b, i).fmm && !Drop(b, i).crm
    ensures !(b.connections[i].anchor >= 0 && Anchored(Drop(b, i).connections) == 0) ==>
              Drop(b, i).fmm == b.fmm && Drop(b, i).crm == b.crm
  {
    RemoveClaims(b.connections, i, 0);
    if b.connections[i].anchor >= 0 { ClaimsPositive(b.connections, b.connections[i].anchor, i); }
  }

  /** A newcomer is taken in, with no claim, task or channel, exactly when the table
      has room. */
  lemma AcceptTakes(b: Broker, fd: int)
    requires |b.connections| <= 256
    ensures Accept(b, fd).connections
         == if |b.connections| < 256 then b.connections + [Connection(fd, -1, 0, 0)] else b.connections
  {
  }

  /** After a privileged operation the access worker is there exactly when it was or,
      in root mode with the mount mediator there or started, could be made, and its
      channel did not fail; the mount mediator exactly when it was or was started
      for want of the access worker. */
  lemma PrivilegedExactly(b: Broker, a: Attempt)
    requires BrokerInv(b)
    ensures Privileged(b, a).fmm <==> b.fmm || (b.root && a.started && a.prepared)
    ensures Privileged(b, a).crm <==>
              a.channelOk && (b.crm || (a.spawned && b.root && (b.fmm || (a.started && a.prepared))))
  {
  }

  /** CLONESESSION leaves a session under the child's id in use, unless the id is the
      parent's own or not one, or every slot is claimed and none has it. */
  lemma CloneMakes(b: Broker, i: nat, slot: nat, child: Text)
    requires i < |b.connections| && slot < |b.sessions| && 0 < |child| < 128 && child != b.sessions[slot].id
    ensures (exists k :: 0 <= k < |b.sessions| && InUseAs(Apply(b, i, slot, CloneSession(child)), k, child)) <==>
              || (exists k :: 0 <= k < |b.sessions| && InUseAs(b, k, child))
              || (exists k :: 0 <= k < |b.sessions| && !(b.sessions[k].inUse && b.sessions[k].anchors > 0))
  {
    var found, slot2 := FindSession(b.sessions, child), Vacancy(b.sessions);
    var c := Apply(b, i, slot, CloneSession(child));
    if found.Some? {
      assert InUseAs(b, found.value, child) && InUseAs(c, found.value, child);
    } else if slot2.Some? {
      assert InUseAs(c, slot2.value, child);
    } else {
      assert c == b;
    }
  }

  predicate InUseAs(b: Broker, k: int, id: Text) {
    0 <= k < |b.sessions| && b.sessions[k].inUse && b.sessions[k].id == id
  }

  // ------------------------------------------------------------------
  // What is recorded of a message
  // ------------------------------------------------------------------

  /** A record under an id handed out before is the record it was. */
  predicate SameRecords(k: Desk, j: Desk) {
    && |j.messages| == |k.messages| && k.nextMessage <= j.nextMessage
    && forall i :: 0 <= i < |k.messages| && 0 < j.messages[i].id < k.nextMessage ==> j.messages[i] == k.messages[i]
  }

  lemma SameOn(k: Desk, j: Desk, l: Desk)
    requires SameRecords(k, j) && SameRecords(j, l)
    ensures SameRecords(k, l)
  {
    forall i | 0 <= i < |k.messages| && 0 < l.messages[i].id < k.nextMessage ensures l.messages[i] == k.messages[i] {
      assert l.messages[i] == j.messages[i];
    }
  }

  lemma ClearSame(k: Desk, hit: Message -> bool)
    ensures SameRecords(k, Abandon(k, hit)) && SameRecords(k, Forget(k, hit))
  {
  }

  lemma AttachSame(k: Desk, fd: int, pid: Option<int>)
    ensures SameRecords(k, AttachChannel(k, fd, pid).0)
  {
    if pid.Some? { ClearSame(k, (m: Message) => m.ownerPid == pid.value); }
  }

  lemma RemoveSame(k: Desk, id: Option<nat>)
    ensures SameRecords(k, RemovePort(k, id).0)
  {
    if id.Some? { ClearSame(k, (m: Message) => m.portId == id.value); }
  }

  lemma PutSame(k: Desk, name: Text, peer: int, pushed: bool)
    ensures SameRecords(k, Put(k, name, peer, pushed).0)
  {
  }

  lemma ReplySame(k: Desk, id: Option<nat>, peer: int)
    ensures SameRecords(k, Reply(k, id, peer).0)
  {
  }

  lemma ApplySame(b: Broker, i: nat, slot: nat, request: Request)
    requires i < |b.connections| && slot < |b.sessions|
    ensures SameRecords(b.desk, Apply(b, i, slot, request).desk)
  {
    if request.PortAttach? {
      AttachSame(b.desk, b.connections[i].fd, request.channelPid);
    } else if request.PortRem? {
      RemoveSame(b.desk, request.portId);
    } else if request.PortPut? {
      PutSame(b.desk, request.name, request.sender, request.pushed);
    } else if request.PortReply? {
      ReplySame(b.desk, request.messageId, request.replier);
    } else {
      QuietMessages(b, i, slot, request);
    }
  }

  lemma QuietMessages(b: Broker, i: nat, slot: nat, request: Request)
    requires i < |b.connections| && slot < |b.sessions|
    requires !request.PortAttach? && !request.PortRem? && !request.PortPut? && !request.PortReply?
    ensures var d := Apply(b, i, slot, request).desk;
            d.messages == b.desk.messages && d.nextMessage == b.desk.nextMessage
  {
    if request.CloneSession? { GetSessionFrame(b, request.child); }
    if request.PrivOps? { PrivilegedFrame(b, request.attempts); }
  }

  lemma DropSame(b: Broker, i: nat)
    requires i < |b.connections|
    ensures SameRecords(b.desk, Drop(b, i).desk)
  {
    var c := b.connections[i];
    DisconnectMessages(b.desk, c.fd, c.taskId);
    assert Drop(b, i).desk.nextMessage == b.desk.nextMessage;
  }

  lemma NextSame(b: Broker, e: Event)
    requires Enabled(b, e)
    ensures SameRecords(b.desk, Next(b, e).desk)
  {
    match e
    case Accepted(_) =>
    case Served(i, session, request, answered) => ServeSame(b, i, session, request, answered);
    case Closed(i) => DropSame(b, i);
  }

  lemma ServeSame(b: Broker, i: nat, session: Text, request: Request, answered: bool)
    requires i < |b.connections|
    ensures SameRecords(b.desk, Serve(b, i, session, request, answered).desk)
  {
    GetSessionFrame(b, session);
    var (c, slot) := GetSession(b, session);
    if slot.Some? {
      var d := Apply(c, i, slot.value, request);
      ApplySame(c, i, slot.value, request);
      if !answered && i < |d.connections| {
        DropSame(d, i);
        SameOn(c.desk, d.desk, Drop(d, i).desk);
      }
    }
  }

  /** Over any run, as long as a message is pending its record is the one made when
      it was sent: the same port, owner and sender, and the same connection for the
      answer to go to. */
  lemma {:induction false} RecordsStay(b: Broker, events: seq<Event>)
    requires Possible(b, events)
    ensures SameRecords(b.desk, After(b, events).desk)
  {
    if events != [] {
      var p := events[..|events| - 1];
      RecordsStay(b, p);
      NextSame(After(b, p), events[|events| - 1]);
      SameOn(b.desk, After(b, p).desk, After(b, events).desk);
    }
  }

  // ------------------------------------------------------------------
  // Requests, from the socket to the tables
  // ------------------------------------------------------------------

  /** The session a request names can be found or made. */
  ghost predicate Admitted(b: Broker, session: Text) {
    || (exists k :: InUseAs(b, k, session))
    || (|session| < 128 && exists k :: 0 <= k < |b.sessions| && !(b.sessions[k].inUse && b.sessions[k].anchors > 0))
  }

  lemma AdmittedIff(b: Broker, session: Text)
    ensures GetSession(b, session).1.Some? <==> Admitted(b, session)
  {
    GetSessionFails(b, session);
    if k :| 0 <= k < |b.sessions| && b.sessions[k].inUse && b.sessions[k].id == session {
      assert InUseAs(b, k, session);
    }
  }

  /** A request that is not admitted leaves the tables alone; one that is does to
      them what the request says. */
  lemma AdmittedServes(b: Broker, i: nat, session: Text, request: Request)
    requires i < |b.connections|
    ensures GetSession(b, session).1.None? ==> Serve(b, i, session, request, true).desk == b.desk
    ensures GetSession(b, session).1.Some? ==>
              var (c, slot) := GetSession(b, session);
              && slot.value < |c.sessions| && c.connections == b.connections && c.desk == b.desk
              && Serve(b, i, session, request, true) == Apply(c, i, slot.value, request)
  {
    GetSessionFrame(b, session);
  }

  /** What PORT_PUT needs to be taken. */
  ghost predicate Takes(k: Desk, name: Text, peer: int) {
    && name != [] && peer > 0 && HasChannel(k, peer) && (exists i :: FreeMessage(k, i))
    && exists p :: PortNamed(k, name, p) && HasChannel(k, p.pid)
  }

  /** A PORT_PUT admitted, with all it needs and its push done, leaves its record;
      any other leaves the messages as they were. */
  lemma PutServed(b: Broker, i: nat, session: Text, name: Text, sender: int, pushed: bool)
    requires BrokerInv(b) && i < |b.connections|
    ensures var j := Serve(b, i, session, PortPut(name, sender, pushed), true).desk;
            if Admitted(b, session) && pushed && Takes(b.desk, name, sender)
            then |j.messages| == |b.desk.messages|
                 && exists n: nat, p, c :: n < |j.messages| && Records(b.desk, name, sender, n, p, c, j.messages[n])
                                           && j.messages == b.desk.messages[n := j.messages[n]]
            else j.messages == b.desk.messages
  {
    AdmittedIff(b, session);
    AdmittedServes(b, i, session, PortPut(name, sender, pushed));
    PutExact(b.desk, Held(b.connections), name, sender, pushed);
  }

  lemma PutExact(k: Desk, held: map<int, nat>, name: Text, sender: int, pushed: bool)
    requires Inv(k, held)
    ensures var j := Put(k, name, sender, pushed).0;
            if pushed && Takes(k, name, sender)
            then |j.messages| == |k.messages|
                 && exists n: nat, p, c :: n < |j.messages| && Records(k, name, sender, n, p, c, j.messages[n])
                                           && j.messages == k.messages[n := j.messages[n]]
            else j.messages == k.messages
  {
    PutTakes(k, held, name, sender, pushed);
    if Put(k, name, sender, pushed).1.Some? {
      var n, p, c := PutRecords(k, name, sender, pushed);
    } else {
      PutLeaves(k, name, sender, pushed);
    }
  }

  /** A PORT_REPLY admitted ends the message it names exactly when that waits for
      the process that replies. */
  lemma ReplyServed(b: Broker, i: nat, session: Text, id: Option<nat>, replier: int)
    requires BrokerInv(b) && i < |b.connections|
    ensures var j := Serve(b, i, session, PortReply(id, replier), true).desk;
            if Admitted(b, session) && Awaits(b.desk, id, replier) then OneReplied(b.desk, j, id.value) else j == b.desk
  {
    AdmittedIff(b, session);
    AdmittedServes(b, i, session, PortReply(id, replier));
    ReplyExact(b.desk, Held(b.connections), id, replier);
  }

  /** The message named waits for the process. */
  ghost predicate Awaits(k: Desk, id: Option<nat>, replier: int) {
    id.Some? && exists m :: Waiting(k, id.value, m) && 0 < replier == m.ownerPid
  }

  lemma ReplyExact(k: Desk, held: map<int, nat>, id: Option<nat>, replier: int)
    requires Inv(k, held)
    ensures var j := Reply(k, id, replier).0;
            if Awaits(k, id, replier) then OneReplied(k, j, id.value) else j == k
  {
    ReplyIff(k, held, id, replier);
    ReplyEnds(k, held, id, replier);
  }

  /** A PORT_ADD admitted makes the port, its connection's and its owner's, exactly
      when it may. */
  lemma AddServed(b: Broker, i: nat, session: Text, name: Text, pid: Option<int>)
    requires i < |b.connections|
    ensures var k, j := b.desk, Serve(b, i, session, PortAdd(name, pid), true).desk;
            if && Admitted(b, session) && 0 < |name| < 64 && pid.Some? && (forall p :: !PortNamed(k, name, p))
               && exists n :: FreePort(k, n)
            then exists n :: FreePort(k, n)
                             && j.ports == k.ports[n := Port(k.nextPort, b.connections[i].fd, pid.value, name)]
            else j == k
  {
    AdmittedIff(b, session);
    AdmittedServes(b, i, session, PortAdd(name, pid));
    AddPortIff(b.desk, b.connections[i].fd, name, pid);
  }

  /** A PORT_REM admitted takes the port away, exactly when there is one. */
  lemma RemServed(b: Broker, i: nat, session: Text, id: nat)
    requires i < |b.connections|
    ensures var k, j := b.desk, Serve(b, i, session, PortRem(Some(id)), true).desk;
            if Admitted(b, session) && exists n :: 0 <= n < |k.ports| && k.ports[n].id == id
            then exists n :: 0 <= n < |k.ports| && k.ports[n].id == id && j.ports == k.ports[n := NO_PORT]
            else j == k
  {
    AdmittedIff(b, session);
    AdmittedServes(b, i, session, PortRem(Some(id)));
    RemovePortIff(b.desk, Some(id));
    RemovePortEnds(b.desk, Some(id));
  }

  /** A PORT_ATTACH admitted gives a connection that has none its channel, for the
      process given, exactly when there is room. */
  lemma ChannelServed(b: Broker, i: nat, session: Text, pid: int)
    requires BrokerInv(b) && i < |b.connections| && b.connections[i].channelId == 0
    ensures var k, c := b.desk, Serve(b, i, session, PortAttach(Some(pid)), true);
            && |c.connections| == |b.connections|
            && (c.connections[i].channelId != 0 <==>
                  Admitted(b, session) && (HasChannel(k, pid) || exists n :: FreeChannel(k, n)))
            && (c.connections[i].channelId != 0 ==>
                  ChannelOf(c.desk, pid, Channel(c.connections[i].channelId, b.connections[i].fd, pid)))
  {
    AdmittedIff(b, session);
    AdmittedServes(b, i, session, PortAttach(Some(pid)));
    GetSessionFrame(b, session);
    AttachChannelIff(b.desk, b.connections[i].fd, Some(pid));
  }

  /** A TASK_ATTACH admitted gives a connection that has none its task, exactly when
      it may. */
  lemma TaskServed(b: Broker, i: nat, session: Text, name: Text, pid: Option<int>)
    requires BrokerInv(b) && i < |b.connections| && b.connections[i].taskId == 0
    ensures var k, c := b.desk, Serve(b, i, session, TaskAttach(name, pid), true);
            && |c.connections| == |b.connections|
            && (c.connections[i].taskId != 0 <==>
                  Admitted(b, session) && 0 < |name| < 64 && pid.Some? && exists n :: FreeTask(k, n))
            && (c.connections[i].taskId != 0 ==>
                  var task := Task(c.connections[i].taskId, b.connections[i].fd, pid.value, name);
                  exists n :: FreeTask(k, n) && c.desk.tasks == k.tasks[n := task])
  {
    AdmittedIff(b, session);
    AdmittedServes(b, i, session, TaskAttach(name, pid));
    GetSessionFrame(b, session);
    AttachTaskIff(b.desk, b.connections[i].fd, name, pid);
  }

  /** An ATTACH admitted makes the claim on the session it names, exactly when it may. */
  lemma AttachServed(b: Broker, i: nat, session: Text, started: bool, prepared: bool)
    requires BrokerInv(b) && i < |b.connections| && b.connections[i].anchor < 0
    ensures var c := Serve(b, i, session, Attach(started, prepared), true);
            && |c.connections| == |b.connections|
            && (c.connections[i].anchor >= 0 <==> Admitted(b, session) && Claimable(b, i, started, prepared))
            && (c.connections[i].anchor >= 0 ==> InUseAs(c, c.connections[i].anchor, session))
  {
    AdmittedIff(b, session);
    AdmittedServes(b, i, session, Attach(started, prepared));
    FoundInv(b, session);
    GetSessionFrame(b, session);
    GetSessionKeeps(b, session);
    var (c, slot) := GetSession(b, session);
    if slot.Some? {
      AttachClaims(c, i, slot.value, started, prepared);
      ClaimKeepsId(c, i, slot.value, started, prepared);
    }
  }

  lemma ClaimKeepsId(b: Broker, i: nat, slot: nat, started: bool, prepared: bool)
    requires i < |b.connections| && slot < |b.sessions|
    ensures var c := Apply(b, i, slot, Attach(started, prepared));
            |c.sessions| == |b.sessions| && c.sessions[slot].id == b.sessions[slot].id
            && c.sessions[slot].inUse == b.sessions[slot].inUse
  {
  }
}
