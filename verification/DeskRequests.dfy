/** Exactly when each request of the message protocol succeeds, what it records, and
    what a disconnect takes with it. */
module DeskRequests {
  import opened Bytes
  import opened MessageDesk
  import opened DeskInvariants

  // ------------------------------------------------------------------
  // The tables, as a client sees them
  // ------------------------------------------------------------------

  predicate PortNamed(k: Desk, name: Text, p: Port) { p in k.ports && p.id != 0 && p.name == name }

  predicate ChannelOf(k: Desk, pid: int, c: Channel) { c in k.channels && c.id != 0 && c.pid == pid }

  ghost predicate HasChannel(k: Desk, pid: int) { exists c :: ChannelOf(k, pid, c) }

  predicate Waiting(k: Desk, id: nat, m: Message) { m in k.messages && m.id == id && id != 0 }

  predicate FreePort(k: Desk, i: int) { 0 <= i < |k.ports| && k.ports[i].id == 0 }

  predicate FreeChannel(k: Desk, i: int) { 0 <= i < |k.channels| && k.channels[i].id == 0 }

  predicate FreeMessage(k: Desk, i: int) { 0 <= i < |k.messages| && k.messages[i].id == 0 }

  predicate FreeTask(k: Desk, i: int) { 0 <= i < |k.tasks| && k.tasks[i].id == 0 }

  lemma FindPortIff(k: Desk, name: Text)
    ensures FindPort(k.ports, name).Some? <==> exists p :: PortNamed(k, name, p)
    ensures FindPort(k.ports, name).Some? ==> PortNamed(k, name, k.ports[FindPort(k.ports, name).value])
  {
    var i := FindPort(k.ports, name);
    if i.Some? { assert PortNamed(k, name, k.ports[i.value]); }
  }

  lemma FindChannelIff(k: Desk, pid: int)
    ensures FindChannel(k.channels, pid).Some? <==> HasChannel(k, pid)
    ensures FindChannel(k.channels, pid).Some? ==> ChannelOf(k, pid, k.channels[FindChannel(k.channels, pid).value])
  {
    var i := FindChannel(k.channels, pid);
    if i.Some? { assert ChannelOf(k, pid, k.channels[i.value]); }
  }

  // ------------------------------------------------------------------
  // Sending
  // ------------------------------------------------------------------

  /** A message is taken exactly when its name is a live port's, the sender is known,
      both processes have channels, a record is free and the push succeeded. */
  lemma PutTakes(k: Desk, held: map<int, nat>, name: Text, peer: int, pushed: bool)
    requires Inv(k, held)
    ensures Put(k, name, peer, pushed).1.Some? <==>
              && name != [] && peer > 0 && pushed && HasChannel(k, peer) && (exists i :: FreeMessage(k, i))
              && exists p :: PortNamed(k, name, p) && HasChannel(k, p.pid)
  {
    FindPortIff(k, name);
    FindChannelIff(k, peer);
    var i := FindPort(k.ports, name);
    if i.Some? {
      var port := k.ports[i.value];
      FindChannelIff(k, port.pid);
      forall p | PortNamed(k, name, p) ensures p == port {
        NamesUnique(k, held, name, p, port);
      }
    }
    var slot := First(k.messages, (m: Message) => m.id == 0);
    if slot.Some? { assert FreeMessage(k, slot.value); }
  }

  lemma NamesUnique(k: Desk, held: map<int, nat>, name: Text, p: Port, q: Port)
    requires Inv(k, held) && PortNamed(k, name, p) && PortNamed(k, name, q)
    ensures p == q
  {
    var i :| 0 <= i < |k.ports| && k.ports[i] == p;
    var j :| 0 <= j < |k.ports| && k.ports[j] == q;
  }

  /** The record of a message sent by peer to the port over channel c. */
  predicate Records(k: Desk, name: Text, peer: int, i: int, p: Port, c: Channel, m: Message) {
    && FreeMessage(k, i) && PortNamed(k, name, p) && ChannelOf(k, peer, c)
    && m.id == k.nextMessage && m.portId == p.id && m.ownerPid == p.pid && m.senderPid == peer && m.senderFd == c.fd
  }

  /** What is recorded of a message taken: a new id, the port and its owner, the
      sender, and the sender's own channel for the answer to go to. */
  lemma PutRecords(k: Desk, name: Text, peer: int, pushed: bool) returns (i: nat, p: Port, c: Channel)
    requires Put(k, name, peer, pushed).1.Some?
    ensures Put(k, name, peer, pushed).1 == Some(k.nextMessage) && i < |k.messages|
    ensures var j := Put(k, name, peer, pushed).0;
            && |j.messages| == |k.messages| && Records(k, name, peer, i, p, c, j.messages[i])
            && j.messages == k.messages[i := j.messages[i]] && j.history.issued == k.history.issued + {k.nextMessage}
            && j == k.(messages := j.messages, nextMessage := k.nextMessage + 1,
                       history := k.history.(issued := j.history.issued))
  {
    FindPortIff(k, name);
    FindChannelIff(k, peer);
    i := First(k.messages, (m: Message) => m.id == 0).value;
    p := k.ports[FindPort(k.ports, name).value];
    c := k.channels[FindChannel(k.channels, peer).value];
  }

  // ------------------------------------------------------------------
  // Answering
  // ------------------------------------------------------------------

  lemma ReplyIff(k: Desk, held: map<int, nat>, id: Option<nat>, peer: int)
    requires Inv(k, held)
    ensures Reply(k, id, peer).1 <==> id.Some? && exists m :: Waiting(k, id.value, m) && peer > 0 && m.ownerPid == peer
  {
    if id.Some? {
      var slot := First(k.messages, (m: Message) => m.id == id.value);
      if slot.Some? && peer > 0 && peer == k.messages[slot.value].ownerPid {
        EndsPending(k, held, slot.value);
        assert Waiting(k, id.value, k.messages[slot.value]);
      }
      forall m | Waiting(k, id.value, m) ensures slot.Some? && m == k.messages[slot.value] {
        var i :| 0 <= i < |k.messages| && k.messages[i] == m;
        IdsUnique(k, i, slot.value);
      }
    }
  }

  /** No two pending messages have one id. */
  lemma IdsUnique(k: Desk, i: nat, j: nat)
    requires Conserved(k) && i < |k.messages| && j < |k.messages|
    requires k.messages[i].id == k.messages[j].id != 0
    ensures i == j
  {
    var id := k.messages[i].id;
    assert Ends(k, id) <= 1;
    PendingCount(k.messages, id);
    if i < j { TwoCounted(k.messages, i, j, id); }
    if j < i { TwoCounted(k.messages, j, i, id); }
  }

  lemma {:induction false} OneCounted(ms: seq<Message>, i: nat, id: nat)
    requires i < |ms| && ms[i].id == id != 0
    ensures Count(ms, id) >= 1
  {
    if i < |ms| - 1 { OneCounted(ms[..|ms| - 1], i, id); }
  }

  lemma {:induction false} TwoCounted(ms: seq<Message>, i: nat, j: nat, id: nat)
    requires i < j < |ms| && ms[i].id == ms[j].id == id != 0
    ensures Count(ms, id) >= 2
  {
    if j < |ms| - 1 { TwoCounted(ms[..|ms| - 1], i, j, id); } else { OneCounted(ms[..|ms| - 1], i, id); }
  }

  // ------------------------------------------------------------------
  // Ports, channels and tasks
  // ------------------------------------------------------------------

  /** A port is added exactly when its name is one, is short enough and unused, the
      owner is given and a record is free; it is recorded with all three. */
  lemma AddPortIff(k: Desk, fd: int, name: Text, pid: Option<int>)
    ensures AddPort(k, fd, name, pid).1 <==>
              && 0 < |name| < 64 && pid.Some? && (forall p :: !PortNamed(k, name, p)) && exists i :: FreePort(k, i)
    ensures AddPort(k, fd, name, pid).1 ==>
              var j := AddPort(k, fd, name, pid).0;
              exists i :: FreePort(k, i) && j.ports == k.ports[i := Port(k.nextPort, fd, pid.value, name)]
                          && j == k.(ports := j.ports, nextPort := k.nextPort + 1)
  {
    FindPortIff(k, name);
    var slot := First(k.ports, (p: Port) => p.id == 0);
    if slot.Some? { assert FreePort(k, slot.value); }
  }

  /** A port is removed exactly when some record has the id asked for. */
  lemma RemovePortIff(k: Desk, id: Option<nat>)
    ensures RemovePort(k, id).1 <==> id.Some? && exists i :: 0 <= i < |k.ports| && k.ports[i].id == id.value
    ensures RemovePort(k, id).1 ==>
              exists i :: 0 <= i < |k.ports| && k.ports[i].id == id.value
                          && RemovePort(k, id).0.ports == k.ports[i := NO_PORT]
  {
    if id.Some? {
      var slot := First(k.ports, (p: Port) => p.id == id.value);
      if slot.Some? { assert k.ports[slot.value].id == id.value; }
    }
  }

  /** A process gets its channel exactly when it is given and a record is free, its
      own earlier one counting as free; the record has the connection and the process. */
  lemma AttachChannelIff(k: Desk, fd: int, pid: Option<int>)
    requires k.nextChannel > 0
    ensures AttachChannel(k, fd, pid).1 != 0 <==>
              pid.Some? && (HasChannel(k, pid.value) || exists i :: FreeChannel(k, i))
    ensures AttachChannel(k, fd, pid).1 != 0 ==>
              ChannelOf(AttachChannel(k, fd, pid).0, pid.value, Channel(AttachChannel(k, fd, pid).1, fd, pid.value))
  {
    if pid.Some? {
      FindChannelIff(k, pid.value);
      ReplaceFrees(k, pid.value);
      NewChannelIff(Replace(k, pid.value), fd, pid.value);
    }
  }

  lemma ReplaceFrees(k: Desk, pid: int)
    ensures (exists i :: FreeChannel(Replace(k, pid), i)) <==> HasChannel(k, pid) || exists i :: FreeChannel(k, i)
    ensures Replace(k, pid).nextChannel == k.nextChannel
  {
    FindChannelIff(k, pid);
    var j, existing := Replace(k, pid), FindChannel(k.channels, pid);
    if existing.Some? { assert FreeChannel(j, existing.value); }
  }

  lemma NewChannelIff(k: Desk, fd: int, pid: int)
    requires k.nextChannel > 0
    ensures NewChannel(k, fd, pid).1 != 0 <==> exists i :: FreeChannel(k, i)
    ensures NewChannel(k, fd, pid).1 != 0 ==>
              ChannelOf(NewChannel(k, fd, pid).0, pid, Channel(NewChannel(k, fd, pid).1, fd, pid))
  {
    var slot := First(k.channels, (c: Channel) => c.id == 0);
    if slot.Some? {
      assert FreeChannel(k, slot.value);
      assert NewChannel(k, fd, pid).0.channels[slot.value] == Channel(k.nextChannel, fd, pid);
    }
  }

  /** A task is attached exactly when it has a name that is short enough and an
      owner, and a record is free; it is recorded with both and its connection. */
  lemma AttachTaskIff(k: Desk, fd: int, name: Text, pid: Option<int>)
    requires k.nextTask > 0
    ensures AttachTask(k, fd, name, pid).1 != 0 <==> 0 < |name| < 64 && pid.Some? && exists i :: FreeTask(k, i)
    ensures AttachTask(k, fd, name, pid).1 != 0 ==>
              var j := AttachTask(k, fd, name, pid).0;
              exists i :: FreeTask(k, i) && j.tasks == k.tasks[i := Task(k.nextTask, fd, pid.value, name)]
                          && j == k.(tasks := j.tasks, nextTask := k.nextTask + 1)
  {
    var slot := First(k.tasks, (t: Task) => t.id == 0);
    if slot.Some? { assert FreeTask(k, slot.value); }
  }

  // ------------------------------------------------------------------
  // A disconnect
  // ------------------------------------------------------------------

  /** The connection serves the port the message was sent to, or the process it was
      delivered to is reached over it. */
  predicate LosesReceiver(k: Desk, fd: int, m: Message) {
    OnPortOf(k.ports, fd, m.portId) || OwnedVia(k.channels, fd, m.ownerPid)
  }

  /** What is left of a message. */
  function Left(k: Desk, fd: int, m: Message): Message {
    if m.id != 0 && (LosesReceiver(k, fd, m) || m.senderFd == fd) then NO_MESSAGE else m
  }

  lemma DisconnectMessages(k: Desk, fd: int, taskId: nat)
    ensures |Disconnect(k, fd, taskId).messages| == |k.messages|
    ensures forall i :: 0 <= i < |k.messages| ==> Disconnect(k, fd, taskId).messages[i] == Left(k, fd, k.messages[i])
  {
    var a := DropTask(k, taskId);
    var b := DropPorts(a, fd);
    var c := DropChannels(b, fd);
    assert a.ports == k.ports && a.channels == k.channels && a.messages == k.messages && b.channels == k.channels;
    forall i | 0 <= i < |k.messages| ensures Disconnect(k, fd, taskId).messages[i] == Left(k, fd, k.messages[i]) {
      var m := k.messages[i];
      assert b.messages[i] == if m.id != 0 && OnPortOf(k.ports, fd, m.portId) then NO_MESSAGE else m;
      assert c.messages[i] == if m.id != 0 && LosesReceiver(k, fd, m) then NO_MESSAGE else m;
    }
  }

  /** A disconnect takes the connection's ports and channels, and no others. */
  lemma DisconnectTables(k: Desk, fd: int, taskId: nat)
    ensures var j := Disconnect(k, fd, taskId);
            && |j.ports| == |k.ports| && |j.channels| == |k.channels|
            && (forall i :: 0 <= i < |k.ports| ==>
                  j.ports[i] == if k.ports[i].id != 0 && k.ports[i].fd == fd then NO_PORT else k.ports[i])
            && (forall i :: 0 <= i < |k.channels| ==>
                  j.channels[i]
                  == if k.channels[i].id != 0 && k.channels[i].fd == fd then NO_CHANNEL else k.channels[i])
  {
  }

  /** And the task it holds, which is the only one it has. */
  lemma DisconnectTask(k: Desk, held: map<int, nat>, fd: int, i: nat)
    requires Inv(k, held) && fd in held && i < |k.tasks| && k.tasks[i].id != 0
    ensures |Disconnect(k, fd, held[fd]).tasks| == |k.tasks|
    ensures Disconnect(k, fd, held[fd]).tasks[i] == if k.tasks[i].id == held[fd] then NO_TASK else k.tasks[i]
    ensures k.tasks[i].fd == fd ==> k.tasks[i].id == held[fd]
  {
    assert Disconnect(k, fd, held[fd]).tasks == DropTask(k, held[fd]).tasks;
    var slot := First(k.tasks, (t: Task) => t.id == held[fd]);
    if k.tasks[i].id == held[fd] && slot.value != i { TaskIds(k, held, i, slot.value); }
  }

  lemma TaskIds(k: Desk, held: map<int, nat>, i: nat, j: nat)
    requires Inv(k, held) && i < |k.tasks| && j < |k.tasks| && k.tasks[i].id == k.tasks[j].id != 0
    ensures i == j
  {
  }

  lemma {:induction false} HitOnce(ms: seq<Message>, hit: Message -> bool, i: nat)
    requires i < |ms| && ms[i].id != 0 && Count(ms, ms[i].id) <= 1
    ensures Hits(ms, hit)[ms[i].id] == if hit(ms[i]) then 1 else 0
  {
    var n, id := |ms| - 1, ms[i].id;
    if i < n {
      OneCounted(ms[..n], i, id);
      HitOnce(ms[..n], hit, i);
    } else {
      NoneHit(ms[..n], hit, id);
    }
  }

  lemma {:induction false} NoneHit(ms: seq<Message>, hit: Message -> bool, id: nat)
    requires Count(ms, id) == 0 && id != 0
    ensures Hits(ms, hit)[id] == 0
  {
    if ms != [] { NoneHit(ms[..|ms| - 1], hit, id); }
  }

  /** Whether a message ends by the disconnect, and how. */
  ghost predicate EndsAs(k: Desk, j: Desk, fd: int, m: Message) {
    && j.history.abandoned[m.id] == k.history.abandoned[m.id] + (if LosesReceiver(k, fd, m) then 1 else 0)
    && j.history.forgotten[m.id]
       == k.history.forgotten[m.id] + (if !LosesReceiver(k, fd, m) && m.senderFd == fd then 1 else 0)
    && j.history.replied == k.history.replied && j.history.issued == k.history.issued
  }

  lemma {:induction false} ClearedCount(ms: seq<Message>, hit: Message -> bool, id: nat)
    ensures Count(Clear(ms, hit), id) <= Count(ms, id)
  {
    if ms != [] {
      var n := |ms| - 1;
      ClearedCount(ms[..n], hit, id);
      assert Clear(ms, hit)[..n] == Clear(ms[..n], hit);
    }
  }

  /** A message still pending once the hit ones are cleared is counted among the
      next hits if it is one; a cleared one is not counted again. */
  lemma HitsAfter(ms: seq<Message>, gone: Message -> bool, hit: Message -> bool, i: nat)
    requires i < |ms| && ms[i].id != 0 && Count(ms, ms[i].id) <= 1
    ensures Hits(Clear(ms, gone), hit)[ms[i].id] == if !gone(ms[i]) && hit(ms[i]) then 1 else 0
  {
    var rest, id := Clear(ms, gone), ms[i].id;
    ClearedCount(ms, gone, id);
    if gone(ms[i]) {
      ClearCounts(ms, gone, id);
      PendingCount(ms, id);
      PendingCount(rest, id);
      HitOnce(ms, gone, i);
      NoneHit(rest, hit, id);
    } else {
      HitOnce(rest, hit, i);
    }
  }

  /** A message whose receiver goes is abandoned, its sender told; one whose sender
      goes is dropped; every other stays as it is. */
  lemma DisconnectEnds(k: Desk, held: map<int, nat>, fd: int, taskId: nat, i: nat)
    requires Inv(k, held) && i < |k.messages| && k.messages[i].id != 0
    ensures EndsAs(k, Disconnect(k, fd, taskId), fd, k.messages[i])
  {
    var m := k.messages[i];
    assert Ends(k, m.id) <= 1;
    PendingCount(k.messages, m.id);
    FirstHits(k, fd, i);
    LastHits(k, fd, i);
    DisconnectHistory(k, fd, taskId);
  }

  ghost function OnPort(k: Desk, fd: int): Message -> bool { (m: Message) => OnPortOf(k.ports, fd, m.portId) }

  ghost function Owned(k: Desk, fd: int): Message -> bool { (m: Message) => OwnedVia(k.channels, fd, m.ownerPid) }

  ghost function Gone(k: Desk, fd: int): Message -> bool { (m: Message) => LosesReceiver(k, fd, m) }

  /** The messages left once the receivers' are abandoned. */
  lemma ClearTwice(k: Desk, fd: int)
    ensures Clear(Clear(k.messages, OnPort(k, fd)), Owned(k, fd)) == Clear(k.messages, Gone(k, fd))
  {
  }

  lemma DisconnectHistory(k: Desk, fd: int, taskId: nat)
    ensures Disconnect(k, fd, taskId).history
         == k.history.(abandoned := k.history.abandoned + Hits(k.messages, OnPort(k, fd))
                                    + Hits(Clear(k.messages, OnPort(k, fd)), Owned(k, fd)),
                       forgotten := k.history.forgotten + Hits(Clear(k.messages, Gone(k, fd)), SentBy(fd)))
  {
    var a := DropTask(k, taskId);
    var b := DropPorts(a, fd);
    assert a.ports == k.ports && a.messages == k.messages && a.channels == k.channels && b.channels == k.channels;
    assert b.messages == Clear(k.messages, OnPort(k, fd));
    ClearTwice(k, fd);
  }

  lemma FirstHits(k: Desk, fd: int, i: nat)
    requires i < |k.messages| && k.messages[i].id != 0 && Count(k.messages, k.messages[i].id) <= 1
    ensures var m := k.messages[i];
            Hits(k.messages, OnPort(k, fd))[m.id] + Hits(Clear(k.messages, OnPort(k, fd)), Owned(k, fd))[m.id]
            == if LosesReceiver(k, fd, m) then 1 else 0
  {
    HitOnce(k.messages, OnPort(k, fd), i);
    HitsAfter(k.messages, OnPort(k, fd), Owned(k, fd), i);
  }

  lemma LastHits(k: Desk, fd: int, i: nat)
    requires i < |k.messages| && k.messages[i].id != 0 && Count(k.messages, k.messages[i].id) <= 1
    ensures var m := k.messages[i];
            Hits(Clear(k.messages, Gone(k, fd)), SentBy(fd))[m.id]
            == if !LosesReceiver(k, fd, m) && m.senderFd == fd then 1 else 0
  {
    HitsAfter(k.messages, Gone(k, fd), SentBy(fd), i);
  }
}
