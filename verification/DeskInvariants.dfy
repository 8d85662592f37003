/** Every request and every disconnect keeps the invariants of the message
    protocol, and the history records how each message ended. */
module DeskInvariants {
  import opened Bytes
  import opened MessageDesk

  // ------------------------------------------------------------------
  // Counting pending messages
  // ------------------------------------------------------------------

  lemma {:induction false} ClearCounts(ms: seq<Message>, hit: Message -> bool, id: nat)
    ensures Pending(ms)[id] == Pending(Clear(ms, hit))[id] + Hits(ms, hit)[id]
  {
    if ms != [] {
      var n := |ms| - 1;
      ClearCounts(ms[..n], hit, id);
      assert Clear(ms, hit)[..n] == Clear(ms[..n], hit);
    }
  }

  function Is(m: Message, id: nat): nat { if m.id != 0 && m.id == id then 1 else 0 }

  /** How many pending messages have the id. */
  function Count(ms: seq<Message>, id: nat): nat {
    if ms == [] then 0 else Count(ms[..|ms| - 1], id) + Is(ms[|ms| - 1], id)
  }

  lemma {:induction false} PendingCount(ms: seq<Message>, id: nat)
    ensures Pending(ms)[id] == Count(ms, id)
  {
    if ms != [] { PendingCount(ms[..|ms| - 1], id); }
  }

  lemma {:induction false} UpdateCount(ms: seq<Message>, i: nat, m: Message, id: nat)
    requires i < |ms|
    ensures Count(ms[i := m], id) + Is(ms[i], id) == Count(ms, id) + Is(m, id)
  {
    var n, us := |ms| - 1, ms[i := m];
    if i == n {
      assert us[..n] == ms[..n];
    } else {
      UpdateCount(ms[..n], i, m, id);
      assert us[..n] == ms[..n][i := m];
    }
  }

  lemma UpdateCounts(ms: seq<Message>, i: nat, m: Message, id: nat)
    requires i < |ms|
    ensures Pending(ms[i := m])[id] + Is(ms[i], id) == Pending(ms)[id] + Is(m, id)
  {
    UpdateCount(ms, i, m, id);
    PendingCount(ms, id);
    PendingCount(ms[i := m], id);
  }

  lemma {:induction false} PendingOfNone(ms: seq<Message>)
    requires forall i :: 0 <= i < |ms| ==> ms[i].id == 0
    ensures Pending(ms) == multiset{}
  {
    if ms != [] { PendingOfNone(ms[..|ms| - 1]); }
  }

  lemma {:induction false} HitIsPending(ms: seq<Message>, hit: Message -> bool, id: nat)
    requires id in Hits(ms, hit)
    ensures exists i :: 0 <= i < |ms| && ms[i].id == id && id != 0 && hit(ms[i])
  {
    var n := |ms| - 1;
    if ms[n].id == id && id != 0 && hit(ms[n]) {
    } else {
      HitIsPending(ms[..n], hit, id);
      var i :| 0 <= i < n && ms[..n][i].id == id && id != 0 && hit(ms[..n][i]);
      assert ms[i].id == id && hit(ms[i]);
    }
  }

  lemma AbandonConserves(k: Desk, hit: Message -> bool)
    requires Conserved(k)
    ensures Conserved(Abandon(k, hit)) && Conserved(Forget(k, hit))
  {
    forall id: nat
      ensures Ends(Abandon(k, hit), id) == Ends(k, id) && Ends(Forget(k, hit), id) == Ends(k, id)
    {
      ClearCounts(k.messages, hit, id);
    }
  }

  // ------------------------------------------------------------------
  // Start
  // ------------------------------------------------------------------

  lemma EmptyInv()
    ensures Inv(EMPTY_DESK, map[])
  {
    PendingOfNone(EMPTY_DESK.messages);
  }

  // ------------------------------------------------------------------
  // Requests
  // ------------------------------------------------------------------

  /** Some port has the name, and belongs to the connection. */
  predicate Serves(ports: seq<Port>, name: Text, fd: int) {
    exists i :: 0 <= i < |ports| && ports[i].id != 0 && ports[i].name == name && ports[i].fd == fd
  }

  lemma AddPortInv(k: Desk, held: map<int, nat>, fd: int, name: Text, pid: Option<int>)
    requires Inv(k, held) && fd in held
    ensures Inv(AddPort(k, fd, name, pid).0, held)
    ensures AddPort(k, fd, name, pid).1 ==>
              FindPort(k.ports, name).None? && Serves(AddPort(k, fd, name, pid).0.ports, name, fd)
    ensures !AddPort(k, fd, name, pid).1 ==> AddPort(k, fd, name, pid).0 == k
  {
    var (j, ok) := AddPort(k, fd, name, pid);
    if ok {
      var slot := First(k.ports, (p: Port) => p.id == 0).value;
      assert j.ports[slot].name == name && j.ports[slot].fd == fd;
      forall m | Answerable(k, held.Keys, m) ensures Answerable(j, held.Keys, m) {
        var i :| 0 <= i < |k.ports| && k.ports[i].id == m.portId && k.ports[i].id != 0 && k.ports[i].pid == m.ownerPid;
        assert j.ports[i] == k.ports[i];
      }
    }
  }

  /** Messages that left the table were abandoned, not replied to and not forgotten. */
  ghost predicate OnlyAbandons(k: Desk, j: Desk) {
    && j.history.issued == k.history.issued && j.history.replied == k.history.replied
    && j.history.forgotten == k.history.forgotten
    && forall id: nat ::
         Pending(j.messages)[id] + j.history.abandoned[id] == Pending(k.messages)[id] + k.history.abandoned[id]
  }

  lemma AbandonOnly(k: Desk, hit: Message -> bool)
    ensures OnlyAbandons(k, Abandon(k, hit))
  {
    forall id: nat ensures Pending(Clear(k.messages, hit))[id] + (k.history.abandoned + Hits(k.messages, hit))[id]
                        == Pending(k.messages)[id] + k.history.abandoned[id]
    {
      ClearCounts(k.messages, hit, id);
    }
  }

  lemma AttachChannelInv(k: Desk, held: map<int, nat>, fd: int, pid: Option<int>)
    requires Inv(k, held) && fd in held
    ensures Inv(AttachChannel(k, fd, pid).0, held)
  {
    if pid.Some? {
      ReplaceInv(k, held, pid.value);
      NewChannelInv(Replace(k, pid.value), held, fd, pid.value);
    }
  }

  /** What an earlier channel of the process had delivered is abandoned, and nothing else ends. */
  lemma AttachChannelEnds(k: Desk, fd: int, pid: int)
    ensures OnlyAbandons(k, AttachChannel(k, fd, Some(pid)).0)
    ensures FindChannel(k.channels, pid).Some? ==>
              forall m :: m in AttachChannel(k, fd, Some(pid)).0.messages && m.id != 0 ==> m.ownerPid != pid
  {
    AbandonOnly(k, (m: Message) => m.ownerPid == pid);
  }

  lemma ReplaceInv(k: Desk, held: map<int, nat>, pid: int)
    requires Inv(k, held)
    ensures Inv(Replace(k, pid), held)
    ensures forall i :: 0 <= i < |k.channels| && Replace(k, pid).channels[i].id != 0 ==>
              Replace(k, pid).channels[i].pid != pid
  {
    var existing := FindChannel(k.channels, pid);
    if existing.Some? { ReplacedInv(k, held, pid, existing.value, Replace(k, pid)); }
  }

  /** Taking a channel out, its owner's messages abandoned. */
  lemma ReplacedInv(k: Desk, held: map<int, nat>, pid: int, slot: nat, j: Desk)
    requires Inv(k, held) && slot < |k.channels| && k.channels[slot].id != 0 && k.channels[slot].pid == pid
    requires j == Abandon(k, (m: Message) => m.ownerPid == pid).(channels := k.channels[slot := NO_CHANNEL])
    ensures Inv(j, held) && forall i :: 0 <= i < |j.channels| && j.channels[i].id != 0 ==> j.channels[i].pid != pid
  {
    var hit := (m: Message) => m.ownerPid == pid;
    AbandonConserves(k, hit);
    Unanswerable(k, held.Keys, hit, j);
    SameConserved(Abandon(k, hit), j);
  }

  /** Conservation is about messages and history only. */
  lemma SameConserved(k: Desk, j: Desk)
    requires Conserved(k) && j.messages == k.messages && j.history == k.history && j.nextMessage == k.nextMessage
    ensures Conserved(j)
  {
    forall id: nat ensures Ends(j, id) == if id in j.history.issued then 1 else 0 {
      assert Ends(j, id) == Ends(k, id);
    }
  }

  /** Ports and channels may go as long as the messages that need them go too. */
  lemma Unanswerable(k: Desk, open: set<int>, hit: Message -> bool, j: Desk)
    requires MessagesAnswerable(k, open) && j.messages == Clear(k.messages, hit) && j.nextMessage == k.nextMessage
    requires |j.ports| == |k.ports| && |j.channels| == |k.channels|
    requires forall m :: m in k.messages && m.id != 0 && !hit(m) ==> StillAnswered(k, j, m)
    ensures MessagesAnswerable(j, open)
  {
    forall i | 0 <= i < |j.messages| && j.messages[i].id != 0 ensures Answerable(j, open, j.messages[i]) {
      var m := k.messages[i];
      assert m in k.messages && j.messages[i] == m && !hit(m);
      StaysAnswerable(k, j, open, m);
    }
  }

  /** The message's port and its owner's channel, wherever they are, are untouched. */
  predicate StillAnswered(k: Desk, j: Desk, m: Message) {
    && |j.ports| == |k.ports| && |j.channels| == |k.channels|
    && (forall i :: 0 <= i < |k.ports| && k.ports[i].id == m.portId ==> j.ports[i] == k.ports[i])
    && (forall i :: 0 <= i < |k.channels| && k.channels[i].pid == m.ownerPid && k.channels[i].id != 0 ==>
          j.channels[i] == k.channels[i])
  }

  lemma StaysAnswerable(k: Desk, j: Desk, open: set<int>, m: Message)
    requires Answerable(k, open, m) && StillAnswered(k, j, m)
    ensures Answerable(j, open, m)
  {
    var p :| 0 <= p < |k.ports| && k.ports[p].id == m.portId && k.ports[p].id != 0 && k.ports[p].pid == m.ownerPid;
    var c :| 0 <= c < |k.channels| && k.channels[c].id != 0 && k.channels[c].pid == m.ownerPid;
    assert j.ports[p] == k.ports[p] && j.channels[c] == k.channels[c];
  }

  lemma NewChannelInv(k: Desk, held: map<int, nat>, fd: int, pid: int)
    requires Inv(k, held) && fd in held
    requires forall i :: 0 <= i < |k.channels| && k.channels[i].id != 0 ==> k.channels[i].pid != pid
    ensures Inv(NewChannel(k, fd, pid).0, held)
  {
    var j := NewChannel(k, fd, pid).0;
    forall m | Answerable(k, held.Keys, m) ensures Answerable(j, held.Keys, m) {
      var c :| 0 <= c < |k.channels| && k.channels[c].id != 0 && k.channels[c].pid == m.ownerPid;
      assert j.channels[c] == k.channels[c];
      assert j.ports == k.ports;
    }
  }

  lemma RemovePortInv(k: Desk, held: map<int, nat>, id: Option<nat>)
    requires Inv(k, held)
    ensures Inv(RemovePort(k, id).0, held)
  {
    var (j, ok) := RemovePort(k, id);
    if ok {
      var hit := (m: Message) => m.portId == id.value;
      AbandonConserves(k, hit);
      SameConserved(Abandon(k, hit), j);
      Unanswerable(k, held.Keys, hit, j);
    }
  }

  /** The messages of the port removed are abandoned, and nothing else ends. */
  lemma RemovePortEnds(k: Desk, id: Option<nat>)
    ensures OnlyAbandons(k, RemovePort(k, id).0) && (!RemovePort(k, id).1 ==> RemovePort(k, id).0 == k)
    ensures RemovePort(k, id).1 ==> forall m :: m in RemovePort(k, id).0.messages && m.id != 0 ==> m.portId != id.value
  {
    if id.Some? { AbandonOnly(k, (m: Message) => m.portId == id.value); }
  }

  /** Answerability does not depend on the messages themselves. */
  lemma SameTables(k: Desk, j: Desk, open: set<int>)
    requires j.ports == k.ports && j.channels == k.channels
    ensures forall m :: Answerable(j, open, m) <==> Answerable(k, open, m)
  {
  }

  lemma PutInv(k: Desk, held: map<int, nat>, name: Text, peer: int, pushed: bool)
    requires Inv(k, held)
    ensures Inv(Put(k, name, peer, pushed).0, held)
  {
    var (j, id) := Put(k, name, peer, pushed);
    if id.Some? {
      var slot := First(k.messages, (m: Message) => m.id == 0).value;
      PutAnswerable(k, held.Keys, name, peer, pushed, slot);
      IssueInv(k, held, slot, j.messages[slot]);
    } else {
      NumberInv(k, held, j.nextMessage);
    }
  }

  /** A number skipped leaves all else alone. */
  lemma NumberInv(k: Desk, held: map<int, nat>, n: nat)
    requires Inv(k, held) && n >= k.nextMessage
    ensures Inv(k.(nextMessage := n), held)
  {
    SameTables(k, k.(nextMessage := n), held.Keys);
    assert forall id: nat :: Ends(k.(nextMessage := n), id) == Ends(k, id);
  }

  /** A message is taken only for a live port whose owner and sender have channels. */
  lemma PutAnswerable(k: Desk, open: set<int>, name: Text, peer: int, pushed: bool, slot: nat)
    requires PortsLive(k, open) && ChannelsLive(k, open) && First(k.messages, (m: Message) => m.id == 0) == Some(slot)
    requires Put(k, name, peer, pushed).1.Some?
    ensures slot < |k.messages| && k.messages[slot].id == 0
    ensures var m := Put(k, name, peer, pushed).0.messages[slot];
            m.id == k.nextMessage && Answerable(k, open, m) && Put(k, name, peer, pushed).0 == Issue(k, slot, m)
  {
  }

  /** A message not taken, or whose push failed, leaves no record. */
  lemma PutLeaves(k: Desk, name: Text, peer: int, pushed: bool)
    ensures Put(k, name, peer, pushed).1.None? ==>
              Put(k, name, peer, pushed).0 == k.(nextMessage := Put(k, name, peer, pushed).0.nextMessage)
    ensures Put(k, name, peer, pushed).1.Some? ==>
              exists m, p, c :: m in Put(k, name, peer, pushed).0.messages
                                && p in k.ports && p.id != 0 && p.name == name
                                && c in k.channels && c.id != 0 && c.pid == peer
                                && m == Message(k.nextMessage, p.id, c.fd, peer, p.pid)
  {
    var (j, id) := Put(k, name, peer, pushed);
    if id.Some? {
      var p, c := k.ports[FindPort(k.ports, name).value], k.channels[FindChannel(k.channels, peer).value];
      var m := j.messages[First(k.messages, (x: Message) => x.id == 0).value];
      assert m in j.messages && p in k.ports && c in k.channels && m == Message(k.nextMessage, p.id, c.fd, peer, p.pid);
    }
  }

  lemma IssueInv(k: Desk, held: map<int, nat>, slot: nat, message: Message)
    requires Inv(k, held) && slot < |k.messages| && k.messages[slot].id == 0
    requires message.id == k.nextMessage && Answerable(k, held.Keys, message)
    ensures Inv(Issue(k, slot, message), held)
  {
    SameTables(k, Issue(k, slot, message), held.Keys);
    IssueConserves(k, slot, message);
  }

  lemma IssueEnds(k: Desk, slot: nat, message: Message, id: nat)
    requires slot < |k.messages| && k.messages[slot].id == 0 && message.id > 0
    ensures Ends(Issue(k, slot, message), id) == Ends(k, id) + if id == message.id then 1 else 0
  {
    UpdateCounts(k.messages, slot, message, id);
  }

  lemma IssueConserves(k: Desk, slot: nat, message: Message)
    requires Conserved(k) && slot < |k.messages| && k.messages[slot].id == 0 && k.nextMessage > 0
    requires message.id == k.nextMessage
    ensures Conserved(Issue(k, slot, message))
  {
    var j := Issue(k, slot, message);
    forall id: nat ensures Ends(j, id) == if id in j.history.issued then 1 else 0 {
      IssueEnds(k, slot, message, id);
      assert Ends(k, id) == if id in k.history.issued then 1 else 0;
    }
  }

  /** Message x has left the table and is replied to; no other count has changed. */
  ghost predicate OneReplied(k: Desk, j: Desk, x: nat) {
    && j.history == k.history.(replied := k.history.replied + multiset{x})
    && forall id: nat :: Pending(j.messages)[id] + (if id == x then 1 else 0) == Pending(k.messages)[id]
  }

  lemma ReplyInv(k: Desk, held: map<int, nat>, id: Option<nat>, peer: int)
    requires Inv(k, held)
    ensures Inv(Reply(k, id, peer).0, held)
  {
    var (j, ok) := Reply(k, id, peer);
    SameTables(k, j, held.Keys);
    if ok {
      var slot := First(k.messages, (m: Message) => m.id == id.value).value;
      EndsPending(k, held, slot);
      RepliedConserves(k, slot, j);
    }
  }

  /** A reply that goes through ends the one message it names; any other changes nothing. */
  lemma ReplyEnds(k: Desk, held: map<int, nat>, id: Option<nat>, peer: int)
    requires Inv(k, held)
    ensures !Reply(k, id, peer).1 ==> Reply(k, id, peer).0 == k
    ensures Reply(k, id, peer).1 ==> OneReplied(k, Reply(k, id, peer).0, id.value)
  {
    var (j, ok) := Reply(k, id, peer);
    if ok {
      var slot := First(k.messages, (m: Message) => m.id == id.value).value;
      EndsPending(k, held, slot);
      RepliedOnce(k, slot, j);
    }
  }

  /** Id 0 names no message: an empty record's owner is 0, and no peer is. */
  lemma EndsPending(k: Desk, held: map<int, nat>, slot: nat)
    requires Inv(k, held) && slot < |k.messages| && k.messages[slot].ownerPid > 0
    ensures k.messages[slot].id != 0
  {
  }

  lemma RepliedOnce(k: Desk, slot: nat, j: Desk)
    requires slot < |k.messages| && k.messages[slot].id != 0 && j.messages == k.messages[slot := NO_MESSAGE]
    requires j.history == k.history.(replied := k.history.replied + multiset{k.messages[slot].id})
    ensures OneReplied(k, j, k.messages[slot].id)
  {
    forall id: nat
      ensures Pending(j.messages)[id] + (if id == k.messages[slot].id then 1 else 0) == Pending(k.messages)[id]
    {
      UpdateCounts(k.messages, slot, NO_MESSAGE, id);
    }
  }

  lemma RepliedConserves(k: Desk, slot: nat, j: Desk)
    requires Conserved(k) && slot < |k.messages| && k.messages[slot].id != 0
    requires j.messages == k.messages[slot := NO_MESSAGE] && j.nextMessage == k.nextMessage
    requires j.history == k.history.(replied := k.history.replied + multiset{k.messages[slot].id})
    ensures Conserved(j)
  {
    forall id: nat ensures Ends(j, id) == Ends(k, id) {
      UpdateCounts(k.messages, slot, NO_MESSAGE, id);
    }
  }

  lemma AttachTaskInv(k: Desk, held: map<int, nat>, fd: int, name: Text, pid: Option<int>)
    requires Inv(k, held) && fd in held && held[fd] == 0
    ensures var (j, id) := AttachTask(k, fd, name, pid); Inv(j, held[fd := id])
  {
    var (j, id) := AttachTask(k, fd, name, pid);
    SameTables(k, j, held.Keys);
    assert held[fd := id].Keys == held.Keys;
  }

  /** A new connection holds nothing. */
  lemma AcceptInv(k: Desk, held: map<int, nat>, fd: int)
    requires Inv(k, held) && fd !in held
    ensures Inv(k, held[fd := 0])
  {
    assert held[fd := 0].Keys == held.Keys + {fd};
    forall m | Answerable(k, held.Keys, m) ensures Answerable(k, held.Keys + {fd}, m) { }
  }

  // ------------------------------------------------------------------
  // Disconnects
  // ------------------------------------------------------------------

  lemma DropTaskInv(k: Desk, held: map<int, nat>, fd: int)
    requires Inv(k, held) && fd in held
    ensures Inv(DropTask(k, held[fd]), held)
    ensures forall i :: 0 <= i < |k.tasks| && DropTask(k, held[fd]).tasks[i].id != 0 ==>
              DropTask(k, held[fd]).tasks[i].fd != fd
  {
    SameTables(k, DropTask(k, held[fd]), held.Keys);
  }

  lemma DropPortsInv(k: Desk, held: map<int, nat>, fd: int)
    requires Inv(k, held)
    ensures Inv(DropPorts(k, fd), held)
    ensures forall i :: 0 <= i < |k.ports| && DropPorts(k, fd).ports[i].id != 0 ==> DropPorts(k, fd).ports[i].fd != fd
  {
    var hit, j := (m: Message) => OnPortOf(k.ports, fd, m.portId), DropPorts(k, fd);
    AbandonConserves(k, hit);
    SameConserved(Abandon(k, hit), j);
    Unanswerable(k, held.Keys, hit, j);
  }

  lemma DropChannelsInv(k: Desk, held: map<int, nat>, fd: int)
    requires Inv(k, held)
    ensures Inv(DropChannels(k, fd), held)
    ensures forall i :: 0 <= i < |k.channels| && DropChannels(k, fd).channels[i].id != 0 ==>
              DropChannels(k, fd).channels[i].fd != fd
  {
    var hit, j := (m: Message) => OwnedVia(k.channels, fd, m.ownerPid), DropChannels(k, fd);
    AbandonConserves(k, hit);
    SameConserved(Abandon(k, hit), j);
    Unanswerable(k, held.Keys, hit, j);
  }

  lemma DropMessagesInv(k: Desk, held: map<int, nat>, fd: int)
    requires Inv(k, held)
    ensures Inv(DropMessages(k, fd), held)
    ensures forall i :: 0 <= i < |k.messages| && DropMessages(k, fd).messages[i].id != 0 ==>
              DropMessages(k, fd).messages[i].senderFd != fd
  {
    AbandonConserves(k, SentBy(fd));
    SameTables(k, DropMessages(k, fd), held.Keys);
  }

  /** After a disconnect nothing names the closed connection. */
  lemma DisconnectInv(k: Desk, held: map<int, nat>, fd: int)
    requires Inv(k, held) && fd in held
    ensures Inv(Disconnect(k, fd, held[fd]), held - {fd})
  {
    var a := DropTask(k, held[fd]);
    DropTaskInv(k, held, fd);
    var b := DropPorts(a, fd);
    DropPortsInv(a, held, fd);
    var c := DropChannels(b, fd);
    DropChannelsInv(b, held, fd);
    var d := DropMessages(c, fd);
    DropMessagesInv(c, held, fd);
    assert b.tasks == a.tasks && c.tasks == a.tasks && d.tasks == a.tasks;
    assert c.ports == b.ports && d.ports == b.ports && d.channels == c.channels;
    NothingNames(d, held, fd);
  }

  lemma NothingNames(k: Desk, held: map<int, nat>, fd: int)
    requires Inv(k, held)
    requires forall i :: 0 <= i < |k.tasks| && k.tasks[i].id != 0 ==> k.tasks[i].fd != fd
    requires forall i :: 0 <= i < |k.ports| && k.ports[i].id != 0 ==> k.ports[i].fd != fd
    requires forall i :: 0 <= i < |k.channels| && k.channels[i].id != 0 ==> k.channels[i].fd != fd
    requires forall i :: 0 <= i < |k.messages| && k.messages[i].id != 0 ==> k.messages[i].senderFd != fd
    ensures Inv(k, held - {fd})
  {
    assert (held - {fd}).Keys == held.Keys - {fd};
    forall i | 0 <= i < |k.messages| && k.messages[i].id != 0
      ensures Answerable(k, held.Keys - {fd}, k.messages[i])
    {
      assert Answerable(k, held.Keys, k.messages[i]);
    }
  }

  // ------------------------------------------------------------------
  // How a message ends
  // ------------------------------------------------------------------

  /** The conservation equation over all messages at once. */
  lemma Conservation(k: Desk)
    requires Conserved(k)
    ensures multiset(k.history.issued)
         == Pending(k.messages) + k.history.replied + k.history.abandoned + k.history.forgotten
  {
    forall id: nat ensures multiset(k.history.issued)[id] == Ends(k, id) {
      assert Ends(k, id) == if id in k.history.issued then 1 else 0;
    }
  }

  /** A reply goes through only for the pending message named, and only from the
      process the message was delivered to. */
  lemma RepliedByOwner(k: Desk, held: map<int, nat>, id: Option<nat>, peer: int, x: nat)
    requires Inv(k, held) && Reply(k, id, peer).0.history.replied[x] != k.history.replied[x]
    ensures id == Some(x)
    ensures exists i :: 0 <= i < |k.messages| && k.messages[i].id == x && x != 0 && k.messages[i].ownerPid == peer
  {
    var slot := First(k.messages, (m: Message) => m.id == id.value).value;
    assert k.messages[slot].id == x;
  }

  /** A message is forgotten only when the very connection its reply would go to closes. */
  lemma ForgottenBySender(k: Desk, held: map<int, nat>, fd: int, x: nat)
    requires Inv(k, held) && fd in held
    requires Disconnect(k, fd, held[fd]).history.forgotten[x] != k.history.forgotten[x]
    ensures exists i :: 0 <= i < |k.messages| && k.messages[i].id == x && x != 0 && k.messages[i].senderFd == fd
  {
    var c := DropChannels(DropPorts(DropTask(k, held[fd]), fd), fd);
    var hit := SentBy(fd);
    assert x in Hits(c.messages, hit);
    HitIsPending(c.messages, hit, x);
    var i :| 0 <= i < |c.messages| && c.messages[i].id == x && x != 0 && hit(c.messages[i]);
    assert c.messages[i] == k.messages[i];
  }
}
