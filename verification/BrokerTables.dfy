/** The broker's fixed tables, searched and updated in place: every routine has
    the effect the message protocol gives it as a value. */
module BrokerTables {
  import opened Bytes
  import opened MessageDesk

  // ------------------------------------------------------------------
  // One clearing after another
  // ------------------------------------------------------------------

  lemma {:induction false} HitsCongruent(ms: seq<Message>, g: Message -> bool, h: Message -> bool)
    requires forall i :: 0 <= i < |ms| && ms[i].id != 0 ==> g(ms[i]) == h(ms[i])
    ensures Hits(ms, g) == Hits(ms, h)
  {
    if ms != [] { HitsCongruent(ms[..|ms| - 1], g, h); }
  }

  /** Clearing twice hits what clearing once for either reason hits, and no
      message is counted twice. */
  lemma {:induction false} HitsCompose(ms: seq<Message>, g: Message -> bool, h: Message -> bool, both: Message -> bool,
                                       id: nat)
    requires forall m :: m in ms && m.id != 0 ==> both(m) == (g(m) || h(m))
    ensures Hits(ms, both)[id] == Hits(ms, g)[id] + Hits(Clear(ms, g), h)[id]
  {
    if ms == [] {
      assert Clear(ms, g) == [];
    } else {
      var n := |ms| - 1;
      HitsCompose(ms[..n], g, h, both, id);
      ComposeLast(ms, g, h, both, id);
    }
  }

  lemma ComposeLast(ms: seq<Message>, g: Message -> bool, h: Message -> bool, both: Message -> bool, id: nat)
    requires ms != [] && (ms[|ms| - 1].id != 0 ==> both(ms[|ms| - 1]) == (g(ms[|ms| - 1]) || h(ms[|ms| - 1])))
    requires Hits(ms[..|ms| - 1], both)[id] == Hits(ms[..|ms| - 1], g)[id] + Hits(Clear(ms[..|ms| - 1], g), h)[id]
    ensures Hits(ms, both)[id] == Hits(ms, g)[id] + Hits(Clear(ms, g), h)[id]
  {
    var n, c := |ms| - 1, Clear(ms, g);
    assert c[..n] == Clear(ms[..n], g);
    HitsLast(ms, g, id);
    HitsLast(ms, both, id);
    HitsLast(c, h, id);
    assert Hit(ms[n], both, id) == Hit(ms[n], g, id) + Hit(c[n], h, id);
  }

  function Hit(m: Message, hit: Message -> bool, id: nat): nat {
    if m.id != 0 && hit(m) && m.id == id then 1 else 0
  }

  lemma HitsLast(ms: seq<Message>, hit: Message -> bool, id: nat)
    requires ms != []
    ensures Hits(ms, hit)[id] == Hits(ms[..|ms| - 1], hit)[id] + Hit(ms[|ms| - 1], hit, id)
  {
  }

  lemma ClearCompose(ms: seq<Message>, g: Message -> bool, h: Message -> bool, both: Message -> bool)
    requires forall m :: m in ms && m.id != 0 ==> both(m) == (g(m) || h(m))
    ensures Clear(ms, both) == Clear(Clear(ms, g), h)
    ensures Hits(ms, both) == Hits(ms, g) + Hits(Clear(ms, g), h)
  {
    forall id: nat ensures Hits(ms, both)[id] == (Hits(ms, g) + Hits(Clear(ms, g), h))[id] {
      HitsCompose(ms, g, h, both, id);
    }
  }

  lemma AbandonCompose(k: Desk, g: Message -> bool, h: Message -> bool, both: Message -> bool)
    requires forall m :: m in k.messages && m.id != 0 ==> both(m) == (g(m) || h(m))
    ensures Abandon(Abandon(k, g), h) == Abandon(k, both)
  {
    ClearCompose(k.messages, g, h, both);
    SumRegroups(k.history.abandoned, Hits(k.messages, g), Hits(Clear(k.messages, g), h));
  }

  lemma SumRegroups(a: multiset<nat>, b: multiset<nat>, c: multiset<nat>)
    ensures a + b + c == a + (b + c)
  {
  }

  /** The first n messages dealt with. */
  ghost predicate ClearedTo(was: seq<Message>, now: seq<Message>, hit: Message -> bool, n: nat) {
    && |now| == |was|
    && (forall i :: 0 <= i < |was| && i < n ==> now[i] == if was[i].id != 0 && hit(was[i]) then NO_MESSAGE else was[i])
    && (forall i :: n <= i < |was| ==> now[i] == was[i])
  }

  lemma HitsNext(ms: seq<Message>, hit: Message -> bool, n: nat)
    requires n < |ms|
    ensures Hits(ms[..n + 1], hit)
         == Hits(ms[..n], hit) + (if ms[n].id != 0 && hit(ms[n]) then multiset{ms[n].id} else multiset{})
  {
    assert ms[..n + 1][..n] == ms[..n];
  }

  lemma ClearedAll(was: seq<Message>, now: seq<Message>, hit: Message -> bool)
    requires ClearedTo(was, now, hit, |was|)
    ensures now == Clear(was, hit) && was[..|was|] == was
  {
  }

  class Tables {
    const tasks: array<Task>
    const ports: array<Port>
    const channels: array<Channel>
    const messages: array<Message>
    var nextTask: nat
    var nextPort: nat
    var nextChannel: nat
    var nextMessage: nat
    ghost var history: History

    /** The tables as a value. */
    ghost function View(): Desk
      reads this, tasks, ports, channels, messages
    {
      Desk(tasks[..], nextTask, ports[..], nextPort, channels[..], nextChannel, messages[..], nextMessage, history)
    }

    constructor ()
      ensures View() == EMPTY_DESK
      ensures fresh(tasks) && fresh(ports) && fresh(channels) && fresh(messages)
    {
      tasks := new Task[MAX_TASKS](_ => NO_TASK);
      ports := new Port[MAX_PORTS](_ => NO_PORT);
      channels := new Channel[MAX_CHANNELS](_ => NO_CHANNEL);
      messages := new Message[MAX_MESSAGES](_ => NO_MESSAGE);
      nextTask, nextPort, nextChannel, nextMessage := 1, 1, 1, 1;
      history := EMPTY_DESK.history;
      new;
      assert tasks[..] == EMPTY_DESK.tasks && ports[..] == EMPTY_DESK.ports;
      assert channels[..] == EMPTY_DESK.channels && messages[..] == EMPTY_DESK.messages;
    }

    /** Table look-ups: the first slot that fits. */
    static method Find<T>(table: array<T>, fits: T -> bool) returns (r: Option<nat>)
      ensures r == First(table[..], fits)
    {
      var i := 0;
      while i < table.Length && !fits(table[i])
        invariant i <= table.Length && First(table[..], fits) == First(table[..], fits, i)
      {
        i := i + 1;
      }
      r := if i < table.Length then Some(i) else None;
    }

    // ----------------------------------------------------------------
    // Ending messages
    // ----------------------------------------------------------------

    /** One pass over the message table; the ids of the messages it ends. */
    static method ClearHits(messages: array<Message>, hit: Message -> bool) returns (ghost ended: multiset<nat>)
      modifies messages
      ensures messages[..] == Clear(old(messages[..]), hit) && ended == Hits(old(messages[..]), hit)
    {
      ghost var was := messages[..];
      ended := multiset{};
      var i := 0;
      while i < messages.Length
        invariant i <= messages.Length == |was| && ClearedTo(was, messages[..], hit, i)
        invariant ended == Hits(was[..i], hit)
      {
        HitsNext(was, hit, i);
        ended := ended + (if messages[i].id != 0 && hit(messages[i]) then multiset{messages[i].id} else multiset{});
        ClearOne(messages, hit, i, was);
        i := i + 1;
      }
      ClearedAll(was, messages[..], hit);
    }

    static method ClearOne(messages: array<Message>, hit: Message -> bool, i: nat, ghost was: seq<Message>)
      requires i < messages.Length == |was| && ClearedTo(was, messages[..], hit, i)
      modifies messages
      ensures ClearedTo(was, messages[..], hit, i + 1)
    {
      if messages[i].id != 0 && hit(messages[i]) { messages[i] := NO_MESSAGE; }
    }

    /** abandon_messages_for_port() and abandon_messages_for_owner(). */
    method AbandonMessages(hit: Message -> bool)
      modifies messages, this`history
      ensures View() == Abandon(old(View()), hit)
    {
      ghost var ended := ClearHits(messages, hit);
      history := history.(abandoned := history.abandoned + ended);
    }

    /** drop_connection_port_messages(). */
    method DropMessages(fd: int)
      modifies messages, this`history
      ensures View() == MessageDesk.DropMessages(old(View()), fd)
    {
      ghost var ended := ClearHits(messages, SentBy(fd));
      history := history.(forgotten := history.forgotten + ended);
    }

    // ----------------------------------------------------------------
    // Requests
    // ----------------------------------------------------------------

    method AddPort(fd: int, name: Text, pid: Option<int>) returns (ok: bool)
      modifies this, ports
      ensures (View(), ok) == MessageDesk.AddPort(old(View()), fd, name, pid)
    {
      if name == [] || |name| >= MAX_NAME || pid.None? { return false; }
      var taken := Find(ports, (p: Port) => p.id != 0 && p.name == name);
      if taken.Some? { return false; }
      var slot := Find(ports, (p: Port) => p.id == 0);
      if slot.None? { return false; }
      ports[slot.value] := Port(nextPort, fd, pid.value, name);
      nextPort := nextPort + 1;
      return true;
    }

    method AttachChannel(fd: int, pid: Option<int>) returns (id: nat)
      modifies this, channels, messages
      ensures (View(), id) == MessageDesk.AttachChannel(old(View()), fd, pid)
    {
      if pid.None? { return 0; }
      ReplaceChannel(pid.value);
      var slot := Find(channels, (c: Channel) => c.id == 0);
      if slot.None? { return 0; }
      id := nextChannel;
      channels[slot.value] := Channel(nextChannel, fd, pid.value);
      nextChannel := nextChannel + 1;
    }

    method ReplaceChannel(pid: int)
      modifies this, channels, messages
      ensures View() == Replace(old(View()), pid)
    {
      var existing := Find(channels, (c: Channel) => c.id != 0 && c.pid == pid);
      if existing.Some? {
        AbandonMessages((m: Message) => m.ownerPid == pid);
        channels[existing.value] := NO_CHANNEL;
      }
    }

    method RemovePort(id: Option<nat>) returns (ok: bool)
      modifies this, ports, messages
      ensures (View(), ok) == MessageDesk.RemovePort(old(View()), id)
    {
      if id.None? { return false; }
      var slot := Find(ports, (p: Port) => p.id == id.value);
      if slot.None? { return false; }
      AbandonMessages((m: Message) => m.portId == id.value);
      ports[slot.value] := NO_PORT;
      return true;
    }

    /** The first free message record is filled in before the push, and cleared
        again if the push fails. */
    method Send(message: Message, pushed: bool) returns (id: Option<nat>)
      requires forall i :: 0 <= i < messages.Length && messages[i].id == 0 ==> messages[i] == NO_MESSAGE
      requires message.id == nextMessage
      modifies this`nextMessage, this`history, messages
      ensures (View(), id) == Sent(old(View()), message, pushed)
    {
      var slot := Find(messages, (m: Message) => m.id == 0);
      if slot.None? { return None; }
      messages[slot.value] := message;
      nextMessage := nextMessage + 1;
      if !pushed {
        messages[slot.value] := NO_MESSAGE;
        assert messages[..] == old(messages[..]);
        return None;
      }
      history := history.(issued := history.issued + {message.id});
      return Some(message.id);
    }

    method Put(name: Text, peer: int, pushed: bool) returns (id: Option<nat>)
      requires forall i :: 0 <= i < messages.Length && messages[i].id == 0 ==> messages[i] == NO_MESSAGE
      modifies this`nextMessage, this`history, messages
      ensures (View(), id) == MessageDesk.Put(old(View()), name, peer, pushed)
    {
      if name == [] { return None; }
      var p := Find(ports, (p: Port) => p.id != 0 && p.name == name);
      if p.None? || peer <= 0 { return None; }
      var port := ports[p.value];
      var owner := Find(channels, (c: Channel) => c.id != 0 && c.pid == port.pid);
      var sender := Find(channels, (c: Channel) => c.id != 0 && c.pid == peer);
      if owner.None? || sender.None? { return None; }
      id := Send(Message(nextMessage, port.id, channels[sender.value].fd, peer, port.pid), pushed);
    }

    method Reply(id: Option<nat>, peer: int) returns (ok: bool)
      modifies this, messages
      ensures (View(), ok) == MessageDesk.Reply(old(View()), id, peer)
    {
      if id.None? { return false; }
      var slot := Find(messages, (m: Message) => m.id == id.value);
      if slot.None? || peer <= 0 || peer != messages[slot.value].ownerPid { return false; }
      history := history.(replied := history.replied + multiset{messages[slot.value].id});
      messages[slot.value] := NO_MESSAGE;
      return true;
    }

    method AttachTask(fd: int, name: Text, pid: Option<int>) returns (id: nat)
      modifies this, tasks
      ensures (View(), id) == MessageDesk.AttachTask(old(View()), fd, name, pid)
    {
      if name == [] || |name| >= MAX_NAME || pid.None? { return 0; }
      var slot := Find(tasks, (t: Task) => t.id == 0);
      if slot.None? { return 0; }
      id := nextTask;
      tasks[slot.value] := Task(nextTask, fd, pid.value, name);
      nextTask := nextTask + 1;
    }

    // ----------------------------------------------------------------
    // Disconnects
    // ----------------------------------------------------------------

    method DropTask(taskId: nat)
      modifies tasks
      ensures View() == MessageDesk.DropTask(old(View()), taskId)
    {
      if taskId != 0 {
        var slot := Find(tasks, (t: Task) => t.id == taskId);
        if slot.Some? { tasks[slot.value] := NO_TASK; }
      }
    }

    /** Each port of the connection goes, its messages abandoned first. */
    method DropPorts(fd: int)
      modifies this`history, ports, messages
      ensures View() == MessageDesk.DropPorts(old(View()), fd)
    {
      ghost var k := View();
      StartPorts(k, fd);
      var i := 0;
      while i < ports.Length
        invariant i <= ports.Length == |k.ports| && View() == PortsDropped(k, fd, i)
        modifies this`history, ports, messages
      {
        StepPorts(k, fd, i);
        if ports[i].id != 0 && ports[i].fd == fd {
          var id := ports[i].id;
          AbandonMessages((m: Message) => m.portId == id);
          ports[i] := NO_PORT;
        }
        i := i + 1;
      }
      assert k.ports[..i] == k.ports;
    }

    /** Each channel of the connection goes, its owner's messages abandoned first. */
    method DropChannels(fd: int)
      modifies this`history, channels, messages
      ensures View() == MessageDesk.DropChannels(old(View()), fd)
    {
      ghost var k := View();
      StartChannels(k, fd);
      var i := 0;
      while i < channels.Length
        invariant i <= channels.Length == |k.channels| && View() == ChannelsDropped(k, fd, i)
        modifies this`history, channels, messages
      {
        StepChannels(k, fd, i);
        if channels[i].id != 0 && channels[i].fd == fd {
          var pid := channels[i].pid;
          AbandonMessages((m: Message) => m.ownerPid == pid);
          channels[i] := NO_CHANNEL;
        }
        i := i + 1;
      }
      assert k.channels[..i] == k.channels;
    }

    /** What drop_connection() does to the tables. */
    method Disconnect(fd: int, taskId: nat)
      modifies this`history, tasks, ports, channels, messages
      ensures View() == MessageDesk.Disconnect(old(View()), fd, taskId)
    {
      DropTask(taskId);
      DropPorts(fd);
      DropChannels(fd);
      DropMessages(fd);
    }
  }

  // ------------------------------------------------------------------
  // One slot after another
  // ------------------------------------------------------------------

  lemma {:induction false} HitsNone(ms: seq<Message>, hit: Message -> bool)
    requires forall i :: 0 <= i < |ms| ==> !hit(ms[i])
    ensures Hits(ms, hit) == multiset{}
  {
    if ms != [] { HitsNone(ms[..|ms| - 1], hit); }
  }

  /** The tables with the first n ports dealt with. */
  ghost function PortsDropped(k: Desk, fd: int, n: nat): Desk
    requires n <= |k.ports|
  {
    Abandon(k, (m: Message) => OnPortOf(k.ports[..n], fd, m.portId)).(
      ports := seq(|k.ports|, i requires 0 <= i < |k.ports| =>
        if i < n && k.ports[i].id != 0 && k.ports[i].fd == fd then NO_PORT else k.ports[i]))
  }

  lemma StartPorts(k: Desk, fd: int)
    ensures PortsDropped(k, fd, 0) == k
  {
    HitsNone(k.messages, (m: Message) => OnPortOf(k.ports[..0], fd, m.portId));
    assert PortsDropped(k, fd, 0).messages == k.messages;
  }

  lemma OnPortOfGrows(ports: seq<Port>, fd: int, i: nat, key: nat)
    requires i < |ports|
    ensures OnPortOf(ports[..i + 1], fd, key) <==>
              OnPortOf(ports[..i], fd, key) || (ports[i].id != 0 && ports[i].fd == fd && ports[i].id == key)
  {
    var a, b := ports[..i + 1], ports[..i];
    if OnPortOf(b, fd, key) {
      var j :| 0 <= j < |b| && b[j].id != 0 && b[j].fd == fd && b[j].id == key;
      assert a[j] == b[j];
    }
    if OnPortOf(a, fd, key) {
      var j :| 0 <= j < |a| && a[j].id != 0 && a[j].fd == fd && a[j].id == key;
      assert j < i ==> b[j] == a[j];
    }
    assert a[i] == ports[i];
  }

  /** Slot i: a port of the connection goes, any other stays. */
  ghost function PortDropped(j: Desk, fd: int, i: nat, p: Port): Desk
    requires i < |j.ports|
  {
    if p.id != 0 && p.fd == fd
    then Abandon(j, (m: Message) => m.portId == p.id).(ports := j.ports[i := NO_PORT])
    else j
  }

  lemma StepPorts(k: Desk, fd: int, i: nat)
    requires i < |k.ports|
    ensures PortsDropped(k, fd, i + 1) == PortDropped(PortsDropped(k, fd, i), fd, i, k.ports[i])
  {
    var p := k.ports[i];
    var before := (m: Message) => OnPortOf(k.ports[..i], fd, m.portId);
    var after := (m: Message) => OnPortOf(k.ports[..i + 1], fd, m.portId);
    forall key: nat ensures OnPortOf(k.ports[..i + 1], fd, key) <==>
                          OnPortOf(k.ports[..i], fd, key) || (p.id != 0 && p.fd == fd && p.id == key)
    {
      OnPortOfGrows(k.ports, fd, i, key);
    }
    if p.id != 0 && p.fd == fd {
      AbandonCompose(k, before, (m: Message) => m.portId == p.id, after);
    } else {
      HitsCongruent(k.messages, before, after);
      assert Clear(k.messages, before) == Clear(k.messages, after);
    }
    assert PortsDropped(k, fd, i + 1).ports == PortDropped(PortsDropped(k, fd, i), fd, i, p).ports;
  }

  /** The tables with the first n channels dealt with. */
  ghost function ChannelsDropped(k: Desk, fd: int, n: nat): Desk
    requires n <= |k.channels|
  {
    Abandon(k, (m: Message) => OwnedVia(k.channels[..n], fd, m.ownerPid)).(
      channels := seq(|k.channels|, i requires 0 <= i < |k.channels| =>
        if i < n && k.channels[i].id != 0 && k.channels[i].fd == fd then NO_CHANNEL else k.channels[i]))
  }

  lemma StartChannels(k: Desk, fd: int)
    ensures ChannelsDropped(k, fd, 0) == k
  {
    HitsNone(k.messages, (m: Message) => OwnedVia(k.channels[..0], fd, m.ownerPid));
    assert ChannelsDropped(k, fd, 0).messages == k.messages;
  }

  lemma OwnedViaGrows(channels: seq<Channel>, fd: int, i: nat, key: int)
    requires i < |channels|
    ensures OwnedVia(channels[..i + 1], fd, key) <==>
              || OwnedVia(channels[..i], fd, key)
              || (channels[i].id != 0 && channels[i].fd == fd && channels[i].pid == key)
  {
    var a, b := channels[..i + 1], channels[..i];
    if OwnedVia(b, fd, key) {
      var j :| 0 <= j < |b| && b[j].id != 0 && b[j].fd == fd && b[j].pid == key;
      assert a[j] == b[j];
    }
    if OwnedVia(a, fd, key) {
      var j :| 0 <= j < |a| && a[j].id != 0 && a[j].fd == fd && a[j].pid == key;
      assert j < i ==> b[j] == a[j];
    }
    assert a[i] == channels[i];
  }

  /** Slot i: a channel of the connection goes, any other stays. */
  ghost function ChannelDropped(j: Desk, fd: int, i: nat, p: Channel): Desk
    requires i < |j.channels|
  {
    if p.id != 0 && p.fd == fd
    then Abandon(j, (m: Message) => m.ownerPid == p.pid).(channels := j.channels[i := NO_CHANNEL])
    else j
  }

  lemma StepChannels(k: Desk, fd: int, i: nat)
    requires i < |k.channels|
    ensures ChannelsDropped(k, fd, i + 1) == ChannelDropped(ChannelsDropped(k, fd, i), fd, i, k.channels[i])
  {
    var p := k.channels[i];
    var before := (m: Message) => OwnedVia(k.channels[..i], fd, m.ownerPid);
    var after := (m: Message) => OwnedVia(k.channels[..i + 1], fd, m.ownerPid);
    forall key: int ensures OwnedVia(k.channels[..i + 1], fd, key) <==>
                          OwnedVia(k.channels[..i], fd, key) || (p.id != 0 && p.fd == fd && p.pid == key)
    {
      OwnedViaGrows(k.channels, fd, i, key);
    }
    if p.id != 0 && p.fd == fd {
      AbandonCompose(k, before, (m: Message) => m.ownerPid == p.pid, after);
    } else {
      HitsCongruent(k.messages, before, after);
      assert Clear(k.messages, before) == Clear(k.messages, after);
    }
    assert ChannelsDropped(k, fd, i + 1).channels == ChannelDropped(ChannelsDropped(k, fd, i), fd, i, p).channels;
  }
}
