/** The broker's message protocol as a value: tasks, ports, delivery channels and
    messages in flight, each a fixed table whose slot is empty when its id is 0,
    together with the history of how every message ended.

    A request either succeeds and changes the tables or fails and leaves them
    alone; whether a socket write succeeds is an argument. */
module MessageDesk {
  import opened Bytes

  const MAX_TASKS := 256
  const MAX_PORTS := 128
  const MAX_CHANNELS := 256
  const MAX_MESSAGES := 256
  const MAX_NAME := 64

  datatype Task = Task(id: nat, fd: int, pid: int, name: Text)
  datatype Port = Port(id: nat, fd: int, pid: int, name: Text)
  datatype Channel = Channel(id: nat, fd: int, pid: int)
  datatype Message = Message(id: nat, portId: nat, senderFd: int, senderPid: int, ownerPid: int)

  const NO_TASK := Task(0, 0, 0, [])
  const NO_PORT := Port(0, 0, 0, [])
  const NO_CHANNEL := Channel(0, 0, 0)
  const NO_MESSAGE := Message(0, 0, 0, 0, 0)

  /** How messages ended: a terminal push attempted (a reply or an abandonment),
      or the sender's connection closed. */
  datatype History = History(issued: set<nat>, replied: multiset<nat>, abandoned: multiset<nat>,
                             forgotten: multiset<nat>)

  datatype Desk = Desk(
    tasks: seq<Task>, nextTask: nat,
    ports: seq<Port>, nextPort: nat,
    channels: seq<Channel>, nextChannel: nat,
    messages: seq<Message>, nextMessage: nat,
    history: History)

  const EMPTY_DESK := Desk(
    seq(MAX_TASKS, _ => NO_TASK), 1, seq(MAX_PORTS, _ => NO_PORT), 1,
    seq(MAX_CHANNELS, _ => NO_CHANNEL), 1, seq(MAX_MESSAGES, _ => NO_MESSAGE), 1,
    History({}, multiset{}, multiset{}, multiset{}))

  function FindPort(ports: seq<Port>, name: Text): Option<nat> {
    First(ports, (p: Port) => p.id != 0 && p.name == name)
  }

  function FindChannel(channels: seq<Channel>, pid: int): Option<nat> {
    First(channels, (c: Channel) => c.id != 0 && c.pid == pid)
  }

  // ------------------------------------------------------------------
  // Ending messages
  // ------------------------------------------------------------------

  /** Every pending message that is hit leaves the table. */
  function Clear(ms: seq<Message>, hit: Message -> bool): (r: seq<Message>)
    ensures |r| == |ms|
    ensures forall i :: 0 <= i < |ms| ==> r[i] == if ms[i].id != 0 && hit(ms[i]) then NO_MESSAGE else ms[i]
  {
    seq(|ms|, i requires 0 <= i < |ms| => if ms[i].id != 0 && hit(ms[i]) then NO_MESSAGE else ms[i])
  }

  /** The ids of the pending messages. */
  function Pending(ms: seq<Message>): multiset<nat> {
    if ms == [] then multiset{}
    else Pending(ms[..|ms| - 1]) + (if ms[|ms| - 1].id != 0 then multiset{ms[|ms| - 1].id} else multiset{})
  }

  /** The ids of the pending messages that are hit. */
  function Hits(ms: seq<Message>, hit: Message -> bool): multiset<nat> {
    if ms == [] then multiset{}
    else
      var m := ms[|ms| - 1];
      Hits(ms[..|ms| - 1], hit) + (if m.id != 0 && hit(m) then multiset{m.id} else multiset{})
  }

  /** abandon_messages_for_port() and abandon_messages_for_owner(): an ABANDONED
      push is attempted for each message hit. */
  function Abandon(k: Desk, hit: Message -> bool): Desk {
    k.(messages := Clear(k.messages, hit),
       history := k.history.(abandoned := k.history.abandoned + Hits(k.messages, hit)))
  }

  /** drop_connection_port_messages(): the sender is gone. */
  function Forget(k: Desk, hit: Message -> bool): Desk {
    k.(messages := Clear(k.messages, hit),
       history := k.history.(forgotten := k.history.forgotten + Hits(k.messages, hit)))
  }

  // ------------------------------------------------------------------
  // Requests
  // ------------------------------------------------------------------

  /** add_port(); pid is what strtol() and the cast made of the text, None if it was not one. */
  function AddPort(k: Desk, fd: int, name: Text, pid: Option<int>): (r: (Desk, bool)) {
    var slot := First(k.ports, (p: Port) => p.id == 0);
    if name == [] || |name| >= MAX_NAME || pid.None? || FindPort(k.ports, name).Some? || slot.None? then (k, false)
    else
      (k.(ports := k.ports[slot.value := Port(k.nextPort, fd, pid.value, name)], nextPort := k.nextPort + 1), true)
  }

  /** A process's earlier channel makes way: what it was delivered can no longer be answered. */
  function Replace(k: Desk, pid: int): Desk {
    var existing := FindChannel(k.channels, pid);
    if existing.None? then k
    else Abandon(k, (m: Message) => m.ownerPid == pid).(channels := k.channels[existing.value := NO_CHANNEL])
  }

  /** Claim a free slot, if there is one, for a process's channel. */
  function NewChannel(k: Desk, fd: int, pid: int): (r: (Desk, nat)) {
    var slot := First(k.channels, (c: Channel) => c.id == 0);
    if slot.None? then (k, 0)
    else
      (k.(channels := k.channels[slot.value := Channel(k.nextChannel, fd, pid)], nextChannel := k.nextChannel + 1),
       k.nextChannel)
  }

  /** attach_port_channel() on a connection that holds no channel yet. */
  function AttachChannel(k: Desk, fd: int, pid: Option<int>): (r: (Desk, nat)) {
    if pid.None? then (k, 0) else NewChannel(Replace(k, pid.value), fd, pid.value)
  }

  /** PORT_REM by id. */
  function RemovePort(k: Desk, id: Option<nat>): (r: (Desk, bool)) {
    if id.None? then (k, false)
    else
      var slot := First(k.ports, (p: Port) => p.id == id.value);
      if slot.None? then (k, false)
      else (Abandon(k, (m: Message) => m.portId == id.value).(ports := k.ports[slot.value := NO_PORT]), true)
  }

  /** PORT_PUT; peer is the sender's pid as the kernel gives it, pushed whether
      the message reached the owner's channel. */
  function Put(k: Desk, name: Text, peer: int, pushed: bool): (r: (Desk, Option<nat>)) {
    var p := FindPort(k.ports, name);
    if name == [] || p.None? || peer <= 0 then (k, None)
    else
      var port := k.ports[p.value];
      var owner, sender := FindChannel(k.channels, port.pid), FindChannel(k.channels, peer);
      if owner.None? || sender.None? then (k, None)
      else Sent(k, Message(k.nextMessage, port.id, k.channels[sender.value].fd, peer, port.pid), pushed)
  }

  /** The message takes the first free record, if there is one, for as long as it is pending. */
  function Sent(k: Desk, message: Message, pushed: bool): (r: (Desk, Option<nat>)) {
    var slot := First(k.messages, (m: Message) => m.id == 0);
    if slot.None? then (k, None)
    else if !pushed then (k.(nextMessage := k.nextMessage + 1), None)
    else (Issue(k, slot.value, message), Some(message.id))
  }

  function Issue(k: Desk, slot: nat, message: Message): Desk
    requires slot < |k.messages|
  {
    k.(messages := k.messages[slot := message], nextMessage := k.nextMessage + 1,
       history := k.history.(issued := k.history.issued + {message.id}))
  }

  /** PORT_REPLY: answered by the process it was delivered to, and ended whether
      or not the reply could be written. */
  function Reply(k: Desk, id: Option<nat>, peer: int): (r: (Desk, bool)) {
    if id.None? then (k, false)
    else
      var slot := First(k.messages, (m: Message) => m.id == id.value);
      if slot.None? || peer <= 0 || peer != k.messages[slot.value].ownerPid then (k, false)
      else
        (k.(messages := k.messages[slot.value := NO_MESSAGE],
            history := k.history.(replied := k.history.replied + multiset{k.messages[slot.value].id})), true)
  }

  /** attach_task() on a connection that holds no task yet. */
  function AttachTask(k: Desk, fd: int, name: Text, pid: Option<int>): (r: (Desk, nat)) {
    var slot := First(k.tasks, (t: Task) => t.id == 0);
    if name == [] || |name| >= MAX_NAME || pid.None? || slot.None? then (k, 0)
    else
      (k.(tasks := k.tasks[slot.value := Task(k.nextTask, fd, pid.value, name)], nextTask := k.nextTask + 1),
       k.nextTask)
  }

  /** drop_task_connection(). */
  function DropTask(k: Desk, taskId: nat): Desk {
    if taskId == 0 then k
    else
      var slot := First(k.tasks, (t: Task) => t.id == taskId);
      if slot.None? then k else k.(tasks := k.tasks[slot.value := NO_TASK])
  }

  predicate OnPortOf(ports: seq<Port>, fd: int, portId: nat) {
    exists i :: 0 <= i < |ports| && ports[i].id != 0 && ports[i].fd == fd && ports[i].id == portId
  }

  predicate OwnedVia(channels: seq<Channel>, fd: int, pid: int) {
    exists i :: 0 <= i < |channels| && channels[i].id != 0 && channels[i].fd == fd && channels[i].pid == pid
  }

  /** drop_connection_ports(). */
  function DropPorts(k: Desk, fd: int): Desk {
    Abandon(k, (m: Message) => OnPortOf(k.ports, fd, m.portId)).(
      ports := seq(|k.ports|, i requires 0 <= i < |k.ports| =>
        if k.ports[i].id != 0 && k.ports[i].fd == fd then NO_PORT else k.ports[i]))
  }

  /** drop_connection_port_channels(). */
  function DropChannels(k: Desk, fd: int): Desk {
    Abandon(k, (m: Message) => OwnedVia(k.channels, fd, m.ownerPid)).(
      channels := seq(|k.channels|, i requires 0 <= i < |k.channels| =>
        if k.channels[i].id != 0 && k.channels[i].fd == fd then NO_CHANNEL else k.channels[i]))
  }

  function SentBy(fd: int): Message -> bool { (m: Message) => m.senderFd == fd }

  /** drop_connection_port_messages(). */
  function DropMessages(k: Desk, fd: int): Desk {
    Forget(k, SentBy(fd))
  }

  /** What drop_connection() does to the tables, in its order. */
  function Disconnect(k: Desk, fd: int, taskId: nat): Desk {
    DropMessages(DropChannels(DropPorts(DropTask(k, taskId), fd), fd), fd)
  }

  // ------------------------------------------------------------------
  // Invariants
  // ------------------------------------------------------------------

  /** A message in flight can be answered, and its sender told: its port is live
      with the recorded owner, the owner has a channel, the sender's connection
      is open. */
  predicate Answerable(k: Desk, open: set<int>, m: Message) {
    && (exists i ::
          0 <= i < |k.ports| && k.ports[i].id == m.portId && k.ports[i].id != 0 && k.ports[i].pid == m.ownerPid)
    && (exists i :: 0 <= i < |k.channels| && k.channels[i].id != 0 && k.channels[i].pid == m.ownerPid)
    && m.senderFd in open
  }

  ghost predicate TasksHeld(k: Desk, held: map<int, nat>) {
    && |k.tasks| == MAX_TASKS && k.nextTask > 0
    && (forall i :: 0 <= i < |k.tasks| && k.tasks[i].id != 0 ==>
          k.tasks[i].id < k.nextTask && k.tasks[i].fd in held && held[k.tasks[i].fd] == k.tasks[i].id)
    && (forall i, j :: 0 <= i < j < |k.tasks| && k.tasks[i].id != 0 ==> k.tasks[i].id != k.tasks[j].id)
  }

  ghost predicate PortsLive(k: Desk, open: set<int>) {
    && |k.ports| == MAX_PORTS && k.nextPort > 0
    && (forall i :: 0 <= i < |k.ports| && k.ports[i].id != 0 ==> k.ports[i].id < k.nextPort && k.ports[i].fd in open)
    && (forall i, j :: 0 <= i < j < |k.ports| && k.ports[i].id != 0 && k.ports[j].id != 0 ==>
          k.ports[i].id != k.ports[j].id && k.ports[i].name != k.ports[j].name)
  }

  ghost predicate ChannelsLive(k: Desk, open: set<int>) {
    && |k.channels| == MAX_CHANNELS && k.nextChannel > 0
    && (forall i :: 0 <= i < |k.channels| && k.channels[i].id != 0 ==> k.channels[i].fd in open)
    && (forall i, j :: 0 <= i < j < |k.channels| && k.channels[i].id != 0 && k.channels[j].id != 0 ==>
          k.channels[i].pid != k.channels[j].pid)
  }

  ghost predicate MessagesAnswerable(k: Desk, open: set<int>) {
    && |k.messages| == MAX_MESSAGES && k.nextMessage > 0
    && (forall i :: 0 <= i < |k.messages| && k.messages[i].id != 0 ==>
          k.messages[i].id < k.nextMessage && Answerable(k, open, k.messages[i]))
    && (forall i :: 0 <= i < |k.messages| && k.messages[i].id == 0 ==> k.messages[i] == NO_MESSAGE)
  }

  /** How many times a message is pending or has ended, of whatever kind. */
  function Ends(k: Desk, id: nat): nat {
    Pending(k.messages)[id] + k.history.replied[id] + k.history.abandoned[id] + k.history.forgotten[id]
  }

  /** Every issued message is pending, or had one terminal push, or lost its
      sender -- exactly one of these, exactly once -- and no other id is. */
  ghost predicate Conserved(k: Desk) {
    && (forall id: nat :: Ends(k, id) == if id in k.history.issued then 1 else 0)
    && (forall id :: id in k.history.issued ==> 0 < id < k.nextMessage)
  }

  /** held: the open connections and the task id each holds (0 for none). */
  ghost predicate Inv(k: Desk, held: map<int, nat>) {
    && TasksHeld(k, held) && PortsLive(k, held.Keys) && ChannelsLive(k, held.Keys)
    && MessagesAnswerable(k, held.Keys) && Conserved(k)
  }
}
