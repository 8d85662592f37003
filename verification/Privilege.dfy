/** The privilege channel as a step machine: the client in the broker, the
    supervisor, its volume worker, and any number of access workers (CRMs), in
    every interleaving, with records lost, replies timed out and processes gone. */
module Privilege {
  import opened Bytes

  /** An operation code by its bytes: the class mask picks out kind. */
  datatype Code = Code(high: nat, kind: nat, low: nat)

  const VOLUME := 1
  const ACCESS := 2

  const CAPS := Code(0, 0, 2)
  const PING := Code(0, 0, 3)
  const CANCEL := Code(0, 0, 4)
  const DROP_PRIVILEGE := Code(0, 0, 5)
  const SHUTDOWN := Code(0, 0, 6)
  const SPAWN_ACCESS := Code(0, 0, 7)

  datatype Status = Ok | Refused | HostError | Unsupported | ProtocolError | Other(status: nat)

  /** What dispatch() makes of an operation. */
  datatype Sort = Plain | Stop | Spawn | VolumeOp | AccessOp | Unknown

  function SortOf(op: Code): (r: Sort)
    ensures (r == VolumeOp <==> op.kind == VOLUME) && (r == AccessOp <==> op.kind == ACCESS)
  {
    if op == PING || op == CAPS || op == CANCEL then Plain
    else if op == DROP_PRIVILEGE || op == SHUTDOWN then Stop
    else if op == SPAWN_ACCESS then Spawn
    else if op.kind == VOLUME then VolumeOp
    else if op.kind == ACCESS then AccessOp
    else Unknown
  }

  datatype Request = Request(id: nat, op: Code)
  /** answers is the request a reply was made for; the wire carries only its id. */
  datatype Reply = Reply(id: nat, status: Status, answers: Request)

  // ------------------------------------------------------------------
  // The client's end of one connection
  // ------------------------------------------------------------------

  /** up and down are the records in flight; waiting is the request sent and not
      yet settled; accepted is what the client took for answers. */
  datatype Link = Link(nextId: nat, closed: bool, waiting: Option<Request>, up: seq<Request>, down: seq<Reply>,
                       accepted: seq<(Request, Reply)>)

  const NEW_LINK := Link(1, false, None, [], [], [])

  /** A request: a fresh id, and the connection closed for good if it cannot be sent. */
  function Send(l: Link, op: Code, delivered: bool): Link {
    if l.closed || l.waiting.Some? then l
    else
      var r := Request(l.nextId, op);
      if delivered then l.(nextId := l.nextId + 1, waiting := Some(r), up := l.up + [r])
      else l.(nextId := l.nextId + 1, closed := true)
  }

  /** No reply in time, or no reply at all: the connection is closed for good. */
  function GiveUp(l: Link): Link {
    if l.waiting.None? then l else l.(closed := true, waiting := None)
  }

  /** A reply: taken if it carries the id waited for, else the connection is closed for good. */
  function Receive(l: Link): Link {
    if l.waiting.None? || l.down == [] then l
    else
      var r := l.down[0];
      if r.id == l.waiting.value.id
      then l.(waiting := None, down := l.down[1..], accepted := l.accepted + [(l.waiting.value, r)])
      else l.(waiting := None, down := l.down[1..], closed := true)
  }

  // ------------------------------------------------------------------
  // The processes
  // ------------------------------------------------------------------

  datatype Process = Supervisor | Worker | Crm(index: nat)

  /** read and replied: the requests a process has read, and those it has
      attempted a reply to, in order; given: the replies it has made. */
  datatype Journal = Journal(read: seq<Request>, replied: seq<Request>, given: seq<Reply>)

  /** An access worker and the connection to it. */
  datatype Access = Access(link: Link, alive: bool, journal: Journal)

  /** The supervisor and the broker's connection to it.  busy: the request it has
      forwarded and waits for the volume worker to answer.  volumeOpen: its channel
      to the worker is open. */
  datatype Fmm = Fmm(link: Link, alive: bool, busy: Option<Request>, journal: Journal, volumeOpen: bool)

  /** The volume worker and its channel. */
  datatype Volume = Volume(inbox: seq<Request>, outbox: seq<Reply>, alive: bool, journal: Journal)

  /** volumeCap, accessCap: the classes granted.  performed: every volume or
      access operation carried out, and where. */
  datatype System = System(volumeCap: bool, accessCap: bool, fmm: Fmm, volume: Volume, crms: seq<Access>,
                           performed: seq<(Process, Code)>)

  const NEW_JOURNAL := Journal([], [], [])
  const NEW_ACCESS := Access(NEW_LINK, true, NEW_JOURNAL)

  function Start(volumeCap: bool, accessCap: bool, volumeOpen: bool): System {
    System(volumeCap, accessCap, Fmm(NEW_LINK, true, None, NEW_JOURNAL, volumeOpen),
           Volume([], [], volumeOpen, NEW_JOURNAL), [], [])
  }

  function Replied(j: Journal, r: Request, status: Status): Journal {
    Journal(j.read + [r], j.replied + [r], j.given + [Reply(r.id, status, r)])
  }

  /** The next request read and answered at once. */
  function AnswerNext(l: Link, status: Status, delivered: bool): Link
    requires l.up != []
  {
    var r := l.up[0];
    l.(up := l.up[1..], down := if delivered then l.down + [Reply(r.id, status, r)] else l.down)
  }

  /** The supervisor answers a request itself. */
  function Answered(f: Fmm, status: Status, delivered: bool): Fmm
    requires f.link.up != []
  {
    f.(link := AnswerNext(f.link, status, delivered), journal := Replied(f.journal, f.link.up[0], status))
  }

  /** forward_to_volume(), first half. */
  function Forward(f: Fmm): Fmm
    requires f.link.up != []
  {
    f.(link := f.link.(up := f.link.up[1..]), busy := Some(f.link.up[0]),
       journal := f.journal.(read := f.journal.read + [f.link.up[0]]))
  }

  /** dispatch() in the supervisor; done is whether what the request needs of the
      host can be had: a new process, or the worker's ear. */
  function Dispatch(s: System, done: bool, delivered: bool): System
    requires s.fmm.alive && s.fmm.busy.None? && s.fmm.link.up != []
  {
    var f, r := s.fmm, s.fmm.link.up[0];
    match SortOf(r.op)
    case Plain => s.(fmm := Answered(f, Ok, delivered))
    case Stop => s.(fmm := Answered(f, Ok, delivered).(alive := false))
    case Spawn =>
      if !done then s.(fmm := Answered(f, HostError, delivered))
      else if !delivered then s.(fmm := Answered(f, Ok, false).(alive := false))
      else s.(fmm := Answered(f, Ok, true), crms := s.crms + [NEW_ACCESS])
    case VolumeOp =>
      if !s.volumeCap then s.(fmm := Answered(f, Refused, delivered))
      else if !f.volumeOpen then s.(fmm := Answered(f, HostError, delivered))
      else if !done then s.(fmm := Answered(f, HostError, delivered).(volumeOpen := false))
      else s.(fmm := Forward(f), volume := s.volume.(inbox := s.volume.inbox + [r]))
    case AccessOp => s.(fmm := Answered(f, if s.accessCap then Unsupported else Refused, delivered))
    case Unknown => s.(fmm := Answered(f, Refused, delivered))
  }

  /** The supervisor answers the request it had forwarded. */
  function Settle(f: Fmm, reply: Reply, delivered: bool): Fmm
    requires f.busy.Some?
  {
    f.(busy := None,
       journal := f.journal.(replied := f.journal.replied + [f.busy.value], given := f.journal.given + [reply]),
       link := if delivered then f.link.(down := f.link.down + [reply]) else f.link)
  }

  /** forward_to_volume(), second half: the worker's answer, relayed unchanged if it
      answers this request. */
  function Relay(s: System, delivered: bool): System
    requires s.fmm.alive && s.fmm.busy.Some? && s.volume.outbox != []
  {
    var reply, r := s.volume.outbox[0], s.fmm.busy.value;
    s.(volume := s.volume.(outbox := s.volume.outbox[1..]),
       fmm := if reply.id == r.id then Settle(s.fmm, reply, delivered).(alive := delivered)
              else Settle(s.fmm, Reply(r.id, ProtocolError, r), delivered).(alive := false))
  }

  /** The worker is gone: its channel is closed, and this request fails. */
  function WorkerGone(f: Fmm, delivered: bool): Fmm
    requires f.alive && f.busy.Some?
  {
    Settle(f, Reply(f.busy.value.id, HostError, f.busy.value), delivered).(volumeOpen := false)
  }

  /** The volume worker serves one request: dispatch() with one class, fixed at birth. */
  function Work(s: System, status: Status, delivered: bool): System
    requires s.volume.alive && s.volume.inbox != []
  {
    var v := s.volume;
    var r := v.inbox[0];
    var sort := SortOf(r.op);
    var answer := if sort == Plain || sort == Stop then Ok else if sort == VolumeOp then status else Refused;
    s.(volume := Volume(v.inbox[1..], if delivered then v.outbox + [Reply(r.id, answer, r)] else v.outbox,
                        sort != Stop, Replied(v.journal, r, answer)),
       performed := if sort == VolumeOp then s.performed + [(Worker, r.op)] else s.performed)
  }

  /** An access worker serves one request. */
  function Open(s: System, k: nat, status: Status, delivered: bool): System
    requires k < |s.crms| && s.crms[k].alive && s.crms[k].link.up != []
  {
    var a := s.crms[k];
    var r := a.link.up[0];
    var sort := SortOf(r.op);
    var answer :=
      if (sort == Plain && r.op != CAPS) || sort == Stop then Ok else if sort == AccessOp then status else Refused;
    var stops := sort == Stop || (sort == AccessOp && !delivered);
    s.(crms := s.crms[k := Access(AnswerNext(a.link, answer, delivered), !stops, Replied(a.journal, r, answer))],
       performed := if sort == AccessOp then s.performed + [(Crm(k), r.op)] else s.performed)
  }

  // ------------------------------------------------------------------
  // Steps and runs
  // ------------------------------------------------------------------

  /** What a client does on its end of a connection. */
  datatype Move = SendOne(op: Code, delivered: bool) | GiveUpWaiting | ReceiveOne

  function Moved(l: Link, m: Move): Link {
    match m
    case SendOne(op, delivered) => Send(l, op, delivered)
    case GiveUpWaiting => GiveUp(l)
    case ReceiveOne => Receive(l)
  }

  datatype Event =
    | FmmClient(move: Move)
    | CrmClient(client: nat, crmMove: Move)
    | Supervise(done: bool, replySent: bool)
    | RelayReply(relayed: bool)
    | LoseWorker(told: bool)
    | WorkerStep(workStatus: Status, workSent: bool)
    | CrmStep(server: nat, crmStatus: Status, crmSent: bool)
    | SupervisorDies
    | WorkerDies
    | CrmDies(dead: nat)

  predicate Enabled(s: System, e: Event) {
    match e
    case FmmClient(_) => true
    case CrmClient(k, _) => k < |s.crms|
    case Supervise(_, _) => s.fmm.alive && s.fmm.busy.None? && s.fmm.link.up != []
    case RelayReply(_) => s.fmm.alive && s.fmm.busy.Some? && s.volume.outbox != []
    case LoseWorker(_) => s.fmm.alive && s.fmm.busy.Some? && s.volume.outbox == [] && !s.volume.alive
    case WorkerStep(_, _) => s.volume.alive && s.volume.inbox != []
    case CrmStep(k, _, _) => k < |s.crms| && s.crms[k].alive && s.crms[k].link.up != []
    case SupervisorDies => true
    case WorkerDies => true
    case CrmDies(k) => k < |s.crms|
  }

  function Next(s: System, e: Event): System
    requires Enabled(s, e)
  {
    match e
    case FmmClient(m) => s.(fmm := s.fmm.(link := Moved(s.fmm.link, m)))
    case CrmClient(k, m) => s.(crms := s.crms[k := s.crms[k].(link := Moved(s.crms[k].link, m))])
    case Supervise(done, delivered) => Dispatch(s, done, delivered)
    case RelayReply(delivered) => Relay(s, delivered)
    case LoseWorker(delivered) => s.(fmm := WorkerGone(s.fmm, delivered))
    case WorkerStep(status, delivered) => Work(s, status, delivered)
    case CrmStep(k, status, delivered) => Open(s, k, status, delivered)
    case SupervisorDies => s.(fmm := s.fmm.(alive := false))
    case WorkerDies => s.(volume := s.volume.(alive := false))
    case CrmDies(k) => s.(crms := s.crms[k := s.crms[k].(alive := false)])
  }

  predicate Possible(s: System, events: seq<Event>)
    decreases events, 0
  {
    events == []
    || (Possible(s, events[..|events| - 1]) && Enabled(After(s, events[..|events| - 1]), events[|events| - 1]))
  }

  function After(s: System, events: seq<Event>): System
    requires Possible(s, events)
    decreases events, 1
  {
    if events == [] then s else Next(After(s, events[..|events| - 1]), events[|events| - 1])
  }

  // ------------------------------------------------------------------
  // Invariants
  // ------------------------------------------------------------------

  /** At most one request is anywhere between the client and its answer; an open
      connection waits for that one, and a reply in flight carries its id.
      inside: the request the server is working on. */
  predicate LockStep(l: Link, inside: Option<Request>) {
    && |l.up| + (if inside.Some? then 1 else 0) + |l.down| <= 1
    && (l.up != [] && !l.closed ==> l.waiting == Some(l.up[0]))
    && (inside.Some? && !l.closed ==> l.waiting == inside)
    && (l.down != [] && !l.closed ==> l.waiting == Some(l.down[0].answers))
    && (l.down != [] ==> l.down[0].id == l.down[0].answers.id)
    && (l.closed ==> l.waiting.None?)
    && forall i :: 0 <= i < |l.accepted| ==> l.accepted[i].1.answers == l.accepted[i].0
  }

  /** Every request read has had one reply attempted, in order, but for the one being worked on. */
  predicate Balanced(j: Journal, inside: Option<Request>) {
    j.read == if inside.Some? then j.replied + [inside.value] else j.replied
  }

  /** Ids rise, and stay below the bound. */
  predicate Rising(s: seq<Request>, bound: nat) {
    s == [] || (s[|s| - 1].id < bound && Rising(s[..|s| - 1], s[|s| - 1].id))
  }

  /** Requests are numbered in the order they are sent and read. */
  predicate Numbered(l: Link, read: seq<Request>) { Rising(read + l.up, l.nextId) }

  predicate FmmInv(f: Fmm) {
    LockStep(f.link, f.busy) && Balanced(f.journal, f.busy) && Numbered(f.link, f.journal.read)
  }

  predicate Sane(a: Access) {
    LockStep(a.link, None) && Balanced(a.journal, None) && Numbered(a.link, a.journal.read)
  }

  predicate AllSane(crms: seq<Access>) {
    forall k :: 0 <= k < |crms| ==> Sane(crms[k])
  }

  predicate Answers(reply: Reply, r: Request) { reply.answers == r && reply.id == r.id }

  /** While the supervisor waits, the request or its answer is with the worker, if
      anywhere; and only granted volume operations ever reach the worker. */
  predicate WorkerInv(f: Fmm, v: Volume, volumeCap: bool) {
    && Balanced(v.journal, None)
    && (f.busy.None? && f.volumeOpen && f.alive ==> v.inbox == [] && v.outbox == [])
    && (f.busy.Some? ==> |v.inbox| + |v.outbox| <= 1
                         && (v.inbox != [] ==> v.inbox[0] == f.busy.value)
                         && (v.outbox != [] ==> Answers(v.outbox[0], f.busy.value)))
    && (forall i :: 0 <= i < |v.inbox| ==> SortOf(v.inbox[i].op) == VolumeOp)
    && (v.inbox != [] || f.busy.Some? ==> volumeCap)
  }

  /** Volume operations were performed by the volume worker only, and only if
      granted; access operations by access workers only. */
  predicate Allowed(p: Process, op: Code, volumeCap: bool) {
    match p
    case Supervisor => false
    case Worker => op.kind == VOLUME && volumeCap
    case Crm(_) => op.kind == ACCESS
  }

  predicate Isolated(performed: seq<(Process, Code)>, volumeCap: bool) {
    forall i :: 0 <= i < |performed| ==> Allowed(performed[i].0, performed[i].1, volumeCap)
  }

  predicate Inv(s: System) {
    && FmmInv(s.fmm) && WorkerInv(s.fmm, s.volume, s.volumeCap)
    && Isolated(s.performed, s.volumeCap) && AllSane(s.crms)
  }
}
