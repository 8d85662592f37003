/** Lock-step, one reply per request, and isolation of the classes, over every run. */
module PrivilegeInvariants {
  import opened Bytes
  import opened Privilege

  // ------------------------------------------------------------------
  // Numbering
  // ------------------------------------------------------------------

  lemma RisingBelow(s: seq<Request>, b: nat, c: nat)
    requires Rising(s, b) && b <= c
    ensures Rising(s, c)
  {
  }

  lemma {:induction false} RisingLast(s: seq<Request>, bound: nat, i: nat)
    requires Rising(s, bound) && i < |s|
    ensures s[i].id < bound
  {
    var n := |s| - 1;
    if i < n { RisingLast(s[..n], s[n].id, i); }
  }

  lemma {:induction false} RisingAt(s: seq<Request>, bound: nat, i: nat, j: nat)
    requires Rising(s, bound) && i < j < |s|
    ensures s[i].id < s[j].id
  {
    var n := |s| - 1;
    if j < n {
      RisingAt(s[..n], s[n].id, i, j);
    } else {
      RisingLast(s[..n], s[n].id, i);
    }
  }

  lemma SendNumbers(l: Link, read: seq<Request>, op: Code, delivered: bool)
    requires Numbered(l, read)
    ensures Numbered(Send(l, op, delivered), read)
  {
    var r, s := Request(l.nextId, op), read + l.up;
    RisingBelow(s, l.nextId, l.nextId + 1);
    assert (s + [r])[..|s|] == s;
    assert read + (l.up + [r]) == s + [r];
  }

  /** Reading a request moves it from one list to the other. */
  lemma ReadNumbers(l: Link, m: Link, read: seq<Request>)
    requires Numbered(l, read) && l.up != [] && m.up == l.up[1..] && m.nextId == l.nextId
    ensures Numbered(m, read + [l.up[0]])
  {
    assert read + [l.up[0]] + l.up[1..] == read + l.up;
  }

  // ------------------------------------------------------------------
  // One connection
  // ------------------------------------------------------------------

  /** The reply at hand always answers the request waited for: the branch that
      closes the connection over a foreign id is never taken. */
  lemma ReceiveMatches(l: Link, inside: Option<Request>)
    requires LockStep(l, inside) && l.waiting.Some? && l.down != []
    ensures l.down[0].answers == l.waiting.value && l.down[0].id == l.waiting.value.id && |l.down| == 1
    ensures l.up == [] && inside.None?
    ensures Receive(l) == l.(waiting := None, down := [], accepted := l.accepted + [(l.waiting.value, l.down[0])])
  {
  }

  lemma MoveKeeps(l: Link, inside: Option<Request>, read: seq<Request>, m: Move)
    requires LockStep(l, inside) && Numbered(l, read)
    ensures LockStep(Moved(l, m), inside) && Numbered(Moved(l, m), read)
  {
    if m.SendOne? { SendNumbers(l, read, m.op, m.delivered); }
  }

  lemma AnswerKeeps(l: Link, j: Journal, status: Status, delivered: bool)
    requires l.up != [] && LockStep(l, None) && Balanced(j, None) && Numbered(l, j.read)
    ensures LockStep(AnswerNext(l, status, delivered), None)
    ensures Balanced(Replied(j, l.up[0], status), None)
    ensures Numbered(AnswerNext(l, status, delivered), Replied(j, l.up[0], status).read)
  {
    ReadNumbers(l, AnswerNext(l, status, delivered), j.read);
  }

  // ------------------------------------------------------------------
  // The supervisor
  // ------------------------------------------------------------------

  lemma AnsweredInv(f: Fmm, status: Status, delivered: bool)
    requires FmmInv(f) && f.busy.None? && f.link.up != []
    ensures FmmInv(Answered(f, status, delivered))
  {
    AnswerKeeps(f.link, f.journal, status, delivered);
  }

  lemma ForwardInv(f: Fmm)
    requires FmmInv(f) && f.busy.None? && f.link.up != []
    ensures FmmInv(Forward(f))
  {
    ReadNumbers(f.link, f.link.(up := f.link.up[1..]), f.journal.read);
  }

  lemma SettleInv(f: Fmm, reply: Reply, delivered: bool)
    requires FmmInv(f) && f.busy.Some? && reply.answers == f.busy.value && reply.id == f.busy.value.id
    ensures FmmInv(Settle(f, reply, delivered))
  {
  }

  lemma AliveInv(f: Fmm, alive: bool, volumeOpen: bool)
    requires FmmInv(f)
    ensures FmmInv(f.(alive := alive, volumeOpen := volumeOpen))
  {
  }

  lemma AnsweredAliveInv(f: Fmm, status: Status, delivered: bool, alive: bool, volumeOpen: bool)
    requires FmmInv(f) && f.busy.None? && f.link.up != []
    ensures FmmInv(Answered(f, status, delivered).(alive := alive, volumeOpen := volumeOpen))
  {
    AnsweredInv(f, status, delivered);
    AliveInv(Answered(f, status, delivered), alive, volumeOpen);
  }

  lemma DispatchInv(s: System, done: bool, delivered: bool)
    requires Inv(s) && s.fmm.alive && s.fmm.busy.None? && s.fmm.link.up != []
    ensures FmmInv(Dispatch(s, done, delivered).fmm)
  {
    var f, cap := s.fmm, s.volumeCap;
    match SortOf(f.link.up[0].op)
    case Plain => AnsweredInv(f, Ok, delivered);
    case Stop => AnsweredAliveInv(f, Ok, delivered, false, f.volumeOpen);
    case Spawn => AnsweredAliveInv(f, if done then Ok else HostError, delivered, !done || delivered, f.volumeOpen);
    case VolumeOp =>
      if cap && f.volumeOpen && done {
        ForwardInv(f);
      } else {
        AnsweredAliveInv(f, if cap then HostError else Refused, delivered, true, f.volumeOpen && !cap);
      }
    case AccessOp => AnsweredInv(f, if s.accessCap then Unsupported else Refused, delivered);
    case Unknown => AnsweredInv(f, Refused, delivered);
  }

  lemma NewLink()
    ensures Sane(NEW_ACCESS)
  {
  }

  /** A request the supervisor answers leaves the worker alone. */
  lemma AnsweredWorker(f: Fmm, v: Volume, volumeCap: bool, status: Status, delivered: bool, alive: bool,
                       volumeOpen: bool)
    requires WorkerInv(f, v, volumeCap) && f.busy.None? && f.link.up != []
    requires (alive ==> f.alive) && (volumeOpen ==> f.volumeOpen)
    ensures WorkerInv(Answered(f, status, delivered).(alive := alive, volumeOpen := volumeOpen), v, volumeCap)
  {
  }

  lemma ForwardWorker(f: Fmm, v: Volume)
    requires WorkerInv(f, v, true) && f.alive && f.busy.None? && f.link.up != [] && f.volumeOpen
    requires SortOf(f.link.up[0].op) == VolumeOp
    ensures WorkerInv(Forward(f), v.(inbox := v.inbox + [f.link.up[0]]), true)
  {
  }

  lemma DispatchWorker(s: System, done: bool, delivered: bool)
    requires Inv(s) && s.fmm.alive && s.fmm.busy.None? && s.fmm.link.up != []
    ensures WorkerInv(Dispatch(s, done, delivered).fmm, Dispatch(s, done, delivered).volume, s.volumeCap)
  {
    var f, v, cap := s.fmm, s.volume, s.volumeCap;
    match SortOf(f.link.up[0].op)
    case Plain => AnsweredWorker(f, v, cap, Ok, delivered, true, f.volumeOpen);
    case Stop => AnsweredWorker(f, v, cap, Ok, delivered, false, f.volumeOpen);
    case Spawn => AnsweredWorker(f, v, cap, if done then Ok else HostError, delivered, !done || delivered,
                                 f.volumeOpen);
    case VolumeOp =>
      if cap && f.volumeOpen && done {
        ForwardWorker(f, v);
      } else {
        AnsweredWorker(f, v, cap, if cap then HostError else Refused, delivered, true, f.volumeOpen && !cap);
      }
    case AccessOp => AnsweredWorker(f, v, cap, if s.accessCap then Unsupported else Refused, delivered, true,
                                    f.volumeOpen);
    case Unknown => AnsweredWorker(f, v, cap, Refused, delivered, true, f.volumeOpen);
  }

  lemma DispatchCrms(s: System, done: bool, delivered: bool)
    requires Inv(s) && s.fmm.alive && s.fmm.busy.None? && s.fmm.link.up != []
    ensures AllSane(Dispatch(s, done, delivered).crms) && Isolated(Dispatch(s, done, delivered).performed, s.volumeCap)
    ensures Dispatch(s, done, delivered).volumeCap == s.volumeCap
  {
    NewLink();
  }

  // ------------------------------------------------------------------
  // Steps and runs
  // ------------------------------------------------------------------

  lemma RelayInv(s: System, delivered: bool)
    requires Inv(s) && s.fmm.alive && s.fmm.busy.Some? && s.volume.outbox != []
    ensures Inv(Relay(s, delivered)) && s.volume.outbox[0].id == s.fmm.busy.value.id
  {
    SettleInv(s.fmm, s.volume.outbox[0], delivered);
  }

  lemma WorkInv(s: System, status: Status, delivered: bool)
    requires Inv(s) && s.volume.alive && s.volume.inbox != []
    ensures Inv(Work(s, status, delivered))
  {
  }

  lemma OneSane(crms: seq<Access>, k: nat, a: Access)
    requires AllSane(crms) && k < |crms| && Sane(a)
    ensures AllSane(crms[k := a])
  {
  }

  /** An access worker answers each request once. */
  lemma OpenSane(s: System, k: nat, status: Status, delivered: bool)
    requires k < |s.crms| && Sane(s.crms[k]) && s.crms[k].alive && s.crms[k].link.up != []
    ensures Sane(Open(s, k, status, delivered).crms[k])
  {
    var a := s.crms[k];
    var sort := SortOf(a.link.up[0].op);
    var answer :=
      if (sort == Plain && a.link.up[0].op != CAPS) || sort == Stop then Ok
      else if sort == AccessOp then status else Refused;
    AnswerKeeps(a.link, a.journal, answer, delivered);
  }

  lemma OpenIsolated(s: System, k: nat, status: Status, delivered: bool)
    requires k < |s.crms| && s.crms[k].alive && s.crms[k].link.up != [] && Isolated(s.performed, s.volumeCap)
    ensures Isolated(Open(s, k, status, delivered).performed, s.volumeCap)
  {
  }

  lemma OpenFrame(s: System, k: nat, status: Status, delivered: bool)
    requires k < |s.crms| && s.crms[k].alive && s.crms[k].link.up != []
    ensures var t := Open(s, k, status, delivered);
            |t.crms| == |s.crms| && t == s.(crms := s.crms[k := t.crms[k]], performed := t.performed)
  {
  }

  lemma OpenInv(s: System, k: nat, status: Status, delivered: bool)
    requires Inv(s) && k < |s.crms| && s.crms[k].alive && s.crms[k].link.up != []
    ensures Inv(Open(s, k, status, delivered))
  {
    OpenFrame(s, k, status, delivered);
    OpenSane(s, k, status, delivered);
    OpenIsolated(s, k, status, delivered);
    OneSane(s.crms, k, Open(s, k, status, delivered).crms[k]);
  }

  lemma SuperviseInv(s: System, done: bool, delivered: bool)
    requires Inv(s) && s.fmm.alive && s.fmm.busy.None? && s.fmm.link.up != []
    ensures Inv(Dispatch(s, done, delivered))
  {
    DispatchInv(s, done, delivered);
    DispatchWorker(s, done, delivered);
    DispatchCrms(s, done, delivered);
  }

  lemma WorkerGoneInv(s: System, delivered: bool)
    requires Inv(s) && s.fmm.alive && s.fmm.busy.Some? && s.volume.outbox == []
    ensures Inv(s.(fmm := WorkerGone(s.fmm, delivered)))
  {
    SettleInv(s.fmm, Reply(s.fmm.busy.value.id, HostError, s.fmm.busy.value), delivered);
  }

  lemma ClientInv(s: System, m: Move)
    requires Inv(s)
    ensures Inv(s.(fmm := s.fmm.(link := Moved(s.fmm.link, m))))
  {
    MoveKeeps(s.fmm.link, s.fmm.busy, s.fmm.journal.read, m);
  }

  lemma CrmChanged(s: System, k: nat, a: Access)
    requires Inv(s) && k < |s.crms| && Sane(a)
    ensures Inv(s.(crms := s.crms[k := a]))
  {
    OneSane(s.crms, k, a);
  }

  lemma DeathInv(s: System, e: Event)
    requires Inv(s) && (e.SupervisorDies? || e.WorkerDies?)
    ensures Inv(Next(s, e))
  {
    if e.SupervisorDies? {
      AliveInv(s.fmm, false, s.fmm.volumeOpen);
      SupervisorGone(s.fmm, s.volume, s.volumeCap);
    } else {
      WorkerEnded(s.fmm, s.volume, s.volumeCap);
    }
  }

  lemma SupervisorGone(f: Fmm, v: Volume, volumeCap: bool)
    requires WorkerInv(f, v, volumeCap)
    ensures WorkerInv(f.(alive := false), v, volumeCap)
  {
  }

  lemma WorkerEnded(f: Fmm, v: Volume, volumeCap: bool)
    requires WorkerInv(f, v, volumeCap)
    ensures WorkerInv(f, v.(alive := false), volumeCap)
  {
  }

  lemma NextInv(s: System, e: Event)
    requires Inv(s) && Enabled(s, e)
    ensures Inv(Next(s, e))
  {
    match e
    case FmmClient(m) => ClientInv(s, m);
    case CrmClient(k, m) =>
      var a := s.crms[k];
      MoveKeeps(a.link, None, a.journal.read, m);
      CrmChanged(s, k, a.(link := Moved(a.link, m)));
    case Supervise(done, delivered) => SuperviseInv(s, done, delivered);
    case RelayReply(delivered) => RelayInv(s, delivered);
    case LoseWorker(delivered) => WorkerGoneInv(s, delivered);
    case WorkerStep(status, delivered) => WorkInv(s, status, delivered);
    case CrmStep(k, status, delivered) => OpenInv(s, k, status, delivered);
    case SupervisorDies => DeathInv(s, e);
    case WorkerDies => DeathInv(s, e);
    case CrmDies(k) => CrmChanged(s, k, s.crms[k].(alive := false));
  }

  lemma {:induction false} AfterInv(s: System, events: seq<Event>)
    requires Inv(s) && Possible(s, events)
    ensures Inv(After(s, events))
  {
    if events != [] {
      AfterInv(s, events[..|events| - 1]);
      NextInv(After(s, events[..|events| - 1]), events[|events| - 1]);
    }
  }

  /** Lock-step, one attempted reply per request read, and isolation, in every
      state every run can reach. */
  lemma RunInv(volumeCap: bool, accessCap: bool, volumeOpen: bool, events: seq<Event>)
    requires Possible(Start(volumeCap, accessCap, volumeOpen), events)
    ensures Inv(After(Start(volumeCap, accessCap, volumeOpen), events))
  {
    NewLink();
    AfterInv(Start(volumeCap, accessCap, volumeOpen), events);
  }

  // ------------------------------------------------------------------
  // What it means
  // ------------------------------------------------------------------

  /** A client's connection: to the supervisor, or to one of the access workers. */
  datatype Client = ToFmm | ToCrm(index: nat)

  predicate Has(s: System, who: Client) { who.ToCrm? ==> who.index < |s.crms| }

  function LinkOf(s: System, who: Client): Link
    requires Has(s, who)
  {
    match who
    case ToFmm => s.fmm.link
    case ToCrm(k) => s.crms[k].link
  }

  /** What the process at the other end has read and replied to. */
  function JournalOf(s: System, who: Client): Journal
    requires Has(s, who)
  {
    match who
    case ToFmm => s.fmm.journal
    case ToCrm(k) => s.crms[k].journal
  }

  lemma RisingReplies(l: Link, j: Journal, inside: Option<Request>, m: nat, n: nat)
    requires Numbered(l, j.read) && Balanced(j, inside) && m < n < |j.replied|
    ensures j.replied[m].id < j.replied[n].id
  {
    var all := j.read + l.up;
    assert j.replied[m] == all[m] && j.replied[n] == all[n];
    RisingAt(all, l.nextId, m, n);
  }

  /** On no connection do two replies go out under one id. */
  lemma RepliesDistinct(s: System, who: Client, m: nat, n: nat)
    requires Inv(s) && Has(s, who) && m < n < |JournalOf(s, who).replied|
    ensures JournalOf(s, who).replied[m].id < JournalOf(s, who).replied[n].id
  {
    match who
    case ToFmm => RisingReplies(s.fmm.link, s.fmm.journal, s.fmm.busy, m, n);
    case ToCrm(k) => RisingReplies(s.crms[k].link, s.crms[k].journal, None, m, n);
  }

  /** Whatever a client took for an answer was made for the very request it had sent. */
  lemma NeverStale(s: System, who: Client, i: nat)
    requires Inv(s) && Has(s, who) && i < |LinkOf(s, who).accepted|
    ensures LinkOf(s, who).accepted[i].1.answers == LinkOf(s, who).accepted[i].0
  {
    assert who.ToCrm? ==> Sane(s.crms[who.index]);
  }

  /** Same but for the records in flight. */
  predicate SameEnd(l: Link, m: Link) {
    m.closed == l.closed && m.waiting == l.waiting && m.accepted == l.accepted && m.nextId == l.nextId
  }

  lemma AnsweredFrame(f: Fmm, status: Status, delivered: bool)
    requires f.link.up != []
    ensures SameEnd(f.link, Answered(f, status, delivered).link)
  {
  }

  lemma DispatchFrame(s: System, done: bool, delivered: bool)
    requires s.fmm.alive && s.fmm.busy.None? && s.fmm.link.up != []
    ensures SameEnd(s.fmm.link, Dispatch(s, done, delivered).fmm.link)
  {
    forall status: Status ensures SameEnd(s.fmm.link, Answered(s.fmm, status, delivered).link) {
      AnsweredFrame(s.fmm, status, delivered);
    }
    assert SameEnd(s.fmm.link, Forward(s.fmm).link);
  }

  /** A dispatch makes at most one new access worker and leaves the others alone. */
  lemma DispatchSpawns(s: System, done: bool, delivered: bool)
    requires s.fmm.alive && s.fmm.busy.None? && s.fmm.link.up != []
    ensures Dispatch(s, done, delivered).crms == s.crms || Dispatch(s, done, delivered).crms == s.crms + [NEW_ACCESS]
  {
  }

  lemma RelayFrame(s: System, delivered: bool)
    requires s.fmm.alive && s.fmm.busy.Some? && s.volume.outbox != []
    ensures SameEnd(s.fmm.link, Relay(s, delivered).fmm.link) && Relay(s, delivered).crms == s.crms
  {
  }

  lemma ClosedFmm(s: System, e: Event)
    requires s.fmm.link.closed && s.fmm.link.waiting.None? && Enabled(s, e)
    ensures SameEnd(s.fmm.link, Next(s, e).fmm.link)
  {
    match e
    case Supervise(done, delivered) => DispatchFrame(s, done, delivered);
    case RelayReply(delivered) => RelayFrame(s, delivered);
    case _ =>
  }

  lemma ClosedCrm(s: System, e: Event, k: nat)
    requires k < |s.crms| && s.crms[k].link.closed && s.crms[k].link.waiting.None? && Enabled(s, e)
    ensures k < |Next(s, e).crms| && SameEnd(s.crms[k].link, Next(s, e).crms[k].link)
  {
    match e
    case Supervise(done, delivered) => DispatchSpawns(s, done, delivered);
    case RelayReply(delivered) => RelayFrame(s, delivered);
    case _ =>
  }

  /** Closed is for good, on every connection: nothing more is sent and nothing
      more is accepted. */
  lemma {:induction false} ClosedForGood(s: System, who: Client, events: seq<Event>)
    requires Inv(s) && Has(s, who) && LinkOf(s, who).closed && Possible(s, events)
    ensures Has(After(s, events), who) && SameEnd(LinkOf(s, who), LinkOf(After(s, events), who))
  {
    assert who.ToCrm? ==> Sane(s.crms[who.index]);
    if events != [] {
      var p := events[..|events| - 1];
      ClosedForGood(s, who, p);
      match who
      case ToFmm => ClosedFmm(After(s, p), events[|events| - 1]);
      case ToCrm(k) => ClosedCrm(After(s, p), events[|events| - 1], k);
    }
  }
}
