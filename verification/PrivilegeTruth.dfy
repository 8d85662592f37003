/** What an answer is worth: over every run, what a client is told was done was done,
    by the process meant to, once, and with the outcome it reported. */
module PrivilegeTruth {
  import opened Bytes
  import opened Privilege
  import opened PrivilegeInvariants

  // ------------------------------------------------------------------
  // What a status means
  // ------------------------------------------------------------------

  /** A reply of the supervisor: its own to what it does itself, what it says for a
      class it does not serve, and for a granted volume operation the worker's own
      answer unless the worker could not be asked or did not answer. */
  predicate FmmTrue(volumeCap: bool, accessCap: bool, given: seq<Reply>, reply: Reply) {
    match SortOf(reply.answers.op)
    case Plain => reply.status == Ok
    case Stop => reply.status == Ok
    case Spawn => reply.status in {Ok, HostError}
    case VolumeOp => if volumeCap then reply in given || reply.status == HostError else reply.status == Refused
    case AccessOp => reply.status == if accessCap then Unsupported else Refused
    case Unknown => reply.status == Refused
  }

  /** A reply of access worker k: its own, and an access operation answered has been
      performed. */
  predicate CrmTrue(performed: seq<(Process, Code)>, given: seq<Reply>, k: nat, reply: Reply) {
    && reply in given
    && match SortOf(reply.answers.op)
       case Plain => reply.status == if reply.answers.op == CAPS then Refused else Ok
       case Stop => reply.status == Ok
       case AccessOp => (Crm(k), reply.answers.op) in performed
       case _ => reply.status == Refused
  }

  predicate AtFmm(s: System, reply: Reply) { FmmTrue(s.volumeCap, s.accessCap, s.volume.journal.given, reply) }

  predicate AtCrm(s: System, k: nat, reply: Reply)
    requires k < |s.crms|
  {
    CrmTrue(s.performed, s.crms[k].journal.given, k, reply)
  }

  ghost predicate FmmLinkTrue(s: System) {
    && (forall r :: r in s.fmm.link.down ==> AtFmm(s, r))
    && (forall i :: 0 <= i < |s.fmm.link.accepted| ==> AtFmm(s, s.fmm.link.accepted[i].1))
  }

  ghost predicate CrmLinkTrue(s: System, k: nat)
    requires k < |s.crms|
  {
    && (forall r :: r in s.crms[k].link.down ==> AtCrm(s, k, r))
    && (forall i :: 0 <= i < |s.crms[k].link.accepted| ==> AtCrm(s, k, s.crms[k].link.accepted[i].1))
  }

  /** What the worker has answered it has performed, and what is on its way back it
      has answered. */
  predicate WorkerTrue(v: Volume, performed: seq<(Process, Code)>) {
    && (forall r :: r in v.outbox ==> r in v.journal.given)
    && (forall r :: r in v.journal.given ==> (Worker, r.answers.op) in performed)
  }

  /** The operations the worker has performed, in order. */
  function WorkerOps(performed: seq<(Process, Code)>): seq<Code> {
    if performed == [] then []
    else
      var n := |performed| - 1;
      WorkerOps(performed[..n]) + if performed[n].0 == Worker then [performed[n].1] else []
  }

  function Ops(requests: seq<Request>): seq<Code> {
    if requests == [] then [] else Ops(requests[..|requests| - 1]) + [requests[|requests| - 1].op]
  }

  /** The worker performs each request once, in the order it was forwarded, and no
      request is forwarded twice. */
  ghost predicate Once(s: System) {
    && WorkerOps(s.performed) == Ops(s.volume.journal.read)
    && Rising(s.volume.journal.read + s.volume.inbox, s.fmm.link.nextId)
    && (forall r :: r in s.volume.journal.read + s.volume.inbox ==> r in s.fmm.journal.read)
  }

  ghost predicate Truth(s: System) {
    && FmmLinkTrue(s) && WorkerTrue(s.volume, s.performed) && Once(s)
    && (forall k: nat :: k < |s.crms| ==> CrmLinkTrue(s, k))
    && (s.fmm.busy.Some? ==> SortOf(s.fmm.busy.value.op) == VolumeOp)
  }

  // ------------------------------------------------------------------
  // What stays true
  // ------------------------------------------------------------------

  /** Nothing performed or given is taken back, and nothing granted changes. */
  predicate Later(s: System, t: System) {
    && t.volumeCap == s.volumeCap && t.accessCap == s.accessCap && s.performed <= t.performed
    && s.volume.journal.given <= t.volume.journal.given
  }

  lemma FmmTrueLater(s: System, t: System, r: Reply)
    requires Later(s, t) && AtFmm(s, r)
    ensures AtFmm(t, r)
  {
  }

  lemma FmmLinkLater(s: System, t: System)
    requires Later(s, t) && FmmLinkTrue(s) && t.fmm.link.accepted == s.fmm.link.accepted
    requires forall r :: r in t.fmm.link.down ==> r in s.fmm.link.down || AtFmm(t, r)
    ensures FmmLinkTrue(t)
  {
    forall r | r in t.fmm.link.down ensures AtFmm(t, r) {
      if r in s.fmm.link.down { FmmTrueLater(s, t, r); }
    }
    forall i | 0 <= i < |t.fmm.link.accepted| ensures AtFmm(t, t.fmm.link.accepted[i].1) {
      FmmTrueLater(s, t, s.fmm.link.accepted[i].1);
    }
  }

  lemma CrmLinkLater(s: System, t: System, k: nat)
    requires Later(s, t) && k < |s.crms| && k < |t.crms| && CrmLinkTrue(s, k)
    requires t.crms[k].link.down == s.crms[k].link.down && t.crms[k].link.accepted == s.crms[k].link.accepted
    requires t.crms[k].journal == s.crms[k].journal
    ensures CrmLinkTrue(t, k)
  {
    forall r | AtCrm(s, k, r) ensures AtCrm(t, k, r) { }
  }

  lemma CrmsLater(s: System, t: System)
    requires Later(s, t) && t.crms == s.crms && forall k: nat :: k < |s.crms| ==> CrmLinkTrue(s, k)
    ensures forall k: nat :: k < |t.crms| ==> CrmLinkTrue(t, k)
  {
    forall k: nat | k < |t.crms| ensures CrmLinkTrue(t, k) { CrmLinkLater(s, t, k); }
  }

  // ------------------------------------------------------------------
  // Clients
  // ------------------------------------------------------------------

  /** A client's move takes replies from the pipe to the accepted, and makes none. */
  lemma MovedReplies(l: Link, m: Move)
    ensures forall r :: r in Moved(l, m).down ==> r in l.down
    ensures forall i :: 0 <= i < |Moved(l, m).accepted| ==>
              || (i < |l.accepted| && Moved(l, m).accepted[i] == l.accepted[i]) || Moved(l, m).accepted[i].1 in l.down
    ensures l.nextId <= Moved(l, m).nextId
  {
  }

  lemma RisingBound(s: seq<Request>, b: nat, c: nat)
    requires Rising(s, b) && b <= c
    ensures Rising(s, c)
  {
  }

  lemma FmmClientTruth(s: System, m: Move)
    requires Truth(s)
    ensures Truth(Next(s, FmmClient(m)))
  {
    var t := Next(s, FmmClient(m));
    MovedReplies(s.fmm.link, m);
    RisingBound(s.volume.journal.read + s.volume.inbox, s.fmm.link.nextId, t.fmm.link.nextId);
    CrmsLater(s, t);
    forall i | 0 <= i < |t.fmm.link.accepted| ensures AtFmm(t, t.fmm.link.accepted[i].1) {
      assert AtFmm(t, t.fmm.link.accepted[i].1) == AtFmm(s, t.fmm.link.accepted[i].1);
    }
    forall r | r in t.fmm.link.down ensures AtFmm(t, r) { assert AtFmm(s, r); }
  }

  lemma CrmClientTruth(s: System, k: nat, m: Move)
    requires Truth(s) && k < |s.crms|
    ensures Truth(Next(s, CrmClient(k, m)))
  {
    var t := Next(s, CrmClient(k, m));
    MovedReplies(s.crms[k].link, m);
    FmmLinkLater(s, t);
    forall j: nat | j < |t.crms| ensures CrmLinkTrue(t, j) {
      assert CrmLinkTrue(s, j);
      if j != k {
        CrmLinkLater(s, t, j);
      } else {
        forall r | AtCrm(s, k, r) ensures AtCrm(t, k, r) { }
      }
    }
  }

  // ------------------------------------------------------------------
  // The supervisor
  // ------------------------------------------------------------------

  lemma AnsweredTruth(s: System, t: System, status: Status, delivered: bool)
    requires Truth(s) && s.fmm.link.up != [] && s.fmm.busy.None?
    requires t.volumeCap == s.volumeCap && t.accessCap == s.accessCap
    requires t.volume == s.volume && t.performed == s.performed
    requires t.fmm.link == AnswerNext(s.fmm.link, status, delivered) && t.fmm.busy.None?
    requires s.fmm.journal.read <= t.fmm.journal.read
    requires t.crms == s.crms || t.crms == s.crms + [NEW_ACCESS]
    requires AtFmm(s, Reply(s.fmm.link.up[0].id, status, s.fmm.link.up[0]))
    ensures Truth(t)
  {
    FmmLinkLater(s, t);
    forall k: nat | k < |t.crms| ensures CrmLinkTrue(t, k) {
      if k < |s.crms| { CrmLinkLater(s, t, k); }
    }
    assert t.volume.journal.read + t.volume.inbox == s.volume.journal.read + s.volume.inbox;
  }

  /** What the supervisor answers itself. */
  function OwnStatus(s: System, done: bool): Status
    requires s.fmm.link.up != []
  {
    match SortOf(s.fmm.link.up[0].op)
    case Plain => Ok
    case Stop => Ok
    case Spawn => if done then Ok else HostError
    case VolumeOp => if s.volumeCap then HostError else Refused
    case AccessOp => if s.accessCap then Unsupported else Refused
    case Unknown => Refused
  }

  predicate Forwards(s: System, done: bool)
    requires s.fmm.link.up != []
  {
    SortOf(s.fmm.link.up[0].op) == VolumeOp && s.volumeCap && s.fmm.volumeOpen && done
  }

  /** Unless it forwards, the supervisor answers at once. */
  lemma AnswersItself(s: System, done: bool, delivered: bool)
    requires s.fmm.alive && s.fmm.busy.None? && s.fmm.link.up != [] && !Forwards(s, done)
    ensures var f, status := Dispatch(s, done, delivered).fmm, OwnStatus(s, done);
            && f.busy.None? && f.link == AnswerNext(s.fmm.link, status, delivered)
            && f.journal == Replied(s.fmm.journal, s.fmm.link.up[0], status)
  {
  }

  lemma AnswersAlone(s: System, done: bool, delivered: bool)
    requires s.fmm.alive && s.fmm.busy.None? && s.fmm.link.up != [] && !Forwards(s, done)
    ensures var t := Dispatch(s, done, delivered);
            && t.volumeCap == s.volumeCap && t.accessCap == s.accessCap && t.volume == s.volume
            && t.performed == s.performed && (t.crms == s.crms || t.crms == s.crms + [NEW_ACCESS])
  {
  }

  lemma OwnIsTrue(s: System, done: bool)
    requires s.fmm.link.up != []
    ensures AtFmm(s, Reply(s.fmm.link.up[0].id, OwnStatus(s, done), s.fmm.link.up[0]))
  {
  }

  lemma DispatchAnswers(s: System, done: bool, delivered: bool)
    requires Truth(s) && s.fmm.alive && s.fmm.busy.None? && s.fmm.link.up != [] && !Forwards(s, done)
    ensures Truth(Dispatch(s, done, delivered))
  {
    AnswersItself(s, done, delivered);
    AnswersAlone(s, done, delivered);
    OwnIsTrue(s, done);
    AnsweredTruth(s, Dispatch(s, done, delivered), OwnStatus(s, done), delivered);
  }

  /** All requests read come before the next one. */
  lemma ReadBefore(s: System, i: nat)
    requires FmmInv(s.fmm) && s.fmm.link.up != [] && i < |s.fmm.journal.read|
    ensures s.fmm.journal.read[i].id < s.fmm.link.up[0].id
  {
    var all := s.fmm.journal.read + s.fmm.link.up;
    assert all[i] == s.fmm.journal.read[i] && all[|s.fmm.journal.read|] == s.fmm.link.up[0];
    RisingAt(all, s.fmm.link.nextId, i, |s.fmm.journal.read|);
  }

  lemma RisingNext(q: seq<Request>, r: Request, bound: nat, was: nat)
    requires Rising(q, was) && r.id < bound && forall i :: 0 <= i < |q| ==> q[i].id < r.id
    ensures Rising(q + [r], bound)
  {
    assert (q + [r])[..|q|] == q;
  }

  lemma NextIsBelow(s: System)
    requires FmmInv(s.fmm) && s.fmm.link.up != []
    ensures s.fmm.link.up[0].id < s.fmm.link.nextId
  {
    var all := s.fmm.journal.read + s.fmm.link.up;
    assert all[|s.fmm.journal.read|] == s.fmm.link.up[0];
    RisingLast(all, s.fmm.link.nextId, |s.fmm.journal.read|);
  }

  /** A granted operation with the worker's channel open is the worker's to answer:
      it is all its inbox holds, and no reply has been attempted. */
  lemma DispatchForwards(s: System, delivered: bool)
    requires Inv(s) && s.fmm.alive && s.fmm.busy.None? && s.fmm.link.up != []
    requires SortOf(s.fmm.link.up[0].op) == VolumeOp && s.volumeCap && s.fmm.volumeOpen
    ensures var t := Dispatch(s, true, delivered);
            && t.volume.inbox == [s.fmm.link.up[0]] && t.fmm.busy == Some(s.fmm.link.up[0])
            && t.fmm.link.down == s.fmm.link.down && t.fmm.journal.replied == s.fmm.journal.replied
            && t.fmm.journal.given == s.fmm.journal.given && t.performed == s.performed
  {
  }

  lemma ForwardTruth(s: System, delivered: bool)
    requires Inv(s) && Truth(s) && s.fmm.alive && s.fmm.busy.None? && s.fmm.link.up != []
    requires SortOf(s.fmm.link.up[0].op) == VolumeOp && s.volumeCap && s.fmm.volumeOpen
    ensures Truth(Dispatch(s, true, delivered))
  {
    var r, t := s.fmm.link.up[0], Dispatch(s, true, delivered);
    FmmLinkLater(s, t);
    CrmsLater(s, t);
    ForwardOnce(s, t, r);
  }

  lemma ForwardOnce(s: System, t: System, r: Request)
    requires Inv(s) && Once(s) && s.fmm.link.up != [] && r == s.fmm.link.up[0]
    requires t.volume == s.volume.(inbox := s.volume.inbox + [r]) && t.performed == s.performed
    requires t.fmm.journal.read == s.fmm.journal.read + [r] && t.fmm.link.nextId == s.fmm.link.nextId
    ensures Once(t)
  {
    var q := s.volume.journal.read + s.volume.inbox;
    assert t.volume.journal.read + t.volume.inbox == q + [r];
    NextIsBelow(s);
    forall i | 0 <= i < |q| ensures q[i].id < r.id {
      assert q[i] in s.fmm.journal.read;
      var j :| 0 <= j < |s.fmm.journal.read| && s.fmm.journal.read[j] == q[i];
      ReadBefore(s, j);
    }
    RisingNext(q, r, t.fmm.link.nextId, s.fmm.link.nextId);
  }

  lemma SettleTruth(s: System, t: System, reply: Reply, delivered: bool)
    requires Truth(s) && s.fmm.busy.Some? && t.fmm.busy.None? && reply.answers == s.fmm.busy.value && AtFmm(s, reply)
    requires t.volumeCap == s.volumeCap && t.accessCap == s.accessCap && t.performed == s.performed && t.crms == s.crms
    requires t.volume.inbox == s.volume.inbox && t.volume.journal == s.volume.journal
    requires forall r :: r in t.volume.outbox ==> r in s.volume.outbox
    requires t.fmm.link == if delivered then s.fmm.link.(down := s.fmm.link.down + [reply]) else s.fmm.link
    requires t.fmm.journal.read == s.fmm.journal.read
    ensures Truth(t)
  {
    FmmLinkLater(s, t);
    CrmsLater(s, t);
  }

  lemma RelayTruth(s: System, delivered: bool)
    requires Inv(s) && Truth(s) && s.fmm.alive && s.fmm.busy.Some? && s.volume.outbox != []
    ensures Truth(Relay(s, delivered))
  {
    var reply := s.volume.outbox[0];
    assert reply in s.volume.outbox;
    SettleTruth(s, Relay(s, delivered), reply, delivered);
  }

  lemma LoseTruth(s: System, delivered: bool)
    requires Inv(s) && Truth(s) && s.fmm.alive && s.fmm.busy.Some?
    ensures Truth(s.(fmm := WorkerGone(s.fmm, delivered)))
  {
    var r := s.fmm.busy.value;
    SettleTruth(s, s.(fmm := WorkerGone(s.fmm, delivered)), Reply(r.id, HostError, r), delivered);
  }

  // ------------------------------------------------------------------
  // The workers
  // ------------------------------------------------------------------

  lemma OpsNext(q: seq<Request>, r: Request)
    ensures Ops(q + [r]) == Ops(q) + [r.op]
  {
    assert (q + [r])[..|q|] == q;
  }

  lemma WorkerOpsNext(performed: seq<(Process, Code)>, p: Process, op: Code)
    ensures WorkerOps(performed + [(p, op)]) == WorkerOps(performed) + if p == Worker then [op] else []
  {
    assert (performed + [(p, op)])[..|performed|] == performed;
  }

  lemma WorkTrue(s: System, status: Status, delivered: bool)
    requires WorkerTrue(s.volume, s.performed) && s.volume.alive && s.volume.inbox != []
    requires SortOf(s.volume.inbox[0].op) == VolumeOp
    ensures WorkerTrue(Work(s, status, delivered).volume, Work(s, status, delivered).performed)
  {
    var r, t := s.volume.inbox[0], Work(s, status, delivered);
    assert t.performed == s.performed + [(Worker, r.op)];
    assert t.performed[|s.performed|] == (Worker, r.op);
    forall x | x in t.volume.journal.given ensures (Worker, x.answers.op) in t.performed {
      if x in s.volume.journal.given { assert (Worker, x.answers.op) in s.performed; }
    }
  }

  lemma WorkOnce(s: System, status: Status, delivered: bool)
    requires Once(s) && s.volume.alive && s.volume.inbox != [] && SortOf(s.volume.inbox[0].op) == VolumeOp
    ensures Once(Work(s, status, delivered))
  {
    var r, t := s.volume.inbox[0], Work(s, status, delivered);
    OpsNext(s.volume.journal.read, r);
    WorkerOpsNext(s.performed, Worker, r.op);
    assert t.volume.journal.read + t.volume.inbox == s.volume.journal.read + s.volume.inbox;
  }

  lemma WorkTruth(s: System, status: Status, delivered: bool)
    requires Inv(s) && Truth(s) && s.volume.alive && s.volume.inbox != []
    ensures Truth(Work(s, status, delivered))
  {
    var t := Work(s, status, delivered);
    WorkTrue(s, status, delivered);
    WorkOnce(s, status, delivered);
    FmmLinkLater(s, t);
    CrmsLater(s, t);
  }

  lemma OpenAnswers(s: System, k: nat, status: Status, delivered: bool)
    requires k < |s.crms| && s.crms[k].alive && s.crms[k].link.up != []
    ensures var r, t := s.crms[k].link.up[0], Open(s, k, status, delivered);
            exists x: Reply :: x.answers == r && x.id == r.id && CrmTrue(t.performed, t.crms[k].journal.given, k, x)
              && t.crms[k].journal.given == s.crms[k].journal.given + [x]
              && t.crms[k].link.down == (if delivered then s.crms[k].link.down + [x] else s.crms[k].link.down)
  {
    var a, t := s.crms[k], Open(s, k, status, delivered);
    var r := a.link.up[0];
    var sort := SortOf(r.op);
    var answer :=
      if (sort == Plain && r.op != CAPS) || sort == Stop then Ok else if sort == AccessOp then status else Refused;
    var x := Reply(r.id, answer, r);
    assert t.crms[k].journal.given == a.journal.given + [x];
    assert (a.journal.given + [x])[|a.journal.given|] == x;
    if sort == AccessOp { assert t.performed[|s.performed|] == (Crm(k), r.op); }
  }

  lemma OpenLink(s: System, k: nat, status: Status, delivered: bool)
    requires k < |s.crms| && s.crms[k].alive && s.crms[k].link.up != [] && CrmLinkTrue(s, k)
    ensures CrmLinkTrue(Open(s, k, status, delivered), k)
  {
    var t := Open(s, k, status, delivered);
    OpenAnswers(s, k, status, delivered);
    assert s.performed <= t.performed;
    forall r | AtCrm(s, k, r) ensures AtCrm(t, k, r) {
      assert r in t.crms[k].journal.given;
    }
    assert t.crms[k].link.accepted == s.crms[k].link.accepted;
  }

  lemma OpenOnce(s: System, k: nat, status: Status, delivered: bool)
    requires k < |s.crms| && s.crms[k].alive && s.crms[k].link.up != []
    ensures WorkerOps(Open(s, k, status, delivered).performed) == WorkerOps(s.performed)
  {
    WorkerOpsNext(s.performed, Crm(k), s.crms[k].link.up[0].op);
  }

  lemma OpenTruth(s: System, k: nat, status: Status, delivered: bool)
    requires Truth(s) && k < |s.crms| && s.crms[k].alive && s.crms[k].link.up != []
    ensures Truth(Open(s, k, status, delivered))
  {
    var t := Open(s, k, status, delivered);
    OpenFrame(s, k, status, delivered);
    OpenOnce(s, k, status, delivered);
    assert s.performed <= t.performed;
    FmmLinkLater(s, t);
    forall j: nat | j < |t.crms| ensures CrmLinkTrue(t, j) {
      assert CrmLinkTrue(s, j);
      if j == k { OpenLink(s, k, status, delivered); } else { CrmLinkLater(s, t, j); }
    }
  }

  // ------------------------------------------------------------------
  // Runs
  // ------------------------------------------------------------------

  lemma DeathTruth(s: System, e: Event)
    requires Truth(s) && Enabled(s, e) && (e.SupervisorDies? || e.WorkerDies? || e.CrmDies?)
    ensures Truth(Next(s, e))
  {
    var t := Next(s, e);
    FmmLinkLater(s, t);
    forall k: nat | k < |t.crms| ensures CrmLinkTrue(t, k) { CrmLinkLater(s, t, k); }
  }

  lemma SuperviseTruth(s: System, done: bool, delivered: bool)
    requires Inv(s) && Truth(s) && s.fmm.alive && s.fmm.busy.None? && s.fmm.link.up != []
    ensures Truth(Dispatch(s, done, delivered))
  {
    if Forwards(s, done) {
      ForwardTruth(s, delivered);
    } else {
      DispatchAnswers(s, done, delivered);
    }
  }

  lemma NextTruth(s: System, e: Event)
    requires Inv(s) && Truth(s) && Enabled(s, e)
    ensures Truth(Next(s, e))
  {
    match e
    case FmmClient(m) => FmmClientTruth(s, m);
    case CrmClient(k, m) => CrmClientTruth(s, k, m);
    case Supervise(done, delivered) => SuperviseTruth(s, done, delivered);
    case RelayReply(delivered) => RelayTruth(s, delivered);
    case LoseWorker(delivered) => LoseTruth(s, delivered);
    case WorkerStep(status, delivered) => WorkTruth(s, status, delivered);
    case CrmStep(k, status, delivered) => OpenTruth(s, k, status, delivered);
    case SupervisorDies => DeathTruth(s, e);
    case WorkerDies => DeathTruth(s, e);
    case CrmDies(_) => DeathTruth(s, e);
  }

  /** In every state every run can reach, every answer on its way or accepted is true. */
  lemma {:induction false} RunTruth(volumeCap: bool, accessCap: bool, volumeOpen: bool, events: seq<Event>)
    requires Possible(Start(volumeCap, accessCap, volumeOpen), events)
    ensures Truth(After(Start(volumeCap, accessCap, volumeOpen), events))
  {
    var s := Start(volumeCap, accessCap, volumeOpen);
    if events != [] {
      var p := events[..|events| - 1];
      RunTruth(volumeCap, accessCap, volumeOpen, p);
      RunInv(volumeCap, accessCap, volumeOpen, p);
      NextTruth(After(s, p), events[|events| - 1]);
    }
  }

  lemma VolumeAnswerTrue(s: System, i: nat)
    requires Inv(s) && Truth(s) && i < |s.fmm.link.accepted| && SortOf(s.fmm.link.accepted[i].0.op) == VolumeOp
    requires s.fmm.link.accepted[i].1.status != HostError && s.fmm.link.accepted[i].1.status != Refused
    ensures s.fmm.link.accepted[i].1 in s.volume.journal.given
    ensures (Worker, s.fmm.link.accepted[i].0.op) in s.performed
  {
    assert AtFmm(s, s.fmm.link.accepted[i].1);
    NeverStale(s, ToFmm, i);
  }

  /** A volume operation a client was told succeeded, or anything else but that the
      host failed or the class was refused, was performed by the volume worker, and
      that is what the worker answered. */
  lemma VolumeAnswer(volumeCap: bool, accessCap: bool, volumeOpen: bool, events: seq<Event>, i: nat)
    requires Possible(Start(volumeCap, accessCap, volumeOpen), events)
    requires var l := After(Start(volumeCap, accessCap, volumeOpen), events).fmm.link;
             && i < |l.accepted| && SortOf(l.accepted[i].0.op) == VolumeOp
             && l.accepted[i].1.status != HostError && l.accepted[i].1.status != Refused
    ensures var s := After(Start(volumeCap, accessCap, volumeOpen), events);
            && s.fmm.link.accepted[i].1 in s.volume.journal.given
            && (Worker, s.fmm.link.accepted[i].0.op) in s.performed
  {
    RunTruth(volumeCap, accessCap, volumeOpen, events);
    RunInv(volumeCap, accessCap, volumeOpen, events);
    VolumeAnswerTrue(After(Start(volumeCap, accessCap, volumeOpen), events), i);
  }

  lemma AccessAnswerTrue(s: System, k: nat, i: nat)
    requires Inv(s) && Truth(s) && k < |s.crms| && i < |s.crms[k].link.accepted|
    requires SortOf(s.crms[k].link.accepted[i].0.op) == AccessOp
    ensures s.crms[k].link.accepted[i].1 in s.crms[k].journal.given
    ensures (Crm(k), s.crms[k].link.accepted[i].0.op) in s.performed
  {
    assert CrmLinkTrue(s, k);
    NeverStale(s, ToCrm(k), i);
    AccessTrue(s.performed, s.crms[k].journal.given, k, s.crms[k].link.accepted[i].1);
  }

  lemma AccessTrue(performed: seq<(Process, Code)>, given: seq<Reply>, k: nat, reply: Reply)
    requires CrmTrue(performed, given, k, reply) && SortOf(reply.answers.op) == AccessOp
    ensures reply in given && (Crm(k), reply.answers.op) in performed
  {
  }

  /** An access operation a client of a CRM was answered was performed by that CRM,
      and that is what it answered. */
  lemma AccessAnswer(volumeCap: bool, accessCap: bool, volumeOpen: bool, events: seq<Event>, k: nat, i: nat)
    requires Possible(Start(volumeCap, accessCap, volumeOpen), events)
    requires var s := After(Start(volumeCap, accessCap, volumeOpen), events);
             && k < |s.crms| && i < |s.crms[k].link.accepted|
             && SortOf(s.crms[k].link.accepted[i].0.op) == AccessOp
    ensures var s := After(Start(volumeCap, accessCap, volumeOpen), events);
            && s.crms[k].link.accepted[i].1 in s.crms[k].journal.given
            && (Crm(k), s.crms[k].link.accepted[i].0.op) in s.performed
  {
    RunTruth(volumeCap, accessCap, volumeOpen, events);
    RunInv(volumeCap, accessCap, volumeOpen, events);
    AccessAnswerTrue(After(Start(volumeCap, accessCap, volumeOpen), events), k, i);
  }

  /** Over every run the volume worker has performed each request it read, once, in
      the order they were sent: their ids rise. */
  lemma PerformedOnce(volumeCap: bool, accessCap: bool, volumeOpen: bool, events: seq<Event>, i: nat, j: nat)
    requires Possible(Start(volumeCap, accessCap, volumeOpen), events)
    ensures var s := After(Start(volumeCap, accessCap, volumeOpen), events);
            && WorkerOps(s.performed) == Ops(s.volume.journal.read)
            && (i < j < |s.volume.journal.read| ==> s.volume.journal.read[i].id < s.volume.journal.read[j].id)
  {
    RunTruth(volumeCap, accessCap, volumeOpen, events);
    var s := After(Start(volumeCap, accessCap, volumeOpen), events);
    var q := s.volume.journal.read + s.volume.inbox;
    if i < j < |s.volume.journal.read| {
      RisingAt(q, s.fmm.link.nextId, i, j);
      assert q[i] == s.volume.journal.read[i] && q[j] == s.volume.journal.read[j];
    }
  }

  // ------------------------------------------------------------------
  // What can be done
  // ------------------------------------------------------------------

  /** A granted volume operation, with the worker there, can be performed and
      answered: forward, work, relay, receive. */
  lemma VolumeServed(s: System, status: Status)
    requires Inv(s) && s.fmm.alive && s.fmm.busy.None? && s.fmm.link.up != [] && !s.fmm.link.closed
    requires SortOf(s.fmm.link.up[0].op) == VolumeOp && s.volumeCap && s.fmm.volumeOpen && s.volume.alive
    ensures var r := s.fmm.link.up[0];
            var t := Dispatch(s, true, true);
            && Enabled(s, Supervise(true, true)) && Enabled(t, WorkerStep(status, true))
            && Enabled(Work(t, status, true), RelayReply(true))
            && var u := Relay(Work(t, status, true), true);
               && u.performed == s.performed + [(Worker, r.op)] && u.fmm.alive
               && Receive(u.fmm.link).accepted == s.fmm.link.accepted + [(r, Reply(r.id, status, r))]
  {
    DispatchForwards(s, true);
  }

  /** An access operation sent to a live CRM can be performed and answered. */
  lemma AccessServed(s: System, k: nat, status: Status)
    requires Inv(s) && k < |s.crms| && s.crms[k].alive && s.crms[k].link.up != [] && !s.crms[k].link.closed
    requires SortOf(s.crms[k].link.up[0].op) == AccessOp
    ensures var r := s.crms[k].link.up[0];
            var t := Open(s, k, status, true);
            && t.performed == s.performed + [(Crm(k), r.op)] && t.crms[k].alive
            && Receive(t.crms[k].link).accepted == s.crms[k].link.accepted + [(r, Reply(r.id, status, r))]
  {
    assert Sane(s.crms[k]);
  }

  /** A request goes out, under an id of its own, exactly when the connection is open,
      nothing is awaited and the send succeeds. */
  lemma SendsExactly(l: Link, op: Code, delivered: bool)
    ensures Send(l, op, delivered).up
         == if !l.closed && l.waiting.None? && delivered then l.up + [Request(l.nextId, op)] else l.up
    ensures Send(l, op, delivered).waiting
         == if !l.closed && l.waiting.None? && delivered then Some(Request(l.nextId, op)) else l.waiting
    ensures Send(l, op, delivered).nextId == l.nextId + if !l.closed && l.waiting.None? then 1 else 0
  {
  }

  /** Against an honest peer a connection closes exactly when a send fails or an
      answer is given up, and never opens again. */
  lemma ClosesExactly(l: Link, inside: Option<Request>, m: Move)
    requires LockStep(l, inside)
    ensures Moved(l, m).closed <==>
              || l.closed || (m.SendOne? && l.waiting.None? && !m.delivered) || (m.GiveUpWaiting? && l.waiting.Some?)
  {
    if m.ReceiveOne? && l.waiting.Some? && l.down != [] { ReceiveMatches(l, inside); }
  }

  /** The supervisor ends exactly when told to, when a new worker's channel cannot be
      handed over, or when a worker's answer cannot be relayed. */
  lemma EndsExactly(s: System, done: bool, delivered: bool)
    requires Inv(s) && s.fmm.alive
    ensures s.fmm.busy.None? && s.fmm.link.up != [] ==>
              (Dispatch(s, done, delivered).fmm.alive <==>
                 var sort := SortOf(s.fmm.link.up[0].op);
                 sort != Stop && !(sort == Spawn && done && !delivered))
    ensures s.fmm.busy.Some? && s.volume.outbox != [] ==> (Relay(s, delivered).fmm.alive <==> delivered)
  {
    if s.fmm.busy.Some? && s.volume.outbox != [] { RelayInv(s, delivered); }
  }

  /** SPAWN_ACCESS makes one access worker exactly when it succeeds and its channel is
      handed over. */
  lemma SpawnsExactly(s: System, done: bool, delivered: bool)
    requires s.fmm.alive && s.fmm.busy.None? && s.fmm.link.up != []
    ensures Dispatch(s, done, delivered).crms
         == if SortOf(s.fmm.link.up[0].op) == Spawn && done && delivered then s.crms + [NEW_ACCESS] else s.crms
  {
  }
}
