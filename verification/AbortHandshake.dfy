/** AbortIO() against a worker blocked in a CMD_READ, over every interleaving of
    the two threads, of other users of the unit and of spurious wake-ups.  The
    unit's lock guards the input and the wait; the request's lock guards the flag. */
module AbortHandshake {

  const ABORTED := -2

  /** Where the worker is: host_read() up to Fetching, then the end of io_worker(). */
  datatype Reader =
    WantUnit | Testing | WantFlag | Checking | Sleeping | Asleep | Fetching | WantReport | Reporting | Done

  /** Where AbortIO() is. */
  datatype Aborter = Idle | Flagging | WantWake | Waking | Returned

  datatype Holder = Free | ByReader | ByAborter

  datatype Io = Io(reader: Reader, aborter: Aborter, unitLock: Holder, flagLock: Holder, aborted: bool, closing: bool,
                   available: nat, wanted: nat, error: int, actual: nat, ioError: int, ioActual: nat, finished: bool)

  function Start(available: nat, wanted: nat, closing: bool): Io {
    Io(WantUnit, Idle, Free, Free, false, closing, available, wanted, 0, 0, 0, 0, false)
  }

  /** Feed, Take and Close are other critical sections of the unit's lock. */
  datatype Event = Read | Abort | Feed(n: nat) | Take(n: nat) | Close | Spurious

  predicate Enabled(s: Io, e: Event) {
    match e
    case Read =>
      (match s.reader
       case WantUnit => s.unitLock == Free
       case WantFlag => s.flagLock == Free
       case WantReport => s.flagLock == Free
       case Asleep => false
       case Done => false
       case _ => true)
    case Abort =>
      (match s.aborter
       case Idle => s.flagLock == Free
       case WantWake => s.unitLock == Free
       case Returned => false
       case _ => true)
    case Feed(_) => s.unitLock == Free
    case Take(n) => s.unitLock == Free && n <= s.available
    case Close => s.unitLock == Free
    case Spurious => s.reader == Asleep
  }

  /** A broadcast on the unit's condition. */
  function Woken(s: Io): Io { if s.reader == Asleep then s.(reader := WantUnit) else s }

  function ReadStep(s: Io): Io
    requires Enabled(s, Read)
  {
    match s.reader
    case WantUnit => s.(reader := Testing, unitLock := ByReader)
    case Testing => if s.available == 0 && !s.closing then s.(reader := WantFlag) else s.(reader := Fetching)
    case WantFlag => s.(reader := Checking, flagLock := ByReader)
    case Checking =>
      if s.aborted then s.(reader := WantReport, flagLock := Free, unitLock := Free, error := ABORTED)
      else s.(reader := Sleeping, flagLock := Free)
    case Sleeping => s.(reader := Asleep, unitLock := Free)
    case Fetching =>
      if s.closing then s.(reader := WantReport, unitLock := Free, error := ABORTED)
      else
        var count := if s.available < s.wanted then s.available else s.wanted;
        s.(reader := WantReport, unitLock := Free, available := s.available - count, actual := count)
    case WantReport => s.(reader := Reporting, flagLock := ByReader)
    case Reporting =>
      s.(reader := Done, flagLock := Free, ioError := if s.aborted then ABORTED else s.error, ioActual := s.actual,
         finished := true)
  }

  function AbortStep(s: Io): Io
    requires Enabled(s, Abort)
  {
    match s.aborter
    case Idle => s.(aborter := Flagging, flagLock := ByAborter)
    case Flagging => s.(aborter := WantWake, flagLock := Free, aborted := true)
    case WantWake => s.(aborter := Waking, unitLock := ByAborter)
    case Waking => Woken(s).(aborter := Returned, unitLock := Free)
  }

  function Next(s: Io, e: Event): Io
    requires Enabled(s, e)
  {
    match e
    case Read => ReadStep(s)
    case Abort => AbortStep(s)
    case Feed(n) => Woken(s.(available := s.available + n))
    case Take(n) => s.(available := s.available - n)
    case Close => Woken(s.(closing := true))
    case Spurious => Woken(s)
  }

  predicate Possible(s: Io, events: seq<Event>)
    decreases events, 0
  {
    events == []
    || (Possible(s, events[..|events| - 1]) && Enabled(After(s, events[..|events| - 1]), events[|events| - 1]))
  }

  function After(s: Io, events: seq<Event>): Io
    requires Possible(s, events)
    decreases events, 1
  {
    if events == [] then s else Next(After(s, events[..|events| - 1]), events[|events| - 1])
  }

  // ------------------------------------------------------------------
  // Invariants
  // ------------------------------------------------------------------

  /** Who holds which lock where. */
  predicate Locks(s: Io) {
    && (s.unitLock == ByReader <==> s.reader in {Testing, WantFlag, Checking, Sleeping, Fetching})
    && (s.flagLock == ByReader <==> s.reader in {Checking, Reporting})
    && (s.unitLock == ByAborter <==> s.aborter == Waking)
    && (s.flagLock == ByAborter <==> s.aborter == Flagging)
  }

  /** A reader that has not seen the flag can only be going to sleep, or asleep,
      while AbortIO() still has its broadcast to make. */
  predicate Inv(s: Io) {
    && Locks(s)
    && (s.aborted <==> s.aborter in {WantWake, Waking, Returned})
    && (s.aborted && s.reader == Sleeping ==> s.aborter == WantWake)
    && (s.aborted && s.reader == Asleep ==> s.aborter in {WantWake, Waking})
    && (s.finished <==> s.reader == Done)
  }

  lemma NextInv(s: Io, e: Event)
    requires Inv(s) && Enabled(s, e)
    ensures Inv(Next(s, e))
  {
  }

  lemma {:induction false} AfterInv(s: Io, events: seq<Event>)
    requires Inv(s) && Possible(s, events)
    ensures Inv(After(s, events))
  {
    if events != [] {
      AfterInv(s, events[..|events| - 1]);
      NextInv(After(s, events[..|events| - 1]), events[|events| - 1]);
    }
  }

  /** In every interleaving, once AbortIO() has returned the worker is not asleep,
      nor about to sleep, with the flag unseen. */
  lemma NoLostWakeup(available: nat, wanted: nat, closing: bool, events: seq<Event>)
    requires Possible(Start(available, wanted, closing), events)
    requires After(Start(available, wanted, closing), events).aborter == Returned
    ensures After(Start(available, wanted, closing), events).reader !in {Sleeping, Asleep}
  {
    AfterInv(Start(available, wanted, closing), events);
  }

  // ------------------------------------------------------------------
  // The outcome
  // ------------------------------------------------------------------

  /** The flag was up before the report was made, so the report says so. */
  predicate WillSayAborted(s: Io) {
    s.aborted && (s.finished ==> s.ioError == ABORTED)
  }

  lemma {:induction false} StaysAborted(s: Io, events: seq<Event>)
    requires Inv(s) && WillSayAborted(s) && Possible(s, events)
    ensures WillSayAborted(After(s, events))
  {
    if events != [] {
      StaysAborted(s, events[..|events| - 1]);
      AfterInv(s, events[..|events| - 1]);
      AbortedStep(After(s, events[..|events| - 1]), events[|events| - 1]);
    }
  }

  lemma AbortedStep(s: Io, e: Event)
    requires Inv(s) && WillSayAborted(s) && Enabled(s, e)
    ensures WillSayAborted(Next(s, e))
  {
  }

  /** A request whose flag went up before it finished finishes with the abort error. */
  lemma AbortedRequestFails(s: Io, events: seq<Event>)
    requires Inv(s) && s.aborted && !s.finished && Possible(s, events) && After(s, events).finished
    ensures After(s, events).ioError == ABORTED
  {
    StaysAborted(s, events);
  }

  /** And one that finished before is not touched. */
  lemma {:induction false} FinishedStays(s: Io, events: seq<Event>)
    requires Inv(s) && s.finished && Possible(s, events)
    ensures After(s, events).finished && After(s, events).ioError == s.ioError
    ensures After(s, events).ioActual == s.ioActual
  {
    if events != [] {
      FinishedStays(s, events[..|events| - 1]);
      AfterInv(s, events[..|events| - 1]);
    }
  }

  // ------------------------------------------------------------------
  // Progress
  // ------------------------------------------------------------------

  /** Worker steps left once AbortIO() has returned. */
  function StepsLeft(r: Reader): nat {
    match r
    case WantUnit => 6
    case Testing => 5
    case WantFlag => 4
    case Checking => 3
    case Fetching => 3
    case WantReport => 2
    case Reporting => 1
    case _ => 0
  }

  /** After AbortIO() has returned the worker can always go on, every step of its
      brings it nearer the end, and nobody else can set it back. */
  lemma WorkerEnds(s: Io, e: Event)
    requires Inv(s) && s.aborter == Returned && !s.finished
    ensures Enabled(s, Read) && StepsLeft(s.reader) > 0
    ensures Enabled(s, e) ==> Next(s, e).aborter == Returned
    ensures Enabled(s, e) && e != Read ==> Next(s, e).reader == s.reader
    ensures StepsLeft(Next(s, Read).reader) < StepsLeft(s.reader)
  {
  }

  /** So at most six worker steps end the request, whatever else happens. */
  lemma {:induction false} AbortCompletes(s: Io, events: seq<Event>)
    requires Inv(s) && s.aborter == Returned && !s.finished
    requires Possible(s, events) && Reads(events) >= StepsLeft(s.reader)
    ensures After(s, events).finished && After(s, events).ioError == ABORTED
  {
    StaysAborted(s, events);
    CountsDown(s, events);
    AfterInv(s, events);
    if !After(s, events).finished { WorkerEnds(After(s, events), Read); }
  }

  function Reads(events: seq<Event>): nat {
    if events == [] then 0 else Reads(events[..|events| - 1]) + if events[|events| - 1].Read? then 1 else 0
  }

  lemma {:induction false} CountsDown(s: Io, events: seq<Event>)
    requires Inv(s) && s.aborter == Returned && Possible(s, events)
    ensures After(s, events).aborter == Returned
    ensures After(s, events).finished || StepsLeft(After(s, events).reader) + Reads(events) <= StepsLeft(s.reader)
  {
    if events != [] {
      var p, e := events[..|events| - 1], events[|events| - 1];
      CountsDown(s, p);
      AfterInv(s, p);
      var t := After(s, p);
      if !t.finished { WorkerEnds(t, e); }
    }
  }

  /** Nobody is ever stuck: a worker that is neither asleep nor done can move, or
      AbortIO() can and then will let go of what the worker needs. */
  lemma NoDeadlock(s: Io)
    requires Inv(s) && s.reader !in {Asleep, Done}
    ensures Enabled(s, Read) || (Enabled(s, Abort) && s.aborter in {Flagging, Waking})
  {
  }
}
