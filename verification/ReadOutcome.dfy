/** What a CMD_READ reports, over every interleaving: how it ended, how much it was
    given, and that no input is lost or made. */
module ReadOutcome {
  import opened AbortHandshake

  // ------------------------------------------------------------------
  // Where a run was decided and reported
  // ------------------------------------------------------------------

  /** The state before event n, which is a step of the worker at this point. */
  predicate WorkerAt(s: Io, events: seq<Event>, n: nat, r: Reader)
    requires Possible(s, events)
  {
    n < |events| && Possible(s, events[..n]) && events[n] == Read && After(s, events[..n]).reader == r
  }

  lemma {:induction false} PrefixPossible(s: Io, events: seq<Event>, n: nat)
    requires Possible(s, events) && n <= |events|
    ensures Possible(s, events[..n])
  {
    if n < |events| {
      PrefixPossible(s, events[..|events| - 1], n);
      assert events[..|events| - 1][..n] == events[..n];
    } else {
      assert events[..n] == events;
    }
  }

  lemma EarlierToo(s: Io, events: seq<Event>, n: nat, r: Reader)
    requires Possible(s, events) && events != [] && WorkerAt(s, events[..|events| - 1], n, r)
    ensures WorkerAt(s, events, n, r) && events[..|events| - 1][..n] == events[..n]
  {
    assert events[..|events| - 1][..n] == events[..n] && events[..|events| - 1][n] == events[n];
  }

  function Smaller(a: nat, b: nat): nat { if a < b then a else b }

  /** The input was fetched by event n: not from a closing unit, all there was up to
      what was wanted. */
  predicate FetchedAt(s: Io, events: seq<Event>, n: nat, actual: nat)
    requires Possible(s, events)
  {
    && WorkerAt(s, events, n, Fetching)
    && var u := After(s, events[..n]);
       !u.closing && actual == Smaller(u.available, s.wanted) && u.available > 0
  }

  /** The read was given up by event n: the unit was closing, or the flag was up
      with nothing to fetch. */
  predicate GaveUpAt(s: Io, events: seq<Event>, n: nat)
    requires Possible(s, events)
  {
    || (WorkerAt(s, events, n, Fetching) && After(s, events[..n]).closing)
    || (WorkerAt(s, events, n, Checking) && After(s, events[..n]).aborted)
  }

  predicate Over(r: Reader) { r in {WantReport, Reporting, Done} }

  /** How the read has been decided so far. */
  ghost predicate Decided(s: Io, events: seq<Event>)
    requires Possible(s, events)
  {
    var t := After(s, events);
    if !Over(t.reader) then t.error == 0 && t.actual == 0
    else
      || (t.error == 0 && exists n: nat :: FetchedAt(s, events, n, t.actual))
      || (t.error == ABORTED && t.actual == 0 && exists n: nat :: GaveUpAt(s, events, n))
  }

  /** A worker that fetches has input, or the unit is closing; one that is asleep has
      neither. */
  predicate Awake(s: Io) {
    && (s.reader == Fetching ==> s.available > 0 || s.closing)
    && (s.reader in {WantFlag, Checking, Sleeping, Asleep} ==> s.available == 0 && !s.closing)
  }

  lemma NextAwake(s: Io, e: Event)
    requires Inv(s) && Awake(s) && Enabled(s, e)
    ensures Awake(Next(s, e))
  {
  }

  /** In every interleaving: a worker never sleeps, nor is about to, while there is
      input to read or the unit is closing. */
  lemma {:induction false} NeverSleepsOnInput(available: nat, wanted: nat, closing: bool, events: seq<Event>)
    requires Possible(Start(available, wanted, closing), events)
    ensures Awake(After(Start(available, wanted, closing), events))
  {
    if events != [] {
      NeverSleepsOnInput(available, wanted, closing, events[..|events| - 1]);
      AfterInv(Start(available, wanted, closing), events[..|events| - 1]);
      NextAwake(After(Start(available, wanted, closing), events[..|events| - 1]), events[|events| - 1]);
    }
  }

  lemma {:induction false} WantedStays(s: Io, events: seq<Event>)
    requires Possible(s, events)
    ensures After(s, events).wanted == s.wanted
  {
    if events != [] { WantedStays(s, events[..|events| - 1]); }
  }

  lemma StillDecided(s: Io, events: seq<Event>)
    requires Possible(s, events) && events != [] && Decided(s, events[..|events| - 1])
    requires var t := After(s, events[..|events| - 1]);
             var u := After(s, events);
             Over(t.reader) && Over(u.reader) && u.error == t.error && u.actual == t.actual
    ensures Decided(s, events)
  {
    var p, t := events[..|events| - 1], After(s, events[..|events| - 1]);
    if t.error == 0 {
      var n: nat :| FetchedAt(s, p, n, t.actual);
      EarlierToo(s, events, n, Fetching);
      assert FetchedAt(s, events, n, t.actual);
    } else {
      var n: nat :| GaveUpAt(s, p, n);
      EarlierToo(s, events, n, if WorkerAt(s, p, n, Fetching) then Fetching else Checking);
      assert GaveUpAt(s, events, n);
    }
  }

  lemma DecidingStep(s: Io, e: Event)
    requires Awake(s) && Enabled(s, e) && !Over(s.reader) && Over(Next(s, e).reader)
    ensures e == Read && s.reader in {Checking, Fetching}
    ensures s.reader == Checking ==> s.aborted
    ensures var t := Next(s, e);
            if s.reader == Fetching && !s.closing
            then s.available > 0 && t.error == s.error && t.actual == Smaller(s.available, s.wanted)
            else t.error == ABORTED && t.actual == s.actual
  {
  }

  lemma NowDecided(s: Io, events: seq<Event>)
    requires Possible(s, events) && events != [] && Decided(s, events[..|events| - 1])
    requires Awake(After(s, events[..|events| - 1]))
    requires !Over(After(s, events[..|events| - 1]).reader) && Over(After(s, events).reader)
    ensures Decided(s, events)
  {
    var n := |events| - 1;
    assert events[..n] == events[..|events| - 1];
    var t := After(s, events[..n]);
    WantedStays(s, events[..n]);
    DecidingStep(t, events[n]);
    assert WorkerAt(s, events, n, t.reader);
    if t.reader == Fetching && !t.closing {
      assert FetchedAt(s, events, n, After(s, events).actual);
    } else {
      assert GaveUpAt(s, events, n);
    }
  }

  /** Once over, a read stays as it was decided. */
  lemma OverStays(s: Io, e: Event)
    requires Inv(s) && Enabled(s, e) && Over(s.reader)
    ensures Over(Next(s, e).reader) && Next(s, e).error == s.error && Next(s, e).actual == s.actual
  {
  }

  lemma NotYet(s: Io, e: Event)
    requires Inv(s) && Enabled(s, e) && !Over(s.reader) && !Over(Next(s, e).reader)
    ensures Next(s, e).error == s.error && Next(s, e).actual == s.actual
  {
  }

  lemma {:induction false} AllDecided(available: nat, wanted: nat, closing: bool, events: seq<Event>)
    requires Possible(Start(available, wanted, closing), events)
    ensures Decided(Start(available, wanted, closing), events)
  {
    var s := Start(available, wanted, closing);
    if events != [] {
      var p := events[..|events| - 1];
      AllDecided(available, wanted, closing, p);
      AfterInv(s, p);
      NeverSleepsOnInput(available, wanted, closing, p);
      if Over(After(s, p).reader) {
        OverStays(After(s, p), events[|events| - 1]);
        StillDecided(s, events);
      } else if Over(After(s, events).reader) {
        NowDecided(s, events);
      } else {
        NotYet(After(s, p), events[|events| - 1]);
      }
    }
  }

  // ------------------------------------------------------------------
  // The report
  // ------------------------------------------------------------------

  /** The report was made by event n, the flag being up or not. */
  predicate ReportedAt(s: Io, events: seq<Event>, n: nat, flag: bool)
    requires Possible(s, events)
  {
    WorkerAt(s, events, n, Reporting) && After(s, events[..n]).aborted == flag
  }

  ghost predicate Reported(s: Io, events: seq<Event>)
    requires Possible(s, events)
  {
    var t := After(s, events);
    t.finished ==> t.ioActual == t.actual
                   && exists n: nat, flag: bool :: ReportedAt(s, events, n, flag)
                                                   && t.ioError == if flag then ABORTED else t.error
  }

  lemma FinishedKeeps(s: Io, e: Event)
    requires Inv(s) && Enabled(s, e) && s.finished
    ensures var t := Next(s, e);
            && t.finished && t.ioError == s.ioError && t.ioActual == s.ioActual
            && t.error == s.error && t.actual == s.actual
  {
  }

  lemma FinishingStep(s: Io, e: Event)
    requires Inv(s) && Enabled(s, e) && !s.finished && Next(s, e).finished
    ensures e == Read && s.reader == Reporting
    ensures var t := Next(s, e);
            && t.ioError == (if s.aborted then ABORTED else s.error) && t.ioActual == s.actual
            && t.error == s.error && t.actual == s.actual
  {
  }

  lemma StillReported(s: Io, events: seq<Event>)
    requires Possible(s, events) && events != [] && Reported(s, events[..|events| - 1])
    requires Inv(After(s, events[..|events| - 1])) && After(s, events[..|events| - 1]).finished
    ensures Reported(s, events)
  {
    var p, t := events[..|events| - 1], After(s, events[..|events| - 1]);
    var m: nat, flag: bool :| ReportedAt(s, p, m, flag) && t.ioError == if flag then ABORTED else t.error;
    EarlierToo(s, events, m, Reporting);
    FinishedKeeps(t, events[|events| - 1]);
    assert ReportedAt(s, events, m, flag);
  }

  lemma NowReported(s: Io, events: seq<Event>)
    requires Possible(s, events) && events != [] && Inv(After(s, events[..|events| - 1]))
    requires !After(s, events[..|events| - 1]).finished
    ensures Reported(s, events)
  {
    var n, t := |events| - 1, After(s, events[..|events| - 1]);
    if After(s, events).finished {
      FinishingStep(t, events[n]);
      assert ReportedAt(s, events, n, t.aborted);
    }
  }

  lemma {:induction false} AllReported(s: Io, events: seq<Event>)
    requires Inv(s) && !s.finished && Possible(s, events)
    ensures Reported(s, events)
  {
    if events != [] {
      var p := events[..|events| - 1];
      AllReported(s, p);
      AfterInv(s, p);
      if After(s, p).finished { StillReported(s, events); } else { NowReported(s, events); }
    }
  }

  lemma ReportStep(s: Io)
    requires s.reader == Reporting
    ensures var t := Next(s, Read);
            t.finished && t.ioError == (if s.aborted then ABORTED else s.error) && t.error == s.error
  {
  }

  /** A report once made is the one that stands. */
  lemma {:induction false} ReportStands(s: Io, events: seq<Event>, n: nat, flag: bool)
    requires Inv(s) && Possible(s, events) && ReportedAt(s, events, n, flag)
    ensures var t := After(s, events);
            t.finished && t.ioError == if flag then ABORTED else t.error
  {
    var p := events[..|events| - 1];
    AfterInv(s, p);
    if n == |events| - 1 {
      ReportStep(After(s, p));
    } else {
      LaterToo(s, events, n, Reporting);
      ReportStands(s, p, n, flag);
      FinishedKeeps(After(s, p), events[|events| - 1]);
    }
  }

  lemma LaterToo(s: Io, events: seq<Event>, n: nat, r: Reader)
    requires Possible(s, events) && WorkerAt(s, events, n, r) && n < |events| - 1
    ensures WorkerAt(s, events[..|events| - 1], n, r) && events[..|events| - 1][..n] == events[..n]
  {
    assert events[..|events| - 1][..n] == events[..n] && events[..|events| - 1][n] == events[n];
  }

  lemma FetchStep(s: Io)
    requires s.reader == Fetching && !s.closing
    ensures Over(Next(s, Read).reader) && Next(s, Read).error == s.error
  {
  }

  /** Input once fetched, no error comes of it but the flag's. */
  lemma {:induction false} FetchStands(s: Io, events: seq<Event>, n: nat, actual: nat)
    requires Inv(s) && Possible(s, events) && FetchedAt(s, events, n, actual) && Decided(s, events[..n])
    ensures Over(After(s, events).reader) && After(s, events).error == 0
  {
    var p := events[..|events| - 1];
    AfterInv(s, p);
    if n == |events| - 1 {
      assert events[..n] == p;
      FetchStep(After(s, p));
    } else {
      LaterToo(s, events, n, Fetching);
      FetchStands(s, p, n, actual);
      OverStays(After(s, p), events[|events| - 1]);
    }
  }

  /** Some step fetched as much, and the flag was not up at the report. */
  ghost predicate ReadWell(s: Io, events: seq<Event>, actual: nat)
    requires Possible(s, events)
  {
    (exists n: nat :: FetchedAt(s, events, n, actual)) && exists n: nat :: ReportedAt(s, events, n, false)
  }

  /** What a finished read reports, in every interleaving: no error exactly when
      input was fetched and the flag was not up at the report, and the abort error
      otherwise; as much as there was, up to what was wanted, if input was fetched,
      and nothing if the read was given up. */
  lemma OutcomeExactly(available: nat, wanted: nat, closing: bool, events: seq<Event>)
    requires Possible(Start(available, wanted, closing), events)
    requires After(Start(available, wanted, closing), events).finished
    ensures var s := Start(available, wanted, closing);
            var t := After(s, events);
            && t.ioError == (if ReadWell(s, events, t.ioActual) then 0 else ABORTED)
            && (|| (exists n: nat :: FetchedAt(s, events, n, t.ioActual))
                || (t.ioActual == 0 && exists n: nat :: GaveUpAt(s, events, n)))
  {
    var s := Start(available, wanted, closing);
    var t := After(s, events);
    AllDecided(available, wanted, closing, events);
    AllReported(s, events);
    AfterInv(s, events);
    if ReadWell(s, events, t.ioActual) {
      var n: nat :| FetchedAt(s, events, n, t.ioActual);
      AllDecided(available, wanted, closing, events[..n]);
      FetchStands(s, events, n, t.ioActual);
      var m: nat :| ReportedAt(s, events, m, false);
      ReportStands(s, events, m, false);
    }
  }

  predicate NoClose(events: seq<Event>) { forall i :: 0 <= i < |events| ==> events[i] != Close }

  lemma FlagStep(s: Io, e: Event)
    requires Enabled(s, e)
    ensures (s.aborted ==> Next(s, e).aborted) && (!s.closing && e != Close ==> !Next(s, e).closing)
  {
  }

  lemma {:induction false} NeverClosing(s: Io, events: seq<Event>)
    requires Possible(s, events) && !s.closing && NoClose(events)
    ensures !After(s, events).closing
  {
    if events != [] {
      NeverClosing(s, events[..|events| - 1]);
      FlagStep(After(s, events[..|events| - 1]), events[|events| - 1]);
    }
  }

  lemma {:induction false} FlagStays(s: Io, events: seq<Event>, n: nat)
    requires Possible(s, events) && n <= |events| && Possible(s, events[..n]) && After(s, events[..n]).aborted
    ensures After(s, events).aborted
  {
    if n < |events| {
      var p := events[..|events| - 1];
      assert p[..n] == events[..n];
      FlagStays(s, p, n);
      FlagStep(After(s, p), events[|events| - 1]);
    } else {
      assert events[..n] == events;
    }
  }

  lemma FlagAndClosing(s: Io, events: seq<Event>, n: nat)
    requires Possible(s, events) && n <= |events| && Possible(s, events[..n])
    ensures After(s, events[..n]).aborted ==> After(s, events).aborted
    ensures !s.closing && NoClose(events) ==> !After(s, events[..n]).closing
  {
    if After(s, events[..n]).aborted { FlagStays(s, events, n); }
    if !s.closing && NoClose(events) { NeverClosing(s, events[..n]); }
  }

  /** A read nobody aborts, of a unit nobody closes, reports no error and as much as
      there was when it fetched, up to what it wanted. */
  lemma OrdinaryRead(available: nat, wanted: nat, events: seq<Event>)
    requires Possible(Start(available, wanted, false), events) && NoClose(events)
    requires var t := After(Start(available, wanted, false), events);
             t.finished && !t.aborted
    ensures var t := After(Start(available, wanted, false), events);
            t.ioError == 0 && exists n: nat :: FetchedAt(Start(available, wanted, false), events, n, t.ioActual)
  {
    var s := Start(available, wanted, false);
    var t := After(s, events);
    OutcomeExactly(available, wanted, false, events);
    AllReported(s, events);
    forall n: nat ensures !GaveUpAt(s, events, n) && !ReportedAt(s, events, n, true) {
      if n < |events| && Possible(s, events[..n]) { FlagAndClosing(s, events, n); }
    }
  }

  // ------------------------------------------------------------------
  // Conservation
  // ------------------------------------------------------------------

  function Fed(events: seq<Event>): nat {
    if events == [] then 0
    else Fed(events[..|events| - 1]) + match events[|events| - 1] case Feed(n) => n case _ => 0
  }

  function Taken(events: seq<Event>): nat {
    if events == [] then 0
    else Taken(events[..|events| - 1]) + match events[|events| - 1] case Take(n) => n case _ => 0
  }

  lemma NextConserves(s: Io, e: Event)
    requires Inv(s) && Enabled(s, e) && (!Over(s.reader) ==> s.actual == 0)
    ensures Next(s, e).available + Next(s, e).actual + (match e case Take(n) => n case _ => 0)
         == s.available + s.actual + match e case Feed(n) => n case _ => 0
  {
  }

  /** Whatever was there or was fed has been taken by others, has been given to the
      request, or is still there. */
  lemma {:induction false} InputConserved(available: nat, wanted: nat, closing: bool, events: seq<Event>)
    requires Possible(Start(available, wanted, closing), events)
    ensures var t := After(Start(available, wanted, closing), events);
            && available + Fed(events) == Taken(events) + t.actual + t.available
            && (t.finished ==> available + Fed(events) == Taken(events) + t.ioActual + t.available)
  {
    var s := Start(available, wanted, closing);
    if events != [] {
      var p := events[..|events| - 1];
      InputConserved(available, wanted, closing, p);
      AllDecided(available, wanted, closing, p);
      AfterInv(s, p);
      NextConserves(After(s, p), events[|events| - 1]);
    }
    AllReported(s, events);
  }
}
