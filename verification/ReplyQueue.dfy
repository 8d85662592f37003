/** WaitIO() on a reply port it shares with other requests, step by step, with
    replies arriving at any moment.  T is a message, known by its address. */
module ReplyQueue {
  datatype Phase = Draining | Taken | Restored

  /** queue: the port's list; deferred: replies set aside, in the order they were popped. */
  datatype Wait<T> = Wait(queue: seq<T>, deferred: seq<T>, phase: Phase)

  datatype Event<T> = Arrive(m: T) | Pop | Restore

  predicate Enabled<T(==)>(w: Wait<T>, own: T, e: Event<T>) {
    match e
    case Arrive(m) => m !in w.queue && m !in w.deferred && (m == own ==> w.phase == Draining)
    case Pop => w.phase == Draining && w.queue != []
    case Restore => w.phase == Taken
  }

  /** A pop takes the head: the request's own message ends the draining, any
      other is set aside.  Restoring puts those back in front. */
  function Next<T(==)>(w: Wait<T>, own: T, e: Event<T>): Wait<T>
    requires Enabled(w, own, e)
  {
    match e
    case Arrive(m) => w.(queue := w.queue + [m])
    case Pop =>
      if w.queue[0] == own then w.(queue := w.queue[1..], phase := Taken)
      else w.(queue := w.queue[1..], deferred := w.deferred + [w.queue[0]])
    case Restore => Wait(w.deferred + w.queue, [], Restored)
  }

  predicate Possible<T(==)>(w: Wait<T>, own: T, events: seq<Event<T>>)
    decreases events, 0
  {
    events == [] || (Possible(w, own, events[..|events| - 1])
                     && Enabled(After(w, own, events[..|events| - 1]), own, events[|events| - 1]))
  }

  function After<T(==)>(w: Wait<T>, own: T, events: seq<Event<T>>): Wait<T>
    requires Possible(w, own, events)
    decreases events, 1
  {
    if events == [] then w else Next(After(w, own, events[..|events| - 1]), own, events[|events| - 1])
  }

  /** Everything that has arrived, in order of arrival. */
  function Arrived<T(==)>(start: seq<T>, events: seq<Event<T>>): seq<T> {
    if events == [] then start
    else
      var before, last := Arrived(start, events[..|events| - 1]), events[|events| - 1];
      if last.Arrive? then before + [last.m] else before
  }

  /** All but one message, in the same order. */
  function Without<T(==)>(s: seq<T>, own: T): seq<T> {
    if s == [] then []
    else if s[|s| - 1] == own then Without(s[..|s| - 1], own)
    else Without(s[..|s| - 1], own) + [s[|s| - 1]]
  }

  predicate Distinct<T(==)>(s: seq<T>) {
    forall i, j :: 0 <= i < j < |s| ==> s[i] != s[j]
  }

  lemma {:induction false} WithoutAbsent<T>(s: seq<T>, own: T)
    requires own !in s
    ensures Without(s, own) == s
  {
    if s != [] {
      WithoutAbsent(s[..|s| - 1], own);
      assert s == s[..|s| - 1] + [s[|s| - 1]];
    }
  }

  lemma {:induction false} TakenOut<T>(a: seq<T>, b: seq<T>, own: T)
    requires own !in a && own !in b
    ensures Without(a + [own] + b, own) == a + b
  {
    var s := a + [own] + b;
    if b == [] {
      assert s[..|s| - 1] == a && a + b == a;
      WithoutAbsent(a, own);
    } else {
      var n := |b| - 1;
      TakenOut(a, b[..n], own);
      assert s[..|s| - 1] == a + [own] + b[..n];
      assert a + b == a + b[..n] + [b[n]];
    }
  }

  lemma WithoutNext<T>(s: seq<T>, m: T, own: T)
    ensures Without(s + [m], own) == if m == own then Without(s, own) else Without(s, own) + [m]
  {
    assert (s + [m])[..|s|] == s;
  }

  /** What has arrived is what is set aside, the request's own message once it is
      taken, and what is still queued -- in order of arrival. */
  predicate InOrder<T(==)>(w: Wait<T>, own: T, arrived: seq<T>) {
    && own !in w.deferred
    && match w.phase
       case Draining => w.deferred + w.queue == arrived
       case Taken => w.deferred + [own] + w.queue == arrived && own !in w.queue
       case Restored => w.deferred == [] && own !in w.queue && w.queue == Without(arrived, own)
  }

  lemma ArriveInOrder<T>(w: Wait<T>, own: T, m: T, arrived: seq<T>)
    requires InOrder(w, own, arrived) && Enabled(w, own, Arrive(m))
    ensures InOrder(Next(w, own, Arrive(m)), own, arrived + [m])
  {
    WithoutNext(arrived, m, own);
    assert w.deferred + (w.queue + [m]) == w.deferred + w.queue + [m];
    assert w.deferred + [own] + (w.queue + [m]) == w.deferred + [own] + w.queue + [m];
  }

  lemma PopInOrder<T>(w: Wait<T>, own: T, arrived: seq<T>)
    requires InOrder(w, own, arrived) && Enabled(w, own, Pop) && Distinct(w.queue)
    ensures InOrder(Next(w, own, Pop), own, arrived)
  {
    var m, rest := w.queue[0], w.queue[1..];
    assert w.queue == [m] + rest && m !in rest;
    assert w.deferred + w.queue == w.deferred + [m] + rest;
  }

  lemma StepInOrder<T>(w: Wait<T>, own: T, e: Event<T>, arrived: seq<T>)
    requires InOrder(w, own, arrived) && Enabled(w, own, e) && (w.phase == Draining ==> Distinct(w.queue))
    ensures InOrder(Next(w, own, e), own, if e.Arrive? then arrived + [e.m] else arrived)
  {
    match e
    case Arrive(m) => ArriveInOrder(w, own, m, arrived);
    case Pop => PopInOrder(w, own, arrived);
    case Restore => TakenOut(w.deferred, w.queue, own);
  }

  /** No message is on the list twice. */
  lemma {:induction false} StaysDistinct<T>(w: Wait<T>, own: T, events: seq<Event<T>>)
    requires Possible(w, own, events) && Distinct(w.deferred + w.queue)
    ensures Distinct(After(w, own, events).deferred + After(w, own, events).queue)
  {
    if events != [] {
      var p, e := events[..|events| - 1], events[|events| - 1];
      StaysDistinct(w, own, p);
      StepDistinct(After(w, own, p), own, e);
    }
  }

  lemma StepDistinct<T>(w: Wait<T>, own: T, e: Event<T>)
    requires Enabled(w, own, e) && Distinct(w.deferred + w.queue)
    ensures Distinct(Next(w, own, e).deferred + Next(w, own, e).queue)
  {
    var s, t := w.deferred + w.queue, Next(w, own, e).deferred + Next(w, own, e).queue;
    match e
    case Arrive(m) => assert t == s + [m];
    case Pop =>
      var n := |w.deferred|;
      assert if w.queue[0] == own then t == s[..n] + s[n + 1..] else t == s;
    case Restore => assert t == s;
  }

  /** In every interleaving WaitIO() takes exactly its own message and leaves all
      the others queued in the order they arrived. */
  lemma {:induction false} QueuePreserved<T>(start: seq<T>, own: T, events: seq<Event<T>>)
    requires Distinct(start) && Possible(Wait(start, [], Draining), own, events)
    ensures InOrder(After(Wait(start, [], Draining), own, events), own, Arrived(start, events))
  {
    var w := Wait(start, [], Draining);
    if events != [] {
      var p := events[..|events| - 1];
      QueuePreserved(start, own, p);
      assert w.deferred + w.queue == start;
      StaysDistinct(w, own, p);
      var v := After(w, own, p);
      QueueDistinct(v);
      StepInOrder(v, own, events[|events| - 1], Arrived(start, p));
    }
  }

  lemma QueueDistinct<T>(w: Wait<T>)
    requires Distinct(w.deferred + w.queue)
    ensures Distinct(w.queue)
  {
    var s, n := w.deferred + w.queue, |w.deferred|;
    assert forall i :: 0 <= i < |w.queue| ==> w.queue[i] == s[n + i];
  }

  // ------------------------------------------------------------------
  // Progress
  // ------------------------------------------------------------------

  /** Pops left before the request's own message comes up. */
  function Ahead<T(==)>(queue: seq<T>, own: T): nat
    requires own in queue
  {
    if queue[0] == own then 0 else 1 + Ahead(queue[1..], own)
  }

  lemma {:induction false} AheadOfArrival<T>(queue: seq<T>, own: T, m: T)
    requires own in queue
    ensures own in queue + [m] && Ahead(queue + [m], own) == Ahead(queue, own)
  {
    assert (queue + [m])[0] == queue[0];
    if queue[0] != own {
      AheadOfArrival(queue[1..], own, m);
      assert (queue + [m])[1..] == queue[1..] + [m];
    }
  }

  /** Once its message has arrived, a drain can always pop, every pop brings the
      message one place nearer, and no arrival puts it further back. */
  lemma DrainsOn<T>(w: Wait<T>, own: T, arrived: seq<T>, e: Event<T>)
    requires InOrder(w, own, arrived) && w.phase == Draining && own in arrived && Enabled(w, own, e)
    ensures Enabled(w, own, Pop) && own in w.queue
    ensures e.Pop? ==> Next(w, own, e).phase == Taken
                       || (own in Next(w, own, e).queue && Ahead(Next(w, own, e).queue, own) < Ahead(w.queue, own))
    ensures e.Arrive? ==> own in Next(w, own, e).queue && Ahead(Next(w, own, e).queue, own) == Ahead(w.queue, own)
  {
    if e.Arrive? { AheadOfArrival(w.queue, own, e.m); }
  }
}
