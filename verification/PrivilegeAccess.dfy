/** Who may have access operations performed: the grant of the access class is not
    what decides it, a new access worker is. */
module PrivilegeAccess {
  import opened Privilege

  /** The step makes a new access worker: SPAWN_ACCESS, with a process to be had and
      its channel handed over. */
  predicate Spawned(s: System, e: Event) {
    Enabled(s, e) && e.Supervise? && SortOf(s.fmm.link.up[0].op) == Spawn && e.done && e.replySent
  }

  predicate SpawnedIn(s: System, events: seq<Event>)
    requires Possible(s, events)
  {
    events != []
    && (SpawnedIn(s, events[..|events| - 1]) || Spawned(After(s, events[..|events| - 1]), events[|events| - 1]))
  }

  /** Some access worker has performed something. */
  predicate Accessed(s: System) {
    exists i :: 0 <= i < |s.performed| && s.performed[i].0.Crm?
  }

  lemma DispatchPerforms(s: System, done: bool, delivered: bool)
    requires s.fmm.alive && s.fmm.busy.None? && s.fmm.link.up != []
    ensures Dispatch(s, done, delivered).performed == s.performed
    ensures !Spawned(s, Supervise(done, delivered)) ==> Dispatch(s, done, delivered).crms == s.crms
  {
  }

  lemma NoneSpawned(s: System, e: Event)
    requires s.crms == [] && !Accessed(s) && Enabled(s, e) && !Spawned(s, e)
    ensures Next(s, e).crms == [] && !Accessed(Next(s, e))
  {
    if e.Supervise? { DispatchPerforms(s, e.done, e.replySent); }
  }

  lemma {:induction false} NoneWithout(s: System, events: seq<Event>)
    requires s.crms == [] && !Accessed(s) && Possible(s, events) && !SpawnedIn(s, events)
    ensures After(s, events).crms == [] && !Accessed(After(s, events))
  {
    if events != [] {
      NoneWithout(s, events[..|events| - 1]);
      NoneSpawned(After(s, events[..|events| - 1]), events[|events| - 1]);
    }
  }

  /** Over every run an access operation has been performed only if a SPAWN_ACCESS
      has succeeded, whatever was granted. */
  lemma AccessNeedsSpawn(volumeCap: bool, accessCap: bool, volumeOpen: bool, events: seq<Event>)
    requires Possible(Start(volumeCap, accessCap, volumeOpen), events)
    requires Accessed(After(Start(volumeCap, accessCap, volumeOpen), events))
    ensures SpawnedIn(Start(volumeCap, accessCap, volumeOpen), events)
  {
    if !SpawnedIn(Start(volumeCap, accessCap, volumeOpen), events) {
      NoneWithout(Start(volumeCap, accessCap, volumeOpen), events);
    }
  }

  /** The run that has the worker just made perform an operation. */
  function Use(s: System, e: Event, op: Code, status: Status): seq<Event> {
    [e, CrmClient(|s.crms|, SendOne(op, true)), CrmStep(|s.crms|, status, true)]
  }

  lemma AfterThree(s: System, a: Event, b: Event, c: Event)
    requires Enabled(s, a) && Enabled(Next(s, a), b) && Enabled(Next(Next(s, a), b), c)
    ensures Possible(s, [a, b, c]) && After(s, [a, b, c]) == Next(Next(Next(s, a), b), c)
  {
    assert [a, b, c][..2] == [a, b] && [a, b][..1] == [a] && [a][..0] == [];
    assert Possible(s, []) && After(s, []) == s;
    assert Possible(s, [a]) && After(s, [a]) == Next(s, a);
    assert Possible(s, [a, b]) && After(s, [a, b]) == Next(Next(s, a), b);
  }

  /** And whenever one succeeds, any access operation can be performed two steps
      later, whatever was granted. */
  lemma SpawnGivesAccess(s: System, e: Event, op: Code, status: Status)
    requires Spawned(s, e) && op.kind == ACCESS
    ensures Possible(s, Use(s, e, op, status))
    ensures After(s, Use(s, e, op, status)).performed == s.performed + [(Crm(|s.crms|), op)]
    ensures Accessed(After(s, Use(s, e, op, status)))
  {
    var k := |s.crms|;
    SpawnMakes(s, e);
    NewWorkerServes(Next(s, e), k, op, status);
    AfterThree(s, e, CrmClient(k, SendOne(op, true)), CrmStep(k, status, true));
    var p := After(s, Use(s, e, op, status)).performed;
    assert p[|s.performed|].0.Crm?;
  }

  lemma SpawnMakes(s: System, e: Event)
    requires Spawned(s, e)
    ensures Next(s, e).crms == s.crms + [NEW_ACCESS] && Next(s, e).performed == s.performed
  {
  }

  lemma NewWorkerServes(s: System, k: nat, op: Code, status: Status)
    requires k < |s.crms| && s.crms[k] == NEW_ACCESS && op.kind == ACCESS
    ensures var t := Next(s, CrmClient(k, SendOne(op, true)));
            && Enabled(t, CrmStep(k, status, true))
            && Next(t, CrmStep(k, status, true)).performed == s.performed + [(Crm(k), op)]
  {
    assert Send(NEW_LINK, op, true).up == [Request(1, op)];
  }

  /** With the volume class granted and the access class not, four steps. */
  lemma UngrantedAccess(op: Code)
    requires op.kind == ACCESS
    ensures var s := Start(true, false, true);
            var sent := FmmClient(SendOne(SPAWN_ACCESS, true));
            var events := Use(Next(s, sent), Supervise(true, true), op, Ok);
            && Enabled(s, sent) && Possible(Next(s, sent), events)
            && After(Next(s, sent), events).performed == [(Crm(0), op)] && !s.accessCap
  {
    var t := Next(Start(true, false, true), FmmClient(SendOne(SPAWN_ACCESS, true)));
    assert t.fmm.link.up == [Request(1, SPAWN_ACCESS)];
    SpawnGivesAccess(t, Supervise(true, true), op, Ok);
  }
}
