/** The session table, searched in one pass and updated in place. */
module SessionTable {
  import opened Bytes
  import opened BrokerCore

  /** What one pass has learnt from the first n slots: no match, the first free
      slot, and the coldest unclaimed session. */
  ghost predicate Scanned(s: seq<Session>, id: Text, n: nat, free: Option<nat>, coldest: Option<nat>) {
    && n <= |s|
    && (forall k :: 0 <= k < n ==> !(s[k].inUse && s[k].id == id))
    && (free.None? ==> forall k :: 0 <= k < n ==> s[k].inUse)
    && (free.Some? ==> free.value < n && !s[free.value].inUse && forall k :: 0 <= k < free.value ==> s[k].inUse)
    && coldest == Coldest(s[..n])
  }

  lemma ScanNext(s: seq<Session>, id: Text, n: nat, free: Option<nat>, coldest: Option<nat>)
    requires Scanned(s, id, n, free, coldest) && n < |s| && !(s[n].inUse && s[n].id == id)
    ensures !s[n].inUse ==> Scanned(s, id, n + 1, if free.None? then Some(n) else free, coldest)
    ensures s[n].inUse && s[n].anchors == 0 && (coldest.None? || s[n].lastUsed < s[coldest.value].lastUsed) ==>
              Scanned(s, id, n + 1, free, Some(n))
    ensures s[n].inUse && !(s[n].anchors == 0 && (coldest.None? || s[n].lastUsed < s[coldest.value].lastUsed)) ==>
              Scanned(s, id, n + 1, free, coldest)
  {
    assert s[..n + 1][..n] == s[..n];
  }

  lemma ScanEnds(s: seq<Session>, id: Text, free: Option<nat>, coldest: Option<nat>)
    requires Scanned(s, id, |s|, free, coldest)
    ensures FindSession(s, id).None? && Vacancy(s) == if free.Some? then free else coldest
  {
    assert s[..|s|] == s;
  }

  lemma ScanFinds(s: seq<Session>, id: Text, n: nat, free: Option<nat>, coldest: Option<nat>)
    requires Scanned(s, id, n, free, coldest) && n < |s| && s[n].inUse && s[n].id == id
    ensures FindSession(s, id) == Some(n)
  {
  }

  class Table {
    const sessions: array<Session>
    var clock: nat

    constructor ()
      ensures fresh(sessions) && sessions[..] == Initial(false).sessions && clock == 0
    {
      sessions := new Session[MAX_SESSIONS](_ => NO_SESSION);
      clock := 0;
      new;
      assert sessions[..] == Initial(false).sessions;
    }

    method Touch(slot: nat)
      requires slot < sessions.Length
      modifies this, sessions
      ensures clock == old(clock) + 1
      ensures sessions[..] == old(sessions[..])[slot := old(sessions[slot]).(lastUsed := clock)]
    {
      clock := clock + 1;
      sessions[slot] := sessions[slot].(lastUsed := clock);
    }

    /** get_session(), on the table of broker b. */
    method Get(ghost b: Broker, id: Text) returns (slot: Option<nat>)
      requires b.sessions == sessions[..] && b.clock == clock
      modifies this, sessions
      ensures (b.(sessions := sessions[..], clock := clock), slot) == GetSession(b, id)
    {
      ghost var s := sessions[..];
      var i := 0;
      var free: Option<nat>, coldest: Option<nat> := None, None;
      while i < sessions.Length
        invariant sessions[..] == s && clock == b.clock
        invariant Scanned(s, id, i, free, coldest)
      {
        if sessions[i].inUse && sessions[i].id == id {
          ScanFinds(s, id, i, free, coldest);
          Touch(i);
          return Some(i);
        }
        ScanNext(s, id, i, free, coldest);
        if !sessions[i].inUse {
          if free.None? { free := Some(i); }
        } else if sessions[i].anchors == 0
          && (coldest.None? || sessions[i].lastUsed < sessions[coldest.value].lastUsed) {
          coldest := Some(i);
        }
        i := i + 1;
      }
      ScanEnds(s, id, free, coldest);
      slot := if free.Some? then free else coldest;
      if slot.None? || |id| >= MAX_SESSION_ID { return None; }
      OpenAt(slot.value, id);
    }

    /** A slot given to a new session. */
    method OpenAt(slot: nat, id: Text)
      requires slot < sessions.Length
      modifies this, sessions
      ensures clock == old(clock) + 1
      ensures sessions[..] == old(sessions[..])[slot := Session(true, clock, 0, id)]
    {
      sessions[slot] := Session(true, 0, 0, id);
      Touch(slot);
    }
  }
}
