/** The session manager: a table of live sessions that handlers and the cleanup loop share. */
module Manager {
  import opened Protocol
  import opened Sessions

  type Table = map<Uuid, Session>

  predicate Busy(table: Table, timeout: int, now: int) {
    exists id :: id in table && now - table[id].lastAccess < timeout
  }

  /** What one pass of the cleanup loop, which compares with the time read at its start, leaves. */
  function Swept(table: Table, timeout: int, sweepNow: int): Table {
    map id | id in table && sweepNow - table[id].lastAccess <= timeout :: table[id]
  }

  /** However stale the sweep's clock is, it spares every session whose age is at most the timeout
      and does not change whether the receiver is busy. */
  lemma SweepIsSafe(table: Table, timeout: int, sweepNow: int, now: int)
    requires sweepNow <= now
    ensures forall id :: id in table && now - table[id].lastAccess <= timeout ==> id in Swept(table, timeout, sweepNow)
    ensures Busy(Swept(table, timeout, sweepNow), timeout, now) == Busy(table, timeout, now)
  {
    if Busy(table, timeout, now) {
      var id :| id in table && now - table[id].lastAccess < timeout;
      assert id in Swept(table, timeout, sweepNow);
    }
  }

  class SessionManager {
    const timeout: int
    const uuids: UuidSupply
    var sessions: map<Uuid, UploadSession>
    ghost var table: Table  // the values of the sessions

    ghost predicate Agrees(id: Uuid, s: UploadSession)
      reads this, uuids, s
    {
      id in table && s.View() == table[id] && s.id == id && id < uuids.next && !s.canceled
    }

    ghost predicate Valid()
      reads this, uuids, sessions.Values
    {
      table.Keys == sessions.Keys && forall id :: id in sessions ==> Agrees(id, sessions[id])
    }

    /** Brings the values up to date after one session changed, or was canceled and unlinked. */
    ghost method Resync(s: UploadSession)
      requires table.Keys == sessions.Keys + {s.id} && s.id < uuids.next
      requires if s.canceled then s.id !in sessions else s.id in sessions && sessions[s.id] == s
      requires forall id :: id in sessions && id != s.id ==> Agrees(id, sessions[id])
      modifies this`table
      ensures Valid()
      ensures table == if s.canceled then old(table) - {s.id} else old(table)[s.id := s.View()]
    {
      table := if s.canceled then table - {s.id} else table[s.id := s.View()];
    }

    constructor (timeout: int, uuids: UuidSupply)
      ensures Valid() && table == map[] && sessions == map[]
      ensures this.timeout == timeout && this.uuids == uuids
    {
      this.timeout, this.uuids, sessions, table := timeout, uuids, map[], map[];
    }

    method CreateSession(clientIP: string, clientVerified: bool, metadata: map<string, FileMetadata>, now: int)
      returns (s: UploadSession)
      requires Valid()
      modifies this, uuids
      ensures Valid() && fresh(s)
      ensures s.id !in old(sessions) && sessions == old(sessions)[s.id := s]
      ensures s.files.Keys == metadata.Keys
      ensures table == old(table)[s.id := NewSession(clientIP, clientVerified, metadata, s.files, now)]
    {
      s := new UploadSession(clientIP, clientVerified, metadata, uuids, now);
      sessions, table := sessions[s.id := s], table[s.id := s.View()];
    }

    method GetSession(id: Uuid, now: int) returns (found: Option<UploadSession>)
      requires Valid()
      modifies this`table, if id in sessions then {sessions[id]} else {}
      ensures Valid() && sessions == old(sessions)
      ensures found == if id in sessions then Some(sessions[id]) else None
      ensures table == if id in sessions then old(table)[id := old(table)[id].Touched(now)] else old(table)
    {
      if id !in sessions {
        return None;
      }
      var s := sessions[id];
      s.Touch(now);
      table := table[id := s.View()];
      found := Some(s);
    }

    method DeleteSession(id: Uuid)
      requires Valid()
      modifies this, if id in sessions then {sessions[id]} else {}
      ensures Valid() && sessions == old(sessions) - {id}
      ensures table == old(table) - {id}
      ensures id in old(sessions) ==> old(sessions[id]).canceled
    {
      if id in sessions {
        var s := sessions[id];
        sessions, table := sessions - {id}, table - {id};
        s.CancelContext();
      }
    }

    method IsBusy(now: int) returns (busy: bool)
      requires Valid()
      ensures busy == Busy(table, timeout, now)
    {
      busy := false;
      var rest := sessions.Keys;
      while rest != {}
        invariant rest <= sessions.Keys
        invariant !busy
        invariant forall id :: id in sessions && id !in rest ==> now - sessions[id].lastAccess >= timeout
        decreases rest
      {
        var id :| id in rest;
        if now - sessions[id].lastAccess < timeout {
          busy := true;
          return;
        }
        rest := rest - {id};
      }
    }

    /** The cleanup loop's Range over the sessions. */
    method DiscardExpired(now: int)
      requires forall id :: id in sessions ==> sessions[id].id == id
      modifies this`sessions, sessions.Values
      ensures sessions.Keys <= old(sessions).Keys
      ensures forall id :: id in old(sessions) ==>
        var s := old(sessions)[id];
        if now - old(s.lastAccess) > timeout then id !in sessions && s.canceled
        else id in sessions && sessions[id] == s && unchanged(s)
    {
      ghost var before := sessions;
      var rest := sessions.Keys;
      while rest != {}
        invariant rest <= sessions.Keys <= before.Keys
        invariant forall id :: id in sessions ==> sessions[id] == before[id] && unchanged(before[id])
        invariant forall id :: id in before && id !in sessions ==> before[id].canceled
        invariant forall id :: id in before && id !in rest ==>
          (id in sessions <==> now - old(before[id].lastAccess) <= timeout)
        decreases rest
      {
        var id :| id in rest;
        var s := sessions[id];
        if now - s.lastAccess > timeout {
          sessions := sessions - {id};
          s.canceled := true;
        }
        rest := rest - {id};
      }
    }

    /** One tick of the cleanup loop. */
    method Sweep(now: int)
      requires Valid()
      modifies this, sessions.Values
      ensures Valid()
      ensures table == Swept(old(table), timeout, now)
      ensures forall id :: id in old(sessions) && id !in sessions ==> old(sessions[id]).canceled
    {
      ghost var before := sessions;
      assert forall id :: id in before ==> Agrees(id, before[id]);
      DiscardExpired(now);
      table := Swept(table, timeout, now);
    }
  }
}
