/** What the cleanup loop removes while handlers run. */
module WorldSweep {
  import opened Protocol
  import opened Manager
  import opened World
  import opened WorldSessions
  import opened WorldClock

  /** The condemned session was read by an earlier event of the same sweep, which found it expired. */
  lemma {:induction false} CondemnedWasRead(cfg: Config, ws: seq<World>, es: seq<Event>, i: nat) returns (r: nat)
    requires IsRun(cfg, ws, es) && Starts(ws[0]) && i < |ws|
    requires ws[i].sweep.Some? && ws[i].sweep.value.condemned.Some?
    ensures var (sid, seen) := ws[i].sweep.value.condemned.value;
      && r < i && es[r] == SweepReads(sid)
      && sid in ws[r].sessions && ws[r].sessions[sid].lastAccess == seen
      && ws[r].now - seen > cfg.timeout
    decreases i
  {
    RunStep(cfg, ws, es, i - 1);
    CondemnedAfterStep(cfg, ws[i - 1], es[i - 1]);
    if es[i - 1].SweepReads? {
      r := i - 1;
      ClockIsSane(cfg, ws, es, r);
    } else {
      r := CondemnedWasRead(cfg, ws, es, i - 1);
    }
  }

  lemma CondemnedAfterStep(cfg: Config, w: World, e: Event)
    requires Enabled(cfg, w, e) && Step(cfg, w, e).sweep.Some? && Step(cfg, w, e).sweep.value.condemned.Some?
    ensures if e.SweepReads? then
        && w.sweep.Some? && e.sid in w.sessions && w.sweep.value.now - w.sessions[e.sid].lastAccess > cfg.timeout
        && Step(cfg, w, e).sweep.value.condemned.value == (e.sid, w.sessions[e.sid].lastAccess)
      else w.sweep == Step(cfg, w, e).sweep
  {
  }

  /** The sweep's deletion leaves a busy receiver idle exactly when the deleted session was its only live one. */
  lemma BusyAfterDeletion(table: Table, sid: Uuid, timeout: int, now: int)
    ensures Busy(table - {sid}, timeout, now) != Busy(table, timeout, now)
      <==> && sid in table && now - table[sid].lastAccess < timeout
           && forall other :: other in table && other != sid ==> now - table[other].lastAccess >= timeout
  {
    var after := table - {sid};
    if Busy(table, timeout, now) && !Busy(after, timeout, now) {
      var live :| live in table && now - table[live].lastAccess < timeout;
      assert live in after || live == sid;
      forall other | other in table && other != sid
        ensures now - table[other].lastAccess >= timeout
      {
        assert other in after;
      }
    }
    if Busy(after, timeout, now) {
      var live :| live in after && now - after[live].lastAccess < timeout;
      assert live in table;
    }
  }

  lemma DeletionUnlinks(cfg: Config, w: World)
    requires Enabled(cfg, w, SweepDeletes)
    ensures var sid, w' := w.sweep.value.condemned.value.0, Step(cfg, w, SweepDeletes);
      && w'.stored == w.stored - {sid} && w'.sessions == w.sessions && w'.now == w.now
      && Visible(w').table == Visible(w).table - {sid}
  {
  }

  /** What a sweep deletes, exactly. It read the session at event r and found it expired. When it deletes it, the age
      is at most the timeout if and only if some event in between touched the session that recently; and the deletion
      changes whether the receiver is busy if and only if the session, still stored, was touched within the timeout
      and no other is live. */
  lemma SweepDeletesExpired(cfg: Config, ws: seq<World>, es: seq<Event>, i: nat) returns (r: nat)
    requires IsRun(cfg, ws, es) && Starts(ws[0]) && i < |es| && es[i] == SweepDeletes
    ensures Enabled(cfg, ws[i], es[i])
    ensures var sid := ws[i].sweep.value.condemned.value.0;
      && r < i && es[r] == SweepReads(sid) && sid in ws[r].sessions && Age(ws[r], sid) > cfg.timeout
      && sid in ws[i].sessions && ws[i + 1].stored == ws[i].stored - {sid}
    ensures var sid := ws[i].sweep.value.condemned.value.0;
      Age(ws[i], sid) <= cfg.timeout <==> TouchedSince(ws, es, r + 1, i, sid, ws[i].now - cfg.timeout)
    ensures var sid := ws[i].sweep.value.condemned.value.0;
      Busy(Visible(ws[i + 1]).table, cfg.timeout, ws[i + 1].now) != Busy(Visible(ws[i]).table, cfg.timeout, ws[i].now)
      <==> && sid in ws[i].stored
           && TouchedSince(ws, es, r + 1, i, sid, ws[i].now - cfg.timeout + 1)
           && forall other :: Unexpired(cfg, ws[i], other) ==> other == sid
  {
    RunStep(cfg, ws, es, i);
    r := CondemnedWasRead(cfg, ws, es, i);
    var w, sid := ws[i], ws[i].sweep.value.condemned.value.0;
    TouchedAfterRead(cfg, ws, es, r, i, sid, w.now - cfg.timeout);
    TouchedAfterRead(cfg, ws, es, r, i, sid, w.now - cfg.timeout + 1);
    DeletionUnlinks(cfg, w);
    BusyAfterDeletion(Visible(w).table, sid, cfg.timeout, w.now);
    UnexpiredAreVisible(cfg, w);
  }

  /** Since the sweep read the session, only a touch can have made its access time recent. */
  lemma TouchedAfterRead(cfg: Config, ws: seq<World>, es: seq<Event>, r: nat, i: nat, sid: Uuid, since: int)
    requires IsRun(cfg, ws, es) && Starts(ws[0]) && r < i < |ws| && es[r] == SweepReads(sid)
    requires sid in ws[r].sessions && Age(ws[r], sid) > cfg.timeout && since >= ws[i].now - cfg.timeout
    ensures sid in ws[i].sessions
    ensures ws[i].sessions[sid].lastAccess >= since <==> TouchedSince(ws, es, r + 1, i, sid, since)
  {
    TimePasses(cfg, ws, es, r, i);
    RunStep(cfg, ws, es, r);
    StepOnSession(cfg, ws[r], es[r], sid);
    RecentlyTouched(cfg, ws, es, r + 1, i, sid, since);
  }

  lemma UnexpiredAreVisible(cfg: Config, w: World)
    ensures forall sid :: Unexpired(cfg, w, sid) <==>
      sid in Visible(w).table && w.now - Visible(w).table[sid].lastAccess < cfg.timeout
  {
  }

  /** Nothing but the sweep's own deletion, a request, or a completed upload removes a session. */
  lemma OnlyDeletersRemove(cfg: Config, w: World, e: Event, sid: Uuid)
    requires Enabled(cfg, w, e) && sid in w.stored && sid !in Step(cfg, w, e).stored
    ensures || e == CancelArrives(sid)
            || (e == SweepDeletes && w.sweep.value.condemned.value.0 == sid)
            || (e.UploadActs? && e.action == Release && w.flights[e.uid].sid == sid)
  {
  }
}
