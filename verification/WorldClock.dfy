/** Time over interleaved handlers: access times, and how long an idle session stays. */
module WorldClock {
  import opened Protocol
  import opened World
  import opened WorldSessions

  function Age(w: World, sid: Uuid): int
    requires sid in w.sessions
  {
    w.now - w.sessions[sid].lastAccess
  }

  predicate Unexpired(cfg: Config, w: World, sid: Uuid) {
    sid in w.stored && sid in w.sessions && Age(w, sid) < cfg.timeout
  }

  /** Access times never lie in the future, and a condemned session was found expired. */
  ghost predicate ClockSane(cfg: Config, w: World) {
    (forall sid :: sid in w.sessions ==> w.sessions[sid].lastAccess <= w.now) && SweepSane(cfg, w)
  }

  predicate SweepSane(cfg: Config, w: World) {
    && (w.sweep.Some? ==> w.sweep.value.now <= w.now)
    && (w.sweep.Some? && w.sweep.value.condemned.Some? ==>
      var (sid, seen) := w.sweep.value.condemned.value;
      sid in w.sessions && seen <= w.sessions[sid].lastAccess && w.sweep.value.now - seen > cfg.timeout)
  }

  lemma StepKeepsClock(cfg: Config, w: World, e: Event)
    requires ClockSane(cfg, w) && Enabled(cfg, w, e)
    ensures ClockSane(cfg, Step(cfg, w, e))
  {
    var w' := Step(cfg, w, e);
    forall sid | sid in w'.sessions
      ensures w'.sessions[sid].lastAccess <= w'.now
    {
      AccessIsPast(cfg, w, e, sid);
    }
    CondemnedStays(cfg, w, e);
  }

  lemma AccessIsPast(cfg: Config, w: World, e: Event, sid: Uuid)
    requires Enabled(cfg, w, e) && sid in Step(cfg, w, e).sessions
    requires sid in w.sessions ==> w.sessions[sid].lastAccess <= w.now
    ensures Step(cfg, w, e).sessions[sid].lastAccess <= Step(cfg, w, e).now
    ensures sid in w.sessions ==> w.sessions[sid].lastAccess <= Step(cfg, w, e).sessions[sid].lastAccess
  {
    StepTime(cfg, w, e);
    if sid in w.sessions {
      StepOnSession(cfg, w, e, sid);
    } else {
      NewSessionIsFresh(cfg, w, e, sid);
    }
  }

  lemma CondemnedStays(cfg: Config, w: World, e: Event)
    requires ClockSane(cfg, w) && Enabled(cfg, w, e)
    ensures SweepSane(cfg, Step(cfg, w, e))
  {
    var w' := Step(cfg, w, e);
    StepTime(cfg, w, e);
    if w'.sweep.Some? && w'.sweep.value.condemned.Some? {
      var sid := w'.sweep.value.condemned.value.0;
      StepKeepsSessions(cfg, w, e);
      AccessIsPast(cfg, w, e, sid);
    }
  }

  lemma NewSessionIsFresh(cfg: Config, w: World, e: Event, sid: Uuid)
    requires Enabled(cfg, w, e) && sid in Step(cfg, w, e).sessions && sid !in w.sessions
    ensures e.PrepareAnswered? && e.sid == sid && Step(cfg, w, e).sessions[sid].lastAccess == w.now
  {
  }

  lemma {:induction false} ClockIsSane(cfg: Config, ws: seq<World>, es: seq<Event>, i: nat)
    requires IsRun(cfg, ws, es) && Starts(ws[0]) && i < |ws|
    ensures ClockSane(cfg, ws[i])
  {
    if i > 0 {
      ClockIsSane(cfg, ws, es, i - 1);
      RunStep(cfg, ws, es, i - 1);
      StepKeepsClock(cfg, ws[i - 1], es[i - 1]);
    }
  }

  lemma {:induction false} TimePasses(cfg: Config, ws: seq<World>, es: seq<Event>, i: nat, j: nat)
    requires IsRun(cfg, ws, es) && i <= j < |ws|
    ensures ws[i].now <= ws[j].now
  {
    if i < j {
      TimePasses(cfg, ws, es, i, j - 1);
      RunStepTime(cfg, ws, es, j - 1);
    }
  }

  lemma RunStepTime(cfg: Config, ws: seq<World>, es: seq<Event>, k: nat)
    requires IsRun(cfg, ws, es) && k < |es|
    ensures ws[k].now <= ws[k + 1].now
  {
    RunStep(cfg, ws, es, k);
    StepTime(cfg, ws[k], es[k]);
  }

  lemma StepTime(cfg: Config, w: World, e: Event)
    requires Enabled(cfg, w, e)
    ensures w.now <= Step(cfg, w, e).now
  {
  }

  /** Event k touches the session, no earlier than at this time. */
  predicate TouchAt(ws: seq<World>, es: seq<Event>, k: nat, sid: Uuid, since: int)
    requires k < |ws| && k < |es|
  {
    Touches(ws[k], es[k], sid) && ws[k].now >= since
  }

  /** Some event from i on and before j touches the session, no earlier than at this time. */
  ghost predicate TouchedSince(ws: seq<World>, es: seq<Event>, i: nat, j: nat, sid: Uuid, since: int)
    requires j < |ws| && j <= |es|
  {
    exists k :: i <= k < j && TouchAt(ws, es, k, sid, since)
  }

  /** An access time is recent exactly if it was already, or a recent event touched the session. */
  lemma {:induction false} RecentlyTouched(cfg: Config, ws: seq<World>, es: seq<Event>, i: nat, j: nat, sid: Uuid,
                                           since: int)
    requires IsRun(cfg, ws, es) && Starts(ws[0]) && i <= j < |ws| && sid in ws[i].sessions
    ensures sid in ws[j].sessions
    ensures ws[j].sessions[sid].lastAccess >= since
      <==> ws[i].sessions[sid].lastAccess >= since || TouchedSince(ws, es, i, j, sid, since)
  {
    if i < j {
      RecentlyTouched(cfg, ws, es, i, j - 1, sid, since);
      RunStepTouches(cfg, ws, es, j - 1, sid, since);
      TouchedOneMore(ws, es, i, j, sid, since);
    }
  }

  lemma RunStepTouches(cfg: Config, ws: seq<World>, es: seq<Event>, k: nat, sid: Uuid, since: int)
    requires IsRun(cfg, ws, es) && Starts(ws[0]) && k < |es| && sid in ws[k].sessions
    ensures sid in ws[k + 1].sessions
    ensures ws[k + 1].sessions[sid].lastAccess >= since
      <==> ws[k].sessions[sid].lastAccess >= since || TouchAt(ws, es, k, sid, since)
  {
    RunStep(cfg, ws, es, k);
    StepOnSession(cfg, ws[k], es[k], sid);
    NotTouchedLater(cfg, ws, es, k, sid);
  }

  lemma TouchedOneMore(ws: seq<World>, es: seq<Event>, i: nat, j: nat, sid: Uuid, since: int)
    requires i < j < |ws| && j <= |es|
    ensures TouchedSince(ws, es, i, j, sid, since)
      <==> TouchedSince(ws, es, i, j - 1, sid, since) || TouchAt(ws, es, j - 1, sid, since)
  {
    if TouchAt(ws, es, j - 1, sid, since) {
      assert i <= j - 1 < j;
    }
  }

  lemma NotTouchedLater(cfg: Config, ws: seq<World>, es: seq<Event>, i: nat, sid: Uuid)
    requires IsRun(cfg, ws, es) && Starts(ws[0]) && i < |ws| && sid in ws[i].sessions
    ensures ws[i].sessions[sid].lastAccess <= ws[i].now
  {
    ClockIsSane(cfg, ws, es, i);
  }

  // ----- how long an idle session stays -----

  /** The next tick comes before the session is due. */
  predicate Covered(cfg: Config, w: World, sid: Uuid)
    requires sid in w.sessions
  {
    w.nextTick <= w.sessions[sid].lastAccess + cfg.timeout + cfg.interval
  }

  /** A stored session is covered, or the sweep under way, whose tick came before it was due, will deal with it. */
  predicate OnTrack(cfg: Config, w: World, sid: Uuid)
    requires sid in w.sessions
  {
    Covered(cfg, w, sid) ||
    match w.sweep
    case None => false
    case Some(p) =>
      && w.nextTick - cfg.interval <= w.sessions[sid].lastAccess + cfg.timeout + cfg.interval
      && ((sid in p.due && sid !in p.seen) || (p.condemned.Some? && p.condemned.value.0 == sid))
  }

  /** The sweep under way, or else the next one, is at most late behind its tick. */
  predicate TickerSane(cfg: Config, w: World, late: nat) {
    && w.nextTick - cfg.interval <= w.now <= w.nextTick + late
    && (w.sweep.Some? ==> w.nextTick - cfg.interval <= w.sweep.value.now <= w.now <= w.nextTick - cfg.interval + late)
  }

  /** No tick is dropped: each sweep begins and ends within late of its tick. */
  predicate Prompt(cfg: Config, w: World, e: Event, late: nat) {
    e.Wait? ==> w.now + e.d <= late + if w.sweep.None? then w.nextTick else w.nextTick - cfg.interval
  }

  lemma StepKeepsTicker(cfg: Config, w: World, e: Event, late: nat)
    requires cfg.interval > 0 && TickerSane(cfg, w, late) && Enabled(cfg, w, e) && Prompt(cfg, w, e, late)
    ensures TickerSane(cfg, Step(cfg, w, e), late)
    ensures w.nextTick <= Step(cfg, w, e).nextTick
    ensures e != SweepBegins ==> Step(cfg, w, e).nextTick == w.nextTick
  {
  }

  lemma StepKeepsTrack(cfg: Config, w: World, e: Event, sid: Uuid, late: nat)
    requires cfg.timeout >= 0 && cfg.interval > 0 && TickerSane(cfg, w, late) && ClockSane(cfg, w)
    requires Enabled(cfg, w, e) && Prompt(cfg, w, e, late)
    requires sid in w.sessions && sid in w.stored && OnTrack(cfg, w, sid)
    requires sid in Step(cfg, w, e).stored
    ensures sid in Step(cfg, w, e).sessions && OnTrack(cfg, Step(cfg, w, e), sid)
  {
    StepOnSession(cfg, w, e, sid);
    StepKeepsTicker(cfg, w, e, late);
    var w' := Step(cfg, w, e);
    assert w.sessions[sid].lastAccess <= w'.sessions[sid].lastAccess;
    if Covered(cfg, w, sid) && e != SweepBegins {
      assert Covered(cfg, w', sid);
    } else if e != SweepBegins {
      SweepGoesOn(cfg, w, e, sid, late);
    }
  }

  /** A session that the sweep under way is to visit stays so until it is read, and then is fresh or condemned. */
  lemma SweepGoesOn(cfg: Config, w: World, e: Event, sid: Uuid, late: nat)
    requires TickerSane(cfg, w, late) && Enabled(cfg, w, e)
    requires sid in w.sessions && sid in w.stored && OnTrack(cfg, w, sid) && !Covered(cfg, w, sid)
    requires e != SweepBegins && sid in Step(cfg, w, e).stored && sid in Step(cfg, w, e).sessions
    requires w.sessions[sid].lastAccess <= Step(cfg, w, e).sessions[sid].lastAccess
    requires Step(cfg, w, e).nextTick == w.nextTick
    ensures OnTrack(cfg, Step(cfg, w, e), sid)
  {
  }

  lemma {:induction false} SessionsOnTrack(cfg: Config, ws: seq<World>, es: seq<Event>, i: nat, late: nat)
    requires cfg.timeout >= 0 && cfg.interval > 0
    requires IsRun(cfg, ws, es) && Starts(ws[0]) && ws[0].nextTick == ws[0].now + cfg.interval
    requires i < |ws| && forall k :: 0 <= k < |es| ==> Prompt(cfg, ws[k], es[k], late)
    ensures TickerSane(cfg, ws[i], late)
    ensures forall sid :: sid in ws[i].stored ==> sid in ws[i].sessions && OnTrack(cfg, ws[i], sid)
  {
    if i > 0 {
      var w, e := ws[i - 1], es[i - 1];
      SessionsOnTrack(cfg, ws, es, i - 1, late);
      ClockIsSane(cfg, ws, es, i - 1);
      RunStep(cfg, ws, es, i - 1);
      StepKeepsTicker(cfg, w, e, late);
      forall sid | sid in ws[i].stored
        ensures sid in ws[i].sessions && OnTrack(cfg, ws[i], sid)
      {
        if sid in w.stored {
          StepKeepsTrack(cfg, w, e, sid, late);
        } else {
          NewSessionCovered(cfg, w, e, sid, late);
        }
      }
    }
  }

  lemma NewSessionCovered(cfg: Config, w: World, e: Event, sid: Uuid, late: nat)
    requires cfg.timeout >= 0 && TickerSane(cfg, w, late) && Enabled(cfg, w, e)
    requires sid !in w.stored && sid in Step(cfg, w, e).stored
    ensures sid in Step(cfg, w, e).sessions && Covered(cfg, Step(cfg, w, e), sid)
  {
    assert e.PrepareAnswered? && e.sid == sid;
  }

  /** While each sweep begins and ends within late of its tick, a session last touched at L is gone by
      L + timeout + interval + late: it is never stored later than that, and outside a sweep the next tick is due by
      L + timeout + interval. */
  lemma ExpiryIsBounded(cfg: Config, ws: seq<World>, es: seq<Event>, i: nat, sid: Uuid, late: nat)
    requires cfg.timeout >= 0 && cfg.interval > 0
    requires IsRun(cfg, ws, es) && Starts(ws[0]) && ws[0].nextTick == ws[0].now + cfg.interval
    requires i < |ws| && forall k :: 0 <= k < |es| ==> Prompt(cfg, ws[k], es[k], late)
    requires sid in ws[i].stored
    ensures sid in ws[i].sessions
    ensures Age(ws[i], sid) <= cfg.timeout + cfg.interval + late
    ensures ws[i].sweep.None? ==> ws[i].nextTick <= ws[i].sessions[sid].lastAccess + cfg.timeout + cfg.interval
  {
    SessionsOnTrack(cfg, ws, es, i, late);
  }
}
