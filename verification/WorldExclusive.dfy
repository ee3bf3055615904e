/** How many sessions are live at once. */
module WorldExclusive {
  import opened Protocol
  import opened Receiver
  import opened World
  import opened WorldSessions
  import opened WorldClock

  /** A prepare request arrives and passes its checks. */
  ghost predicate Passes(cfg: Config, w: World, e: Event) {
    e.PrepareArrives? && Gate(cfg, Visible(w), e.prepare, w.now).None?
  }

  /** Prepare handlers are serialised: a request passes its checks only when no other waits for its answer. */
  ghost predicate Serialised(cfg: Config, w: World, e: Event) {
    Passes(cfg, w, e) ==> w.preparing == map[]
  }

  ghost predicate OneLive(cfg: Config, w: World) {
    forall a, b :: Unexpired(cfg, w, a) && Unexpired(cfg, w, b) ==> a == b
  }

  /** At most one live session, and none while a prepare handler waits for its answer. */
  ghost predicate Exclusive(cfg: Config, w: World) {
    && OneLive(cfg, w)
    && (forall p, q :: p in w.preparing && q in w.preparing ==> p == q)
    && (w.preparing != map[] ==> forall sid :: !Unexpired(cfg, w, sid))
  }

  /** The event touches a stored session that has been idle for the timeout. */
  predicate Revives(cfg: Config, w: World, e: Event, sid: Uuid) {
    sid in w.stored && sid in w.sessions && Touches(w, e, sid) && Age(w, sid) >= cfg.timeout
  }

  /** The event revives a session while another is live or a prepare handler waits for its answer. */
  ghost predicate Harmful(cfg: Config, w: World, e: Event) {
    && (exists sid :: Revives(cfg, w, e, sid))
    && (w.preparing != map[] || exists live :: Unexpired(cfg, w, live))
  }

  /** A session that is live after a step was live before it, unless the step created or revived it. */
  lemma LiveBefore(cfg: Config, w: World, e: Event, sid: Uuid)
    requires Enabled(cfg, w, e) && w.stored <= w.sessions.Keys
    requires Unexpired(cfg, Step(cfg, w, e), sid)
    ensures Unexpired(cfg, w, sid) || Revives(cfg, w, e, sid) || (e.PrepareAnswered? && e.sid == sid)
  {
    if sid in w.sessions {
      StepOnSession(cfg, w, e, sid);
      if sid !in w.stored {
        StepStores(cfg, w, e, sid);
      }
    }
  }

  /** An event touches at most one session, and one that touches leaves clock, table and pending requests alone. */
  lemma TouchesOne(cfg: Config, w: World, e: Event, sid: Uuid)
    requires Enabled(cfg, w, e) && Touches(w, e, sid) && sid in w.stored
    ensures forall other :: Touches(w, e, other) ==> other == sid
    ensures e.UploadArrives? || e.UploadActs?
    ensures Step(cfg, w, e).now == w.now && Step(cfg, w, e).preparing == w.preparing
    ensures Step(cfg, w, e).stored == w.stored
  {
    PreparingUnchanged(cfg, w, e);
  }

  /** A revived session is live afterwards. */
  lemma RevivedIsLive(cfg: Config, w: World, e: Event, sid: Uuid)
    requires cfg.timeout > 0 && Enabled(cfg, w, e) && Revives(cfg, w, e, sid)
    ensures Unexpired(cfg, Step(cfg, w, e), sid)
  {
    TouchesOne(cfg, w, e, sid);
    StepOnSession(cfg, w, e, sid);
  }

  /** A live session that a touch of another leaves alone stays live. */
  lemma LiveBesideRevived(cfg: Config, w: World, e: Event, sid: Uuid, live: Uuid)
    requires Enabled(cfg, w, e) && Revives(cfg, w, e, sid) && Unexpired(cfg, w, live)
    ensures live != sid && Unexpired(cfg, Step(cfg, w, e), live)
  {
    TouchesOne(cfg, w, e, sid);
    StepOnSession(cfg, w, e, live);
  }

  lemma GateSeesLiveSessions(cfg: Config, w: World, req: PrepareRequest, sid: Uuid)
    requires Gate(cfg, Visible(w), req, w.now).None?
    ensures !Unexpired(cfg, w, sid)
  {
    var table := Visible(w).table;
    assert sid in w.stored && sid in w.sessions ==> sid in table && table[sid] == w.sessions[sid];
  }

  lemma PreparingUnchanged(cfg: Config, w: World, e: Event)
    requires Enabled(cfg, w, e) && !e.PrepareArrives? && !e.PrepareAnswered?
    ensures Step(cfg, w, e).preparing == w.preparing
  {
    match e
    case Wait(_) =>
    case UploadArrives(uid, req) => assert Arrive(cfg, w, uid, req).preparing == w.preparing;
    case UploadActs(uid, a) => assert Act(cfg, w, uid, a).preparing == w.preparing;
    case CancelArrives(sid) => assert Unlink(w, sid).preparing == w.preparing;
    case ContextCanceled(_) =>
    case SweepBegins =>
    case SweepReads(_) =>
    case SweepDeletes =>
    case SweepEnds =>
  }

  /** A serialised step keeps at most one pending request, and only a passed gate adds one. */
  lemma PreparingAfter(cfg: Config, w: World, e: Event)
    requires Enabled(cfg, w, e) && Serialised(cfg, w, e)
    requires forall p, q :: p in w.preparing && q in w.preparing ==> p == q
    ensures var after := Step(cfg, w, e).preparing;
      && (forall p, q :: p in after && q in after ==> p == q)
      && (after != map[] ==> after == w.preparing || Passes(cfg, w, e))
      && (e.PrepareAnswered? ==> w.preparing != map[] && after == map[])
  {
    if e.PrepareAnswered? {
      assert e.pid in w.preparing;
      assert w.preparing - {e.pid} == map[];
    } else if !e.PrepareArrives? {
      PreparingUnchanged(cfg, w, e);
    }
  }

  lemma StepExclusive(cfg: Config, w: World, e: Event)
    requires Exclusive(cfg, w) && w.stored <= w.sessions.Keys
    requires Enabled(cfg, w, e) && Serialised(cfg, w, e) && !Harmful(cfg, w, e)
    ensures Exclusive(cfg, Step(cfg, w, e))
  {
    if sid :| Revives(cfg, w, e, sid) {
      RevivalAlone(cfg, w, e, sid);
    } else {
      StepWithoutRevival(cfg, w, e);
    }
  }

  lemma RevivalAlone(cfg: Config, w: World, e: Event, sid: Uuid)
    requires w.stored <= w.sessions.Keys && Enabled(cfg, w, e) && Revives(cfg, w, e, sid)
    requires w.preparing == map[] && forall live :: !Unexpired(cfg, w, live)
    ensures Exclusive(cfg, Step(cfg, w, e))
  {
    TouchesOne(cfg, w, e, sid);
    forall live | Unexpired(cfg, Step(cfg, w, e), live)
      ensures live == sid
    {
      LiveBefore(cfg, w, e, live);
    }
  }

  lemma StepWithoutRevival(cfg: Config, w: World, e: Event)
    requires Exclusive(cfg, w) && w.stored <= w.sessions.Keys
    requires Enabled(cfg, w, e) && Serialised(cfg, w, e) && forall sid :: !Revives(cfg, w, e, sid)
    ensures Exclusive(cfg, Step(cfg, w, e))
  {
    var w' := Step(cfg, w, e);
    PreparingAfter(cfg, w, e);
    forall sid | Unexpired(cfg, w', sid)
      ensures Unexpired(cfg, w, sid) || (e.PrepareAnswered? && e.sid == sid)
      ensures w'.preparing == map[]
    {
      LiveBefore(cfg, w, e, sid);
      if Passes(cfg, w, e) {
        GateSeesLiveSessions(cfg, w, e.prepare, sid);
      }
    }
  }

  lemma HarmBreaksExclusivity(cfg: Config, w: World, e: Event)
    requires cfg.timeout > 0 && Enabled(cfg, w, e) && Harmful(cfg, w, e)
    ensures !Exclusive(cfg, Step(cfg, w, e))
  {
    var sid :| Revives(cfg, w, e, sid);
    TouchesOne(cfg, w, e, sid);
    RevivedIsLive(cfg, w, e, sid);
    if live :| Unexpired(cfg, w, live) {
      LiveBesideRevived(cfg, w, e, sid, live);
    }
  }

  /** While nothing harmful happens, exclusivity holds in every reachable state. */
  lemma {:induction false} HarmlessRunsAreExclusive(cfg: Config, ws: seq<World>, es: seq<Event>, n: nat)
    requires IsRun(cfg, ws, es) && Starts(ws[0]) && n < |ws|
    requires forall k :: 0 <= k < n ==> Serialised(cfg, ws[k], es[k]) && !Harmful(cfg, ws[k], es[k])
    ensures Exclusive(cfg, ws[n])
  {
    if n > 0 {
      HarmlessRunsAreExclusive(cfg, ws, es, n - 1);
      RunStep(cfg, ws, es, n - 1);
      StoredExist(cfg, ws, es, n - 1);
      StepExclusive(cfg, ws[n - 1], es[n - 1]);
    }
  }

  lemma StoredExist(cfg: Config, ws: seq<World>, es: seq<Event>, i: nat)
    requires IsRun(cfg, ws, es) && Starts(ws[0]) && i < |ws|
    ensures ws[i].stored <= ws[i].sessions.Keys
  {
    SessionsConserved(cfg, ws, es, i);
  }

  /** Exclusivity over runs, exactly: with serialised prepare handlers, at most one stored session is live in every
      state, and none while a prepare handler waits, if and only if no event revives a session idle for the timeout
      while another is live or a prepare handler waits. A sender that resumes the only session does no harm. */
  lemma ExclusivityOverRuns(cfg: Config, ws: seq<World>, es: seq<Event>, n: nat)
    requires cfg.timeout > 0 && IsRun(cfg, ws, es) && Starts(ws[0]) && n < |ws|
    requires forall k :: 0 <= k < n ==> Serialised(cfg, ws[k], es[k])
    ensures (forall i :: 0 <= i <= n ==> Exclusive(cfg, ws[i]))
      <==> (forall k :: 0 <= k < n ==> !Harmful(cfg, ws[k], es[k]))
  {
    if k :| 0 <= k < n && Harmful(cfg, ws[k], es[k]) {
      RunStep(cfg, ws, es, k);
      HarmBreaksExclusivity(cfg, ws[k], es[k]);
      assert !Exclusive(cfg, ws[k + 1]);
    } else {
      forall i | 0 <= i <= n
        ensures Exclusive(cfg, ws[i])
      {
        HarmlessRunsAreExclusive(cfg, ws, es, i);
      }
    }
  }

  /** In particular, if no session idle for the timeout is ever touched. */
  lemma ExclusiveWithoutRevival(cfg: Config, ws: seq<World>, es: seq<Event>, n: nat)
    requires IsRun(cfg, ws, es) && Starts(ws[0]) && n < |ws|
    requires forall k :: 0 <= k < n ==>
      Serialised(cfg, ws[k], es[k]) && forall sid :: !Revives(cfg, ws[k], es[k], sid)
    ensures Exclusive(cfg, ws[n])
  {
    HarmlessRunsAreExclusive(cfg, ws, es, n);
  }

  // ----- without serialised prepare handlers -----

  /** The event answers a prepare request with a new session. */
  predicate Creates(w: World, e: Event) {
    && e.PrepareAnswered? && e.pid in w.preparing && w.preparing[e.pid].files.Some?
    && Filtered(e.decision, w.preparing[e.pid].files.value) != map[]
  }

  /** The event creates or revives a session while another is live. */
  ghost predicate Doubles(cfg: Config, w: World, e: Event) {
    && (exists live :: Unexpired(cfg, w, live))
    && (Creates(w, e) || exists sid :: Revives(cfg, w, e, sid))
  }

  /** A session that becomes live is created or revived by the event. */
  ghost predicate Awakes(cfg: Config, w: World, e: Event, sid: Uuid) {
    Revives(cfg, w, e, sid) || (Creates(w, e) && e.sid == sid)
  }

  lemma LiveOrAwoken(cfg: Config, w: World, e: Event, sid: Uuid)
    requires Enabled(cfg, w, e) && w.stored <= w.sessions.Keys && Unexpired(cfg, Step(cfg, w, e), sid)
    ensures Unexpired(cfg, w, sid) || Awakes(cfg, w, e, sid)
  {
    LiveBefore(cfg, w, e, sid);
  }

  lemma StepOneLive(cfg: Config, w: World, e: Event)
    requires OneLive(cfg, w) && w.stored <= w.sessions.Keys && Enabled(cfg, w, e) && !Doubles(cfg, w, e)
    ensures OneLive(cfg, Step(cfg, w, e))
  {
    forall a, b | Unexpired(cfg, Step(cfg, w, e), a) && Unexpired(cfg, Step(cfg, w, e), b)
      ensures a == b
    {
      LiveOrAwoken(cfg, w, e, a);
      LiveOrAwoken(cfg, w, e, b);
      if Revives(cfg, w, e, a) {
        TouchesOne(cfg, w, e, a);
      }
    }
  }

  lemma DoublingBreaksOneLive(cfg: Config, w: World, e: Event)
    requires cfg.timeout > 0 && Enabled(cfg, w, e) && Doubles(cfg, w, e)
    ensures !OneLive(cfg, Step(cfg, w, e))
  {
    var live :| Unexpired(cfg, w, live);
    if sid :| Revives(cfg, w, e, sid) {
      RevivedIsLive(cfg, w, e, sid);
      LiveBesideRevived(cfg, w, e, sid, live);
    } else {
      AnswerSparesOthers(cfg, w, e, live);
      CreatedIsLive(cfg, w, e);
    }
  }

  lemma CreatedIsLive(cfg: Config, w: World, e: Event)
    requires cfg.timeout > 0 && Enabled(cfg, w, e) && Creates(w, e)
    ensures Unexpired(cfg, Step(cfg, w, e), e.sid)
  {
  }

  lemma {:induction false} UndoubledRunsHaveOneLive(cfg: Config, ws: seq<World>, es: seq<Event>, n: nat)
    requires IsRun(cfg, ws, es) && Starts(ws[0]) && n < |ws|
    requires forall k :: 0 <= k < n ==> !Doubles(cfg, ws[k], es[k])
    ensures OneLive(cfg, ws[n])
  {
    if n > 0 {
      UndoubledRunsHaveOneLive(cfg, ws, es, n - 1);
      RunStep(cfg, ws, es, n - 1);
      StoredExist(cfg, ws, es, n - 1);
      StepOneLive(cfg, ws[n - 1], es[n - 1]);
    }
  }

  /** In any run, however the prepare handlers overlap, at most one session is live in every state if and only if no
      event creates or revives a session while another is live; CreationBesideLive says from the run, back to the
      check of its request, when a creation does. */
  lemma OneLiveOverRuns(cfg: Config, ws: seq<World>, es: seq<Event>, n: nat)
    requires cfg.timeout > 0 && IsRun(cfg, ws, es) && Starts(ws[0]) && n < |ws|
    ensures (forall i :: 0 <= i <= n ==> OneLive(cfg, ws[i]))
      <==> (forall k :: 0 <= k < n ==> !Doubles(cfg, ws[k], es[k]))
  {
    if k :| 0 <= k < n && Doubles(cfg, ws[k], es[k]) {
      RunStep(cfg, ws, es, k);
      DoublingBreaksOneLive(cfg, ws[k], es[k]);
      assert !OneLive(cfg, ws[k + 1]);
    } else {
      forall i | 0 <= i <= n
        ensures OneLive(cfg, ws[i])
      {
        UndoubledRunsHaveOneLive(cfg, ws, es, i);
      }
    }
  }

  // ----- the moment of creation -----

  /** Event k creates or touches the session, no earlier than at this time. */
  predicate WakesAt(ws: seq<World>, es: seq<Event>, k: nat, sid: Uuid, since: int)
    requires k < |ws| && k < |es|
  {
    TouchAt(ws, es, k, sid, since) || (Creates(ws[k], es[k]) && es[k].sid == sid && ws[k].now >= since)
  }

  /** Some event from i on and before j creates or touches the session, no earlier than at this time. */
  ghost predicate WokenSince(ws: seq<World>, es: seq<Event>, i: nat, j: nat, sid: Uuid, since: int)
    requires j < |ws| && j <= |es|
  {
    exists k :: i <= k < j && WakesAt(ws, es, k, sid, since)
  }

  predicate AccessedSince(w: World, sid: Uuid, since: int) {
    sid in w.sessions && w.sessions[sid].lastAccess >= since
  }

  /** A session is there with a recent access time exactly if it was already, or a recent event created or touched
      it. */
  lemma {:induction false} RecentlyWoken(cfg: Config, ws: seq<World>, es: seq<Event>, i: nat, j: nat, sid: Uuid,
                                         since: int)
    requires IsRun(cfg, ws, es) && Starts(ws[0]) && i <= j < |ws|
    ensures AccessedSince(ws[j], sid, since) <==>
      AccessedSince(ws[i], sid, since) || WokenSince(ws, es, i, j, sid, since)
  {
    if i < j {
      RecentlyWoken(cfg, ws, es, i, j - 1, sid, since);
      RunStepWakes(cfg, ws, es, j - 1, sid, since);
      WokenOneMore(ws, es, i, j, sid, since);
    }
  }

  lemma WokenOneMore(ws: seq<World>, es: seq<Event>, i: nat, j: nat, sid: Uuid, since: int)
    requires i < j < |ws| && j <= |es|
    ensures WokenSince(ws, es, i, j, sid, since)
      <==> WokenSince(ws, es, i, j - 1, sid, since) || WakesAt(ws, es, j - 1, sid, since)
  {
    if WakesAt(ws, es, j - 1, sid, since) {
      assert i <= j - 1 < j;
    }
  }

  lemma RunStepWakes(cfg: Config, ws: seq<World>, es: seq<Event>, k: nat, sid: Uuid, since: int)
    requires IsRun(cfg, ws, es) && Starts(ws[0]) && k < |es|
    ensures AccessedSince(ws[k + 1], sid, since) <==> AccessedSince(ws[k], sid, since) || WakesAt(ws, es, k, sid, since)
  {
    RunStep(cfg, ws, es, k);
    if sid in ws[k].sessions {
      RunStepTouches(cfg, ws, es, k, sid, since);
      NotCreatedAgain(cfg, ws[k], es[k], sid);
    } else {
      StoredExist(cfg, ws, es, k);
      CreatedNow(cfg, ws[k], es[k], sid);
    }
  }

  lemma NotCreatedAgain(cfg: Config, w: World, e: Event, sid: Uuid)
    requires Enabled(cfg, w, e) && sid in w.sessions
    ensures !(Creates(w, e) && e.sid == sid)
  {
  }

  lemma CreatedNow(cfg: Config, w: World, e: Event, sid: Uuid)
    requires Enabled(cfg, w, e) && sid !in w.sessions && w.stored <= w.sessions.Keys
    ensures !Touches(w, e, sid)
    ensures sid in Step(cfg, w, e).sessions <==> Creates(w, e) && e.sid == sid
    ensures sid in Step(cfg, w, e).sessions ==> Step(cfg, w, e).sessions[sid].lastAccess == w.now
  {
    if sid in Step(cfg, w, e).sessions {
      NewSessionIsFresh(cfg, w, e, sid);
    }
  }

  /** The answer at event g to the request that passed its checks at event a. Others may be answered in between. */
  ghost predicate AnswersCheck(cfg: Config, ws: seq<World>, es: seq<Event>, a: nat, g: nat)
    requires IsRun(cfg, ws, es)
  {
    && a < g < |es| && Passes(cfg, ws[a], es[a])
    && es[g].PrepareAnswered? && es[g].pid == es[a].pid
  }

  /** The moment of creation, exactly, whatever happens between the check and the answer, overlapping prepare handlers
      included: another session is live beside the new one if and only if it is stored and some event in between, within
      the timeout, created or touched it. */
  lemma CreationBesideLive(cfg: Config, ws: seq<World>, es: seq<Event>, a: nat, g: nat, other: Uuid)
    requires IsRun(cfg, ws, es) && Starts(ws[0]) && AnswersCheck(cfg, ws, es, a, g) && other != es[g].sid
    ensures Unexpired(cfg, ws[g + 1], other) <==>
      other in ws[g].stored && WokenSince(ws, es, a, g, other, ws[g].now - cfg.timeout + 1)
  {
    var since := ws[g].now - cfg.timeout + 1;
    RunStep(cfg, ws, es, g);
    AnswerSparesOthers(cfg, ws[g], es[g], other);
    if other in ws[g].stored {
      StoredExists(cfg, ws, es, g, other);
      RecentlyWoken(cfg, ws, es, a, g, other, since);
      NotRecentAtCheck(cfg, ws, es, a, g, other, since);
    }
  }

  /** A session that is still stored at event g, if it existed at the check, was idle then. */
  lemma NotRecentAtCheck(cfg: Config, ws: seq<World>, es: seq<Event>, a: nat, g: nat, sid: Uuid, since: int)
    requires IsRun(cfg, ws, es) && Starts(ws[0]) && a <= g < |es| && Passes(cfg, ws[a], es[a])
    requires sid in ws[g].stored && since > ws[g].now - cfg.timeout
    ensures !AccessedSince(ws[a], sid, since)
  {
    if sid in ws[a].sessions {
      RemovalIsPermanent(cfg, ws, es, a, g, sid);
      GateSeesLiveSessions(cfg, ws[a], es[a].prepare, sid);
      TimePasses(cfg, ws, es, a, g);
    }
  }

  lemma AnswerSparesOthers(cfg: Config, w: World, e: Event, other: Uuid)
    requires Enabled(cfg, w, e) && e.PrepareAnswered? && other != e.sid
    ensures Unexpired(cfg, Step(cfg, w, e), other) <==> Unexpired(cfg, w, other)
  {
  }

  /** No event from a on and before g creates a session. */
  ghost predicate NoCreation(ws: seq<World>, es: seq<Event>, a: nat, g: nat)
    requires g < |ws| && g <= |es|
  {
    forall k :: a <= k < g ==> !Creates(ws[k], es[k])
  }

  /** If no other session is created between the check and the answer, only a touch can have made another one live. */
  lemma CreationAfterTouch(cfg: Config, ws: seq<World>, es: seq<Event>, a: nat, g: nat, other: Uuid)
    requires IsRun(cfg, ws, es) && Starts(ws[0]) && AnswersCheck(cfg, ws, es, a, g) && other != es[g].sid
    requires NoCreation(ws, es, a, g)
    ensures Unexpired(cfg, ws[g + 1], other) <==>
      other in ws[g].stored && TouchedSince(ws, es, a, g, other, ws[g].now - cfg.timeout + 1)
  {
    var since := ws[g].now - cfg.timeout + 1;
    CreationBesideLive(cfg, ws, es, a, g, other);
    if k :| a <= k < g && WakesAt(ws, es, k, other, since) {
      assert TouchAt(ws, es, k, other, since);
    }
    if k :| a <= k < g && TouchAt(ws, es, k, other, since) {
      assert WakesAt(ws, es, k, other, since);
    }
  }

  /** At the moment of each creation the new session is the only live one, if nothing created or revived a session
      between the check and the answer; what was revived before does not matter. */
  lemma ExclusiveAtCreation(cfg: Config, ws: seq<World>, es: seq<Event>, a: nat, g: nat, other: Uuid)
    requires IsRun(cfg, ws, es) && Starts(ws[0]) && AnswersCheck(cfg, ws, es, a, g) && NoCreation(ws, es, a, g)
    requires forall k, sid :: a <= k < g ==> !Revives(cfg, ws[k], es[k], sid)
    requires Unexpired(cfg, ws[g + 1], other)
    ensures other == es[g].sid
  {
    if other != es[g].sid {
      RunStep(cfg, ws, es, g);
      AnswerSparesOthers(cfg, ws[g], es[g], other);
      NoneLiveSinceCheck(cfg, ws, es, a, g, other);
    }
  }

  lemma {:induction false} NoneLiveSinceCheck(cfg: Config, ws: seq<World>, es: seq<Event>, a: nat, k: nat, sid: Uuid)
    requires IsRun(cfg, ws, es) && Starts(ws[0]) && a <= k < |es| && Passes(cfg, ws[a], es[a])
    requires NoCreation(ws, es, a, k)
    requires forall m, other :: a <= m < k ==> !Revives(cfg, ws[m], es[m], other)
    ensures !Unexpired(cfg, ws[k], sid)
  {
    if k == a {
      GateSeesLiveSessions(cfg, ws[a], es[a].prepare, sid);
    } else {
      NoneLiveSinceCheck(cfg, ws, es, a, k - 1, sid);
      RunStep(cfg, ws, es, k - 1);
      StoredExist(cfg, ws, es, k - 1);
      if Unexpired(cfg, ws[k], sid) {
        LiveOrAwoken(cfg, ws[k - 1], es[k - 1], sid);
      }
    }
  }
}
