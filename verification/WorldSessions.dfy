/** The session table over interleaved handlers: conservation, justification and the reach of a cancellation. */
module WorldSessions {
  import opened Protocol
  import opened Sessions
  import opened Manager
  import opened Receiver
  import opened World

  // ----- what one step does to one session -----

  /** The action records an access to the session. */
  predicate Touches(w: World, e: Event, sid: Uuid) {
    match e
    case UploadArrives(_, req) => req.isPost && req.sid == sid && sid in w.stored
    case UploadActs(uid, WriteChunk(nw, _)) => nw > 0 && uid in w.flights && w.flights[uid].sid == sid
    case _ => false
  }

  /** What was granted: fixed when the session is created. */
  predicate SameGrant(s: Session, t: Session) {
    && t.files == s.files && t.metadata == s.metadata
    && t.clientIP == s.clientIP && t.clientVerified == s.clientVerified
  }

  lemma StepOnSession(cfg: Config, w: World, e: Event, sid: Uuid)
    requires Enabled(cfg, w, e) && sid in w.sessions
    ensures sid in Step(cfg, w, e).sessions
    ensures var s, s' := w.sessions[sid], Step(cfg, w, e).sessions[sid];
      && SameGrant(s, s')
      && s'.lastAccess == (if Touches(w, e, sid) then w.now else s.lastAccess)
      && (s'.canceled <==> s.canceled || e == ContextCanceled(sid))
  {
    match e
    case UploadActs(uid, a) => ActOnSession(cfg, w, uid, a, sid);
    case UploadArrives(uid, req) => ArrivalOnSession(cfg, w, uid, req, sid);
    case _ => OtherOnSession(cfg, w, e, sid);
  }

  lemma OtherOnSession(cfg: Config, w: World, e: Event, sid: Uuid)
    requires Enabled(cfg, w, e) && sid in w.sessions && !e.UploadActs? && !e.UploadArrives?
    ensures sid in Step(cfg, w, e).sessions
    ensures Step(cfg, w, e).sessions[sid] ==
      if e == ContextCanceled(sid) then w.sessions[sid].(canceled := true) else w.sessions[sid]
  {
  }

  lemma ArrivalOnSession(cfg: Config, w: World, uid: nat, req: UploadRequest, sid: Uuid)
    requires sid in w.sessions
    ensures var w' := Arrive(cfg, w, uid, req);
      && w'.sessions.Keys == w.sessions.Keys
      && w'.sessions[sid] == if Touches(w, UploadArrives(uid, req), sid) then w.sessions[sid].Touched(w.now)
                             else w.sessions[sid]
  {
  }

  lemma ActOnSession(cfg: Config, w: World, uid: nat, a: Action, sid: Uuid)
    requires Enabled(cfg, w, UploadActs(uid, a)) && sid in w.sessions
    ensures var w' := Act(cfg, w, uid, a);
      && w'.sessions.Keys == w.sessions.Keys
      && SameGrant(w.sessions[sid], w'.sessions[sid])
      && w'.sessions[sid].canceled == w.sessions[sid].canceled
      && w'.sessions[sid].lastAccess ==
        (if Touches(w, UploadActs(uid, a), sid) then w.now else w.sessions[sid].lastAccess)
  {
    var f := w.flights[uid];
    var s := w.sessions[f.sid];
    var s' := SessionAfter(s, f, a, Advance(cfg, f, a, w.disk, s), w.now);
    assert SameGrant(s, s') && s'.canceled == s.canceled;
    assert s'.lastAccess == if a.WriteChunk? && a.nw > 0 then w.now else s.lastAccess;
  }

  // ----- conservation -----

  function Once(b: bool): nat {
    if b then 1 else 0
  }

  predicate OneFate(canceled: bool, stored: bool, unlinked: nat, cancels: nat) {
    Once(stored) + unlinked + cancels == 1 && (canceled <==> cancels == 1)
  }

  /** Every session ever created is stored, or unlinked and about to be canceled, or canceled: exactly one of the
      three, and each of the two halves of its removal happens at most once. */
  ghost predicate Conserved(sessions: Table, stored: set<Uuid>, unlinked: multiset<Uuid>, cancels: multiset<Uuid>) {
    && stored <= sessions.Keys
    && (forall sid :: sid in unlinked || sid in cancels ==> sid in sessions)
    && (forall sid :: sid in sessions ==>
      OneFate(sessions[sid].canceled, sid in stored, unlinked[sid], cancels[sid]))
  }

  ghost predicate ConservedIn(w: World) {
    Conserved(w.sessions, w.stored, w.unlinked, w.cancels)
  }

  /** No handler and no sweep points to a session that was never created. */
  ghost predicate NoDangling(w: World) {
    && (forall uid :: uid in w.flights ==> w.flights[uid].sid in w.sessions)
    && (w.sweep.Some? && w.sweep.value.condemned.Some? ==> w.sweep.value.condemned.value.0 in w.sessions)
  }

  lemma UnlinkConserves(w: World, sid: Uuid)
    requires ConservedIn(w)
    ensures ConservedIn(Unlink(w, sid))
  {
  }

  lemma UpdateConserves(sessions: Table, stored: set<Uuid>, unlinked: multiset<Uuid>, cancels: multiset<Uuid>,
                        sid: Uuid, s: Session)
    requires Conserved(sessions, stored, unlinked, cancels)
    requires sid in sessions && s.canceled == sessions[sid].canceled
    ensures Conserved(sessions[sid := s], stored, unlinked, cancels)
  {
  }

  lemma ActConserves(cfg: Config, w: World, uid: nat, a: Action)
    requires ConservedIn(w) && Enabled(cfg, w, UploadActs(uid, a))
    ensures ConservedIn(Act(cfg, w, uid, a))
  {
    var f := w.flights[uid];
    var s := w.sessions[f.sid];
    var w1 := if a == Release then Unlink(w, f.sid) else w;
    UnlinkConserves(w, f.sid);
    UpdateConserves(w1.sessions, w1.stored, w1.unlinked, w1.cancels, f.sid,
                    SessionAfter(s, f, a, Advance(cfg, f, a, w.disk, s), w.now));
  }

  lemma CreationConserves(sessions: Table, stored: set<Uuid>, unlinked: multiset<Uuid>, cancels: multiset<Uuid>,
                          sid: Uuid, s: Session)
    requires Conserved(sessions, stored, unlinked, cancels)
    requires sid !in sessions && !s.canceled
    ensures Conserved(sessions[sid := s], stored + {sid}, unlinked, cancels)
  {
    assert sid !in unlinked && sid !in cancels && sid !in stored;
  }

  lemma CancelConserves(sessions: Table, stored: set<Uuid>, unlinked: multiset<Uuid>, cancels: multiset<Uuid>,
                        sid: Uuid)
    requires Conserved(sessions, stored, unlinked, cancels)
    requires sid in sessions && sid in unlinked
    ensures Conserved(sessions[sid := sessions[sid].(canceled := true)], stored,
                      unlinked - multiset{sid}, cancels + multiset{sid})
  {
    assert unlinked[sid] == 1 && cancels[sid] == 0;
  }

  lemma ArrivalConserves(cfg: Config, w: World, uid: nat, req: UploadRequest)
    requires ConservedIn(w)
    ensures ConservedIn(Arrive(cfg, w, uid, req))
  {
    if req.isPost && req.sid in w.stored && req.sid in w.sessions {
      UpdateConserves(w.sessions, w.stored, w.unlinked, w.cancels, req.sid, w.sessions[req.sid].Touched(w.now));
    }
  }

  lemma AnswerConserves(cfg: Config, w: World, pid: nat, decision: Decision, sid: Uuid, tokens: map<string, Uuid>)
    requires ConservedIn(w) && Enabled(cfg, w, PrepareAnswered(pid, decision, sid, tokens))
    ensures ConservedIn(Answer(w, pid, decision, sid, tokens))
  {
    var req := w.preparing[pid];
    CreationConserves(w.sessions, w.stored, w.unlinked, w.cancels, sid,
      NewSession(req.remoteIP, ClientVerified(req), Filtered(decision, req.files.value), tokens, w.now));
  }

  lemma StepConserves(cfg: Config, w: World, e: Event)
    requires ConservedIn(w) && Enabled(cfg, w, e)
    ensures ConservedIn(Step(cfg, w, e))
  {
    match e
    case PrepareAnswered(pid, decision, sid, tokens) => AnswerConserves(cfg, w, pid, decision, sid, tokens);
    case UploadArrives(uid, req) => ArrivalConserves(cfg, w, uid, req);
    case UploadActs(uid, a) => ActConserves(cfg, w, uid, a);
    case CancelArrives(sid) => UnlinkConserves(w, sid);
    case ContextCanceled(sid) => CancelConserves(w.sessions, w.stored, w.unlinked, w.cancels, sid);
    case SweepDeletes => UnlinkConserves(w, w.sweep.value.condemned.value.0);
    case _ =>
  }

  lemma StepKeepsSessions(cfg: Config, w: World, e: Event)
    requires Enabled(cfg, w, e)
    ensures w.sessions.Keys <= Step(cfg, w, e).sessions.Keys
  {
  }

  lemma StepDanglesNothing(cfg: Config, w: World, e: Event)
    requires NoDangling(w) && Enabled(cfg, w, e)
    ensures NoDangling(Step(cfg, w, e))
  {
    var w' := Step(cfg, w, e);
    StepKeepsSessions(cfg, w, e);
    match e
    case UploadActs(uid, a) =>
      assert w'.flights == w.flights[uid := w'.flights[uid]] && w'.flights[uid].sid == w.flights[uid].sid;
    case UploadArrives(uid, req) =>
      assert || w'.flights == w.flights
             || (w'.flights == w.flights[uid := w'.flights[uid]] && w'.flights[uid].sid == req.sid);
    case _ =>
  }

  /** Conservation over every interleaving of creations, completions, cancel requests and sweeps. */
  lemma {:induction false} SessionsConserved(cfg: Config, ws: seq<World>, es: seq<Event>, i: nat)
    requires IsRun(cfg, ws, es) && Starts(ws[0]) && i < |ws|
    ensures ConservedIn(ws[i]) && NoDangling(ws[i])
  {
    if i > 0 {
      SessionsConserved(cfg, ws, es, i - 1);
      RunStep(cfg, ws, es, i - 1);
      StepConserves(cfg, ws[i - 1], es[i - 1]);
      StepDanglesNothing(cfg, ws[i - 1], es[i - 1]);
    }
  }

  lemma StoredExists(cfg: Config, ws: seq<World>, es: seq<Event>, i: nat, sid: Uuid)
    requires IsRun(cfg, ws, es) && Starts(ws[0]) && i < |ws| && sid in ws[i].stored
    ensures sid in ws[i].sessions
  {
    SessionsConserved(cfg, ws, es, i);
  }

  lemma StepStores(cfg: Config, w: World, e: Event, sid: Uuid)
    requires Enabled(cfg, w, e) && sid in w.sessions && sid !in w.stored
    ensures sid !in Step(cfg, w, e).stored
  {
  }

  /** From one state of a run to the next, for a session that exists. */
  lemma RunStepOnSession(cfg: Config, ws: seq<World>, es: seq<Event>, i: nat, sid: Uuid)
    requires IsRun(cfg, ws, es) && i < |es| && sid in ws[i].sessions
    ensures sid in ws[i + 1].sessions && SameGrant(ws[i].sessions[sid], ws[i + 1].sessions[sid])
    ensures sid !in ws[i].stored ==> sid !in ws[i + 1].stored
    ensures ws[i].sessions[sid].canceled ==> ws[i + 1].sessions[sid].canceled
  {
    RunStep(cfg, ws, es, i);
    StepOnSession(cfg, ws[i], es[i], sid);
    if sid !in ws[i].stored {
      StepStores(cfg, ws[i], es[i], sid);
    }
  }

  /** Removal is for good: a session that is not stored never comes back, and a canceled one stays canceled. */
  lemma {:induction false} RemovalIsPermanent(cfg: Config, ws: seq<World>, es: seq<Event>, i: nat, j: nat, sid: Uuid)
    requires IsRun(cfg, ws, es) && i <= j < |ws| && sid in ws[i].sessions
    ensures sid in ws[j].sessions && SameGrant(ws[i].sessions[sid], ws[j].sessions[sid])
    ensures sid !in ws[i].stored ==> sid !in ws[j].stored
    ensures ws[i].sessions[sid].canceled ==> ws[j].sessions[sid].canceled
  {
    if i < j {
      RemovalIsPermanent(cfg, ws, es, i, j - 1, sid);
      RunStepOnSession(cfg, ws, es, j - 1, sid);
    }
  }
}
