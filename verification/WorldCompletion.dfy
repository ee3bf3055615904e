/** What a session that was released as completed had received. */
module WorldCompletion {
  import opened Protocol
  import opened Sessions
  import opened Receiver
  import opened World
  import opened WorldDisk
  import opened WorldSessions
  import opened WorldCancel

  /** This upload has received at least n bytes of the file. */
  predicate Sent(flights: Flights, uid: nat, sid: Uuid, fileId: string, n: int) {
    && uid in flights && flights[uid].sid == sid && flights[uid].meta.id == fileId
    && |flights[uid].transfer.content| >= n
  }

  ghost predicate HasSent(flights: Flights, sid: Uuid, fileId: string, n: int) {
    exists uid :: Sent(flights, uid, sid, fileId, n)
  }

  /** All progress that the session records was made by some upload. */
  ghost predicate Backed(flights: Flights, sid: Uuid, s: Session) {
    forall id :: id in s.progress && s.progress[id] > 0 ==> HasSent(flights, sid, id, s.progress[id])
  }

  ghost predicate Sized(s: Session) {
    forall id :: id in s.metadata ==> s.metadata[id].size >= 0
  }

  /** Every session is indexed, unless it was announced with a negative size, and its progress is backed. */
  ghost predicate Honoured(flights: Flights, sid: Uuid, s: Session) {
    (Sized(s) ==> s.Indexed()) && Backed(flights, sid, s)
  }

  // ----- one step -----

  lemma SentStays(cfg: Config, w: World, e: Event, sid: Uuid, fileId: string, n: int)
    requires Enabled(cfg, w, e) && HasSent(w.flights, sid, fileId, n)
    ensures HasSent(Step(cfg, w, e).flights, sid, fileId, n)
  {
    var uid :| Sent(w.flights, uid, sid, fileId, n);
    StepIsLater(cfg, w, e, uid);
    assert Sent(Step(cfg, w, e).flights, uid, sid, fileId, n);
  }

  /** The step is a report about one of the session's files. */
  predicate ReportsTo(w: World, e: Event, sid: Uuid) {
    e.UploadActs? && e.action.WriteChunk? && e.action.nw > 0 && e.uid in w.flights && w.flights[e.uid].sid == sid
  }

  /** Only a report changes progress or index; it reports the bytes that its upload has counted. */
  lemma ProgressAfterStep(cfg: Config, w: World, e: Event, sid: Uuid)
    requires Enabled(cfg, w, e) && sid in w.sessions
    ensures sid in Step(cfg, w, e).sessions
    ensures var s, s', w' := w.sessions[sid], Step(cfg, w, e).sessions[sid], Step(cfg, w, e);
      if ReportsTo(w, e, sid) then
        && e.uid in w'.flights && w'.flights[e.uid].sid == sid
        && s' == s.Reported(w'.flights[e.uid].meta.id, w'.flights[e.uid].transfer.written, w.now)
      else s'.progress == s.progress && s'.completed == s.completed
  {
    match e
    case UploadActs(uid, a) => ActReports(cfg, w, uid, a, sid);
    case UploadArrives(uid, req) => ArrivalOnSession(cfg, w, uid, req, sid);
    case _ => OtherOnSession(cfg, w, e, sid);
  }

  lemma ActReports(cfg: Config, w: World, uid: nat, a: Action, sid: Uuid)
    requires Enabled(cfg, w, UploadActs(uid, a)) && sid in w.sessions
    ensures var w' := Act(cfg, w, uid, a);
      && uid in w'.flights && w'.flights[uid].sid == w.flights[uid].sid
      && w'.flights[uid].meta == w.flights[uid].meta
      && sid in w'.sessions
      && w'.sessions[sid] ==
        if w.flights[uid].sid == sid then SessionAfter(w.sessions[sid], w.flights[uid], a, w'.flights[uid], w.now)
        else w.sessions[sid]
  {
  }

  lemma StepHonours(cfg: Config, w: World, e: Event, sid: Uuid)
    requires Enabled(cfg, w, e) && AllAccounted(cfg, w)
    requires sid in w.sessions && Honoured(w.flights, sid, w.sessions[sid])
    ensures sid in Step(cfg, w, e).sessions
    ensures Honoured(Step(cfg, w, e).flights, sid, Step(cfg, w, e).sessions[sid])
  {
    var w' := Step(cfg, w, e);
    ProgressAfterStep(cfg, w, e, sid);
    StepOnSession(cfg, w, e, sid);
    StepKeepsAccounts(cfg, w, e);
    var s, s' := w.sessions[sid], w'.sessions[sid];
    forall id | id in s'.progress && s'.progress[id] > 0
      ensures HasSent(w'.flights, sid, id, s'.progress[id])
    {
      if ReportsTo(w, e, sid) && id == w'.flights[e.uid].meta.id {
        assert Accounted(cfg, w'.flights[e.uid]);
        assert Sent(w'.flights, e.uid, sid, id, s'.progress[id]);
      } else {
        assert s'.progress[id] == s.progress[id];
        SentStays(cfg, w, e, sid, id, s.progress[id]);
      }
    }
    if Sized(s') {
      IndexAfterStep(cfg, w, e, sid);
    }
  }

  lemma IndexAfterStep(cfg: Config, w: World, e: Event, sid: Uuid)
    requires Enabled(cfg, w, e) && sid in w.sessions && w.sessions[sid].Indexed()
    ensures sid in Step(cfg, w, e).sessions && Step(cfg, w, e).sessions[sid].Indexed()
  {
    var w' := Step(cfg, w, e);
    var s := w.sessions[sid];
    ProgressAfterStep(cfg, w, e, sid);
    StepOnSession(cfg, w, e, sid);
    if ReportsTo(w, e, sid) {
      ApplyKeepsIndex(s, ReportOp(w'.flights[e.uid].meta.id, w'.flights[e.uid].transfer.written, w.now));
    } else {
      assert forall id :: id in s.metadata ==> (w'.sessions[sid].HasReached(id) <==> s.HasReached(id));
    }
  }

  lemma CreatedIsHonoured(cfg: Config, w: World, e: Event, sid: Uuid)
    requires Enabled(cfg, w, e) && sid !in w.sessions && sid in Step(cfg, w, e).sessions
    ensures Honoured(Step(cfg, w, e).flights, sid, Step(cfg, w, e).sessions[sid])
  {
    CreatedByAnswer(cfg, w, e, sid);
    var req := w.preparing[e.pid];
    NewSessionIndexed(req.remoteIP, ClientVerified(req), Filtered(e.decision, req.files.value), e.tokens, w.now);
  }

  lemma CreatedByAnswer(cfg: Config, w: World, e: Event, sid: Uuid)
    requires Enabled(cfg, w, e) && sid !in w.sessions && sid in Step(cfg, w, e).sessions
    ensures e.PrepareAnswered? && e.sid == sid
    ensures var req := w.preparing[e.pid];
      Step(cfg, w, e).sessions[sid] ==
        NewSession(req.remoteIP, ClientVerified(req), Filtered(e.decision, req.files.value), e.tokens, w.now)
  {
  }

  // ----- over runs -----

  lemma {:induction false} SessionsHonoured(cfg: Config, ws: seq<World>, es: seq<Event>, i: nat, sid: Uuid)
    requires IsRun(cfg, ws, es) && Starts(ws[0]) && i < |ws| && sid in ws[i].sessions
    ensures Honoured(ws[i].flights, sid, ws[i].sessions[sid])
  {
    if i > 0 {
      RunStep(cfg, ws, es, i - 1);
      if sid in ws[i - 1].sessions {
        SessionsHonoured(cfg, ws, es, i - 1, sid);
        InterleavingSafety(cfg, ws, es, i - 1);
        StepHonours(cfg, ws[i - 1], es[i - 1], sid);
      } else {
        CreatedIsHonoured(cfg, ws[i - 1], es[i - 1], sid);
      }
    }
  }

  lemma CompletedWasReceived(cfg: Config, ws: seq<World>, es: seq<Event>, i: nat, sid: Uuid, fileId: string)
    requires IsRun(cfg, ws, es) && Starts(ws[0]) && i < |ws| && sid in ws[i].sessions
    requires Sized(ws[i].sessions[sid]) && ws[i].sessions[sid].IsCompleted()
    requires fileId in ws[i].sessions[sid].metadata && ws[i].sessions[sid].metadata[fileId].size > 0
    ensures HasSent(ws[i].flights, sid, fileId, ws[i].sessions[sid].metadata[fileId].size)
  {
    var s := ws[i].sessions[sid];
    SessionsHonoured(cfg, ws, es, i, sid);
    s.CompletedMeansAllReached();
    assert s.HasReached(fileId);
    var uid :| Sent(ws[i].flights, uid, sid, fileId, s.progress[fileId]);
    assert Sent(ws[i].flights, uid, sid, fileId, s.metadata[fileId].size);
  }

  /** An upload about to release its session found it completed when it checked. */
  lemma {:induction false} ReleaseWasChecked(cfg: Config, ws: seq<World>, es: seq<Event>, j: nat, uid: nat)
    returns (i: nat)
    requires IsRun(cfg, ws, es) && Starts(ws[0]) && j < |ws|
    requires uid in ws[j].flights && ws[j].flights[uid].phase == AtDelete
    ensures i < j && es[i] == UploadActs(uid, CheckCompletion)
    ensures uid in ws[i].flights && ws[i].flights[uid].sid == ws[j].flights[uid].sid
    ensures var sid := ws[j].flights[uid].sid; sid in ws[i].sessions && ws[i].sessions[sid].IsCompleted()
    decreases j
  {
    RunStep(cfg, ws, es, j - 1);
    AtDeleteAfterStep(cfg, ws[j - 1], es[j - 1], uid);
    if es[j - 1] == UploadActs(uid, CheckCompletion) {
      i := j - 1;
    } else {
      i := ReleaseWasChecked(cfg, ws, es, j - 1, uid);
    }
  }

  lemma AtDeleteAfterStep(cfg: Config, w: World, e: Event, uid: nat)
    requires Enabled(cfg, w, e) && uid in Step(cfg, w, e).flights && Step(cfg, w, e).flights[uid].phase == AtDelete
    ensures uid in w.flights && w.flights[uid].sid == Step(cfg, w, e).flights[uid].sid
    ensures if e == UploadActs(uid, CheckCompletion) then
        var sid := w.flights[uid].sid; sid in w.sessions && w.sessions[sid].IsCompleted()
      else Step(cfg, w, e).flights[uid] == w.flights[uid]
  {
    if uid in w.flights {
      FlightStep(cfg, w, e, uid);
    } else {
      NewFlightCreates(cfg, w, e, uid);
    }
  }

  /** A session released as completed had, for every file of positive size, an upload that received at least that many
      bytes, whatever the interleaving, unless a size was announced negative. */
  lemma ReleasedWasReceived(cfg: Config, ws: seq<World>, es: seq<Event>, j: nat, uid: nat, fileId: string)
    requires IsRun(cfg, ws, es) && Starts(ws[0]) && j < |es| && es[j] == UploadActs(uid, Release)
    ensures uid in ws[j].flights && ws[j].flights[uid].sid in ws[j].sessions
    ensures var sid := ws[j].flights[uid].sid;
      var s := ws[j].sessions[sid];
      Sized(s) && fileId in s.metadata && s.metadata[fileId].size > 0 ==>
        HasSent(ws[j].flights, sid, fileId, s.metadata[fileId].size)
  {
    RunStep(cfg, ws, es, j);
    var sid := ws[j].flights[uid].sid;
    var s := ws[j].sessions[sid];
    if Sized(s) && fileId in s.metadata && s.metadata[fileId].size > 0 {
      var i := ReleaseWasChecked(cfg, ws, es, j, uid);
      RemovalIsPermanent(cfg, ws, es, i, j, sid);
      CompletedWasReceived(cfg, ws, es, i, sid, fileId);
      SentEndures(cfg, ws, es, i, j, sid, fileId, s.metadata[fileId].size);
    }
  }

  lemma SentEndures(cfg: Config, ws: seq<World>, es: seq<Event>, i: nat, j: nat, sid: Uuid, fileId: string, n: int)
    requires IsRun(cfg, ws, es) && i <= j < |ws| && HasSent(ws[i].flights, sid, fileId, n)
    ensures HasSent(ws[j].flights, sid, fileId, n)
  {
    var uid :| Sent(ws[i].flights, uid, sid, fileId, n);
    FlightsProgress(cfg, ws, es, i, j, uid);
    assert Sent(ws[j].flights, uid, sid, fileId, n);
  }

  // ----- a completion is never lost -----

  predicate UploadOf(flights: Flights, uid: nat, sid: Uuid) {
    uid in flights && flights[uid].sid == sid
  }

  predicate Answered(f: Flight) {
    f.phase == Finished(None)
  }

  /** Some upload of the session has not been answered 200. */
  ghost predicate Unanswered(flights: Flights, sid: Uuid) {
    exists uid :: UploadOf(flights, uid, sid) && !Answered(flights[uid])
  }

  ghost predicate NoneAnswered(flights: Flights, sid: Uuid) {
    forall uid :: UploadOf(flights, uid, sid) ==> !Answered(flights[uid])
  }

  /** A stored session that has completed has an upload still to check it, or that failed, or never had one answered. */
  ghost predicate Awaited(w: World, sid: Uuid) {
    sid in w.stored && sid in w.sessions && w.sessions[sid].IsCompleted() ==>
      Unanswered(w.flights, sid) || NoneAnswered(w.flights, sid)
  }

  lemma StepKeepsAwaited(cfg: Config, w: World, e: Event, sid: Uuid)
    requires Enabled(cfg, w, e) && sid in w.sessions && Awaited(w, sid)
    ensures Awaited(Step(cfg, w, e), sid)
  {
    var w' := Step(cfg, w, e);
    ProgressAfterStep(cfg, w, e, sid);
    StepOnSession(cfg, w, e, sid);
    if sid in w'.stored && w'.sessions[sid].IsCompleted() {
      if sid !in w.stored {
        StepStores(cfg, w, e, sid);
      } else if e.UploadActs? && UploadOf(w.flights, e.uid, sid) {
        FlightStep(cfg, w, e, e.uid);
        ActorUnanswered(cfg, w, e.uid, e.action);
        assert UploadOf(w'.flights, e.uid, sid) && !Answered(w'.flights[e.uid]);
      } else if Unanswered(w.flights, sid) {
        var uid :| UploadOf(w.flights, uid, sid) && !Answered(w.flights[uid]);
        FlightStep(cfg, w, e, uid);
        assert UploadOf(w'.flights, uid, sid) && !Answered(w'.flights[uid]);
      } else {
        forall uid | UploadOf(w'.flights, uid, sid)
          ensures !Answered(w'.flights[uid])
        {
          if uid in w.flights {
            FlightStep(cfg, w, e, uid);
          } else {
            NewFlightCreates(cfg, w, e, uid);
          }
        }
      }
    }
  }

  /** An upload whose action leaves its session stored and completed has not just been answered. */
  lemma ActorUnanswered(cfg: Config, w: World, uid: nat, a: Action)
    requires Enabled(cfg, w, UploadActs(uid, a))
    requires var sid := w.flights[uid].sid;
      && sid in Act(cfg, w, uid, a).stored
      && sid in Act(cfg, w, uid, a).sessions && Act(cfg, w, uid, a).sessions[sid].IsCompleted()
    ensures !Answered(Act(cfg, w, uid, a).flights[uid])
  {
    ActReports(cfg, w, uid, a, w.flights[uid].sid);
  }

  lemma {:induction false} SessionsAwaited(cfg: Config, ws: seq<World>, es: seq<Event>, i: nat, sid: Uuid)
    requires IsRun(cfg, ws, es) && Starts(ws[0]) && i < |ws|
    ensures Awaited(ws[i], sid)
  {
    if i > 0 {
      SessionsAwaited(cfg, ws, es, i - 1, sid);
      RunStep(cfg, ws, es, i - 1);
      if sid in ws[i - 1].sessions {
        StepKeepsAwaited(cfg, ws[i - 1], es[i - 1], sid);
      } else if sid in ws[i].sessions {
        SessionsConserved(cfg, ws, es, i - 1);
        CreatedHasNoUploads(cfg, ws[i - 1], es[i - 1], sid);
      }
    }
  }

  lemma CreatedHasNoUploads(cfg: Config, w: World, e: Event, sid: Uuid)
    requires Enabled(cfg, w, e) && NoDangling(w) && sid !in w.sessions && sid in Step(cfg, w, e).sessions
    ensures NoneAnswered(Step(cfg, w, e).flights, sid)
  {
    CreatedByAnswer(cfg, w, e, sid);
  }

  /** Once every upload of a session has been answered 200, there having been one, and the session has completed, it is
      gone, in every interleaving. */
  lemma CompletionIsNotLost(cfg: Config, ws: seq<World>, es: seq<Event>, i: nat, sid: Uuid, uid: nat)
    requires IsRun(cfg, ws, es) && Starts(ws[0]) && i < |ws|
    requires sid in ws[i].sessions && ws[i].sessions[sid].IsCompleted()
    requires UploadOf(ws[i].flights, uid, sid)
    requires forall other :: UploadOf(ws[i].flights, other, sid) ==> Answered(ws[i].flights[other])
    ensures sid !in ws[i].stored
  {
    SessionsAwaited(cfg, ws, es, i, sid);
  }
}
