/** Every accepted upload is justified by what happened before it. */
module WorldHistory {
  import opened Protocol
  import opened Sessions
  import opened Receiver
  import opened Answers
  import opened World
  import opened WorldSessions

  /** Event i is the answer to the prepare request pid that granted this session. */
  ghost predicate GrantedAt(cfg: Config, ws: seq<World>, es: seq<Event>, i: nat, sid: Uuid, s: Session)
    requires IsRun(cfg, ws, es)
  {
    && i < |es| && es[i].PrepareAnswered? && es[i].sid == sid && es[i].pid in ws[i].preparing
    && ws[i].preparing[es[i].pid].files.Some?
    && sid !in ws[i].sessions
    && var req, e := ws[i].preparing[es[i].pid], es[i];
      && s.files == e.tokens
      && s.metadata == Filtered(e.decision, req.files.value)
      && s.clientIP == req.remoteIP
      && s.clientVerified == ClientVerified(req)
  }

  lemma StoredAfterStep(cfg: Config, w: World, e: Event, sid: Uuid)
    requires Enabled(cfg, w, e) && sid in Step(cfg, w, e).stored && sid !in w.stored
    ensures e.PrepareAnswered? && e.sid == sid
    ensures sid in Step(cfg, w, e).sessions
    ensures var req := w.preparing[e.pid];
      Step(cfg, w, e).sessions[sid] ==
        NewSession(req.remoteIP, ClientVerified(req), Filtered(e.decision, req.files.value), e.tokens, w.now)
  {
  }

  /** A stored session was granted by an earlier event and has been stored ever since. */
  lemma {:induction false} StoredWasGranted(cfg: Config, ws: seq<World>, es: seq<Event>, k: nat, sid: Uuid)
    returns (i: nat)
    requires IsRun(cfg, ws, es) && Starts(ws[0]) && k < |ws| && sid in ws[k].stored && sid in ws[k].sessions
    ensures i < k && GrantedAt(cfg, ws, es, i, sid, ws[k].sessions[sid])
    ensures forall m :: i < m <= k ==> sid in ws[m].stored
    decreases k
  {
    assert k > 0;
    if sid in ws[k - 1].stored {
      StoredBefore(cfg, ws, es, k - 1, sid);
      i := StoredWasGranted(cfg, ws, es, k - 1, sid);
      SameGrantGranted(cfg, ws, es, i, sid, ws[k - 1].sessions[sid], ws[k].sessions[sid]);
    } else {
      i := k - 1;
      RunStep(cfg, ws, es, i);
      StoredAfterStep(cfg, ws[i], es[i], sid);
    }
  }

  lemma StoredBefore(cfg: Config, ws: seq<World>, es: seq<Event>, i: nat, sid: Uuid)
    requires IsRun(cfg, ws, es) && Starts(ws[0]) && i < |es| && sid in ws[i].stored
    ensures sid in ws[i].sessions && sid in ws[i + 1].sessions
    ensures SameGrant(ws[i].sessions[sid], ws[i + 1].sessions[sid])
  {
    StoredExists(cfg, ws, es, i, sid);
    RunStepOnSession(cfg, ws, es, i, sid);
  }

  lemma SameGrantGranted(cfg: Config, ws: seq<World>, es: seq<Event>, i: nat, sid: Uuid, s: Session, t: Session)
    requires IsRun(cfg, ws, es) && GrantedAt(cfg, ws, es, i, sid, s) && SameGrant(s, t)
    ensures GrantedAt(cfg, ws, es, i, sid, t)
  {
  }

  /** A pending prepare request arrived earlier and passed the gate. */
  lemma {:induction false} PendingHasArrived(cfg: Config, ws: seq<World>, es: seq<Event>, k: nat, pid: nat)
    returns (i: nat)
    requires IsRun(cfg, ws, es) && Starts(ws[0]) && k < |ws| && pid in ws[k].preparing
    ensures i < k && es[i] == PrepareArrives(pid, ws[k].preparing[pid])
    ensures Gate(cfg, Visible(ws[i]), ws[k].preparing[pid], ws[i].now).None?
    decreases k
  {
    RunStep(cfg, ws, es, k - 1);
    if pid in ws[k - 1].preparing && ws[k - 1].preparing[pid] == ws[k].preparing[pid] {
      i := PendingHasArrived(cfg, ws, es, k - 1, pid);
    } else {
      i := k - 1;
      PendingAfterStep(cfg, ws[k - 1], es[k - 1], pid);
    }
  }

  lemma PendingAfterStep(cfg: Config, w: World, e: Event, pid: nat)
    requires Enabled(cfg, w, e) && pid in Step(cfg, w, e).preparing
    requires pid !in w.preparing || w.preparing[pid] != Step(cfg, w, e).preparing[pid]
    ensures e == PrepareArrives(pid, Step(cfg, w, e).preparing[pid])
    ensures Gate(cfg, Visible(w), e.prepare, w.now).None?
  {
  }

  /** An upload that passes validation has, earlier in the run, a prepare request that passed every check, and its
      200 answer, which issued this session with this token for this file, to the same client address, for a file the
      user accepted; the session was not deleted in between. */
  lemma AcceptedUploadIsJustified(cfg: Config, ws: seq<World>, es: seq<Event>, k: nat, uid: nat, req: UploadRequest)
    returns (arrived: nat, granted: nat)
    requires IsRun(cfg, ws, es) && Starts(ws[0]) && k < |es|
    requires es[k] == UploadArrives(uid, req) && uid in ws[k + 1].flights
    ensures arrived < granted < k
    ensures es[arrived].PrepareArrives? && es[granted].PrepareAnswered? && es[granted].pid == es[arrived].pid
    ensures Admissible(cfg, Visible(ws[arrived]), es[arrived].prepare, ws[arrived].now)
    ensures cfg.pin == "" || es[arrived].prepare.pin == cfg.pin
    ensures es[granted].sid == req.sid
    ensures req.fileId in es[granted].tokens && es[granted].tokens[req.fileId] == req.token
    ensures es[arrived].prepare.remoteIP == req.remoteIP
    ensures es[arrived].prepare.files.Some?
    ensures req.fileId in es[arrived].prepare.files.value && es[granted].decision.accepted
    ensures es[granted].decision.chosen.Some? ==> req.fileId in es[granted].decision.chosen.value
    ensures cfg.strictTLS ==>
      es[arrived].prepare.cert == Some(es[arrived].prepare.fingerprint) && req.cert.Some?
    ensures forall m :: granted < m <= k ==> req.sid in ws[m].stored
  {
    RunStep(cfg, ws, es, k);
    assert req.sid in ws[k].stored && req.sid in ws[k].sessions;
    granted := StoredWasGranted(cfg, ws, es, k, req.sid);
    arrived := PendingHasArrived(cfg, ws, es, granted, es[granted].pid);
    GateExactly(cfg, Visible(ws[arrived]), es[arrived].prepare, ws[arrived].now);
    FilteredExactly(es[granted].decision, es[arrived].prepare.files.value);
  }
}
