/** Which request the receiver answers how, condition by condition. */
module Answers {
  import opened Protocol
  import opened Names
  import opened Sessions
  import opened Transfers
  import opened Receiver

  // ----- prepare-upload -----

  /** A POST with the right PIN, if one is asked for, and with a certificate, if one is demanded. */
  predicate Known(cfg: Config, req: PrepareRequest) {
    req.isPost && (cfg.pin == "" || req.pin == cfg.pin) && (cfg.strictTLS ==> req.cert.Some?)
  }

  /** There are files, and each is in the directory under its base name with its size. */
  predicate AllThere(disk: Disk, files: map<string, FileMetadata>) {
    (exists id :: id in files) &&
    forall id :: id in files ==>
      Base(files[id].fileName) in disk && |disk[Base(files[id].fileName)]| == files[id].size
  }

  predicate SomeoneLive(cfg: Config, st: State, now: int) {
    exists sid :: sid in st.table && now < st.table[sid].lastAccess + cfg.timeout
  }

  /** A request that reaches the user. */
  predicate Admissible(cfg: Config, st: State, req: PrepareRequest, now: int) {
    Known(cfg, req) && req.files.Some? && !AllThere(st.disk, req.files.value) && !SomeoneLive(cfg, st, now)
  }

  lemma GateExactly(cfg: Config, st: State, req: PrepareRequest, now: int)
    ensures Gate(cfg, st, req, now) == Some(405) <==> !req.isPost
    ensures Gate(cfg, st, req, now) == Some(401) <==> req.isPost && cfg.pin != "" && req.pin != cfg.pin
    ensures Gate(cfg, st, req, now) == Some(403) <==>
      req.isPost && (cfg.pin == "" || req.pin == cfg.pin) && cfg.strictTLS && req.cert.None?
    ensures Gate(cfg, st, req, now) == Some(400) <==> Known(cfg, req) && req.files.None?
    ensures Gate(cfg, st, req, now) == Some(204) <==>
      Known(cfg, req) && req.files.Some? && AllThere(st.disk, req.files.value)
    ensures Gate(cfg, st, req, now) == Some(409) <==>
      && Known(cfg, req) && req.files.Some? && !AllThere(st.disk, req.files.value) && SomeoneLive(cfg, st, now)
    ensures Gate(cfg, st, req, now).None? <==> Admissible(cfg, st, req, now)
  {
  }

  /** The user wants this file. */
  predicate Wanted(decision: Decision, id: string) {
    decision.accepted && (decision.chosen.None? || id in decision.chosen.value)
  }

  /** A prepare request is granted if and only if it reaches the user, who wants some file; every refusal has its own
      status and changes nothing. */
  lemma PrepareExactly(cfg: Config, st: State, req: PrepareRequest, decision: Decision, now: int,
                       sid: Uuid, tokens: map<string, Uuid>)
    ensures var (st', resp) := Prepare(cfg, st, req, decision, now, sid, tokens);
      && (resp.Granted? <==>
        Admissible(cfg, st, req, now) && exists id :: id in req.files.value && Wanted(decision, id))
      && (resp.Refused? ==> st' == st)
      && (resp == Refused(405) <==> !req.isPost)
      && (resp == Refused(401) <==> req.isPost && cfg.pin != "" && req.pin != cfg.pin)
      && (resp == Refused(400) <==> Known(cfg, req) && req.files.None?)
      && (resp == Refused(204) <==> Known(cfg, req) && req.files.Some? && AllThere(st.disk, req.files.value))
      && (resp == Refused(409) <==> && Known(cfg, req) && req.files.Some? && !AllThere(st.disk, req.files.value)
                                    && SomeoneLive(cfg, st, now))
      && (resp == Refused(403) <==>
        || (req.isPost && (cfg.pin == "" || req.pin == cfg.pin) && cfg.strictTLS && req.cert.None?)
        || (Admissible(cfg, st, req, now) && forall id :: id in req.files.value ==> !Wanted(decision, id)))
  {
    GateExactly(cfg, st, req, now);
    if Admissible(cfg, st, req, now) {
      FilteredExactly(decision, req.files.value);
    }
  }

  lemma FilteredExactly(decision: Decision, files: map<string, FileMetadata>)
    ensures forall id :: id in Filtered(decision, files) <==> id in files && Wanted(decision, id)
    ensures forall id :: id in Filtered(decision, files) ==> Filtered(decision, files)[id] == files[id]
    ensures Filtered(decision, files) == map[] <==> forall id :: id in files ==> !Wanted(decision, id)
  {
    if id :| id in files && Wanted(decision, id) {
      assert id in Filtered(decision, files);
    }
  }

  /** What a grant stores: one session, for exactly the files that the user wants, as they were announced, bound to the
      sender's address, and verified exactly if the sender announced the fingerprint of its certificate. */
  lemma GrantExactly(cfg: Config, st: State, req: PrepareRequest, decision: Decision, now: int,
                     sid: Uuid, tokens: map<string, Uuid>)
    requires Prepare(cfg, st, req, decision, now, sid, tokens).1.Granted?
    ensures req.files.Some?
    ensures var (st', resp) := Prepare(cfg, st, req, decision, now, sid, tokens);
      && resp == Granted(sid, tokens)
      && st'.disk == st.disk && sid in st'.table && st'.table == st.table[sid := st'.table[sid]]
      && var s := st'.table[sid];
        && (forall id :: id in s.metadata <==> id in req.files.value && Wanted(decision, id))
        && (forall id :: id in s.metadata ==> s.metadata[id] == req.files.value[id])
        && s.files == tokens && s.clientIP == req.remoteIP
        && (s.clientVerified <==> req.cert == Some(req.fingerprint))
        && s.lastAccess == now && !s.canceled
        && s.progress.Keys == s.metadata.Keys && (forall id :: id in s.progress ==> s.progress[id] == 0)
  {
    GateExactly(cfg, st, req, now);
    FilteredExactly(decision, req.files.value);
  }

  // ----- upload -----

  /** An upload request of a stored session that is refused before its body is read. */
  predicate Inadmissible(cfg: Config, s: Session, req: UploadRequest) {
    || req.fileId !in s.files || req.fileId !in s.metadata || req.token != s.files[req.fileId]
    || req.remoteIP != s.clientIP
    || (cfg.strictTLS && (req.cert.None? || !s.clientVerified || s.metadata[req.fileId].id == ""))
  }

  /** Every refusal of an upload has its own status; it leaves the directory alone, and of the table at most the access
      time of the session named. */
  lemma RefusedUpload(cfg: Config, st: State, req: UploadRequest, body: Body)
    ensures var (st', status) := Upload(cfg, st, req, body);
      if !req.isPost then st' == st && status == 405
      else if req.sid !in st.table then st' == st && status == 400
      else
        var s := st.table[req.sid];
        Inadmissible(cfg, s, req) ==>
          && st'.disk == st.disk && st'.table == st.table[req.sid := s.(lastAccess := body.at)]
          && (status == 400 <==>
            req.fileId !in s.files || req.fileId !in s.metadata || req.token != s.files[req.fileId])
          && (status == 500 <==>
            && req.fileId in s.files && req.fileId in s.metadata && req.token == s.files[req.fileId]
            && req.remoteIP == s.clientIP && req.cert.Some? && s.clientVerified)
          && status in {400, 403, 500}
  {
  }

  /** Every other upload is accepted: its body decides. One that arrives without trouble is answered 200 or 422 by its
      checksum alone; one for which no file can be created is answered 500. */
  lemma AcceptedUpload(cfg: Config, st: State, req: UploadRequest, body: Body)
    requires req.isPost && req.sid in st.table && !st.table[req.sid].canceled
    requires !Inadmissible(cfg, st.table[req.sid], req)
    ensures var (st', status) := Upload(cfg, st, req, body);
      var meta, bytes := st.table[req.sid].metadata[req.fileId], Delivered(body.turns);
      && (body.createFails ==> status == 500 && st'.disk == st.disk)
      && (!body.createFails && CleanBody(body.turns) ==>
        if meta.sha256 == "" || EqualFold(cfg.digest(bytes), meta.sha256)
        then status == 200 && st'.disk == st.disk[UniqueName(st.disk.Keys, meta.fileName) := bytes]
        else status == 422 && st'.disk == st.disk)
  {
    if !body.createFails && CleanBody(body.turns) {
      var touched := Touch(st, req.sid, body.at);
      SavedExactlyIf(cfg, touched, req.sid, st.table[req.sid].metadata[req.fileId], body);
    }
  }
}
