/** The receiver: handlers that update the directory and the session table in place. */
module Server {
  import opened Protocol
  import opened Names
  import opened Sessions
  import opened Manager
  import opened Transfers
  import opened Receiver
  import opened Answers

  /** The request body, together with what the rest of the program does while it is copied. */
  class BodyReader {
    const turns: seq<Turn>
    var pos: nat

    constructor (turns: seq<Turn>)
      ensures this.turns == turns && pos == 0
    {
      this.turns, pos := turns, 0;
    }

    /** Whether somebody deletes the session before the next loop head looks. */
    method Interferes() returns (deleted: bool)
      ensures deleted <==> pos < |turns| && turns[pos].deleted
    {
      deleted := pos < |turns| && turns[pos].deleted;
    }

    method Read(buffer: array<Byte>) returns (nr: nat, er: ReadError)
      requires buffer.Length == BUFFER_SIZE
      modifies buffer
      ensures nr <= buffer.Length
      ensures pos < |turns| ==> buffer[..nr] == turns[pos].data && er == turns[pos].err
      ensures pos >= |turns| ==> nr == 0 && er == ReadFailure
    {
      if pos >= |turns| {
        return 0, ReadFailure;
      }
      var data := turns[pos].data;
      nr, er := |data|, turns[pos].err;
      forall i | 0 <= i < nr {
        buffer[i] := data[i];
      }
    }

    /** How far the disk gets with the bytes just read, and the time of the report about them. */
    method WriteOutcome() returns (nw: nat, failed: bool, at: int)
      requires pos < |turns|
      ensures nw == turns[pos].nw && failed == turns[pos].writeFails && at == turns[pos].at
    {
      nw, failed, at := turns[pos].nw, turns[pos].writeFails, turns[pos].at;
    }

    method Advance()
      requires pos < |turns|
      modifies this`pos
      ensures pos == old(pos) + 1
    {
      pos := pos + 1;
    }
  }

  class Server {
    const cfg: Config
    const mgr: SessionManager
    var disk: Disk

    ghost predicate Valid()
      reads this, mgr, mgr.uuids, mgr.sessions.Values
    {
      mgr.Valid() && mgr.timeout == cfg.timeout
    }

    ghost function View(): State
      reads this, mgr
    {
      State(disk, mgr.table)
    }

    constructor (cfg: Config, disk: Disk)
      ensures Valid() && View() == State(disk, map[])
      ensures this.cfg == cfg && fresh(mgr) && fresh(mgr.uuids)
    {
      var uuids := new UuidSupply();
      var m := new SessionManager(cfg.timeout, uuids);
      this.cfg, this.disk, mgr := cfg, disk, m;
    }

    method AreAllFilesDuplicate(files: map<string, FileMetadata>) returns (duplicate: bool)
      ensures duplicate == AllDuplicate(disk, files) == AllThere(disk, files)
    {
      if files == map[] {
        return false;
      }
      var rest := files.Keys;
      while rest != {}
        invariant rest <= files.Keys
        invariant forall id :: id in files && id !in rest ==>
          Base(files[id].fileName) in disk && |disk[Base(files[id].fileName)]| == files[id].size
        decreases rest
      {
        var id :| id in rest;
        var name := Base(files[id].fileName);
        if name !in disk || |disk[name]| != files[id].size {
          return false;
        }
        rest := rest - {id};
      }
      duplicate := true;
    }

    method FilterAcceptedFiles(files: map<string, FileMetadata>, decision: Decision)
      returns (filtered: map<string, FileMetadata>)
      ensures filtered == Filtered(decision, files)
      ensures forall id :: id in filtered <==> id in files && Wanted(decision, id)
      ensures forall id :: id in filtered ==> filtered[id] == files[id]
    {
      filtered := map[];
      if !decision.accepted {
        return;
      }
      var rest := files.Keys;
      while rest != {}
        invariant rest <= files.Keys
        invariant forall id :: id in filtered <==>
          id in files && id !in rest && (decision.chosen.None? || id in decision.chosen.value)
        invariant forall id :: id in filtered ==> filtered[id] == files[id]
        decreases rest
      {
        var id :| id in rest;
        if decision.chosen.None? || id in decision.chosen.value {
          filtered := filtered[id := files[id]];
        }
        rest := rest - {id};
      }
    }

    /** Steps 1 to 3 of the prepare handler: everything that can be answered without the user. */
    method PrepareGate(req: PrepareRequest, now: int) returns (gate: Option<nat>)
      requires Valid()
      ensures gate == Gate(cfg, View(), req, now)
      ensures gate.None? <==> Admissible(cfg, View(), req, now)
      ensures gate == Some(401) <==> req.isPost && cfg.pin != "" && req.pin != cfg.pin
    {
      GateExactly(cfg, View(), req, now);
      if !req.isPost {
        return Some(STATUS_METHOD_NOT_ALLOWED);
      }
      if cfg.pin != "" && req.pin != cfg.pin {
        return Some(STATUS_UNAUTHORIZED);
      }
      if cfg.strictTLS && req.cert.None? {
        return Some(STATUS_FORBIDDEN);
      }
      if req.files.None? {
        return Some(STATUS_BAD_REQUEST);
      }
      var duplicate := AreAllFilesDuplicate(req.files.value);
      if duplicate {
        return Some(STATUS_NO_CONTENT);
      }
      var busy := mgr.IsBusy(now);
      gate := if busy then Some(STATUS_CONFLICT) else None;
    }

    method HandlePrepareUpload(req: PrepareRequest, decision: Decision, now: int) returns (resp: PrepareResponse)
      requires Valid()
      modifies mgr, mgr.uuids
      ensures Valid()
      ensures resp.Refused? ==> forall sid, tokens ::
        (View(), resp) == Prepare(cfg, old(View()), req, decision, now, sid, tokens)
      ensures resp.Granted? ==>
        && resp.sid !in old(mgr.sessions)
        && req.files.Some? && resp.tokens.Keys == Filtered(decision, req.files.value).Keys
        && (View(), resp) == Prepare(cfg, old(View()), req, decision, now, resp.sid, resp.tokens)
      ensures resp.Refused? ==> View() == old(View())
      ensures resp.Granted? <==>
        old(Admissible(cfg, View(), req, now)) && exists id :: id in req.files.value && Wanted(decision, id)
      ensures resp.Granted? ==> forall id :: id in resp.tokens <==> id in req.files.value && Wanted(decision, id)
      ensures forall id :: id in mgr.sessions ==>
        (id in old(mgr.sessions) && mgr.sessions[id] == old(mgr.sessions)[id]) || fresh(mgr.sessions[id])
    {
      var gate := PrepareGate(req, now);
      if gate.Some? {
        return Refused(gate.value);
      }
      var filtered := FilterAcceptedFiles(req.files.value, decision);
      if filtered == map[] {
        return Refused(STATUS_FORBIDDEN);
      }
      var clientVerified := req.cert.Some? && req.fingerprint == req.cert.value;
      var s := mgr.CreateSession(req.remoteIP, clientVerified, filtered, now);
      resp := Granted(s.id, s.files);
    }

    /** One turn of the copy loop: look at the cancel flag, read, write, report. */
    method CopyTurn(sess: UploadSession, fileId: string, path: string, hashed: Bytes, written: nat,
                    reader: BodyReader, buffer: array<Byte>)
      returns (hashed': Bytes, written': nat, verdict: Verdict)
      requires path in disk && !sess.canceled && buffer.Length == BUFFER_SIZE
      modifies this`disk, mgr`sessions, sess, buffer
      ensures mgr.sessions == if sess.canceled then old(mgr.sessions) - {sess.id} else old(mgr.sessions)
      ensures path in disk && disk == old(disk)[path := disk[path]]
      ensures reader.pos < |reader.turns| ==>
        (Transfer(disk[path], hashed', written'), sess.View(), verdict) ==
        Iterate(Transfer(old(disk)[path], hashed, written), old(sess.View()), fileId, reader.turns[reader.pos])
      ensures reader.pos >= |reader.turns| ==>
        disk == old(disk) && hashed' == hashed && written' == written
        && sess.View() == old(sess.View()) && verdict == Abort(ReadFailed)
    {
      hashed', written' := hashed, written;
      var deleted := reader.Interferes();
      if deleted {
        mgr.sessions := mgr.sessions - {sess.id};
        sess.CancelContext();
      }
      if sess.canceled {
        return hashed, written, Abort(UploadCanceled);
      }
      var nr, er := reader.Read(buffer);
      if nr > 0 {
        var nw, ew, at := reader.WriteOutcome();
        assert buffer[..nr][..nw] == buffer[..nw];
        disk := disk[path := disk[path] + buffer[..nw]];
        if nw == nr && !ew {
          hashed' := hashed' + buffer[..nr];
        }
        if nw > 0 {
          written' := written' + nw;
          sess.UpdateProgress(fileId, written', at);
        }
        if ew {
          return hashed', written', Abort(WriteError);
        }
        if nr != nw {
          return hashed', written', Abort(ShortWrite);
        }
      }
      verdict := match er
        case NoError => Continue
        case EndOfBody => Verify
        case ReadFailure => Abort(ReadFailed);
    }

    /** The copy loop, up to the end of the body or the first failure. */
    method CopyBody(sess: UploadSession, fileId: string, path: string, reader: BodyReader)
      returns (end: Option<Failure>, hashed: Bytes)
      requires path in disk && disk[path] == [] && !sess.canceled && reader.pos == 0
      modifies this`disk, mgr`sessions, sess, reader
      ensures mgr.sessions == if sess.canceled then old(mgr.sessions) - {sess.id} else old(mgr.sessions)
      ensures var (t, s, f) := Loop(EMPTY_TRANSFER, old(sess.View()), fileId, reader.turns);
        && disk == old(disk)[path := t.content] && hashed == t.hashed && sess.View() == s && end == f
    {
      hashed := [];
      var written := 0;
      var buffer := new Byte[BUFFER_SIZE];
      ghost var result := Loop(EMPTY_TRANSFER, sess.View(), fileId, reader.turns);
      assert reader.turns[reader.pos..] == reader.turns;
      while true
        invariant mgr.sessions == old(mgr.sessions) && !sess.canceled
        invariant path in disk && disk == old(disk)[path := disk[path]]
        invariant 0 <= reader.pos <= |reader.turns|
        invariant result ==
          Loop(Transfer(disk[path], hashed, written), sess.View(), fileId, reader.turns[reader.pos..])
        decreases |reader.turns| - reader.pos
      {
        ghost var rest := reader.turns[reader.pos..];
        assert rest != [] ==> rest[0] == reader.turns[reader.pos];
        var verdict;
        hashed, written, verdict := CopyTurn(sess, fileId, path, hashed, written, reader, buffer);
        if verdict.Abort? {
          return Some(verdict.failure), hashed;
        }
        if verdict.Verify? {
          return None, hashed;
        }
        reader.Advance();
        assert rest[1..] == reader.turns[reader.pos..];
      }
    }

    method CopyToNewFile(sess: UploadSession, fileId: string, path: string, reader: BodyReader)
      returns (end: Option<Failure>, hashed: Bytes)
      requires !sess.canceled && reader.pos == 0
      modifies this`disk, mgr`sessions, sess, reader
      ensures mgr.sessions == if sess.canceled then old(mgr.sessions) - {sess.id} else old(mgr.sessions)
      ensures var (t, s, f) := Loop(EMPTY_TRANSFER, old(sess.View()), fileId, reader.turns);
        && disk == old(disk)[path := t.content] && hashed == t.hashed && sess.View() == s && end == f
    {
      disk := disk[path := []];
      end, hashed := CopyBody(sess, fileId, path, reader);
    }

    /** The copy loop seen from the session table: only this session changes, or goes. */
    method ReceiveBody(sess: UploadSession, fileId: string, path: string, reader: BodyReader)
      returns (end: Option<Failure>, hashed: Bytes)
      requires Valid() && sess.id in mgr.sessions && mgr.sessions[sess.id] == sess
      requires reader.pos == 0
      modifies this`disk, mgr, sess, reader
      ensures Valid()
      ensures mgr.sessions == if sess.canceled then old(mgr.sessions) - {sess.id} else old(mgr.sessions)
      ensures var (t, s, f) := Loop(EMPTY_TRANSFER, old(mgr.table)[sess.id], fileId, reader.turns);
        && disk == old(disk)[path := t.content] && hashed == t.hashed && end == f && sess.canceled == s.canceled
        && mgr.table == if s.canceled then old(mgr.table) - {sess.id} else old(mgr.table)[sess.id := s]
    {
      ghost var sessions := mgr.sessions;
      assert mgr.Agrees(sess.id, sess);
      end, hashed := CopyToNewFile(sess, fileId, path, reader);
      forall id | id in sessions && id != sess.id
        ensures mgr.Agrees(id, sessions[id])
      {
        assert old(mgr.Agrees(id, mgr.sessions[id]));
        assert sessions[id] != sess;
      }
      mgr.Resync(sess);
    }

    method SettleFile(path: string, meta: FileMetadata, hashed: Bytes, end: Option<Failure>)
      returns (result: SaveResult)
      requires Valid()
      modifies this`disk
      ensures Valid()
      ensures (disk, result) == Settle(cfg, old(disk), path, meta, hashed, end)
      ensures disk - {path} == old(disk) - {path}
      ensures path in old(disk) ==> (path in disk <==> result.Saved? || !RollsBack(result.failure))
    {
      if end.Some? {
        if RollsBack(end.value) {
          disk := disk - {path};
        }
        return Failed(end.value);
      }
      if meta.sha256 != "" {
        if !EqualFold(cfg.digest(hashed), meta.sha256) {
          disk := disk - {path};
          return Failed(ChecksumMismatch);
        }
      }
      result := Saved(path);
    }

    /** A new file for the body, the copy loop, and the checksum. */
    method SaveToNewFile(sess: UploadSession, meta: FileMetadata, createFails: bool, reader: BodyReader, ghost at: int)
      returns (result: SaveResult)
      requires Valid() && sess.id in mgr.sessions && mgr.sessions[sess.id] == sess
      requires reader.pos == 0
      modifies this`disk, mgr, sess, reader
      ensures Valid()
      ensures mgr.sessions == if sess.canceled then old(mgr.sessions) - {sess.id} else old(mgr.sessions)
      ensures sess.canceled <==> result == Failed(UploadCanceled)
      ensures (View(), result) ==
        Save(cfg, old(View()), sess.id, meta, Body(at, createFails, reader.turns))
    {
      LoopAccounts(EMPTY_TRANSFER, mgr.table[sess.id], meta.id, reader.turns);
      assert mgr.Agrees(sess.id, sess);
      var savedPath, probes := GetUniquePath(disk, meta.fileName);
      if createFails {
        return Failed(CreateFailed);
      }
      var end, hashed := ReceiveBody(sess, meta.id, savedPath, reader);
      result := SettleFile(savedPath, meta, hashed, end);
    }

    method SaveUploadedFile(sess: UploadSession, meta: FileMetadata, createFails: bool, reader: BodyReader,
                            ghost at: int)
      returns (result: SaveResult)
      requires Valid() && sess.id in mgr.sessions && mgr.sessions[sess.id] == sess
      requires reader.pos == 0
      modifies this`disk, mgr, sess, reader
      ensures Valid()
      ensures mgr.sessions == if sess.canceled then old(mgr.sessions) - {sess.id} else old(mgr.sessions)
      ensures sess.canceled <==> result == Failed(UploadCanceled)
      ensures (View(), result) ==
        Save(cfg, old(View()), sess.id, meta, Body(at, createFails, reader.turns))
      ensures !createFails && CleanBody(reader.turns) ==> (result.Saved? <==>
        meta.sha256 == "" || EqualFold(cfg.digest(Delivered(reader.turns)), meta.sha256))
    {
      assert mgr.Agrees(sess.id, sess);
      SavedIff(cfg, View(), sess.id, meta, Body(at, createFails, reader.turns));
      result := SaveToNewFile(sess, meta, createFails, reader, at);
    }

    method ValidateUploadRequest(req: UploadRequest, now: int)
      returns (status: nat, sess: Option<UploadSession>, meta: Option<FileMetadata>)
      requires Valid()
      modifies mgr`table, if req.sid in mgr.sessions then {mgr.sessions[req.sid]} else {}
      ensures Valid() && mgr.sessions == old(mgr.sessions)
      ensures req.sid !in mgr.sessions ==> mgr.table == old(mgr.table) && status == STATUS_BAD_REQUEST
      ensures req.sid in mgr.sessions ==>
        && mgr.table == Touch(old(View()), req.sid, now).table
        && var rejection := Rejection(cfg, mgr.table[req.sid], req);
          status == (if rejection.Some? then rejection.value else STATUS_OK)
      ensures status == 200 <==> req.sid in mgr.sessions && !Inadmissible(cfg, old(mgr.table)[req.sid], req)
      ensures status == STATUS_OK ==>
        && req.sid in mgr.sessions && sess == Some(mgr.sessions[req.sid])
        && req.fileId in mgr.table[req.sid].metadata && meta == Some(mgr.table[req.sid].metadata[req.fileId])
    {
      sess := mgr.GetSession(req.sid, now);
      if sess.None? {
        return STATUS_BAD_REQUEST, None, None;
      }
      assert mgr.Agrees(req.sid, sess.value);
      var found := sess.value.GetFileTokenAndMeta(req.fileId);
      if found.None? || found.value.0 != req.token {
        return STATUS_BAD_REQUEST, None, None;
      }
      meta := Some(found.value.1);
      if req.remoteIP != sess.value.clientIP {
        return STATUS_FORBIDDEN, None, None;
      }
      if cfg.strictTLS {
        if req.cert.None? || !sess.value.clientVerified {
          return STATUS_FORBIDDEN, None, None;
        }
        if meta.value.id == "" {
          return STATUS_INTERNAL, None, None;
        }
      }
      status := STATUS_OK;
    }

    method ReleaseIfCompleted(sess: UploadSession)
      requires Valid() && sess.id in mgr.sessions && mgr.sessions[sess.id] == sess
      modifies mgr, sess
      ensures Valid()
      ensures mgr.table == if old(mgr.table)[sess.id].IsCompleted() then old(mgr.table) - {sess.id} else old(mgr.table)
      ensures sess.canceled == old(mgr.table)[sess.id].IsCompleted()
      ensures mgr.sessions == if sess.canceled then old(mgr.sessions) - {sess.id} else old(mgr.sessions)
    {
      assert mgr.Agrees(sess.id, sess);
      if |sess.completedFiles| == |sess.filesMetadata| {
        mgr.DeleteSession(sess.id);
      }
    }

    /** The upload handler after validation. */
    method AcceptUpload(sess: UploadSession, meta: FileMetadata, createFails: bool, reader: BodyReader, ghost at: int)
      returns (status: nat)
      requires Valid() && sess.id in mgr.sessions && mgr.sessions[sess.id] == sess
      requires reader.pos == 0
      modifies this`disk, mgr, sess, reader
      ensures Valid()
      ensures mgr.sessions == if sess.canceled then old(mgr.sessions) - {sess.id} else old(mgr.sessions)
      ensures (View(), status) ==
        Accept(cfg, old(View()), sess.id, meta, Body(at, createFails, reader.turns))
    {
      var result := SaveUploadedFile(sess, meta, createFails, reader, at);
      if result.Failed? {
        return StatusOf(result.failure);
      }
      ReleaseIfCompleted(sess);
      status := STATUS_OK;
    }

    /** The reader stands for the request body; at and createFails are what the clock and os.Create do. */
    method HandleUpload(req: UploadRequest, at: int, createFails: bool, reader: BodyReader) returns (status: nat)
      requires Valid() && reader.pos == 0
      modifies this`disk, mgr, reader, if req.sid in mgr.sessions then {mgr.sessions[req.sid]} else {}
      ensures Valid() && mgr.sessions.Keys <= old(mgr.sessions.Keys)
      ensures forall id :: id in mgr.sessions ==> mgr.sessions[id] == old(mgr.sessions)[id]
      ensures (View(), status) == Upload(cfg, old(View()), req, Body(at, createFails, reader.turns))
    {
      if !req.isPost {
        return STATUS_METHOD_NOT_ALLOWED;
      }
      var sess, meta;
      status, sess, meta := ValidateUploadRequest(req, at);
      if status != STATUS_OK {
        return;
      }
      status := AcceptUpload(sess.value, meta.value, createFails, reader, at);
    }

    method HandleCancel(isPost: bool, sid: Uuid) returns (status: nat)
      requires Valid()
      modifies mgr, if sid in mgr.sessions then {mgr.sessions[sid]} else {}
      ensures Valid() && mgr.sessions == (if isPost then old(mgr.sessions) - {sid} else old(mgr.sessions))
      ensures (View(), status) == Cancel(old(View()), isPost, sid)
      ensures status == (if isPost then 200 else 405)
      ensures isPost && sid in old(mgr.sessions) ==> old(mgr.sessions[sid]).canceled
    {
      if !isPost {
        return STATUS_METHOD_NOT_ALLOWED;
      }
      mgr.DeleteSession(sid);
      status := STATUS_OK;
    }
  }
}
