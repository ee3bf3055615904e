/** What each request handler of the receiver does, on values. */
module Receiver {
  import opened Protocol
  import opened Names
  import opened Sessions
  import opened Manager
  import opened Transfers

  datatype State = State(disk: Disk, table: Table)

  // ----- prepare-upload -----

  predicate AllDuplicate(disk: Disk, files: map<string, FileMetadata>) {
    files != map[] &&
    forall id :: id in files ==>
      var name := Base(files[id].fileName);
      name in disk && |disk[name]| == files[id].size
  }

  /** The checks before the user is asked, in order; None means that they all pass. */
  function Gate(cfg: Config, st: State, req: PrepareRequest, now: int): Option<nat> {
    if !req.isPost then Some(STATUS_METHOD_NOT_ALLOWED)
    else if cfg.pin != "" && req.pin != cfg.pin then Some(STATUS_UNAUTHORIZED)
    else if cfg.strictTLS && req.cert.None? then Some(STATUS_FORBIDDEN)
    else if req.files.None? then Some(STATUS_BAD_REQUEST)
    else if AllDuplicate(st.disk, req.files.value) then Some(STATUS_NO_CONTENT)
    else if Busy(st.table, cfg.timeout, now) then Some(STATUS_CONFLICT)
    else None
  }

  /** The files that the user accepts; none at all is a rejection. */
  function Filtered(decision: Decision, files: map<string, FileMetadata>): map<string, FileMetadata> {
    if !decision.accepted then map[] else
    map id | id in files && (decision.chosen.None? || id in decision.chosen.value) :: files[id]
  }

  function ClientVerified(req: PrepareRequest): bool {
    req.cert.Some? && req.fingerprint == req.cert.value
  }

  function Prepare(cfg: Config, st: State, req: PrepareRequest, decision: Decision, now: int,
                   sid: Uuid, tokens: map<string, Uuid>): (State, PrepareResponse)
  {
    var gate := Gate(cfg, st, req, now);
    if gate.Some? then (st, Refused(gate.value)) else
    var accepted := Filtered(decision, req.files.value);
    if accepted == map[] then (st, Refused(STATUS_FORBIDDEN)) else
    (st.(table := st.table[sid := NewSession(req.remoteIP, ClientVerified(req), accepted, tokens, now)]),
     Granted(sid, tokens))
  }

  // ----- upload -----

  /** Why an upload request that names this session is refused; None when it is valid. */
  function Rejection(cfg: Config, s: Session, req: UploadRequest): Option<nat> {
    if req.fileId !in s.files || req.fileId !in s.metadata || s.files[req.fileId] != req.token
    then Some(STATUS_BAD_REQUEST)
    else if req.remoteIP != s.clientIP then Some(STATUS_FORBIDDEN)
    else if cfg.strictTLS && (req.cert.None? || !s.clientVerified) then Some(STATUS_FORBIDDEN)
    else if cfg.strictTLS && s.metadata[req.fileId].id == "" then Some(STATUS_INTERNAL)
    else None
  }

  /** The body of an upload and what happens meanwhile: at is when the session is looked up. */
  datatype Body = Body(at: int, createFails: bool, turns: seq<Turn>)

  datatype SaveResult = Saved(path: string) | Failed(failure: Failure)

  /** After the copy loop: the checksum, and the removal of the file on a cancel or a mismatch. */
  function Settle(cfg: Config, disk: Disk, path: string, meta: FileMetadata, hashed: Bytes, end: Option<Failure>)
    : (Disk, SaveResult)
  {
    if end.Some? then (if RollsBack(end.value) then disk - {path} else disk, Failed(end.value))
    else if !ChecksumAccepts(cfg.digest, meta, hashed) then (disk - {path}, Failed(ChecksumMismatch))
    else (disk, Saved(path))
  }

  function Save(cfg: Config, st: State, sid: Uuid, meta: FileMetadata, body: Body): (State, SaveResult)
    requires sid in st.table
  {
    if body.createFails then (st, Failed(CreateFailed)) else
    var path := UniqueName(st.disk.Keys, meta.fileName);
    var (t, s, end) := Loop(EMPTY_TRANSFER, st.table[sid], meta.id, body.turns);
    var (disk, result) := Settle(cfg, st.disk[path := t.content], path, meta, t.hashed, end);
    (State(disk, if s.canceled then st.table - {sid} else st.table[sid := s]), result)
  }

  function Touch(st: State, sid: Uuid, now: int): State
    requires sid in st.table
  {
    st.(table := st.table[sid := st.table[sid].Touched(now)])
  }

  /** A valid upload: save the file and, once every file of the session has reached its size, drop the session. */
  function Accept(cfg: Config, st: State, sid: Uuid, meta: FileMetadata, body: Body): (State, nat)
    requires sid in st.table
  {
    var (st', result) := Save(cfg, st, sid, meta, body);
    match result
    case Failed(f) => (st', StatusOf(f))
    case Saved(_) =>
      if sid in st'.table && st'.table[sid].IsCompleted() then (st'.(table := st'.table - {sid}), STATUS_OK)
      else (st', STATUS_OK)
  }

  function Upload(cfg: Config, st: State, req: UploadRequest, body: Body): (State, nat) {
    if !req.isPost then (st, STATUS_METHOD_NOT_ALLOWED)
    else if req.sid !in st.table then (st, STATUS_BAD_REQUEST)
    else
      var touched := Touch(st, req.sid, body.at);
      var s := touched.table[req.sid];
      var rejection := Rejection(cfg, s, req);
      if rejection.Some? then (touched, rejection.value)
      else Accept(cfg, touched, req.sid, s.metadata[req.fileId], body)
  }

  // ----- cancel -----

  function Cancel(st: State, isPost: bool, sid: Uuid): (State, nat) {
    if !isPost then (st, STATUS_METHOD_NOT_ALLOWED)
    else (st.(table := st.table - {sid}), STATUS_OK)
  }

  // ----- what an upload leaves behind -----

  /** Saving, by how the copy loop ends: a rollback restores the directory because the created name was free. */
  lemma SaveByLoop(cfg: Config, st: State, sid: Uuid, meta: FileMetadata, body: Body)
    requires sid in st.table && !body.createFails
    ensures var path := UniqueName(st.disk.Keys, meta.fileName);
      var (t, s, end) := Loop(EMPTY_TRANSFER, st.table[sid], meta.id, body.turns);
      var table := if s.canceled then st.table - {sid} else st.table[sid := s];
      && path !in st.disk
      && Save(cfg, st, sid, meta, body) ==
        if end == Some(UploadCanceled) then (State(st.disk, table), Failed(UploadCanceled))
        else if end.Some? then (State(st.disk[path := t.content], table), Failed(end.value))
        else if !ChecksumAccepts(cfg.digest, meta, t.hashed) then (State(st.disk, table), Failed(ChecksumMismatch))
        else (State(st.disk[path := t.content], table), Saved(path))
  {
    var path := UniqueName(st.disk.Keys, meta.fileName);
    LoopAccounts(EMPTY_TRANSFER, st.table[sid], meta.id, body.turns);
    var (t, s, end) := Loop(EMPTY_TRANSFER, st.table[sid], meta.id, body.turns);
    assert path !in st.disk;
    assert st.disk[path := t.content] - {path} == st.disk;
    assert Save(cfg, st, sid, meta, body).0.disk ==
      Settle(cfg, st.disk[path := t.content], path, meta, t.hashed, end).0;
  }

  /** A canceled or mismatching upload leaves the directory as it was. */
  lemma Rollback(cfg: Config, st: State, sid: Uuid, meta: FileMetadata, body: Body)
    requires sid in st.table
    requires Save(cfg, st, sid, meta, body).1 in
      {Failed(UploadCanceled), Failed(ChecksumMismatch), Failed(CreateFailed)}
    ensures Save(cfg, st, sid, meta, body).0.disk == st.disk
  {
    if !body.createFails {
      SaveByLoop(cfg, st, sid, meta, body);
      LoopAccounts(EMPTY_TRANSFER, st.table[sid], meta.id, body.turns);
    }
  }

  /** A saved upload adds exactly one entry, under the first free name, whose bytes are the ones counted
      and the ones the announced checksum, case folded, was compared with. */
  lemma SavedFile(cfg: Config, st: State, sid: Uuid, meta: FileMetadata, body: Body)
    requires sid in st.table && !st.table[sid].canceled
    requires Save(cfg, st, sid, meta, body).1.Saved?
    ensures var (st', result) := Save(cfg, st, sid, meta, body);
      && result.path !in st.disk && result.path in st'.disk
      && st'.disk == st.disk[result.path := st'.disk[result.path]]
      && result.path == UniqueName(st.disk.Keys, meta.fileName)
      && (meta.sha256 != "" ==> EqualFold(cfg.digest(st'.disk[result.path]), meta.sha256))
      && sid in st'.table && st'.table == st.table[sid := st'.table[sid]]
  {
    SaveByLoop(cfg, st, sid, meta, body);
    LoopAccounts(EMPTY_TRANSFER, st.table[sid], meta.id, body.turns);
  }

  /** A write error, a short write or a read error keeps the partial file; no failure touches another entry. */
  lemma FailedFile(cfg: Config, st: State, sid: Uuid, meta: FileMetadata, body: Body)
    requires sid in st.table
    requires Save(cfg, st, sid, meta, body).1.Failed?
    ensures var (st', result) := Save(cfg, st, sid, meta, body);
      var path := UniqueName(st.disk.Keys, meta.fileName);
      && path !in st.disk
      && (path in st'.disk <==> result.failure in {WriteError, ShortWrite, ReadFailed})
      && st'.disk - {path} == st.disk
  {
    var path := UniqueName(st.disk.Keys, meta.fileName);
    assert path !in st.disk && st.disk - {path} == st.disk;
    if !body.createFails {
      SaveByLoop(cfg, st, sid, meta, body);
      LoopAccounts(EMPTY_TRANSFER, st.table[sid], meta.id, body.turns);
      var t := Loop(EMPTY_TRANSFER, st.table[sid], meta.id, body.turns).0;
      assert st.disk[path := t.content] - {path} == st.disk;
    }
  }

  lemma SaveSparesOtherSessions(cfg: Config, st: State, sid: Uuid, meta: FileMetadata, body: Body)
    requires sid in st.table
    ensures Save(cfg, st, sid, meta, body).0.table - {sid} == st.table - {sid}
  {
    var s := Loop(EMPTY_TRANSFER, st.table[sid], meta.id, body.turns).1;
    assert st.table[sid := s] - {sid} == st.table - {sid};
  }

  /** The upload handler after validation, by how the copy loop ends. */
  lemma AcceptByLoop(cfg: Config, st: State, sid: Uuid, meta: FileMetadata, body: Body)
    requires sid in st.table && !st.table[sid].canceled && !body.createFails
    ensures var path := UniqueName(st.disk.Keys, meta.fileName);
      var (t, s, end) := Loop(EMPTY_TRANSFER, st.table[sid], meta.id, body.turns);
      var table := st.table[sid := s];
      Accept(cfg, st, sid, meta, body) ==
        if end == Some(UploadCanceled) then (State(st.disk, st.table - {sid}), STATUS_BAD_REQUEST)
        else if end.Some? then (State(st.disk[path := t.content], table), STATUS_INTERNAL)
        else if !ChecksumAccepts(cfg.digest, meta, t.hashed) then (State(st.disk, table), STATUS_UNPROCESSABLE)
        else (State(st.disk[path := t.content], if s.IsCompleted() then table - {sid} else table), STATUS_OK)
  {
    SaveByLoop(cfg, st, sid, meta, body);
    LoopAccounts(EMPTY_TRANSFER, st.table[sid], meta.id, body.turns);
    var s := Loop(EMPTY_TRANSFER, st.table[sid], meta.id, body.turns).1;
    assert st.table[sid := s][sid] == s;
  }

  lemma AcceptSparesOtherSessions(cfg: Config, st: State, sid: Uuid, meta: FileMetadata, body: Body)
    requires sid in st.table
    ensures Accept(cfg, st, sid, meta, body).0.table - {sid} == st.table - {sid}
  {
    SaveSparesOtherSessions(cfg, st, sid, meta, body);
  }

  /** An upload request touches only the session it names. */
  lemma UploadSparesOtherSessions(cfg: Config, st: State, req: UploadRequest, body: Body)
    ensures Upload(cfg, st, req, body).0.table - {req.sid} == st.table - {req.sid}
    ensures req.sid !in st.table ==> Upload(cfg, st, req, body).0 == st
  {
    if req.sid in st.table {
      var touched := Touch(st, req.sid, body.at);
      assert touched.table - {req.sid} == st.table - {req.sid};
      var s := touched.table[req.sid];
      if Rejection(cfg, s, req).None? {
        AcceptSparesOtherSessions(cfg, touched, req.sid, s.metadata[req.fileId], body);
      }
    }
  }

  /** A smooth body: the status is decided by the checksum alone, and on success the entry has exactly its bytes. */
  lemma SaveCleanBody(cfg: Config, st: State, sid: Uuid, meta: FileMetadata, body: Body)
    requires sid in st.table && !st.table[sid].canceled
    requires !body.createFails && CleanBody(body.turns)
    ensures var bytes := Delivered(body.turns);
      var path := UniqueName(st.disk.Keys, meta.fileName);
      var s := ReportedTotal(st.table[sid], meta.id, |bytes|, body.turns);
      Save(cfg, st, sid, meta, body) ==
        if ChecksumAccepts(cfg.digest, meta, bytes)
        then (State(st.disk[path := bytes], st.table[sid := s]), Saved(path))
        else (State(st.disk, st.table[sid := s]), Failed(ChecksumMismatch))
  {
    SaveByLoop(cfg, st, sid, meta, body);
    LoopFromStart(st.table[sid], meta.id, body.turns);
  }

  /** Completion is about reported bytes, not about the directory. After a body that arrived without trouble the session
      counts the file as complete if and only if the bytes reach its size (an empty body changes nothing), whatever
      became of the file; the file is there if and only if the checksum was accepted. */
  lemma CompletionIsNotPresence(cfg: Config, st: State, sid: Uuid, meta: FileMetadata, body: Body)
    requires sid in st.table && !st.table[sid].canceled && st.table[sid].Indexed()
    requires meta.id in st.table[sid].metadata
    requires !body.createFails && CleanBody(body.turns)
    ensures var st' := Save(cfg, st, sid, meta, body).0;
      var s, bytes := st.table[sid], Delivered(body.turns);
      && sid in st'.table
      && (meta.id in st'.table[sid].completed <==>
        if bytes == [] then s.HasReached(meta.id) else |bytes| >= s.metadata[meta.id].size)
      && (UniqueName(st.disk.Keys, meta.fileName) in st'.disk <==> ChecksumAccepts(cfg.digest, meta, bytes))
  {
    SaveCleanBody(cfg, st, sid, meta, body);
    LoopFromStart(st.table[sid], meta.id, body.turns);
  }

  /** In particular, after a mismatch the file is gone, yet the session counts it as complete. */
  lemma MismatchStillCounts(cfg: Config, st: State, sid: Uuid, meta: FileMetadata, body: Body)
    requires sid in st.table && !st.table[sid].canceled && st.table[sid].Indexed()
    requires meta.id in st.table[sid].metadata
    requires !body.createFails && CleanBody(body.turns)
    requires Delivered(body.turns) != [] && |Delivered(body.turns)| >= st.table[sid].metadata[meta.id].size
    requires !ChecksumAccepts(cfg.digest, meta, Delivered(body.turns))
    ensures var st' := Accept(cfg, st, sid, meta, body).0;
      && Accept(cfg, st, sid, meta, body).1 == STATUS_UNPROCESSABLE
      && st'.disk == st.disk && sid in st'.table && meta.id in st'.table[sid].completed
  {
    CompletionIsNotPresence(cfg, st, sid, meta, body);
    SaveCleanBody(cfg, st, sid, meta, body);
  }

  lemma SavedIff(cfg: Config, st: State, sid: Uuid, meta: FileMetadata, body: Body)
    requires sid in st.table && !st.table[sid].canceled
    ensures !body.createFails && CleanBody(body.turns) ==> (Save(cfg, st, sid, meta, body).1.Saved? <==>
      meta.sha256 == "" || EqualFold(cfg.digest(Delivered(body.turns)), meta.sha256))
  {
    if !body.createFails && CleanBody(body.turns) {
      SavedExactlyIf(cfg, st, sid, meta, body);
    }
  }

  /** A body that arrived without trouble is saved, with exactly its bytes, and answered 200 if and only if the
      announced checksum is empty or is the digest of these bytes up to letter case; else it is answered 422 and leaves
      the directory as it was. */
  lemma SavedExactlyIf(cfg: Config, st: State, sid: Uuid, meta: FileMetadata, body: Body)
    requires sid in st.table && !st.table[sid].canceled
    requires !body.createFails && CleanBody(body.turns)
    ensures var bytes := Delivered(body.turns);
      var (st', result) := Save(cfg, st, sid, meta, body);
      var (st2, status) := Accept(cfg, st, sid, meta, body);
      && st2.disk == st'.disk
      && if meta.sha256 == "" || EqualFold(cfg.digest(bytes), meta.sha256) then
           && status == 200 && result == Saved(UniqueName(st.disk.Keys, meta.fileName))
           && st'.disk == st.disk[UniqueName(st.disk.Keys, meta.fileName) := bytes]
         else status == 422 && result.Failed? && st'.disk == st.disk
  {
    SaveCleanBody(cfg, st, sid, meta, body);
  }
}
