/** What the list of results says, and what becomes of the session, whatever the transfers meet. */
module SenderResults {
  import opened Protocol
  import opened Sessions
  import opened Manager
  import opened Transfers
  import opened Receiver
  import opened Sender

  /** The results that come before the first failure: an entry is nil exactly when a token was issued. */
  ghost predicate Aligned(jobs: seq<Job>, tokens: map<string, Uuid>, results: seq<FileResult>) {
    && |results| <= |jobs|
    && forall i :: 0 <= i < |results| ==>
      && results[i].fileId == jobs[i].source.id
      && results[i].error == if results[i].fileId in tokens then None else Some(NotAccepted)
  }

  /** The last result is the failure of a file that had been accepted. */
  ghost predicate EndsInFailure(jobs: seq<Job>, tokens: map<string, Uuid>, results: seq<FileResult>) {
    && 0 < |results| <= |jobs|
    && Aligned(jobs, tokens, results[..|results| - 1])
    && var last := results[|results| - 1];
      && last.fileId == jobs[|results| - 1].source.id && last.fileId in tokens
      && last.error.Some? && last.error != Some(NotAccepted)
  }

  /** What the loop has got when it returns: the failure, or one entry per file. */
  ghost predicate Complete(jobs: seq<Job>, tokens: map<string, Uuid>, results: seq<FileResult>, failed: bool) {
    if failed then EndsInFailure(jobs, tokens, results) else |results| == |jobs| && Aligned(jobs, tokens, results)
  }

  function FirstResult(job: Job, tokens: map<string, Uuid>): FileResult {
    FileResult(job.source.id, if job.source.id in tokens then None else Some(NotAccepted))
  }

  lemma AlignedFromFirst(jobs: seq<Job>, tokens: map<string, Uuid>, rest: seq<FileResult>)
    requires jobs != [] && Aligned(jobs[1..], tokens, rest)
    ensures Aligned(jobs, tokens, [FirstResult(jobs[0], tokens)] + rest)
  {
    var results := [FirstResult(jobs[0], tokens)] + rest;
    assert forall i :: 0 < i < |results| ==> results[i] == rest[i - 1] && jobs[i] == jobs[1..][i - 1];
  }

  lemma CompleteFromFirst(jobs: seq<Job>, tokens: map<string, Uuid>, rest: seq<FileResult>, failed: bool)
    requires jobs != [] && Complete(jobs[1..], tokens, rest, failed)
    ensures Complete(jobs, tokens, [FirstResult(jobs[0], tokens)] + rest, failed)
  {
    var first := [FirstResult(jobs[0], tokens)];
    if failed {
      var before := rest[..|rest| - 1];
      AlignedFromFirst(jobs, tokens, before);
      assert (first + rest)[..|rest|] == first + before;
    } else {
      AlignedFromFirst(jobs, tokens, rest);
    }
  }

  lemma {:induction false} SendAllAligned(cfg: Config, me: Identity, st: State, sid: Uuid,
                                          tokens: map<string, Uuid>, jobs: seq<Job>)
    ensures Complete(jobs, tokens, SendAll(cfg, me, st, sid, tokens, jobs).1, SendAll(cfg, me, st, sid, tokens, jobs).2)
    decreases |jobs|
  {
    if jobs != [] {
      var id := jobs[0].source.id;
      var (st1, error) := if id in tokens then UploadFile(cfg, me, st, sid, jobs[0], tokens[id]) else (st, None);
      if error.None? {
        SendAllAligned(cfg, me, st1, sid, tokens, jobs[1..]);
        var (st', rest, failed) := SendAll(cfg, me, st1, sid, tokens, jobs[1..]);
        CompleteFromFirst(jobs, tokens, rest, failed);
        FirstSent(cfg, me, st, sid, tokens, jobs, st1);
      } else {
        assert SendAll(cfg, me, st, sid, tokens, jobs) == (st1, [FileResult(id, error)], true);
      }
    }
  }

  lemma FirstSent(cfg: Config, me: Identity, st: State, sid: Uuid, tokens: map<string, Uuid>, jobs: seq<Job>,
                  st1: State)
    requires jobs != []
    requires jobs[0].source.id in tokens ==>
      UploadFile(cfg, me, st, sid, jobs[0], tokens[jobs[0].source.id]) == (st1, None)
    requires jobs[0].source.id !in tokens ==> st1 == st
    ensures var (st', results, failed) := SendAll(cfg, me, st1, sid, tokens, jobs[1..]);
      SendAll(cfg, me, st, sid, tokens, jobs) == (st', [FirstResult(jobs[0], tokens)] + results, failed)
  {
  }

  /** Nothing after the first failing file is sent: the files after it could be any others. */
  lemma {:induction false} NothingSentAfterFailure(cfg: Config, me: Identity, st: State, sid: Uuid,
                                                   tokens: map<string, Uuid>, jobs: seq<Job>, sent: nat,
                                                   others: seq<Job>)
    requires SendAll(cfg, me, st, sid, tokens, jobs).2
    requires sent == |SendAll(cfg, me, st, sid, tokens, jobs).1|
    ensures 0 < sent <= |jobs|
    ensures SendAll(cfg, me, st, sid, tokens, jobs[..sent] + others) == SendAll(cfg, me, st, sid, tokens, jobs)
    decreases |jobs|
  {
    SendAllAligned(cfg, me, st, sid, tokens, jobs);
    var other := jobs[..sent] + others;
    PrefixTail(jobs, others, sent);
    var id := jobs[0].source.id;
    var (st1, error) := if id in tokens then UploadFile(cfg, me, st, sid, jobs[0], tokens[id]) else (st, None);
    if error.None? {
      FirstSent(cfg, me, st, sid, tokens, jobs, st1);
      NothingSentAfterFailure(cfg, me, st1, sid, tokens, jobs[1..], sent - 1, others);
      FirstSent(cfg, me, st, sid, tokens, other, st1);
    }
  }

  lemma PrefixTail<T>(s: seq<T>, t: seq<T>, n: nat)
    requires 0 < n <= |s|
    ensures s[..n] + t != [] && (s[..n] + t)[0] == s[0]
    ensures (s[..n] + t)[1..] == s[1..][..n - 1] + t
  {
  }

  /** Results match the input position by position. Without an error there is one per file, nil exactly when the
      receiver needs no transfer at all or issued a token; with a failed transfer they end at the failing file. */
  lemma ResultsAlign(cfg: Config, me: Identity, st: State, jobs: seq<Job>, env: Environment)
    ensures var o := SendFiles(cfg, me, st, jobs, env);
      var resp := Prepare(cfg, st, PrepareOf(me, jobs), env.decision, env.now, env.sid, env.tokens).1;
      match o.error
      case None =>
        if resp.Granted? then Complete(jobs, env.tokens, o.results, false)
        else
          && resp == Refused(STATUS_NO_CONTENT) && |o.results| == |jobs|
          && forall i :: 0 <= i < |jobs| ==> o.results[i] == FileResult(jobs[i].source.id, None)
      case Some(TransferFailed(fileId)) =>
        Complete(jobs, env.tokens, o.results, true) && fileId == o.results[|o.results| - 1].fileId
      case Some(_) => o.results == []
  {
    if env.fate == Answered &&
      Prepare(cfg, st, PrepareOf(me, jobs), env.decision, env.now, env.sid, env.tokens).1.Granted?
    {
      GrantedResultsAlign(cfg, me, st, jobs, env);
    }
  }

  lemma GrantedResultsAlign(cfg: Config, me: Identity, st: State, jobs: seq<Job>, env: Environment)
    requires env.fate == Answered
    requires Prepare(cfg, st, PrepareOf(me, jobs), env.decision, env.now, env.sid, env.tokens).1.Granted?
    ensures var o := SendFiles(cfg, me, st, jobs, env);
      && Complete(jobs, env.tokens, o.results, o.error.Some?)
      && (o.error.Some? ==> o.error.value == TransferFailed(o.results[|o.results| - 1].fileId))
  {
    var (st1, resp) := Prepare(cfg, st, PrepareOf(me, jobs), env.decision, env.now, env.sid, env.tokens);
    SendAllAligned(cfg, me, st1, env.sid, env.tokens, jobs);
    var (st2, results, failed) := SendAll(cfg, me, st1, env.sid, env.tokens, jobs);
    assert SendFiles(cfg, me, st, jobs, env) == Finish(st2, results, failed, env.sid, env.cancelArrives);
  }

  // ----- no leaked session -----

  /** Content-Length framing: the end of the body is reported only once size bytes have been read. */
  predicate Framed(turns: seq<Turn>, size: int)
    decreases |turns|
  {
    turns == [] ||
    if turns[0].err == EndOfBody then |turns[0].data| >= size
    else Framed(turns[1..], size - |turns[0].data|)
  }

  predicate WellSent(job: Job) {
    && job.source.size >= 0
    && (job.attempt.Reached? ==> Framed(job.attempt.body.turns, job.source.size))
  }

  lemma {:induction false} FramedLoopReaches(t: Transfer, s: Session, fileId: string, turns: seq<Turn>, size: int)
    requires Framed(turns, size) && Loop(t, s, fileId, turns).2.None?
    requires t.written == |t.content| && fileId in s.progress
    requires t.written > 0 ==> s.progress[fileId] == t.written
    ensures var (t', s', _) := Loop(t, s, fileId, turns);
      && t'.written >= t.written && t'.written >= t.written + size && fileId in s'.progress
      && (t'.written > 0 ==> s'.progress[fileId] == t'.written)
      && (t'.written == 0 ==> s' == s)
    decreases |turns|
  {
    if turns != [] {
      var turn := turns[0];
      var (t', s', verdict) := Iterate(t, s, fileId, turn);
      if verdict == Continue {
        FramedLoopReaches(t', s', fileId, turns[1..], size - |turn.data|);
      }
    }
  }

  lemma {:induction false} LoopKeepsIndex(t: Transfer, s: Session, fileId: string, turns: seq<Turn>)
    requires s.Indexed()
    ensures StaysIndexed(s, Loop(t, s, fileId, turns).1)
    decreases |turns|
  {
    if turns != [] {
      var turn := turns[0];
      var (t', s', verdict) := Iterate(t, s, fileId, turn);
      ApplyKeepsIndex(s, ReportOp(fileId, t'.written, turn.at));
      assert StaysIndexed(s, s');
      if verdict == Continue {
        LoopKeepsIndex(t', s', fileId, turns[1..]);
      }
    }
  }

  ghost predicate NoNegativeProgress(s: Session) {
    forall id :: id in s.progress ==> s.progress[id] >= 0
  }

  /** The same announcement, still indexed. */
  ghost predicate StaysIndexed(s: Session, s': Session) {
    && s'.Indexed() && s'.metadata == s.metadata && s'.files == s.files
    && s'.clientIP == s.clientIP && s'.clientVerified == s.clientVerified
    && (NoNegativeProgress(s) ==> NoNegativeProgress(s'))
  }

  /** The session's files are keyed by their identifiers, as SendFiles announces them. */
  ghost predicate KeyedById(s: Session) {
    forall id :: id in s.metadata ==> s.metadata[id].id == id
  }

  /** Every file of the session has reached its size, except those still to be sent. */
  ghost predicate OnlyPending(s: Session, pending: set<string>) {
    && s.Indexed() && KeyedById(s) && !s.canceled
    && NoNegativeProgress(s)
    && forall id :: id in s.metadata && id !in pending ==> s.HasReached(id)
  }

  function Ids(jobs: seq<Job>): set<string> {
    set i | 0 <= i < |jobs| :: jobs[i].source.id
  }

  /** The announced size of a file is that of the last job with its identifier. */
  ghost predicate SizesAnnounced(metadata: map<string, FileMetadata>, jobs: seq<Job>) {
    jobs == [] ||
    var id := jobs[0].source.id;
    && (id in metadata && id !in Ids(jobs[1..]) ==> metadata[id].size == jobs[0].source.size)
    && SizesAnnounced(metadata, jobs[1..])
  }

  lemma {:induction false} SizesOfPart(all: map<string, FileMetadata>, part: map<string, FileMetadata>, jobs: seq<Job>)
    requires SizesAnnounced(all, jobs)
    requires forall id :: id in part && id in Ids(jobs) ==> id in all && all[id] == part[id]
    ensures SizesAnnounced(part, jobs)
  {
    if jobs != [] {
      IdsOfTail(jobs);
      SizesOfPart(all, part, jobs[1..]);
    }
  }

  lemma IdsOfTail(jobs: seq<Job>)
    requires jobs != []
    ensures Ids(jobs) == {jobs[0].source.id} + Ids(jobs[1..])
  {
    forall id | id in Ids(jobs)
      ensures id in {jobs[0].source.id} + Ids(jobs[1..])
    {
      var i :| 0 <= i < |jobs| && jobs[i].source.id == id;
      assert i > 0 ==> jobs[1..][i - 1] == jobs[i];
    }
    forall id | id in Ids(jobs[1..])
      ensures id in Ids(jobs)
    {
      var i :| 0 <= i < |jobs[1..]| && jobs[1..][i].source.id == id;
      assert jobs[i + 1].source.id == id;
    }
    assert jobs[0].source.id in Ids(jobs);
  }

  /** After a framed body has been copied to its end, its file is no longer pending. */
  lemma LoopSettles(s: Session, id: string, turns: seq<Turn>, size: nat, pending: set<string>)
    requires OnlyPending(s, pending + {id}) && id in s.metadata
    requires id !in pending ==> s.metadata[id].size == size
    requires Framed(turns, size) && Loop(EMPTY_TRANSFER, s, id, turns).2.None?
    ensures var s' := Loop(EMPTY_TRANSFER, s, id, turns).1;
      OnlyPending(s', pending) && s'.metadata == s.metadata
  {
    var (t, s', end) := Loop(EMPTY_TRANSFER, s, id, turns);
    FramedLoopReaches(EMPTY_TRANSFER, s, id, turns, size);
    LoopKeepsIndex(EMPTY_TRANSFER, s, id, turns);
    LoopAccounts(EMPTY_TRANSFER, s, id, turns);
    LoopSparesOtherFiles(EMPTY_TRANSFER, s, id, turns);
    assert forall other :: other in s'.metadata && other !in pending && other != id ==> s.HasReached(other);
    assert id !in pending ==> s'.HasReached(id);
  }

  lemma UncompletedIsPending(s: Session, pending: set<string>)
    requires OnlyPending(s, pending) && !s.IsCompleted()
    ensures exists id :: id in pending && id in s.metadata
  {
    s.CompletedMeansAllReached();
    var id :| id in s.metadata && !s.HasReached(id);
    assert id in pending;
  }

  lemma TouchedPending(s: Session, now: int, pending: set<string>)
    requires OnlyPending(s, pending)
    ensures OnlyPending(s.Touched(now), pending)
  {
    ApplyKeepsIndex(s, TouchOp(now));
    assert forall id :: id in s.metadata && id !in pending ==> s.HasReached(id);
  }

  /** What an accepted, answered upload does to its session: it is gone, or some file is still to come. */
  ghost predicate Settled(table: Table, sid: Uuid, before: Session, pending: set<string>) {
    sid in table ==>
      && OnlyPending(table[sid], pending)
      && table[sid].metadata == before.metadata
      && exists id :: id in pending && id in table[sid].metadata
  }

  lemma AcceptSettles(cfg: Config, st: State, sid: Uuid, id: string, body: Body, size: nat, pending: set<string>)
    requires sid in st.table && OnlyPending(st.table[sid], pending + {id}) && id in st.table[sid].metadata
    requires id !in pending ==> st.table[sid].metadata[id].size == size
    requires Framed(body.turns, size)
    requires Accept(cfg, st, sid, st.table[sid].metadata[id], body).1 == STATUS_OK
    ensures Settled(Accept(cfg, st, sid, st.table[sid].metadata[id], body).0.table, sid, st.table[sid], pending)
  {
    var s := st.table[sid];
    assert s.metadata[id].id == id;
    assert !body.createFails;
    AcceptByLoop(cfg, st, sid, s.metadata[id], body);
    LoopSettles(s, id, body.turns, size, pending);
    var s' := Loop(EMPTY_TRANSFER, s, id, body.turns).1;
    assert st.table[sid := s'][sid] == s';
    if !s'.IsCompleted() {
      UncompletedIsPending(s', pending);
    }
  }

  lemma UploadSettles(cfg: Config, me: Identity, st: State, sid: Uuid, job: Job, token: Uuid, pending: set<string>)
    requires WellSent(job)
    requires sid in st.table && OnlyPending(st.table[sid], pending + {job.source.id})
    requires job.source.id in st.table[sid].metadata && job.source.id !in pending ==>
      st.table[sid].metadata[job.source.id].size == job.source.size
    requires UploadFile(cfg, me, st, sid, job, token).1.None?
    ensures Settled(UploadFile(cfg, me, st, sid, job, token).0.table, sid, st.table[sid], pending)
  {
    var id, body := job.source.id, job.attempt.body;
    var req, touched := UploadOf(me, sid, id, token), Touch(st, sid, body.at);
    TouchedPending(st.table[sid], body.at, pending + {id});
    var s := touched.table[sid];
    assert Upload(cfg, st, req, body).1 == STATUS_OK;
    assert Rejection(cfg, s, req).None?;
    assert Upload(cfg, st, req, body) == Accept(cfg, touched, sid, s.metadata[id], body);
    AcceptSettles(cfg, touched, sid, id, body, job.source.size, pending);
  }

  /** Unless a transfer fails, the session is gone when the last file has been sent. */
  lemma {:induction false} SendAllEndsSession(cfg: Config, me: Identity, st: State, sid: Uuid,
                                              tokens: map<string, Uuid>, jobs: seq<Job>)
    requires forall job :: job in jobs ==> WellSent(job)
    requires sid in st.table ==>
      && OnlyPending(st.table[sid], Ids(jobs) * tokens.Keys)
      && SizesAnnounced(st.table[sid].metadata, jobs)
      && exists id :: id in Ids(jobs) * tokens.Keys && id in st.table[sid].metadata
    ensures var (st', _, failed) := SendAll(cfg, me, st, sid, tokens, jobs);
      && st'.table - {sid} == st.table - {sid}
      && (!failed ==> sid !in st'.table)
    decreases |jobs|
  {
    if jobs != [] {
      var job, rest := jobs[0], jobs[1..];
      var id := job.source.id;
      assert job in jobs;
      IdsOfTail(jobs);
      var (st1, error) := if id in tokens then UploadFile(cfg, me, st, sid, job, tokens[id]) else (st, None);
      var pending := Ids(rest) * tokens.Keys;
      if id !in tokens {
        assert Ids(jobs) * tokens.Keys == pending;
      } else {
        assert Ids(jobs) * tokens.Keys == pending + {id};
        if job.attempt.Reached? {
          UploadSparesOtherSessions(cfg, st, UploadOf(me, sid, id, tokens[id]), job.attempt.body);
        }
        if sid in st.table && error.None? {
          UploadSettles(cfg, me, st, sid, job, tokens[id], pending);
        }
      }
      if error.None? {
        if sid in st1.table {
          assert SizesAnnounced(st1.table[sid].metadata, rest);
        }
        SendAllEndsSession(cfg, me, st1, sid, tokens, rest);
      }
    }
  }

  lemma {:induction false} AnnouncedSizes(jobs: seq<Job>)
    requires forall job :: job in jobs ==> WellSent(job)
    ensures Announced(jobs).Keys == Ids(jobs)
    ensures forall id :: id in Announced(jobs) ==> Announced(jobs)[id].id == id && Announced(jobs)[id].size >= 0
    ensures SizesAnnounced(Announced(jobs), jobs)
  {
    if jobs != [] {
      assert jobs[0] in jobs;
      AnnouncedSizes(jobs[1..]);
      IdsOfTail(jobs);
      SizesOfPart(Announced(jobs[1..]), Announced(jobs), jobs[1..]);
    }
  }

  /** The session that a prepare request of these jobs creates waits for all accepted files. */
  lemma NewSessionPending(clientIP: string, clientVerified: bool, jobs: seq<Job>, decision: Decision,
                          tokens: map<string, Uuid>, now: int)
    requires tokens.Keys == Filtered(decision, Announced(jobs)).Keys
    requires forall job :: job in jobs ==> WellSent(job)
    ensures var s := NewSession(clientIP, clientVerified, Filtered(decision, Announced(jobs)), tokens, now);
      && OnlyPending(s, Ids(jobs) * tokens.Keys)
      && SizesAnnounced(s.metadata, jobs)
      && s.metadata.Keys == Ids(jobs) * tokens.Keys
  {
    var accepted := Filtered(decision, Announced(jobs));
    AnnouncedSizes(jobs);
    NewSessionIndexed(clientIP, clientVerified, accepted, tokens, now);
    SizesOfPart(Announced(jobs), accepted, jobs);
    assert accepted.Keys <= Ids(jobs);
  }

  lemma OpenedSessionEnds(cfg: Config, me: Identity, st: State, jobs: seq<Job>, env: Environment)
    requires Grants(cfg, me, st, jobs, env)
    requires forall job :: job in jobs ==> WellSent(job)
    ensures var (st', _, failed) := SendAll(cfg, me, Opened(me, st, jobs, env), env.sid, env.tokens, jobs);
      && st'.table - {env.sid} == st.table
      && (!failed ==> env.sid !in st'.table)
  {
    var st1 := Opened(me, st, jobs, env);
    OnlyOpens(me, st, jobs, env);
    NewSessionPending(me.remoteIP, ClientVerified(PrepareOf(me, jobs)), jobs, env.decision, env.tokens, env.now);
    SendAllEndsSession(cfg, me, st1, env.sid, env.tokens, jobs);
  }

  /** After a decoded 200 response, on every path through SendFiles, the session is gone when it returns, provided
      that the cancel request of a failed transfer arrives; every other session is as it was. */
  lemma NoLeakedSession(cfg: Config, me: Identity, st: State, jobs: seq<Job>, env: Environment)
    requires Grants(cfg, me, st, jobs, env)
    requires forall job :: job in jobs ==> WellSent(job)
    ensures var o := SendFiles(cfg, me, st, jobs, env);
      && o.state.table - {env.sid} == st.table
      && (o.error.None? || env.cancelArrives ==> o.state.table == st.table)
  {
    SendFilesWhenGranted(cfg, me, st, jobs, env);
    OpenedSessionEnds(cfg, me, st, jobs, env);
    var st2 := SendAll(cfg, me, Opened(me, st, jobs, env), env.sid, env.tokens, jobs).0;
    assert env.sid !in st2.table ==> st2.table - {env.sid} == st2.table;
    assert st2.table - {env.sid} - {env.sid} == st2.table - {env.sid};
  }

  /** The receiver's session is created: the request arrives, passes every check, and the user accepts a file. */
  ghost predicate Creates(cfg: Config, me: Identity, st: State, jobs: seq<Job>, env: Environment) {
    && env.fate != Lost
    && Gate(cfg, st, PrepareOf(me, jobs), env.now).None?
    && Filtered(env.decision, Announced(jobs)) != map[]
  }

  // ----- which transfer ends the session -----

  /** The transfer ends its session: the receiver accepts the upload, and the copy loop ends because somebody deleted
      the session, or ends with the checksum accepted and every file of the session at its size. */
  ghost predicate EndsSession(cfg: Config, me: Identity, st: State, sid: Uuid, job: Job, token: Uuid)
    requires sid in st.table
  {
    job.attempt.Reached? &&
    var body, s := job.attempt.body, st.table[sid].Touched(job.attempt.body.at);
    Rejection(cfg, s, UploadOf(me, sid, job.source.id, token)).None? && !body.createFails &&
    var meta := s.metadata[job.source.id];
    var (t, s', end) := Loop(EMPTY_TRANSFER, s, meta.id, body.turns);
    end == Some(UploadCanceled) || (end.None? && ChecksumAccepts(cfg.digest, meta, t.hashed) && s'.IsCompleted())
  }

  predicate StoredLive(st: State, sid: Uuid) {
    sid in st.table && !st.table[sid].canceled
  }

  lemma UploadFileEnds(cfg: Config, me: Identity, st: State, sid: Uuid, job: Job, token: Uuid)
    requires StoredLive(st, sid)
    ensures var st' := UploadFile(cfg, me, st, sid, job, token).0;
      if EndsSession(cfg, me, st, sid, job, token) then sid !in st'.table else StoredLive(st', sid)
  {
    if job.attempt.Reached? {
      var body, req := job.attempt.body, UploadOf(me, sid, job.source.id, token);
      var touched := Touch(st, sid, body.at);
      var s := touched.table[sid];
      if Rejection(cfg, s, req).None? && !body.createFails {
        AcceptByLoop(cfg, touched, sid, s.metadata[job.source.id], body);
        LoopAccounts(EMPTY_TRANSFER, s, s.metadata[job.source.id].id, body.turns);
      }
    }
  }

  /** The state of the receiver when the turn of file i comes. */
  function StateBefore(cfg: Config, me: Identity, st: State, sid: Uuid, tokens: map<string, Uuid>, jobs: seq<Job>,
                       i: nat): State
    requires i <= |jobs|
  {
    SendAll(cfg, me, st, sid, tokens, jobs[..i]).0
  }

  /** File i is sent, and its transfer ends the session. */
  ghost predicate EndsAt(cfg: Config, me: Identity, st: State, sid: Uuid, tokens: map<string, Uuid>, jobs: seq<Job>,
                         i: nat)
    requires i < |jobs|
  {
    var before := StateBefore(cfg, me, st, sid, tokens, jobs, i);
    && jobs[i].source.id in tokens && sid in before.table
    && EndsSession(cfg, me, before, sid, jobs[i], tokens[jobs[i].source.id])
  }

  /** One more file after files that were all sent or skipped. */
  lemma {:induction false} SendOneMore(cfg: Config, me: Identity, st: State, sid: Uuid, tokens: map<string, Uuid>,
                                       jobs: seq<Job>, job: Job)
    requires !SendAll(cfg, me, st, sid, tokens, jobs).2
    ensures SendAll(cfg, me, st, sid, tokens, jobs + [job]).0 ==
      var before := SendAll(cfg, me, st, sid, tokens, jobs).0;
      if job.source.id in tokens then UploadFile(cfg, me, before, sid, job, tokens[job.source.id]).0 else before
    decreases |jobs|
  {
    if jobs == [] {
      assert ([] + [job])[0] == job && ([] + [job])[1..] == [];
    } else {
      var st1 := AfterOne(cfg, me, st, sid, tokens, jobs[0]);
      FirstSent(cfg, me, st, sid, tokens, jobs, st1);
      SendOneMore(cfg, me, st1, sid, tokens, jobs[1..], job);
      assert (jobs + [job])[0] == jobs[0] && (jobs + [job])[1..] == jobs[1..] + [job];
      FirstSent(cfg, me, st, sid, tokens, jobs + [job], st1);
    }
  }

  function AfterOne(cfg: Config, me: Identity, st: State, sid: Uuid, tokens: map<string, Uuid>, job: Job): State {
    if job.source.id in tokens then UploadFile(cfg, me, st, sid, job, tokens[job.source.id]).0 else st
  }

  /** Before the last file that has a result nothing failed. */
  lemma {:induction false} SucceedsBefore(cfg: Config, me: Identity, st: State, sid: Uuid, tokens: map<string, Uuid>,
                                          jobs: seq<Job>, i: nat)
    requires i < |SendAll(cfg, me, st, sid, tokens, jobs).1|
    ensures i < |jobs| && !SendAll(cfg, me, st, sid, tokens, jobs[..i]).2
    decreases |jobs|
  {
    if i > 0 {
      var st1 := AfterOne(cfg, me, st, sid, tokens, jobs[0]);
      FirstSent(cfg, me, st, sid, tokens, jobs, st1);
      SucceedsBefore(cfg, me, st1, sid, tokens, jobs[1..], i - 1);
      assert jobs[..i][0] == jobs[0] && jobs[..i][1..] == jobs[1..][..i - 1];
      FirstSent(cfg, me, st, sid, tokens, jobs[..i], st1);
    }
  }

  /** None of the first n files ends the session. */
  ghost predicate NoneEnds(cfg: Config, me: Identity, st: State, sid: Uuid, tokens: map<string, Uuid>, jobs: seq<Job>,
                           n: nat)
    requires n <= |jobs|
  {
    forall i :: 0 <= i < n ==> !EndsAt(cfg, me, st, sid, tokens, jobs, i)
  }

  lemma NoneEndsOneMore(cfg: Config, me: Identity, st: State, sid: Uuid, tokens: map<string, Uuid>, jobs: seq<Job>,
                        n: nat)
    requires 0 < n <= |jobs|
    ensures NoneEnds(cfg, me, st, sid, tokens, jobs, n) <==>
      NoneEnds(cfg, me, st, sid, tokens, jobs, n - 1) && !EndsAt(cfg, me, st, sid, tokens, jobs, n - 1)
  {
  }

  lemma {:induction false} StoredBeforeTurn(cfg: Config, me: Identity, st: State, sid: Uuid, tokens: map<string, Uuid>,
                                            jobs: seq<Job>, n: nat)
    requires StoredLive(st, sid) && n <= |SendAll(cfg, me, st, sid, tokens, jobs).1| <= |jobs|
    ensures var before := StateBefore(cfg, me, st, sid, tokens, jobs, n);
      && (sid in before.table ==> StoredLive(before, sid))
      && (sid in before.table <==> NoneEnds(cfg, me, st, sid, tokens, jobs, n))
    decreases n
  {
    if n == 0 {
      assert jobs[..0] == [];
    } else {
      var before := StateBefore(cfg, me, st, sid, tokens, jobs, n - 1);
      StoredBeforeTurn(cfg, me, st, sid, tokens, jobs, n - 1);
      SucceedsBefore(cfg, me, st, sid, tokens, jobs, n - 1);
      assert jobs[..n] == jobs[..n - 1] + [jobs[n - 1]];
      SendOneMore(cfg, me, st, sid, tokens, jobs[..n - 1], jobs[n - 1]);
      TurnKeepsOrEnds(cfg, me, before, sid, tokens, jobs[n - 1]);
      NoneEndsOneMore(cfg, me, st, sid, tokens, jobs, n);
    }
  }

  lemma TurnKeepsOrEnds(cfg: Config, me: Identity, st: State, sid: Uuid, tokens: map<string, Uuid>, job: Job)
    requires sid in st.table ==> StoredLive(st, sid)
    ensures var st' := AfterOne(cfg, me, st, sid, tokens, job);
      && (sid in st'.table ==> StoredLive(st', sid))
      && (sid in st'.table <==>
        && sid in st.table
        && !(job.source.id in tokens && EndsSession(cfg, me, st, sid, job, tokens[job.source.id])))
  {
    if job.source.id in tokens {
      if sid in st.table {
        UploadFileEnds(cfg, me, st, sid, job, tokens[job.source.id]);
      } else if job.attempt.Reached? {
        UploadSparesOtherSessions(cfg, st, UploadOf(me, sid, job.source.id, tokens[job.source.id]), job.attempt.body);
      }
    }
  }

  /** The receiver still has the session when the sending loop returns if and only if no file that was sent ended it. */
  lemma StoredAfterLoop(cfg: Config, me: Identity, st: State, sid: Uuid, tokens: map<string, Uuid>, jobs: seq<Job>)
    requires StoredLive(st, sid)
    ensures |SendAll(cfg, me, st, sid, tokens, jobs).1| <= |jobs|
    ensures sid in SendAll(cfg, me, st, sid, tokens, jobs).0.table <==>
      NoneEnds(cfg, me, st, sid, tokens, jobs, |SendAll(cfg, me, st, sid, tokens, jobs).1|)
  {
    var (st', results, failed) := SendAll(cfg, me, st, sid, tokens, jobs);
    SendAllAligned(cfg, me, st, sid, tokens, jobs);
    StoredBeforeTurn(cfg, me, st, sid, tokens, jobs, |results|);
    assert jobs[..|jobs|] == jobs && jobs[..|results|] + [] == jobs[..|results|];
    if failed {
      NothingSentAfterFailure(cfg, me, st, sid, tokens, jobs, |results|, []);
    }
  }

  /** For which courses of events SendFiles leaves its session stored, exactly: the session is created, and either the
      sender cannot use the answer, or a transfer fails, its cancel request is lost, and neither the failing transfer
      nor one before it ended the session. */
  lemma LeaksExactly(cfg: Config, me: Identity, st: State, jobs: seq<Job>, env: Environment)
    requires env.sid !in st.table && env.tokens.Keys == Filtered(env.decision, Announced(jobs)).Keys
    requires forall job :: job in jobs ==> WellSent(job)
    ensures var start := Opened(me, st, jobs, env);
      var (_, results, failed) := SendAll(cfg, me, start, env.sid, env.tokens, jobs);
      && |results| <= |jobs|
      && (env.sid in SendFiles(cfg, me, st, jobs, env).state.table <==>
        && Creates(cfg, me, st, jobs, env)
        && (env.fate == Unusable ||
            (failed && !env.cancelArrives && NoneEnds(cfg, me, start, env.sid, env.tokens, jobs, |results|))))
  {
    var start := Opened(me, st, jobs, env);
    StoredAfterLoop(cfg, me, start, env.sid, env.tokens, jobs);
    LeftByLoop(cfg, me, st, jobs, env);
  }

  lemma LeftByLoop(cfg: Config, me: Identity, st: State, jobs: seq<Job>, env: Environment)
    requires env.sid !in st.table && env.tokens.Keys == Filtered(env.decision, Announced(jobs)).Keys
    requires forall job :: job in jobs ==> WellSent(job)
    ensures var (st', _, failed) := SendAll(cfg, me, Opened(me, st, jobs, env), env.sid, env.tokens, jobs);
      env.sid in SendFiles(cfg, me, st, jobs, env).state.table <==>
        && Creates(cfg, me, st, jobs, env)
        && (env.fate == Unusable || (failed && !env.cancelArrives && env.sid in st'.table))
  {
    if Creates(cfg, me, st, jobs, env) {
      if env.fate == Answered {
        assert Grants(cfg, me, st, jobs, env);
        SendFilesWhenGranted(cfg, me, st, jobs, env);
        OpenedSessionEnds(cfg, me, st, jobs, env);
      } else {
        UnusableLeaks(cfg, me, st, jobs, env);
      }
    }
  }

  /** After an answer that the sender cannot use, the new session is stored, and the receiver busy until it expires. */
  lemma UnusableLeaks(cfg: Config, me: Identity, st: State, jobs: seq<Job>, env: Environment)
    requires Creates(cfg, me, st, jobs, env) && env.fate == Unusable
    ensures SendFiles(cfg, me, st, jobs, env) == Outcome(Opened(me, st, jobs, env), [], Some(PrepareFailed))
    ensures forall now :: now - env.now < cfg.timeout ==> Busy(Opened(me, st, jobs, env).table, cfg.timeout, now)
  {
    assert Opened(me, st, jobs, env).table[env.sid].lastAccess == env.now;
  }
}
