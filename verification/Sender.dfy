/** The sender's half of the protocol: SendFiles against a receiver, on values. */
module Sender {
  import opened Protocol
  import opened Sessions
  import opened Receiver

  datatype Source = Source(id: string, fileName: string, size: int, sha256: string)

  /** What the transfer of one file meets: the file cannot be opened, the receiver is not reached, or it is;
      then the answer may still be lost or come from a peer with the wrong fingerprint. */
  datatype Attempt =
    | OpenFails
    | Unreached
    | Reached(body: Body, answered: bool)

  datatype Job = Job(source: Source, attempt: Attempt)

  datatype Identity = Identity(pin: string, cert: Option<string>, remoteIP: string, fingerprint: string)

  /** Lost: the receiver never sees the request. Unusable: it does, but its answer does not arrive,
      fails the fingerprint check or cannot be decoded. */
  datatype PrepareFate = Lost | Unusable | Answered

  datatype Environment = Environment(
    fate: PrepareFate,
    now: int,
    decision: Decision,
    sid: Uuid,
    tokens: map<string, Uuid>,
    cancelArrives: bool)

  datatype FileError = NotAccepted | OpenError | ExchangeError | ChecksumError | StatusError(status: nat)

  datatype FileResult = FileResult(fileId: string, error: Option<FileError>)

  datatype SendError =
    | PrepareFailed
    | InvalidPIN
    | RejectedByReceiver
    | SessionBusy
    | PrepareStatus(status: nat)
    | TransferFailed(fileId: string)

  datatype Outcome = Outcome(state: State, results: seq<FileResult>, error: Option<SendError>)

  function Metadata(f: Source): FileMetadata {
    FileMetadata(f.id, f.fileName, f.size, f.sha256)
  }

  /** The files of the prepare request; a repeated identifier keeps its last file. */
  function Announced(jobs: seq<Job>): map<string, FileMetadata> {
    if jobs == [] then map[]
    else map[jobs[0].source.id := Metadata(jobs[0].source)] + Announced(jobs[1..])
  }

  function PrepareOf(me: Identity, jobs: seq<Job>): PrepareRequest {
    PrepareRequest(true, me.pin, me.cert, me.remoteIP, me.fingerprint, Some(Announced(jobs)))
  }

  function UploadOf(me: Identity, sid: Uuid, fileId: string, token: Uuid): UploadRequest {
    UploadRequest(true, sid, fileId, token, me.remoteIP, me.cert)
  }

  function ErrorOfStatus(status: nat): Option<FileError> {
    if status == STATUS_UNPROCESSABLE then Some(ChecksumError)
    else if status != STATUS_OK then Some(StatusError(status))
    else None
  }

  function UploadFile(cfg: Config, me: Identity, st: State, sid: Uuid, job: Job, token: Uuid)
    : (State, Option<FileError>)
  {
    match job.attempt
    case OpenFails => (st, Some(OpenError))
    case Unreached => (st, Some(ExchangeError))
    case Reached(body, answered) =>
      var (st', status) := Upload(cfg, st, UploadOf(me, sid, job.source.id, token), body);
      (st', if answered then ErrorOfStatus(status) else Some(ExchangeError))
  }

  /** The files in order, up to the first failure; the flag tells whether there was one. */
  function SendAll(cfg: Config, me: Identity, st: State, sid: Uuid, tokens: map<string, Uuid>, jobs: seq<Job>)
    : (State, seq<FileResult>, bool)
    decreases |jobs|
  {
    if jobs == [] then (st, [], false) else
    var id := jobs[0].source.id;
    if id !in tokens then
      var (st', results, failed) := SendAll(cfg, me, st, sid, tokens, jobs[1..]);
      (st', [FileResult(id, Some(NotAccepted))] + results, failed)
    else
      var (st1, error) := UploadFile(cfg, me, st, sid, jobs[0], tokens[id]);
      if error.Some? then (st1, [FileResult(id, error)], true) else
      var (st', results, failed) := SendAll(cfg, me, st1, sid, tokens, jobs[1..]);
      (st', [FileResult(id, None)] + results, failed)
  }

  function ErrorOfPrepare(status: nat): SendError {
    if status == STATUS_UNAUTHORIZED then InvalidPIN
    else if status == STATUS_FORBIDDEN then RejectedByReceiver
    else if status == STATUS_CONFLICT then SessionBusy
    else PrepareStatus(status)
  }

  function AllSent(jobs: seq<Job>): seq<FileResult> {
    seq(|jobs|, i requires 0 <= i < |jobs| => FileResult(jobs[i].source.id, None))
  }

  /** A failed transfer cancels the session, if the request arrives. */
  function Finish(st: State, results: seq<FileResult>, failed: bool, sid: Uuid, cancelArrives: bool): Outcome
    requires failed ==> results != []
  {
    if !failed then Outcome(st, results, None)
    else
      Outcome(if cancelArrives then Cancel(st, true, sid).0 else st, results,
              Some(TransferFailed(results[|results| - 1].fileId)))
  }

  function SendFiles(cfg: Config, me: Identity, st: State, jobs: seq<Job>, env: Environment): Outcome {
    if env.fate == Lost then Outcome(st, [], Some(PrepareFailed)) else
    var (st1, resp) := Prepare(cfg, st, PrepareOf(me, jobs), env.decision, env.now, env.sid, env.tokens);
    if env.fate == Unusable then Outcome(st1, [], Some(PrepareFailed)) else
    match resp
    case Refused(status) =>
      if status == STATUS_NO_CONTENT then Outcome(st1, AllSent(jobs), None)
      else Outcome(st1, [], Some(ErrorOfPrepare(status)))
    case Granted(sid, tokens) =>
      var (st2, results, failed) := SendAll(cfg, me, st1, sid, tokens, jobs);
      Finish(st2, results, failed, sid, env.cancelArrives)
  }

  // ----- the granted case, unfolded -----

  ghost predicate Grants(cfg: Config, me: Identity, st: State, jobs: seq<Job>, env: Environment) {
    && env.fate == Answered && env.sid !in st.table
    && Gate(cfg, st, PrepareOf(me, jobs), env.now).None?
    && Filtered(env.decision, Announced(jobs)) != map[]
    && env.tokens.Keys == Filtered(env.decision, Announced(jobs)).Keys
  }

  function OpenedSession(me: Identity, jobs: seq<Job>, env: Environment): Session {
    NewSession(me.remoteIP, ClientVerified(PrepareOf(me, jobs)), Filtered(env.decision, Announced(jobs)),
               env.tokens, env.now)
  }

  function Opened(me: Identity, st: State, jobs: seq<Job>, env: Environment): State {
    st.(table := st.table[env.sid := OpenedSession(me, jobs, env)])
  }

  lemma OnlyOpens(me: Identity, st: State, jobs: seq<Job>, env: Environment)
    requires env.sid !in st.table
    ensures Opened(me, st, jobs, env).table - {env.sid} == st.table
    ensures Opened(me, st, jobs, env).disk == st.disk
  {
  }

  lemma SendFilesWhenGranted(cfg: Config, me: Identity, st: State, jobs: seq<Job>, env: Environment)
    requires Grants(cfg, me, st, jobs, env)
    ensures SendFiles(cfg, me, st, jobs, env) ==
      var (st', results, failed) := SendAll(cfg, me, Opened(me, st, jobs, env), env.sid, env.tokens, jobs);
      Finish(st', results, failed, env.sid, env.cancelArrives)
  {
    assert Prepare(cfg, st, PrepareOf(me, jobs), env.decision, env.now, env.sid, env.tokens)
        == (Opened(me, st, jobs, env), Granted(env.sid, env.tokens));
  }
}
