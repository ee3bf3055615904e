/** End to end, when a file's contents are not those of its announced checksum. */
module Mismatch {
  import opened Protocol
  import opened Receiver
  import opened Answers
  import opened Sender
  import opened SenderAnswers
  import opened SenderResults
  import opened Delivery

  /** The upload of a mismatching file is a checksum error and leaves the directory as it was. */
  lemma MismatchedUpload(cfg: Config, me: Identity, st: State, sid: Uuid, tokens: map<string, Uuid>, accepted: seq<Job>)
    requires accepted != [] && Untroubled(cfg, accepted[0]) && !Matches(cfg, accepted[0]) && Trusted(cfg, me)
    requires sid in st.table && Waiting(st.table[sid], me, cfg, tokens, accepted)
    requires accepted[0].source.id in tokens
    ensures var (st', error) := UploadFile(cfg, me, st, sid, accepted[0], tokens[accepted[0].source.id]);
      error == Some(ChecksumError) && st'.disk == st.disk && st'.table - {sid} == st.table - {sid}
  {
    var job := accepted[0];
    var id, body := job.source.id, job.attempt.body;
    var req := UploadOf(me, sid, id, tokens[id]);
    TransferErrors(cfg, me, st, sid, job, tokens[id]);
    MismatchedRequest(cfg, me, st, sid, tokens, accepted);
    UploadSparesOtherSessions(cfg, st, req, body);
  }

  lemma MismatchedRequest(cfg: Config, me: Identity, st: State, sid: Uuid, tokens: map<string, Uuid>,
                          accepted: seq<Job>)
    requires accepted != [] && Untroubled(cfg, accepted[0]) && !Matches(cfg, accepted[0]) && Trusted(cfg, me)
    requires sid in st.table && Waiting(st.table[sid], me, cfg, tokens, accepted)
    requires accepted[0].source.id in tokens
    ensures var id := accepted[0].source.id;
      var (st', status) := Upload(cfg, st, UploadOf(me, sid, id, tokens[id]), accepted[0].attempt.body);
      status == 422 && st'.disk == st.disk
  {
    var id := accepted[0].source.id;
    WaitingAdmits(st.table[sid], cfg, me, sid, tokens, accepted);
    AcceptedUpload(cfg, st, UploadOf(me, sid, id, tokens[id]), accepted[0].attempt.body);
  }

  /** The first m accepted files match, the next one does not, and its turn comes before the session has completed. */
  ghost predicate FailsAt(cfg: Config, accepted: seq<Job>, m: nat) {
    && m < |accepted| && (m == 0 || !AllEmpty(accepted[m..]))
    && (forall i :: 0 <= i < m ==> Matches(cfg, accepted[i])) && !Matches(cfg, accepted[m])
  }

  /** The matching files have been stored, the mismatching one is the last result, and nothing else happened. */
  ghost predicate StopsAt(st: State, sid: Uuid, accepted: seq<Job>, m: nat, after: (State, seq<FileResult>, bool))
    requires m < |accepted|
  {
    && after.2 && after.1 != []
    && after.1[|after.1| - 1] == FileResult(accepted[m].source.id, Some(ChecksumError))
    && after.0.disk == Stored(st.disk, accepted[..m])
    && after.0.table - {sid} == st.table - {sid}
  }

  lemma StopsAfterFirst(st: State, st1: State, sid: Uuid, accepted: seq<Job>, m: nat, first: FileResult,
                        after: (State, seq<FileResult>, bool))
    requires 0 < m < |accepted| && st1.table - {sid} == st.table - {sid} && st1.disk == StoredOne(st.disk, accepted[0])
    requires StopsAt(st1, sid, accepted[1..], m - 1, after)
    ensures StopsAt(st, sid, accepted, m, (after.0, [first] + after.1, true))
  {
    StoredFirst(st.disk, accepted, m);
  }

  lemma FailsInRest(cfg: Config, accepted: seq<Job>, m: nat)
    requires m > 0 && FailsAt(cfg, accepted, m)
    ensures FailsAt(cfg, accepted[1..], m - 1) && !AllEmpty(accepted[1..])
  {
    var rest := accepted[1..];
    assert rest[m - 1..] == accepted[m..];
    assert forall i :: 0 <= i < |rest| ==> rest[i] == accepted[i + 1];
    var i :| 0 <= i < |accepted[m..]| && accepted[m..][i].source.size != 0;
    assert rest[m - 1 + i].source.size != 0;
  }

  lemma MatchedUpload(cfg: Config, me: Identity, st: State, sid: Uuid, tokens: map<string, Uuid>, job: Job,
                      rest: seq<Job>, m: nat)
    returns (st1: State)
    requires Trusted(cfg, me) && DistinctIds([job] + rest) && m > 0 && FailsAt(cfg, [job] + rest, m)
    requires Untroubled(cfg, job) && job.source.id in tokens
    requires sid in st.table && Waiting(st.table[sid], me, cfg, tokens, [job] + rest)
    ensures UploadFile(cfg, me, st, sid, job, tokens[job.source.id]) == (st1, None)
    ensures st1.table - {sid} == st.table - {sid} && st1.disk == StoredOne(st.disk, job)
    ensures sid in st1.table && Waiting(st1.table[sid], me, cfg, tokens, rest) && FailsAt(cfg, rest, m - 1)
  {
    var accepted := [job] + rest;
    assert accepted[0] == job && accepted[1..] == rest;
    HonestUpload(cfg, me, st, sid, tokens, accepted);
    FailsInRest(cfg, accepted, m);
    st1 := UploadFile(cfg, me, st, sid, job, tokens[job.source.id]).0;
  }

  lemma {:induction false} MismatchStopsLoop(cfg: Config, me: Identity, st: State, sid: Uuid,
                                             tokens: map<string, Uuid>, jobs: seq<Job>, m: nat)
    requires Trusted(cfg, me) && DistinctIds(jobs) && forall job :: job in jobs ==> Untroubled(cfg, job)
    requires FailsAt(cfg, Accepted(jobs, tokens), m)
    requires sid in st.table && Waiting(st.table[sid], me, cfg, tokens, Accepted(jobs, tokens))
    ensures StopsAt(st, sid, Accepted(jobs, tokens), m, SendAll(cfg, me, st, sid, tokens, jobs))
    decreases |jobs|, 1
  {
    var job, rest := jobs[0], jobs[1..];
    assert job in jobs && forall other :: other in rest ==> other in jobs;
    if job.source.id !in tokens {
      MismatchStopsLoop(cfg, me, st, sid, tokens, rest, m);
      FirstSent(cfg, me, st, sid, tokens, jobs, st);
    } else {
      AcceptedFirst(jobs, tokens);
      AcceptedDistinct(jobs, tokens);
      if m == 0 {
        StopsNow(cfg, me, st, sid, tokens, job, rest);
      } else {
        StopsLater(cfg, me, st, sid, tokens, job, rest, m);
      }
    }
  }

  lemma AcceptedFirst(jobs: seq<Job>, tokens: map<string, Uuid>)
    requires jobs != [] && jobs[0].source.id in tokens
    ensures Accepted(jobs, tokens) == [jobs[0]] + Accepted(jobs[1..], tokens) && jobs == [jobs[0]] + jobs[1..]
  {
  }

  lemma StopsNow(cfg: Config, me: Identity, st: State, sid: Uuid, tokens: map<string, Uuid>, job: Job, rest: seq<Job>)
    requires Trusted(cfg, me) && job.source.id in tokens && Untroubled(cfg, job) && !Matches(cfg, job)
    requires sid in st.table && Waiting(st.table[sid], me, cfg, tokens, [job] + Accepted(rest, tokens))
    ensures StopsAt(st, sid, [job] + Accepted(rest, tokens), 0, SendAll(cfg, me, st, sid, tokens, [job] + rest))
  {
    var accepted, jobs := [job] + Accepted(rest, tokens), [job] + rest;
    assert accepted[0] == job && accepted[..0] == [] && jobs[0] == job;
    MismatchedUpload(cfg, me, st, sid, tokens, accepted);
  }

  lemma {:induction false} StopsLater(cfg: Config, me: Identity, st: State, sid: Uuid, tokens: map<string, Uuid>,
                                      job: Job, rest: seq<Job>, m: nat)
    requires Trusted(cfg, me) && DistinctIds(rest) && DistinctIds([job] + Accepted(rest, tokens))
    requires job.source.id in tokens && Untroubled(cfg, job) && forall other :: other in rest ==> Untroubled(cfg, other)
    requires m > 0 && FailsAt(cfg, [job] + Accepted(rest, tokens), m)
    requires sid in st.table && Waiting(st.table[sid], me, cfg, tokens, [job] + Accepted(rest, tokens))
    ensures m < |Accepted([job] + rest, tokens)|
    ensures StopsAt(st, sid, Accepted([job] + rest, tokens), m, SendAll(cfg, me, st, sid, tokens, [job] + rest))
    decreases |rest| + 1, 0
  {
    var st1 := MatchedUpload(cfg, me, st, sid, tokens, job, Accepted(rest, tokens), m);
    MismatchStopsLoop(cfg, me, st1, sid, tokens, rest, m - 1);
    StopsAfterMatch(cfg, me, st, st1, sid, tokens, job, rest, m);
  }

  lemma StopsAfterMatch(cfg: Config, me: Identity, st: State, st1: State, sid: Uuid, tokens: map<string, Uuid>,
                        job: Job, rest: seq<Job>, m: nat)
    requires job.source.id in tokens && 0 < m <= |Accepted(rest, tokens)|
    requires UploadFile(cfg, me, st, sid, job, tokens[job.source.id]) == (st1, None)
    requires st1.table - {sid} == st.table - {sid} && st1.disk == StoredOne(st.disk, job)
    requires StopsAt(st1, sid, Accepted(rest, tokens), m - 1, SendAll(cfg, me, st1, sid, tokens, rest))
    ensures m < |Accepted([job] + rest, tokens)|
    ensures StopsAt(st, sid, Accepted([job] + rest, tokens), m, SendAll(cfg, me, st, sid, tokens, [job] + rest))
  {
    var jobs := [job] + rest;
    assert jobs[0] == job && jobs[1..] == rest;
    var accepted := Accepted(jobs, tokens);
    assert accepted[0] == job && accepted[1..] == Accepted(rest, tokens);
    FirstSent(cfg, me, st, sid, tokens, jobs, st1);
    StopsAfterFirst(st, st1, sid, accepted, m, FirstResult(job, tokens), SendAll(cfg, me, st1, sid, tokens, rest));
  }

  /** A file whose contents are not those of its non-empty announced checksum: the files before it are stored, its entry
      is a checksum error, the transfer fails at it, and it adds nothing to the directory. */
  lemma MismatchIsReported(cfg: Config, me: Identity, st: State, jobs: seq<Job>, env: Environment, m: nat)
    requires Grants(cfg, me, st, jobs, env) && Trusted(cfg, me) && DistinctIds(jobs)
    requires forall job :: job in jobs ==> Untroubled(cfg, job)
    requires FailsAt(cfg, Accepted(jobs, env.tokens), m)
    ensures var o, file := SendFiles(cfg, me, st, jobs, env), Accepted(jobs, env.tokens)[m].source;
      && o.error == Some(TransferFailed(file.id))
      && o.results != [] && o.results[|o.results| - 1] == FileResult(file.id, Some(ChecksumError))
      && o.state.disk == Stored(st.disk, Accepted(jobs, env.tokens)[..m])
      && (env.cancelArrives ==> o.state.table == st.table)
  {
    var start := Opened(me, st, jobs, env);
    OpenedStops(cfg, me, st, jobs, env, m);
    SendFilesWhenGranted(cfg, me, st, jobs, env);
    OnlyOpens(me, st, jobs, env);
    FinishAfterMismatch(start, env.sid, Accepted(jobs, env.tokens), m,
                        SendAll(cfg, me, start, env.sid, env.tokens, jobs), env.cancelArrives);
  }

  lemma OpenedStops(cfg: Config, me: Identity, st: State, jobs: seq<Job>, env: Environment, m: nat)
    requires Grants(cfg, me, st, jobs, env) && Trusted(cfg, me) && DistinctIds(jobs)
    requires forall job :: job in jobs ==> Untroubled(cfg, job)
    requires FailsAt(cfg, Accepted(jobs, env.tokens), m)
    ensures StopsAt(Opened(me, st, jobs, env), env.sid, Accepted(jobs, env.tokens), m,
                    SendAll(cfg, me, Opened(me, st, jobs, env), env.sid, env.tokens, jobs))
  {
    OpenedSessionWaits(cfg, me, st, jobs, env);
    MismatchStopsLoop(cfg, me, Opened(me, st, jobs, env), env.sid, env.tokens, jobs, m);
  }

  lemma FinishAfterMismatch(st: State, sid: Uuid, accepted: seq<Job>, m: nat, after: (State, seq<FileResult>, bool),
                            cancelArrives: bool)
    requires m < |accepted| && StopsAt(st, sid, accepted, m, after)
    ensures var o, file := Finish(after.0, after.1, after.2, sid, cancelArrives), accepted[m].source;
      && o.error == Some(TransferFailed(file.id))
      && o.results != [] && o.results[|o.results| - 1] == FileResult(file.id, Some(ChecksumError))
      && o.state.disk == Stored(st.disk, accepted[..m])
      && (cancelArrives ==> o.state.table == st.table - {sid})
  {
  }
}
