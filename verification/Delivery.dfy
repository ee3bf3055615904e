/** End to end: an honest sender, a reliable channel, and a receiver that granted the transfer. */
module Delivery {
  import opened Protocol
  import opened Names
  import opened Sessions
  import opened Transfers
  import opened Receiver
  import opened Sender
  import opened SenderResults

  /** The transfer of one file meets nothing bad: it opens, reaches the receiver, and has exactly size bytes,
      in whatever chunks. */
  ghost predicate Untroubled(cfg: Config, job: Job) {
    && job.source.size >= 0
    && job.attempt.Reached? && job.attempt.answered
    && !job.attempt.body.createFails
    && CleanBody(job.attempt.body.turns)
    && |Contents(job)| == job.source.size
    && (cfg.strictTLS ==> job.source.id != "")
  }

  /** The checksum, if there is one, is that of the contents, in upper or lower case. */
  predicate Matches(cfg: Config, job: Job) {
    job.source.sha256 == "" || EqualFold(cfg.digest(Contents(job)), job.source.sha256)
  }

  ghost predicate Honest(cfg: Config, job: Job) {
    Untroubled(cfg, job) && Matches(cfg, job)
  }

  function Contents(job: Job): Bytes {
    if job.attempt.Reached? then Delivered(job.attempt.body.turns) else []
  }

  /** Under strict TLS, the sender shows the certificate whose fingerprint it announces. */
  predicate Trusted(cfg: Config, me: Identity) {
    cfg.strictTLS ==> me.cert.Some? && me.fingerprint == me.cert.value
  }

  ghost predicate DistinctIds(jobs: seq<Job>) {
    forall i, j :: 0 <= i < j < |jobs| ==> jobs[i].source.id != jobs[j].source.id
  }

  function Accepted(jobs: seq<Job>, tokens: map<string, Uuid>): seq<Job> {
    if jobs == [] then []
    else if jobs[0].source.id in tokens then [jobs[0]] + Accepted(jobs[1..], tokens)
    else Accepted(jobs[1..], tokens)
  }

  predicate AllEmpty(jobs: seq<Job>) {
    forall i :: 0 <= i < |jobs| ==> jobs[i].source.size == 0
  }

  /** How many of the accepted files get through: the session lasts until only empty files remain. */
  function Reach(accepted: seq<Job>): (n: nat)
    ensures n <= |accepted|
  {
    if accepted == [] then 0
    else if AllEmpty(accepted[1..]) then 1
    else 1 + Reach(accepted[1..])
  }

  /** All get through exactly when there is one, or the last has bytes. */
  lemma {:induction false} ReachIsAll(accepted: seq<Job>)
    requires accepted != [] && forall i :: 0 <= i < |accepted| ==> accepted[i].source.size >= 0
    ensures Reach(accepted) == |accepted| <==> |accepted| == 1 || accepted[|accepted| - 1].source.size > 0
  {
    var rest := accepted[1..];
    if !AllEmpty(rest) {
      ReachIsAll(rest);
      assert |rest| == 1 ==> rest[0].source.size > 0;
    } else if rest != [] {
      assert rest[|rest| - 1].source.size == 0;
    }
  }

  /** Every file that does not get through is empty, and so is the last one that does unless it is the first. */
  lemma {:induction false} ReachIsTight(accepted: seq<Job>)
    ensures forall i :: Reach(accepted) <= i < |accepted| ==> accepted[i].source.size == 0
    ensures Reach(accepted) > 1 ==> accepted[Reach(accepted) - 1].source.size != 0
  {
    if accepted != [] {
      var rest := accepted[1..];
      if !AllEmpty(rest) {
        ReachIsTight(rest);
        assert forall i :: Reach(rest) <= i < |rest| ==> accepted[i + 1] == rest[i];
        if Reach(rest) == 1 {
          assert AllEmpty(rest[1..]);
          assert forall i :: 1 <= i < |rest| ==> rest[i] == rest[1..][i - 1];
        }
      }
    }
  }

  /** The directory after this file has been stored. */
  function StoredOne(disk: Disk, job: Job): Disk {
    disk[UniqueName(disk.Keys, job.source.fileName) := Contents(job)]
  }

  /** The directory after these files have been stored one after the other. */
  function Stored(disk: Disk, files: seq<Job>): Disk
    decreases |files|
  {
    if files == [] then disk
    else Stored(StoredOne(disk, files[0]), files[1..])
  }

  /** The names that they got. */
  function StoredNames(disk: Disk, files: seq<Job>): seq<string>
    decreases |files|
  {
    if files == [] then []
    else
      var name := UniqueName(disk.Keys, files[0].source.fileName);
      [name] + StoredNames(StoredOne(disk, files[0]), files[1..])
  }

  ghost predicate Distinct(names: seq<string>) {
    forall i, j :: 0 <= i < j < |names| ==> names[i] != names[j]
  }

  /** Each name was free, and now has exactly its file's bytes. */
  ghost predicate Hold(disk: Disk, names: seq<string>, files: seq<Job>, disk': Disk) {
    |names| == |files| && forall i :: 0 <= i < |names| ==>
      names[i] !in disk && names[i] in disk' && disk'[names[i]] == Contents(files[i])
  }

  /** The old entries are as they were, and every new one has one of these names. */
  ghost predicate OnlyAdds(disk: Disk, names: seq<string>, disk': Disk) {
    && (forall name :: name in disk ==> name in disk' && disk'[name] == disk[name])
    && (forall name :: name in disk' ==> name in disk || name in names)
  }

  /** One entry per file, under distinct names that were free, with exactly the file's bytes, and nothing else. */
  ghost predicate AddsFresh(disk: Disk, names: seq<string>, files: seq<Job>, disk': Disk) {
    Distinct(names) && Hold(disk, names, files, disk') && OnlyAdds(disk, names, disk')
  }

  lemma AddsFirst(disk: Disk, name: string, names: seq<string>, files: seq<Job>, disk': Disk)
    requires files != [] && name !in disk
    requires AddsFresh(disk[name := Contents(files[0])], names, files[1..], disk')
    ensures AddsFresh(disk, [name] + names, files, disk')
  {
    var all := [name] + names;
    assert forall i :: 0 < i < |all| ==> all[i] == names[i - 1] && files[i] == files[1..][i - 1];
    assert all[0] == name;
  }

  lemma {:induction false} StoredIsFresh(disk: Disk, files: seq<Job>)
    ensures AddsFresh(disk, StoredNames(disk, files), files, Stored(disk, files))
    decreases |files|
  {
    if files != [] {
      var name := UniqueName(disk.Keys, files[0].source.fileName);
      var disk1 := disk[name := Contents(files[0])];
      StoredIsFresh(disk1, files[1..]);
      AddsFirst(disk, name, StoredNames(disk1, files[1..]), files, Stored(disk1, files[1..]));
    }
  }

  // ----- one upload -----

  /** The session still waits for all of these files and has every other one. */
  ghost predicate Waiting(s: Session, me: Identity, cfg: Config, tokens: map<string, Uuid>, accepted: seq<Job>) {
    && s.Indexed() && !s.canceled
    && s.files == tokens && s.clientIP == me.remoteIP
    && (cfg.strictTLS ==> s.clientVerified)
    && (forall i :: 0 <= i < |accepted| ==>
      var id := accepted[i].source.id;
      && id in s.metadata && s.metadata[id] == Metadata(accepted[i].source)
      && accepted[i].source.size >= 0 && s.progress[id] == 0)
    && (forall id :: id in s.metadata && id !in Ids(accepted) ==> s.HasReached(id))
  }

  lemma TouchedWaits(s: Session, now: int, me: Identity, cfg: Config, tokens: map<string, Uuid>, accepted: seq<Job>)
    requires Waiting(s, me, cfg, tokens, accepted)
    ensures Waiting(s.Touched(now), me, cfg, tokens, accepted)
  {
    var t := s.Touched(now);
    ApplyKeepsIndex(s, TouchOp(now));
    assert forall id :: id in s.metadata ==> (t.HasReached(id) <==> s.HasReached(id));
  }

  /** The session after all bytes of one file have been reported. */
  lemma WaitingForRest(s: Session, s': Session, me: Identity, cfg: Config, tokens: map<string, Uuid>,
                       accepted: seq<Job>, total: nat, turns: seq<Turn>)
    requires accepted != [] && DistinctIds(accepted) && Waiting(s, me, cfg, tokens, accepted)
    requires total == |Delivered(turns)| == accepted[0].source.size
    requires s' == ReportedTotal(s, accepted[0].source.id, total, turns)
    ensures Waiting(s', me, cfg, tokens, accepted[1..])
  {
    var id, rest := accepted[0].source.id, accepted[1..];
    ApplyKeepsIndex(s, ReportOp(id, total, LastWriteAt(turns, s.lastAccess)));
    IdsOfTail(accepted);
    assert total == 0 ==> Delivered(turns) == [];
    assert s'.HasReached(id);
    assert forall i :: 0 <= i < |rest| ==> rest[i] == accepted[i + 1];
    forall other | other in s'.metadata && other !in Ids(rest)
      ensures s'.HasReached(other)
    {
      assert other != id ==> s.HasReached(other);
    }
  }

  lemma CompletedWhenOnlyEmptyRemain(s: Session, me: Identity, cfg: Config, tokens: map<string, Uuid>, rest: seq<Job>)
    requires Waiting(s, me, cfg, tokens, rest)
    ensures s.IsCompleted() <==> AllEmpty(rest)
  {
    s.CompletedMeansAllReached();
    if AllEmpty(rest) {
      forall id | id in s.metadata
        ensures s.HasReached(id)
      {
        if id in Ids(rest) {
          var i :| 0 <= i < |rest| && rest[i].source.id == id;
        }
      }
    } else {
      var i :| 0 <= i < |rest| && rest[i].source.size != 0;
      assert !s.HasReached(rest[i].source.id);
    }
  }

  /** The first of these files is stored; the session is gone if only empty ones remain, and else waits for them. */
  ghost predicate FirstStored(disk: Disk, sid: Uuid, me: Identity, cfg: Config, tokens: map<string, Uuid>,
                              accepted: seq<Job>, st': State)
    requires accepted != []
  {
    && st'.disk == StoredOne(disk, accepted[0])
    && (sid in st'.table <==> !AllEmpty(accepted[1..]))
    && (sid in st'.table ==> Waiting(st'.table[sid], me, cfg, tokens, accepted[1..]))
  }

  lemma HonestAccept(cfg: Config, me: Identity, st: State, sid: Uuid, tokens: map<string, Uuid>, accepted: seq<Job>)
    requires accepted != [] && DistinctIds(accepted) && Honest(cfg, accepted[0])
    requires sid in st.table && Waiting(st.table[sid], me, cfg, tokens, accepted)
    ensures var (st', status) := Accept(cfg, st, sid, Metadata(accepted[0].source), accepted[0].attempt.body);
      status == STATUS_OK && FirstStored(st.disk, sid, me, cfg, tokens, accepted, st')
  {
    var job := accepted[0];
    var s := st.table[sid];
    SaveCleanBody(cfg, st, sid, Metadata(job.source), job.attempt.body);
    var s' := ReportedTotal(s, job.source.id, |Contents(job)|, job.attempt.body.turns);
    WaitingForRest(s, s', me, cfg, tokens, accepted, |Contents(job)|, job.attempt.body.turns);
    CompletedWhenOnlyEmptyRemain(s', me, cfg, tokens, accepted[1..]);
    assert st.table[sid := s'][sid] == s';
  }

  lemma HonestUpload(cfg: Config, me: Identity, st: State, sid: Uuid, tokens: map<string, Uuid>, accepted: seq<Job>)
    requires accepted != [] && DistinctIds(accepted) && Honest(cfg, accepted[0]) && Trusted(cfg, me)
    requires sid in st.table && Waiting(st.table[sid], me, cfg, tokens, accepted)
    requires accepted[0].source.id in tokens
    ensures var (st', error) := UploadFile(cfg, me, st, sid, accepted[0], tokens[accepted[0].source.id]);
      && error.None? && FirstStored(st.disk, sid, me, cfg, tokens, accepted, st')
      && st'.table - {sid} == st.table - {sid}
  {
    HonestRequest(cfg, me, st, sid, tokens, accepted);
    UploadSparesOtherSessions(cfg, st, UploadOf(me, sid, accepted[0].source.id, tokens[accepted[0].source.id]),
                              accepted[0].attempt.body);
  }

  lemma HonestRequest(cfg: Config, me: Identity, st: State, sid: Uuid, tokens: map<string, Uuid>, accepted: seq<Job>)
    requires accepted != [] && DistinctIds(accepted) && Honest(cfg, accepted[0]) && Trusted(cfg, me)
    requires sid in st.table && Waiting(st.table[sid], me, cfg, tokens, accepted)
    requires accepted[0].source.id in tokens
    ensures var id := accepted[0].source.id;
      var (st', status) := Upload(cfg, st, UploadOf(me, sid, id, tokens[id]), accepted[0].attempt.body);
      status == STATUS_OK && FirstStored(st.disk, sid, me, cfg, tokens, accepted, st')
  {
    var body := accepted[0].attempt.body;
    var touched := Touch(st, sid, body.at);
    TouchedWaits(st.table[sid], body.at, me, cfg, tokens, accepted);
    WaitingAdmits(touched.table[sid], cfg, me, sid, tokens, accepted);
    HonestAccept(cfg, me, touched, sid, tokens, accepted);
  }

  lemma WaitingAdmits(s: Session, cfg: Config, me: Identity, sid: Uuid, tokens: map<string, Uuid>, accepted: seq<Job>)
    requires accepted != [] && Untroubled(cfg, accepted[0]) && Trusted(cfg, me)
    requires Waiting(s, me, cfg, tokens, accepted) && accepted[0].source.id in tokens
    ensures var id := accepted[0].source.id;
      && id in s.metadata && s.metadata[id] == Metadata(accepted[0].source)
      && Rejection(cfg, s, UploadOf(me, sid, id, tokens[id])).None?
  {
  }

  // ----- the whole transfer -----

  /** Once the session is gone, the next accepted file fails and nothing more changes. */
  lemma {:induction false} SendAllWithoutSession(cfg: Config, me: Identity, st: State, sid: Uuid,
                                                 tokens: map<string, Uuid>, jobs: seq<Job>)
    requires sid !in st.table && forall job :: job in jobs ==> job.attempt.Reached?
    ensures var (st', _, failed) := SendAll(cfg, me, st, sid, tokens, jobs);
      st' == st && (failed <==> Accepted(jobs, tokens) != [])
    decreases |jobs|
  {
    if jobs != [] {
      assert jobs[0] in jobs;
      SendAllWithoutSession(cfg, me, st, sid, tokens, jobs[1..]);
    }
  }

  /** The files within reach are stored, the session is gone, and there was a failure if any file is out of reach. */
  ghost predicate DeliversReach(st: State, sid: Uuid, accepted: seq<Job>, st': State, failed: bool) {
    && (failed <==> Reach(accepted) < |accepted|)
    && st'.disk == Stored(st.disk, accepted[..Reach(accepted)])
    && st'.table == st.table - {sid}
  }

  lemma ReachStep(st: State, st1: State, sid: Uuid, accepted: seq<Job>, st': State, failed: bool)
    requires accepted != [] && st1.table - {sid} == st.table - {sid}
    requires st1.disk == StoredOne(st.disk, accepted[0])
    requires if AllEmpty(accepted[1..])
      then sid !in st1.table && st' == st1 && (failed <==> accepted[1..] != [])
      else DeliversReach(st1, sid, accepted[1..], st', failed)
    ensures DeliversReach(st, sid, accepted, st', failed)
  {
    StoredFirst(st.disk, accepted, Reach(accepted));
    if AllEmpty(accepted[1..]) {
      assert accepted[1..][..0] == [];
      assert st1.table - {sid} == st1.table;
    }
  }

  lemma {:induction false} HonestSendAll(cfg: Config, me: Identity, st: State, sid: Uuid,
                                         tokens: map<string, Uuid>, jobs: seq<Job>)
    requires Trusted(cfg, me) && DistinctIds(jobs) && forall job :: job in jobs ==> Honest(cfg, job)
    requires sid in st.table && Accepted(jobs, tokens) != []
    requires Waiting(st.table[sid], me, cfg, tokens, Accepted(jobs, tokens))
    ensures DeliversReach(st, sid, Accepted(jobs, tokens), SendAll(cfg, me, st, sid, tokens, jobs).0,
                          SendAll(cfg, me, st, sid, tokens, jobs).2)
    decreases |jobs|
  {
    var accepted := Accepted(jobs, tokens);
    var job, rest := jobs[0], jobs[1..];
    assert job in jobs;
    assert forall other :: other in rest ==> other in jobs && Honest(cfg, other);
    if job.source.id !in tokens {
      HonestSendAll(cfg, me, st, sid, tokens, rest);
      FirstSent(cfg, me, st, sid, tokens, jobs, st);
    } else {
      assert accepted[0] == job && accepted[1..] == Accepted(rest, tokens);
      AcceptedDistinct(jobs, tokens);
      HonestUpload(cfg, me, st, sid, tokens, accepted);
      var st1 := UploadFile(cfg, me, st, sid, job, tokens[job.source.id]).0;
      if sid in st1.table {
        HonestSendAll(cfg, me, st1, sid, tokens, rest);
      } else {
        SendAllWithoutSession(cfg, me, st1, sid, tokens, rest);
      }
      AfterFirst(cfg, me, st, st1, sid, tokens, jobs);
    }
  }

  /** The first accepted file has been stored; the rest decides. */
  lemma AfterFirst(cfg: Config, me: Identity, st: State, st1: State, sid: Uuid, tokens: map<string, Uuid>,
                   jobs: seq<Job>)
    requires jobs != [] && jobs[0].source.id in tokens
    requires UploadFile(cfg, me, st, sid, jobs[0], tokens[jobs[0].source.id]) == (st1, None)
    requires st1.table - {sid} == st.table - {sid} && st1.disk == StoredOne(st.disk, jobs[0])
    requires var accepted := Accepted(jobs[1..], tokens);
      var (st', _, failed) := SendAll(cfg, me, st1, sid, tokens, jobs[1..]);
      if AllEmpty(accepted) then sid !in st1.table && st' == st1 && (failed <==> accepted != [])
      else DeliversReach(st1, sid, accepted, st', failed)
    ensures DeliversReach(st, sid, Accepted(jobs, tokens), SendAll(cfg, me, st, sid, tokens, jobs).0,
                          SendAll(cfg, me, st, sid, tokens, jobs).2)
  {
    FirstSent(cfg, me, st, sid, tokens, jobs, st1);
    var accepted := Accepted(jobs, tokens);
    var (st', _, failed) := SendAll(cfg, me, st1, sid, tokens, jobs[1..]);
    assert accepted[0] == jobs[0] && accepted[1..] == Accepted(jobs[1..], tokens);
    ReachStep(st, st1, sid, accepted, st', failed);
  }

  lemma StoredFirst(disk: Disk, files: seq<Job>, n: nat)
    requires 0 < n <= |files|
    ensures Stored(disk, files[..n]) == Stored(StoredOne(disk, files[0]), files[1..][..n - 1])
  {
    assert files[..n][1..] == files[1..][..n - 1];
  }

  lemma {:induction false} AcceptedAreJobs(jobs: seq<Job>, tokens: map<string, Uuid>)
    ensures forall job :: job in Accepted(jobs, tokens) ==> job in jobs && job.source.id in tokens
    ensures forall job :: job in jobs && job.source.id in tokens ==> job in Accepted(jobs, tokens)
  {
    if jobs != [] {
      AcceptedAreJobs(jobs[1..], tokens);
    }
  }

  lemma {:induction false} AcceptedDistinct(jobs: seq<Job>, tokens: map<string, Uuid>)
    requires DistinctIds(jobs)
    ensures DistinctIds(Accepted(jobs, tokens))
  {
    if jobs != [] {
      AcceptedDistinct(jobs[1..], tokens);
      AcceptedAreJobs(jobs[1..], tokens);
      var tail := Accepted(jobs[1..], tokens);
      forall j | 0 <= j < |tail|
        ensures tail[j].source.id != jobs[0].source.id
      {
        assert tail[j] in jobs[1..];
      }
    }
  }

  /** The session that a grant opens waits for exactly the accepted files. */
  lemma OpenedSessionWaits(cfg: Config, me: Identity, st: State, jobs: seq<Job>, env: Environment)
    requires Grants(cfg, me, st, jobs, env) && Trusted(cfg, me) && DistinctIds(jobs)
    requires forall job :: job in jobs ==> Untroubled(cfg, job)
    ensures Accepted(jobs, env.tokens) != []
    ensures Waiting(OpenedSession(me, jobs, env), me, cfg, env.tokens, Accepted(jobs, env.tokens))
  {
    var s, accepted := OpenedSession(me, jobs, env), Accepted(jobs, env.tokens);
    AnnouncedAreAccepted(jobs, env.decision, env.tokens);
    AcceptedHaveSizes(cfg, jobs, env.tokens);
    NewSessionWaits(me.remoteIP, ClientVerified(PrepareOf(me, jobs)), s.metadata, env.tokens, env.now, me, cfg,
                    accepted);
    var id :| id in s.metadata;
    assert id in Ids(accepted);
  }

  /** The accepted files of distinct jobs, as metadata and as jobs. */
  lemma AnnouncedAreAccepted(jobs: seq<Job>, decision: Decision, tokens: map<string, Uuid>)
    requires DistinctIds(jobs) && tokens.Keys == Filtered(decision, Announced(jobs)).Keys
    ensures var metadata, accepted := Filtered(decision, Announced(jobs)), Accepted(jobs, tokens);
      && metadata.Keys == Ids(accepted)
      && forall i :: 0 <= i < |accepted| ==>
        && accepted[i].source.id in metadata
        && metadata[accepted[i].source.id] == Metadata(accepted[i].source)
  {
    var metadata, accepted := Filtered(decision, Announced(jobs)), Accepted(jobs, tokens);
    DistinctAnnounced(jobs);
    AcceptedAreJobs(jobs, tokens);
    forall i | 0 <= i < |accepted|
      ensures accepted[i].source.id in metadata && metadata[accepted[i].source.id] == Metadata(accepted[i].source)
    {
      assert accepted[i] in jobs;
    }
    forall id | id in metadata
      ensures id in Ids(accepted)
    {
      var job :| job in jobs && job.source.id == id;
      assert job in accepted;
    }
  }

  lemma NewSessionWaits(clientIP: string, clientVerified: bool, metadata: map<string, FileMetadata>,
                        tokens: map<string, Uuid>, now: int, me: Identity, cfg: Config, accepted: seq<Job>)
    requires tokens.Keys == metadata.Keys == Ids(accepted)
    requires clientIP == me.remoteIP && (cfg.strictTLS ==> clientVerified)
    requires forall i :: 0 <= i < |accepted| ==>
      && accepted[i].source.size >= 0
      && accepted[i].source.id in metadata && metadata[accepted[i].source.id] == Metadata(accepted[i].source)
    ensures Waiting(NewSession(clientIP, clientVerified, metadata, tokens, now), me, cfg, tokens, accepted)
  {
    NewSessionIndexed(clientIP, clientVerified, metadata, tokens, now);
    forall id | id in metadata
      ensures metadata[id].size >= 0
    {
      assert id in Ids(accepted);
    }
  }

  lemma {:induction false} DistinctAnnounced(jobs: seq<Job>)
    requires DistinctIds(jobs)
    ensures forall job :: job in jobs ==>
      job.source.id in Announced(jobs) && Announced(jobs)[job.source.id] == Metadata(job.source)
    ensures forall id :: id in Announced(jobs) ==> exists job :: job in jobs && job.source.id == id
  {
    if jobs != [] {
      DistinctAnnounced(jobs[1..]);
      assert jobs[0] in jobs;
      forall job | job in jobs[1..]
        ensures job.source.id != jobs[0].source.id
      {
        var i :| 0 <= i < |jobs[1..]| && jobs[1..][i] == job;
        assert jobs[i + 1] == job;
      }
    }
  }

  lemma OpenedIsDelivered(cfg: Config, me: Identity, st: State, jobs: seq<Job>, env: Environment)
    requires Grants(cfg, me, st, jobs, env) && Trusted(cfg, me) && DistinctIds(jobs)
    requires forall job :: job in jobs ==> Honest(cfg, job)
    ensures Accepted(jobs, env.tokens) != []
    ensures var accepted := Accepted(jobs, env.tokens);
      var (st', _, failed) := SendAll(cfg, me, Opened(me, st, jobs, env), env.sid, env.tokens, jobs);
      && (failed <==> Reach(accepted) < |accepted|)
      && st'.disk == Stored(st.disk, accepted[..Reach(accepted)])
      && st'.table == st.table
  {
    var st1 := Opened(me, st, jobs, env);
    OpenedSessionWaits(cfg, me, st, jobs, env);
    HonestSendAll(cfg, me, st1, env.sid, env.tokens, jobs);
    OnlyOpens(me, st, jobs, env);
  }

  /** Delivery, exactly: after a grant to an honest sender over a reliable channel, with nobody interfering,
      SendFiles succeeds if and only if one file was accepted or the last accepted file has bytes. The directory gains
      the accepted files that got through, all of them on success, under distinct names that were free, with exactly
      their bytes in whatever chunks they came, and nothing else; the session is gone and the other sessions are as
      they were. */
  lemma ExactDelivery(cfg: Config, me: Identity, st: State, jobs: seq<Job>, env: Environment)
    requires Grants(cfg, me, st, jobs, env) && Trusted(cfg, me) && DistinctIds(jobs)
    requires forall job :: job in jobs ==> Honest(cfg, job)
    ensures Accepted(jobs, env.tokens) != []
    ensures var o := SendFiles(cfg, me, st, jobs, env);
      var accepted := Accepted(jobs, env.tokens);
      && (o.error.None? <==> |accepted| == 1 || accepted[|accepted| - 1].source.size > 0)
      && (o.error.None? ==> o.state.disk == Stored(st.disk, accepted))
      && o.state.table == st.table
      && var reached := accepted[..Reach(accepted)];
        && o.state.disk == Stored(st.disk, reached)
        && AddsFresh(st.disk, StoredNames(st.disk, reached), reached, o.state.disk)
  {
    var (st', results, failed) := SendAll(cfg, me, Opened(me, st, jobs, env), env.sid, env.tokens, jobs);
    OpenedIsDelivered(cfg, me, st, jobs, env);
    AcceptedHaveSizes(cfg, jobs, env.tokens);
    SendFilesWhenGranted(cfg, me, st, jobs, env);
    var accepted := Accepted(jobs, env.tokens);
    FinishAfterReach(st.disk, accepted, st', results, failed, env.sid, env.cancelArrives);
  }

  lemma FinishAfterReach(disk: Disk, accepted: seq<Job>, st': State, results: seq<FileResult>, failed: bool,
                         sid: Uuid, cancelArrives: bool)
    requires accepted != [] && forall i :: 0 <= i < |accepted| ==> accepted[i].source.size >= 0
    requires failed <==> Reach(accepted) < |accepted|
    requires failed ==> results != []
    requires st'.disk == Stored(disk, accepted[..Reach(accepted)]) && sid !in st'.table
    ensures var o := Finish(st', results, failed, sid, cancelArrives);
      && (o.error.None? <==> |accepted| == 1 || accepted[|accepted| - 1].source.size > 0)
      && (o.error.None? ==> o.state.disk == Stored(disk, accepted))
      && o.state == st'
      && var reached := accepted[..Reach(accepted)];
        AddsFresh(disk, StoredNames(disk, reached), reached, o.state.disk)
  {
    ReachIsAll(accepted);
    StoredIsFresh(disk, accepted[..Reach(accepted)]);
    assert accepted[..|accepted|] == accepted;
    assert st'.table - {sid} == st'.table;
  }

  lemma AcceptedHaveSizes(cfg: Config, jobs: seq<Job>, tokens: map<string, Uuid>)
    requires forall job :: job in jobs ==> Untroubled(cfg, job)
    ensures forall i :: 0 <= i < |Accepted(jobs, tokens)| ==> Accepted(jobs, tokens)[i].source.size >= 0
  {
    AcceptedAreJobs(jobs, tokens);
    forall i | 0 <= i < |Accepted(jobs, tokens)|
      ensures Accepted(jobs, tokens)[i].source.size >= 0
    {
      assert Accepted(jobs, tokens)[i] in jobs;
    }
  }
}
