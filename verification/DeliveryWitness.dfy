/** Two transfers by an honest sender over a reliable channel, to an idle receiver whose user accepts everything. */
module DeliveryWitness {
  import opened Protocol
  import opened Names
  import opened Sessions
  import opened Transfers
  import opened Receiver
  import opened Manager
  import opened Sender
  import opened SenderResults
  import opened Delivery
  import opened Resend

  function Open(digest: Digest): Config {
    Config("", false, 10, 5, digest)
  }

  const ME := Identity("", None, "10.0.0.2", "")

  const IDLE := State(map[], map[])

  const ONE_BYTE: Turn := RawTurn(false, [1], EndOfBody, 1, false, 0)

  const NOTHING: Turn := RawTurn(false, [], EndOfBody, 0, false, 0)

  const FULL := Job(Source("f", "a.txt", 1, ""), Reached(Body(0, false, [ONE_BYTE]), true))

  const EMPTY := Job(Source("g", "b.txt", 0, ""), Reached(Body(0, false, [NOTHING]), true))

  function Granting(tokens: map<string, Uuid>): Environment {
    Environment(Answered, 0, Decision(true, None), 3, tokens, true)
  }

  lemma BothHonest(digest: Digest)
    ensures Honest(Open(digest), FULL) && Contents(FULL) == [1]
    ensures Honest(Open(digest), EMPTY) && Contents(EMPTY) == []
  {
    assert Delivered([ONE_BYTE]) == [1] + Delivered([]);
    assert Delivered([NOTHING]) == [] + Delivered([]);
  }

  lemma IdleGrants(digest: Digest, jobs: seq<Job>, tokens: map<string, Uuid>)
    requires Announced(jobs) != map[] && tokens.Keys == Announced(jobs).Keys
    ensures Grants(Open(digest), ME, IDLE, jobs, Granting(tokens))
  {
    var files := Announced(jobs);
    assert Filtered(Decision(true, None), files) == files;
    var id :| id in files;
    assert !AllDuplicate(IDLE.disk, files);
  }

  /** A file with bytes and then an empty one: the session is gone before the second arrives, and the transfer fails,
      although nothing went wrong. */
  lemma TrailingEmptyFileFails(digest: Digest) returns (cfg: Config, jobs: seq<Job>, env: Environment)
    ensures Grants(cfg, ME, IDLE, jobs, env) && Trusted(cfg, ME) && DistinctIds(jobs)
    ensures forall job :: job in jobs ==> Honest(cfg, job)
    ensures |jobs| == 2 && Accepted(jobs, env.tokens) == jobs
    ensures SendFiles(cfg, ME, IDLE, jobs, env).error.Some?
  {
    cfg, jobs, env := Open(digest), [FULL, EMPTY], Granting(map["f" := 1, "g" := 2]);
    BothHonest(digest);
    assert jobs[1..] == [EMPTY];
    assert Announced(jobs[1..]) == map["g" := Metadata(EMPTY.source)] + Announced(jobs[1..][1..]);
    assert Announced(jobs).Keys == {"f", "g"};
    IdleGrants(digest, jobs, env.tokens);
    AllAccepted(jobs, env.tokens);
    ExactDelivery(cfg, ME, IDLE, jobs, env);
  }

  /** One file, sent twice: the first transfer stores it, the second changes nothing. */
  lemma SentTwice(digest: Digest) returns (cfg: Config, jobs: seq<Job>, env: Environment)
    ensures Grants(cfg, ME, IDLE, jobs, env) && |jobs| == 1
    ensures var o := SendFiles(cfg, ME, IDLE, jobs, env);
      && o.error.None? && o.state.table == map[]
      && "a.txt" in o.state.disk && o.state.disk["a.txt"] == [1]
      && SendFiles(cfg, ME, o.state, jobs, env) == Outcome(o.state, AllSent(jobs), None)
  {
    cfg, jobs, env := Open(digest), [FULL], Granting(map["f" := 1]);
    BothHonest(digest);
    assert Announced(jobs).Keys == {"f"};
    IdleGrants(digest, jobs, env.tokens);
    AllAccepted(jobs, env.tokens);
    ExactDelivery(cfg, ME, IDLE, jobs, env);
    BaseOfPlainName("a.txt");
    NoneRenamed(IDLE.disk, jobs);
    IdempotentResend(cfg, ME, IDLE, jobs, env, jobs, env);
  }

  /** A granted answer that the sender cannot use: it gives up, and the receiver stays busy. */
  lemma UnusableStaysBusy(digest: Digest) returns (cfg: Config, jobs: seq<Job>, env: Environment)
    ensures env.fate == Unusable && forall job :: job in jobs ==> Honest(cfg, job)
    ensures var o := SendFiles(cfg, ME, IDLE, jobs, env);
      && o.error == Some(PrepareFailed) && o.results == []
      && env.sid in o.state.table && Busy(o.state.table, cfg.timeout, env.now + 9)
  {
    cfg, jobs, env := Open(digest), [FULL], Granting(map["f" := 1]);
    BothHonest(digest);
    assert Announced(jobs).Keys == {"f"};
    IdleGrants(digest, jobs, env.tokens);
    env := env.(fate := Unusable);
    UnusableLeaks(cfg, ME, IDLE, jobs, env);
    assert Busy(Opened(ME, IDLE, jobs, env).table, cfg.timeout, 9);
  }

  /** A file that cannot be opened, and a cancel request that is lost: the session stays. */
  lemma LostCancelLeaks(digest: Digest) returns (cfg: Config, jobs: seq<Job>, env: Environment)
    ensures !env.cancelArrives && env.fate == Answered
    ensures var o := SendFiles(cfg, ME, IDLE, jobs, env);
      o.error == Some(TransferFailed("f")) && env.sid in o.state.table
  {
    cfg, jobs := Open(digest), [Job(FULL.source, OpenFails)];
    env := Granting(map["f" := 1]).(cancelArrives := false);
    assert Announced(jobs).Keys == {"f"};
    IdleGrants(digest, jobs, env.tokens);
    assert Grants(cfg, ME, IDLE, jobs, env);
    SendFilesWhenGranted(cfg, ME, IDLE, jobs, env);
  }

  const MISMATCHED := FileMetadata("f", "a.txt", 1, "y")

  const WAITING := NewSession("10.0.0.2", false, map["f" := MISMATCHED], map["f" := 1], 0)

  /** One byte whose digest is not the announced one: the upload is answered 422, the directory stays empty, and the
      session counts its only file as complete. */
  lemma MismatchCountsAsComplete(cfg: Config)
    requires !EqualFold(cfg.digest([1]), "y")
    ensures var st := State(map[], map[3 := WAITING]);
      var (st', status) := Accept(cfg, st, 3, MISMATCHED, Body(0, false, [ONE_BYTE]));
      && status == STATUS_UNPROCESSABLE && st'.disk == map[]
      && 3 in st'.table && st'.table[3].completed == {"f"} && st'.table[3].IsCompleted()
  {
    var st, body := State(map[], map[3 := WAITING]), Body(0, false, [ONE_BYTE]);
    ReportedByte();
    SaveCleanBody(cfg, st, 3, MISMATCHED, body);
  }

  lemma ReportedByte()
    ensures CleanBody([ONE_BYTE]) && Delivered([ONE_BYTE]) == [1]
    ensures var s := ReportedTotal(WAITING, "f", 1, [ONE_BYTE]);
      s.completed == {"f"} && s.IsCompleted() && !s.canceled
  {
    assert Delivered([ONE_BYTE]) == [1] + Delivered([]);
    assert |map["f" := MISMATCHED]| == 1;
  }
}
