/** A whole transfer, sender and receiver, is a run of the interleaved receiver. */
module WorldTransfer {
  import opened Protocol
  import opened Receiver
  import opened Sender
  import opened World
  import opened WorldSessions
  import opened WorldSequential

  /** The bodies come one after the other. */
  predicate InTime(now: int, jobs: seq<Job>)
    decreases |jobs|
  {
    jobs == [] ||
    match jobs[0].attempt
    case Reached(body, _) =>
      body.at >= now && Timely(body.at, body.turns) && InTime(EndOf(body.at, body.turns), jobs[1..])
    case _ => InTime(now, jobs[1..])
  }

  lemma {:induction false} EarlierIsInTime(now: int, now': int, jobs: seq<Job>)
    requires InTime(now, jobs) && now' <= now
    ensures InTime(now', jobs)
    decreases |jobs|
  {
    if jobs != [] && !jobs[0].attempt.Reached? {
      EarlierIsInTime(now, now', jobs[1..]);
    }
  }

  /** What happens keeps sessions conserved; in particular, no stored session has been canceled. */
  lemma {:induction false} FollowsConserves(cfg: Config, w: World, es: seq<Event>, w': World)
    requires ConservedIn(w) && Follows(cfg, w, es, w')
    ensures ConservedIn(w')
    decreases |es|
  {
    if es != [] {
      StepConserves(cfg, w, es[0]);
      FollowsConserves(cfg, Step(cfg, w, es[0]), es[1..], w');
    }
  }

  lemma StoredAreLive(w: World)
    requires ConservedIn(w)
    ensures w.stored <= w.sessions.Keys
    ensures forall sid :: sid in w.stored ==> !w.sessions[sid].canceled
  {
    forall sid | sid in w.stored
      ensures sid in w.sessions && !w.sessions[sid].canceled
    {
      assert OneFate(w.sessions[sid].canceled, sid in w.stored, w.unlinked[sid], w.cancels[sid]);
    }
  }

  /** Some number names no handler yet. */
  lemma {:induction false} FreshNumber(taken: set<nat>) returns (n: nat)
    ensures forall m :: m in taken ==> m < n
    decreases taken
  {
    n := 0;
    if taken != {} {
      var m :| m in taken;
      n := FreshNumber(taken - {m});
      assert forall k :: k in taken ==> k == m || k in taken - {m};
      n := if m < n then n else m + 1;
    }
  }

  lemma UploadFileIsARun(cfg: Config, me: Identity, w: World, sid: Uuid, job: Job, token: Uuid, rest: seq<Job>)
    returns (es: seq<Event>, w': World)
    requires ConservedIn(w) && InTime(w.now, [job] + rest)
    ensures Follows(cfg, w, es, w') && ConservedIn(w') && InTime(w'.now, rest)
    ensures Visible(w') == UploadFile(cfg, me, Visible(w), sid, job, token).0
  {
    assert ([job] + rest)[1..] == rest;
    if job.attempt.Reached? {
      var body := job.attempt.body;
      var uid := FreshNumber(w.flights.Keys);
      StoredAreLive(w);
      es, w' := UploadIsARun(cfg, w, uid, UploadOf(me, sid, job.source.id, token), body);
      FollowsConserves(cfg, w, es, w');
      EarlierIsInTime(EndOf(body.at, body.turns), w'.now, rest);
    } else {
      es, w' := [], w;
    }
  }

  lemma {:induction false} SendAllIsARun(cfg: Config, me: Identity, w: World, sid: Uuid, tokens: map<string, Uuid>,
                                         jobs: seq<Job>)
    returns (es: seq<Event>, w': World)
    requires ConservedIn(w) && InTime(w.now, jobs)
    ensures Follows(cfg, w, es, w') && ConservedIn(w')
    ensures Visible(w') == SendAll(cfg, me, Visible(w), sid, tokens, jobs).0
    decreases |jobs|
  {
    es, w' := [], w;
    if jobs != [] {
      var job, rest := jobs[0], jobs[1..];
      if job.source.id !in tokens {
        SkippedIsInTime(w.now, jobs);
        es, w' := SendAllIsARun(cfg, me, w, sid, tokens, rest);
      } else {
        var token := tokens[job.source.id];
        assert jobs == [job] + rest;
        es, w' := UploadFileIsARun(cfg, me, w, sid, job, token, rest);
        if UploadFile(cfg, me, Visible(w), sid, job, token).1.None? {
          var w1 := w';
          var fs;
          fs, w' := SendAllIsARun(cfg, me, w1, sid, tokens, rest);
          FollowsThen(cfg, w, es, w1, fs, w');
          es := es + fs;
        }
      }
    }
  }

  /** The time of a file that is not sent may pass as well. */
  lemma SkippedIsInTime(now: int, jobs: seq<Job>)
    requires jobs != [] && InTime(now, jobs)
    ensures InTime(now, jobs[1..])
  {
    if jobs[0].attempt.Reached? {
      var body := jobs[0].attempt.body;
      EndIsLater(body.at, body.turns);
      EarlierIsInTime(EndOf(body.at, body.turns), now, jobs[1..]);
    }
  }

  lemma StateAfterSendFiles(cfg: Config, me: Identity, st: State, jobs: seq<Job>, env: Environment)
    ensures var (st1, resp) := Prepare(cfg, st, PrepareOf(me, jobs), env.decision, env.now, env.sid, env.tokens);
      var (st2, _, failed) := SendAll(cfg, me, st1, env.sid, env.tokens, jobs);
      SendFiles(cfg, me, st, jobs, env).state ==
        if env.fate == Lost then st
        else if env.fate == Unusable || resp.Refused? then st1
        else if failed && env.cancelArrives then Cancel(st2, true, env.sid).0
        else st2
  {
  }

  /** All of SendFiles, from the prepare request to the last upload or the cancel request, is a run of the interleaved
      receiver, from any state in which sessions are conserved, whoever else has handlers in flight. */
  lemma SendFilesIsARun(cfg: Config, me: Identity, w: World, jobs: seq<Job>, env: Environment)
    returns (es: seq<Event>, w': World)
    requires ConservedIn(w) && env.now >= w.now && InTime(env.now, jobs)
    requires env.sid !in w.sessions && env.tokens.Keys == Filtered(env.decision, Announced(jobs)).Keys
    ensures Follows(cfg, w, es, w')
    ensures Visible(w') == SendFiles(cfg, me, Visible(w), jobs, env).state
  {
    es, w' := [], w;
    StateAfterSendFiles(cfg, me, Visible(w), jobs, env);
    if env.fate != Lost {
      var req := PrepareOf(me, jobs);
      var resp := Prepare(cfg, Visible(w), req, env.decision, env.now, env.sid, env.tokens).1;
      var pid := FreshNumber(w.preparing.Keys);
      StoredAreLive(w);
      es, w' := PrepareIsARun(cfg, w, pid, req, env.decision, env.now, env.sid, env.tokens);
      FollowsConserves(cfg, w, es, w');
      if env.fate == Answered && resp.Granted? {
        var w1 := w';
        var fs;
        fs, w' := GrantedIsARun(cfg, me, w1, jobs, env);
        FollowsThen(cfg, w, es, w1, fs, w');
        es := es + fs;
      }
    }
  }

  lemma GrantedIsARun(cfg: Config, me: Identity, w: World, jobs: seq<Job>, env: Environment)
    returns (es: seq<Event>, w': World)
    requires ConservedIn(w) && w.now == env.now && InTime(env.now, jobs)
    ensures Follows(cfg, w, es, w')
    ensures var (st, _, failed) := SendAll(cfg, me, Visible(w), env.sid, env.tokens, jobs);
      Visible(w') == if failed && env.cancelArrives then Cancel(st, true, env.sid).0 else st
  {
    es, w' := SendAllIsARun(cfg, me, w, env.sid, env.tokens, jobs);
    if SendAll(cfg, me, Visible(w), env.sid, env.tokens, jobs).2 && env.cancelArrives {
      var w1 := w';
      var fs;
      StoredAreLive(w1);
      fs, w' := CancelIsARun(cfg, w1, true, env.sid);
      FollowsThen(cfg, w, es, w1, fs, w');
      es := es + fs;
    }
  }
}
