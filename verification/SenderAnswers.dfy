/** What the sender announces, and what it makes of the receiver's answers. */
module SenderAnswers {
  import opened Protocol
  import opened Receiver
  import opened Answers
  import opened Sender
  import opened SenderResults

  /** Every file is announced under its identifier, with the name, the size and the checksum of the last source that has
      this identifier. */
  lemma {:induction false} AnnouncedAsGiven(jobs: seq<Job>, id: string) returns (i: nat)
    requires id in Announced(jobs)
    ensures i < |jobs| && jobs[i].source.id == id
    ensures forall j :: i < j < |jobs| ==> jobs[j].source.id != id
    ensures var meta, f := Announced(jobs)[id], jobs[i].source;
      meta.id == id && meta.fileName == f.fileName && meta.size == f.size && meta.sha256 == f.sha256
  {
    if id in Announced(jobs[1..]) {
      var k := AnnouncedAsGiven(jobs[1..], id);
      i := k + 1;
      assert forall j :: i < j < |jobs| ==> jobs[j] == jobs[1..][j - 1];
    } else {
      i := 0;
      assert forall j :: 0 < j < |jobs| ==> jobs[j] == jobs[1..][j - 1];
      assert forall j :: 0 < j < |jobs| ==> jobs[j].source.id != id by {
        AllAnnounced(jobs[1..]);
      }
    }
  }

  lemma {:induction false} AllAnnounced(jobs: seq<Job>)
    ensures forall i :: 0 <= i < |jobs| ==> jobs[i].source.id in Announced(jobs)
  {
    if jobs != [] {
      AllAnnounced(jobs[1..]);
      forall i | 0 <= i < |jobs|
        ensures jobs[i].source.id in Announced(jobs)
      {
        assert i > 0 ==> jobs[i] == jobs[1..][i - 1];
      }
    }
  }

  /** What the sender makes of one transfer: only an answered 200 is a success, and only an answered 422 is a checksum
      error. */
  lemma TransferErrors(cfg: Config, me: Identity, st: State, sid: Uuid, job: Job, token: Uuid)
    ensures var (st', error) := UploadFile(cfg, me, st, sid, job, token);
      match job.attempt
      case OpenFails => error == Some(OpenError) && st' == st
      case Unreached => error == Some(ExchangeError) && st' == st
      case Reached(body, answered) =>
        var (st2, status) := Upload(cfg, st, UploadOf(me, sid, job.source.id, token), body);
        && st' == st2
        && (!answered ==> error == Some(ExchangeError))
        && (answered ==> (error.None? <==> status == 200) && (error == Some(ChecksumError) <==> status == 422))
        && (answered && status != 200 && status != 422 ==> error == Some(StatusError(status)))
  {
  }

  /** The sender's answer to its caller, from the receiver's settings, directory and sessions: a wrong PIN, a missing
      certificate, files that are all there, a busy receiver and a user who wants nothing each have their own; otherwise
      there is a session and only a transfer can fail. */
  lemma PreparedExactly(cfg: Config, me: Identity, st: State, jobs: seq<Job>, env: Environment)
    requires env.fate == Answered
    ensures var o := SendFiles(cfg, me, st, jobs, env);
      if cfg.pin != "" && me.pin != cfg.pin then o == Outcome(st, [], Some(InvalidPIN))
      else if cfg.strictTLS && me.cert.None? then o == Outcome(st, [], Some(RejectedByReceiver))
      else if AllThere(st.disk, Announced(jobs)) then o.state == st && o.error.None? && |o.results| == |jobs|
      else if SomeoneLive(cfg, st, env.now) then o == Outcome(st, [], Some(SessionBusy))
      else if forall id :: id in Announced(jobs) ==> !Wanted(env.decision, id) then
        o == Outcome(st, [], Some(RejectedByReceiver))
      else o.error.None? || o.error.value.TransferFailed?
  {
    var req := PrepareOf(me, jobs);
    PrepareExactly(cfg, st, req, env.decision, env.now, env.sid, env.tokens);
    assert Known(cfg, req) <==> (cfg.pin == "" || me.pin == cfg.pin) && (cfg.strictTLS ==> me.cert.Some?);
    if Prepare(cfg, st, req, env.decision, env.now, env.sid, env.tokens).1.Granted? {
      GrantedResultsAlign(cfg, me, st, jobs, env);
    }
  }
}
