/** The sender as an object that talks to a receiver, and the reader that counts what it sends. */
module Client {
  import opened Protocol
  import opened Receiver
  import opened Server
  import opened SenderResults
  import S = Sender

  // ----- progress -----

  /** The values that the progress callback sees while chunks of these sizes are read. */
  function Reports(sizes: seq<nat>, current: nat): seq<nat> {
    if sizes == [] then []
    else if sizes[0] == 0 then Reports(sizes[1..], current)
    else [current + sizes[0]] + Reports(sizes[1..], current + sizes[0])
  }

  function Sum(sizes: seq<nat>): nat {
    if sizes == [] then 0 else sizes[0] + Sum(sizes[1..])
  }

  /** Strictly increasing values above low, the last of them high; none if there is nothing between. */
  ghost predicate ClimbsTo(reports: seq<nat>, low: nat, high: nat) {
    && (forall i, j :: 0 <= i < j < |reports| ==> reports[i] < reports[j])
    && (forall i :: 0 <= i < |reports| ==> low < reports[i])
    && (if low == high then reports == [] else reports != [] && reports[|reports| - 1] == high)
  }

  lemma ClimbOnce(low: nat, next: nat, high: nat, rest: seq<nat>)
    requires low < next && ClimbsTo(rest, next, high)
    ensures ClimbsTo([next] + rest, low, high)
  {
    var reports := [next] + rest;
    assert forall i :: 0 < i < |reports| ==> reports[i] == rest[i - 1];
    if next != high {
      assert next < rest[|rest| - 1];
    }
  }

  /** Reported progress strictly increases, starts above the count before, and ends at the bytes read. */
  lemma {:induction false} ProgressIncreases(sizes: seq<nat>, current: nat)
    ensures ClimbsTo(Reports(sizes, current), current, current + Sum(sizes))
  {
    if sizes != [] {
      var next := current + sizes[0];
      ProgressIncreases(sizes[1..], next);
      if sizes[0] > 0 {
        var rest := Reports(sizes[1..], next);
        ClimbOnce(current, next, current + Sum(sizes), rest);
        assert Reports(sizes, current) == [next] + rest;
      }
    }
  }

  lemma {:induction false} ReportsAppend(sizes: seq<nat>, n: nat, current: nat)
    ensures Reports(sizes + [n], current) ==
      Reports(sizes, current) + if n > 0 then [current + Sum(sizes) + n] else []
    ensures Sum(sizes + [n]) == Sum(sizes) + n
  {
    if sizes == [] {
      assert sizes + [n] == [n];
    } else {
      ReportsAppend(sizes[1..], n, current + sizes[0]);
      assert (sizes + [n])[1..] == sizes[1..] + [n];
    }
  }

  class ProgressReader {
    var current: nat
    var reported: seq<nat>     // what the callback has seen
    ghost var sizes: seq<nat>  // what the wrapped reader has returned

    ghost predicate Valid()
      reads this
    {
      current == Sum(sizes) && reported == Reports(sizes, 0)
    }

    constructor ()
      ensures Valid() && sizes == []
    {
      current, reported, sizes := 0, [], [];
    }

    /** n is the count that the wrapped reader returns for this call. */
    method Read(n: nat)
      requires Valid()
      modifies this
      ensures Valid() && sizes == old(sizes) + [n]
    {
      ReportsAppend(sizes, n, 0);
      if n > 0 {
        current := current + n;
        reported := reported + [current];
      }
      sizes := sizes + [n];
    }
  }

  // ----- SendFiles -----

  /** The loop is on its way to this goal: the results so far, then what the rest gives from here. */
  ghost predicate StillToSend(cfg: Config, me: S.Identity, st: State, sid: Uuid, tokens: map<string, Uuid>,
                              jobs: seq<S.Job>, sent: seq<S.FileResult>, goal: (State, seq<S.FileResult>, bool))
  {
    var (st', rest, fails) := S.SendAll(cfg, me, st, sid, tokens, jobs);
    goal == (st', sent + rest, fails)
  }

  lemma SkippedOne(cfg: Config, me: S.Identity, st: State, sid: Uuid, tokens: map<string, Uuid>, jobs: seq<S.Job>,
                   i: nat, sent: seq<S.FileResult>, goal: (State, seq<S.FileResult>, bool))
    requires i < |jobs| && jobs[i].source.id !in tokens
    requires StillToSend(cfg, me, st, sid, tokens, jobs[i..], sent, goal)
    ensures StillToSend(cfg, me, st, sid, tokens, jobs[i + 1..],
                        sent + [S.FileResult(jobs[i].source.id, Some(S.NotAccepted))], goal)
  {
    assert jobs[i..][1..] == jobs[i + 1..];
    var rest := S.SendAll(cfg, me, st, sid, tokens, jobs[i..]).1;
    assert sent + rest == (sent + [rest[0]]) + rest[1..];
  }

  lemma SentOne(cfg: Config, me: S.Identity, st: State, st1: State, sid: Uuid, tokens: map<string, Uuid>,
                jobs: seq<S.Job>, i: nat, error: Option<S.FileError>,
                sent: seq<S.FileResult>, goal: (State, seq<S.FileResult>, bool))
    requires i < |jobs| && jobs[i].source.id in tokens
    requires (st1, error) == S.UploadFile(cfg, me, st, sid, jobs[i], tokens[jobs[i].source.id])
    requires StillToSend(cfg, me, st, sid, tokens, jobs[i..], sent, goal)
    ensures var sent1 := sent + [S.FileResult(jobs[i].source.id, error)];
      if error.Some? then goal == (st1, sent1, true)
      else StillToSend(cfg, me, st1, sid, tokens, jobs[i + 1..], sent1, goal)
  {
    var all, rest := jobs[i..], jobs[i + 1..];
    assert all[0] == jobs[i] && all[1..] == rest;
    var id := jobs[i].source.id;
    if error.Some? {
      assert S.SendAll(cfg, me, st, sid, tokens, all) == (st1, [S.FileResult(id, error)], true);
    } else {
      var (st', results, failed) := S.SendAll(cfg, me, st1, sid, tokens, rest);
      assert S.SendAll(cfg, me, st, sid, tokens, all) == (st', [S.FileResult(id, None)] + results, failed);
      assert sent + ([S.FileResult(id, None)] + results) == (sent + [S.FileResult(id, None)]) + results;
    }
  }

  class Client {
    const me: S.Identity

    constructor (me: S.Identity)
      ensures this.me == me
    {
      this.me := me;
    }

    method Announce(jobs: seq<S.Job>) returns (files: map<string, FileMetadata>)
      ensures files == S.Announced(jobs)
    {
      files := map[];
      for i := 0 to |jobs|
        invariant files + S.Announced(jobs[i..]) == S.Announced(jobs)
      {
        files := files[jobs[i].source.id := S.Metadata(jobs[i].source)];
        assert jobs[i..][1..] == jobs[i + 1..];
      }
    }

    method UploadFile(server: Server, sid: Uuid, job: S.Job, token: Uuid) returns (error: Option<S.FileError>)
      requires server.Valid()
      modifies server`disk, server.mgr,
        if sid in server.mgr.sessions then {server.mgr.sessions[sid]} else {}
      ensures server.Valid() && server.mgr.sessions.Keys <= old(server.mgr.sessions.Keys)
      ensures forall id :: id in server.mgr.sessions ==> server.mgr.sessions[id] == old(server.mgr.sessions)[id]
      ensures (server.View(), error) == S.UploadFile(server.cfg, me, old(server.View()), sid, job, token)
    {
      match job.attempt
      case OpenFails =>
        error := Some(S.OpenError);
      case Unreached =>
        error := Some(S.ExchangeError);
      case Reached(body, answered) =>
        var reader := new BodyReader(body.turns);
        var status := server.HandleUpload(
          UploadRequest(true, sid, job.source.id, token, me.remoteIP, me.cert), body.at, body.createFails, reader);
        error := if !answered then Some(S.ExchangeError)
                 else if status == STATUS_UNPROCESSABLE then Some(S.ChecksumError)
                 else if status != STATUS_OK then Some(S.StatusError(status))
                 else None;
    }

    /** The sending loop, up to the first failure. */
    method SendAll(server: Server, sid: Uuid, tokens: map<string, Uuid>, jobs: seq<S.Job>)
      returns (results: seq<S.FileResult>, failed: bool)
      requires server.Valid()
      modifies server`disk, server.mgr,
        if sid in server.mgr.sessions then {server.mgr.sessions[sid]} else {}
      ensures server.Valid() && server.mgr.sessions.Keys <= old(server.mgr.sessions.Keys)
      ensures forall id :: id in server.mgr.sessions ==> server.mgr.sessions[id] == old(server.mgr.sessions)[id]
      ensures (server.View(), results, failed) == S.SendAll(server.cfg, me, old(server.View()), sid, tokens, jobs)
    {
      results := [];
      ghost var goal := S.SendAll(server.cfg, me, server.View(), sid, tokens, jobs);
      assert jobs[0..] == jobs && [] + goal.1 == goal.1;
      for i := 0 to |jobs|
        invariant server.Valid() && server.mgr.sessions.Keys <= old(server.mgr.sessions.Keys)
        invariant forall id :: id in server.mgr.sessions ==> server.mgr.sessions[id] == old(server.mgr.sessions)[id]
        invariant StillToSend(server.cfg, me, server.View(), sid, tokens, jobs[i..], results, goal)
      {
        ghost var st, sent := server.View(), results;
        var f := jobs[i].source;
        if f.id !in tokens {
          results := results + [S.FileResult(f.id, Some(S.NotAccepted))];
          SkippedOne(server.cfg, me, st, sid, tokens, jobs, i, sent, goal);
        } else {
          var error := UploadFile(server, sid, jobs[i], tokens[f.id]);
          results := results + [S.FileResult(f.id, error)];
          SentOne(server.cfg, me, st, server.View(), sid, tokens, jobs, i, error, sent, goal);
          if error.Some? {
            return results, true;
          }
        }
      }
      failed := false;
      assert jobs[|jobs|..] == [] && results + [] == results;
    }

    /** After a grant: the sending loop, then a cancel request for the session if a transfer failed. */
    method SendGranted(server: Server, sid: Uuid, tokens: map<string, Uuid>, jobs: seq<S.Job>, cancelArrives: bool)
      returns (results: seq<S.FileResult>, error: Option<S.SendError>)
      requires server.Valid()
      modifies server`disk, server.mgr,
        if sid in server.mgr.sessions then {server.mgr.sessions[sid]} else {}
      ensures server.Valid()
      ensures var (st, sent, failed) := S.SendAll(server.cfg, me, old(server.View()), sid, tokens, jobs);
        (failed ==> sent != [])
        && S.Outcome(server.View(), results, error) == S.Finish(st, sent, failed, sid, cancelArrives)
    {
      SendAllAligned(server.cfg, me, server.View(), sid, tokens, jobs);
      var failed;
      results, failed := SendAll(server, sid, tokens, jobs);
      if !failed {
        return results, None;
      }
      if cancelArrives {
        var status := server.HandleCancel(true, sid);
      }
      error := Some(S.TransferFailed(results[|results| - 1].fileId));
    }

    /** env collects what the outside did: whether messages arrived, what the user answered, which identifiers the
        receiver drew. */
    method SendFiles(server: Server, jobs: seq<S.Job>, fate: S.PrepareFate, now: int, decision: Decision,
                     cancelArrives: bool)
      returns (results: seq<S.FileResult>, error: Option<S.SendError>, ghost env: S.Environment)
      requires server.Valid()
      modifies server`disk, server.mgr, server.mgr.uuids, server.mgr.sessions.Values
      ensures server.Valid()
      ensures env == S.Environment(fate, now, decision, env.sid, env.tokens, cancelArrives)
      ensures env.sid !in old(server.mgr.table)
      ensures fate != S.Lost &&
        Prepare(server.cfg, old(server.View()), S.PrepareOf(me, jobs), decision, now, env.sid, env.tokens).1.Granted?
        ==> env.tokens.Keys == Filtered(decision, S.Announced(jobs)).Keys
      ensures S.Outcome(server.View(), results, error) == S.SendFiles(server.cfg, me, old(server.View()), jobs, env)
    {
      env := S.Environment(fate, now, decision, server.mgr.uuids.next, map[], cancelArrives);
      if fate == S.Lost {
        return [], Some(S.PrepareFailed), env;
      }
      ghost var st := server.View();
      var files := Announce(jobs);
      var req := PrepareRequest(true, me.pin, me.cert, me.remoteIP, me.fingerprint, Some(files));
      assert req == S.PrepareOf(me, jobs) && server.View() == st;
      var resp := server.HandlePrepareUpload(req, decision, now);
      if resp.Granted? {
        env := env.(sid := resp.sid, tokens := resp.tokens);
      }
      assert (server.View(), resp) == Prepare(server.cfg, st, req, decision, now, env.sid, env.tokens);
      if fate == S.Unusable {
        return [], Some(S.PrepareFailed), env;
      }
      if resp.Refused? {
        if resp.status == STATUS_NO_CONTENT {
          return S.AllSent(jobs), None, env;
        }
        error := Some(S.ErrorOfPrepare(resp.status));
        return [], error, env;
      }
      results, error := SendGranted(server, resp.sid, resp.tokens, jobs, cancelArrives);
    }
  }
}
