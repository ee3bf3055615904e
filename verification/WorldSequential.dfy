/** The handlers and the sweep as single functions are runs of the interleaved receiver: what they do, it can do. */
module WorldSequential {
  import opened Protocol
  import opened Names
  import opened Sessions
  import opened Manager
  import opened Transfers
  import opened Receiver
  import opened World

  /** The events lead from w to w'. */
  ghost predicate Follows(cfg: Config, w: World, es: seq<Event>, w': World)
    decreases |es|
  {
    if es == [] then w == w'
    else Enabled(cfg, w, es[0]) && Follows(cfg, Step(cfg, w, es[0]), es[1..], w')
  }

  lemma {:induction false} FollowsThen(cfg: Config, w: World, es: seq<Event>, w1: World, fs: seq<Event>, w2: World)
    requires Follows(cfg, w, es, w1) && Follows(cfg, w1, fs, w2)
    ensures Follows(cfg, w, es + fs, w2)
    decreases |es|
  {
    if es == [] {
      assert es + fs == fs;
    } else {
      FollowsThen(cfg, Step(cfg, w, es[0]), es[1..], w1, fs, w2);
      assert (es + fs)[1..] == es[1..] + fs;
    }
  }

  lemma OneStep(cfg: Config, w: World, e: Event)
    requires Enabled(cfg, w, e)
    ensures Follows(cfg, w, [e], Step(cfg, w, e))
  {
    assert [e][1..] == [];
  }

  /** Events that lead somewhere are a run. */
  lemma {:induction false} FollowsIsRun(cfg: Config, w: World, es: seq<Event>, w': World) returns (ws: seq<World>)
    requires Follows(cfg, w, es, w')
    ensures IsRun(cfg, ws, es) && ws[0] == w && ws[|es|] == w'
    decreases |es|
  {
    if es == [] {
      ws := [w];
    } else {
      var rest := FollowsIsRun(cfg, Step(cfg, w, es[0]), es[1..], w');
      ws := [w] + rest;
      forall i: nat | i < |es|
        ensures Linked(cfg, ws, es, i)
      {
        if i > 0 {
          assert Linked(cfg, rest, es[1..], i - 1);
          assert es[i] == es[1..][i - 1] && ws[i] == rest[i - 1] && ws[i + 1] == rest[i];
        }
      }
    }
  }

  /** The clock can reach the time of every report in order. */
  predicate Timely(now: int, turns: seq<Turn>)
    decreases |turns|
  {
    turns == [] || (turns[0].at >= now && Timely(turns[0].at, turns[1..]))
  }

  /** When the last report is made, if all turns are taken. */
  function EndOf(now: int, turns: seq<Turn>): int
    decreases |turns|
  {
    if turns == [] then now else EndOf(turns[0].at, turns[1..])
  }

  lemma {:induction false} EndIsLater(now: int, turns: seq<Turn>)
    requires Timely(now, turns)
    ensures now <= EndOf(now, turns)
    decreases |turns|
  {
    if turns != [] {
      EndIsLater(turns[0].at, turns[1..]);
    }
  }

  // ----- one turn of the copy loop -----

  /** The upload uid of session sid is at its loop head, with t on disk. */
  ghost predicate Heading(w: World, uid: nat, sid: Uuid, meta: FileMetadata, path: string, t: Transfer) {
    && uid in w.flights && w.flights[uid] == Flight(sid, meta, path, t, AtHead)
    && sid in w.sessions && sid in w.stored && !w.sessions[sid].canceled
    && path in w.disk && w.disk[path] == t.content
  }

  /** What changed between two moments of one upload that runs alone: its flight, its file, its session, the clock. */
  ghost predicate Alone(w: World, w': World, uid: nat, f: Flight, disk: Disk, s: Session)
    requires uid in w.flights
  {
    && w'.flights == w.flights[uid := f] && w'.disk == disk
    && w'.sessions == w.sessions[f.sid := s]
  }

  lemma DeletedTurn(cfg: Config, w: World, uid: nat, sid: Uuid, meta: FileMetadata, path: string, t: Transfer)
    returns (es: seq<Event>, w': World)
    requires Heading(w, uid, sid, meta, path, t)
    ensures Follows(cfg, w, es, w')
    ensures Alone(w, w', uid, Flight(sid, meta, path, t, Finished(Some(UploadCanceled))), w.disk - {path},
                  w.sessions[sid].(canceled := true))
    ensures w'.stored == w.stored - {sid} && w'.now == w.now
  {
    var e0, e1, e2 := CancelArrives(sid), ContextCanceled(sid), UploadActs(uid, CheckHead);
    var w1 := Step(cfg, w, e0);
    var w2 := Step(cfg, w1, e1);
    w' := Step(cfg, w2, e2);
    OneStep(cfg, w, e0);
    OneStep(cfg, w1, e1);
    OneStep(cfg, w2, e2);
    FollowsThen(cfg, w, [e0], w1, [e1], w2);
    FollowsThen(cfg, w, [e0] + [e1], w2, [e2], w');
    es := [e0] + [e1] + [e2];
    assert w'.sessions == w.sessions[sid := w.sessions[sid].(canceled := true)];
  }

  /** The loop head and the read. */
  lemma HeadAndRead(cfg: Config, w: World, uid: nat, sid: Uuid, meta: FileMetadata, path: string, t: Transfer,
                    data: Bytes, err: ReadError)
    returns (es: seq<Event>, w': World)
    requires Heading(w, uid, sid, meta, path, t) && |data| <= BUFFER_SIZE
    ensures Follows(cfg, w, es, w')
    ensures w' == w.(flights := w.flights[uid := Flight(sid, meta, path, t,
      if data == [] then PhaseAfter(AfterRead(err)) else AtWrite(data, err))])
  {
    var e0, e1 := UploadActs(uid, CheckHead), UploadActs(uid, ReadBody(data, err));
    var w1 := Step(cfg, w, e0);
    assert w.sessions[sid := w.sessions[sid]] == w.sessions;
    assert w1 == w.(flights := w.flights[uid := Flight(sid, meta, path, t, AtRead)]);
    w' := Step(cfg, w1, e1);
    OneStep(cfg, w, e0);
    OneStep(cfg, w1, e1);
    FollowsThen(cfg, w, [e0], w1, [e1], w');
    es := [e0] + [e1];
    assert w.flights[uid := w1.flights[uid]][uid := w'.flights[uid]] == w.flights[uid := w'.flights[uid]];
  }

  lemma EmptyTurn(cfg: Config, w: World, uid: nat, sid: Uuid, meta: FileMetadata, path: string, t: Transfer,
                  err: ReadError)
    returns (es: seq<Event>, w': World)
    requires Heading(w, uid, sid, meta, path, t)
    ensures Follows(cfg, w, es, w')
    ensures Alone(w, w', uid, Flight(sid, meta, path, t, PhaseAfter(AfterRead(err))), w.disk, w.sessions[sid])
    ensures w'.stored == w.stored && w'.now == w.now
  {
    es, w' := HeadAndRead(cfg, w, uid, sid, meta, path, t, [], err);
    assert w.sessions[sid := w.sessions[sid]] == w.sessions;
  }

  lemma WritingTurn(cfg: Config, w: World, uid: nat, sid: Uuid, meta: FileMetadata, path: string, t: Transfer,
                    turn: Turn)
    returns (es: seq<Event>, w': World)
    requires Heading(w, uid, sid, meta, path, t) && !turn.deleted && turn.data != [] && turn.at >= w.now
    ensures Follows(cfg, w, es, w')
    ensures var (t', s', verdict) := Iterate(t, w.sessions[sid], meta.id, turn);
      Alone(w, w', uid, Flight(sid, meta, path, t', PhaseAfter(verdict)), w.disk[path := t'.content], s')
    ensures w'.stored == w.stored && w'.now == turn.at
  {
    var es1, w1 := HeadAndRead(cfg, w, uid, sid, meta, path, t, turn.data, turn.err);
    var e2, e3 := Wait(turn.at - w.now), UploadActs(uid, WriteChunk(turn.nw, turn.writeFails));
    var w2 := Step(cfg, w1, e2);
    w' := Step(cfg, w2, e3);
    OneStep(cfg, w1, e2);
    OneStep(cfg, w2, e3);
    FollowsThen(cfg, w, es1, w1, [e2], w2);
    FollowsThen(cfg, w, es1 + [e2], w2, [e3], w');
    es := es1 + [e2] + [e3];
    assert w.flights[uid := w1.flights[uid]][uid := w'.flights[uid]] == w.flights[uid := w'.flights[uid]];
  }

  // ----- the whole copy loop -----

  lemma AloneTransitive(w: World, w1: World, w2: World, uid: nat, f1: Flight, d1: Disk, s1: Session,
                        f2: Flight, d2: Disk, s2: Session)
    requires uid in w.flights && Alone(w, w1, uid, f1, d1, s1) && Alone(w1, w2, uid, f2, d2, s2) && f1.sid == f2.sid
    ensures Alone(w, w2, uid, f2, d2, s2)
  {
    assert w.flights[uid := f1][uid := f2] == w.flights[uid := f2];
    assert w.sessions[f1.sid := s1][f1.sid := s2] == w.sessions[f1.sid := s2];
  }

  function PhaseAtEnd(end: Option<Failure>): Phase {
    if end.None? then AtVerify else Finished(end)
  }

  /** The state in which the loop leaves the world. */
  ghost predicate LoopLeaves(w: World, w': World, uid: nat, sid: Uuid, meta: FileMetadata, path: string,
                             result: (Transfer, Session, Option<Failure>))
    requires uid in w.flights
  {
    var (t', s', end) := result;
    && Alone(w, w', uid, Flight(sid, meta, path, t', PhaseAtEnd(end)),
             if end == Some(UploadCanceled) then w.disk - {path} else w.disk[path := t'.content], s')
    && w'.stored == if end == Some(UploadCanceled) then w.stored - {sid} else w.stored
  }

  lemma TurnIsARun(cfg: Config, w: World, uid: nat, sid: Uuid, meta: FileMetadata, path: string, t: Transfer,
                   turn: Turn)
    returns (es: seq<Event>, w': World)
    requires Heading(w, uid, sid, meta, path, t) && !turn.deleted && turn.at >= w.now
    ensures Follows(cfg, w, es, w')
    ensures var (t', s', verdict) := Iterate(t, w.sessions[sid], meta.id, turn);
      Alone(w, w', uid, Flight(sid, meta, path, t', PhaseAfter(verdict)), w.disk[path := t'.content], s')
    ensures w'.stored == w.stored && w'.now <= turn.at
  {
    if turn.data == [] {
      es, w' := EmptyTurn(cfg, w, uid, sid, meta, path, t, turn.err);
      assert w.disk[path := t.content] == w.disk;
    } else {
      es, w' := WritingTurn(cfg, w, uid, sid, meta, path, t, turn);
    }
  }

  lemma LaterIsTimely(now: int, now': int, turns: seq<Turn>)
    requires Timely(now, turns) && now' <= now
    ensures Timely(now', turns)
  {
  }

  lemma {:induction false} LoopIsARun(cfg: Config, w: World, uid: nat, sid: Uuid, meta: FileMetadata, path: string,
                                      t: Transfer, turns: seq<Turn>)
    returns (es: seq<Event>, w': World)
    requires Heading(w, uid, sid, meta, path, t) && Timely(w.now, turns)
    ensures Follows(cfg, w, es, w')
    ensures LoopLeaves(w, w', uid, sid, meta, path, Loop(t, w.sessions[sid], meta.id, turns))
    ensures w'.now <= EndOf(w.now, turns)
    decreases |turns|
  {
    EndIsLater(w.now, turns);
    if turns == [] {
      es, w' := EmptyTurn(cfg, w, uid, sid, meta, path, t, ReadFailure);
      assert w.disk[path := t.content] == w.disk;
    } else if turns[0].deleted {
      es, w' := DeletedTurn(cfg, w, uid, sid, meta, path, t);
    } else {
      var s := w.sessions[sid];
      var (t1, s1, verdict) := Iterate(t, s, meta.id, turns[0]);
      var es1, w1 := TurnIsARun(cfg, w, uid, sid, meta, path, t, turns[0]);
      EndIsLater(turns[0].at, turns[1..]);
      if verdict != Continue {
        es, w' := es1, w1;
        assert verdict != Abort(UploadCanceled);
      } else {
        LaterIsTimely(turns[0].at, w1.now, turns[1..]);
        var es2;
        es2, w' := LoopIsARun(cfg, w1, uid, sid, meta, path, t1, turns[1..]);
        FollowsThen(cfg, w, es1, w1, es2, w');
        es := es1 + es2;
        LoopLeavesAfterTurn(w, w1, w', uid, sid, meta, path, t1, s1, Loop(t1, s1, meta.id, turns[1..]));
      }
    }
  }

  lemma LoopLeavesAfterTurn(w: World, w1: World, w2: World, uid: nat, sid: Uuid, meta: FileMetadata, path: string,
                            t1: Transfer, s1: Session, result: (Transfer, Session, Option<Failure>))
    requires uid in w.flights && uid in w1.flights && w1.stored == w.stored
    requires Alone(w, w1, uid, Flight(sid, meta, path, t1, AtHead), w.disk[path := t1.content], s1)
    requires LoopLeaves(w1, w2, uid, sid, meta, path, result)
    ensures LoopLeaves(w, w2, uid, sid, meta, path, result)
  {
    var (t', s', end) := result;
    var d := w.disk[path := t1.content];
    assert d - {path} == w.disk - {path};
    assert d[path := t'.content] == w.disk[path := t'.content];
    AloneTransitive(w, w1, w2, uid, Flight(sid, meta, path, t1, AtHead), d, s1,
                    Flight(sid, meta, path, t', PhaseAtEnd(end)),
                    if end == Some(UploadCanceled) then d - {path} else d[path := t'.content], s');
  }

  // ----- the whole upload -----

  lemma VisibleAlone(w: World, w': World, sid: Uuid, s: Session)
    requires sid in w.stored && sid in w.sessions && w'.sessions == w.sessions[sid := s]
    ensures w'.stored == w.stored ==> Visible(w').table == Visible(w).table[sid := s]
    ensures w'.stored == w.stored - {sid} ==> Visible(w').table == Visible(w).table - {sid}
  {
  }

  function StatusAnswered(phase: Phase): nat {
    if phase.Finished? && phase.failure.Some? then StatusOf(phase.failure.value) else STATUS_OK
  }

  /** The upload has been received completely; the rest is the checksum and the release of the session. */
  lemma SettleIsARun(cfg: Config, w: World, uid: nat, sid: Uuid, meta: FileMetadata, path: string, t: Transfer)
    returns (es: seq<Event>, w': World)
    requires uid in w.flights && w.flights[uid] == Flight(sid, meta, path, t, AtVerify)
    requires sid in w.stored && sid in w.sessions
    ensures Follows(cfg, w, es, w') && uid in w'.flights && w'.flights[uid].phase.Finished? && w'.now == w.now
    ensures if ChecksumAccepts(cfg.digest, meta, t.hashed) then
        && w'.disk == w.disk && StatusAnswered(w'.flights[uid].phase) == STATUS_OK
        && Visible(w').table ==
          (if w.sessions[sid].IsCompleted() then Visible(w).table - {sid} else Visible(w).table)
      else
        && w'.disk == w.disk - {path} && StatusAnswered(w'.flights[uid].phase) == STATUS_UNPROCESSABLE
        && Visible(w').table == Visible(w).table
  {
    var e0, e1 := UploadActs(uid, VerifySum), UploadActs(uid, CheckCompletion);
    var w1 := Step(cfg, w, e0);
    OneStep(cfg, w, e0);
    assert w1.sessions == w.sessions;
    if !ChecksumAccepts(cfg.digest, meta, t.hashed) {
      es, w' := [e0], w1;
    } else {
      var w2 := Step(cfg, w1, e1);
      assert w2.sessions == w.sessions;
      OneStep(cfg, w1, e1);
      FollowsThen(cfg, w, [e0], w1, [e1], w2);
      if !w.sessions[sid].IsCompleted() {
        es, w' := [e0] + [e1], w2;
      } else {
        var fs;
        fs, w' := ReleaseIsARun(cfg, w2, uid);
        FollowsThen(cfg, w, [e0] + [e1], w2, fs, w');
        es := [e0] + [e1] + fs;
      }
    }
  }

  lemma ReleaseIsARun(cfg: Config, w: World, uid: nat) returns (es: seq<Event>, w': World)
    requires uid in w.flights && w.flights[uid].phase == AtDelete
    requires w.flights[uid].sid in w.stored && w.flights[uid].sid in w.sessions
    ensures Follows(cfg, w, es, w') && uid in w'.flights && w'.flights[uid].phase == Finished(None)
    ensures w'.disk == w.disk && Visible(w').table == Visible(w).table - {w.flights[uid].sid} && w'.now == w.now
  {
    var sid := w.flights[uid].sid;
    var e0, e1 := UploadActs(uid, Release), ContextCanceled(sid);
    var w1 := Step(cfg, w, e0);
    w' := Step(cfg, w1, e1);
    assert w1.sessions == w.sessions;
    OneStep(cfg, w, e0);
    OneStep(cfg, w1, e1);
    FollowsThen(cfg, w, [e0], w1, [e1], w');
    es := [e0] + [e1];
    VisibleAlone(w, w', sid, w'.sessions[sid]);
  }

  /** The world after the body has been copied, compared with the one in which the upload was accepted. */
  ghost predicate ReceiveLeaves(w: World, w': World, uid: nat, sid: Uuid, meta: FileMetadata, path: string,
                                result: (Transfer, Session, Option<Failure>))
  {
    var (t', s', end) := result;
    && uid in w'.flights && w'.flights[uid] == Flight(sid, meta, path, t', PhaseAtEnd(end))
    && w'.disk == (if end == Some(UploadCanceled) then w.disk else w.disk[path := t'.content])
    && Visible(w').table ==
      (if end == Some(UploadCanceled) then Visible(w).table - {sid} else Visible(w).table[sid := s'])
    && (end.None? ==> sid in w'.stored && sid in w'.sessions)
  }

  lemma ReceivedAfterCreation(w: World, w1: World, w': World, uid: nat, sid: Uuid, meta: FileMetadata, path: string,
                              result: (Transfer, Session, Option<Failure>))
    requires sid in w.stored && sid in w.sessions && path !in w.disk
    requires w1.sessions == w.sessions && w1.stored == w.stored && w1.disk == w.disk[path := []]
    requires uid in w1.flights && LoopLeaves(w1, w', uid, sid, meta, path, result)
    ensures ReceiveLeaves(w, w', uid, sid, meta, path, result)
  {
    VisibleAlone(w, w', sid, result.1);
    assert w.disk[path := []] - {path} == w.disk;
    assert w.disk[path := []][path := result.0.content] == w.disk[path := result.0.content];
  }

  lemma ReceiveIsARun(cfg: Config, w: World, uid: nat, sid: Uuid, meta: FileMetadata, path: string, turns: seq<Turn>)
    returns (es: seq<Event>, w': World)
    requires uid in w.flights && w.flights[uid] == Flight(sid, meta, "", EMPTY_TRANSFER, AtCreate)
    requires sid in w.stored && sid in w.sessions && !w.sessions[sid].canceled && Timely(w.now, turns)
    requires path == UniqueName(w.disk.Keys, meta.fileName)
    ensures Follows(cfg, w, es, w')
    ensures ReceiveLeaves(w, w', uid, sid, meta, path, Loop(EMPTY_TRANSFER, w.sessions[sid], meta.id, turns))
    ensures w'.now <= EndOf(w.now, turns)
  {
    var e := UploadActs(uid, CreateFile(false));
    var w1 := Step(cfg, w, e);
    OneStep(cfg, w, e);
    assert w1.sessions == w.sessions;
    var fs;
    fs, w' := LoopIsARun(cfg, w1, uid, sid, meta, path, EMPTY_TRANSFER, turns);
    FollowsThen(cfg, w, [e], w1, fs, w');
    es := [e] + fs;
    ReceivedAfterCreation(w, w1, w', uid, sid, meta, path, Loop(EMPTY_TRANSFER, w.sessions[sid], meta.id, turns));
  }

  /** The flight has ended, and directory, sessions and answer are those of this outcome. */
  ghost predicate EndsAs(w: World, uid: nat, outcome: (State, nat)) {
    && uid in w.flights && w.flights[uid].phase.Finished?
    && Visible(w) == outcome.0 && StatusAnswered(w.flights[uid].phase) == outcome.1
  }

  lemma AcceptIsARun(cfg: Config, w: World, uid: nat, sid: Uuid, meta: FileMetadata, body: Body)
    returns (es: seq<Event>, w': World)
    requires uid in w.flights && w.flights[uid] == Flight(sid, meta, "", EMPTY_TRANSFER, AtCreate)
    requires sid in w.stored && sid in w.sessions && !w.sessions[sid].canceled && Timely(w.now, body.turns)
    ensures Follows(cfg, w, es, w')
    ensures EndsAs(w', uid, Accept(cfg, Visible(w), sid, meta, body)) && w'.now <= EndOf(w.now, body.turns)
  {
    EndIsLater(w.now, body.turns);
    if body.createFails {
      var e := UploadActs(uid, CreateFile(true));
      OneStep(cfg, w, e);
      es, w' := [e], Step(cfg, w, e);
      assert w'.sessions == w.sessions;
    } else {
      es, w' := CopyIsARun(cfg, w, uid, sid, meta, body);
    }
  }

  lemma CopyIsARun(cfg: Config, w: World, uid: nat, sid: Uuid, meta: FileMetadata, body: Body)
    returns (es: seq<Event>, w': World)
    requires uid in w.flights && w.flights[uid] == Flight(sid, meta, "", EMPTY_TRANSFER, AtCreate)
    requires sid in w.stored && sid in w.sessions && !w.sessions[sid].canceled && Timely(w.now, body.turns)
    requires !body.createFails
    ensures Follows(cfg, w, es, w')
    ensures EndsAs(w', uid, Accept(cfg, Visible(w), sid, meta, body)) && w'.now <= EndOf(w.now, body.turns)
  {
    var path := UniqueName(w.disk.Keys, meta.fileName);
    assert Visible(w).table[sid] == w.sessions[sid];
    AcceptByLoop(cfg, Visible(w), sid, meta, body);
    LoopAccounts(EMPTY_TRANSFER, w.sessions[sid], meta.id, body.turns);
    es, w' := ReceiveIsARun(cfg, w, uid, sid, meta, path, body.turns);
    var (t', s', end) := Loop(EMPTY_TRANSFER, w.sessions[sid], meta.id, body.turns);
    if end.None? {
      var w1 := w';
      assert path !in w.disk && w.disk[path := t'.content] - {path} == w.disk;
      assert Visible(w1).table[sid] == s' == w1.sessions[sid];
      var gs;
      gs, w' := SettleIsARun(cfg, w1, uid, sid, meta, path, t');
      FollowsThen(cfg, w, es, w1, gs, w');
      es := es + gs;
    }
  }

  /** The session lookup of an upload request. */
  lemma ArrivalIsARun(cfg: Config, w: World, uid: nat, req: UploadRequest, at: int)
    returns (es: seq<Event>, w': World)
    requires uid !in w.flights && w.stored <= w.sessions.Keys && at >= w.now
    ensures Follows(cfg, w, es, w') && w'.now == at && w'.stored == w.stored
    ensures if req.isPost && req.sid in w.stored then
        && req.sid in w'.sessions && w'.sessions[req.sid] == w.sessions[req.sid].Touched(at)
        && Visible(w') == Touch(Visible(w), req.sid, at)
        && (Rejection(cfg, w.sessions[req.sid], req).None? ==>
          uid in w'.flights && w'.flights[uid] ==
            Flight(req.sid, w.sessions[req.sid].metadata[req.fileId], "", EMPTY_TRANSFER, AtCreate))
      else Visible(w') == Visible(w)
  {
    var e0, e1 := Wait(at - w.now), UploadArrives(uid, req);
    var w1 := Step(cfg, w, e0);
    w' := Step(cfg, w1, e1);
    OneStep(cfg, w, e0);
    OneStep(cfg, w1, e1);
    FollowsThen(cfg, w, [e0], w1, [e1], w');
    es := [e0] + [e1];
    if req.isPost && req.sid in w.stored {
      VisibleAlone(w, w', req.sid, w.sessions[req.sid].Touched(at));
    }
  }

  /** Any upload handler, run to its end with nobody else moving except those that its body says interfere, is a run
      of the interleaved receiver: the same directory, the same stored sessions, and the same answer, whether the
      request is refused when it arrives or accepted. */
  lemma UploadIsARun(cfg: Config, w: World, uid: nat, req: UploadRequest, body: Body)
    returns (es: seq<Event>, w': World)
    requires uid !in w.flights && w.stored <= w.sessions.Keys
    requires forall sid :: sid in w.stored ==> !w.sessions[sid].canceled
    requires body.at >= w.now && Timely(body.at, body.turns)
    ensures Follows(cfg, w, es, w') && w'.now <= EndOf(body.at, body.turns)
    ensures Visible(w') == Upload(cfg, Visible(w), req, body).0
    ensures match Refusal(cfg, w, req)
      case Some(status) => Upload(cfg, Visible(w), req, body).1 == status
      case None => EndsAs(w', uid, Upload(cfg, Visible(w), req, body))
  {
    es, w' := ArrivalIsARun(cfg, w, uid, req, body.at);
    EndIsLater(body.at, body.turns);
    if req.isPost && req.sid in w.stored {
      var s := w.sessions[req.sid];
      assert Visible(w).table[req.sid] == s;
      if Rejection(cfg, s, req).None? {
        var w1 := w';
        var fs;
        fs, w' := AcceptIsARun(cfg, w1, uid, req.sid, s.metadata[req.fileId], body);
        FollowsThen(cfg, w, es, w1, fs, w');
        es := es + fs;
      }
    }
  }

  // ----- the other handlers -----

  /** A prepare handler that is answered at once. */
  lemma PrepareIsARun(cfg: Config, w: World, pid: nat, req: PrepareRequest, decision: Decision, now: int,
                      sid: Uuid, tokens: map<string, Uuid>)
    returns (es: seq<Event>, w': World)
    requires pid !in w.preparing && sid !in w.sessions && w.stored <= w.sessions.Keys && now >= w.now
    requires req.files.Some? ==> tokens.Keys == Filtered(decision, req.files.value).Keys
    ensures Follows(cfg, w, es, w') && w'.now == now && w'.preparing == w.preparing
    ensures Visible(w') == Prepare(cfg, Visible(w), req, decision, now, sid, tokens).0
    ensures sid in w'.stored <==> Prepare(cfg, Visible(w), req, decision, now, sid, tokens).1.Granted?
  {
    var e0, e1 := Wait(now - w.now), PrepareArrives(pid, req);
    var w1 := Step(cfg, w, e0);
    var w2 := Step(cfg, w1, e1);
    OneStep(cfg, w, e0);
    OneStep(cfg, w1, e1);
    FollowsThen(cfg, w, [e0], w1, [e1], w2);
    es, w' := [e0] + [e1], w2;
    assert Visible(w1) == Visible(w);
    if Gate(cfg, Visible(w), req, now).None? {
      var e2 := PrepareAnswered(pid, decision, sid, tokens);
      assert w2.preparing - {pid} == w.preparing;
      w' := Step(cfg, w2, e2);
      OneStep(cfg, w2, e2);
      FollowsThen(cfg, w, es, w2, [e2], w');
      es := es + [e2];
      AnsweredIsPrepared(w2, pid, decision, sid, tokens);
    }
  }

  lemma AnsweredIsPrepared(w: World, pid: nat, decision: Decision, sid: Uuid, tokens: map<string, Uuid>)
    requires pid in w.preparing && w.preparing[pid].files.Some? && sid !in w.sessions
    ensures var req, w' := w.preparing[pid], Answer(w, pid, decision, sid, tokens);
      var accepted := Filtered(decision, req.files.value);
      && w'.disk == w.disk && w'.stored == (if accepted == map[] then w.stored else w.stored + {sid})
      && Visible(w').table ==
        if accepted == map[] then Visible(w).table
        else Visible(w).table[sid := NewSession(req.remoteIP, ClientVerified(req), accepted, tokens, w.now)]
  {
  }

  /** A cancel request, both halves of the deletion in a row. */
  lemma CancelIsARun(cfg: Config, w: World, isPost: bool, sid: Uuid) returns (es: seq<Event>, w': World)
    requires w.stored <= w.sessions.Keys
    ensures Follows(cfg, w, es, w') && w'.now == w.now
    ensures Visible(w') == Cancel(Visible(w), isPost, sid).0
  {
    es, w' := [], w;
    if isPost && sid in w.stored {
      var e0, e1 := CancelArrives(sid), ContextCanceled(sid);
      var w1 := Step(cfg, w, e0);
      w' := Step(cfg, w1, e1);
      OneStep(cfg, w, e0);
      OneStep(cfg, w1, e1);
      FollowsThen(cfg, w, [e0], w1, [e1], w');
      es := [e0] + [e1];
      VisibleAlone(w, w', sid, w'.sessions[sid]);
    } else if isPost {
      assert Visible(w).table - {sid} == Visible(w).table;
    }
  }

  // ----- the cleanup loop -----

  /** A sweep between two sessions, with these still to visit. */
  ghost predicate Sweeping(w: World, now: int, rest: set<Uuid>) {
    && w.stored <= w.sessions.Keys && rest <= w.stored
    && w.sweep.Some? && w.sweep.value.now == now && w.sweep.value.condemned.None?
    && rest !! w.sweep.value.seen && w.sweep.value.due * w.stored <= w.sweep.value.seen + rest
  }

  /** One session is read, and deleted if it has expired. */
  lemma VisitIsARun(cfg: Config, w: World, now: int, rest: set<Uuid>, sid: Uuid)
    returns (es: seq<Event>, w': World)
    requires Sweeping(w, now, rest) && sid in rest
    ensures Follows(cfg, w, es, w') && Sweeping(w', now, rest - {sid}) && w'.now == w.now && w'.disk == w.disk
    ensures Visible(w').table ==
      if now - w.sessions[sid].lastAccess > cfg.timeout then Visible(w).table - {sid} else Visible(w).table
  {
    var e0 := SweepReads(sid);
    w' := Step(cfg, w, e0);
    es := [e0];
    OneStep(cfg, w, e0);
    if now - w.sessions[sid].lastAccess > cfg.timeout {
      var w1 := w';
      var w2 := Step(cfg, w1, SweepDeletes);
      w' := Step(cfg, w2, ContextCanceled(sid));
      OneStep(cfg, w1, SweepDeletes);
      OneStep(cfg, w2, ContextCanceled(sid));
      FollowsThen(cfg, w, es, w1, [SweepDeletes], w2);
      FollowsThen(cfg, w, es + [SweepDeletes], w2, [ContextCanceled(sid)], w');
      es := es + [SweepDeletes] + [ContextCanceled(sid)];
      VisibleAlone(w, w', sid, w'.sessions[sid]);
    }
  }

  /** What is left of a table once these sessions have been visited. */
  function Visited(table: Table, timeout: int, now: int, rest: set<Uuid>): Table {
    map sid | sid in table && (sid !in rest || now - table[sid].lastAccess <= timeout) :: table[sid]
  }

  lemma {:induction false} VisitsAreARun(cfg: Config, w: World, now: int, rest: set<Uuid>)
    returns (es: seq<Event>, w': World)
    requires Sweeping(w, now, rest)
    ensures Follows(cfg, w, es, w') && Sweeping(w', now, {}) && w'.now == w.now && w'.disk == w.disk
    ensures Visible(w').table == Visited(Visible(w).table, cfg.timeout, now, rest)
    decreases rest
  {
    if rest == {} {
      es, w' := [], w;
    } else {
      var sid :| sid in rest;
      var w1, fs;
      es, w1 := VisitIsARun(cfg, w, now, rest, sid);
      fs, w' := VisitsAreARun(cfg, w1, now, rest - {sid});
      FollowsThen(cfg, w, es, w1, fs, w');
      es := es + fs;
      VisitedFirst(Visible(w).table, cfg.timeout, now, rest, sid);
    }
  }

  lemma VisitedFirst(table: Table, timeout: int, now: int, rest: set<Uuid>, sid: Uuid)
    requires sid in rest && sid in table
    ensures Visited(table, timeout, now, rest) ==
      Visited(if now - table[sid].lastAccess > timeout then table - {sid} else table, timeout, now, rest - {sid})
  {
  }

  /** One tick of the cleanup loop during which nobody else moves. */
  lemma SweepIsARun(cfg: Config, w: World) returns (es: seq<Event>, w': World)
    requires w.sweep.None? && w.now >= w.nextTick && w.stored <= w.sessions.Keys
    ensures Follows(cfg, w, es, w') && w'.sweep.None? && w'.disk == w.disk
    ensures Visible(w').table == Swept(Visible(w).table, cfg.timeout, w.now)
  {
    var w1 := Step(cfg, w, SweepBegins);
    OneStep(cfg, w, SweepBegins);
    var fs, w2 := VisitsAreARun(cfg, w1, w.now, w.stored);
    w' := Step(cfg, w2, SweepEnds);
    OneStep(cfg, w2, SweepEnds);
    FollowsThen(cfg, w, [SweepBegins], w1, fs, w2);
    FollowsThen(cfg, w, [SweepBegins] + fs, w2, [SweepEnds], w');
    es := [SweepBegins] + fs + [SweepEnds];
    assert Visible(w2).table == Visited(Visible(w).table, cfg.timeout, w.now, w.stored);
  }
}
