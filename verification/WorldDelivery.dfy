/** Delivery of one file while any number of other handlers, sweeps and senders run. */
module WorldDelivery {
  import opened Protocol
  import opened Names
  import opened Sessions
  import opened Transfers
  import opened Receiver
  import opened World
  import opened WorldDisk
  import opened WorldSessions
  import opened WorldCancel
  import opened WorldSweep
  import opened WorldCompletion

  // ----- what the upload has read -----

  function ReadBy(e: Event, uid: nat): Bytes {
    if e.UploadActs? && e.uid == uid && e.action.ReadBody? then e.action.data else []
  }

  /** The bytes that the upload reads from event i on and before event j. */
  function Reads(es: seq<Event>, i: nat, j: nat, uid: nat): Bytes
    requires j <= |es|
  {
    if j <= i then [] else Reads(es, i, j - 1, uid) + ReadBy(es[j - 1], uid)
  }

  /** The environment lets the action through: no failing create, read or write, no short write. */
  predicate Faultless(f: Flight, a: Action) {
    match a
    case CreateFile(fails) => !fails
    case ReadBody(_, err) => err != ReadFailure
    case WriteChunk(nw, fails) => f.phase.AtWrite? ==> nw == |f.phase.data| && !fails
    case _ => true
  }

  predicate Holding(f: Flight, read: Bytes) {
    f.transfer == Transfer(read, read, |read|)
  }

  /** What an upload whose environment let everything through has done with the bytes read. */
  ghost predicate Faithful(cfg: Config, f: Flight, read: Bytes) {
    match f.phase
    case AtCreate => f.transfer == EMPTY_TRANSFER && read == []
    case AtWrite(data, err) =>
      && err != ReadFailure && f.transfer.content + data == read
      && f.transfer.hashed == f.transfer.content && f.transfer.written == |f.transfer.content|
    case Finished(Some(UploadCanceled)) => true
    case Finished(end) =>
      Holding(f, read) && end == if ChecksumAccepts(cfg.digest, f.meta, read) then None else Some(ChecksumMismatch)
    case AtRelease => Holding(f, read) && ChecksumAccepts(cfg.digest, f.meta, read)
    case AtDelete => Holding(f, read) && ChecksumAccepts(cfg.digest, f.meta, read)
    case _ => Holding(f, read)
  }

  lemma ActionIsFaithful(cfg: Config, f: Flight, a: Action, disk: Disk, s: Session, read: Bytes)
    requires CanAct(f, a) && Faultless(f, a) && Faithful(cfg, f, read)
    ensures Faithful(cfg, Advance(cfg, f, a, disk, s), read + if a.ReadBody? then a.data else [])
    ensures Advance(cfg, f, a, disk, s).phase == Finished(Some(UploadCanceled)) ==> s.canceled
  {
    match a
    case ReadBody(data, _) =>
      if data == [] {
        assert read + data == read;
      }
    case WriteChunk(nw, _) =>
      assert f.phase.data[..nw] == f.phase.data && read + [] == read;
    case _ =>
      assert read + [] == read;
  }

  // ----- the upload among others -----

  /** A cancel request or a sweep removes the session. */
  predicate RemovedFromOutside(w: World, e: Event, sid: Uuid) {
    || e == CancelArrives(sid)
    || (e.SweepDeletes? && w.sweep.Some? && w.sweep.value.condemned.Some? && w.sweep.value.condemned.value.0 == sid)
  }

  /** The event neither removes the session from outside nor is a fault of this upload. Everything else may happen. */
  predicate Undisturbed(w: World, e: Event, sid: Uuid, uid: nat) {
    && !RemovedFromOutside(w, e, sid)
    && (e.UploadActs? && e.uid == uid && uid in w.flights ==> Faultless(w.flights[uid], e.action))
  }

  /** Another upload of the session, which found it completed, releases it. */
  predicate ReleasedByOther(w: World, e: Event, sid: Uuid, uid: nat) {
    e.UploadActs? && e.action == Release && e.uid != uid && e.uid in w.flights && w.flights[e.uid].sid == sid
  }

  ghost predicate OtherReleased(ws: seq<World>, es: seq<Event>, k: nat, m: nat, sid: Uuid, uid: nat)
    requires m < |ws| && m <= |es|
  {
    exists r :: k < r < m && ReleasedByOther(ws[r], es[r], sid, uid)
  }

  /** The upload is faithful to what it has read since event k, and it has its session until it ends unless another
      upload released it; only then is it canceled. */
  ghost predicate GoesWell(cfg: Config, ws: seq<World>, es: seq<Event>, k: nat, m: nat, uid: nat, sid: Uuid,
                           meta: FileMetadata)
    requires k < m < |ws| && m <= |es|
  {
    uid in ws[m].flights &&
    var f := ws[m].flights[uid];
    && f.sid == sid && f.meta == meta
    && Faithful(cfg, f, Reads(es, k + 1, m, uid))
    && (!f.phase.Finished? ==> sid in ws[m].stored || OtherReleased(ws, es, k, m, sid, uid))
    && (f.phase == Finished(Some(UploadCanceled)) ==> OtherReleased(ws, es, k, m, sid, uid))
  }

  lemma StepGoesWell(cfg: Config, ws: seq<World>, es: seq<Event>, k: nat, m: nat, uid: nat, sid: Uuid,
                     meta: FileMetadata)
    requires IsRun(cfg, ws, es) && Starts(ws[0]) && k < m < |es| && Undisturbed(ws[m], es[m], sid, uid)
    requires GoesWell(cfg, ws, es, k, m, uid, sid, meta)
    ensures GoesWell(cfg, ws, es, k, m + 1, uid, sid, meta)
  {
    var w, e, f := ws[m], es[m], ws[m].flights[uid];
    RunStep(cfg, ws, es, m);
    FlightStep(cfg, w, e, uid);
    var read := Reads(es, k + 1, m, uid);
    assert read + [] == read;
    ReleaseStays(ws, es, k, m, sid, uid);
    if sid in w.stored {
      StoredIsLive(cfg, ws, es, m, sid);
    }
    if e.UploadActs? && e.uid == uid {
      ActionIsFaithful(cfg, f, e.action, w.disk, w.sessions[sid], read);
    }
    if sid in w.stored && sid !in ws[m + 1].stored {
      OnlyDeletersRemove(cfg, w, e, sid);
      assert e == UploadActs(uid, Release) || ReleasedByOther(w, e, sid, uid);
    }
  }

  lemma ReleaseStays(ws: seq<World>, es: seq<Event>, k: nat, m: nat, sid: Uuid, uid: nat)
    requires k < m < |es| && |ws| == |es| + 1
    ensures OtherReleased(ws, es, k, m, sid, uid) ==> OtherReleased(ws, es, k, m + 1, sid, uid)
    ensures ReleasedByOther(ws[m], es[m], sid, uid) ==> OtherReleased(ws, es, k, m + 1, sid, uid)
  {
  }

  lemma StoredIsLive(cfg: Config, ws: seq<World>, es: seq<Event>, m: nat, sid: Uuid)
    requires IsRun(cfg, ws, es) && Starts(ws[0]) && m < |ws| && sid in ws[m].stored
    ensures sid in ws[m].sessions && !ws[m].sessions[sid].canceled
  {
    SessionsConserved(cfg, ws, es, m);
    var w := ws[m];
    assert OneFate(w.sessions[sid].canceled, sid in w.stored, w.unlinked[sid], w.cancels[sid]);
  }

  lemma {:induction false} UploadGoesWell(cfg: Config, ws: seq<World>, es: seq<Event>, k: nat, m: nat, uid: nat,
                                          req: UploadRequest)
    requires IsRun(cfg, ws, es) && Starts(ws[0]) && k < m < |ws|
    requires es[k] == UploadArrives(uid, req) && Refusal(cfg, ws[k], req).None?
    requires forall n :: k < n < m ==> Undisturbed(ws[n], es[n], req.sid, uid)
    ensures GoesWell(cfg, ws, es, k, m, uid, req.sid, ws[k].sessions[req.sid].metadata[req.fileId])
  {
    if m == k + 1 {
      RunStep(cfg, ws, es, k);
    } else {
      UploadGoesWell(cfg, ws, es, k, m - 1, uid, req);
      StepGoesWell(cfg, ws, es, k, m - 1, uid, req.sid, ws[k].sessions[req.sid].metadata[req.fileId]);
    }
  }

  // ----- the session is there -----

  lemma CreatedIsStored(cfg: Config, w: World, e: Event, sid: Uuid)
    requires Enabled(cfg, w, e) && sid !in w.sessions && sid in Step(cfg, w, e).sessions
    ensures sid in Step(cfg, w, e).stored
  {
    CreatedByAnswer(cfg, w, e, sid);
  }

  /** Unless it is removed from outside, a session is stored as long as some file with bytes has not been received. */
  lemma {:induction false} StoredUntilReceived(cfg: Config, ws: seq<World>, es: seq<Event>, k: nat, sid: Uuid,
                                               fileId: string)
    requires IsRun(cfg, ws, es) && Starts(ws[0]) && k < |ws| && sid in ws[k].sessions
    requires Sized(ws[k].sessions[sid]) && fileId in ws[k].sessions[sid].metadata
    requires ws[k].sessions[sid].metadata[fileId].size > 0
    requires !HasSent(ws[k].flights, sid, fileId, ws[k].sessions[sid].metadata[fileId].size)
    requires forall m :: 0 <= m < k ==> !RemovedFromOutside(ws[m], es[m], sid)
    ensures sid in ws[k].stored
  {
    if k > 0 {
      var size := ws[k].sessions[sid].metadata[fileId].size;
      RunStep(cfg, ws, es, k - 1);
      if sid in ws[k - 1].sessions {
        RunStepOnSession(cfg, ws, es, k - 1, sid);
        if HasSent(ws[k - 1].flights, sid, fileId, size) {
          SentEndures(cfg, ws, es, k - 1, k, sid, fileId, size);
        }
        StoredUntilReceived(cfg, ws, es, k - 1, sid, fileId);
        if sid !in ws[k].stored {
          OnlyDeletersRemove(cfg, ws[k - 1], es[k - 1], sid);
          ReleasedWasReceived(cfg, ws, es, k - 1, es[k - 1].uid, fileId);
        }
      } else {
        CreatedIsStored(cfg, ws[k - 1], es[k - 1], sid);
      }
    }
  }

  // ----- the name -----

  /** The upload has created its file, kept or not. */
  predicate Created(f: Flight) {
    f.phase != AtCreate && f.phase != Finished(Some(CreateFailed))
  }

  lemma CreationStep(cfg: Config, w: World, e: Event, uid: nat)
    requires Enabled(cfg, w, e) && uid in Step(cfg, w, e).flights && Created(Step(cfg, w, e).flights[uid])
    ensures uid in w.flights
    ensures var f, f' := w.flights[uid], Step(cfg, w, e).flights[uid];
      && f'.meta == f.meta
      && if e == UploadActs(uid, CreateFile(false)) then f'.path == UniqueName(w.disk.Keys, f.meta.fileName)
         else Created(f) && f'.path == f.path
  {
    if uid !in w.flights {
      NewFlightCreates(cfg, w, e, uid);
    } else {
      FlightStep(cfg, w, e, uid);
    }
  }

  /** The name under which an upload keeps its file is the unique name at the moment of creation. */
  lemma {:induction false} NamedAtCreation(cfg: Config, ws: seq<World>, es: seq<Event>, j: nat, uid: nat)
    returns (c: nat)
    requires IsRun(cfg, ws, es) && Starts(ws[0]) && j < |ws| && uid in ws[j].flights && Created(ws[j].flights[uid])
    ensures c < j && es[c] == UploadActs(uid, CreateFile(false))
    ensures ws[j].flights[uid].path == UniqueName(ws[c].disk.Keys, ws[j].flights[uid].meta.fileName)
    decreases j
  {
    RunStep(cfg, ws, es, j - 1);
    CreationStep(cfg, ws[j - 1], es[j - 1], uid);
    if es[j - 1] == UploadActs(uid, CreateFile(false)) {
      c := j - 1;
    } else {
      c := NamedAtCreation(cfg, ws, es, j - 1, uid);
    }
  }

  // ----- delivery -----

  /** When another upload released the session, some upload had received the whole file. */
  lemma ReceivedAtRelease(cfg: Config, ws: seq<World>, es: seq<Event>, k: nat, j: nat, sid: Uuid, uid: nat,
                          fileId: string)
    requires IsRun(cfg, ws, es) && Starts(ws[0]) && k < j < |ws| && OtherReleased(ws, es, k, j, sid, uid)
    requires sid in ws[k].sessions && Sized(ws[k].sessions[sid]) && fileId in ws[k].sessions[sid].metadata
    requires ws[k].sessions[sid].metadata[fileId].size > 0
    ensures HasSent(ws[j].flights, sid, fileId, ws[k].sessions[sid].metadata[fileId].size)
  {
    var r :| k < r < j && ReleasedByOther(ws[r], es[r], sid, uid);
    RemovalIsPermanent(cfg, ws, es, k, r, sid);
    ReleasedWasReceived(cfg, ws, es, r, es[r].uid, fileId);
    SentEndures(cfg, ws, es, r, j, sid, fileId, ws[k].sessions[sid].metadata[fileId].size);
  }

  /** The upload of a file with bytes, among any other handlers, those of its own session included. Its session has not
      been removed from outside and the file has not been received yet. Then it is accepted. When it has ended without a
      fault of its environment, either it was answered 200 exactly if the announced checksum accepts the bytes read, and
      then the entry, under the name that was unique when it was created, has exactly these bytes from then on; or it
      was canceled because another upload released the completed session, and by then the whole file had been
      received. */
  lemma InterleavedDelivery(cfg: Config, ws: seq<World>, es: seq<Event>, k: nat, j: nat, uid: nat, req: UploadRequest)
    returns (c: nat)
    requires IsRun(cfg, ws, es) && Starts(ws[0]) && k < j < |ws|
    requires es[k] == UploadArrives(uid, req) && req.isPost
    requires req.sid in ws[k].sessions && Sized(ws[k].sessions[req.sid])
    requires Rejection(cfg, ws[k].sessions[req.sid], req).None?
    requires var size := ws[k].sessions[req.sid].metadata[req.fileId].size;
      size > 0 && !HasSent(ws[k].flights, req.sid, req.fileId, size)
    requires forall m :: 0 <= m < k ==> !RemovedFromOutside(ws[m], es[m], req.sid)
    requires forall m :: k < m < j ==> Undisturbed(ws[m], es[m], req.sid, uid)
    ensures uid in ws[k + 1].flights && uid in ws[j].flights
    ensures var f, read := ws[j].flights[uid], Reads(es, k + 1, j, uid);
      var meta := ws[k].sessions[req.sid].metadata[req.fileId];
      f.phase.Finished? ==>
        if f.phase.failure == Some(UploadCanceled) then
          && OtherReleased(ws, es, k, j, req.sid, uid)
          && HasSent(ws[j].flights, req.sid, req.fileId, meta.size)
        else
          && (f.phase.failure == None || f.phase.failure == Some(ChecksumMismatch))
          && (f.phase.failure.None? <==> meta.sha256 == "" || EqualFold(cfg.digest(read), meta.sha256))
          && (f.phase.failure.None? ==>
            && c < j && f.path == UniqueName(ws[c].disk.Keys, meta.fileName)
            && forall n :: j <= n < |ws| ==> f.path in ws[n].disk && ws[n].disk[f.path] == read)
  {
    StoredUntilReceived(cfg, ws, es, k, req.sid, req.fileId);
    UploadGoesWell(cfg, ws, es, k, k + 1, uid, req);
    UploadGoesWell(cfg, ws, es, k, j, uid, req);
    var f := ws[j].flights[uid];
    c := 0;
    if f.phase == Finished(Some(UploadCanceled)) {
      ReceivedAtRelease(cfg, ws, es, k, j, req.sid, uid, req.fileId);
    } else if f.phase.Finished? {
      FaithfulEnd(cfg, f, Reads(es, k + 1, j, uid));
      if f.phase == Finished(None) {
        c := NamedAtCreation(cfg, ws, es, j, uid);
        EntryEndures(cfg, ws, es, j, uid);
      }
    }
  }

  /** How a faithful upload has ended, unless it was canceled: by the checksum of what it has read. */
  lemma FaithfulEnd(cfg: Config, f: Flight, read: Bytes)
    requires Faithful(cfg, f, read) && f.phase.Finished? && f.phase.failure != Some(UploadCanceled)
    ensures f.transfer.content == read
    ensures f.phase.failure == None || f.phase.failure == Some(ChecksumMismatch)
    ensures f.phase.failure.None? <==> f.meta.sha256 == "" || EqualFold(cfg.digest(read), f.meta.sha256)
  {
  }

  lemma EntryEndures(cfg: Config, ws: seq<World>, es: seq<Event>, j: nat, uid: nat)
    requires IsRun(cfg, ws, es) && Starts(ws[0]) && j < |ws|
    requires uid in ws[j].flights && ws[j].flights[uid].phase == Finished(None)
    ensures var f := ws[j].flights[uid];
      forall n :: j <= n < |ws| ==> f.path in ws[n].disk && ws[n].disk[f.path] == f.transfer.content
  {
    var f := ws[j].flights[uid];
    forall n | j <= n < |ws|
      ensures f.path in ws[n].disk && ws[n].disk[f.path] == f.transfer.content
    {
      SavedFilesEndure(cfg, ws, es, j, n, uid);
    }
  }
}
