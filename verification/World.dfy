/** The receiver with everything it runs at once: any number of prepare and upload handlers, cancel requests and the
    cleanup loop, interleaved one atomic action at a time. */
module World {
  import opened Protocol
  import opened Names
  import opened Sessions
  import opened Manager
  import opened Transfers
  import opened Receiver

  /** Where an upload handler stands; each value names the action it takes next. */
  datatype Phase =
    | AtCreate
    | AtHead
    | AtRead
    | AtWrite(data: Bytes, err: ReadError)
    | AtVerify
    | AtRelease
    | AtDelete
    | Finished(failure: Option<Failure>)

  datatype Flight = Flight(sid: Uuid, meta: FileMetadata, path: string, transfer: Transfer, phase: Phase)

  /** A pass of the cleanup loop: its clock, the sessions stored when it began, those visited, and the session
      that it found expired, with the access time it saw, but has not deleted yet. */
  datatype Sweep = Sweep(now: int, due: set<Uuid>, seen: set<Uuid>, condemned: Option<(Uuid, int)>)

  /** sessions holds every session ever created, for handlers keep using a session that was deleted;
      stored is the manager's table. A deletion first unlinks the session and then cancels its context:
      unlinked and cancels count both halves. */
  datatype World = World(
    now: int,
    disk: Disk,
    sessions: Table,
    stored: set<Uuid>,
    unlinked: multiset<Uuid>,
    cancels: multiset<Uuid>,
    preparing: map<nat, PrepareRequest>,
    flights: map<nat, Flight>,
    sweep: Option<Sweep>,
    nextTick: int)

  /** The actions of an upload handler, with what the environment decides about them. */
  datatype Action =
    | CreateFile(fails: bool)
    | CheckHead
    | ReadBody(data: Bytes, err: ReadError)
    | WriteChunk(nw: nat, fails: bool)
    | VerifySum
    | CheckCompletion
    | Release

  datatype Event =
    | Wait(d: nat)
    | PrepareArrives(pid: nat, prepare: PrepareRequest)
    | PrepareAnswered(pid: nat, decision: Decision, sid: Uuid, tokens: map<string, Uuid>)
    | UploadArrives(uid: nat, upload: UploadRequest)
    | UploadActs(uid: nat, action: Action)
    | CancelArrives(sid: Uuid)
    | ContextCanceled(sid: Uuid)
    | SweepBegins
    | SweepReads(sid: Uuid)
    | SweepDeletes
    | SweepEnds

  /** What a handler sees: the directory and the stored sessions. */
  function Visible(w: World): State {
    State(w.disk, map sid | sid in w.stored && sid in w.sessions :: w.sessions[sid])
  }

  // ----- one upload handler -----

  predicate CanAct(f: Flight, a: Action) {
    match a
    case CreateFile(_) => f.phase == AtCreate
    case CheckHead => f.phase == AtHead
    case ReadBody(data, _) => f.phase == AtRead && |data| <= BUFFER_SIZE
    case WriteChunk(nw, _) => f.phase.AtWrite? && nw <= |f.phase.data|
    case VerifySum => f.phase == AtVerify
    case CheckCompletion => f.phase == AtRelease
    case Release => f.phase == AtDelete
  }

  function PhaseAfter(verdict: Verdict): Phase {
    match verdict
    case Continue => AtHead
    case Verify => AtVerify
    case Abort(f) => Finished(Some(f))
  }

  /** The flight after an action, given the directory and the flight's session. Choosing a free name and creating the
      file count as one action. */
  function Advance(cfg: Config, f: Flight, a: Action, disk: Disk, s: Session): (f': Flight)
    requires CanAct(f, a)
    ensures f'.sid == f.sid && f'.meta == f.meta
  {
    match a
    case CreateFile(fails) =>
      if fails then f.(phase := Finished(Some(CreateFailed)))
      else f.(path := UniqueName(disk.Keys, f.meta.fileName), phase := AtHead)
    case CheckHead => f.(phase := if s.canceled then Finished(Some(UploadCanceled)) else AtRead)
    case ReadBody(data, err) => f.(phase := if data == [] then PhaseAfter(AfterRead(err)) else AtWrite(data, err))
    case WriteChunk(nw, fails) =>
      f.(transfer := Absorb(f.transfer, f.phase.data, nw, fails),
         phase := PhaseAfter(AfterWrite(f.phase.data, nw, fails, f.phase.err)))
    case VerifySum =>
      f.(phase := if ChecksumAccepts(cfg.digest, f.meta, f.transfer.hashed) then AtRelease
                  else Finished(Some(ChecksumMismatch)))
    case CheckCompletion => f.(phase := if s.IsCompleted() then AtDelete else Finished(None))
    case Release => f.(phase := Finished(None))
  }

  /** The directory after an action that turned f into f'. */
  function DiskAfter(disk: Disk, f: Flight, a: Action, f': Flight): Disk {
    match a
    case CreateFile(fails) => if fails then disk else disk[f'.path := []]
    case WriteChunk(_, _) => disk[f.path := f'.transfer.content]
    case CheckHead => if f'.phase.Finished? then disk - {f.path} else disk
    case VerifySum => if f'.phase.Finished? then disk - {f.path} else disk
    case _ => disk
  }

  function SessionAfter(s: Session, f: Flight, a: Action, f': Flight, now: int): Session {
    if a.WriteChunk? && a.nw > 0 then s.Reported(f.meta.id, f'.transfer.written, now) else s
  }

  // ----- the whole receiver -----

  predicate Enabled(cfg: Config, w: World, e: Event) {
    match e
    case PrepareArrives(pid, _) => pid !in w.preparing
    case PrepareAnswered(pid, decision, sid, tokens) =>
      && pid in w.preparing && w.preparing[pid].files.Some? && sid !in w.sessions
      && tokens.Keys == Filtered(decision, w.preparing[pid].files.value).Keys
    case UploadArrives(uid, _) => uid !in w.flights
    case UploadActs(uid, a) => uid in w.flights && w.flights[uid].sid in w.sessions && CanAct(w.flights[uid], a)
    case ContextCanceled(sid) => sid in w.unlinked && sid in w.sessions
    case SweepBegins => w.sweep.None? && w.now >= w.nextTick
    case SweepReads(sid) =>
      w.sweep.Some? && w.sweep.value.condemned.None? && sid in w.sessions && sid !in w.sweep.value.seen
    case SweepDeletes => w.sweep.Some? && w.sweep.value.condemned.Some?
    case SweepEnds =>
      w.sweep.Some? && w.sweep.value.condemned.None? && w.sweep.value.due * w.stored <= w.sweep.value.seen
    case _ => true
  }

  /** The first half of every deletion: only one caller gets the session. */
  function Unlink(w: World, sid: Uuid): World {
    if sid in w.stored then w.(stored := w.stored - {sid}, unlinked := w.unlinked + multiset{sid}) else w
  }

  /** The status with which an upload request is refused when it arrives; None when it is accepted. */
  function Refusal(cfg: Config, w: World, req: UploadRequest): Option<nat> {
    if !req.isPost then Some(STATUS_METHOD_NOT_ALLOWED)
    else if req.sid !in w.stored || req.sid !in w.sessions then Some(STATUS_BAD_REQUEST)
    else Rejection(cfg, w.sessions[req.sid], req)
  }

  function Arrive(cfg: Config, w: World, uid: nat, req: UploadRequest): World {
    if !req.isPost || req.sid !in w.stored || req.sid !in w.sessions then w else
    var s := w.sessions[req.sid];
    var w1 := w.(sessions := w.sessions[req.sid := s.Touched(w.now)]);
    if Refusal(cfg, w, req).Some? then w1
    else w1.(flights := w.flights[uid := Flight(req.sid, s.metadata[req.fileId], "", EMPTY_TRANSFER, AtCreate)])
  }

  function Act(cfg: Config, w: World, uid: nat, a: Action): World
    requires Enabled(cfg, w, UploadActs(uid, a))
  {
    var f := w.flights[uid];
    var f' := Advance(cfg, f, a, w.disk, w.sessions[f.sid]);
    var w1 := if a == Release then Unlink(w, f.sid) else w;
    w1.(flights := w.flights[uid := f'],
        disk := DiskAfter(w.disk, f, a, f'),
        sessions := w.sessions[f.sid := SessionAfter(w.sessions[f.sid], f, a, f', w.now)])
  }

  function Answer(w: World, pid: nat, decision: Decision, sid: Uuid, tokens: map<string, Uuid>): World
    requires pid in w.preparing && w.preparing[pid].files.Some?
  {
    var req := w.preparing[pid];
    var accepted := Filtered(decision, req.files.value);
    var w1 := w.(preparing := w.preparing - {pid});
    if accepted == map[] then w1
    else w1.(stored := w.stored + {sid},
             sessions := w.sessions[sid := NewSession(req.remoteIP, ClientVerified(req), accepted, tokens, w.now)])
  }

  function ReadSweep(cfg: Config, w: World, sid: Uuid): World
    requires w.sweep.Some? && sid in w.sessions
  {
    var p := w.sweep.value;
    var last := w.sessions[sid].lastAccess;
    w.(sweep := Some(p.(seen := p.seen + {sid},
                        condemned := if p.now - last > cfg.timeout then Some((sid, last)) else None)))
  }

  function Step(cfg: Config, w: World, e: Event): World
    requires Enabled(cfg, w, e)
  {
    match e
    case Wait(d) => w.(now := w.now + d)
    case PrepareArrives(pid, req) =>
      if Gate(cfg, Visible(w), req, w.now).Some? then w else w.(preparing := w.preparing[pid := req])
    case PrepareAnswered(pid, decision, sid, tokens) => Answer(w, pid, decision, sid, tokens)
    case UploadArrives(uid, req) => Arrive(cfg, w, uid, req)
    case UploadActs(uid, a) => Act(cfg, w, uid, a)
    case CancelArrives(sid) => Unlink(w, sid)
    case ContextCanceled(sid) =>
      w.(unlinked := w.unlinked - multiset{sid}, cancels := w.cancels + multiset{sid},
         sessions := w.sessions[sid := w.sessions[sid].(canceled := true)])
    case SweepBegins => w.(sweep := Some(Sweep(w.now, w.stored, {}, None)), nextTick := w.nextTick + cfg.interval)
    case SweepReads(sid) => ReadSweep(cfg, w, sid)
    case SweepDeletes => Unlink(w, w.sweep.value.condemned.value.0).(sweep := Some(w.sweep.value.(condemned := None)))
    case SweepEnds => w.(sweep := None)
  }

  // ----- runs -----

  ghost predicate Starts(w: World) {
    && w.sessions == map[] && w.stored == {} && w.unlinked == multiset{} && w.cancels == multiset{}
    && w.preparing == map[] && w.flights == map[] && w.sweep.None?
  }

  /** Event i leads from state i to the next. */
  ghost predicate Linked(cfg: Config, ws: seq<World>, es: seq<Event>, i: nat)
    requires |ws| == |es| + 1 && i < |es|
  {
    Enabled(cfg, ws[i], es[i]) && ws[i + 1] == Step(cfg, ws[i], es[i])
  }

  ghost predicate IsRun(cfg: Config, ws: seq<World>, es: seq<Event>) {
    && |ws| == |es| + 1
    && forall i: nat :: i < |es| ==> Linked(cfg, ws, es, i)
  }

  lemma RunStep(cfg: Config, ws: seq<World>, es: seq<Event>, i: nat)
    requires IsRun(cfg, ws, es) && i < |es|
    ensures Enabled(cfg, ws[i], es[i]) && ws[i + 1] == Step(cfg, ws[i], es[i])
  {
    assert Linked(cfg, ws, es, i);
  }
}
