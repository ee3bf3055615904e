/** The directory under interleaved uploads. */
module WorldDisk {
  import opened Protocol
  import opened Sessions
  import opened Transfers
  import opened World

  /** The flight's file is in the directory: it was created and not rolled back. */
  predicate Holds(f: Flight) {
    match f.phase
    case AtCreate => false
    case Finished(Some(failure)) => failure != CreateFailed && !RollsBack(failure)
    case _ => true
  }

  /** The receiver has decided to answer 200. */
  predicate Succeeds(f: Flight) {
    f.phase == AtRelease || f.phase == AtDelete || f.phase == Finished(None)
  }

  /** The flight will not write any more. */
  predicate Received(f: Flight) {
    f.phase == AtVerify || Succeeds(f) || f.phase.Finished?
  }

  predicate WriteFailed(f: Flight) {
    f.phase == Finished(Some(WriteError)) || f.phase == Finished(Some(ShortWrite))
  }

  type Flights = map<nat, Flight>

  ghost predicate Owns(flights: Flights, uid: nat, name: string) {
    uid in flights && Holds(flights[uid]) && flights[uid].path == name
  }

  ghost predicate Placed(pre: Disk, disk: Disk, f: Flight) {
    Holds(f) ==> f.path !in pre && f.path in disk && disk[f.path] == f.transfer.content
  }

  ghost predicate PathsDistinct(flights: Flights) {
    forall u, v :: u in flights && v in flights && u != v && Holds(flights[u]) && Holds(flights[v]) ==>
      flights[u].path != flights[v].path
  }

  ghost predicate NothingElse(pre: Disk, disk: Disk, flights: Flights) {
    forall name :: name in disk && name !in pre ==> exists uid :: Owns(flights, uid, name)
  }

  /** The directory is what was there at the start plus exactly the files that flights hold, each under its own
      name, with exactly the bytes its flight has received. */
  ghost predicate DiskExact(pre: Disk, disk: Disk, flights: Flights) {
    && (forall uid :: uid in flights ==> Placed(pre, disk, flights[uid]))
    && PathsDistinct(flights)
    && (forall name :: name in pre ==> name in disk && disk[name] == pre[name])
    && NothingElse(pre, disk, flights)
  }

  /** The counter counts the bytes received; the hasher has seen exactly them unless a write failed;
      a flight that succeeds has passed the checksum. */
  predicate Accounted(cfg: Config, f: Flight) {
    && f.transfer.written == |f.transfer.content|
    && (!WriteFailed(f) ==> f.transfer.hashed == f.transfer.content)
    && (Succeeds(f) ==> ChecksumAccepts(cfg.digest, f.meta, f.transfer.content))
    && (f.phase == AtCreate ==> f.transfer == EMPTY_TRANSFER)
  }

  ghost predicate AllAccounted(cfg: Config, w: World) {
    forall uid :: uid in w.flights ==> Accounted(cfg, w.flights[uid])
  }

  // ----- each action keeps the directory exact -----

  lemma ActionKeepsAccounts(cfg: Config, f: Flight, a: Action, disk: Disk, s: Session)
    requires CanAct(f, a) && Accounted(cfg, f)
    ensures Accounted(cfg, Advance(cfg, f, a, disk, s))
  {
    if a.WriteChunk? {
      assert a.nw == |f.phase.data| ==> f.phase.data[..a.nw] == f.phase.data;
    }
  }

  /** What an action may do to the directory: add a new name, rewrite the flight's own file, or remove it. */
  ghost predicate Effect(disk: Disk, held: bool, path: string, f': Flight, disk': Disk) {
    if Holds(f') then
      && disk' == disk[f'.path := f'.transfer.content]
      && if held then f'.path == path else f'.path !in disk
    else disk' == if held then disk - {path} else disk
  }

  lemma ActionOnDisk(cfg: Config, f: Flight, a: Action, disk: Disk, s: Session)
    requires CanAct(f, a) && Accounted(cfg, f)
    requires Holds(f) ==> f.path in disk && disk[f.path] == f.transfer.content
    ensures var f' := Advance(cfg, f, a, disk, s);
      Effect(disk, Holds(f), f.path, f', DiskAfter(disk, f, a, f'))
  {
    var f' := Advance(cfg, f, a, disk, s);
    match a
    case CreateFile(fails) =>
      assert !Holds(f) && Holds(f') == !fails;
      assert f'.transfer.content == [];
    case WriteChunk(_, _) =>
      assert Holds(f) && Holds(f') && f'.path == f.path;
    case _ =>
      assert disk[f.path := f.transfer.content] == disk;
      assert f'.path == f.path && f'.transfer == f.transfer && Holds(f);
  }

  /** One flight replaced, or added, with that effect on the directory. */
  lemma FlightChange(pre: Disk, disk: Disk, flights: Flights, uid: nat, f': Flight, disk': Disk)
    requires DiskExact(pre, disk, flights)
    requires Effect(disk, Owning(flights, uid), if uid in flights then flights[uid].path else "", f', disk')
    ensures DiskExact(pre, disk', flights[uid := f'])
  {
    var flights' := flights[uid := f'];
    assert uid in flights ==> Placed(pre, disk, flights[uid]);
    forall u | u in flights'
      ensures Placed(pre, disk', flights'[u])
    {
      if u != uid {
        assert Placed(pre, disk, flights[u]);
      }
    }
    assert PathsDistinct(flights') by {
      assert forall u :: u in flights && Holds(flights[u]) ==> Placed(pre, disk, flights[u]) && flights[u].path in disk;
    }
    FlightChangeOwners(pre, disk, flights, uid, f', disk');
  }

  predicate Owning(flights: Flights, uid: nat) {
    uid in flights && Holds(flights[uid])
  }

  lemma FlightChangeOwners(pre: Disk, disk: Disk, flights: Flights, uid: nat, f': Flight, disk': Disk)
    requires DiskExact(pre, disk, flights)
    requires Effect(disk, Owning(flights, uid), if uid in flights then flights[uid].path else "", f', disk')
    ensures NothingElse(pre, disk', flights[uid := f'])
  {
    var flights' := flights[uid := f'];
    forall name | name in disk' && name !in pre
      ensures exists u :: Owns(flights', u, name)
    {
      if Holds(f') && name == f'.path {
        assert Owns(flights', uid, name);
      } else {
        var u :| Owns(flights, u, name);
        assert Owns(flights', u, name);
      }
    }
  }

  lemma StepKeepsAccounts(cfg: Config, w: World, e: Event)
    requires AllAccounted(cfg, w) && Enabled(cfg, w, e)
    ensures AllAccounted(cfg, Step(cfg, w, e))
  {
    if e.UploadActs? {
      var f := w.flights[e.uid];
      ActionKeepsAccounts(cfg, f, e.action, w.disk, w.sessions[f.sid]);
    }
  }

  lemma StepKeepsDisk(cfg: Config, pre: Disk, w: World, e: Event)
    requires DiskExact(pre, w.disk, w.flights) && AllAccounted(cfg, w) && Enabled(cfg, w, e)
    ensures DiskExact(pre, Step(cfg, w, e).disk, Step(cfg, w, e).flights)
  {
    var w' := Step(cfg, w, e);
    if e.UploadActs? {
      var f := w.flights[e.uid];
      ActionOnDisk(cfg, f, e.action, w.disk, w.sessions[f.sid]);
      FlightChange(pre, w.disk, w.flights, e.uid, w'.flights[e.uid], w'.disk);
    } else if e.UploadArrives? && w'.flights != w.flights {
      FlightChange(pre, w.disk, w.flights, e.uid, w'.flights[e.uid], w.disk);
    }
  }

  // ----- over runs -----

  /** In every reachable state, whatever the interleaving, the directory is the initial one plus exactly the files of
      the flights that hold one; the names are distinct and new, the bytes are those received, and unless a write
      failed they are those hashed. */
  lemma {:induction false} InterleavingSafety(cfg: Config, ws: seq<World>, es: seq<Event>, i: nat)
    requires IsRun(cfg, ws, es) && Starts(ws[0]) && i < |ws|
    ensures DiskExact(ws[0].disk, ws[i].disk, ws[i].flights) && AllAccounted(cfg, ws[i])
  {
    if i > 0 {
      InterleavingSafety(cfg, ws, es, i - 1);
      RunStep(cfg, ws, es, i - 1);
      StepKeepsAccounts(cfg, ws[i - 1], es[i - 1]);
      StepKeepsDisk(cfg, ws[0].disk, ws[i - 1], es[i - 1]);
    }
  }

  /** What has been decided about a flight stays decided, and what it has received only grows. */
  ghost predicate Later(f: Flight, f': Flight) {
    && f'.sid == f.sid && f'.meta == f.meta
    && f.transfer.content <= f'.transfer.content
    && (f.phase != AtCreate ==> f'.phase != AtCreate && f'.path == f.path)
    && (Received(f) ==> Received(f') && f'.transfer == f.transfer)
    && (Succeeds(f) ==> Succeeds(f'))
    && (f.phase.Finished? ==> f' == f)
    && (Holds(f') && f.phase != AtCreate ==> Holds(f))
  }

  lemma StepIsLater(cfg: Config, w: World, e: Event, uid: nat)
    requires Enabled(cfg, w, e) && uid in w.flights
    ensures uid in Step(cfg, w, e).flights && Later(w.flights[uid], Step(cfg, w, e).flights[uid])
  {
    if e.UploadActs? && e.uid == uid {
      AdvanceIsLater(cfg, w.flights[uid], e.action, w.disk, w.sessions[w.flights[uid].sid]);
    }
  }

  lemma AdvanceIsLater(cfg: Config, f: Flight, a: Action, disk: Disk, s: Session)
    requires CanAct(f, a)
    ensures Later(f, Advance(cfg, f, a, disk, s))
  {
  }

  lemma LaterTransitive(f: Flight, g: Flight, h: Flight)
    requires Later(f, g) && Later(g, h)
    ensures Later(f, h)
  {
  }

  lemma RunStepIsLater(cfg: Config, ws: seq<World>, es: seq<Event>, i: nat, uid: nat)
    requires IsRun(cfg, ws, es) && i < |es| && uid in ws[i].flights
    ensures uid in ws[i + 1].flights && Later(ws[i].flights[uid], ws[i + 1].flights[uid])
  {
    RunStep(cfg, ws, es, i);
    StepIsLater(cfg, ws[i], es[i], uid);
  }

  lemma {:induction false} FlightsProgress(cfg: Config, ws: seq<World>, es: seq<Event>, i: nat, j: nat, uid: nat)
    requires IsRun(cfg, ws, es) && i <= j < |ws| && uid in ws[i].flights
    ensures uid in ws[j].flights && Later(ws[i].flights[uid], ws[j].flights[uid])
  {
    if i < j {
      FlightsProgress(cfg, ws, es, i, j - 1, uid);
      RunStepIsLater(cfg, ws, es, j - 1, uid);
      LaterTransitive(ws[i].flights[uid], ws[j - 1].flights[uid], ws[j].flights[uid]);
    }
  }

  /** A file that was there at the start, or whose upload was answered 200, is never changed or removed again;
      the latter has exactly the bytes received, and their checksum is the announced one. */
  lemma SavedFilesEndure(cfg: Config, ws: seq<World>, es: seq<Event>, i: nat, j: nat, uid: nat)
    requires IsRun(cfg, ws, es) && Starts(ws[0]) && i <= j < |ws|
    ensures forall name :: name in ws[0].disk ==> name in ws[j].disk && ws[j].disk[name] == ws[0].disk[name]
    ensures uid in ws[i].flights && Succeeds(ws[i].flights[uid]) ==>
      var f := ws[i].flights[uid];
      && f.path in ws[i].disk && f.path in ws[j].disk
      && ws[j].disk[f.path] == ws[i].disk[f.path] == f.transfer.content
      && f.path !in ws[0].disk
      && (f.meta.sha256 != "" ==> EqualFold(cfg.digest(ws[j].disk[f.path]), f.meta.sha256))
  {
    InterleavingSafety(cfg, ws, es, i);
    InterleavingSafety(cfg, ws, es, j);
    if uid in ws[i].flights && Succeeds(ws[i].flights[uid]) {
      FlightsProgress(cfg, ws, es, i, j, uid);
    }
  }

  /** An upload that ends canceled, mismatching or without a file leaves no trace: from before it arrived to after it
      ended, every name that no other upload holds is as it was. */
  lemma RollbackLeavesNoTrace(cfg: Config, ws: seq<World>, es: seq<Event>, i: nat, j: nat, uid: nat, name: string)
    requires IsRun(cfg, ws, es) && Starts(ws[0]) && i <= j < |ws|
    requires uid !in ws[i].flights && uid in ws[j].flights
    requires ws[j].flights[uid].phase in
      {Finished(Some(UploadCanceled)), Finished(Some(ChecksumMismatch)), Finished(Some(CreateFailed))}
    requires forall other :: other != uid ==> !Owns(ws[i].flights, other, name) && !Owns(ws[j].flights, other, name)
    ensures name in ws[i].disk <==> name in ws[j].disk
    ensures name in ws[i].disk ==> ws[j].disk[name] == ws[i].disk[name]
  {
    InterleavingSafety(cfg, ws, es, i);
    InterleavingSafety(cfg, ws, es, j);
    assert !Owns(ws[i].flights, uid, name) && !Owns(ws[j].flights, uid, name);
  }
}
