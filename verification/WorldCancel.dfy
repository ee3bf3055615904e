/** How far an upload gets once its session has been canceled. */
module WorldCancel {
  import opened Protocol
  import opened Sessions
  import opened Transfers
  import opened World
  import opened WorldSessions

  /** The most actions that a flight of a canceled session can still take. */
  function Rank(phase: Phase): nat {
    match phase
    case AtCreate => 2
    case AtHead => 1
    case AtRead => 5
    case AtWrite(_, _) => 4
    case AtVerify => 3
    case AtRelease => 2
    case AtDelete => 1
    case Finished(_) => 0
  }

  /** The most bytes that it can still write: the buffer it is reading into or has read. */
  function Allowance(phase: Phase): nat {
    match phase
    case AtRead => BUFFER_SIZE
    case AtWrite(data, _) => |data|
    case _ => 0
  }

  /** Past this point the flight meets no loop head before it ends, or meets it canceled. */
  predicate BoundToCancel(phase: Phase) {
    phase == AtHead || phase == AtCreate ||
    phase == Finished(Some(UploadCanceled)) || phase == Finished(Some(CreateFailed))
  }

  function ActionsOf(es: seq<Event>, uid: nat): nat {
    if es == [] then 0
    else
      var last := es[|es| - 1];
      ActionsOf(es[..|es| - 1], uid) + if last.UploadActs? && last.uid == uid then 1 else 0
  }

  predicate SmallBuffer(f: Flight) {
    f.phase.AtWrite? ==> |f.phase.data| <= BUFFER_SIZE
  }

  lemma CanceledAction(cfg: Config, f: Flight, a: Action, disk: Disk, s: Session)
    requires CanAct(f, a) && s.canceled && SmallBuffer(f)
    ensures var f' := Advance(cfg, f, a, disk, s);
      && SmallBuffer(f')
      && Rank(f'.phase) < Rank(f.phase)
      && f'.transfer.written + Allowance(f'.phase) <= f.transfer.written + Allowance(f.phase)
      && (BoundToCancel(f.phase) ==> BoundToCancel(f'.phase))
  {
  }

  lemma {:induction false} BuffersAreSmall(cfg: Config, ws: seq<World>, es: seq<Event>, i: nat, uid: nat)
    requires IsRun(cfg, ws, es) && Starts(ws[0]) && i < |ws| && uid in ws[i].flights
    ensures SmallBuffer(ws[i].flights[uid])
  {
    if i > 0 {
      RunStep(cfg, ws, es, i - 1);
      var w, e := ws[i - 1], es[i - 1];
      if uid in w.flights {
        BuffersAreSmall(cfg, ws, es, i - 1, uid);
        FlightStep(cfg, w, e, uid);
      } else {
        NewFlightCreates(cfg, w, e, uid);
      }
    }
  }

  lemma NewFlightCreates(cfg: Config, w: World, e: Event, uid: nat)
    requires Enabled(cfg, w, e) && uid !in w.flights && uid in Step(cfg, w, e).flights
    ensures Step(cfg, w, e).flights[uid].phase == AtCreate
  {
  }

  /** A step leaves the flight alone or is its own action. */
  lemma FlightStep(cfg: Config, w: World, e: Event, uid: nat)
    requires Enabled(cfg, w, e) && uid in w.flights
    ensures uid in Step(cfg, w, e).flights
    ensures Step(cfg, w, e).flights[uid] ==
      if e.UploadActs? && e.uid == uid
      then Advance(cfg, w.flights[uid], e.action, w.disk, w.sessions[w.flights[uid].sid])
      else w.flights[uid]
  {
  }

  lemma RunFlightStep(cfg: Config, ws: seq<World>, es: seq<Event>, i: nat, uid: nat)
    requires IsRun(cfg, ws, es) && i < |es| && uid in ws[i].flights && SmallBuffer(ws[i].flights[uid])
    requires ws[i].flights[uid].sid in ws[i].sessions && ws[i].sessions[ws[i].flights[uid].sid].canceled
    ensures uid in ws[i + 1].flights
    ensures var f, f' := ws[i].flights[uid], ws[i + 1].flights[uid];
      && f'.sid == f.sid && SmallBuffer(f')
      && (if es[i].UploadActs? && es[i].uid == uid then Rank(f'.phase) < Rank(f.phase) else f' == f)
      && f'.transfer.written + Allowance(f'.phase) <= f.transfer.written + Allowance(f.phase)
      && (BoundToCancel(f.phase) ==> BoundToCancel(f'.phase))
  {
    RunStep(cfg, ws, es, i);
    FlightStep(cfg, ws[i], es[i], uid);
    if es[i].UploadActs? && es[i].uid == uid {
      CanceledAction(cfg, ws[i].flights[uid], es[i].action, ws[i].disk, ws[i].sessions[ws[i].flights[uid].sid]);
    }
  }

  lemma ActionsOneMore(es: seq<Event>, i: nat, j: nat, uid: nat)
    requires i < j <= |es|
    ensures ActionsOf(es[i..j], uid) ==
      ActionsOf(es[i..j - 1], uid) + if es[j - 1].UploadActs? && es[j - 1].uid == uid then 1 else 0
  {
    var part := es[i..j];
    assert part[..|part| - 1] == es[i..j - 1];
  }

  /** Once its session is canceled, an upload takes at most Rank more actions and writes at most one more buffer,
      however the others are scheduled; before its next read it is bound to end canceled. */
  lemma {:induction false} CancellationBound(cfg: Config, ws: seq<World>, es: seq<Event>, i: nat, j: nat, uid: nat)
    requires IsRun(cfg, ws, es) && Starts(ws[0]) && i <= j < |ws| && uid in ws[i].flights
    requires ws[i].flights[uid].sid in ws[i].sessions && ws[i].sessions[ws[i].flights[uid].sid].canceled
    ensures uid in ws[j].flights
    ensures var f, f' := ws[i].flights[uid], ws[j].flights[uid];
      && f'.sid == f.sid && SmallBuffer(f')
      && ActionsOf(es[i..j], uid) + Rank(f'.phase) <= Rank(f.phase) <= 5
      && f'.transfer.written + Allowance(f'.phase) <= f.transfer.written + Allowance(f.phase)
      && Allowance(f.phase) <= 32 * 1024
      && (BoundToCancel(f.phase) ==> BoundToCancel(f'.phase))
  {
    BuffersAreSmall(cfg, ws, es, i, uid);
    if i < j {
      CancellationBound(cfg, ws, es, i, j - 1, uid);
      RemovalIsPermanent(cfg, ws, es, i, j - 1, ws[i].flights[uid].sid);
      RunFlightStep(cfg, ws, es, j - 1, uid);
      ActionsOneMore(es, i, j, uid);
    }
  }
}
