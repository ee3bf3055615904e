/** One upload's copy loop: the pieces that the handler and the interleaved model share. */
module Transfers {
  import opened Protocol
  import opened Sessions

  const BUFFER_SIZE: nat := 32 * 1024

  datatype ReadError = NoError | EndOfBody | ReadFailure

  datatype Failure = CreateFailed | UploadCanceled | WriteError | ShortWrite | ReadFailed | ChecksumMismatch

  function StatusOf(f: Failure): nat {
    match f
    case UploadCanceled => STATUS_BAD_REQUEST
    case ChecksumMismatch => STATUS_UNPROCESSABLE
    case _ => STATUS_INTERNAL
  }

  /** The failures after which the receiver removes the file it created. */
  predicate RollsBack(f: Failure) {
    f == UploadCanceled || f == ChecksumMismatch
  }

  /** content is on disk, hashed went into the hasher, written is the counter the loop reports. */
  datatype Transfer = Transfer(content: Bytes, hashed: Bytes, written: nat)

  const EMPTY_TRANSFER := Transfer([], [], 0)

  /** io.MultiWriter writes to the file first and to the hasher only after a full, error-free write. */
  function Absorb(t: Transfer, data: Bytes, nw: nat, failed: bool): Transfer
    requires nw <= |data|
  {
    Transfer(t.content + data[..nw],
             if nw == |data| && !failed then t.hashed + data else t.hashed,
             t.written + nw)
  }

  datatype Verdict = Continue | Verify | Abort(failure: Failure)

  function AfterRead(err: ReadError): Verdict {
    match err
    case NoError => Continue
    case EndOfBody => Verify
    case ReadFailure => Abort(ReadFailed)
  }

  function AfterWrite(data: Bytes, nw: nat, failed: bool, err: ReadError): Verdict {
    if failed then Abort(WriteError)
    else if nw != |data| then Abort(ShortWrite)
    else AfterRead(err)
  }

  /** An empty announced checksum is not verified. */
  predicate ChecksumAccepts(digest: Digest, meta: FileMetadata, hashed: Bytes) {
    meta.sha256 == "" || EqualFold(digest(hashed), meta.sha256)
  }

  // ----- a whole copy loop against a scripted environment -----

  /** What the environment does in one turn of the loop: whether another handler or the cleanup loop
      deleted the session before the loop head looked, what Read returned, and how the write went. */
  datatype RawTurn = RawTurn(deleted: bool, data: Bytes, err: ReadError, nw: nat, writeFails: bool, at: int)

  type Turn = t: RawTurn | |t.data| <= BUFFER_SIZE && t.nw <= |t.data|
    witness RawTurn(false, [], EndOfBody, 0, false, 0)

  function Iterate(t: Transfer, s: Session, fileId: string, turn: Turn): (Transfer, Session, Verdict) {
    if turn.deleted then (t, s.(canceled := true), Abort(UploadCanceled))
    else if turn.data == [] then (t, s, AfterRead(turn.err))
    else
      var t' := Absorb(t, turn.data, turn.nw, turn.writeFails);
      (t',
       if turn.nw > 0 then s.Reported(fileId, t'.written, turn.at) else s,
       AfterWrite(turn.data, turn.nw, turn.writeFails, turn.err))
  }

  /** After the last turn the connection is gone, so Read fails. */
  function Loop(t: Transfer, s: Session, fileId: string, turns: seq<Turn>): (Transfer, Session, Option<Failure>)
    decreases |turns|
  {
    if turns == [] then (t, s, Some(ReadFailed)) else
    var (t', s', verdict) := Iterate(t, s, fileId, turns[0]);
    match verdict
    case Continue => Loop(t', s', fileId, turns[1..])
    case Verify => (t', s', None)
    case Abort(f) => (t', s', Some(f))
  }

  /** A turn in which nobody interferes and the disk takes everything. */
  predicate Smooth(turn: Turn) {
    !turn.deleted && !turn.writeFails && turn.nw == |turn.data|
  }

  function Delivered(turns: seq<Turn>): Bytes {
    if turns == [] then [] else turns[0].data + Delivered(turns[1..])
  }

  /** Reads that end in the only EOF, with or after the last data; empty reads may occur anywhere. */
  predicate CleanBody(turns: seq<Turn>) {
    && turns != []
    && (forall turn :: turn in turns ==> Smooth(turn))
    && turns[|turns| - 1].err == EndOfBody
    && forall i :: 0 <= i < |turns| - 1 ==> turns[i].err == NoError
  }

  /** The time of the last report, if the body has any bytes. */
  function LastWriteAt(turns: seq<Turn>, now: int): int {
    if turns == [] then now
    else LastWriteAt(turns[1..], if turns[0].data != [] then turns[0].at else now)
  }

  /** The session after the loop, said without the loop: one report of the total. */
  function ReportedTotal(s: Session, fileId: string, total: nat, turns: seq<Turn>): Session {
    if Delivered(turns) == [] then s else s.Reported(fileId, total, LastWriteAt(turns, s.lastAccess))
  }

  /** The transfer after these bytes have also been written and hashed. */
  function Extended(t: Transfer, bytes: Bytes): Transfer {
    Transfer(t.content + bytes, t.hashed + bytes, t.written + |bytes|)
  }

  lemma ExtendedTwice(t: Transfer, a: Bytes, b: Bytes)
    ensures Extended(Extended(t, a), b) == Extended(t, a + b)
    ensures Extended(t, []) == t
  {
    assert t.content + a + b == t.content + (a + b);
    assert t.hashed + a + b == t.hashed + (a + b);
  }

  function FirstReport(t: Transfer, s: Session, fileId: string, turn: Turn): Session {
    if turn.data == [] then s else s.Reported(fileId, t.written + |turn.data|, turn.at)
  }

  lemma IterateOnSmooth(t: Transfer, s: Session, fileId: string, turn: Turn)
    requires Smooth(turn)
    ensures Iterate(t, s, fileId, turn) ==
      (Extended(t, turn.data), FirstReport(t, s, fileId, turn), AfterRead(turn.err))
  {
    assert turn.data[..turn.nw] == turn.data;
    ExtendedTwice(t, [], []);
  }

  lemma CleanRest(turns: seq<Turn>)
    requires CleanBody(turns)
    ensures Smooth(turns[0])
    ensures if turns[1..] == [] then turns[0].err == EndOfBody else turns[0].err == NoError && CleanBody(turns[1..])
  {
    var rest := turns[1..];
    assert turns[0] in turns;
    if rest != [] {
      assert rest[|rest| - 1] == turns[|turns| - 1];
    }
  }

  lemma {:induction false} LoopOnCleanBody(t: Transfer, s: Session, fileId: string, turns: seq<Turn>)
    requires CleanBody(turns)
    ensures var body := Delivered(turns);
      Loop(t, s, fileId, turns) ==
      (Extended(t, body), ReportedTotal(s, fileId, t.written + |body|, turns), None)
    decreases |turns|
  {
    var turn, rest := turns[0], turns[1..];
    var t', s' := Extended(t, turn.data), FirstReport(t, s, fileId, turn);
    LoopOnSmooth(t, s, fileId, turns);
    CleanRest(turns);
    ReportsCompose(t, s, fileId, turns, t.written + |Delivered(turns)|);
    ExtendedTwice(t, turn.data, Delivered(rest));
    if rest == [] {
      ExtendedTwice(t', [], []);
    } else {
      LoopOnCleanBody(t', s', fileId, rest);
    }
  }

  lemma LoopFromStart(s: Session, fileId: string, turns: seq<Turn>)
    requires CleanBody(turns)
    ensures var body := Delivered(turns);
      var s' := ReportedTotal(s, fileId, |body|, turns);
      && Loop(EMPTY_TRANSFER, s, fileId, turns) == (Transfer(body, body, |body|), s', None)
      && s'.canceled == s.canceled
  {
    LoopOnCleanBody(EMPTY_TRANSFER, s, fileId, turns);
    assert [] + Delivered(turns) == Delivered(turns);
  }

  lemma LoopOnSmooth(t: Transfer, s: Session, fileId: string, turns: seq<Turn>)
    requires turns != [] && Smooth(turns[0])
    ensures Loop(t, s, fileId, turns) ==
      var t', s' := Extended(t, turns[0].data), FirstReport(t, s, fileId, turns[0]);
      match turns[0].err
      case NoError => Loop(t', s', fileId, turns[1..])
      case EndOfBody => (t', s', None)
      case ReadFailure => (t', s', Some(ReadFailed))
  {
    IterateOnSmooth(t, s, fileId, turns[0]);
  }

  /** The report of the first turn leaves no trace in the session once the total has been reported. */
  lemma ReportsCompose(t: Transfer, s: Session, fileId: string, turns: seq<Turn>, total: nat)
    requires turns != [] && total == t.written + |Delivered(turns)|
    ensures total == Extended(t, turns[0].data).written + |Delivered(turns[1..])|
    ensures ReportedTotal(FirstReport(t, s, fileId, turns[0]), fileId, total, turns[1..])
         == ReportedTotal(s, fileId, total, turns)
  {
    var turn, rest := turns[0], turns[1..];
    var s' := FirstReport(t, s, fileId, turn);
    assert Delivered(turns) == turn.data + Delivered(rest);
    assert LastWriteAt(turns, s.lastAccess) == LastWriteAt(rest, s'.lastAccess);
    if turn.data != [] {
      if Delivered(rest) == [] {
        NothingWritten(rest, turn.at);
      } else {
        SupersededReport(s, fileId, t.written + |turn.data|, turn.at, total, LastWriteAt(rest, turn.at));
      }
    }
  }

  lemma {:induction false} NothingWritten(turns: seq<Turn>, now: int)
    ensures Delivered(turns) == [] ==> LastWriteAt(turns, now) == now
  {
    if turns != [] {
      NothingWritten(turns[1..], now);
    }
  }

  /** A later report about the same file hides an earlier one. */
  lemma SupersededReport(s: Session, fileId: string, b0: int, t0: int, b1: int, t1: int)
    ensures s.Reported(fileId, b0, t0).Reported(fileId, b1, t1) == s.Reported(fileId, b1, t1)
  {
    if fileId in s.progress {
      assert s.progress[fileId := b0][fileId := b1] == s.progress[fileId := b1];
    }
  }

  /** Chunking does not matter: two clean bodies with the same bytes leave the same file, the same hash input,
      the same count, the same progress and completion index, and end the same way. */
  lemma ChunkingIndependence(t: Transfer, s: Session, fileId: string, a: seq<Turn>, b: seq<Turn>)
    requires CleanBody(a) && CleanBody(b) && Delivered(a) == Delivered(b)
    ensures Loop(t, s, fileId, a).0 == Loop(t, s, fileId, b).0
    ensures Loop(t, s, fileId, a).1.(lastAccess := 0) == Loop(t, s, fileId, b).1.(lastAccess := 0)
    ensures Loop(t, s, fileId, a).2 == Loop(t, s, fileId, b).2 == None
  {
    LoopOnCleanBody(t, s, fileId, a);
    LoopOnCleanBody(t, s, fileId, b);
    TotalsDifferInClockOnly(s, fileId, t.written + |Delivered(a)|, a, b);
  }

  lemma TotalsDifferInClockOnly(s: Session, fileId: string, total: nat, a: seq<Turn>, b: seq<Turn>)
    requires Delivered(a) == Delivered(b)
    ensures ReportedTotal(s, fileId, total, a).(lastAccess := 0) == ReportedTotal(s, fileId, total, b).(lastAccess := 0)
  {
    ClockOnly(s, fileId, total, LastWriteAt(a, s.lastAccess), LastWriteAt(b, s.lastAccess));
  }

  lemma ClockOnly(s: Session, fileId: string, bytes: int, t0: int, t1: int)
    ensures s.Reported(fileId, bytes, t0).(lastAccess := 0) == s.Reported(fileId, bytes, t1).(lastAccess := 0)
  {
  }

  /** The counter counts the bytes on disk, and the hasher has seen exactly them. */
  predicate Accurate(t: Transfer) {
    t.hashed == t.content && t.written == |t.content|
  }

  /** Whatever the environment does, the counter counts the bytes on disk, and the hasher has seen exactly them
      unless a write failed. */
  lemma {:induction false} LoopAccounts(t: Transfer, s: Session, fileId: string, turns: seq<Turn>)
    requires Accurate(t)
    ensures var (t', s', end) := Loop(t, s, fileId, turns);
      && t.content <= t'.content && t'.written == |t'.content|
      && (end != Some(WriteError) && end != Some(ShortWrite) ==> Accurate(t'))
      && end != Some(CreateFailed) && end != Some(ChecksumMismatch)
      && (s'.canceled <==> s.canceled || end == Some(UploadCanceled))
    decreases |turns|
  {
    if turns != [] {
      var turn := turns[0];
      var (t', s', verdict) := Iterate(t, s, fileId, turn);
      IterateAccounts(t, s, fileId, turn);
      if verdict == Continue {
        LoopAccounts(t', s', fileId, turns[1..]);
      }
    }
  }

  lemma IterateAccounts(t: Transfer, s: Session, fileId: string, turn: Turn)
    requires Accurate(t)
    ensures var (t', s', verdict) := Iterate(t, s, fileId, turn);
      && t.content <= t'.content && t'.written == |t'.content|
      && (verdict != Abort(WriteError) && verdict != Abort(ShortWrite) ==> Accurate(t'))
      && verdict != Abort(CreateFailed) && verdict != Abort(ChecksumMismatch)
      && (s'.canceled <==> s.canceled || verdict == Abort(UploadCanceled))
  {
    assert turn.nw == |turn.data| ==> turn.data[..turn.nw] == turn.data;
  }

  /** A copy loop reports only about its own file. */
  lemma {:induction false} LoopSparesOtherFiles(t: Transfer, s: Session, fileId: string, turns: seq<Turn>)
    ensures var s' := Loop(t, s, fileId, turns).1;
      && s'.progress.Keys == s.progress.Keys
      && forall id :: id != fileId && id in s.progress ==> s'.progress[id] == s.progress[id]
    decreases |turns|
  {
    if turns != [] {
      var (t', s', verdict) := Iterate(t, s, fileId, turns[0]);
      assert forall id :: id != fileId && id in s.progress ==> s'.progress[id] == s.progress[id];
      if verdict == Continue {
        LoopSparesOtherFiles(t', s', fileId, turns[1..]);
      }
    }
  }

  /** How a turn ends the loop, if it does: the deletion seen at the head, then the write, then the read. */
  function EndedBy(turn: Turn): Option<Option<Failure>> {
    if turn.deleted then Some(Some(UploadCanceled))
    else if turn.data != [] && turn.writeFails then Some(Some(WriteError))
    else if turn.data != [] && turn.nw < |turn.data| then Some(Some(ShortWrite))
    else if turn.err == ReadFailure then Some(Some(ReadFailed))
    else if turn.err == EndOfBody then Some(None)
    else None
  }

  /** What the turn writes. */
  function WrittenBy(turn: Turn): Bytes {
    if turn.deleted then [] else turn.data[..turn.nw]
  }

  lemma TurnEnds(t: Transfer, s: Session, fileId: string, turn: Turn)
    ensures var (t', _, verdict) := Iterate(t, s, fileId, turn);
      && t'.content == t.content + WrittenBy(turn)
      && match EndedBy(turn)
         case None => verdict == Continue && WrittenBy(turn) == turn.data
         case Some(end) => verdict == if end.None? then Verify else Abort(end.value)
  {
    assert turn.data[..|turn.data|] == turn.data;
    assert t.content + [] == t.content;
  }

  lemma MoreWritten(before: Bytes, turn: Turn, rest: seq<Turn>, k: nat)
    requires k <= |rest|
    ensures (before + turn.data) + Delivered(rest[..k]) == before + Delivered(([turn] + rest)[..k + 1])
  {
    var turns := ([turn] + rest)[..k + 1];
    assert turns[0] == turn && turns[1..] == rest[..k];
  }

  /** The first turn that ends the loop decides how, and what is on disk: the data of all turns before it, and what it
      wrote itself. If none does, the connection breaks. */
  lemma {:induction false} FirstEndDecides(t: Transfer, s: Session, fileId: string, turns: seq<Turn>, k: nat)
    requires k <= |turns| && forall i :: 0 <= i < k ==> EndedBy(turns[i]).None?
    requires k < |turns| ==> EndedBy(turns[k]).Some?
    ensures var (t', _, end) := Loop(t, s, fileId, turns);
      && end == (if k == |turns| then Some(ReadFailed) else EndedBy(turns[k]).value)
      && t'.content == (t.content + Delivered(turns[..k])) + if k == |turns| then [] else WrittenBy(turns[k])
    decreases |turns|
  {
    if k == 0 {
      assert turns[..0] == [] && t.content + [] == t.content;
      if turns != [] {
        TurnEnds(t, s, fileId, turns[0]);
      }
    } else {
      var turn, rest := turns[0], turns[1..];
      var (t1, s1, verdict) := Iterate(t, s, fileId, turn);
      TurnEnds(t, s, fileId, turn);
      FirstEndDecides(t1, s1, fileId, rest, k - 1);
      assert turns == [turn] + rest;
      MoreWritten(t.content, turn, rest, k - 1);
    }
  }
}
