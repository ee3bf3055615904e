# Upload sessions of a LocalSend peer, modelled and proved in Dafny

A peer announces files with a *prepare-upload* request; the receiver asks its user, opens an *upload session* with one
token per accepted file, and the sender then uploads the files one by one. The receiver writes each body to a fresh name
in its save directory while it hashes it, rolls the file back on a cancel or a checksum mismatch, and drops the session
once every file has reached its announced size. A cleanup loop discards idle sessions. This project models that engine,
the sender that drives it, and the two discovery loops, and proves what they keep.

## Layout

- `Protocol`, `Names`: values, statuses, and the search for a free file name.
- `Sessions`, `Manager`: the session with its incremental completion index and the table of sessions, each as a value and
  as a class that updates it in place.
- `Transfers`, `Receiver`, `Server`: the copy loop, the handlers on values, and the handlers as methods on objects that
  are proved against them. `Answers` and `Folding` say which request is answered how, and what a checksum ignores.
- `Sender`, `SenderAnswers`, `SenderResults`, `Delivery`, `Mismatch`, `Resend`, `Client`: SendFiles on values with its
  end-to-end theorems, and the sender object proved against it. `DeliveryWitness` has concrete transfers.
- `World` and its companions: the receiver as a step relation with any number of handlers in flight, a cleanup loop and an
  integer clock. A prepare handler is two events (its check and its answer), an upload handler one event per action
  (create, look at the cancel flag, read, write, verify, check completion, release), a deletion two (unlink, then cancel
  the context), a sweep one per session read and one per deletion. `WorldSequential` and `WorldTransfer` connect it to
  the handlers above and to SendFiles.
- `Discovery`, `Scan`: the duplicate filter of the multicast listener, and the legacy scan with its pool of 64 slots.

The main results are `ExactDelivery`, `MismatchIsReported`, `NoLeakedSession`, `IdempotentResend`, `ResultsAlign`,
`PrepareExactly`, `SavedExactlyIf`, `InterleavingSafety`, `SavedFilesEndure`, `CancellationBound`, `SessionsConserved`,
`AcceptedUploadIsJustified`, `ExpiryIsBounded`, `SweepDeletesExpired`, `InterleavedDelivery`, `LeaksExactly`,
`ExclusivityOverRuns`, `CreationBesideLive`, `ReleasedWasReceived`, `CompletionIsNotLost`, `ChunkingIndependence`,
`CompletionFollowsReports`, `SendFilesIsARun`, `DroppedIffRecent` and `PoolIsSafe`.

## What the code does that one might not expect

- Zero-byte files count as complete from the start, so a session is dropped before the empty files at the end of a list
  are sent, and SendFiles then fails on the first of them. `TrailingEmptyFileFails` is such a transfer;
  `ExactDelivery` says exactly when it happens.
- Completion compares reported bytes with sizes. It does not say that a file is on disk (`CompletionIsNotPresence`,
  with an input in `MismatchCountsAsComplete`). What it does say is `ReleasedWasReceived`; `CompletionIsNotLost` is
  the other direction.
- A sweep reads a session's access time and deletes the session later. A session touched in between is removed although
  it is live (`SweepRemovesLiveSession`); `SweepDeletesExpired` says exactly when.
- Looking up a session touches it without asking whether it has expired, so two live sessions can exist side by side
  (`RevivalBreaksExclusivity`, and `CreatedBesideLive` while the user is being asked). So can the sessions of two
  overlapping prepare requests (`OverlappingGrants`). `OneLiveOverRuns`, `ExclusivityOverRuns` for serialised prepare
  handlers, and `CreationBesideLive` for the moment of a creation say exactly when.
- A sender that cannot use a granting answer, because its fingerprint check fails after the 200, leaves the session stored
  and the receiver busy (`UnusableStaysBusy`), and so can a lost cancel request (`LostCancelLeaks`); `LeaksExactly` says
  exactly when.
- An upload with a wrong token or file identifier is answered 400, although the repository's own protocol
  documentation lists 403 for it; that also lists a 409 that no upload gets. The model follows the code.
- The server asks for a client certificate without verifying it (`pkg/server/server.go:98`), where its documentation
  speaks of a mode that verifies one if given. The model follows the code: a certificate is a fingerprint that is there
  or not.

## Assumptions

- Names and files: `os.Stat` answers only that an entry exists or that it does not, `os.Remove` succeeds, and choosing a
  free name and creating the file are one atomic action. Base names are ordinary: ".", ".." and "/" are not meant.
- Atomicity: looking up a session and touching it are one action, and so are the duplicate filter's lookup and update for
  one packet. `IsBusy` reads the table at once, but its check and the later creation of the session are separate events.
- SHA-256 in hexadecimal is an arbitrary function from bytes to text, and comparing digests folds ASCII letters only: no
  other character folds onto a hexadecimal digit. Identifiers and tokens come from a supply that never repeats.
- Sizes and counters are unbounded integers; they would have to exceed 63 bits to differ from the program's.
- What a handler meets (what Read returns, how far a write gets, who deletes the session meanwhile, whether an answer
  arrives) is data, and the theorems quantify over it. `NoLeakedSession` assumes non-negative sizes and that the end of a
  body is seen only after as many bytes as announced, which Content-Length framing gives; `ExactDelivery` assumes in
  addition distinct identifiers, bodies of exactly the announced size and checksums that are empty or right.
- `SendFiles` keys every file by its own identifier. The receiver uses the identifier inside the metadata when it reports
  progress, and the model does the same, also for requests in which the two differ.

## Model

| member | source | states |
|---|---|---|
| Names.DigitsInjective | pkg/server/server.go:468 | two numbers with the same decimal text are the same number |
| Names.DecimalInjective | pkg/discovery/discovery.go:129 | the same for signed numbers, as `%d` renders them |
| Names.DigitsReadBack | pkg/server/server.go:468 | rendering is decimal: the text read back gives the number, and there is no leading zero |
| Names.DecimalReadsBack | pkg/discovery/discovery.go:129 | the same for signed numbers |
| Names.CandidateInjective | pkg/server/server.go:461-469 | the names tried for one file are pairwise different, the plain name included |
| Names.TakenAreBounded | pkg/server/server.go:463-470 | pigeonhole: n taken candidates need a directory of at least n entries |
| Names.FirstFree | pkg/server/server.go:463-470 | from any start there is a free candidate within the size of the directory, and every one before it is taken |
| Names.UniqueNameIsFirstFree | pkg/server/server.go:457-472 | a free candidate whose predecessors are all taken is the chosen name, and no other is |
| Names.BaseOfPlainName | pkg/server/server.go:458 | a name without a slash is its own base name |
| Names.BaseOfPath | pkg/server/server.go:458 | directories are dropped, whatever they are, so that a file name cannot lead out of the save directory |
| Names.BaseOfDirectory | pkg/server/server.go:458 | slashes at the end of a path do not matter |
| Names.BaseHasNoSlash | pkg/server/server.go:458 | a base name is never empty and has no slash, unless the path is made of slashes only |
| Names.ExtOfDotted | pkg/server/server.go:459 | the extension begins at the last dot |
| Names.ExtOfPlain | pkg/server/server.go:459 | a name without a dot has no extension |
| Names.CandidateOfDotted | pkg/server/server.go:460-469 | the number goes between the stem and the extension: a.txt, a (1).txt, a (2).txt |
| Names.CandidateOfPlain | pkg/server/server.go:460-469 | and behind a name without an extension |
| Names.SecondOfName | pkg/server/server.go:457-472 | a second a.txt, from whatever directory it comes, is stored as a (1).txt |
| Names.GetUniquePath | pkg/server/server.go:457-472 | the probing loop ends after at most one probe more than the directory has entries, with a name that is absent from it and is the first free one in order |
| Sessions.Session.CompletedMeansAllReached | pkg/session/session.go:215-221 | for an index that agrees with its definition, comparing two counts decides whether every file has reached its size |
| Sessions.NewSessionIndexed | pkg/session/session.go:28-56 | a new session's index agrees with its definition exactly when no announced size is negative |
| Sessions.ApplyKeepsIndex | pkg/session/session.go:86-98 | a touch, a cancel, or a report (smaller than before, or for an unknown file) keeps the index exact and the announcement fixed |
| Sessions.ApplyAllKeepsIndex | pkg/session/session.go:86-98 | the same over every history, and each file's progress is what was last reported about it |
| Sessions.CompletionFollowsReports | pkg/session/session.go:28-98 | after any history of a session, it counts as completed if and only if the last report of every file reached that file's size |
| Sessions.InitialFiles | pkg/session/session.go:33-40 | every announced file gets a fresh token, no two the same, a zero count, and is marked complete exactly if it has no bytes |
| Sessions.UploadSession.constructor | pkg/session/session.go:28-56 | the object's value is the new session with fresh, pairwise different identifier and tokens |
| Sessions.UploadSession.UpdateProgress | pkg/session/session.go:86-98 | updates progress, index and access time in place as a report says, and nothing else |
| Sessions.UploadSession.Touch | pkg/session/session.go:79-83 | only the access time changes |
| Sessions.UploadSession.CancelContext | pkg/session/session.go:64-66 | only the cancel flag changes, to true |
| Sessions.UploadSession.GetFileTokenAndMeta | pkg/session/session.go:101-108 | finds token and metadata exactly for files that have both |
| Manager.SweepIsSafe | pkg/session/session.go:196-211 | a sweep with a clock however stale spares every session whose age is at most the timeout, and never changes whether the receiver is busy |
| Manager.SessionManager.CreateSession | pkg/session/session.go:143-147 | adds exactly one session under an identifier that was not in the table |
| Manager.SessionManager.GetSession | pkg/session/session.go:150-158 | touches the named session whether or not it has expired; an unknown one changes nothing |
| Manager.SessionManager.DeleteSession | pkg/session/session.go:161-167 | removes and cancels the named session, and no other |
| Manager.SessionManager.IsBusy | pkg/session/session.go:170-185 | true exactly if some stored session's age is below the timeout |
| Manager.SessionManager.DiscardExpired | pkg/session/session.go:197-210 | the pass removes and cancels exactly the sessions older than the timeout and leaves the others untouched |
| Manager.SessionManager.Sweep | pkg/session/session.go:196-211 | one tick leaves exactly the sessions that SweepIsSafe speaks of |
| Transfers.LoopOnCleanBody | pkg/server/server.go:349-387 | a body that arrives without trouble is written, hashed and counted exactly, whatever its chunks, and its session ends as after one report of the total |
| Transfers.ReportsCompose | pkg/server/server.go:366-370 | a turn's report leaves no trace in the session once the total has been reported |
| Transfers.SupersededReport | pkg/session/session.go:86-98 | a later report about the same file hides an earlier one, in the progress and in the completion index |
| Transfers.ChunkingIndependence | pkg/server/server.go:349-387 | two bodies with the same bytes in different chunks (empty reads, end with or after the last data) leave the same file, hash input, count, progress, completion index and outcome |
| Transfers.FirstEndDecides | pkg/server/server.go:356-387 | the first turn in which the session turns out canceled, a write fails or is short, a read fails or the body ends decides how the loop ends and what is on disk; if there is none the connection broke |
| Transfers.LoopAccounts | pkg/server/server.go:349-387 | whatever the environment does, the counter counts the bytes on disk and the hasher has seen exactly these unless a write failed; a session ends canceled exactly if it was or the upload was canceled |
| Transfers.LoopSparesOtherFiles | pkg/server/server.go:369 | an upload reports only about its own file |
| Receiver.SaveByLoop | pkg/server/server.go:336-400 | the directory, the table and the answer for each way in which the copy loop can end; the name was free before |
| Receiver.Rollback | pkg/server/server.go:341-397 | an upload that ends canceled, mismatching or without a file leaves the directory exactly as before |
| Receiver.SavedFile | pkg/server/server.go:389-399 | a saved upload adds exactly one entry, under the first free name; a non-empty announced checksum matches, case folded, the digest of that entry's bytes |
| Receiver.FailedFile | pkg/server/server.go:358-397 | the partial file stays exactly after a write error, short write or read error; no failure touches another entry |
| Receiver.SaveSparesOtherSessions | pkg/server/server.go:336-400 | saving leaves every other session as it was |
| Receiver.AcceptByLoop | pkg/server/server.go:415-430 | the answer and the new state of an accepted upload for every way the copy loop ends; the session goes exactly on cancel or on completion |
| Receiver.UploadSparesOtherSessions | pkg/server/server.go:403-431 | an upload request affects no session but the one it names, and nothing at all if that one is unknown |
| Receiver.SaveCleanBody | pkg/server/server.go:336-400 | for a body that arrives without trouble the checksum alone decides: either the entry with exactly its bytes, or the old directory |
| Receiver.SavedExactlyIf | pkg/server/server.go:389-399 | a body that arrived without trouble is saved with exactly its bytes and answered 200 if and only if the announced checksum is empty or is their digest up to letter case; else it is answered 422 and leaves the directory as it was |
| Folding.CaseDoesNotMatter | pkg/server/server.go:392 | a checksum is accepted in upper case exactly when it is in lower case, or as it is |
| Folding.DigestsAreExact | pkg/server/server.go:392 | of a hexadecimal digest no letter and no digit is ignored |
| Answers.GateExactly | pkg/server/server.go:234-270 | each of 405, 401, 403, 400, 204 and 409 is the answer exactly under its own condition, in the source's order; for 204 every file is in the directory with its size |
| Answers.PrepareExactly | pkg/server/server.go:233-295 | a prepare request is granted if and only if it passes every check and the user wants some file; every refusal has its own status, exactly when, and changes nothing |
| Answers.FilteredExactly | pkg/server/server.go:214-229 | the files kept are exactly those that the user wants, unchanged |
| Answers.GrantExactly | pkg/server/server.go:282-294 | a grant stores one session for exactly the wanted files as they were announced, bound to the sender's address, verified exactly if the sender announced the fingerprint of its certificate, with nothing received yet |
| Answers.RefusedUpload | pkg/server/server.go:303-330 | each refusal of an upload, with its status and exactly when; at most the access time of the named session changes |
| Answers.AcceptedUpload | pkg/server/server.go:403-431 | every other upload is accepted: without trouble it ends in 200 or 422 by its checksum alone |
| Receiver.CompletionIsNotPresence | pkg/server/server.go:389-399 | after a body that arrived without trouble, the session counts the file as complete if and only if the bytes reach its size, whether or not the checksum is accepted; the file is in the directory if and only if it is |
| Server.Server.AreAllFilesDuplicate | pkg/server/server.go:186-199 | true exactly for a non-empty list whose base names all exist with the announced sizes |
| Server.Server.FilterAcceptedFiles | pkg/server/server.go:203-230 | exactly the files that the user accepted, none on a rejection |
| Server.Server.PrepareGate | pkg/server/server.go:233-270 | the first failing check, in order: method, PIN, certificate, body, duplicates, busy; none exactly if the request may reach the user |
| Server.Server.HandlePrepareUpload | pkg/server/server.go:233-295 | grants if and only if the request passes every check and the user wants some file, and then stores exactly one new session with tokens for exactly the wanted files; otherwise refuses without any change |
| Server.Server.CopyTurn | pkg/server/server.go:356-387 | one turn in place, over the reused buffer, is one turn of the loop's specification |
| Server.Server.CopyBody | pkg/server/server.go:352-387 | the in-place loop leaves the directory, the hash input and the session as the specification of the loop says; it touches only its own file |
| Server.Server.ReceiveBody | pkg/server/server.go:343-387 | seen from the table: only this session changes, or it is gone if another handler deleted it meanwhile |
| Server.Server.SaveUploadedFile | pkg/server/server.go:336-400 | refines the saving of SavedFile, FailedFile and Rollback; a body without trouble is saved exactly if its announced checksum is empty or matches up to letter case; the session is canceled exactly if the upload was |
| Server.Server.ValidateUploadRequest | pkg/server/server.go:298-333 | accepts exactly the requests that name a stored session, a file of it with its token, the right address and, under strict TLS, a verified certificate; the session was touched before any check, even when one fails |
| Server.Server.ReleaseIfCompleted | pkg/server/server.go:426-428 | deletes and cancels the session exactly if it counts as completed |
| Server.Server.AcceptUpload | pkg/server/server.go:415-430 | refines the accepted upload of AcceptByLoop |
| Server.Server.HandleUpload | pkg/server/server.go:403-431 | the handler on objects refines the handler on values, of which delivery, rollback and cancellation are proved; no session object is replaced |
| Server.Server.HandleCancel | pkg/server/server.go:434-444 | only a POST deletes and cancels the named session; the answer is 200 whether or not it existed |
| SenderAnswers.AnnouncedAsGiven | pkg/client/client.go:157-167 | every file is announced under its identifier with the name, size and checksum of the last source that has this identifier |
| SenderAnswers.TransferErrors | pkg/client/client.go:261-303 | only an answered 200 is a success and only an answered 422 a checksum error; every other course of a transfer has its own error |
| SenderAnswers.PreparedExactly | pkg/client/client.go:200-222 | what SendFiles reports for a wrong PIN, a missing certificate, files that are all there, a busy receiver and a user who wants nothing; in no other case can anything but a transfer fail |
| SenderResults.SendAllAligned | pkg/client/client.go:239-257 | without a failure one entry per input file, nil exactly where a token was issued; with one, the entries end at the failing file, which had a token |
| SenderResults.NothingSentAfterFailure | pkg/client/client.go:247-252 | nothing after the first failing file is sent: replacing the files after it changes neither results nor receiver |
| SenderResults.ResultsAlign | pkg/client/client.go:155-258 | for every course of events the results match the input position by position, and the error tells which of the three shapes they have |
| SenderResults.FramedLoopReaches | pkg/server/server.go:356-387 | a body framed by its length that is read to its end has been counted and reported up to that length |
| SenderResults.UploadSettles | pkg/server/server.go:403-431 | an answered 200 leaves the session gone, or alive with some accepted file still to be sent |
| SenderResults.SendAllEndsSession | pkg/client/client.go:239-257 | unless a transfer fails the session is gone when the last file has been sent, and other sessions are untouched |
| SenderResults.NoLeakedSession | pkg/client/client.go:224-257 | after a grant, on every path through SendFiles, the session is no longer stored when it returns (a failed transfer's cancel request being delivered) and the rest of the table is as before |
| SenderResults.StoredAfterLoop | pkg/client/client.go:239-257 | the receiver still has the session when the sending loop returns if and only if no file that was sent ended it, by completing it or by meeting its deletion |
| SenderResults.LeaksExactly | pkg/client/client.go:155-258 | SendFiles leaves its session stored if and only if the session is created and either the sender cannot use the answer, or a transfer fails, its cancel request is lost, and neither the failing transfer nor one before it ended the session |
| SenderResults.UnusableLeaks | pkg/client/client.go:196-222 | after an answer that the sender cannot use, the receiver is busy until the session expires |
| Delivery.ReachIsAll | pkg/server/server.go:425-428 | all accepted files get through exactly when there is one, or the last of them has bytes |
| Delivery.ReachIsTight | pkg/server/server.go:425-428 | every file that does not get through is empty, and the last one that does is not, unless it is the first |
| Delivery.StoredIsFresh | pkg/server/server.go:341-399 | storing files one after the other adds one entry per file, under distinct names that were free, with exactly its bytes, and changes nothing else |
| Delivery.CompletedWhenOnlyEmptyRemain | pkg/session/session.go:33-40 | while files are being sent, the session counts as completed exactly when only empty ones remain |
| Delivery.HonestUpload | pkg/client/client.go:261-303 | an honest file is answered 200 and stored, and the session goes exactly if only empty files remain |
| Delivery.SendAllWithoutSession | pkg/client/client.go:239-257 | once the session is gone the next accepted file fails and the receiver changes no more |
| Delivery.HonestSendAll | pkg/client/client.go:239-257 | an honest sender's loop stores exactly the files within reach, fails exactly if one is out of reach, and leaves no session |
| Delivery.OpenedSessionWaits | pkg/session/session.go:28-56 | the session that a grant opens waits for exactly the accepted files |
| Delivery.ExactDelivery | pkg/client/client.go:155-258 | end to end, for any number of files and any chunks: SendFiles succeeds if and only if one file was accepted or the last accepted one has bytes; the directory gains exactly the files that got through, all of them on success, under distinct names that were free and with exactly their bytes; the table is as before |
| Mismatch.MismatchedUpload | pkg/server/server.go:390-397 | the upload of a file whose contents are not those of its announced checksum is a checksum error and leaves the directory as it was |
| Mismatch.MismatchIsReported | pkg/client/client.go:246-252 | end to end: the files before such a file are stored, its entry is the checksum error and the last one, and it adds nothing to the directory |
| DeliveryWitness.TrailingEmptyFileFails | pkg/session/session.go:33-40 | a concrete pair of files, the second of them empty, whose honest transfer fails |
| Receiver.MismatchStillCounts | pkg/server/server.go:390-397 | in particular, after a mismatch, answered 422, the file is gone while its session counts it as complete |
| DeliveryWitness.MismatchCountsAsComplete | pkg/server/server.go:390-397 | a concrete upload answered 422: nothing is in the directory and the session counts as completed |
| DeliveryWitness.UnusableStaysBusy | pkg/client/client.go:196-222 | a concrete granted answer that the sender cannot use: the receiver stays busy |
| DeliveryWitness.LostCancelLeaks | pkg/client/client.go:246-252 | a concrete file that cannot be opened and a lost cancel request: the session stays stored |
| DeliveryWitness.SentTwice | pkg/client/client.go:155-258 | a concrete file that is stored by a first transfer and left alone by a second |
| Resend.NoneRenamed | pkg/server/server.go:457-472 | files with distinct, unused base names are stored under these names |
| Resend.IdempotentResend | pkg/client/client.go:200-206 | after a complete transfer of such files, sending them again is answered 204: every entry is nil and neither directory nor table changes, whatever the transfers would have met |
| Resend.StoredAreDuplicates | pkg/server/server.go:186-199 | a directory that holds what was sent makes the duplicate check succeed |
| Client.ProgressIncreases | pkg/client/client.go:49-58 | reported progress strictly increases, starts above the count before, and ends at the bytes read; nothing is reported if nothing is read |
| Client.ProgressReader.Read | pkg/client/client.go:49-58 | count and reports stay those of the sequence of reads so far |
| Client.Client.Announce | pkg/client/client.go:157-167 | the announced map has every file under its identifier, the last one where identifiers repeat |
| Client.Client.UploadFile | pkg/client/client.go:261-303 | one transfer against the receiver object refines the transfer on values, error by error |
| Client.Client.SendAll | pkg/client/client.go:239-257 | the appending loop with its early return gives the results and the receiver state of the recursive specification |
| Client.Client.SendGranted | pkg/client/client.go:224-257 | the loop and the cancel request of a failed transfer |
| Client.Client.SendFiles | pkg/client/client.go:155-258 | sender object and receiver object together refine the SendFiles of NoLeakedSession, ExactDelivery and ResultsAlign |
| WorldDisk.ActionOnDisk | pkg/server/server.go:341-397 | an action of an upload adds a free name, rewrites its own file or removes its own file |
| WorldDisk.StepKeepsDisk | pkg/server/server.go:336-400 | every atomic action of any handler or of the sweep keeps the directory exact |
| WorldDisk.InterleavingSafety | pkg/server/server.go:336-400 | in every reachable state with any number of uploads in flight, the directory is the initial one plus exactly the files the uploads hold: distinct names that were not there, with exactly the bytes received, which are those hashed unless a write failed |
| WorldDisk.FlightsProgress | pkg/server/server.go:336-400 | what has been decided about an upload stays decided, and its content only grows |
| WorldDisk.SavedFilesEndure | pkg/server/server.go:336-400 | an initial file, or one whose upload was answered 200, is never changed or removed by anything that happens later, and the latter matches its announced checksum |
| WorldDisk.RollbackLeavesNoTrace | pkg/server/server.go:358-397 | in any interleaving a rolled-back upload leaves every name that no other upload holds as it was before it arrived |
| WorldSessions.StepOnSession | pkg/session/session.go:79-98 | what one step does to one session: the grant never changes, the access time moves exactly on a touch, the flag exactly on a cancel |
| WorldSessions.StepConserves | pkg/session/session.go:143-167 | every step keeps each session in exactly one of: stored, unlinked, canceled |
| WorldSessions.SessionsConserved | pkg/session/session.go:143-210 | over every interleaving of creation, completion, cancel requests and sweeps, sessions ever created are the disjoint union of stored, unlinked and canceled ones; racing deleters remove once and cancel once |
| WorldSessions.RemovalIsPermanent | pkg/session/session.go:161-167 | a removed session never comes back and a canceled one stays canceled |
| WorldCancel.CanceledAction | pkg/server/server.go:356-387 | on a canceled session every action of an upload brings it nearer to its end without growing what it may still write |
| WorldCancel.CancellationBound | pkg/server/server.go:353-387 | after its session is canceled an upload takes at most five more actions of its own and writes at most one more buffer of 32 KiB, however the others are scheduled; before its next read it is bound to end canceled |
| WorldHistory.StoredWasGranted | pkg/server/server.go:282-294 | a stored session was granted by an earlier answer and has been stored ever since |
| WorldHistory.PendingHasArrived | pkg/server/server.go:233-270 | a prepare request that waits for its answer arrived earlier and passed every check |
| WorldHistory.AcceptedUploadIsJustified | pkg/server/server.go:298-333 | an upload that passes validation has an earlier prepare request from the same address, with the right PIN, that passed every check, and its answer issued this session and this token for this file, which the user accepted and chose; the session was not deleted in between |
| WorldClock.ClockIsSane | pkg/session/session.go:196-205 | in every run no access time lies in the future, and a session that a sweep is about to delete had expired when read |
| WorldClock.RecentlyTouched | pkg/session/session.go:79-98 | over any part of a run, a session's access time is recent if and only if it was before or a recent event touched the session |
| WorldSweep.CondemnedWasRead | pkg/session/session.go:198-204 | the session that a sweep is about to delete was read by an earlier event and had expired then |
| WorldSweep.SweepDeletesExpired | pkg/session/session.go:196-208 | what a sweep deletes, exactly: its age is at most the timeout if and only if an event between the sweep's read and its deletion touched it that recently, and the deletion changes whether the receiver is busy if and only if the session, still stored, was touched within the timeout and no other is live |
| WorldSweep.OnlyDeletersRemove | pkg/server/server.go:425-444 | nothing but a cancel request, a completed upload or a sweep's deletion removes a session |
| WorldClock.StepKeepsTrack | pkg/session/session.go:188-213 | a stored session is due by the next tick, or the sweep under way, whose tick came before it was due, will meet it; sweeps may begin late and take time |
| WorldClock.ExpiryIsBounded | pkg/session/session.go:188-213 | while each sweep begins and ends within `late` of its tick, for any `late`, a session last touched at L is stored no later than L + timeout + interval + late |
| WorldExclusive.ExclusivityOverRuns | pkg/server/server.go:266-286 | with serialised prepare handlers, at most one stored session is unexpired in every state, and none while a prepare handler waits, if and only if no event touches a session idle for the timeout while another is live or a prepare handler waits |
| WorldExclusive.OneLiveOverRuns | pkg/session/session.go:143-185 | in any run, at most one stored session is unexpired in every state if and only if no event creates one, or touches one idle for the timeout, while another is live |
| WorldExclusive.ExclusiveWithoutRevival | pkg/server/server.go:266-286 | in particular if no session idle for the timeout is ever touched |
| WorldExclusive.RecentlyWoken | pkg/session/session.go:143-158 | over any part of a run, a session is there with a recent access time if and only if it was before or a recent event created or touched it |
| WorldExclusive.CreationBesideLive | pkg/server/server.go:266-286 | over runs, whatever happens between a request's check and its answer, overlapping prepare handlers included: another session is live when the new one is created if and only if it is stored and was created or touched in between, within the timeout |
| WorldExclusive.CreationAfterTouch | pkg/server/server.go:266-286 | if no session is created in between, if and only if it is stored and was touched in between, within the timeout |
| WorldExclusive.ExclusiveAtCreation | pkg/server/server.go:266-286 | over runs, the new session is the only live one when it is created, if nothing created or revived a session between the check and the answer; earlier revivals do not matter |
| WorldWitness.SweepRemovesLiveSession | pkg/session/session.go:198-210 | a run in which a sweep removes a session touched a moment ago, and the receiver stops being busy |
| WorldWitness.RevivalBreaksExclusivity | pkg/session/session.go:150-158 | a run with serialised prepare handlers in which a request revives an expired session beside a newer one |
| WorldWitness.CreatedBesideLive | pkg/server/server.go:266-286 | a run in which a touch between the check and the answer leaves two live sessions when the new one is created |
| WorldWitness.OverlappingGrants | pkg/server/server.go:266-286 | a run in which two prepare requests overlap, both are granted, and two sessions are live although nothing was touched |
| WorldCompletion.SessionsHonoured | pkg/session/session.go:86-98 | in every reachable state every session announced without negative sizes is indexed, and all recorded progress was received by some upload of that file |
| WorldCompletion.ReleasedWasReceived | pkg/server/server.go:425-428 | a session released as completed had, for every file of positive size, an upload that received at least that many bytes, whatever the interleaving |
| WorldCompletion.CompletionIsNotLost | pkg/server/server.go:425-428 | conversely, in every interleaving a completed session is gone once all its uploads, of which there is one, have been answered 200 |
| WorldDelivery.StoredUntilReceived | pkg/server/server.go:425-428 | unless a cancel request or a sweep removes it, a session is stored as long as some file with bytes has not been received |
| WorldDelivery.NamedAtCreation | pkg/server/server.go:341-343 | the name under which an upload keeps its file is the unique name at the moment of creation |
| WorldDelivery.InterleavedDelivery | pkg/server/server.go:403-431 | over all interleavings with other uploads, prepare handlers and sweeps, while nothing removes its session from outside: an upload of a file with bytes, not received before, is accepted; without a fault of its environment it ends in 200 exactly if the announced checksum accepts the bytes read, and then its entry has exactly these bytes from then on; the only other end is that another upload released the completed session, and by then the whole file had been received |
| WorldSequential.FollowsIsRun | pkg/server/server.go:336-431 | events that lead from one state to another are a run |
| WorldSequential.WritingTurn | pkg/server/server.go:356-380 | a turn of the copy loop that writes is a sequence of actions of the interleaved receiver |
| WorldSequential.LoopIsARun | pkg/server/server.go:356-387 | so is the whole copy loop, interference included |
| WorldSequential.SettleIsARun | pkg/server/server.go:389-430 | so are the checksum, the completion check and the release |
| WorldSequential.AcceptIsARun | pkg/server/server.go:415-430 | so is the accepted upload, with the same directory, stored sessions and answer |
| WorldSequential.UploadIsARun | pkg/server/server.go:403-431 | every upload request handled on its own is a run of the interleaved receiver with the same directory, stored sessions and answer, refused or accepted |
| WorldSequential.PrepareIsARun | pkg/server/server.go:233-295 | so is every prepare request that is answered at once |
| WorldSequential.CancelIsARun | pkg/server/server.go:434-444 | so is every cancel request |
| WorldSequential.SweepIsARun | pkg/session/session.go:196-211 | so is a tick of the cleanup loop during which nobody else moves: it leaves what the sweep on values leaves |
| WorldTransfer.SendFilesIsARun | pkg/client/client.go:155-258 | so is all of SendFiles, from the prepare request to the last upload or the cancel request, whoever else has handlers in flight |
| Discovery.KeyInjective | pkg/discovery/discovery.go:129 | different pairs of fingerprint and port get different keys, even when fingerprints contain colons |
| Discovery.TableHoldsLastRecorded | pkg/discovery/discovery.go:130-135 | a time in the table is that of the last recorded packet with that key |
| Discovery.RecordedStays | pkg/discovery/discovery.go:135 | a recorded packet's key stays in the table |
| Discovery.DeliveriesAreSpaced | pkg/discovery/discovery.go:127-135 | in any time-ordered trace, recorded packets of one sender are at least two seconds apart |
| Discovery.DroppedIffRecent | pkg/discovery/discovery.go:127-135 | a packet is dropped as a duplicate if and only if a recorded packet of the same sender came less than two seconds before it |
| Discovery.VerdictsExactly | pkg/discovery/discovery.go:116-151 | what becomes of every packet of a time-ordered trace, case by case: undecodable, self-echo by fingerprint and port, too soon, without UDP source, delivered, and answered exactly if it asks for it and names a port |
| Discovery.Listener.HandlePacket | pkg/discovery/discovery.go:116-151 | the verdict on a packet and the new table, in place; a packet from no UDP address is recorded but not delivered |
| Discovery.Listener.HandleConn | pkg/discovery/discovery.go:107-153 | the receive loop gives every packet of a trace its verdict and leaves the table of that trace |
| Scan.DottedInjective | pkg/discovery/discovery.go:360-367 | comparing the dotted texts of addresses is comparing the addresses |
| Scan.PrivateBlocks | pkg/discovery/discovery.go:389-397 | the private addresses are the three blocks of section 3 of RFC 1918, as ranges of numbers |
| Scan.OwnPortsAreCovered | pkg/discovery/discovery.go:244-250 | ports 53317 to 53326 of the own addresses and of loopback are probed, except the port on which the scanner itself listens, and no others of these |
| Scan.OthersAreSpared | pkg/discovery/discovery.go:273-285 | nothing else is probed but port 53317 of the hosts .1 to .254 of local subnets |
| Scan.PhasesDisjoint | pkg/discovery/discovery.go:242-305 | for private local addresses no endpoint is probed by both phases |
| Scan.FirstPhase | pkg/discovery/discovery.go:244-270 | the targets are exactly the ten conflict ports of the own addresses and loopback, without the scanner's own endpoint, each as often as its address is listed |
| Scan.SecondPhase | pkg/discovery/discovery.go:273-305 | the targets are exactly the default port of the .1 to .254 hosts of the local subnets, without the own addresses, each once for every local address of its subnet |
| Scan.SubnetsAreCovered | pkg/discovery/discovery.go:242-305 | every .1 to .254 host of every local subnet is probed on the default port, except the scanner itself |
| Scan.MoveKeepsCounts | pkg/discovery/discovery.go:253-269 | every move keeps the semaphore and the wait group equal to what they count, and some measure of the work left decreases |
| Scan.SomeoneCanMove | pkg/discovery/discovery.go:253-307 | until the scan returns some goroutine can move |
| Scan.PoolIsSafe | pkg/discovery/discovery.go:229-308 | in every interleaving at most 64 probes run, the semaphore counts exactly them and the one about to start, Wait returns only when every target is done, and there are at most 5n + 2 moves for n targets |

## Left out

- Sockets, HTTP routing, JSON, TLS handshakes, proxies: requests and answers are values, and the transport either delivers or fails.
- The computation of SHA-256, certificates and their files, and the generation of UUIDs.
- The OnProgress and OnDone callbacks, and the metadata fields that no branch reads (file type, preview).
- The Download API, the web interface and the PIN form: templates, cookies and straight-line checks.
- `pkg/discovery/mdns.go`, socket options, sending announcements, and the exchange with a probed host: library calls.
- The command line, translations, aliases and device information: user interface.
- Closing the session manager: bounds on expiry are about one that is open.
- File system oddities: over-long, case-insensitive or special names, failing removals, permission errors other than a failing create.
- Another program creating a file between the choice of a name and its creation.
- Server.Server.HandlePrepareUpload: runs alone on objects; prepare handlers that overlap with others are the two events of the interleaved model.
- Server.Server.HandleUpload: other handlers act on objects only by deleting its session, at the loop heads where it looks; all other interleavings are in the step relation.
- Server.Server.ReceiveBody: as for HandleUpload; what other handlers and the sweep do in between is in the step relation.
- Manager.SessionManager.Sweep: the pass over the session objects is not interrupted; touches during a sweep are in the step relation.
- Manager.SweepIsSafe: speaks of that uninterrupted pass; what a sweep does among other handlers is SweepDeletesExpired.
- WorldClock.ExpiryIsBounded: every tick leads to a sweep; a ticker that drops ticks gives no bound.
- Scan.FirstPhase: says how often each endpoint is probed, not in which order, because the probes run concurrently.
- Scan.SecondPhase: likewise.
