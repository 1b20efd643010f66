# Mutte client: verified model

Dafny models of the parts of the Mutte client where state, ordering and arithmetic meet, and
proofs about every input, every run or every interleaving of them. `dafny verify dfyconfig.toml`
checks everything.

| files | what they model |
|---|---|
| `Transfer`, `RegistryRuns` | the three-state cancellation control, the registry of transfers, and every run of registry operations |
| `Attempt`, `AttemptRuns` | one upload or download attempt interleaved with frontends that cancel at any moment, and any number of attempts with the control that explicit operations leave in the engine |
| `FileQueue`, `QueueCleanup` | the files a vault has queued, and persisting accepted cancels of them |
| `UploadProgress` | byte and chunk counters of uploads and downloads, reported to the registry |
| `Holds`, `HoldRuns`, `HoldSubmit`, `HoldApp` | undo-send: the held texts in memory and on disk, a step machine with failing saves, failing sends and crashes, what a submission and a tick come to, and the terminal's methods |
| `SignOut` | sign-out with its durable intent, two vaults and one identity, crashing between any two writes |
| `Inbox`, `InboxReplay` | a delivery on its way from the relay through ratchet, journal and vault to its acknowledgement, and the replays and fetches that meet no failure |
| `Messages`, `Polls`, `PollCounts` | the reading order of events, polls folded from them, and voter counts |
| `Reactions`, `ReactionLists` | reaction texts, the reaction list of a message and toggling |
| `Chars`, `Wrap` | printable text, wrapping and truncation in terminal cells |
| `Bubbles`, `Transcript`, `TranscriptFacts`, `BubbleParts`, `Viewport` | bubbles, the rows of a transcript, who owns them, what they show, and the window onto them |
| `Escape` | HTML escaping and the pages of keepsakes |
| `Unread`, `UnreadRuns` | unread counters by read scope, on screen, in the vault and in its document |
| `Common` | options, outcomes of an atomic save, minimum and maximum |

A save has three outcomes. The file is written aside, renamed, and its directory synchronised;
the last step can fail after the rename. So a save that reports failure may leave the old or the
new document behind; undo-send, the inbox, the file queue and the unread counters are proved for both.

Methods of classes follow the program's own statements. Each equals a function of the old state,
and the run results are proved about those functions. Ghost `past` and `history` fields record
what happened (texts accepted, handoffs, identities retired) and are read by no program step.

What the proofs found, stated exactly in the rows below:

- A registration of a file with a control that is already finished loses an accepted cancel
  (`RegistryRuns.FinishedControlForgets`). The engine registers such a control after an explicit
  operation whose future was dropped, because the control stays in the engine's field. The next
  attempt then takes its file from the queue although nothing was sent and no cancel was asked for
  (`AttemptRuns.DroppedOperationLosesItsFile`). `AttemptRuns.HonestyIsExact` says which attempts
  are safe; in clients that await every operation all are.
- A delivery whose payload is refused is never acknowledged and stops every later one in each
  fetch and each replay (`Inbox.NothingPassesABadDelivery`,
  `InboxReplay.FetchStopsAtTheFirstBadDelivery`).
- A reaction counts sides, the own one and everybody else's, never people
  (`ReactionLists.LinesReadLastEvents`).
- The wheel cannot reach the beginning of a transcript taller than the sixteen-bit offset can
  count, which every conversation of some twenty-two thousand messages is; the balance of offset
  and position holds even there (`Viewport.WheelReachesTheFirstRow`, `Viewport.OffsetRunsOut`,
  `Viewport.TurnMoves`).
- A full unread counter forgets the next message (`UnreadRuns.FullCounterForgets`); below 65536
  messages it never happens (`UnreadRuns.SmallConversationsCount`).
- Fifteen cells is the narrowest lane in which message references always fit, nine the narrowest
  for quotations (`Bubbles.NarrowestLanes`).

## Model

| member | source | states |
|---|---|---|
| `Transfer.AttachmentCancellation.CompareExchange` | crates/mutte-client/src/transfer.rs:41-46 | one atomic word: it changes only from the expected value, and the answer says whether it did |
| `Transfer.AttachmentCancellation.Start` | crates/mutte-client/src/transfer.rs:33-39 | a control starts once; every later start is refused and changes nothing |
| `Transfer.AttachmentCancellation.Cancel` | crates/mutte-client/src/transfer.rs:40-51 | an open control turns cancelled and signals, a settled one does neither; the answer is true exactly when the control is cancelled afterwards |
| `Transfer.AttachmentCancellation.BeginCommit` | crates/mutte-client/src/transfer.rs:60-65 | committing succeeds exactly on an open control, which is then committed; a cancelled one refuses |
| `Transfer.AttachmentCancellation.Finish` | crates/mutte-client/src/transfer.rs:55-59 | finishing closes an open control and leaves a settled one as it is |
| `Transfer.ActiveAttachmentTransfers.Cancel` | crates/mutte-client/src/transfer.rs:182-189 | the registry reaches the control of exactly that file and direction; unknown files answer false; no other control changes |
| `Transfer.ActiveAttachmentTransfers.PreparePending` | crates/mutte-client/src/transfer.rs:190-208 | a refresh drops inactive files the journal no longer lists, keeps every other entry with its control, and gives each newly listed file a control of its own |
| `Transfer.ActiveAttachmentTransfers.CancelledKeys` | crates/mutte-client/src/transfer.rs:209-221 | the cancelled queue is the set of inactive entries with a cancelled control |
| `Transfer.ActiveAttachmentTransfers.RegisterTransfer` | crates/mutte-client/src/transfer.rs:222-264 | registration is refused while any transfer is active; otherwise it hands a recorded cancel over to the new control and replaces the entry |
| `Transfer.ActiveAttachmentTransfers.ReportProgress` | crates/mutte-client/src/transfer.rs:143-180 | a report is accepted exactly for the active entry of that control, within its total, not below the last report and with an unchanged total; a refused one changes nothing |
| `Transfer.ActiveAttachmentTransfers.EndLease` | crates/mutte-client/src/transfer.rs:266-285 | a lease drop finishes its control; the entry stays, inactive, if the control is cancelled, goes if not, and a stale lease touches no entry |
| `RegistryRuns.SettledWordIsFinal` | crates/mutte-client/src/transfer.rs:40-65 | over any run a settled control keeps its word, so the two reads inside a cancel cannot disagree |
| `RegistryRuns.AcceptedCancelIsIntent` | crates/mutte-client/src/transfer.rs:182-189 | a cancel answers true if and only if the file then has a cancelled control on record |
| `RegistryRuns.StepKeepsIntent` | crates/mutte-client/src/transfer.rs:190-285 | an operation loses a recorded cancel if and only if it is a refresh whose journal no longer lists the inactive file, or a registration of that file with an already finished control |
| `RegistryRuns.FinishedControlForgets` | crates/mutte-client/src/transfer.rs:237-258 | registering a file with a finished control while its cancel is on record loses that cancel |
| `RegistryRuns.CancelSurvives` | crates/mutte-client/src/transfer.rs:107-109 | after a cancel answered true, every run of refreshes, registrations, lease drops, reports and further cancels without one of those two operations still has the cancel on record |
| `RegistryRuns.AtMostOneActive` | crates/mutte-client/src/transfer.rs:233-236 | at most one entry is active after every run |
| `RegistryRuns.ReportsStayBounded` | crates/mutte-client/src/transfer.rs:155-169 | only active entries carry progress, and completed bytes never exceed the total |
| `RegistryRuns.ProgressIsMonotone` | crates/mutte-client/src/transfer.rs:164-169 | until a file is registered again its observed progress stays with one control, never goes back, never passes its total, and keeps a total once reported |
| `Attempt.StepKeepsInv` | crates/mutte-client/src/engine.rs:1557-1585 | every step of a transfer attempt, and every frontend operation between two steps, keeps the agreement between control, registry and durable journal |
| `Attempt.UndisturbedAttemptCommits` | crates/mutte-client/src/engine.rs:1557-1729 | an attempt nobody disturbs, started without a recorded cancel and without another transfer, sends its file: it ends committed, with the file out of the queue and out of the registry |
| `Attempt.CommitIsExact` | crates/mutte-client/src/engine.rs:1709-1729 | at every point of the work that any interleaving reaches, the attempt can be carried through to its end; its file is then sent exactly when no cancel was accepted before the commit and the local commit works, and removed from the queue exactly when one was |
| `Attempt.CommittedByLocalCommit` | crates/mutte-client/src/engine.rs:1709-1729 | in every run an attempt has committed exactly when its local commit worked |
| `Attempt.CancelMeansNoCommit` | crates/mutte-client/src/engine.rs:1557-1729 | in every interleaving, a cancel answered true for an attempt means it never commits; once it is over the cancel is on record for the queue clean-up, and the file has left the queue unless the operation was dropped or its storage failed |
| `Attempt.CommittedRefusesCancel` | crates/mutte-client/src/engine.rs:1701-1729 | an attempt that committed answers false to every later cancel, by file or by control |
| `Attempt.FileLeavesByCommitOrCancel` | crates/mutte-client/src/engine.rs:1557-1585 | in every interleaving of an attempt with a control of its own, the journal loses exactly its file, and exactly when it was committed or cleaned up after an accepted cancel |
| `Attempt.QueuedCancelStopsLaterAttempt` | crates/mutte-client/src/transfer.rs:238-243 | a cancel accepted while the file was only queued stops the attempt that starts later with a control of its own |
| `AttemptRuns.StepKeepsInv` | crates/mutte-client/src/engine.rs:610-631 | over any number of attempts, every step of the engine, of explicit operations and of frontends keeps the agreement between field, registry and journal while attempts start with a new or open control, or at a file that was cancelled |
| `AttemptRuns.FilesLeaveByCommitOrCancel` | crates/mutte-client/src/engine.rs:1557-1585 | over every run of such attempts, a queued file stays queued until it is committed or a cancel of it took effect |
| `AttemptRuns.HonestyIsExact` | crates/mutte-client/src/engine.rs:1562-1568 | from every reachable state an attempt may start at a queued file without any risk of losing it if and only if the control in the field is absent or open, or a cancel of that file took effect before; whatever the control was settled for |
| `AttemptRuns.UndroppedFilesLeaveByCommitOrCancel` | crates/mutte-client/src/engine.rs:626-630 | in every run whose operations are awaited to their end, all attempts start that way, so files leave the queue only by a commit or by a cancel of them |
| `AttemptRuns.DroppedOperationLosesItsFile` | crates/mutte-client/src/engine.rs:626-630 | an operation whose future is dropped leaves its spent control in the field, and the next attempt takes the file from the queue though nothing was sent and no cancel was asked for |
| `FileQueue.RequestIsSound` | crates/mutte-store/src/lib.rs:1386-1430 | a download is asked for only when no other message of the vault, asked for or not, carries a file the prefix selects |
| `FileQueue.RunIsSound` | crates/mutte-store/src/lib.rs:1386-1510 | over every run of arrivals, imports, requests, cancels, uploads and downloads, with failing saves and restarts, at most one message asks for each file and no upload is queued twice, in memory and on disk |
| `FileQueue.EditRequeues` | crates/mutte-store/src/lib.rs:1386-1510 | every edit of the vault changes the queue by exactly the file it names: queueing an upload and asking for a download add it, finishing and cancelling remove it, all others leave it |
| `QueueCleanup.Engine.CancelLocally` | crates/mutte-client/src/engine.rs:1474-1507 | local clean-up of one file takes exactly that file from the vault, or reports that it is not queued or that the storage failed before or after the durable edit; it is never ambiguous |
| `QueueCleanup.Engine.FinishQueuedCancellations` | crates/mutte-client/src/engine.rs:1509-1528 | exactly the cancelled queued files are removed and nothing else in the vault changes, never with a missing or ambiguous file; it succeeds if and only if every edit works, and after a failure the rest stays cancelled in the registry |
| `UploadProgress.ChunksTileTheFile` | crates/mutte-client/src/engine.rs:3638-3642 | the first n chunks hold the first n times 262144 bytes of the file, capped at its size, whichever of them the relay already had |
| `UploadProgress.CountersAdvance` | crates/mutte-client/src/engine.rs:1637-1690 | the running byte count grows by exactly the chunk just sent, never passes the total, and equals it at the end with all chunks counted |
| `UploadProgress.SumUploaded` | crates/mutte-client/src/engine.rs:1625-1642 | the bytes already at the relay are the sum of its chunks, in whatever order the set is walked |
| `UploadProgress.UploadChunks` | crates/mutte-client/src/engine.rs:1625-1708 | every report of an attempt that owns the active entry is accepted; observers see a sequence that never decreases and never exceeds the total; on success it ends at the total with all chunks finished; a status with a chunk out of range is refused |
| `Attempt.ReportsLandDespiteCancels` | crates/mutte-client/src/transfer.rs:143-180 | reports that only go forward within one total are all taken, the last one standing, with any cancels by frontends between them |
| `UploadProgress.DownloadChunks` | crates/mutte-client/src/engine.rs:1790-1882 | the same for a download resumed at any chunk, whose whole chunks are cut off at the size of the file and announced one by one; a file already on disk is reported whole at once |
| `Holds.RecoverEach` | crates/mutte-client/src/personal.rs:80-88 | the loop computes the recovery that the next row describes |
| `Holds.RecoverySettles` | crates/mutte-client/src/personal.rs:80-88 | after recovery nothing is timed or being sent, the same texts are there under the same ids, other phases stay, recovering again changes nothing, and nothing at all changes exactly when nothing was timed or being sent |
| `HoldRuns.HoldKeepsInv` | apps/mutte/src/personal_ui.rs:138-167 | holding a draft, with any outcome of the save, keeps the invariant of memory, disk, timers and drafts |
| `HoldRuns.HeldIsTheComposers` | apps/mutte/src/personal_ui.rs:138-167 | a saved hold has the text, reply and thread of the composer and scope, waits for the seconds of the document, and replaces only the text it was restored from; a failed one leaves composer and memory |
| `HoldRuns.RestoredIsInTheComposer` | apps/mutte/src/personal_ui.rs:255-293 | a text is restored exactly when its conversation is known, its scope shows none and the save works; then it is in the composer of that scope, and its row is a draft |
| `HoldRuns.DiscardedIsGone` | apps/mutte/src/personal_ui.rs:1417-1423 | a saved discard leaves exactly the other texts, in memory and on disk |
| `HoldRuns.MarkKeepsInv` | apps/mutte/src/personal_ui.rs:205-218 | so does marking a due hold, including a failed marker that suspends every timer |
| `HoldRuns.SettleKeepsInv` | apps/mutte/src/personal_ui.rs:219-254 | so does the end of a send, failed or not, with any outcome of its save |
| `HoldRuns.RestartKeepsInv` | crates/mutte-client/src/personal.rs:79-88 | so does a crash at any moment and a restart from disk, after which no timer runs |
| `HoldRuns.RunKeepsInv` | apps/mutte/src/personal_ui.rs:138-293 | and so does every run of typing, holding, ticking, undo, focus changes, failed saves, failed sends, crashes and restarts |
| `HoldRuns.HandedAtMostOnce` | apps/mutte/src/personal_ui.rs:187-254 | over every run each hold reaches the transport at most once, at or after its deadline, while focused, and with its Submitting marker on disk |
| `HoldRuns.HandedIsAccepted` | apps/mutte/src/personal_ui.rs:205-235 | over every run each text that reached the transport is exactly the one accepted under its id: conversation, words, reply and thread |
| `HoldRuns.AcceptedTextIsRecoverable` | apps/mutte/src/personal_ui.rs:138-254 | over every run each accepted text is on disk with its exact conversation, reply and thread, also after a restart, until it was sent, replaced by a resend or discarded |
| `HoldRuns.InterruptedSendIsUncertain` | crates/mutte-client/src/personal.rs:79-88 | a crash between the marker and the end of a send leaves the text on disk for review |
| `HoldRuns.SettledHold` | apps/mutte/src/personal_ui.rs:219-254 | a failed send keeps its text as Uncertain; a successful one leaves memory and disk together, and no other hold is touched |
| `HoldRuns.ReplacementLosesNothing` | apps/mutte/src/personal_ui.rs:138-167 | when a restored text is held again, the document on disk has the accepted copy or the new text whatever the save reports, and after a reported failure memory still has the copy and the composer the new text |
| `HoldRuns.NeverReholds` | crates/mutte-client/src/personal.rs:79-88 | a hold whose timer has stopped never starts it again |
| `HoldRuns.SwitchKeepsDrafts` | apps/mutte/src/app.rs:1165-1181 | switching scopes changes the draft of no scope: composer and table together are one map from scope to draft |
| `HoldRuns.RestoreOverwritesNothing` | apps/mutte/src/personal_ui.rs:255-293 | restoring a hold writes the draft of its own scope only, and only where there was no text |
| `HoldApp.Terminal.CommitPersonal` | apps/mutte/src/personal_ui.rs:121-125 | memory follows the document exactly when the save reports success; an invalid document never reaches the disk |
| `HoldApp.Terminal.HoldTheDraft` | apps/mutte/src/personal_ui.rs:138-167 | one save replaces the restored hold and adds the new one; the composer is cleared only on success |
| `HoldApp.Terminal.SuspendHolds` | apps/mutte/src/personal_ui.rs:168-186 | timers stop in memory even when the save fails |
| `HoldApp.Terminal.AdvanceHolds` | apps/mutte/src/personal_ui.rs:187-204 | from every reachable state a tick submits exactly the due holds of a focused terminal, in order, and suspends all timers of an unfocused one |
| `HoldApp.Terminal.SubmitHold` | apps/mutte/src/personal_ui.rs:205-254 | a submission is marker, handoff and settlement in this order, each with its own save; from every reachable state it comes to what the rows on submissions say |
| `HoldApp.Terminal.SyncScope` | apps/mutte/src/app.rs:1165-1181 | the composer of the old scope is put away and that of the new scope brought back |
| `HoldApp.Terminal.RestoreHold` | apps/mutte/src/personal_ui.rs:255-293 | a hold is restored exactly when its conversation is known and its scope has no text |
| `HoldApp.Terminal.Undo` | apps/mutte/src/personal_ui.rs:1405-1415 | undo restores the latest hold whose timer runs |
| `HoldApp.Terminal.DiscardHold` | apps/mutte/src/personal_ui.rs:1417-1423 | discarding removes that hold and no other |
| `HoldApp.Terminal.FocusChanged` | apps/mutte/src/app.rs:1424-1440 | losing focus suspends every timer |
| `HoldSubmit.SubmitIsARun` | apps/mutte/src/personal_ui.rs:205-254 | what a submission does is a run of the step machine, so every safety result holds of it |
| `HoldSubmit.TickIsARun` | apps/mutte/src/personal_ui.rs:187-204 | so is a whole tick from every reachable state |
| `HoldSubmit.SubmitComesTo` | apps/mutte/src/personal_ui.rs:205-254 | a waiting text whose marker is saved is handed over exactly once; when the send fails it stays for review with its content in memory and on disk; when it works and is saved it is gone from both; without the marker nothing is handed over and every timer stops |
| `HoldSubmit.TickOfDueRows` | apps/mutte/src/personal_ui.rs:187-254 | a tick hands over the due texts in order, each once, up to the first marker that is not saved; each comes to what its own answer says, and the later ones are kept |
| `SignOut.StepKeepsInv` | apps/mutte/src/session_control.rs:56-97 | every durable write of sign-out, a launch, a rotation, a sign-in and a crash between any two writes keep the invariant |
| `SignOut.PastFinishIsSignedOut` | apps/mutte/src/session_control.rs:56-97 | over every run, a launch that gets past sign-out has no session of a signed-out device in the scoped or the legacy vault, no intent file and another identity |
| `SignOut.RetiredAtMostOnce` | apps/mutte/src/session_control.rs:72-97 | however often sign-out is interrupted, each identity is retired at most once |
| `SignOut.RequestIsCarriedOut` | apps/mutte/src/session_control.rs:23-97 | a user who asked to sign out is signed out at every later point past sign-out, however often the process was killed in between |
| `SignOut.IdentityChangesOnly` | apps/mutte/src/main.rs:112-130 | the identity on disk changes only where a sign-out or a rotation retires it, or where there is none: then the released one is copied or a new one is made |
| `SignOut.LaunchEnds` | apps/mutte/src/main.rs:112-141 | after any run, a launch that is not killed and meets no unknown intent gets past sign-out, holding the device it had unless that one was being signed out |
| `SignOut.SignedInStays` | apps/mutte/src/main.rs:120-141 | a saved session and its device stay together over every run of launches, crashes, sign-ins and quits without a request to sign out and without a rotation |
| `SignOut.SignInSaves` | apps/mutte/src/main.rs:185-215 | signing in saves the session with the device of the identity file; a first vault continues the conversations of the released terminal exactly when they were bound to the same session |
| `SignOut.SignedOutForever` | apps/mutte/src/main.rs:112-141 | no later run brings a signed-out device back; the released identity cannot, because the legacy session it must match is already cleared |
| `SignOut.ConversationsUntouched` | apps/mutte/src/session_control.rs:72-97 | no run changes a stored conversation |
| `SignOut.UnknownIntentStaysClosed` | apps/mutte/src/session_control.rs:43-55 | an intent of an unknown version keeps every launch before sign-in |
| `SignOut.Installation.CopyReleasedIdentityIfBound` | apps/mutte/src/main.rs:769-789 | the released identity is copied if and only if there is no identity yet and the legacy session names the same device; otherwise nothing changes |
| `SignOut.Installation.Finish` | apps/mutte/src/session_control.rs:56-97 | killed before any of its writes, what it did is a run of the step machine; it ends with no intent, or stops untouched at an unknown version or a foreign vault |
| `Inbox.StepKeepsInv` | crates/mutte-client/src/engine.rs:2666-2790 | every step of delivery, from decryption to journal completion, and every failure or crash between two steps keeps journal, ratchet, vault and acknowledgements in step; a delivery whose ratchet key is used up stays readable in the journal, in memory and on disk, until the relay has its acknowledgement |
| `Inbox.AcknowledgedIsDurable` | crates/mutte-client/src/engine.rs:2687-2704 | the relay is told only about deliveries whose message is on disk in the vault, and in order |
| `Inbox.AcknowledgedTextIsOnDisk` | crates/mutte-store/src/lib.rs:1872-1918 | what the relay was told is stored is on disk with its own text, if it was the first delivery of its id; everything on disk was there before or came in an accepted delivery |
| `Inbox.AnnouncedAtMostOnce` | crates/mutte-client/src/engine.rs:3119-3144 | no message is announced twice across retries, crashes and replays |
| `Inbox.ArrivalsAreAnnounced` | crates/mutte-client/src/engine.rs:3119-3144 | between two crashes, exactly the messages that enter the vault of the running client are announced, in order |
| `Inbox.VaultIsAPrefix` | crates/mutte-client/src/engine.rs:2666-2704 | after any run the vault is that of a crash-free client after some prefix of the deliveries, with each id once; when all are acknowledged it is exactly the crash-free vault, in memory and on disk |
| `Inbox.SpentIsJournaled` | crates/mutte-core/src/device.rs:756-801 | over every run, a decrypted delivery that the relay still holds is in the journal with its text, in memory, and on disk beside the ratchet that forgot its key; decrypting it again is then answered by the journal |
| `InboxReplay.ReplayReachesTheSameVault` | crates/mutte-client/src/engine.rs:2758-2790 | after any run and any crash, a replay of accepted deliveries that meets no failure empties the journal in memory and on disk; all it held is acknowledged and stored on disk, nothing ever decrypted is still owed unless decryption rejected it, and the vault is the crash-free vault of a prefix that holds them all |
| `Inbox.NothingPassesABadDelivery` | crates/mutte-client/src/engine.rs:2594-2596 | over every run, the relay never gets an acknowledgement of a delivery that is refused or rejected, nor of any later one |
| `InboxReplay.FetchStopsAtTheFirstBadDelivery` | crates/mutte-client/src/engine.rs:2594-2596 | after any run, a fetch of everything that meets no failure acknowledges exactly the deliveries before the first refused or rejected one and leaves their crash-free vault in memory and on disk; without a bad one nothing is lost, whatever happened before |
| `Inbox.ProcessOneIsARun` | crates/mutte-client/src/engine.rs:2687-2704 | processing one delivery is a run of the step machine |
| `Inbox.Client.StoreInbound` | crates/mutte-store/src/lib.rs:1872-1918 | the insertion is idempotent by message id and undone in memory when it cannot be saved |
| `Inbox.Client.ProcessMailboxMessage` | crates/mutte-client/src/engine.rs:2687-2704 | journal, insertion, announcement, acknowledgement and completion in this order, giving up at the first failure |
| `Messages.SortSpec` | crates/mutte-client/src/polls.rs:140-141 | the events are read in order of time and id, each exactly once |
| `Messages.SortIgnoresOrder` | crates/mutte-client/src/polls.rs:140-141 | with distinct ids the reading order does not depend on the listing |
| `Polls.Fold` | crates/mutte-client/src/polls.rs:125-173 | the loop over the sorted events computes the fold that the following rows describe |
| `Polls.FoldReads` | crates/mutte-client/src/polls.rs:123-173 | a poll is closed if and only if an in-scope, uncancelled close by its creator exists; each voter has the last valid in-scope vote before the first such close, and none when that vote is empty; the question is the root's |
| `Polls.FoldShows` | crates/mutte-client/src/polls.rs:123-173 | in the fields of the messages: a poll is shown exactly for a valid creation that is no file and not cancelled; it is closed exactly when a valid close of its author answers it; each author has the choice of the last valid vote before that, unless it was withdrawn |
| `Polls.VotesAreApart` | crates/mutte-client/src/polls.rs:174-180 | the votes of two people with different handles stand side by side, and those of this user beside them |
| `Polls.ReadsIsUnique` | crates/mutte-client/src/polls.rs:123-173 | that description leaves no other state |
| `Polls.FoldIgnoresListing` | crates/mutte-client/src/polls.rs:140-141 | the fold does not depend on the order of the messages |
| `Polls.InertEventChangesNothing` | crates/mutte-client/src/polls.rs:143-164 | an invalid, foreign-scope, disallowed or too late event changes nothing, wherever it is listed |
| `PollCounts.ApplyAllKeepsVotesGood` | crates/mutte-client/src/polls.rs:29-78 | whatever the events are, every choice kept is non-empty, without repetition, in range, and single where the poll allows one answer |
| `PollCounts.Voters` | crates/mutte-client/src/polls.rs:181-193 | the names under an option are those of exactly its voters, each once, whatever order the table is walked in |
| `PollCounts.VotersChoseIt` | crates/mutte-client/src/polls.rs:181-193 | those voters are exactly the authors whose last vote in time includes the option, this user as "You" |
| `PollCounts.FoldedCountsConserveVotes` | crates/mutte-client/src/polls.rs:181-193 | the voter counts of all options add up to the number of choices made, and to the number of voters where the poll allows one answer |
| `PollCounts.PollEventsAnswerSomePoll` | crates/mutte-client/src/polls.rs:221-228 | a message is hidden as a poll event if and only if it is a vote or close answering a poll of its own thread, whatever other events that poll has |
| `Reactions.ParseInvertsCompose` | crates/mutte-client/src/engine.rs:3530-3547 | a message is read as a reaction if and only if it replies with exactly the text written for that emoji and mark, and the emoji is valid |
| `Reactions.StateForReads` | crates/mutte-client/src/engine.rs:3581-3600 | for the own side and for the others, each emoji has what its last event says, however the messages are listed; which messages are such events is said by `ReactionLists.ActiveStands` |
| `Reactions.RankedMeans` | crates/mutte-client/src/engine.rs:3610-3625 | in a ranked list the six preferred emoji come first in their own order, all others after them in the order of their text |
| `Reactions.LaterEventOverwrites` | crates/mutte-client/src/engine.rs:3598-3600 | an event later than all of its key sets that key and no other |
| `ReactionLists.ReactionsFor` | crates/mutte-client/src/engine.rs:3581-3624 | whatever order the two hash tables are walked in, the list has one line for each emoji with an active side, counting sides, ranked by preference and then by text |
| `ReactionLists.ActiveStands` | crates/mutte-client/src/engine.rs:3581-3602 | in the fields of the messages: a reaction of a side is active exactly when the last valid reply of that side about the emoji added it, own cancelled ones left out |
| `ReactionLists.ListingStands` | crates/mutte-client/src/engine.rs:3600-3609 | so a list is right exactly when it has one ranked line for each emoji that stands on some side, with the own flag and the number of sides |
| `ReactionLists.ListingIgnoresOrder` | crates/mutte-client/src/engine.rs:3581-3624 | the list depends neither on the order of the messages nor on the order of the tables |
| `ReactionLists.LinesReadLastEvents` | crates/mutte-client/src/engine.rs:3601-3608 | a line is marked as own if and only if the last uncancelled own event for its emoji adds it; a count is one or two, so the eight-bit counter never saturates |
| `ReactionLists.ToggleReaction` | crates/mutte-client/src/engine.rs:1386-1413 | a toggle is refused exactly for an invalid emoji or a target that is no ordinary message here; otherwise it replies with the opposite of the own reaction, in the target's thread |
| `ReactionLists.ToggleFlipsOwnReaction` | crates/mutte-client/src/engine.rs:1386-1413 | a toggle ordered after the earlier own events turns over the own flag of that emoji, moves its count by one, opens its line at one or drops it from one, and leaves every other line |
| `ReactionLists.TogglesCancelOut` | crates/mutte-client/src/engine.rs:1386-1413 | two toggles restore the list |
| `Chars.PrintableIsClean` | apps/mutte/src/conversation_layout.rs:752-762 | no control character but the line feed survives cleaning, and cleaning changes nothing exactly on clean text |
| `Chars.PrintableConcat` | apps/mutte/src/conversation_layout.rs:752-762 | a text is cleaned piece by piece, unless a break of two characters is torn apart |
| `Chars.PrintableUnits` | apps/mutte/src/conversation_layout.rs:752-762 | that break becomes a line feed, a tab four spaces, any other control character the replacement character, and everything else stays |
| `Wrap.WrapCells` | apps/mutte/src/conversation_layout.rs:774-821 | the nested loops compute the wrapping that the following rows describe |
| `Wrap.WrapIsTheOnlyWrapping` | apps/mutte/src/conversation_layout.rs:774-821 | a line ends with the paragraph when the rest fits, else just after the last break that fits, else before the grapheme that would overflow; these rules leave one wrapping and the program computes it |
| `Wrap.WrapTextIsTheOnlyText` | apps/mutte/src/conversation_layout.rs:774-819 | the lines of a text are one group for each paragraph, in order, an empty line for an empty one and else its only wrapping; nothing else satisfies this |
| `Wrap.TextIsKept` | apps/mutte/src/conversation_layout.rs:774-819 | put together the lines are all paragraphs in order, with one replacement for each grapheme wider than a line |
| `Wrap.WrapTextFits` | apps/mutte/src/conversation_layout.rs:774-821 | no line is wider than the width asked for, at least one cell |
| `Wrap.ParagraphIsKept` | apps/mutte/src/conversation_layout.rs:803-810 | the lines of a paragraph put together are the paragraph, with one replacement for each grapheme wider than a line; they give it back if and only if every grapheme fits |
| `Wrap.TruncateCells` | apps/mutte/src/conversation_layout.rs:859-880 | the loop computes the truncation that the next row describes |
| `Wrap.TruncationFits` | apps/mutte/src/conversation_layout.rs:859-880 | a truncated text is the text itself when it fits, else its longest prefix that leaves a cell for the ellipsis, and it always fits |
| `Wrap.TruncationIsUnique` | apps/mutte/src/conversation_layout.rs:859-880 | that rule leaves no other result |
| `Bubbles.FrameStaysInLane` | apps/mutte/src/conversation_layout.rs:218-227 | for every lane a bubble stays inside it, on the right for own messages, and its content is what its insets leave |
| `BubbleParts.BubbleFitsItsMessage` | apps/mutte/src/conversation_layout.rs:196-227 | a bubble below its largest width leaves every paragraph of its text and byline on a line of its own, and one above its smallest width is no wider than something in it needs |
| `Bubbles.NarrowestLanes` | apps/mutte/src/conversation_layout.rs:218-222 | every bubble has nine cells for a reference if and only if the lane has fifteen, and three for a quotation if and only if it has nine |
| `Bubbles.LayReactions` | apps/mutte/src/conversation_layout.rs:823-857 | the loop computes the lines that the next two rows describe |
| `Bubbles.ReactionsFit` | apps/mutte/src/conversation_layout.rs:823-857 | no line of reactions is wider than its content |
| `Bubbles.ReactionsAreKept` | apps/mutte/src/conversation_layout.rs:823-857 | every reaction is shown once and in order, whole unless it alone is wider than a line |
| `Bubbles.BubbleFits` | apps/mutte/src/conversation_layout.rs:229-404 | every line of a bubble, with quote, file, reactions, reply count and caption, fits between its insets, in every lane (with references shown from fifteen cells, with a quotation from nine, so always from sixteen) |
| `BubbleParts.LinesShowTheMessage` | apps/mutte/src/conversation_layout.rs:229-404 | the lines of a bubble are byline, reference, quotation, text, file, reactions, reply count from top to bottom, each the whole of its text, with the caption at the end |
| `BubbleParts.TranscriptShowsMessage` | apps/mutte/src/conversation_layout.rs:139-409 | in every transcript the rows of a message show it in its frame, with a byline exactly where a group opens with a message of somebody else, or of anybody when ownership is spelled out |
| `BubbleParts.EmptyTranscript` | apps/mutte/src/conversation_layout.rs:420-433 | an empty conversation says so and then shows the whole hint |
| `Transcript.Transcript.PushCaption` | apps/mutte/src/conversation_layout.rs:368-404 | the caption shares the last line when two more cells are free, has its own when it fits alone, and is wrapped otherwise |
| `Transcript.Transcript.PushBubble` | apps/mutte/src/conversation_layout.rs:228-409 | the rows of a message are its edges around its lines, marked at the first line and outlined when asked for |
| `Transcript.Transcript.constructor` | apps/mutte/src/conversation_layout.rs:71-433 | the nested loops over groups and messages compute the layout that the following rows describe |
| `TranscriptFacts.TranscriptIsBubbled` | apps/mutte/src/conversation_layout.rs:71-433 | messages have ranges in order and without overlap, each a bubble bounded by its edges, with every row inside the lane and every line inside its insets, for lanes as wide as the row above asks |
| `TranscriptFacts.OwnsExactly` | apps/mutte/src/conversation_layout.rs:410-419 | a row is owned by a message if and only if it lies in the range of that message |
| `TranscriptFacts.GroupStartsAtHead` | apps/mutte/src/conversation_layout.rs:139-152 | each message remembers the first row of its sender group |
| `TranscriptFacts.RowsBetween` | apps/mutte/src/conversation_layout.rs:119-145 | between two bubbles stand an empty row where a group opens, the day where a new date begins, and the marker before the first unread message, in this order; inside a group nothing stands |
| `TranscriptFacts.GroupIsOfOne` | apps/mutte/src/conversation_layout.rs:688-702 | a message shown without a byline stands in a group whose first message has the same author, side, date and thread |
| `TranscriptFacts.AppendingExtends` | apps/mutte/src/conversation_layout.rs:71-433 | one more message only adds rows after those of the transcript before, as long as the earlier messages show what they showed (a first reply gives the root of its thread a label of its own) |
| `Viewport.TranscriptViewport.Offset` | apps/mutte/src/conversation_layout.rs:629-637 | the offset of a wheel step, clamped to what there is to see |
| `Viewport.TranscriptViewport.Place` | apps/mutte/src/conversation_layout.rs:639-685 | the new position and its anchor, from the old anchor, selection and offset |
| `Viewport.PositionLands` | apps/mutte/src/conversation_layout.rs:639-685 | whatever the view was, it ends inside the transcript; a selected message is wholly in view, or starts at the top when it is taller; unselected and not scrolled back, the view is at the tail |
| `Viewport.PositionMovesLeast` | apps/mutte/src/conversation_layout.rs:662-672 | a view moves no further than it must to bring the selected message into view |
| `Viewport.PositionIsIdempotent` | apps/mutte/src/conversation_layout.rs:639-685 | positioning again changes nothing |
| `Viewport.AppendingKeepsTop` | apps/mutte/src/conversation_layout.rs:639-685 | rows added below leave the top where it is, for a kept selection and for an unchanged offset other than zero |
| `Viewport.NewMessageKeepsView` | apps/mutte/src/conversation_layout.rs:639-685 | so does a new message that leaves what earlier messages show unchanged, for every transcript the layout produces |
| `Viewport.ViewFollowsItsMessage` | apps/mutte/src/conversation_layout.rs:649-656 | when earlier rows do change, such as a root that gains its reply label, the view stays at the same row of the message it is anchored to, moving by exactly the rows that came or went above |
| `Viewport.TurnMoves` | apps/mutte/src/conversation_layout.rs:629-637 | a turn of the wheel keeps top plus offset equal to the largest top, and moves the offset by exactly the rows there are |
| `Viewport.UpwardTurnIsExact` | apps/mutte/src/conversation_layout.rs:631-632 | an upward turn moves by the rows asked for or left if and only if the sixteen-bit offset can count them, always so when the largest top can be counted |
| `Viewport.WheelReachesTheFirstRow` | apps/mutte/src/conversation_layout.rs:631-632 | from the tail some run of turns shows the first row if and only if the sixteen-bit offset can count the largest top |
| `Viewport.OffsetRunsOut` | apps/mutte/src/conversation_layout.rs:631-632 | in every transcript of more than about twenty-two thousand messages (three rows each at the least) no run of turns from the tail shows the first row; upward turns of three rows bring the offset to three times their number, at most 65535, with rows left above |
| `Viewport.RunsStayBalanced` | apps/mutte/src/app.rs:1544-1563 | from the tail every run of turns keeps that balance, so overscrolling never accumulates |
| `Viewport.DownwardTurnsReturn` | apps/mutte/src/app.rs:1544-1563 | downward turns bring the offset back row for row, to zero and to the tail |
| `Escape.EscapeIsPerCharacter` | crates/mutte-client/src/personal.rs:91-97 | five passes over the whole text are one substitution per character |
| `Escape.EscapedIsHarmless` | crates/mutte-client/src/personal.rs:91-97 | no raw angle bracket or quotation mark survives |
| `Escape.DecodeInvertsEscape` | crates/mutte-client/src/personal.rs:91-97 | reading character references gives the text back |
| `Escape.Html` | crates/mutte-client/src/personal.rs:99-127 | the page built by pushing item after item is the page that the next rows describe |
| `Escape.PageShowsEverything` | crates/mutte-client/src/personal.rs:99-127 | the page shows title, introduction and then every item in order: photo, text, author, time and file name, each escaped |
| `Escape.PageMarks` | crates/mutte-client/src/personal.rs:99-127 | the angle brackets and quotation marks of a page are those of its fixed text, counted by the number of items and of photos alone |
| `Unread.Client.PresentChatMessage` | crates/mutte-client/src/engine.rs:3057-3145 | a message arrives in vault and chat together, read when its scope is being looked at or it is own, and counted otherwise; a known id or a failed save changes neither |
| `Unread.Client.VaultMarkRead` | crates/mutte-store/src/lib.rs:1924-1973 | reading a scope marks exactly its unread messages of others, names them and takes them off the counter |
| `Unread.Client.ReadCommand` | crates/mutte-client/src/engine.rs:725-742 | the read command turns a chat to a scope of its own and reads it |
| `Unread.Client.SetSelectedVisible` | crates/mutte-client/src/engine.rs:940-955 | a scope becomes the visible one only after its reading was saved |
| `UnreadRuns.StepKeepsAgreement` | crates/mutte-client/src/engine.rs:3057-3145 | every step, with every outcome of its saves, keeps chat and vault with the same messages, each once, and the same counter |
| `UnreadRuns.StepKeepsExact` | crates/mutte-client/src/engine.rs:3057-3145 | a step keeps every counter, in the vault and in its document, equal to the number of unread messages of others if and only if a further unread arrival finds room in the sixteen bits |
| `UnreadRuns.UnreadCountsMessages` | crates/mutte-client/src/engine.rs:3057-3145 | over every run in which unread arrivals find room, a chat counts exactly its messages of others that are not locally read, on screen, in the vault and in its document, through saves that fail before or after the rename and through restarts |
| `UnreadRuns.SmallConversationsCount` | crates/mutte-client/src/engine.rs:3057-3145 | so it does in every run whose conversations stay below 65536 messages |
| `UnreadRuns.FullCounterForgets` | crates/mutte-store/src/lib.rs:1914-1916 | a chat of 65535 unread messages does not count the next one |
| `UnreadRuns.ArrivesReadWhenSeen` | crates/mutte-client/src/engine.rs:3083-3090 | a message of others arrives read if and only if its scope is the visible one |
| `UnreadRuns.ArrivesAsSeen` | crates/mutte-client/src/engine.rs:3083-3110 | by conversation, thread and root: a new message is stored unread and counted exactly when it is of somebody else and not on screen as it comes |
| `UnreadRuns.ScreenFollows` | crates/mutte-client/src/engine.rs:940-955 | what is on screen after each step: the scope looked at once its reading is saved, the scope read if its conversation was shown, else what was |
| `UnreadRuns.TurnsReadWhenAsked` | crates/mutte-client/src/engine.rs:3355-3379 | by conversation, thread and root: an unread message turns read in the vault exactly when its main line, or the thread it is the root of or belongs to, was asked for and saved |
| `UnreadRuns.StepReadsScope` | crates/mutte-client/src/engine.rs:3355-3379 | a message in the vault stays, turns read exactly by a saved step that reads its own main or thread scope, and never turns unread before a restart |
| `UnreadRuns.StepReadsOnDisk` | crates/mutte-store/src/lib.rs:1924-1973 | the document keeps it as it was, or as the vault had it, read only if its scope was asked for |
| `UnreadRuns.ReadMeansLookedAt` | crates/mutte-client/src/engine.rs:3355-3379 | over every run with failed saves and restarts, a message unread before and read after was read by a step that asked for its own scope |

## Left out

- Mutex poisoning: the registry's lock is taken to succeed, and each locked section is one step.
- The asynchronous `run` of a control (crates/mutte-client/src/transfer.rs:66-79): an attempt may stop at any of its steps instead.
- Frontend cancels between two statements of the queue clean-up: the clean-up runs as one step between its two refreshes.
- UploadProgress.UploadChunks: runs without frontends between its statements; that cancels there do not disturb its reports is `Attempt.ReportsLandDespiteCancels`.
- HoldRuns.AcceptedTextIsRecoverable: a text that was discarded, or replaced by its restored version, stops being owed when the document without it is on disk, even if that save reported a failure; `HoldRuns.ReplacementLosesNothing` says what such a failed replacement keeps.
- MLS, the relay, email authorization and retries: a step may fail or lose its answer; what the answer holds is not modelled.
- Vault encryption and file formats: the vault is its decrypted content and an atomic save.
- Welcome, commit, device-sync and history-sync deliveries, and pending receipts: only chat deliveries are modelled.
- Migration of the old plain-text session file and of vaults at start-up: the installation starts with its vaults in place.
- Drafts sent at once, without undo: only held drafts are modelled, and the check that a draft is not blank comes before them.
- JSON text, Unicode segmentation, composition and case folding: a poll payload is a decoded record, a text is a sequence of graphemes with widths that add up.
- Creating and encoding polls and votes, and the text of a poll's summary.
- Choosing the visible messages of a chat, counting replies and composing labels and captions: a transcript starts from the visible messages with their texts.
- Colours, rendering, palettes, panels and key handling.
- PageUp and PageDown, which add to the offset without the clamp of the wheel (apps/mutte/src/app.rs:1786-1795).
- History transfer, which replaces a chat's messages without its unread counter.
- The fixed text of keepsake pages (style sheet, policy and tags): it is a parameter, required only to have captions without angle brackets or quotation marks.
- Undo timers count in whole units of one clock; the clock itself is a parameter.
- The text of id prefixes: a prefix is any set of ids, so every prefix rule is covered.
