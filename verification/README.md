# A verified model of the local bridge

The local bridge sits between a Godot editor plug-in, a project directory and a
remote gateway. This project models the parts of it that carry state or
protocols, in Dafny, and proves what they are for. `dafny verify dfyconfig.toml`
checks all of it.

- **The patch transaction** (`FileTree`, `PatchRequest`, `PatchTransaction`,
  `PatchRollback`, `PatchRun`, `PatchBridge`). Operations run over a file tree; each leaves
  an undo record; rollback replays the records backwards. Every operating-system
  call may fail, and the run may be cancelled between operations. The project is
  a map from paths (sequences of names) to files and directories; backups live
  in the same tree, below `.echothink/rollback`.
- **The change-set journal** (`JournalModel`, `Journal`). Entry objects in memory,
  written whole by an atomic replace. The history of the disk is kept as ghost
  state, so that a crash is any state of that history.
- **The proposal engine** (`Proposal`, `ProposalEngine`, `ProposalProofs`,
  `ProposalDisk`, `ProposalEffects`, `ProposalImages`). Preflight, then journaled operations. A run is
  the list of all states that files and change set go through; a crash leaves one of
  them, or stands between two of them with the journal half written.
- **Project settings** (`ProjectSettings`, `SettingsEdits`, `SettingsCounts`,
  `SettingsLines`). The line editor for sections and keys of `project.godot`, which the engine uses too.
- **The asset lock** (`LockText`, `LockYaml`, `LockFile`, `LockMeaning`,
  `LockLoading`, `LockRoundTrip`). The hand-written printer and the indentation-stack parser for `assets.lock`.
- **The snapshot diff** (`SnapshotDiff`, `SnapshotPatch`, `SnapshotChanges`). Classification by path
  and rename matching by signature.
- **WebSocket framing** (`WebSocketFrames`, `WebSocketBytes`, `GatewayClient`). RFC
  6455, sections 5.2 to 5.5: frames, fragments, and the event loop.
- **The JSON-RPC link** (`MessageExtractor`, `MessageHeaders`, `IpcSession`,
  `IpcSafety`, `IpcServer`). The editor's incremental extractor over any bytes, read as UTF-8,
  and the server's sessions as a state machine over all interleavings of readers,
  broadcasts and writers.
- **The test-case merge** (`CaseMerge`).

`Text`, `Utf8` and `Options` hold what several modules share. Code that works by changing
state is a class or a method with loops, proved against a function; what the code
is for is proved about that function, and what the function computes is also said
without it: bit by bit, line by line, path by path or field by field. Every induction is written out: all lemmas
carry `{:induction false}`.

These results differ from what one might expect of the code:

- A lock file with a line of 65536 bytes or more is written without complaint and
  cannot be loaded again, because the line scanner's buffer is that long
  (`LockRoundTrip.LongTagIsNotLoaded`). The round trip holds if and only if every
  line fits and no value leaves a `#` outside its quotes
  (`LockRoundTrip.SaveThenLoad`); a tag that does is lost
  (`LockRoundTrip.UnsafeTagIsLost`).
- A control frame between two fragments ends the message: reassembly is right if
  and only if there is none (`WebSocketFrames.FragmentsReassembled`,
  `WebSocketFrames.PingEndsMessage`). A length of 2 to the 63 or more makes the
  reader panic (`WebSocketFrames.PanicsExactly`).
- An operation of the patch transaction that keeps away from the rollback root is
  undone if and only if its target's directory was there and it did not delete a
  directory (`PatchRollback.UndoneExactlyWhenRecoverable`); a run without that condition
  can make its own rollback fail (`PatchRollback.MissingDirectoryBreaksRollback`).
- The old path of an operation is checked for renames only, but hashed for every
  kind: another kind of operation reads outside the project if and only if its old
  path leads there (`PatchRequest.AcceptedReadsInside`, `PatchRequest.NeighbourIsRead`).
- Two contents can share a rename signature if and only if one hash goes on behind
  the other with a bar (`SnapshotPatch.SignatureConfused`).
- Setting a key of `project.godot`, where section, key and value are on one line
  each, is done once and for all if and only if the key does not start with white
  space and its line does not look like a section (`SettingsEdits.SetTwice`); the
  path "a/ b" has such a key (`SettingsEdits.SpacedKeyFromPath`). Otherwise the line
  is not found again and every set adds one more. So does every set of a value with
  several lines that are not blank (`SettingsEdits.LinesLeftBehind`).
- The client looks for the end of a line in the decoded text and cuts the buffer at
  that index in bytes. So a message on a line of its own, which is how the server
  sends JSON, is received as it was sent if and only if it has at most one byte more
  than it has characters; otherwise what is left of it gives another message or stays
  in the buffer (`MessageExtractor.LineReceived`, `MessageExtractor.LineLeavesMore`).
- Test cases are merged by suite and name with two colons between them, so cases of
  two suites can be taken for one if and only if one suite is the other with a colon
  behind it, or goes on behind the other with two (`CaseMerge.SuitesConfused`).
- A Content-Length header without a usable length empties the client's buffer, so
  extraction is independent of chunking if and only if none has come up
  (`MessageExtractor.ChunkIndependence`, `MessageExtractor.UnusableHeaderDrops`).

## Model

| member | source | states |
|---|---|---|
| PatchRequest.ValidatePatchRequest | local-bridge/adapters/ipc_handlers.go:762-797 | a request is accepted exactly when it has operations and none is at fault; otherwise the first fault is reported, with its index |
| PatchRequest.AcceptedExactly | local-bridge/adapters/ipc_handlers.go:762-797 | an operation is accepted exactly when it has a type and its path, and for a rename its source, is relative and leads to the project or below; and which error each other one is told |
| PatchRequest.WordsMean | local-bridge/adapters/ipc_handlers.go:665-726 | what the type words ask for at the target: deleting leaves nothing, mkdir a directory, and an unknown word can never be carried out |
| PatchRequest.ContentsMean | local-bridge/adapters/ipc_handlers.go:665-700 | write and create leave the content sent, append leaves it behind what was there |
| PatchRequest.RenameMeans | local-bridge/adapters/ipc_handlers.go:702-716 | a rename leaves at its target what was at its source |
| PatchRequest.WalkExactly | local-bridge/adapters/ipc_handlers.go:1142-1150 | one name after the other: plain ones lead down, ".." up, the others nowhere |
| PatchRequest.SecureExactly | local-bridge/adapters/ipc_handlers.go:1130-1152 | a path is accepted exactly when its trimmed text is relative and leads to the project or below it, and it is what the text adds to the project |
| PatchRequest.CleanExactly | local-bridge/internal/journal/journal.go:278-283 | the path under which an image is kept is reduced and leads to the same place from any directory |
| PatchRequest.AcceptedStaysInside | local-bridge/adapters/ipc_handlers.go:762-797 | every accepted operation changes plain paths below the project directory, where its text led: its target, and for a rename its source |
| PatchRequest.AcceptedReadsInside | local-bridge/adapters/ipc_handlers.go:588-592 | an accepted operation is read inside the project only, exactly when it is a rename, has no old path, or has one that leads inside where the handler resolves it |
| PatchRequest.NeighbourIsRead | local-bridge/adapters/ipc_handlers.go:1154-1160 | an accepted write whose old path leads to a neighbour of the project has that neighbour hashed |
| PatchRequest.SecurePathStaysInside | local-bridge/adapters/ipc_handlers.go:1130-1152 | whatever dots and slashes a path is written with, an accepted one is canonical and inside the project |
| PatchRequest.SecurePathAgain | local-bridge/adapters/ipc_handlers.go:1130-1152 | resolving the text of an accepted path gives that path again |
| FileTree.MkdirAllAt | local-bridge/adapters/ipc_handlers.go:648-726 | making directories succeeds exactly when no file is in the way, adds exactly the missing ones, and otherwise changes nothing |
| FileTree.MoveAt | local-bridge/adapters/ipc_handlers.go:702-716 | what a rename of a whole subtree leaves at every path |
| PatchTransaction.BackupNamesDistinct | local-bridge/adapters/ipc_handlers.go:655 | different steps back up to different files |
| PatchTransaction.BackupNameExactly | local-bridge/adapters/ipc_handlers.go:655 | the step number in at least three digits, then .bak |
| PatchTransaction.ExecuteBacksUpFirst | local-bridge/adapters/ipc_handlers.go:648-664 | before an operation changes anything, exactly its backup has been written, holding the file's content |
| PatchTransaction.ExecuteKeepsWellFormed | local-bridge/adapters/ipc_handlers.go:648-726 | an operation leaves a tree in which everything lies in a directory, however it ends |
| PatchRollback.ExecuteDoesWanted | local-bridge/adapters/ipc_handlers.go:665-726 | an operation that goes through does what its kind asks for at its target, and nothing at any other path but the directories it had to make |
| PatchRollback.ExecutedExactly | local-bridge/adapters/ipc_handlers.go:648-726 | an operation takes effect exactly when nothing in the tree stands in its way, its backup can be written and no call that it comes to fails |
| PatchRollback.RunDoesWanted | local-bridge/adapters/ipc_handlers.go:577-616 | in a run each operation does what its kind asks for, on the tree that the ones before it left |
| PatchRollback.FaultsOnlyStop | local-bridge/adapters/ipc_handlers.go:648-726 | a failing call can stop an operation but not change what it does |
| PatchRollback.RefusedLeavesTree | local-bridge/adapters/ipc_handlers.go:648-726 | a recoverable operation that fails, at whatever call, leaves the project outside the rollback root as it was |
| PatchRollback.UndoStep | local-bridge/adapters/ipc_handlers.go:728-760 | undoing a record restores the tree before its operation, on any tree that agrees with the one it left |
| PatchRollback.UndoneExactlyWhenRecoverable | local-bridge/adapters/ipc_handlers.go:648-760 | an operation that took effect is undone exactly when its target's directory was there and it deleted no directory |
| PatchRollback.UndoAllRestores | local-bridge/adapters/ipc_handlers.go:561-760 | for every list of recoverable operations, repeated and overlapping paths and directory renames included, undoing the log backwards succeeds and gives back the original tree outside the rollback root |
| PatchRollback.MissingDirectoryBreaksRollback | local-bridge/adapters/ipc_handlers.go:728-760 | a concrete list of two operations that both succeed and whose rollback fails, when a target's directory is missing |
| PatchBridge.PatchBridge.LogStep | local-bridge/adapters/ipc_handlers.go:599-606 | the record goes to the manifest on disk, then to the journal, and the counts go through exactly these states |
| PatchBridge.PatchBridge.RunStep | local-bridge/adapters/ipc_handlers.go:577-616 | one turn of the loop: how it can stop, what is on disk then, and exactly which counts it goes through |
| PatchBridge.PatchBridge.RunLoop | local-bridge/adapters/ipc_handlers.go:577-616 | the loop keeps the manifest equal to the undo log of the executed operations |
| PatchBridge.PatchBridge.PatchApply | local-bridge/adapters/ipc_handlers.go:561-622 | which result each failure gives; the counts of executed operations, manifest entries and journal operations go through exactly the list that belongs to the result; on every return but a failed manifest write the manifest is the undo log of exactly the executed operations; and what the entry holds then, status, operations and images |
| PatchRun.ProgressInStep | local-bridge/adapters/ipc_handlers.go:577-616 | in every state of every such list executed - 1 <= journal operations <= manifest entries <= executed; at the end all three agree, unless the manifest could not be written |
| PatchRun.StatusExactly | local-bridge/adapters/ipc_handlers.go:565-621 | the entry ends completed, without a message, when all operations took effect, and failed with one otherwise |
| PatchRun.OperationsExactly | local-bridge/adapters/ipc_handlers.go:603-606 | the entry lists the recorded operations in order, by type, path and description, and its IDs and time are as it was begun |
| PatchRun.PreimageIsLast | local-bridge/adapters/ipc_handlers.go:588-592 | the preimage of a path is the hash of its file as the last operation that found one there found it |
| PatchRun.PostimageIsLast | local-bridge/adapters/ipc_handlers.go:607-616 | the postimage of a path is the hash of its file as the last operation that left one there left it |
| PatchRun.HashExactly | local-bridge/adapters/ipc_handlers.go:1041-1052 | a path is hashed exactly when a file is there, inside the project or not, with the digest of its content |
| PatchBridge.PatchBridge.PatchRollback | local-bridge/adapters/ipc_handlers.go:624-646 | rollback is the backwards undo of the manifest on disk, and changes the entry as `PatchRun.RolledBackExactly` says |
| PatchRun.RolledBackExactly | local-bridge/adapters/ipc_handlers.go:624-646 | only status and message change: rolled back, without a message, when all of it was undone, failed with one when it was not |
| PatchBridge.PatchBridge.UndoLog | local-bridge/adapters/ipc_handlers.go:635-641 | the backwards loop computes the undo of the whole log, stopping at a failure |
| PatchBridge.RollbackRestoresRun | local-bridge/adapters/ipc_handlers.go:566-646 | however a run of recoverable operations ended, a failed manifest write apart, undoing what the manifest holds restores the start |
| PatchBridge.RollbackRestoresProject | local-bridge/adapters/ipc_handlers.go:561-646 | the same from the project as it was before the backup directory was made |
| PatchBridge.ApplyThenRollback | local-bridge/adapters/ipc_handlers.go:561-646 | apply, completed or not, followed by rollback through the two handlers gives back the project and ends with the entry rolled back |
| JournalModel.ListingIsUnique | local-bridge/internal/journal/journal.go:394-401 | the sorted listing does not depend on the order in which the map was ranged over |
| JournalModel.SortEntriesSorts | local-bridge/internal/journal/journal.go:394-401 | entries come out by timestamp, then ID |
| JournalModel.ReopenRecovers | local-bridge/internal/journal/journal.go:242-276 | opening a file that lists the entries gives those entries back |
| JournalModel.LoadedExactly | local-bridge/internal/journal/journal.go:264-276 | of the entries in a file with one ID the last counts, and those without one are skipped, in any file |
| JournalModel.CrashThenReopen | local-bridge/internal/journal/journal.go:315-369 | whatever a crash during a persist left, the first one included, reopening gives what it gave before until the file is replaced, and then the entries written |
| JournalModel.CrashAnywhere | local-bridge/internal/journal/journal.go:101-369 | a crash anywhere in any sequence of calls, some of them failing: once n calls have returned, reopening gives the entries as of some answered call among those, or a later one, so nothing answered is lost |
| JournalModel.KeepPendingLists | local-bridge/internal/journal/journal.go:203-215 | filtering the listing lists exactly the entries in progress or failed |
| JournalModel.CallDoes | local-bridge/internal/journal/journal.go:101-301 | each call field by field: what it refuses and how it says so, the one entry it changes, which fields of it and how, and what stays when persisting fails |
| Journal.Journal.NewJournal | local-bridge/internal/journal/journal.go:63-98 | opening any file at all, sorted or not, with repeated or blank entries, puts in memory what loading it gives; without a file a first one is written |
| Journal.Journal.ReplaceFileWith | local-bridge/internal/journal/journal.go:335-356 | the disk goes through exactly the states of writing a temporary file and renaming it, up to the call that fails |
| Journal.Journal.PersistLocked | local-bridge/internal/journal/journal.go:315-369 | the states of the disk are those of writing the one sorted listing of the entries in memory |
| Journal.Journal.Begin | local-bridge/internal/journal/journal.go:101-128 | a new entry is in memory and on disk, or neither; the entry handed out shares no state with the journal |
| Journal.Journal.AddOperation | local-bridge/internal/journal/journal.go:131-148 | a blank type, a blank path and an unknown entry are refused, in this order; otherwise that entry and no other grows by the operation, in memory also when persisting fails, with the states of the disk stated |
| Journal.Journal.SetImage | local-bridge/internal/journal/journal.go:278-301 | records an image of that entry and nothing else, with the source's checks of path and hash, and the states of the disk |
| Journal.Journal.MarkStatus | local-bridge/internal/journal/journal.go:161-200 | sets status and message of that entry; a failed persist leaves the change in memory and the file as it was |
| Journal.MakeCalls | local-bridge/internal/journal/journal.go:101-200 | any sequence of calls leaves entries and disk as their history says, which is what CrashAnywhere is about |
| Journal.Journal.GetByID | local-bridge/internal/journal/journal.go:218-227 | refuses a blank ID and an unknown one, and else hands out a copy that shares no mutable state with the journal |
| Journal.Journal.ListEntries | local-bridge/internal/journal/journal.go:203-240 | lists copies of all entries, or of those in progress or failed, by timestamp and then ID |
| Proposal.Preflight | local-bridge/internal/patch/patch.go:195-250 | the failures reported are those of each operation put together, and an action that cannot be told refuses the whole; none is reported exactly when every operation passes on its own |
| Proposal.ActionTable | local-bridge/internal/patch/patch.go:767-803 | the action of an operation, said or inferred from its target, content and file, in every case |
| Proposal.FailuresExactly | local-bridge/internal/patch/patch.go:544-646 | an unsupported action is the only failure then; a setting fails for its path or its file |
| Proposal.FileFailuresExactly | local-bridge/internal/patch/patch.go:544-646 | which of the failures a file operation has, each exactly when its cause is there |
| Proposal.RefusedExactly | local-bridge/internal/patch/patch.go:195-250 | a proposal is refused as a whole exactly when some operation has no action that could be told |
| Proposal.ListedExactly | local-bridge/internal/patch/patch.go:195-250 | the list of failures is that of the operations one after the other |
| Proposal.PreflightIsSafe | local-bridge/internal/patch/patch.go:544-646 | an operation without failures touches only files in directories that are there, whatever its action turns out to be later |
| ProposalEngine.Engine.RunOperation | local-bridge/internal/patch/patch.go:284-359 | one operation as the sequence of states of files and journal that it goes through, for every call that may fail |
| ProposalEngine.Engine.Apply | local-bridge/internal/patch/patch.go:253-375 | the run is exactly that sequence for all operations up to the first failure; nothing happens without a clean preflight |
| ProposalEffects.ReplaceFirstReplaces | local-bridge/internal/patch/patch.go:952-980 | find and replace, once: the text before the first occurrence, the replacement, and the text behind it |
| ProposalEffects.ReplaceAllReplaces | local-bridge/internal/patch/patch.go:952-980 | find and replace, everywhere: the text cut at all its occurrences from the left, with the replacement in between |
| ProposalEffects.WordsMean | local-bridge/internal/patch/patch.go:767-803 | the words for each action, synonyms included, and the name under which it is journaled |
| ProposalEffects.KindsMean | local-bridge/internal/patch/patch.go:736-765 | the words for each operation type |
| ProposalEffects.MutationDoes | local-bridge/internal/patch/patch.go:648-734 | an operation that passed preflight goes through exactly when it is applicable to the tree it meets, and then leaves in each file what its action asks for, path by path |
| ProposalEffects.OperationDoes | local-bridge/internal/patch/patch.go:284-359 | with any call failing or none: an operation is applied exactly when none fails and it is applicable; its change is done and its line and both hashes are in the change set |
| ProposalEffects.FailureDoes | local-bridge/internal/patch/patch.go:284-359 | what an operation that is not applied leaves in the change set, by the call that failed, and what is reported for it |
| ProposalEffects.RunDoes | local-bridge/internal/patch/patch.go:284-375 | a run is that, operation by operation, each on the tree the ones before it left, up to the first that does not go through |
| ProposalEffects.FinishDoes | local-bridge/internal/patch/patch.go:361-375 | the change set is marked completed exactly when all operations were applied |
| ProposalProofs.MutationFollows | local-bridge/internal/patch/patch.go:665-734 | a safe operation makes no directory, removes none, and changes only the files it touches |
| ProposalProofs.WriteAhead | local-bridge/internal/patch/patch.go:284-360 | at every point of a run, wherever it stops or crashes, each path at which the project differs from the start is named in the change set as the journal file has it |
| ProposalDisk.WriteAheadOnDisk | local-bridge/internal/patch/patch.go:284-360 | the same on the journal's own disk states: whatever a crash left of a persist between two states of a run, torn temporary files and failing persists included, reopening the journal gives a change set that names every path at which the project differs from the start |
| ProposalImages.ImagesAreInitial | local-bridge/internal/patch/patch.go:308-353 | with operations on different paths, at every point the recorded preimages are the hashes at the start, or "missing", and a rename's postimage is its source's preimage |
| ProposalImages.MutationSucceeds | local-bridge/internal/patch/patch.go:665-734 | an operation that passed preflight, with usable content, goes through on any tree that agrees with the start where it matters |
| ProposalImages.PreflightIsSound | local-bridge/internal/patch/patch.go:213-375 | a clean preflight of file operations on different paths, with usable content and no failing call, means every operation is applied, in order, with the action preflight saw; the entry is completed, and the final tree differs from the first exactly by what each operation asks for |
| ProjectSettings.SplitSetting | local-bridge/internal/patch/patch.go:1099-1109 | section and key are the parts around the first slash of the trimmed path, neither of them blank |
| SettingsLines.SplitExactly | local-bridge/internal/patch/patch.go:1099-1109 | a path names a section and a key exactly when, stripped of white space and then of slashes, it has a first slash with something that is not blank on either side |
| ProjectSettings.FindSectionBounds | local-bridge/internal/patch/patch.go:1111-1126 | the loop finds the last header of the section before the next other section, and where the section ends |
| ProjectSettings.BoundsFacts | local-bridge/internal/patch/patch.go:1111-1126 | inside the bounds there is neither a header nor another section; at the end there is one, or the file ends |
| SettingsLines.BoundsExactly | local-bridge/internal/patch/patch.go:1111-1126 | the scan finds the section, or that there is none: its first header, the next line that opens another section, and its last header before that |
| ProjectSettings.SetInSection | local-bridge/internal/patch/patch.go:473-488 | the loop changes only the section's own lines, replacing the key's or adding one, and the append behind it is never reached |
| ProjectSettings.RemoveInSection | local-bridge/internal/patch/patch.go:441-456 | the loop drops exactly the key's lines inside the section, and reports whether there were any |
| ProjectSettings.SetSetting | local-bridge/internal/patch/patch.go:431-491 | the whole edit of a text: normalised lines, section found or added, trailing blanks trimmed |
| SettingsLines.SetExactly | local-bridge/internal/patch/patch.go:458-491 | line by line: the lines of the key become key=value; without one it is added at the end of the section; without [section] both are added at the end behind a blank line |
| SettingsLines.RemoveExactly | local-bridge/internal/patch/patch.go:441-456 | line by line: the lines of the key in the section are left out, and a text without any is not written again |
| SettingsLines.LinesRead | local-bridge/internal/patch/patch.go:1136-1140 | the lines of a text are what stands between its line breaks, in any mixture of the three forms |
| SettingsLines.WrittenExactly | local-bridge/internal/patch/patch.go:1128-1140 | only blank lines at the end are left out, and every line ends with a line feed |
| ProjectSettings.WrittenReadBack | local-bridge/internal/patch/patch.go:1128-1140 | written lines are read back as they are, but for blanks at the end |
| SettingsEdits.SetHolds | local-bridge/internal/patch/patch.go:458-490 | after setting, the section is found, has the key, and every line of the key in it is the line that was set: exactly when the key does not start with white space and the line does not look like a section |
| SettingsEdits.SetKeepsOthers | local-bridge/internal/patch/patch.go:458-490 | all other lines keep content and order, up to newline form and blanks at the end, exactly then |
| SettingsEdits.SetTwice | local-bridge/internal/patch/patch.go:458-490 | setting twice is setting once, exactly then |
| SettingsEdits.UnsettableRead | local-bridge/internal/patch/patch.go:458-490 | otherwise the section is read back without a line of the key, and with more lines than the others |
| SettingsEdits.NoKeyAddsLine | local-bridge/internal/patch/patch.go:473-490 | setting a key that the section does not have adds exactly one line, blank ones not counted |
| SettingsEdits.SpacedKeyFromPath | local-bridge/internal/patch/patch.go:1099-1109 | a path whose key starts with white space: only the path as a whole is trimmed |
| SettingsEdits.LinesLeftBehind | local-bridge/internal/patch/patch.go:458-490 | setting a value with more than one line that is not blank adds lines to any text, also to one it was set in before |
| SettingsEdits.RemoveHolds | local-bridge/internal/patch/patch.go:441-456 | after removing, the section has no line of the key, and the rest of the file is as it was |
| LockText.UnescapeInvertsEscape | local-bridge/internal/assets/sync.go:654-664 | unescaping an escaped body gives back every string, for any run of backslashes before quotes, newlines or the letter n |
| LockText.EscapeInjective | local-bridge/internal/assets/sync.go:654-664 | no two strings are escaped alike |
| LockMeaning.EscapeExactly | local-bridge/internal/assets/sync.go:654-664 | the text is cut from the left into pairs of backslashes and single characters, and each is replaced as the replacer says |
| LockMeaning.StandsExactly | local-bridge/internal/assets/sync.go:654-664 | a value stands bare exactly when it is not empty, is trimmed and has none of the marks; else it is quoted and escaped |
| LockMeaning.SingleQuotedRead | local-bridge/internal/assets/sync.go:746-758 | a text in single quotes, its own doubled, is read back |
| LockText.UnquoteInvertsEscapeScalar | local-bridge/internal/assets/sync.go:654-758 | every scalar, quoted or not, is read back from the text it is written as |
| LockText.StripComment | local-bridge/internal/assets/sync.go:725-744 | the loop over quote flags cuts at the first `#` outside quotes |
| LockMeaning.CommentExactly | local-bridge/internal/assets/sync.go:725-744 | a line is cut at the first # behind which no quote is open |
| LockText.UnsafeIsLost | local-bridge/internal/assets/sync.go:725-758 | a value whose quotes leave a `#` outside comes back with fewer of them |
| LockYaml.ScanInvertsJoin | local-bridge/internal/assets/sync.go:666-718 | plain lines are scanned as they were written, unless one is too long |
| LockMeaning.LinesScanned | local-bridge/internal/assets/sync.go:670-673 | lines are read whether or not a carriage return stands before the line feed, and a last one without either |
| LockYaml.ParseOneLine | local-bridge/internal/assets/sync.go:672-713 | one line closes the mappings it is not inside, and sets its key there |
| LockMeaning.LineExactly | local-bridge/internal/assets/sync.go:672-713 | a line that is no blank and no document mark: its errors in order, the innermost mapping that is indented less, and the key and value around its first colon |
| LockMeaning.SetInExactly | local-bridge/internal/assets/sync.go:704-713 | setting a key changes what its own path leads to and leaves all other paths alone |
| LockYaml.ParseYamlMap | local-bridge/internal/assets/sync.go:666-718 | the loop computes the parse, with the source's errors in the source's order |
| LockFile.SortedAssetIDs | local-bridge/internal/assets/sync.go:629-636 | each ID once, in byte order, whatever order the map gives |
| LockFile.SaveLockFile | local-bridge/internal/assets/sync.go:144-160 | the text is the header and the entries of the sorted IDs, line by line |
| LockMeaning.SavedExactly | local-bridge/internal/assets/sync.go:144-160 | the first line, and behind it seven lines for each entry in order, each with its name and its value |
| LockFile.LoadLockFile | local-bridge/internal/assets/sync.go:58-125 | the loops compute the lock for whatever order the maps are ranged over in |
| LockLoading.SlotExactly | local-bridge/internal/assets/sync.go:103-116 | the names a field goes by, with or without underscores, dashes and spaces, in any case, and the aliases |
| LockLoading.FieldsExactly | local-bridge/internal/assets/sync.go:97-117 | an entry of scalars gives the reference that its fields tell: for each component the last field with one of its names, trimmed |
| LockLoading.FieldsRefused | local-bridge/internal/assets/sync.go:97-102 | an entry with a field that is no scalar is refused |
| LockLoading.EntriesExactly | local-bridge/internal/assets/sync.go:92-122 | any file: the first entry that is wrong is reported, and else every ID has the last entry with it |
| LockLoading.LoadExactly | local-bridge/internal/assets/sync.go:69-90 | the entries are those under "assets", or those of the file itself without such a key; anything but a mapping there is refused |
| LockFile.LockHolder.UpdateLockEntry | local-bridge/internal/assets/sync.go:420-434 | a reference goes under its trimmed ID; without one nothing changes |
| LockRoundTrip.EntryReadInAnyOrder | local-bridge/internal/assets/sync.go:97-117 | an entry's fields give the same reference in whatever order they are visited |
| LockRoundTrip.AnyVisitLoads | local-bridge/internal/assets/sync.go:92-122 | all entries give the same lock in whatever order they are visited |
| LockRoundTrip.ParseStopsAtUnsafe | local-bridge/internal/assets/sync.go:666-758 | an ID with a `#` outside its quotes makes the whole file unreadable |
| LockRoundTrip.SavedLockLoads | local-bridge/internal/assets/sync.go:58-160 | what exactly is loaded from a saved lock: every entry, each value cut at an unquoted `#` |
| LockRoundTrip.SaveThenLoad | local-bridge/internal/assets/sync.go:58-160 | loading what was saved gives the lock back exactly when no value leaves a `#` outside its quotes and every line fits the scanner |
| LockRoundTrip.PlainLockRoundTrip | local-bridge/internal/assets/sync.go:58-160 | for trimmed one-line values without both a quote and a `#`, the round trip holds exactly when every line fits |
| LockRoundTrip.UnsafeTagIsLost | local-bridge/internal/assets/sync.go:144-160 | a lock with a tag that leaves a `#` outside its quotes is saved and not loaded as it was |
| LockRoundTrip.QuoteBeforeHash | local-bridge/internal/assets/sync.go:725-744 | any value with its first quote right before a `#` is of that kind |
| LockRoundTrip.LongTagIsNotLoaded | local-bridge/internal/assets/sync.go:666-718 | a lock with a tag of 65536 characters or more is saved and never loaded again |
| LockRoundTrip.UpdateKeepsWellKept | local-bridge/internal/assets/sync.go:420-434 | editing keeps a lock within what can be saved and loaded, and touches one entry |
| SnapshotDiff.ChangedMetadata | addons/echothink/models/sync_snapshot.gd:188-193 | the loop lists the metadata fields that differ, in order |
| SnapshotDiff.ClassifyEntries | addons/echothink/models/sync_snapshot.gd:65-89 | the loop computes the classification that `SnapshotChanges.ModifiedExactly` and `MetadataExactly` are about |
| SnapshotDiff.FillBuckets | addons/echothink/models/sync_snapshot.gd:98-110 | the loop lines removed entries up by signature, in order of appearance |
| SnapshotDiff.MatchAdded | addons/echothink/models/sync_snapshot.gd:112-135 | the loop takes the first entry in line for each added one |
| SnapshotDiff.DiffWith | addons/echothink/models/sync_snapshot.gd:42-148 | the five loops together compute the difference, with and without a second snapshot |
| SnapshotChanges.ModifiedExactly | addons/echothink/models/sync_snapshot.gd:65-78 | a change is listed as modified exactly when its path is on both sides with different hashes, with the last entry of each side |
| SnapshotChanges.MetadataExactly | addons/echothink/models/sync_snapshot.gd:79-87 | a change is listed under metadata exactly when the hashes agree and something else differs; its fields are exactly those that differ, in order |
| SnapshotChanges.ChangesInOrder | addons/echothink/models/sync_snapshot.gd:42-89 | changes come in the order of the first manifest, one for each of its entries with such a path; without a second snapshot everything is deleted and nothing else |
| SnapshotChanges.OneSidedExactly | addons/echothink/models/sync_snapshot.gd:88-96 | the entries matched are those with a path that the other side does not have, in order |
| SnapshotChanges.RenamesExactly | addons/echothink/models/sync_snapshot.gd:112-135 | an added entry is a rename exactly when it has a hash and a removed one of its signature is left; renames and additions come in order, and each rename has both paths and the fields that differ |
| SnapshotChanges.DeletedInOrder | addons/echothink/models/sync_snapshot.gd:98-140 | what is deleted comes grouped: first what has no hash, then by signature in order of appearance |
| SnapshotPatch.RenamesMatch | addons/echothink/models/sync_snapshot.gd:98-140 | per non-empty signature the number of renames is min(removed, added), the i-th added entry is paired with the i-th removed one, and the others stay added or deleted in order |
| SnapshotPatch.MatchingIsMaximal | addons/echothink/models/sync_snapshot.gd:98-140 | no added and deleted entry share a non-empty signature |
| SnapshotPatch.OneSidedConserved | addons/echothink/models/sync_snapshot.gd:88-140 | removed entries are deleted or renamed, added ones added or renamed to, as often as they occur |
| SnapshotPatch.ExactlyOneCategory | addons/echothink/models/sync_snapshot.gd:88-140 | with unique paths every one-sided entry is in exactly one category, once |
| SnapshotPatch.DiffIsPatch | addons/echothink/models/sync_snapshot.gd:42-148 | applying the difference to the first manifest gives exactly the second |
| SnapshotPatch.SelfDiffEmpty | addons/echothink/models/sync_snapshot.gd:42-148 | a manifest does not differ from itself, repeated paths or not |
| SnapshotPatch.EmptyDiff | addons/echothink/models/sync_snapshot.gd:42-148 | the difference is empty exactly when both sides hold the same entries |
| SnapshotPatch.SignatureShared | addons/echothink/models/sync_snapshot.gd:196-204 | for hashes without a bar, sharing a signature is sharing content and kind |
| SnapshotPatch.SignatureConfused | addons/echothink/models/sync_snapshot.gd:196-204 | two different hashes can share a signature, under some kinds, exactly when one of them goes on behind the other with a bar |
| SnapshotPatch.OneRename | addons/echothink/models/sync_snapshot.gd:98-135 | two manifests of one entry each, on different paths and with the same signature: the difference is that rename |
| SnapshotPatch.ContinuedIsRenamed | addons/echothink/models/sync_snapshot.gd:196-204 | two entries of different content that come out as a rename, for every hash that goes on behind another with a bar |
| SnapshotPatch.RenameKeepsContent | addons/echothink/models/sync_snapshot.gd:112-135 | a rename pairs entries of equal content exactly when neither hash goes on behind the other with a bar |
| WebSocketFrames.MaskedTwice | local-bridge/internal/gateway/client.go:705-709 | masking is undone by masking with the same key |
| WebSocketBytes.OneMasking | local-bridge/internal/gateway/client.go:705-709 | bytes are masked exactly when each bit is set where the plain byte and the key byte whose turn it is differ (section 5.3 of RFC 6455) |
| WebSocketFrames.WireRead | local-bridge/internal/gateway/client.go:664-709 | any frame, in any length form, masked or not, reserved bits or not, is read back, and reading stops where the next one starts (section 5.2 of RFC 6455) |
| WebSocketBytes.ReadExactly | local-bridge/internal/gateway/client.go:664-709 | any bytes: a frame is read exactly when its header is whole, its length fits 63 bits and all of it is there; then byte by byte what it says, the payload unmasked bit by bit |
| WebSocketFrames.BuildThenRead | local-bridge/internal/gateway/client.go:967-994 | reading a built frame gives payload, opcode and exactly the bytes that follow, and no other length form is shorter |
| WebSocketFrames.FramesJoined | local-bridge/internal/gateway/client.go:663-721 | whatever their opcodes, the frames up to the first with FIN become one message with the first opcode that is not zero |
| WebSocketFrames.FragmentsReassembled | local-bridge/internal/gateway/client.go:653-722 | a fragmented message is put together exactly when no control frame stands between its fragments (section 5.4 of RFC 6455) |
| WebSocketFrames.PingEndsMessage | local-bridge/internal/gateway/client.go:710-720 | a ping between two fragments: its payload is taken for text, and the second fragment is left as a message without an opcode |
| WebSocketFrames.PanicsExactly | local-bridge/internal/gateway/client.go:653-722 | the reader panics exactly when, behind some number of frames without FIN, a header has a length of 2 to the 63 or more with its mask, if any, read |
| WebSocketFrames.HugeLengthPanics | local-bridge/internal/gateway/client.go:683-701 | behind any valid frames of a message, a final frame's 8-byte length makes the reader panic if and only if it is 2 to the 63 or more and its mask, if any, is there |
| GatewayClient.MaskInPlace | local-bridge/internal/gateway/client.go:973-976 | the in-place loop masks every byte with its byte of the key: bit by bit, a bit is set where exactly one of the two has it |
| GatewayClient.BuildHeader | local-bridge/internal/gateway/client.go:978-990 | the header is the final bit, the opcode and the shortest length form |
| GatewayClient.BuildClientFrame | local-bridge/internal/gateway/client.go:967-994 | the bytes built, one by one: FIN and the opcode, the length in the shortest form with the mask bit, the mask, and the payload masked bit by bit |
| GatewayClient.Client.ReadPayloadLength | local-bridge/internal/gateway/client.go:676-692 | the length accumulator computes the big-endian number, or finds it negative |
| GatewayClient.Client.ReadFrame | local-bridge/internal/gateway/client.go:653-722 | the loop reads the message that the bytes hold, and leaves what follows |
| GatewayClient.Client.ReadEvents | local-bridge/internal/gateway/client.go:612-651 | the loop hands out and writes what the messages of the input call for, with its context done or a write failing at any of them, and ends disconnected |
| GatewayClient.Client.HandleMessage | local-bridge/internal/gateway/client.go:630-649 | text and binary payloads go out, a ping is answered, a close ends the loop, and so does a done context or a failing write; of a pong whose write fails exactly the front is written |
| GatewayClient.PongBuilt | local-bridge/internal/gateway/client.go:724-737 | a pong is a final frame with opcode 10 and the payload masked |
| GatewayClient.EventsDelivered | local-bridge/internal/gateway/client.go:612-651 | over messages in any number of fragments each, exactly the text and binary payloads before the loop's end are handed out, in order, and exactly the pings before it are answered, in order, with their payloads; the end is the first close, or the first message at which the context is done or a pong cannot be written, and of that pong only a front is written |
| GatewayClient.PongsReadBack | local-bridge/internal/gateway/client.go:724-737 | the other end reads one pong per ping with the ping's payload, and nothing of a next pong that is cut off anywhere (section 5.5.3 of RFC 6455) |
| MessageExtractor.ChunkIndependence | addons/echothink/services/bridge_client.gd:333-366 | for any bytes, cut inside a character or not: extracting in two steps equals extracting at once, for every continuation, exactly when no unusable header has come up |
| MessageExtractor.UnusableHeaderDrops | addons/echothink/services/bridge_client.gd:340-350 | a header whose length is not a number empties the buffer with all that stands behind it |
| MessageExtractor.NotANumberDrops | addons/echothink/services/bridge_client.gd:340-350 | one such header, with any text behind it |
| MessageExtractor.AnyChunking | addons/echothink/services/bridge_client.gd:142-176 | every way of cutting a stream of bytes gives the same messages and leaves the same bytes |
| MessageExtractor.LineReceived | addons/echothink/services/bridge_client.gd:358-365 | a message on a line comes out as it was sent, with nothing left behind, exactly when it has at most one byte more than it has characters |
| MessageExtractor.LineLeavesMore | addons/echothink/services/bridge_client.gd:358-365 | with more, the message comes out, and what is left of its bytes gives another message or stays in the buffer |
| MessageExtractor.SentIsReceived | local-bridge/internal/ipc/server.go:483-490 | any mix of newline-terminated payloads of that kind and of length-framed payloads in any characters is received message for message, however the bytes are cut |
| Utf8.DecodedStays | addons/echothink/services/bridge_client.gd:333-366 | what is decoded up to an ASCII character stays as it is when more bytes come, wherever the bytes were cut |
| Utf8.DecodeEncoded | addons/echothink/services/bridge_client.gd:352-353 | decoding an encoded text gives the text, whatever stands behind it |
| MessageExtractor.HeaderRead | addons/echothink/services/bridge_client.gd:369-380 | a written Content-Length header is read back as its length |
| MessageHeaders.HeaderLinesRead | addons/echothink/services/bridge_client.gd:370 | the lines of a header are what stands between its line breaks |
| MessageHeaders.NumberExactly | addons/echothink/services/bridge_client.gd:378-379 | a value counts as a number exactly when it is digits, with or without a sign, and for the number they spell |
| MessageHeaders.LengthExactly | addons/echothink/services/bridge_client.gd:369-380 | the first line that gives a usable length counts: content-length in any case before the first colon, a number behind it, a negative one for 0 |
| MessageHeaders.FrontExactly | addons/echothink/services/bridge_client.gd:333-366 | any buffer: a header up to the first blank line with so many bytes behind it, or a line without white space around it, or not enough yet |
| MessageExtractor.BridgeClient.ExtractMessages | addons/echothink/services/bridge_client.gd:333-366 | the loop computes the extraction, and ends, because the buffer shrinks |
| MessageExtractor.BridgeClient.ProcessIncoming | addons/echothink/services/bridge_client.gd:142-163 | everything read is extracted together; a failed read drops the buffer and disconnects |
| MessageHeaders.ReadExactly | addons/echothink/services/bridge_client.gd:146-162 | what is read is all data up to the first empty read, and nothing if a read fails before |
| MessageExtractor.ReceiveAll | addons/echothink/services/bridge_client.gd:142-176 | call after call, the client hands out what feeding the chunks gives: what the server sent, message for message |
| IpcSafety.ReactionFacts | local-bridge/internal/ipc/server.go:338-481 | a handler runs only once authenticated and as the message asks, and authentication is granted only before, by a message with an accepted nonce |
| IpcSafety.GrantsExactly | local-bridge/internal/ipc/server.go:447-481 | a message authenticates exactly when the session is not yet, it calls session.authenticate in version 2.0, its stream word is empty, json or sse, and its trimmed nonce is not empty and among the accepted ones |
| IpcSafety.CallsExactly | local-bridge/internal/ipc/server.go:381-445 | a handler is called exactly when the session is authenticated and the message names a registered method |
| IpcSafety.RepliesExactly | local-bridge/internal/ipc/server.go:338-481 | which messages are answered, when with a result, and with which code otherwise |
| IpcSafety.EndsExactly | local-bridge/internal/ipc/server.go:338-445 | after which messages the connection ends |
| IpcSafety.DueAsDeserved | local-bridge/internal/ipc/server.go:338-481 | the replies due in a run are those, one for each message that wants one, in order |
| IpcSafety.StepKeepsSafe | local-bridge/internal/ipc/server.go:224-517 | every step of reader, broadcasts, writer or close keeps the session invariant |
| IpcSafety.SessionSafety | local-bridge/internal/ipc/server.go:224-517 | in every run: each grant stands right behind a message with an accepted nonce, and there is at most one; handlers and broadcasts come after it, broadcasts in its mode; nothing arrives behind a message that ends the session; between messages exactly the replies due are queued, in order of arrival, each a result or the code its message deserves; what is written is the front of what was queued; at most 64 payloads wait |
| IpcSafety.AuthenticationStays | local-bridge/internal/ipc/server.go:571-576 | authentication and stream mode never change once set |
| IpcSafety.ClientsRunAlone | local-bridge/internal/ipc/server.go:224-317 | in every interleaving of the server each client goes through a run of its own |
| IpcServer.ClientConn.HandleRawMessage | local-bridge/internal/ipc/server.go:338-379 | handling a message is the session's receive step |
| IpcServer.ClientConn.HandleRequest | local-bridge/internal/ipc/server.go:381-415 | which handler a request calls, what it is answered, and when the connection ends |
| IpcServer.ClientConn.HandleNotification | local-bridge/internal/ipc/server.go:417-445 | the same for a notification, which is never answered |
| IpcServer.ClientConn.HandleAuthentication | local-bridge/internal/ipc/server.go:447-481 | accepts exactly parameters with an accepted nonce and a stream word, sets the session's fields only then, and tells a wrong nonce from malformed parameters |
| IpcServer.ClientConn.QueueReply | local-bridge/internal/ipc/server.go:505-517 | a reply gets its place in the bounded queue, or the connection ends |
| IpcServer.ClientConn.BroadcastNotification | local-bridge/internal/ipc/server.go:224-241 | a broadcast goes on only for an authenticated session, in its mode |
| IpcServer.ClientConn.WriteOne | local-bridge/internal/ipc/server.go:321-336 | the writer takes payloads off in order, and stops at a partial write |
| CaseMerge.MergeCases | local-bridge/internal/testing/runner.go:639-662 | the loop over an index of keys computes the group-by |
| CaseMerge.KeyOf | local-bridge/internal/testing/runner.go:646 | suite and name both count, with words for blank ones and two colons between them |
| CaseMerge.SuitesConfused | local-bridge/internal/testing/runner.go:646 | cases of one suite share a key exactly when they share the name; cases of two suites can share one exactly when one suite goes on behind the other in one of two ways |
| CaseMerge.MergeIsGroupBy | local-bridge/internal/testing/runner.go:639-662 | one case per key in order of first appearance, with name and suite of the first of its group, passed exactly when all of them have, with their longest duration, their joined outputs and their last error |
| CaseMerge.CombinedOutput | local-bridge/internal/testing/runner.go:648 | the outputs of a group that are not blank, trimmed, one to a line |
| CaseMerge.CombinedError | local-bridge/internal/testing/runner.go:649-652 | the error of the last case that failed with one behind the first, or the first case's own |
| CaseMerge.MergeTwice | local-bridge/internal/testing/runner.go:639-662 | merging again changes nothing |
| CaseMerge.MergeKeepsVerdict | local-bridge/internal/testing/runner.go:614-662 | merging leaves the overall verdict as it was |
| CaseMerge.BuildRunResult | local-bridge/internal/testing/runner.go:614-632 | passed exactly when failed is 0, that is, when every case passed |
| CaseMerge.SkippedExactly | local-bridge/internal/testing/runner.go:634-637 | a case is skipped exactly when the word stands somewhere in its error or output, in any case of letters |

## Left out

- File permissions, symbolic links, disk-full effects and directory syncs: an operating-system call fails without effect or does what it says.
- JSON and YAML documents other than `assets.lock`: manifests, journal files, messages and proposals are structured values. A numeric request id is a value here; the JSON library rounds integers beyond 2 to the 53.
- Hashes, timestamps, fresh IDs, mask keys and the order in which Go ranges over a map are parameters.
- `manifest.json` and `journal.json` are kept beside the file tree, not in it; no operation of a recoverable run can reach them, as it keeps away from the rollback root.
- `git apply` (action apply_patch) changes files the code cannot see; the proposal results exclude it.
- Paths of proposals and journal entries are sequences of names; `PatchRequest` models the resolution of path text for the patch handler only. Whether a file's extension suits its operation type is a field of the operation.
- Lower-casing and white space are those of ASCII letters and of the Unicode white-space list; other case mappings are not modelled.
- Warnings, affected paths and message texts of a preflight, and error texts in general.
- MessageExtractor.ChunkIndependence: lengths that overflow 64 bits, a byte order mark at the front of a text, which the engine skips, and which replacement characters the engine gives for ill-formed bytes (here one for each byte) are not modelled.
- GatewayClient.EventsDelivered: an event is its payload here; the decoding into type and content is a function of it. The input is shorter than 2 to the 63 bytes.
- WebSocketFrames.HugeLengthPanics: a buffer of any length below 2 to the 63 is taken to fit in memory; a runtime with a smaller limit panics for the lengths beyond it too.
- Journal.Journal.NewJournal: a file that cannot be read or parsed, or has another version, is refused by the source and not modelled; a null entry in the file is one with a blank ID here, and temporary files that earlier crashes left are not kept apart from the present one.
- IpcSafety.SessionSafety: timeouts are nondeterministic drops; a handler result that cannot be encoded as JSON, which ends the connection unanswered, is not modelled.
- SettingsEdits.SetHolds: is about sections, keys and values on one line each, which is what the editor is made for; for values of several lines there is `LinesLeftBehind`, unless all but one of the lines are blank.
- WebSocket handshake, HTTP client, TLS, process launching, the editor's widgets and event bus, policy tables and log parsing carry no state that these properties are about.
- `DiffWithRemote`, reconnect timers and write timeouts: weaker siblings of the results above, or pure timing.
