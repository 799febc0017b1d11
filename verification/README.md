# wuFlow: verified model

wuFlow is an issue tracker: a Go server on SQLite and a JavaScript client. These Dafny modules model
its protocols over shared state and prove what they promise. `dafny verify dfyconfig.toml` checks all
of them.

## What is modelled

- **The relational store** (Db, Integrity, Store, UserDeletion): tables as maps with counters, one
  function for each SQL statement with its foreign keys, guards and transactions, and the class
  `Store.DB` whose methods change the tables in place and are proved against those functions.
- **Handlers** (Checks, Handlers, IssueHandlers, PutIssue, Acceptance, Evolution, Archive): every request
  that writes as one step, `Handlers.Handle`, with what each accepts and writes in Acceptance; the
  issue handlers also as methods on `Store.DB`.
- **Interleaving** (Interleaving, HandlerSteps): the same handlers statement by statement, with the
  statements of any number of requests interleaved.
- **The issue modal** (Modal, ModalSaves, ModalLosses, ModalRuns, IssueModal, WriteChain, WriteQueue):
  the client's revalidation, entity tags (section 13.1.1 of RFC 9110, compared with `W/` stripped),
  queued saves and moves, conflict dialog and lost answers, one step for each stretch between two
  awaits, together with the server and all its other clients.
- **Sessions** (RefreshToken, Sessions, SessionLife, Auth, SessionClient, SessionCalls, ApiClient): token
  format, rotation with reuse detection, and the single-flight renewal of one tab.
- **Issue lists and reordering** (IssueLists, Reorder, ListUtils, Positions).
- **Limiters, addresses, texts** (RateLimit, ClientAddress, Sanitize, ContentHash, Indent; Text and
  Numbers hold what they share).

Classes hold the fields the source reassigns, and each of their methods names, in its `ensures`, the
specification function that gives its new state; the theorems are about those functions and about
runs of them. Every lemma carries `{:induction false}`: all inductions are written out.

## Where the code does less than it says

- A save that is accepted can undo another one if an issue is opened while a write runs whose answer
  sets a tag beside it that names a row it does not match (static/js/components/modal.js:484, :496 and
  :1100): the issue of a save on its way, while the server can still accept the save and it changes
  the issue; an old copy of an issue that carries the stamp the answer brings, as one stamped together
  with the saved issue may; or an up-to-date copy while a reload or a move brings an older one with
  its stamp. `Modal.OpenSafe` says exactly when; every other opening during a write is safe, in
  particular closing an issue whose save is on its way and opening the next. `Modal.NoLostUpdate` holds
  for all runs that open issues so, and the `ModalLosses.Open...Exactly` lemmas prove that the openings
  left out lead to a lost update if the user may save the copy, whatever is saved and queued.
- An issue must also be opened from a card that matches the row with its stamp. A card that shows a
  new status, priority or assignee before its PUT is answered (static/js/list-utils.js:54-107) keeps
  the old stamp, so its revalidation matches, and the next save of any field writes what it shows,
  even if that PUT fails: `ModalLosses.ShownCardExactly`.
- `sanitizeString` trims before it strips tags, so a stored title can begin with a space, and the next
  save of any other field removes it: `Sanitize.SanitizeTwice` says for which inputs,
  `Sanitize.SanitizeTwiceDiffers` gives one; `Modal.TitleKeptExactly`.
- Deleting the assignee of an archived issue stamps it and writes the actor into `updated_by`; all
  other references of an archived issue can only become null: `Archive.StampMovesExactly`.
- A reorder sends only the positions that change in the client's copy. If the server differs in one of
  the others, a reload need not show the new order: `Reorder.ReorderReadsBack` says exactly when it
  does, `Reorder.MoveReadsBack` does so for a move, and `Reorder.ReorderReadsOtherwise` gives a move to the top that does not end there.
- Tab and Shift+Tab differ on a selection from offset 0 of a text that begins with a newline:
  `Indent.TabUntab`.
- The limiter's bound is 2*max - 1 calls in a window, and it is reached: `RateLimit.WindowBoundTight`.

## Model

| member | source | states |
|---|---|---|
| Sanitize.SanitizeClean | backend/validation.go:87-95 | for every string, the result has no NUL and no match of `<[^>]+>`, is a subsequence of the input, and a second tag strip changes nothing |
| Sanitize.StripTagsFixed | backend/validation.go:87 | stripping tags leaves a text alone exactly if it has no match of the pattern |
| Sanitize.SanitizeFixed | backend/validation.go:91-95 | a clean text changes exactly if it has white space at an end |
| Sanitize.SanitizeTwice | backend/validation.go:91-95 | cleaning twice equals cleaning once exactly if, in the trimmed input without NULs, the first and the last character outside tags are not white space |
| Sanitize.SanitizeTwiceDiffers | backend/validation.go:91-95 | an input whose second cleaning differs from its first |
| Sanitize.CleanDescriptionTwice | backend/validation.go:162-165 | cleaning a description is idempotent |
| Sanitize.SanitizeKeeps | backend/validation.go:87-95 | sanitizeString keeps exactly this of any string: NULs and outer white space gone, the characters outside tags, in order |
| Sanitize.CleanDescriptionKeeps | backend/validation.go:162-165 | cleaning a description keeps all but NULs and outer white space |
| Model.ValidateIssueValidated | backend/validation.go:154-192 | what validateIssue accepts has no NUL and no tag in its title, a trimmed description, a known status and priority, and real dates |
| Model.ValidateIssueExactly | backend/validation.go:154-192 | a body is accepted exactly if its title has something outside tags and its fields are within their limits; only title and description are changed |
| Model.RevalidateStored | backend/validation.go:154-192 | validating a stored issue again changes its title exactly if it has white space at an end, and nothing else |
| Positions.ValidatePositionUpdates | backend/validation.go:211-234 | accepts exactly 1 to 500 updates with positive, distinct ids and no negative position |
| ContentHash.HashExact | backend/handlers.go:637-657 | for validated rows the hash is equal exactly when title, description, status, priority, label, assignee, deadline to the second, planned dates, project and release are |
| ContentHash.Rfc3339Injective | backend/handlers.go:647-649 | deadlines with the same text agree to the second |
| ContentHash.PlannedTextInjective | backend/handlers.go:654-656 | the %v text of a list of dates determines the list |
| RefreshToken.Base64RoundTrip | backend/auth.go:162-165 | base64 decoding undoes encoding for every byte string (section 4 of RFC 4648) |
| RefreshToken.TokenRoundTrip | backend/auth.go:150-198 | parsing undoes generating, for every 32-byte secret, exactly for session tokens of 1 to 339 bytes without a colon |
| RefreshToken.ParsedTokenShape | backend/auth.go:169-198 | whatever parses names a non-empty session token without a colon |
| ClientAddress.LimiterKeyExact | backend/ratelimit.go:28-42 | two parsable addresses share a key exactly if they are the same IPv4 address, mapped form included, or agree in the top 64 bits of IPv6 |
| ClientAddress.UnparsedKey | backend/ratelimit.go:28-42 | an address that does not parse is its own key |
| ClientAddress.UnmapExactly | backend/ratelimit.go:32-42 | exactly the mapped form of an IPv4 address is turned into it |
| ClientAddress.StopsExactly | backend/utils.go:71-97 | an entry is passed over exactly if it parses and is in a trusted prefix |
| ClientAddress.ContainsExactly | backend/utils.go:66-97 | a trusted prefix of whole octets or groups has exactly the addresses of its family that begin with them |
| ClientAddress.ClientIPFromHeader | backend/utils.go:66-97 | the right-to-left loop returns the entry that IsClient describes |
| ClientAddress.GetClientIP | backend/utils.go:38-52 | the header counts only behind a trusted proxy; otherwise the peer's address is the client's |
| ClientAddress.ClientExistsUnique | backend/utils.go:66-97 | every header list determines exactly one result |
| ClientAddress.ForgedPrefixIgnored | backend/utils.go:66-97 | entries left of the first untrusted or invalid entry from the right never change the result |
| ClientAddress.HeaderLinesFormOneList | backend/utils.go:72-76 | splitting the joined header lines gives the concatenation of their splits |
| RateLimit.KeyedLimiter.Allow | backend/ratelimit.go:82-98 | the answer and the new counts are those of one step of the limiter |
| RateLimit.KeyedLimiter.Cleanup | backend/ratelimit.go:109-116 | removes exactly the entries whose window ended before the cutoff |
| RateLimit.EvictionInvisible | backend/ratelimit.go:65-116 | with a clock that never goes back, lazy cleanup answers every call as a limiter that never evicts |
| RateLimit.WindowBound | backend/ratelimit.go:82-98 | a key gets at most 2*max - 1 allowed calls in any closed interval of one window length |
| RateLimit.WindowBoundTight | backend/ratelimit.go:82-98 | a run that reaches 2*max - 1, for every limit |
| Indent.Editor.HandleTabKey | static/js/components/modal.js:1128-1191 | the method leaves the text and the selection that TabKey describes |
| Indent.TabUntab | static/js/components/modal.js:1128-1191 | Tab then Shift+Tab restores text and selection of a non-empty selection exactly unless it starts at offset 0 of a text whose first character is a newline |
| Indent.TabKeyRewrites | static/js/components/modal.js:1146-1186 | Tab and Shift+Tab rewrite the lines a selection touches and nothing else, and where the selection is then |
| Indent.UntabbedLine | static/js/components/modal.js:1163-1172 | Shift+Tab takes two spaces, one, or a tab from the front of a line, as much as there is |
| Indent.CaretTab | static/js/components/modal.js:1134-1140 | with nothing selected Tab inserts two spaces |
| Indent.CaretUntab | static/js/components/modal.js:1142-1187 | with nothing selected Shift+Tab takes the indentation of the caret's line, and the caret stays in that line |
| Store.DB.CreateIssue | backend/db.go:342-398 | inserts the row under the next id, with the default priority, behind all issues of its status and stamped, or fails on a foreign key and changes nothing |
| Store.DB.UpdateIssue | backend/db.go:531-569 | writes every column but the creator in one statement, or fails and changes nothing |
| Store.DB.UpdateIssuePosition | backend/db.go:571-580 | changes the position alone |
| Store.DB.UpdateIssuePositions | backend/db.go:578-630 | the loop in a transaction: all updates, or after a rollback none |
| Store.DB.UpdateTaskPositions | backend/db.go:584-630 | the same transaction for tasks, scoped to their issue |
| Store.DB.DeleteIssue | backend/db.go:632-641 | deletes the issue with its tasks, comments and history |
| Store.DB.UpdateTask | backend/db.go:720-735 | changes a task of the given issue only |
| Store.DB.UpdateComment | backend/db.go:965-981 | changes a comment of the given issue, and author if one is required |
| Store.DB.DeleteLabel | backend/db.go:1040-1056 | deletes a label of the project and clears it from its issues |
| Store.DB.DeleteRelease | backend/db.go:1719-1726 | deletes a release and clears it from its issues |
| Store.DB.TriggerRelease | backend/db.go:1737-1764 | closes an open release and, if asked, archives its Done issues |
| Store.DB.UpdateUser | backend/db.go:1364-1381 | the guarded update: never takes the last active sysadmin away |
| Store.DB.DeleteUser | backend/db.go:1383-1445 | the transaction: history, unassignment and deletion, or after a rollback nothing |
| Store.DB.CreateSession | backend/db.go:1463-1485 | inserts the session of an existing user |
| Store.DB.UpdateSession | backend/db.go:1519-1528 | changes hash and expiry of one session |
| Store.DB.DeleteSession | backend/db.go:1530-1539 | deletes one session |
| Store.DB.DeleteSessionsByUserID | backend/db.go:1541-1549 | deletes all sessions of a user |
| Integrity.ExecValid | backend/db.go:97-245 | after any statement every foreign key points to a row and every id is below its counter |
| Integrity.ExecLater | backend/db.go:97-245 | ids are never used twice, and labels and releases never change their project |
| Integrity.WriteConsistent | backend/db.go:531-569 | writing project, label and release in one statement keeps label and release in the row's project when they fit or are gone |
| Integrity.OthersConsistent | backend/db.go:140-163 | no other statement can break that |
| Integrity.ExecKeepsSysAdmin | backend/db.go:1342-1381 | no statement takes the last active sysadmin away, whatever values it carries |
| UserDeletion.DeleteUserExact | backend/db.go:1383-1445 | all or nothing: exactly when it fails; else one new history entry for each assigned issue and none for others, the count, no reference to the user left, the sessions of others kept, and nothing else changed |
| UserDeletion.OneEntryEach | backend/db.go:1404-1410 | INSERT ... SELECT adds exactly one row for each selected issue |
| UserDeletion.DeletionEntries | backend/db.go:1404-1410 | what each new history entry says |
| UserDeletion.DeletionReleasesIssues | backend/db.go:139-163 | the exact row of every issue after the deletion |
| UserDeletion.DeletionUnreferenced | backend/db.go:752-794 | no row of any table refers to the user after the deletion |
| Interleaving.NextKeepsInv | backend/handlers.go:383-443 | any statement of any handler in progress keeps what all handlers in progress rely on |
| Interleaving.HandlerWrites | backend/handlers.go:424-443 | one handler step is at most one statement, and it writes only references that fit or are gone for good |
| Interleaving.AlwaysConsistent | backend/handlers.go:383-443 | in every state any interleaving of statements reaches, each issue's label and release exist and belong to its project |
| Interleaving.SysAdminForever | backend/db.go:1342-1445 | once an active sysadmin exists, every later state of every interleaving has one, stale updates included |
| Interleaving.SysAdminFromStartup | backend/auth.go:297-337 | from an empty database, startup and every run after it keep an active sysadmin |
| HandlerSteps.PutAlone | backend/handlers.go:690-753 | the statements of a PUT, uninterrupted, do what the one-step handler does |
| HandlerSteps.ToggleAlone | backend/handlers.go:494-521 | the same for archive and unarchive |
| HandlerSteps.MoveAlone | backend/handlers.go:551-623 | the same for a move |
| HandlerSteps.CreateAlone | backend/handlers.go:422-464 | the same for a creation |
| IssueHandlers.HandleCreateIssue | backend/handlers.go:422-464 | the method, check by check, does what Handle decides for a creation |
| IssueHandlers.PersistIssueUpdate | backend/handlers.go:659-687 | the method does what Persist plans |
| IssueHandlers.HandlePutIssue | backend/handlers.go:689-753 | the method, check by check, does what Handle decides for a PUT |
| IssueHandlers.HandleIssueArchiveToggle | backend/handlers.go:493-543 | the same for archive and unarchive |
| IssueHandlers.HandleMoveIssue | backend/handlers.go:550-623 | the same for a move |
| PutIssue.HandleStored | backend/handlers.go:689-753 | every request keeps every stored row validated, so the hash stays exact on stored rows |
| PutIssue.FastPathRefines | backend/handlers.go:659-687 | persistIssueUpdate leaves what always writing the row would leave, but for stamp, updater and the stored spelling of deadline and of no dates |
| PutIssue.PutExact | backend/handlers.go:689-753 | an accepted PUT passed every check, changes one row, and stamps it exactly if its content is new; 409 means exactly that the tag is not the row's; a refused PUT changes nothing |
| PutIssue.CreateExact | backend/handlers.go:422-464 | exactly when a creation is accepted, and the one row it adds under a fresh id, behind all issues of its status |
| PutIssue.EndPositionIsLast | backend/db.go:346-353 | the position of a new issue is right behind the last, or 1 |
| PutIssue.MoveExact | backend/handlers.go:550-623 | when a move succeeds, and the one row it changes |
| Acceptance.PutAcceptedExactly | backend/handlers.go:690-753 | in terms of tables and body: when a PUT is accepted, 404 or 409, an inactive assignee passing exactly if the issue has it already; and the references and fields that are stored |
| Acceptance.CreateAcceptedExactly | backend/handlers.go:424-464 | when a POST is accepted: whoever it assigns is active, label and release are of the project |
| Acceptance.PutPositionsAcceptedExactly | backend/handlers.go:758-776 | 1 to 500 distinct issues of the project that are not archived get the positions sent, or nothing happens |
| Acceptance.PutTaskPositionsExact | backend/handlers.go:902-928 | the same for the tasks of one issue |
| Acceptance.CreateTaskExact | backend/handlers.go:831-862 | when a task is added, and its row |
| Acceptance.PutTaskExact | backend/handlers.go:864-900 | when a task is replaced, and its row |
| Acceptance.DeleteTaskExact | backend/handlers.go:930-957 | when a task is deleted |
| Acceptance.CreateCommentExact | backend/handlers.go:987-1027 | when a comment is added, and its row |
| Acceptance.PutCommentExact | backend/handlers.go:1029-1067 | when a comment is changed: its text alone, and it is marked as edited |
| Acceptance.DeleteCommentExact | backend/handlers.go:1069-1112 | when a comment is deleted |
| Acceptance.DeleteIssueExact | backend/handlers.go:794-829 | an issue that is not archived goes with its tasks, comments and history, and nothing else does |
| Acceptance.TriggerReleaseExact | backend/handlers.go:2063-2099 | closing an open release archives, on request, exactly its Done issues |
| Acceptance.ReopenReleaseExact | backend/handlers.go:2101-2130 | opening a closed release changes that alone |
| Acceptance.PutReleaseExact | backend/handlers.go:1986-2032 | an open release gets another owner |
| Acceptance.CreateReleaseExact | backend/handlers.go:1945-1967 | a new release is open |
| Acceptance.DeleteReleaseExact | backend/handlers.go:2034-2061 | its references become null and nothing else changes |
| Acceptance.CreateLabelExact | backend/handlers.go:1128-1148 | a label of a project that exists |
| Acceptance.DeleteLabelExact | backend/handlers.go:1150-1169 | its references become null and nothing else changes |
| Acceptance.CreateProjectExact | backend/handlers.go:1878-1918 | one project more |
| Acceptance.DeleteProjectExact | backend/handlers.go:2170-2210 | a project without issues, other than the first, goes with its labels and releases |
| Acceptance.CreateUserExact | backend/handlers.go:1560-1613 | a user with an e-mail that nobody has |
| Acceptance.UpdateUserExact | backend/handlers.go:1636-1695 | a user is replaced unless the e-mail is taken or no other sysadmin is active; on request exactly that user's sessions end |
| Evolution.HandleEvolves | backend/handlers.go:659-753 | after any request each row is stamped now or has its old stamp and its old content, but for position, audit columns and references to deleted rows |
| Evolution.ServedLater | backend/handlers.go:466-482 | a copy once served stays equal to its row, up to that, until the row has a later stamp |
| Archive.HandleKeepsArchived | backend/handlers.go:690-956 | no request but its own unarchive changes an archived issue, its tasks or its comment texts; references at most become null |
| Archive.ToggleExact | backend/handlers.go:494-543 | archive and unarchive succeed exactly on a row in the other state and write status and stamp only |
| Archive.ArchiveToUnarchive | backend/handlers.go:494-543 | over every run between the two, the unarchive succeeds and gives the issue back as Done with everything else kept |
| Archive.StampMovesExactly | backend/db.go:1391-1445 | an archived issue is stamped, with the actor as updater, exactly by a request to delete its assignee whose actor exists, is not that user, and who is not the last active sysadmin; else its updater at most becomes null |
| Modal.NextKeepsInv | static/js/components/modal.js:145-221 | every step of client or server keeps the invariant, and so does opening an issue during any write, from a copy that matches the row with its stamp, unless the write brings a tag that is not safe beside it |
| Modal.AcceptedSaveLeavesRest | static/js/components/modal.js:469-536 | a save the server accepts leaves every field it did not set as the server had it, label and release cleared by a delete included; a title as the server cleans it |
| Modal.NoLostUpdate | static/js/components/modal.js:145-221 | the same for every accepted save of every run from a fresh page in which issues are opened so |
| Modal.TitleKeptExactly | backend/validation.go:154-155 | a save that does not set the title keeps it exactly if it has no white space at an end |
| ModalSaves.QueueIsRest | static/js/components/modal.js:503-536 | in every run the queue holds the saves and moves asked for and not started, in order, each save for the issue open when it was asked for |
| ModalSaves.StartTakes | static/js/components/modal.js:522-529 | a save whose turn comes while its issue is open is made from the shown copy, and is sent, or waits exactly while a revalidation is pending; otherwise it ends |
| ModalSaves.SaveStory | static/js/components/modal.js:469-536 | over every run: it stays in progress until its answer, the user's choice after a conflict or a lost connection, and the server takes its request exactly once, unless the connection is lost before |
| ModalSaves.SaveServed | static/js/components/modal.js:469-479 | the server handles that request, and its answer is the status and the row as it is then |
| ModalSaves.SaveGoesOn | static/js/components/modal.js:216-221 | in each of its states the next step can happen; once the revalidation is delivered the save is sent |
| ModalSaves.ContinueSends | static/js/components/modal.js:216-221 | it is sent with the modal's tag, or with one no issue has if its object is not shown any more |
| ModalSaves.BodyOfSave | static/js/components/modal.js:469-479 | the request has the fields the save sets and the copy's in all others |
| ModalSaves.AcceptedSaveWrites | static/js/components/modal.js:469-499 | an accepted save has written every field it sets, in its own issue alone |
| ModalSaves.RevalidationShows | static/js/components/modal.js:176-209 | what is shown after each outcome of a revalidation |
| ModalSaves.ClosedStaysClosed | static/js/components/modal.js:444-462 | over every run: after closing nothing is open until an issue is opened, reloaded or moved |
| ModalSaves.AnswerShows | static/js/components/modal.js:494-499 | after an accepted save its object shows the new row, with its tag |
| ModalSaves.ReloadShows | static/js/components/modal.js:480-489 | a reload shows the row it found |
| ModalSaves.MoveStep | static/js/components/modal.js:1081-1113 | a move goes on until the user gives it up or it succeeds, and then shows the moved issue |
| ModalLosses.SoundNeverLoses | static/js/components/modal.js:469-536 | from a state with the invariant no disciplined run ends in an accepted save that changes a field it does not set |
| ModalLosses.OpenBeforeAnswerExactly | static/js/components/modal.js:494-499 | while the answer of an accepted save is on its way, opening a copy that the user could save leads to a lost update exactly if its row carries the answer's stamp and the copy does not match it, which is what the discipline forbids |
| ModalLosses.OpenBeforeSaveExactly | static/js/components/modal.js:469-499 | while a save is on its way that the server then accepts, whatever it sets, opening a copy leads to a lost update exactly if the save makes the copy old |
| ModalLosses.OpenWhileSentExactly | static/js/components/modal.js:469-499 | over all orders in which that save, the revalidation and their answers can come, it does exactly if the discipline forbids it |
| ModalLosses.OpenBeforeIssueExactly | static/js/components/modal.js:480-489 | the same while a reload or a move brings an issue: exactly if the copy opened is up to date and the issue on its way is an older one that carries its stamp |
| ModalLosses.TagAlwaysSent | static/js/components/modal.js:216-221 | no save is sent without a tag |
| ModalLosses.ShownCardExactly | static/js/list-utils.js:54-81 | opening a card with its row's stamp leads to a lost update exactly if it does not match the row; for a card that shows a change before its PUT is answered, exactly if more than its position differs |
| ModalRuns.NoFalseConflict | static/js/components/modal.js:503-536 | in a session without another writer no save is answered with a conflict, however saves and moves are queued or refused |
| ModalRuns.MatchIsCalm | static/js/components/modal.js:164-200 | a revalidation that matches the row starts such a session |
| IssueModal.ModalState.OpenModal | static/js/components/modal.js:145-162 | the variables after opening an issue |
| IssueModal.ModalState.CloseModal | static/js/components/modal.js:444-462 | the variables after closing |
| IssueModal.ModalState.RevalidateIssue | static/js/components/modal.js:176-209 | each outcome of the revalidation: superseded, gone, matching, stale while editing, replaced |
| IssueModal.ModalState.EtagForSave | static/js/components/modal.js:216-221 | the tag of the open issue, or the stale tag if the object was replaced |
| IssueModal.ModalState.StartWrite | static/js/components/modal.js:522-529 | what the next queued write sends, or that it waits |
| IssueModal.ModalState.SaveAnswered | static/js/components/modal.js:469-536 | conflict, error and success of a save |
| IssueModal.ModalState.ReloadAnswered | static/js/components/modal.js:480-489 | the conflict dialog's reload |
| IssueModal.ModalState.MoveAnswered | static/js/components/modal.js:1083-1101 | the tag and the issue after a move |
| WriteChain.IssueSaveChain.EnqueueIssueWrite | static/js/components/modal.js:506-513 | the promise chain grows by a then and a catch |
| WriteChain.WritesInOrder | static/js/components/modal.js:503-513 | queued writes run one at a time, in the order enqueued, each at most once |
| WriteChain.NoWriteIsStuck | static/js/components/modal.js:503-513 | and past failures: while a write is missing, something can happen |
| WriteQueue.EnqueueMirrors | static/js/components/modal.js:506-513 | enqueueing appends to the modal's queue |
| WriteQueue.ReactMirrors | static/js/components/modal.js:506-513 | a promise that reacts starts the head of an idle modal's queue, or swallows a failure and changes nothing |
| WriteQueue.EndMirrors | static/js/components/modal.js:506-513 | a write that ends, however it ends, leaves the queue alone and the modal idle |
| WriteQueue.ChainSimulates | static/js/components/modal.js:503-536 | every run of the modal is a run of the promise chain, whichever writes throw: same writes started and ended, same queue, same running write |
| WriteQueue.ModalWritesInOrder | static/js/components/modal.js:503-536 | so in every run of the modal the saves and moves run one at a time, in the order enqueued, each at most once |
| WriteQueue.NextWriteStarts | static/js/components/modal.js:506-513 | an idle chain with waiting writes starts the next after at most two reactions |
| IssueLists.WantedIsRequested | static/js/issue-lists.js:58-74 | in every run exactly the lists asked for since the newest load or reset, but for those whose fetch has failed, have been requested |
| IssueLists.SettledIsLoadedNow | static/js/issue-lists.js:41-74 | for every interleaving: once the newest load and these lists have settled, the issues are the active issues it brought and what their fetches brought, each id once, and nothing of a superseded load |
| IssueLists.QuietIsSettled | static/js/issue-lists.js:58-74 | when nothing more can happen they have all been merged, also after a reset or a failed load |
| IssueLists.IssuesChange | static/js/issue-lists.js:27-51 | the issues change only with a response or a merge that is not superseded |
| IssueLists.ListFetchedOnce | static/js/issue-lists.js:58-74 | a list is fetched at most once per generation, not counting failed fetches |
| IssueLists.MergeContents | static/js/issue-lists.js:29-34 | a merge adds exactly the missing ids and prefers what is there |
| IssueLists.IssueLists.MergeIntoIssues | static/js/issue-lists.js:29-34 | the loop computes the merge |
| IssueLists.IssueLists.EnsureIssueLists | static/js/issue-lists.js:58-74 | joins or starts a promise for each kind |
| IssueLists.IssueLists.LoadIssues | static/js/issue-lists.js:40-51 | starts a new generation |
| IssueLists.IssueLists.ResetIssueLists | static/js/issue-lists.js:77-82 | forgets the lists |
| IssueLists.IssueLists.ActiveSettled | static/js/issue-lists.js:44-49 | active issues are taken from the newest generation only |
| IssueLists.IssueLists.BaseReady | static/js/issue-lists.js:63-67 | a list is merged after the active issues, unless superseded |
| IssueLists.IssueLists.ListFailedWith | static/js/issue-lists.js:67-70 | a failed list is forgotten unless replaced |
| Reorder.PutPositionsExact | backend/handlers.go:755-776 | the positions request succeeds exactly for an existing project, valid updates and reorderable issues, changes those positions alone, and otherwise nothing |
| Reorder.ReorderRefused | backend/db.go:578-582 | a reorder is refused, without a change, exactly for a missing project, more than 500 moved cards, or a moved card that is missing, archived or elsewhere |
| Reorder.ReorderReadsBack | static/js/list-utils.js:83-96 | after success, reading the list back gives the new order, however the server lists it, exactly if the positions sent and those the server kept increase along it |
| Reorder.AgreementReadsBack | static/js/list-utils.js:83-96 | they do if the server agrees on every position not sent |
| Reorder.ReorderReadsOtherwise | static/js/list-utils.js:83-96 | an accepted move to the top after which a reload shows another card first |
| Reorder.MoveReadsBack | static/js/list-utils.js:12-40 | after a successful move the server's list shows the moved card first or last and the others in their old order, however it is listed, exactly if the positions sent and those the server kept increase along that order |
| Reorder.SortsBackExactly | static/js/filters.js:95-105 | sorting by position gives a list back from every arrangement of it exactly if its positions increase |
| Reorder.UpdatesContents | static/js/list-utils.js:83-90 | updatePositions sends exactly the cards whose position is not their index |
| ListUtils.ApplyOrderChange | static/js/list-utils.js:98-107 | sets status and position and remembers both |
| ListUtils.UpdatePositions | static/js/list-utils.js:83-96 | one request, then every card has its index as position; after a refusal every card and the server are as before |
| ListUtils.SaveIssueOrder | static/js/list-utils.js:113-139 | status changes first, served in any order and each with its own stamp, then one positions request; any failure restores every issue |
| ListUtils.MoveTo | static/js/list-utils.js:12-40 | move to top and to bottom: the cards in the new order after one request, or as before; after a success the server's list reads as the moved list exactly if the positions increase along it |
| ListUtils.StaysExactly | static/js/list-utils.js:12-40 | no request is made exactly for a card that is at its end already |
| Sessions.AcceptedExactly | backend/auth.go:411-479 | a refresh is accepted exactly with the last secret issued for a session that has not expired and whose user is active |
| Sessions.IssuedTokenAccepted | backend/auth.go:411-479 | the token last issued is accepted while its session lives |
| Sessions.ReplayRevokesAll | backend/auth.go:435-449 | any other secret of an unexpired session deletes exactly the sessions of its user |
| Sessions.EarlierSecretRevokesAll | backend/auth.go:435-449 | in particular every secret issued earlier |
| Sessions.DeadForever | backend/db.go:1463-1549 | over every run, no token of a deleted session is accepted again |
| Sessions.NextKeepsInv | backend/auth.go:367-479 | every login, refresh, logout and other statement keeps: each session expects the last secret issued for it, and no secret is issued twice |
| SessionLife.LoginLives | backend/auth.go:367-405 | the token of a login is accepted for exactly 24 hours |
| SessionLife.RefreshLives | backend/auth.go:413-480 | so is that of a refresh, which changes only its session's secret and expiry |
| SessionLife.RefreshEnds | backend/auth.go:413-480 | a refused refresh ends exactly the session it names if that has expired or its user is not active |
| SessionLife.LogoutEnds | backend/handlers.go:1328-1349 | a logout ends exactly the session its token names |
| SessionLife.SweepInvisible | backend/db.go:1552-1560 | the sweep removes exactly the expired sessions, which no refresh accepts |
| Auth.CreateUserSession | backend/auth.go:365-393 | the method inserts the session and returns its token |
| Auth.RefreshSession | backend/auth.go:411-479 | the method, check by check, does what the specification does |
| SessionClient.ReuseNeverDetected | static/js/api.js:72-95 | in one tab, with no refresh response lost, the token presented never carries a rotated-away secret |
| SessionClient.ExecutedAtMost | static/js/api.js:97-130 | the server executes a request that is no read at most once, and a read at most twice |
| SessionClient.RefreshKeepsCookie | static/js/api.js:72-93 | a refresh with the latest token is answered with the latest token |
| SessionCalls.WaitingEnds | static/js/api.js:80-119 | a call that waits goes on waiting until the shared renewal settles, and is then replayed exactly if it brought a cookie |
| SessionCalls.WaitingIsAwaited | static/js/api.js:92-119 | in every run a renewal is in flight while a call waits |
| SessionCalls.UnauthorizedWaits | static/js/api.js:115-119 | the first 401 makes a call wait for the renewal in flight, or for one with the present cookie |
| SessionCalls.LiveSessionRenews | static/js/api.js:80-90 | a live session is renewed without a login |
| SessionCalls.RenewedCookie | static/js/api.js:80-90 | after a renewal the cookie is the latest token of a session of this tab |
| SessionCalls.DroppedWithExcuse | static/js/api.js:102-119 | in every run a call that ended unexecuted met a failed fetch, for a read its second, a failed renewal, or a 401 on its replay |
| SessionCalls.CallSteps | static/js/api.js:102-119 | a fetch that is not authorized gets a 401, any other answer ends the call, and a failed read is sent a second time |
| SessionCalls.ExecutionsCount | static/js/api.js:102-119 | the executions of a call are those the server authorized |
| ApiClient.Api.RenewSessionOnce | static/js/utils.js:258-263 | a call while a renewal is in flight shares it |
| ApiClient.Api.ResumeAll | static/js/api.js:115-119 | every call that waited is replayed or fails, and no other |
| ApiClient.Api.FetchAnswered | static/js/api.js:115-119 | a 401 asks for a renewal, except for the replay |
| ApiClient.Api.FetchFailed | static/js/api.js:105-113 | only a read is sent a second time |
| ApiClient.Api.RefreshAnswered | static/js/api.js:78-93 | the renewed cookie, or the wait for a login |

## Left out

- The order of the rows an `INSERT ... SELECT` adds: the source leaves it to the database engine; the model adds them by id.
- Modal.AcceptedSaveLeavesRest: says nothing about `position`, which a PUT takes from the copy and reorders change without a stamp.
- ModalLosses.OpenWhileSentExactly: does not decide opening an old copy of another issue with the tag's stamp while a save only takes off a label or a release; it is safe unless that is deleted before the server takes the save. `OpenBeforeSaveExactly` covers it once the server has.
- ModalRuns.NoFalseConflict: a session in which no answer is lost, nobody else stamps or deletes the issue, and the modal is not closed or opened again.
- SessionClient.ReuseNeverDetected: one tab; other tabs sharing the cookie, and the refresh on page loads (backend/auth.go:341-358), are not modelled, and no executed refresh or login loses its answer.
- IssueLists.SettledIsLoadedNow: every response lists an issue once, and only these functions change `state.issues`. The fetchers of static/js/api.js:164-192 answer an error with an empty list, so a failed fetch counts as a settled one there; the model has both outcomes.
- Database errors other than a missing row, a broken foreign key, a duplicate e-mail and the last sysadmin, and the failure of BEGIN and COMMIT.
- The failure counters of the login limiter (backend/ratelimit.go:118-199): the same windows and eviction with less arithmetic.
- If-Match lists and `*`: the code compares the whole header with one tag, so they only ever conflict.
- Roles, passwords and admin confirmations: a request that fails them changes nothing; a request of the model has passed them.
- Uniqueness and text of names, colours and descriptions of projects, labels, releases and users, and the per-project status names: independent of the properties here.
- History entries of ordinary edits and the last-login time: written after the change and never read by it.
- Time zones of deadlines: the model has instants in UTC, which is what the hash and the stored column use.
- Stamps are integers that strictly increase from one request to the next; an entity tag is its stamp, so the RFC 3339 text of a tag and the quotes around it are left out.
- bcrypt, HMAC, JWT and randomness: the MAC is taken as collision-free, session tokens and secrets as never drawn twice.
- The text forms netip prints and parses are parameters of ClientAddress.Config with the properties its Valid states.
- The busy counter of markBusy (static/js/utils.js:265-330) and the request guard of static/js/components/activity.js: the same ideas with less in them.
- Rendering, dialogs, drag events, cookies, HTTP and JSON: user interface and input/output.
