# Models of the database client

Dafny models of the algorithms and small protocols of a web database client, with
proofs of what they promise. Each module follows one part of the program: code that
computes values is written as functions, code that updates variables, fields or maps
step by step is written as methods and classes, and each such method is proved to
compute a specification function about which the properties are then proved.

`dafny verify dfyconfig.toml` checks everything.

## Map

| part of the program | modules |
|---|---|
| pending grid edits, compiled to a changeset and executed on a keyed table | Cells, KeyedTable, GridEdits, GridChangeset, GridCorrectness |
| SQL type text, parsed and printed | Text, SqlTypes, SqlTypeStripping, SqlTypePieces, SqlTypeRoundTrip |
| the live socket: refcounts, offline queue, resubscribing, backoff | LiveSocket, LiveSocketRuns |
| the live job list | Jobs |
| accounts, sessions and vault keys, interleaved at their awaits | Accounts, AccountSteps, AccountRuns, AccountKeys, AccountTraces |
| the Redis key tree and its rows | KeyTree, KeyTreeRows |
| the Redis scan | KeyScan, KeyScanRuns |
| editing a table draft | SchemaDraft, SchemaDraftRefs, SchemaDraftRuns, SchemaDraftChecks, SchemaValidation, SchemaCleanEdits |
| explaining an aggregation through a find | Aggregation, AggregationMeaning |
| the EXPLAIN tree | ExplainTree, ExplainVisible |
| copying cells as CSV and TSV | Csv |
| the lazy object tree | ObjectTree, ObjectTreeRows |
| the ER graph and its fallback layout | ErGraph, ErGraphFacts, GridLayout |
| numbers typed by hand | Numbers |
| shared vocabulary, the runtime's stable sort | Common, Sorting |

## How runs are modelled

Protocols are transition systems. A step function says what one uninterrupted piece of
the source does; a class with the source's fields has one method per piece, each proved
to perform that step function; a `Runs` module quantifies over every finite sequence of
possible steps. Anything the environment chooses (which socket event comes next, which
await resumes, a reply, a random id, the time) is a parameter of the step.

Where a promise needs something the code does not enforce, the theorem names it, the
guard is shown to be exact for one step wherever the table says "exactly", and a lemma
exhibits a run in which the promise fails without it.

## What turned out not to hold

- Giving a row the key of a row pending deletion makes the changeset roll back, because
  deletions run last (GridCorrectness.TakingAStruckKeyRollsBack). Giving it the key of a
  row that was never loaded is only stopped by the table (GridCorrectness.TakingAnUnloadedKey).
- A release sent straight over a socket that is open but not greeted is undone by the
  queued subscribe that is flushed afterwards (LiveSocketRuns.OvertakingLeavesAStaleSubscription).
- When an older socket closes, the client forgets the current one, whichever it is. The
  forgotten socket opens and is greeted all the same, and later releases do not reach it
  (LiveSocketRuns.AForgottenSocketKeepsASubscription). A socket is
  left behind exactly when an older one closes while it is open or opening
  (LiveSocketRuns.StepKeepsOneLive).
- An account registered between the read and the write of a password change is lost
  (AccountTraces.OvertakingLosesAnAccount). Of two overlapping password changes the one
  written first is undone (AccountTraces.OverlappedRewriteIsUndone). A vault unlocked with
  metadata read before a password change gets the key of the old password
  (AccountTraces.OutdatedUnlockStoresAnOldKey).
- After a job has left the list, a matching update can put a job ahead of newer ones that
  were left out (Jobs.MergeKeepsTheLeadIff, Jobs.ShortListPassesAJobOver).
- A sign-out between a sign-in's unlocking and its session leaves that session without a
  key (AccountTraces.RobbingStrandsASession).
- A load-more issued from a render older than the restart of the scan loses keys
  (KeyScanRuns.StaleLoadMoreLosesAKey).
- Renaming a column onto a name in use and on again moves the keys that named the other
  column (SchemaDraftChecks.RenamingThroughANameInUseMovesTheKey), and dropping a column
  can leave a key onto its own table naming it (SchemaDraftChecks.DropDanglesIffHalfPair),
  which validation does not see (SchemaCleanEdits.ValidationMissesHalfPairIff,
  SchemaCleanEdits.LoopedDropPassesAndDangles).
- A limit before a sort, a skip before a sort, or a limit before a skip is accepted by
  the find builder and means something else as a find; an empty sort, or one given as an
  array, is accepted too, and the server refuses it as a stage
  (AggregationMeaning.HonestIffEquivalent).
- The comment on `capped` says the oldest entries drop out first. Ids that look like
  array indices are listed first by the runtime whenever they were added, so in a full
  record a newly opened one is dropped at once (ObjectTree.OpeningAnIndexKeyWhenFull,
  ObjectTree.OpenedStaysIff). An id that every object has by inheritance, such as
  `constructor`, counts as open from the start, so neither setting nor toggling it opens it.
- A type text is not always left as it was by being parsed and printed: a blank argument,
  a tail behind an empty list, a modifier given twice before other words and brackets
  before a modifier are moved or lost (SqlTypeRoundTrip.EditorIsStableIff,
  SqlTypeRoundTrip.BlankArgumentIsLost).
- In a column without a declared type an integer that is no double is altered, such as
  every odd one beyond 2^53 (Numbers.DynamicIntegersAreRounded).

## Model

| member | source | states |
|---|---|---|
| GridEdits.EveryRunIsHonest | src/components/grid/edit-state.ts:65-123 | after any actions no recorded edit equals what the server sent, and no row is recorded without edits |
| GridEdits.ActionsWriteTheShownGrid | src/components/grid/edit-state.ts:65-138 | seen cell by cell the sparse overlay is a writable grid: one action changes exactly the cells it names, and typing back, reverting and resetting restore the server's value |
| GridChangeset.EditabilityOf | src/components/grid/edit-state.ts:184-223 | editable exactly when not vetoed, a target with key columns exists and every key column is in the result; the key positions then name those columns |
| GridChangeset.CollectNamed | src/components/grid/edit-state.ts:414-420 | values by column position become values by column name, positions without a column skipped |
| GridChangeset.KeyOf | src/components/grid/edit-state.ts:393-403 | the key of a row is read from the original row, and absent when the row is not loaded |
| GridChangeset.CollectUpdates | src/components/grid/edit-state.ts:405-424 | the update loop emits, in row order, the specified operations and problems |
| GridChangeset.CollectInserts | src/components/grid/edit-state.ts:426-440 | the insert loop emits one INSERT per added row with values and reports the empty ones |
| GridChangeset.CollectDeletes | src/components/grid/edit-state.ts:442-451 | the delete loop emits one DELETE per struck row still loaded and reports the others |
| GridChangeset.BuildChangeset | src/components/grid/edit-state.ts:379-463 | the draft is updates, then inserts, then deletes, with their counts and problems, or the reason why there is nothing to send |
| KeyedTable.UpdateHits | src/server/db/sql/changeset.ts:11-32 | once some other rows have been edited, an UPDATE addressed by a row's original key affects exactly one row if and only if none of those edited rows has taken that key |
| KeyedTable.DeleteByKey | src/server/db/sql/changeset.ts:11-32 | a DELETE addressed by a struck row's key affects exactly one row if and only if no surviving row bears that key, and then removes exactly that row |
| KeyedTable.ExecKeepsKeys | src/server/db/sql/changeset.ts:11-32 | whatever a transaction commits, an enforced key stays unique |
| GridCorrectness.ViewIsWhatTheGridPaints | src/components/grid/edit-state.ts:134-138 | the table called the view holds, cell by cell, what the grid shows |
| GridCorrectness.ChangesetYieldsTheView | src/components/grid/edit-state.ts:379-463 | for every overlay over loaded rows and whichever keys the table enforces, executing the changeset in one checked transaction commits exactly the view when no addressed key has been taken by then and no enforced key is given twice, and rolls back otherwise, however the table compares cells |
| GridCorrectness.EveryRunSendsRealEdits | src/components/grid/edit-state.ts:65-123 | after any run each edited row that is not struck through sends one UPDATE, none of whose values repeats the server's |
| GridCorrectness.KeysStayingOutCommit | src/components/grid/edit-state.ts:372-463 | when no surviving row bears another row's original key, or the final key of another survivor, the view is committed; of rows that are not loaded, and of other survivors, only enforced keys matter |
| GridCorrectness.CommittedViewKeepsKeys | src/components/grid/edit-state.ts:379-463 | a committed view bears every enforced key once |
| GridCorrectness.EnforcedKeysDecide | src/components/grid/edit-state.ts:372-463 | where every key is enforced the affected-rows check has nothing left to find: the transaction commits exactly when no key is taken at the moment it is written |
| GridCorrectness.TakingAnUnloadedKey | src/components/grid/edit-state.ts:379-463 | a concrete run that gives a row the key of a row never loaded: it rolls back exactly when that key is enforced, and otherwise commits two rows of one key |
| GridCorrectness.TakingAStruckKeyRollsBack | src/components/grid/edit-state.ts:442-451 | a concrete run in which taking the key of a row pending deletion rolls the transaction back, whatever is enforced |
| SqlTypes.MatchingParen | src/components/ddl/column-editor.tsx:203-223 | the index returned is that of the parenthesis closing the one given, literals and doubled quotes passed over, or none |
| SqlTypes.SplitArgs | src/components/ddl/column-editor.tsx:226-259 | splits at the commas outside literals and parentheses, trimming each piece |
| SqlTypes.ParseTypeRaw | src/components/ddl/column-editor.tsx:264-302 | the loop over brackets and the scanners together compute the specified parts |
| SqlTypeStripping.NameStrippedIff | src/components/ddl/column-editor.tsx:285-310 | modifiers printed behind any text are read off again, and the text is left as it was, exactly when what stripping takes out of the text, printed behind what it leaves, gives the text again and is printed anyway |
| SqlTypeStripping.TailStrippedIff | src/components/ddl/column-editor.tsx:285-310 | the same of what stands behind an argument list, where a printed `unsigned` comes first and shields any other |
| SqlTypeStripping.LackingIsSettled | src/components/ddl/column-editor.tsx:285-301 | so in the ordinary case: of any squeezed text with neither phrase in it |
| SqlTypePieces.ClosingParenFound | src/components/ddl/column-editor.tsx:203-223 | on printed arguments the scanner finds the printed closing parenthesis |
| SqlTypePieces.SplitInvertsJoinedArgs | src/components/ddl/column-editor.tsx:226-259 | splitting inverts joining well-formed arguments with commas |
| SqlTypePieces.SplitReads | src/components/ddl/column-editor.tsx:226-259 | whatever stands between matching parentheses is split into trimmed arguments with literals closed, parentheses balanced and no comma outside |
| SqlTypePieces.StripKeepsMarks | src/components/ddl/column-editor.tsx:285-301 | stripping takes away no parenthesis and no quote, wherever the phrases stood |
| SqlTypeRoundTrip.ParsedShape | src/components/ddl/column-editor.tsx:264-302 | of whatever text: the arguments read are such arguments, a name with arguments has no opening parenthesis, and one in any other name is never closed |
| SqlTypeRoundTrip.ParseInvertsCompose | src/components/ddl/column-editor.tsx:264-315 | for all parts, at the level of single characters: parsing what was composed gives the same parts exactly when they are well-formed |
| SqlTypeRoundTrip.EditorIsStableIff | src/components/ddl/column-editor.tsx:264-315 | for every text: parsing it, printing that and parsing again changes nothing exactly when no argument was blank, no tail stood behind an empty list, no modifier is left over that its copy does not make up for, and no brackets stood before the modifiers |
| SqlTypeRoundTrip.BlankArgumentIsLost | src/components/ddl/column-editor.tsx:226-315 | a text with a blank argument, whose parts change when it is printed and parsed again |
| LiveSocket.WsClient.Ensure | src/lib/ws-client.ts:35-80 | opens a socket exactly when none is open or opening and no connect is under way |
| LiveSocket.WsClient.Send | src/lib/ws-client.ts:82-86 | goes out when the socket is open and is queued otherwise |
| LiveSocket.WsClient.Subscribe | src/lib/ws-client.ts:95-102 | counts the handle and speaks only for the first |
| LiveSocket.WsClient.Release | src/lib/ws-client.ts:103-112 | uncounts the handle and speaks only for the last |
| LiveSocket.WsClient.OnOpen | src/lib/ws-client.ts:47-52 | ends connecting and resets the backoff |
| LiveSocket.WsClient.OnReady | src/lib/ws-client.ts:61-67 | resubscribes everything in use, then flushes the queue in order |
| LiveSocket.WsClient.OnClose | src/lib/ws-client.ts:71-78 | forgets the socket and doubles the backoff up to the cap |
| LiveSocketRuns.GreetingIsExact | src/lib/ws-client.ts:61-67 | greeting brings the hub to exactly the keys in use if and only if the last queued word about each key was right |
| LiveSocketRuns.StepKeepsInv | src/lib/ws-client.ts:35-113 | one step keeps the whole invariant exactly when it does not speak about a key past an older queued word |
| LiveSocketRuns.EveryRunStaysInStep | src/lib/ws-client.ts:26-118 | in every such run counts are the outstanding handles, `subs` has the same keys, and the current socket, when open and greeted, is subscribed at the hub to exactly those |
| LiveSocketRuns.StepKeepsOneLive | src/lib/ws-client.ts:35-80 | nothing but the current socket is open or opening, and one step keeps it so exactly unless an older socket closes while the current one is open or opening |
| LiveSocketRuns.EverySocketStaysInStep | src/lib/ws-client.ts:26-118 | in every run without such a close, every socket that is open and greeted is subscribed at the hub to exactly the keys in use, and nothing is queued |
| LiveSocketRuns.StepLosesTouchIff | src/lib/ws-client.ts:35-113 | with or without such closes, a step that does not overtake makes some open greeted socket disagree with `subs` exactly when it speaks while another greeted socket is open, or greets a socket holding a key no longer in use |
| LiveSocketRuns.AForgottenSocketKeepsASubscription | src/lib/ws-client.ts:71-78 | a run of twelve steps, none of them overtaking, after which a forgotten socket is open, greeted and subscribed to a key nobody uses |
| LiveSocketRuns.DeliverAllByKey | src/server/ws/hub.ts:152-167 | what the hub holds for a key after a queue of messages is what the last message about it asked for |
| LiveSocketRuns.OvertakingLeavesAStaleSubscription | src/lib/ws-client.ts:61-113 | a concrete run in which a release before the greeting leaves the hub subscribed to a key nobody uses |
| LiveSocketRuns.BackoffDoublesToTheCap | src/lib/ws-client.ts:71-77 | after n failures the pause is 500 ms times two to the n, at most 15 s |
| LiveSocketRuns.CloseAdvancesTheBackoff | src/lib/ws-client.ts:47-77 | a close moves the pause one failure on, an open takes it back to none |
| Jobs.SortSorts | src/hooks/use-jobs.ts:87-89 | sorting puts newest first and keeps each job once |
| Sorting.SortIsStable | src/hooks/use-jobs.ts:87-89 | elements the comparator does not tell apart keep their order |
| Jobs.MergeMaintainsTheView | src/hooks/use-jobs.ts:100-109 | merging an update into the top of the matching jobs gives the top of the updated ones, exactly unless a shown job falls behind one that was left out |
| Jobs.ForwardUpdatesMaintainTheView | src/hooks/use-jobs.ts:100-109 | an update that does not move a job back in time maintains the view |
| Jobs.StreamsMaintainTheView | src/hooks/use-jobs.ts:100-109 | so does any stream of such updates |
| Jobs.RemovalKeepsAllButTheCap | src/hooks/use-jobs.ts:100-106 | a job that stops matching leaves order, identity and dominance intact, and makes a full list short exactly when something had been left out |
| Jobs.MergeKeepsTheLeadIff | src/hooks/use-jobs.ts:100-109 | of a list that may be short: any update keeps it sorted, up to date and ahead of everything left out, exactly unless a matching job that is shown or finds room is older than one left out |
| Jobs.StreamsKeepTheLeadIff | src/hooks/use-jobs.ts:100-109 | over any stream of updates, matching or not, the list leads throughout exactly when no update is so outranked |
| Jobs.MergeAgreesWithRecomputing | src/hooks/use-jobs.ts:87-109 | where no two jobs are of one age the merged list is the list recomputed from all jobs |
| Jobs.ShortListPassesAJobOver | src/hooks/use-jobs.ts:100-109 | a list of two: one of its jobs stops matching, an older job than one left out comes in, and is shown before it |
| Accounts.AccountServer.RegisterBegin | src/server/account.ts:280-299 | up to its await: the input checks, the first look for the name, and what the suspended call holds |
| Accounts.AccountServer.StoreVault | src/server/vault.ts:96-110 | after its await `initialize` writes the vault file and stores the key |
| Accounts.AccountServer.RegisterEnd | src/server/account.ts:303-317 | the second look for the name, then the write and the session, or the vault locked again |
| Accounts.AccountServer.SignInCheck | src/server/account.ts:320-343 | a wrong or unknown account is refused, a missing vault too, and otherwise unlocking begins |
| Accounts.AccountServer.Unlock | src/server/vault.ts:112-129 | the key is stored exactly when it opens the check value |
| Accounts.AccountServer.SignInEnd | src/server/account.ts:340-347 | a session is made exactly when the vault was unlocked |
| Accounts.AccountServer.SignOut | src/server/account.ts:355-363 | the session goes, and the key with it exactly when it was the user's last |
| Accounts.AccountServer.SessionFromCookie | src/server/account.ts:225-236 | an idle session is dropped, any other is touched; keys stay |
| Accounts.AccountServer.RewriteBegin | src/server/account.ts:371-376 | `updateVerifier` reads the whole file and holds it across its await |
| Accounts.AccountServer.RewriteEnd | src/server/account.ts:376-379 | and writes that copy back with one verifier replaced |
| Accounts.AccountServer.ChangeBegin | src/app/api/lib/vault-actions.ts:84-98 | up to the first await: the checks, and the vault file as it is read |
| Accounts.AccountServer.ChangeConfirm | src/server/vault.ts:112-129 | the current password is checked against the file as read, and its key stored when it fits |
| Accounts.AccountServer.ChangeResume | src/server/vault.ts:160-164 | goes on only with a key in the map, and reads the vault file again for its salt |
| Accounts.AccountServer.ChangeEnd | src/server/vault.ts:165-184 | writes the vault file and stores the key, both of the new password |
| Accounts.FoundIffTaken | src/server/account.ts:169-172 | a user is found exactly when the name is taken, regardless of case |
| AccountRuns.UsernamesAreAlwaysUnique | src/server/account.ts:280-379 | in every interleaving no two accounts of the file answer to one username |
| AccountRuns.RewriteRestoresItsCopy | src/server/account.ts:371-379 | a password change leaves exactly the accounts written before its read, so it loses some exactly when one was written since |
| AccountRuns.StepKeepsIntact | src/server/account.ts:303-379 | one step loses no written account exactly when it is not such a late write |
| AccountRuns.NoAccountDisappears | src/server/account.ts:280-379 | in every interleaving without one, every account once written stays, with its name |
| AccountTraces.OvertakingLosesAnAccount | src/server/account.ts:303-379 | a run from the empty server in which a signed-in user's account is lost |
| AccountRuns.RewriteKeepsOthersIff | src/server/account.ts:371-379 | a password change in time to lose no account leaves every other user whole exactly when no other user's password change was written since its read |
| AccountRuns.StepKeepsVerifiers | src/server/account.ts:280-379 | one step that writes no copy back late leaves every verifier alone but that of its own password change |
| AccountRuns.NoPasswordChangeIsUndone | src/server/account.ts:280-379 | at any point of any run without such a late write, the next step leaves all other verifiers alone exactly when it is not one itself |
| AccountTraces.OverlappedRewriteIsUndone | src/server/account.ts:371-379 | whatever the server holds, of two overlapping password changes the one written first is undone |
| AccountKeys.StepKeepsKeys | src/server/account.ts:216-363 | one step keeps every session and every finished unlocking keyed, exactly when it is not a last sign-out falling between an unlocking and its session |
| AccountKeys.EverySessionHasItsKey | src/server/account.ts:216-363 | in every interleaving without one each session's user has a key, across sign-up, sign-in, expiry, sign-out and password changes; it is the key that opens their vault while no key is stored for a vault file rewritten since it was read |
| AccountKeys.StepKeepsGenuineIff | src/server/vault.ts:96-185 | one step keeps every key the one that opens its vault exactly when it does not store a key for a vault file that was rewritten under another since it was read |
| AccountKeys.RobbedSignInIsStranded | src/server/account.ts:340-363 | a sign-in so robbed ends with a session whose user has no key |
| AccountTraces.RobbingStrandsASession | src/server/account.ts:320-363 | a run from the empty server in which that happens |
| AccountTraces.OutdatedUnlockStoresAnOldKey | src/server/vault.ts:112-185 | a run from the empty server in which a sign-in that read the vault file before a password change stores the key of the old password |
| KeyTree.BuildTree | src/components/redis/keyspace-browser.tsx:486-505 | every node of the mutable tree holds its label, the path joined from the root, the number of keys beneath it, its folders in order of appearance and its own keys |
| KeyTree.AddKey | src/components/redis/keyspace-browser.tsx:488-504 | one key's walk down from the root updates exactly the nodes on its way |
| KeyTree.OpenFolder | src/components/redis/keyspace-browser.tsx:492-501 | a missing folder is added once, with its path, and an existing one is found |
| KeyTree.FlattenTree | src/components/redis/keyspace-browser.tsx:511-526 | the recursion over the heap pushes exactly the specified rows |
| KeyTreeRows.ShowsExactlyTheOpenKeys | src/components/redis/keyspace-browser.tsx:486-526 | the key rows are exactly the keys all of whose folders are open, each as often as it was listed |
| KeyTreeRows.CountIsKeysBeneath | src/components/redis/keyspace-browser.tsx:498-502 | a folder's count is the number of keys it shows when everything in it is open |
| KeyTreeRows.ShowsReachedFoldersOnce | src/components/redis/keyspace-browser.tsx:511-526 | each folder with keys has one row when every folder above it is open and none otherwise |
| KeyTreeRows.FolderRowsAreTrue | src/components/redis/keyspace-browser.tsx:511-526 | a folder row shows the path, label, depth and count of a folder that can be reached |
| KeyTreeRows.PathsTellFoldersApart | src/components/redis/keyspace-browser.tsx:493-496 | two folders never have the same path |
| KeyTreeRows.RowsSpellTheKeys | src/components/redis/keyspace-browser.tsx:486-526 | reading the rows by indentation, the labels in force and the row's own rejoin to each folder's path and each key |
| KeyTreeRows.TreeSpellsItsKeys | src/components/redis/keyspace-browser.tsx:486-526 | so of the whole tree read from the top |
| KeyScan.KeyScanner.Restart | src/components/redis/keyspace-browser.tsx:204-216 | a restart begins a new run with nothing seen and asks for its first page |
| KeyScan.KeyScanner.LoadMore | src/components/redis/keyspace-browser.tsx:218-230 | decided by the drawn state, bounded by twenty automatic pages |
| KeyScan.KeyScanner.Reply | src/components/redis/keyspace-browser.tsx:176-189 | a page of an older run is discarded, a current one adds its unseen keys |
| KeyScan.KeyScanner.Fail | src/components/redis/keyspace-browser.tsx:190-197 | a failure of the current run ends it, an older one is ignored |
| KeyScanRuns.ShownIsTheUnion | src/components/redis/keyspace-browser.tsx:181-187 | collecting pages shows each of their keys once |
| KeyScanRuns.StepKeepsInv | src/components/redis/keyspace-browser.tsx:165-230 | one step keeps the invariant exactly when it does not launch a load-more while a page is on its way |
| KeyScanRuns.EveryRunShowsItsPages | src/components/redis/keyspace-browser.tsx:165-230 | in every such interleaving the shown keys have no duplicates, equal the seen set and the union of the current run's pages, and `loading` holds exactly while one current page is on its way |
| KeyScanRuns.StepContinuesIff | src/components/redis/keyspace-browser.tsx:165-230 | one step also keeps the page on its way at the cursor of the run exactly when it is not a load-more from a render the scan has moved on from |
| KeyScanRuns.EveryPageContinuesItsRun | src/components/redis/keyspace-browser.tsx:165-230 | in every interleaving without one the page on its way is the run's first, or starts at the cursor of the last page accepted |
| KeyScanRuns.LatestRenderIsNotStale | src/components/redis/keyspace-browser.tsx:218-230 | a handler of the latest render is never such a load-more |
| KeyScanRuns.AutoPagesAreBounded | src/components/redis/keyspace-browser.tsx:140-230 | between two explicit actions at most twenty pages are fetched automatically, stale renders or not |
| KeyScanRuns.EveryStretchIsBounded | src/components/redis/keyspace-browser.tsx:140-230 | at any point of any run, whatever stretch follows without an explicit action fetches at most twenty pages |
| KeyScanRuns.StaleLoadMoreLosesAKey | src/components/redis/keyspace-browser.tsx:199-230 | a run in which a stale load-more leaves a key seen and never shown |
| SchemaDraft.MoveBack | src/components/ddl/column-editor.tsx:504-510 | moving back undoes a move |
| SchemaDraft.MoveKeepsTheColumns | src/components/ddl/column-editor.tsx:504-510 | a move keeps every column once |
| SchemaDraft.PairsStayTogether | src/components/ddl/table-editor.tsx:186-200 | dropping a column removes its foreign-key pairs and keeps every other pair together, in order |
| SchemaDraftRefs.RenameRefines | src/components/ddl/table-editor.tsx:158-178 | renaming by name does to the draft what renaming the column does to references by identity, namely nothing |
| SchemaDraftRefs.RemoveRefines | src/components/ddl/table-editor.tsx:180-202 | dropping by name does what dropping by identity does |
| SchemaDraftRuns.RenameKeepsSoundIff | src/components/ddl/table-editor.tsx:158-178 | a rename leaves every name meaning what it meant exactly when the new name is the old one, or neither a column nor a reference bore it |
| SchemaDraftRuns.StepRefines | src/components/ddl/table-editor.tsx:158-260 | each edit by name does what the edit by identity does, whatever the step, and the names stay sound exactly when the step was allowed |
| SchemaDraftRuns.SessionsKeepTargets | src/components/ddl/table-editor.tsx:158-260 | over any session of renames, drops and moves the names in the draft go on saying which columns were meant at the start exactly while every rename is to a name that no column and no reference bears; they are then the names the source arrives at |
| SchemaDraftChecks.SessionsKeepLocalNames | src/components/ddl/table-editor.tsx:158-260 | over any session whatever, key, index and local foreign-key names always name columns |
| SchemaDraftChecks.DropDanglesIffHalfPair | src/components/ddl/table-editor.tsx:180-202 | a drop leaves a name dangling on the referenced side of a key onto its own table exactly when a pair survives that refers to the dropped column |
| SchemaDraftChecks.RenameBackIsIdentity | src/components/ddl/column-editor.tsx:465-470 | a rename and its inverse give the draft back exactly when nothing else bore the new name and positions were in order |
| SchemaDraftChecks.RenamingThroughANameInUseMovesTheKey | src/components/ddl/column-editor.tsx:465-470 | a draft in which a rename through a name in use moves the primary key to another column |
| SchemaValidation.ValidateTable | src/components/ddl/table-editor.tsx:87-151 | the loops with their sets of names produce the listing, in its order and with its repetitions; it holds exactly the problems of the draft and is empty exactly for a clean one |
| SchemaValidation.ListedIff | src/components/ddl/table-editor.tsx:87-151 | a problem is listed exactly when the draft has it, each problem being defined on the draft and not by the pass |
| SchemaValidation.NoProblemIffClean | src/components/ddl/table-editor.tsx:87-151 | no problem is found exactly when everything is named, typed, told apart and paired and every local reference resolves; the referenced side of a key need only not be blank |
| SchemaCleanEdits.EditStaysCleanIff | src/components/ddl/table-editor.tsx:87-260 | after an edit of a draft that passes, it passes again exactly when a rename is to a name that is not blank and that no other column has, case aside, and a drop is not of the last column; a move always passes |
| SchemaCleanEdits.ValidationMissesHalfPairIff | src/components/ddl/table-editor.tsx:87-202 | from a draft that passes and in which all names of its own columns resolve, a drop leads to one that passes while a name dangles exactly when a pair keeps its local column and loses the column it refers to |
| SchemaCleanEdits.LoopedDropPassesAndDangles | src/components/ddl/table-editor.tsx:87-202 | a draft of two columns with a key from one to the other: dropping the second passes validation and leaves its name dangling |
| Aggregation.FindEquivalent | src/components/mongo/aggregation-builder.tsx:121-159 | the loop's variables are those of the covered stages |
| Aggregation.CoveredIsLongest | src/components/mongo/aggregation-builder.tsx:134-157 | the covered stages are the longest acceptable front: each is accepted and the next is not |
| Aggregation.BuildPipeline | src/components/mongo/aggregation-builder.tsx:98-115 | every enabled stage that parses is sent in order, and exactly the others are reported |
| Aggregation.CoveredIsSentFirst | src/components/mongo/aggregation-builder.tsx:98-159 | what is covered is the front of what is sent |
| AggregationMeaning.PipelineIsSummary | src/components/mongo/aggregation-builder.tsx:134-157 | what the covered stages compute depends only on their arguments and three order questions, or they are refused over their sort or their numbers |
| AggregationMeaning.HonestIffEquivalent | src/components/mongo/aggregation-builder.tsx:117-159 | the find returns what the stages return for every filter, order and collection exactly when the sort is an object with a key, the numbers are valid, no limit and no real skip precedes a sort, and the number let through is the same |
| AggregationMeaning.FindEquivalentIsHonestIff | src/components/mongo/aggregation-builder.tsx:117-159 | the same of whatever the builder covers |
| AggregationMeaning.LimitBeforeSortIsTold | src/components/mongo/aggregation-builder.tsx:147-150 | a limit before a sort is always told apart by some collection |
| AggregationMeaning.LimitIsTold | src/components/mongo/aggregation-builder.tsx:145-150 | a limit before a skip, or one beyond 10 000, is told apart by some collection unless the number let through happens to agree |
| ExplainTree.Flatten | src/components/power/explain-view.tsx:358-366 | the recursion pushes the preorder rows with their path ids |
| ExplainTree.EstimateRatio | src/components/power/explain-view.tsx:373-378 | a factor of at least one, exactly when both numbers are there |
| ExplainTree.IdsAreDistinct | src/components/power/explain-view.tsx:358-366 | no two rows share an id |
| ExplainVisible.VisibleRows | src/components/power/explain-view.tsx:75-86 | the loop computes the one-pass specification |
| ExplainVisible.OnePassIsTheWalk | src/components/power/explain-view.tsx:75-86 | for every tree and collapse set the one pass with its hidden ids shows the recursive walk that skips the children of collapsed nodes |
| ExplainVisible.VisibleIffOpenAbove | src/components/power/explain-view.tsx:75-86 | a node is visible exactly when no node above it is collapsed |
| ExplainVisible.Reveal | src/components/power/explain-view.tsx:105-113 | expands exactly the node and everything above it |
| ExplainVisible.RevealedIsVisible | src/components/power/explain-view.tsx:105-113 | after revealing a node its row is visible, whatever was collapsed |
| ExplainVisible.Worst | src/components/power/explain-view.tsx:66-73 | the first row with the largest ratio of at least three, or none when there is no such ratio |
| Csv.RangeOf | src/components/grid/data-grid.tsx:134-141 | the range holds anchor and focus, whichever way they lie |
| Csv.CopyAs | src/components/grid/data-grid.tsx:499-573 | the loop builds the specified payload of header and rows |
| Csv.SplitJoinDoubles | src/components/grid/data-grid.tsx:173-179 | splitting at quotes and joining with two doubles every quote |
| Csv.PayloadReads | src/components/grid/data-grid.tsx:173-179 | a reader of section 2 of RFC 4180 recovers every cell, for comma and tab |
| Csv.CopyReadsBack | src/components/grid/data-grid.tsx:499-573 | whatever is selected, in each format, the payload reads back as the header and the selected texts |
| Csv.EndedReadsBackIff | src/components/grid/data-grid.tsx:564-573 | a reader that takes a final line break as an ending loses the last record exactly when it is one empty cell behind another record |
| ObjectTree.ChildPath | src/hooks/use-tree.ts:39-51 | a child's path is its id exactly when the id extends the parent's |
| ObjectTree.Cap | src/hooks/use-tree.ts:132-138 | copying the last 400 entries lists them in the same order |
| ObjectTree.TreeExpansionStore.SetOpen | src/hooks/use-tree.ts:143-154 | opens or closes one path of one connection and leaves the others alone, and does nothing where `in` finds it done, as for an inherited name |
| ObjectTree.TreeExpansionStore.Toggle | src/hooks/use-tree.ts:156-159 | sets a path open exactly when `in` did not find it |
| ObjectTree.TreeExpansionStore.Reveal | src/hooks/use-tree.ts:161-172 | puts every proper ancestor, then caps |
| ObjectTree.RevealOpensAncestors | src/hooks/use-tree.ts:132-172 | an ancestor stays open exactly when it is among the last 400 listed, so always when there are no more |
| ObjectTree.OpenedStaysIff | src/hooks/use-tree.ts:131-154 | a newly opened path stays open exactly when its id is not a name every object inherits, and there is room or the id is not listed before the first one there; in a full record it otherwise pushes out that first one and nothing else |
| ObjectTree.OpeningAnIndexKeyWhenFull | src/hooks/use-tree.ts:131-154 | so an id that looks like an array index is dropped at once from a full record without such ids |
| ObjectTreeRows.RequestLevels | src/hooks/use-tree.ts:236-251 | the loop with its early exit asks for the specified levels in the comparator's order |
| ObjectTreeRows.RequestedHas | src/hooks/use-tree.ts:236-251 | asked for are the root and exactly the remembered levels all of whose ancestors are open |
| ObjectTreeRows.RequestedShallowFirst | src/hooks/use-tree.ts:248-249 | levels are asked for shallow first, so behind the levels they lie in, and those of one depth in the order of their ids |
| ObjectTreeRows.Flatten | src/hooks/use-tree.ts:358-374 | the recursion pushes the specified rows, and ends for every set of levels |
| ObjectTreeRows.EveryRowSpellsItsId | src/hooks/use-tree.ts:39-374 | where ids extend their parents', a row's segments spell its id, it lies within the depth bound and everything above it is open |
| ObjectTreeRows.DescendedIsRequested | src/hooks/use-tree.ts:236-374 | every level the walk enters was asked for, given that what was remembered for an id is the path to its row |
| ErGraph.CollectReferenced | src/components/power/er-diagram.tsx:245-250 | a column is listed for a node exactly when some edge refers to it there |
| ErGraph.CollectNeighbours | src/components/power/er-diagram.tsx:261-264 | the nodes one edge from a match that do not match themselves |
| ErGraph.CountDegrees | src/components/power/er-diagram.tsx:271-275 | the number of edge ends at each node |
| ErGraph.KeyColumnsAlwaysShown | src/components/power/er-diagram.tsx:291-333 | outside the mode without columns every primary, foreign, unique or referenced column is shown, whatever the limit cuts |
| ErGraph.LimitHolds | src/components/power/er-diagram.tsx:321-333 | at most 30 columns are shown unless all of them are keys |
| ErGraph.BuildGraph | src/components/power/er-diagram.tsx:197-289 | the loops over candidates, keys, references, matches and degrees compute the specified graph |
| ErGraphFacts.EdgesJoinDrawnNodes | src/components/power/er-diagram.tsx:287-288 | the edges drawn are exactly the edges both of whose ends are drawn |
| ErGraphFacts.CapKeepsTheBestConnected | src/components/power/er-diagram.tsx:267-280 | at most 300 nodes, all unless there are more, and none dropped has more edges than one drawn |
| ErGraphFacts.FilterKeepsMatchesAndNeighbours | src/components/power/er-diagram.tsx:252-266 | a filter keeps exactly the matches and what they touch |
| ErGraphFacts.EveryEdgeIsAnchored | src/components/power/er-diagram.tsx:197-350 | each edge finds its first pair of columns shown at its two ends, given keys that name columns and distinct node ids |
| GridLayout.Layout | src/components/power/er-diagram.tsx:423-440 | every node is placed; boxes of one row are at least 70 apart sideways and boxes of different rows at least 60 apart downwards |
| GridLayout.ApartDoNotOverlap | src/components/power/er-diagram.tsx:423-440 | so no two boxes overlap |
| Numbers.IntegerTextIsNumber | src/components/grid/edit-state.ts:245-246 | integer text is numeric text and denotes its integer |
| Numbers.ParamIntegersAreKept | src/components/editor/params-bar.tsx:42-54 | an integer parameter is never altered: it travels as that number exactly below 2^53 and as its own text otherwise |
| Numbers.CellIntegersAreKept | src/components/grid/edit-state.ts:312-348 | the same of integer text over an untagged cell of an integer column, or it is refused: exactly from half way beyond the largest double on |
| Numbers.DynamicIntegersAreRounded | src/components/grid/edit-state.ts:325-330 | in a column without a type an integer is kept exactly when it is a double, that is 53 bits shifted and in range: always up to 2^53, never when odd beyond |

## Left out

- KeyTree.AddKey: the inner loop's body, its making of a folder, the increment of a count and the push of a key are methods of their own.
- GridLayout.Layout: the placing loop is a method of its own.
- KeyTree.FlattenTree: `out` is passed along as a value and not shared; the body of the loop is a method of its own.
- AccountKeys.EverySessionHasItsKey: does not cover locking a vault by request, the fixed test account, or the secrets that a password change encrypts again.
- ErGraphFacts.EveryEdgeIsAnchored: assumes candidates with distinct ids and foreign keys that name existing columns, which the code does not check.
- ObjectTreeRows.DescendedIsRequested: assumes that the remembered path of an id is the path to its row, which the code does not check.
- GridCorrectness.ChangesetYieldsTheView: assumes loaded rows that carry every result column, distinct column names and distinct keys; columns the server computes or refuses to write, and constraints other than the key that addresses rows, are not modelled.
- SchemaDraftRuns.SessionsKeepTargets: assumes distinct column names and keys whose referenced side is not shorter than the local one; adding a column, toggling a column of the primary key, renaming the table and editing indexes or keys directly are not steps.
- SchemaDraftChecks.DropDanglesIffHalfPair: assumes distinct column names, keys whose referenced side is not shorter than the local one, and no name that dangles already.
- KeyScanRuns.EveryRunShowsItsPages: a handler acts on the state of one earlier render; several renders in flight at once are not modelled.
- ObjectTree.TreeExpansionStore.Reveal: the id `__proto__`, whose assignment adds no entry, is treated like any other.
- AggregationMeaning.HonestIffEquivalent: a sort whose directions the server refuses both as a stage and in a find does not occur.
- Rendering, hooks plumbing, virtual lists, drag and drop, the clipboard and toasts.
- HTTP and WebSocket transport, timers, storage and process start-up: only the events they deliver appear, as steps.
- Password hashing and encryption are symbolic, random ids are fresh choices, and the accounts file is one value replaced at once.
- The migration of a single-user accounts file, cookie parsing, and listing or deleting accounts.
- The SQL lexer, formatter, differ, DDL generator and connectors, but for the affected-rows contract of a changeset and the hub's handling of subscriptions.
- JSON text: parsing is a parameter and printing a filter or a sort back is not modelled; numerals too large for a double do not occur.
- The server's implicit `_id` sort and default page size in a find.
- Lower-casing and collation outside ASCII are parameters; sorting by collation is any stable sort.
- Column details that no modelled decision reads: type descriptors, comments, character sets, check names' use, box widths from text.
- The other copy formats (JSON, Markdown, INSERT, UPDATE) and the text of a cell.
- The layered layout computed by ELK, which replaces the grid layout when it succeeds.
- Decimal text: only that it is kept as text unless printing its double gives the same text.
