# Sybr HUB: proofs about its protocols, state machines and scanners

A Dafny model of the parts of Sybr HUB that are hand-written protocols, with proofs of what they
keep over every run. `dafny verify dfyconfig.toml` checks all of it.

| Files | What they model |
|---|---|
| `PoolState`, `PoolCounts`, `PoolWorld`, `PoolTheorems`, `Database` | The SQLite connection pool: one pool to an event loop, slots, lending, the registry of started workers, sweeping orphans, and teardown of running, parked and closed loops. Every `await` is a point where anything else may happen. `Database` has the same operations as methods on mutable objects, each proved to be one step (or one named series of steps) of the transition system. |
| `Migrations`, `Remediation` | The schema migration runner with any number of processes that fail or crash anywhere, and the migration that moves rows to new ids under a UNIQUE constraint, UPDATE by UPDATE. |
| `Rotation`, `RotationDuplicates`, `Auth` | Refresh-token rotation, as the steps of any number of concurrent requests and as methods on one store. |
| `Scanner`, `JavaScript`, `I18nRewrite` | The scanner that finds a position's enclosing quote in JavaScript, what that means in a syntax tree, and the rewrite that splices translation calls into strings. |
| `MasterKey`, `MasterKeyRuns`, `Encryption` | The recovery chain of the master key over an operator's key, a keyring and backup files, with crashes between any two writes. |
| `Mfa`, `MfaRuns` | One-time codes (section 5.3 of RFC 4226, section 5.2 of RFC 6238), recovery codes and the lockout. |
| `Redact` | Redaction as string rewriting. |
| `JobState` | The per-user, recency-bounded map from a browser tab to an audit run. |
| `PolicyPlan` | The dependency closure of a policy plan, and savers who race for a revision. |
| `Retry` | The retry loop that tells "cannot have been processed" from "may have been". |
| `RmmMatching` | Matching of a customer's devices to an RMM's, by host name, by MAC, and one claim each. |

`Options` holds the optional value and `Text` the stripping of white space. Code that updates state is
a class whose methods are proved against a function of the old state; the theorems are about those
functions and about runs of them. What the functions themselves answer is stated beside them in terms
of the state alone.

What is taken as given: a worker told to stop ends by itself, and a `close` that has returned or been
cancelled has told it; a database transaction is
atomic and `BEGIN IMMEDIATE` admits one writer; SHA-256 is injective and freshly drawn tokens, ids and
recovery codes are distinct; a wrapped key opens under exactly the secret, or on exactly the host, it
was wrapped for; a file is replaced atomically; `flock` is given back when its holder dies.

## What the proofs found

- A rollback that is *cancelled* in the pool's `release` frees its slot but leaves the connection live
  and neither idle nor lent (app/core/database.py:1073-1082: `CancelledError` is not an `Exception`).
  The bound "live plus opening connections never exceed the pool's size" is therefore false after it:
  `PoolTheorems.CancelledRollbackOverflows` gives the run, `PoolCounts.BoundedExactlyWithoutLeaks`
  says that an open pool stays within its size, whatever ordinary operations follow, if and only if
  nothing was leaked so, and `PoolState.OnlyCancelledRollbacksLeak` that nothing else leaks.
- An import of a master key that the keyring did not take is undone by the next start that can read
  the keyring, which rewrites every backup with the old key (app/core/encryption.py:383-388, 634-639).
  `Encryption.AStaleKeyringUndoesAnImport` gives the run and `Encryption.WhenTheImportedKeyComesBack`
  the exact condition.
- The lockout's bound needs no assumption about the order of clock readings: `verify` reads the clock
  before it waits for the write lock (app/core/mfa.py:94-98), and the bound holds all the same.
- A known secret can survive redaction, put together from the text and an inserted mask: exactly the
  secrets without a long run that touch the mask can, `Redact.WhatCanSurvive`, and
  `Redact.ASecretWithAsterisksCanSurvive` is one case.
- A refresh cancelled inside its commit after the row was written (app/core/auth.py:577) changes the
  stored hash with no "rotated" answer, so the browser keeps a retired token, which never rotates again
  in any run: `Rotation.OnlyRotationChangesTheHash` and `Auth.ALostCommitCostsTheToken`.
  `Auth.ALostCommitChangesTheHash` and `Auth.ALostCommitSignsTheUserOut` give a run of it.
- `Idempotent` follows the code, which repeats GET, HEAD and OPTIONS; section 9.2.2 of RFC 9110 also
  counts PUT and DELETE, which the code treats like POST (app/integrations/http_retry.py:107).

## Model

| member | source | states |
|---|---|---|
| `PoolTheorems.NoWorkerIsLost` | app/core/database.py:966-1007 | In every reachable state, whatever was cancelled in a handshake, a rollback or a close: a running worker has been told to stop, or its connection is registered as started and in the hands of the pool it was opened for, which is to say live there, inside its handshake, or being closed. |
| `PoolTheorems.NoEntryIsLeft` | app/core/database.py:1084-1100 | In every reachable state each entry of the registry is for a connection its pool still has in hand: none outlives a disposal, however that ended. |
| `PoolWorld.InHandAfter` | app/core/database.py:1050-1121 | No operation of a pool lets go of a connection it had live, opening or closing, unless it deregisters that connection. |
| `PoolTheorems.LentOnce` | app/core/database.py:1050-1100 | In every reachable state and any two pools, or one: free slots, granted ones and slot holders add up to the size; no connection of a use is idle anywhere; no two uses have the same; and no connection is idle twice. |
| `PoolTheorems.OpenPoolsStayWithinTheirSize` | app/core/database.py:1050-1082 | In every run, an open pool in which no rollback was cancelled so far has at most its size of connections, live and being opened together. |
| `PoolTheorems.OpenPoolsAreBounded` | app/core/database.py:1050-1082 | In every reachable state an open pool's live connections and those still being opened are at most its size plus what cancelled rollbacks leaked. |
| `PoolTheorems.NothingLeaked` | app/core/database.py:1063-1082 | In every run, an open pool in which no rollback was cancelled so far has leaked nothing. |
| `PoolTheorems.ResetLeavesOnlyPendingOpeners` | app/core/database.py:1376-1389 | In any run, a worker the test reset has not told to stop is for a connection whose opener's task is pending on a running loop and which its pool has in hand; where that pool was registered until then, the connection is not even live but inside its handshake or being closed. |
| `PoolTheorems.ResetWithoutLoopsEndsEveryWorker` | app/core/database.py:1376-1389 | In any run, after a test reset with no loop running every worker has been told to stop. |
| `PoolTheorems.ToldWorkersEnd` | app/core/database.py:1124-1163 | Where every worker has been told to stop, all of them can end by themselves, with no loop's help, until none runs. |
| `PoolTheorems.ForeignStepSpares` | app/core/database.py:1182-1256 | No step of another loop or another use (prune, sweep, close, abandoning a doomed pool, a worker ending) stops a connection that is borrowed from a registered pool on a loop that is not closed, or is still in its handshake on a running one, or takes that standing away; its own loop may even be parked and run again under a borrower, and be reaped where it runs. |
| `PoolTheorems.BorrowersAreLeftAlone` | app/core/database.py:1337-1373 | The same over a run: as long as only others act, such a connection keeps its worker, which nobody tells to stop, and its place in the registry, on a parked loop too. |
| `PoolTheorems.SweepSpares` | app/core/database.py:1216-1230 | A connection somebody relies on is no orphan for either kind of sweep. |
| `PoolTheorems.PruneTakesTheClosed` | app/core/database.py:1246-1255 | A prune takes from the registry the pools of exactly the closed loops, to be abandoned, and changes nothing else. |
| `PoolTheorems.ReapTakesTheStopped` | app/core/database.py:1367-1373 | Closing all pools takes from the others exactly the pools of loops that do not run. |
| `PoolTheorems.CurrentPoolIsCurrent` | app/core/database.py:1287-1322 | Whoever asks for a pool gets an open one of its own loop on the current database: the one it has if it is that, else an empty new one, when the old one is left to be abandoned. |
| `PoolTheorems.OutsideEvents` | app/core/database.py:1182-1230 | What can happen around the pools: a loop runs, is parked, or is closed for good; a task is done unless it is inside a handshake; the database path changes. |
| `PoolTheorems.CancelledRollbackOverflows` | app/core/database.py:1073-1082 | A concrete run of a pool of one: after a cancelled rollback the pool can be taken over its size. |
| `PoolTheorems.RunKeepsInv` | app/core/database.py:1010-1031 | Every reachable state of all loops and pools satisfies the invariant. |
| `PoolCounts.LiveAndOpeningBounded` | app/core/database.py:1050-1061 | In an open sound pool, live and opening connections are disjoint and together at most size plus leaked. |
| `PoolCounts.BoundedExactlyWithoutLeaks` | app/core/database.py:1050-1082 | An open pool stays within its size under all continuations by ordinary operations if and only if no connection has been leaked. |
| `PoolCounts.LeakOverflows` | app/core/database.py:1073-1082 | From any open pool with a leak there is a run of ordinary operations that takes it over its size. |
| `PoolCounts.Drain` | app/core/database.py:1063-1082 | From any sound open pool there is an ordinary run that ends every use and gives every slot back. |
| `PoolState.StepKeepsSound` | app/core/database.py:1050-1121 | Every operation of a pool, open or closed, keeps slots and holders adding up to the size and each connection in one place. |
| `PoolState.StepKeepsSoundOpen` | app/core/database.py:1066-1080 | While a pool is open, what is idle or lent stays live. |
| `PoolState.OnlyCancelledRollbacksLeak` | app/core/database.py:1073-1082 | An operation adds to the leaked connections exactly the connection of a rollback cancelled in an open pool, and nothing otherwise. |
| `PoolWorld.StepKeepsInv` | app/core/database.py:1182-1389 | Every event, on any loop, keeps the invariant over pools, registry and workers. |
| `PoolWorld.PoolStepKeepsApart` | app/core/database.py:1050-1100 | No operation makes two pools refer to one connection. |
| `PoolWorld.ResetKeeps` | app/core/database.py:1376-1389 | The test reset keeps the invariant. |
| `Database.ConnectionPool.TakeSlot` | app/core/database.py:1050-1053 | Granting a slot is the pool's step for it. |
| `Database.ConnectionPool.Serve` | app/core/database.py:1053-1058 | With a slot, the newest idle connection is lent, else one is begun to be opened. |
| `Database.ConnectionPool.Opened` | app/core/database.py:1056-1061 | A finished opening joins the live set; a failed one gives its slot back. |
| `Database.ConnectionPool.Release` | app/core/database.py:1063-1082 | A return goes to disposal when the pool is closed, to a rollback when a transaction is open, and else back to idle with its slot. |
| `Database.ConnectionPool.RolledBack` | app/core/database.py:1073-1082 | What each end of the rollback leaves: idle, disposed of, or (cancelled) live and nowhere. |
| `Database.ConnectionPool.Close` | app/core/database.py:1102-1107 | The pool closes and its idle connections wait to be disposed of. |
| `Database.ConnectionPool.DisposeNext` | app/core/database.py:1084-1107 | The next idle connection leaves the live set and begins to be closed. |
| `Database.ConnectionPool.DisposedOne` | app/core/database.py:1084-1107 | One disposal's end, and what a cancellation there leaves. |
| `Database.ConnectionPool.Disposed` | app/core/database.py:1066-1082 | The end of a disposal inside `release` frees the slot. |
| `Database.ConnectionPool.Forget` | app/core/database.py:1109-1121 | Abandoning empties the live and idle sets and closes the pool. |
| `Database.Globals.StopConnection` | app/core/database.py:1124-1163 | The connection leaves the registry and its worker is told to stop, and nothing else changes. |
| `Database.Globals.Acquire` | app/core/database.py:1050-1061 | Taking a connection with a granted slot is one step of the whole system, the registration of a new worker with it. |
| `Database.Globals.HandshakeEnds` | app/core/database.py:988-1007 | The end of a handshake is one step: the connection joins the pool, or its worker is stopped and its slot given back. |
| `Database.Globals.DisposalEnds` | app/core/database.py:1084-1100 | However a disposal ends, the connection is deregistered, in one step with its slot. |
| `Database.Globals.SweepOrphans` | app/core/database.py:1182-1230 | The loop over the registry stops exactly the orphans of `Database.OrphansAre`. |
| `Database.OrphansAre` | app/core/database.py:1214-1230 | An orphan is live in no registered pool; and its loop is closed or, in a full sweep, does not run, or the task that opened it is done. |
| `Database.Globals.Abandon` | app/core/database.py:1109-1121 | Abandoning a pool deregisters every connection in its live set and tells its worker to stop. |
| `Database.Globals.AbandonEach` | app/core/database.py:1254-1255 | Abandoning a set of pools one by one, in any order, comes to abandoning all of them. |
| `Database.Globals.PruneDeadPools` | app/core/database.py:1246-1256 | After it a loop that was registered still is if and only if it is not closed; whatever was live in a pool of a closed loop is told to stop and deregistered. |
| `Database.PrunedStops` | app/core/database.py:1246-1256 | A prune stops exactly what is live in a pool of a closed loop, and what was opened on a closed loop and is live in no pool that stays registered. |
| `Database.Globals.CurrentPool` | app/core/database.py:1287-1322 | The method returns the loop's own open pool on the current path; where it has to make one, it prunes first and abandons the one it replaces. |
| `Database.Globals.TakeDeadPools` | app/core/database.py:1246-1252 | Exactly the pools of loops that are closed leave the registry, and they are the ones handed over to be abandoned. |
| `Database.Globals.ResetForTests` | app/core/database.py:1376-1389 | The synchronous reset comes to the system's reset step, and of the pools waiting to be abandoned only those that were registered are done with. |
| `Database.AbandonManyStepByStep` | app/core/database.py:1246-1256 | Abandoning many pools is abandoning them one after another. |
| `Migrations.DatabaseMatchesItsVersion` | app/core/database.py:1406-1471 | With any number of processes interleaved and failing anywhere, the content always equals the bodies up to the stored version, each once and in order. |
| `Migrations.VersionNeverDecreases` | app/core/database.py:1406-1471 | Over any run the stored version never goes down. |
| `Migrations.FinishedMeansMigrated` | app/core/database.py:1406-1471 | When any process has finished, every migration has been applied, whoever applied it. |
| `Migrations.CanFinish` | app/core/database.py:1406-1471 | From any reachable state, a process that holds the transaction or finds none open can come to its end by its own steps, with every migration applied. |
| `Migrations.OnlyCommitsApply` | app/core/database.py:1453-1466 | A commit adds exactly the body of its migration and sets its version; no other step changes the content or the version. |
| `Migrations.FailingAnywhere` | app/core/database.py:1457-1465 | A process may fail at every point until it is done, and takes only its own transaction with it. |
| `Migrations.StepKeepsInv` | app/core/database.py:1418-1464 | Each step of any process keeps the invariant: what the owner of the transaction sees is the committed content and a part of one body. |
| `Migrations.ScriptGrows` | app/core/database.py:1427-1461 | The content for the next migration's version is the content so far and exactly its body. |
| `Migrations.Database.RunMigrations` | app/core/database.py:1406-1471 | One process among others, with its second read of the version under the lock, its transaction and its rollback: the committed content matches the version also where a statement fails, no transaction stays open, and success means every migration is reached. |
| `Migrations.Database.Apply` | app/core/database.py:1436-1456 | Executing the statements one by one adds the whole body to the transaction, unless one of its statements fails. |
| `Remediation.LatestRowTakesTheNewId` | app/core/database.py:171-200 | After the whole migration, of an owner's rows under a new id or any of its old ids, one updated last holds the new id. |
| `Remediation.MigratedKeepsRows` | app/core/database.py:203-236 | No row is added, lost or changed except in its id, and the pair of owner and id stays unique. |
| `Remediation.OtherRowsStay` | app/core/database.py:203-225 | A row under an id that is neither an old nor a new one of the map is untouched. |
| `Remediation.MigratingAgainChangesNothing` | app/core/database.py:203-236 | For every table and every rename map whose new ids are not old ids, running again changes nothing. |
| `Remediation.RenamedKeepsUnique` | app/core/database.py:171-200 | Renaming for some owners and not yet for others leaves the pair unique. |
| `Remediation.SwappedTogether` | app/core/database.py:190-200 | An owner's row under the old id and its row under the new one swap exactly when the old id's was updated later. |
| `Remediation.RenamedIsSettled` | app/core/database.py:171-200 | Whatever keeps an old id after a rename does so beside a row under the new id that was updated no earlier. |
| `Remediation.SettledStays` | app/core/database.py:218-236 | A later rename does not unsettle an earlier one, also where both have the same new id. |
| `Remediation.AdvisorRenamesAreApart` | app/reports/recommendations.py:964-984 | The shipped renames are such a map: each old id once, no new id an old one, none the placeholder. |
| `Remediation.RemediationItems.Update` | app/core/database.py:188-200 | One UPDATE, which requires the constraint to hold when it is done. |
| `Remediation.RemediationItems.MoveRow` | app/core/database.py:171-200 | Moving one row, through the placeholder where two swap, meets the constraint at every UPDATE and comes to the rename for that owner. |
| `Remediation.RemediationItems.MoveAll` | app/core/database.py:218-225 | The loop over the rows selected before it, in any order, comes to the rename for every owner. |
| `Remediation.Findings.KeyOnCategory` | app/core/database.py:203-236 | The whole migration over the three tables comes to what its renames say of each. |
| `Remediation.FreeingAgainChangesNothing` | app/core/database.py:226-236 | A ticket keeps an old id only where the new one is taken, and a second run changes nothing. |
| `Remediation.AllFreedKeepsRows` | app/core/database.py:226-236 | Tickets and operations keep their rows and stay unique, and rows under no old id are untouched. |
| `Remediation.FreedExactly` | app/core/database.py:226-236 | One rename gives a ticket or operation under the old id the new one, unless the same owner has a row under that, and touches no other. |
| `Rotation.EachTokenRotatesOnce` | app/core/auth.py:539-587 | Over any interleaving of requests, no two requests that presented one token are both answered "rotated". |
| `Rotation.OnlyRotationChangesTheHash` | app/core/auth.py:569-579 | A session's stored hash changes only by the swap of a request that presented it, to that request's replacement, and the request is answered "rotated" if and only if it is not cancelled inside its commit. |
| `Auth.ALostCommitCostsTheToken` | app/core/auth.py:577-587 | At every later time of any run with such a cancellation, nobody who presented the token the browser still holds is rotated; and a request that comes with it and runs alone is refused for want of a live session, or gets "grace" within the window from the commit, or ends the session, which it always does after the window. |
| `Rotation.RetiredForGood` | app/core/auth.py:539-587 | A token that no session stores and no waiting request would bring in stays so over any run, and whoever presented it and is rotated later was rotated before. |
| `Rotation.SwapRetires` | app/core/auth.py:569-577 | A swap that finds the token it compares with retires it, also where its commit is cancelled. |
| `Rotation.RetiredOutlivesItsGrace` | app/core/auth.py:523-536 | Over any run, whatever is remembered meanwhile, a retired token is within no session's grace window once that time has passed since it was retired. |
| `Auth.ALostCommitChangesTheHash` | app/core/auth.py:569-579 | A concrete run from an empty store to such a cancellation: the session's hash has changed and nobody is rotated. |
| `Auth.ALostCommitSignsTheUserOut` | app/core/auth.py:581-587 | It goes on: thirty seconds later the browser's retry with the token it has ends the session. |
| `Rotation.NoTokensAfterDeletion` | app/core/auth.py:437-467 | Once a session's row is deleted, no later swap or re-check answers "rotated" or "grace" for it. |
| `Rotation.LogoutIsForGood` | app/core/auth.py:437-467 | From a logout, a revocation or a password change that does not keep the session on: no request of the session that had no answer yet gets "rotated" or "grace". |
| `Rotation.NothingAfterExpiry` | app/core/auth.py:561-583 | Over any stretch of a run in which the wall clock is at or past a session's expiry, only a request already at its swap can be rotated, and none gets "grace", however far it had come. |
| `Rotation.PasswordChangeEnds` | app/core/auth.py:460-467 | A password change ends the user's sessions but the kept one, and nobody else's. |
| `Rotation.GoneRunStaysGone` | app/core/auth.py:437-467 | A deleted session never comes back. |
| `Rotation.StepKeepsInv` | app/core/auth.py:523-587 | Every step of any request, of a logout, of a password change and of the clock keeps the invariant. |
| `RotationDuplicates.OneSwapTakesEffect` | app/core/auth.py:523-587 | If any number of requests present the current token, nothing else touches the session, it does not expire and all end within the grace window, then in every interleaving, wherever any of them is cancelled: no swap took effect and nobody is answered, or exactly one did. Its request alone is answered "rotated", or nobody is if it was cancelled inside its commit; every other answer is "grace", and the session survives. |
| `RotationDuplicates.OneDuplicateRotates` | app/core/auth.py:523-587 | Where moreover none is cancelled inside a commit that took effect: once all that are left have their answers, exactly one is rotated and the others get grace. |
| `RotationDuplicates.StepKeepsDuplicates` | app/core/auth.py:564-583 | What each step of such a run keeps. |
| `Auth.AnswerAlone` | app/core/auth.py:539-587 | What a request gets and leaves when nothing interleaves: refused without a session of the user's that expires later than now; rotated with its current token; "grace" with the token last replaced, less than thirty seconds ago; and otherwise its session revoked. |
| `Auth.Store.RotateRefreshToken` | app/core/auth.py:539-587 | The method on the mutable store comes to the request's steps run to their end: an expired, missing or foreign session is refused and nothing changes, and what the store holds after each other answer. |
| `Auth.Store.RememberReplaced` | app/core/auth.py:523-529 | Entries thirty seconds old or older go, the others stay, and the session's entry is the hash and the time. |
| `Auth.Store.ValidateSession` | app/core/auth.py:489-498 | True exactly for a session that exists and expires later than now. |
| `Auth.Store.DeleteSession` | app/core/auth.py:437-444 | The row is gone and no other changes. |
| `Auth.Store.DeleteSessionsOf` | app/core/auth.py:460-467 | Exactly the user's sessions but the kept one are deleted and returned. |
| `Scanner.EnclosingQuote` | scripts/i18n_extract.py:244-306 | The loop ends and answers what the scan comes to at the position; `JavaScript.TheQuoteIsTheTrees` says what that is. |
| `JavaScript.TheQuoteIsTheTrees` | scripts/i18n_extract.py:244-306 | For the text of every syntax tree of code, comments, regular expressions, quoted literals and nested templates, and every position: the answer is the quote of the innermost literal that encloses the position in the tree, and none where none does. |
| `JavaScript.ScanCode` | scripts/i18n_extract.py:255-304 | Wherever such a text stands outside strings, the scan passes over it with its stack unchanged. |
| `Scanner.RunLineComment` | scripts/i18n_extract.py:272-275 | A line comment is passed over to its line's end or the file's, whatever quotes are in it. |
| `Scanner.RunBlockComment` | scripts/i18n_extract.py:276-279 | A block comment is passed over to just after the first asterisk and slash. |
| `Scanner.RunOpenComment` | scripts/i18n_extract.py:276-279 | One that is never closed is passed over to the end of the file. |
| `Scanner.RunRegex` | scripts/i18n_extract.py:280-289 | A slash after a character that ends no operand opens a regular expression, passed over to just after its first slash that is not escaped, or its line's end. |
| `Scanner.RunDivision` | scripts/i18n_extract.py:283-291 | A slash after a character that ends an operand, or after nothing, divides. |
| `Scanner.OperandEnds` | scripts/i18n_extract.py:284 | Those characters are the letters and digits of ASCII, underscore, dollar, closing parenthesis and closing bracket. |
| `Scanner.SkipRegex` | scripts/i18n_extract.py:285-288 | The inner loop ends after the regular expression's closing slash, its line, or the file. |
| `Scanner.PlainQuotesAreOnTop` | scripts/i18n_extract.py:253-304 | In every state of the scan a single or double quote is on top of the stack if it is on it at all. |
| `Scanner.RunInTwoParts` | scripts/i18n_extract.py:255-304 | Scanning to a position is scanning to an earlier one and on from there. |
| `Scanner.RunInPrefix` | scripts/i18n_extract.py:255-304 | From inside a string the scan up to a point depends on nothing after it, although comments and regular expressions look ahead. |
| `Scanner.RunInSuffix` | scripts/i18n_extract.py:255-304 | What follows scans the same after two different beginnings that leave the same stack and the same last character for the regular-expression test. |
| `Scanner.PlainTextStaysInside` | scripts/i18n_extract.py:258-271 | Text without quotes, backslashes or template openings stays inside any string. |
| `Scanner.RunInside` | scripts/i18n_extract.py:258-271 | Scanning such text in a string leaves the stack as it was. |
| `Scanner.RunTemplateCall` | scripts/i18n_extract.py:266-303 | A call spliced into a template literal opens and closes one level and comes back to the stack. |
| `Scanner.RunConcatCall` | scripts/i18n_extract.py:258-295 | A call concatenated into a quoted string closes and reopens it and comes back to the stack. |
| `I18nRewrite.SpliceKeepsQuotes` | scripts/i18n_extract.py:340-355 | After the splice, positions up to the match and all positions after it keep their whole stack, in single-quoted, double-quoted and nested template strings, and the call itself is code. |
| `I18nRewrite.SpliceRuns` | scripts/i18n_extract.py:346-355 | The scan leaves the spliced part with the stack it had when it left the replaced part. |
| `I18nRewrite.ConcatCallInTemplateIsText` | scripts/i18n_extract.py:247-251 | The form for quoted strings, put into a template literal, would be text and not a call: why the enclosing quote decides the form. |
| `I18nRewrite.QuoteInTextMovesWhatFollows` | scripts/i18n_extract.py:340-355 | The condition on the text is needed: with an enclosing quote in it, what follows changes sides. |
| `I18nRewrite.SearchMatches` | scripts/i18n_extract.py:340-341 | What the search returns is a match of the pattern. |
| `I18nRewrite.SearchFindsFirst` | scripts/i18n_extract.py:340-341 | It finds a match if there is one, none starts earlier, and of those that start there it is the one with the most white space before the text. |
| `I18nRewrite.RewrittenIs` | scripts/i18n_extract.py:340-355 | A row is rewritten exactly when its text's first occurrence is inside a string, and then to the call with the row's own key in the form for that quote, between the white space that was there, with everything else unchanged. |
| `I18nRewrite.RewriteKeepsEnd` | scripts/i18n_extract.py:336-369 | However many plain rows are applied, the scan ends the file with the same stack. |
| `I18nRewrite.OneRowMore` | scripts/i18n_extract.py:336-369 | Each row is applied, or skipped and not counted, in the text that the rows before it have left. |
| `I18nRewrite.ApplyRows` | scripts/i18n_extract.py:332-372 | The loop over the rows comes to all rewrites in order, counts as applied exactly the rows rewritten, and plain rows keep the file's ending stack. |
| `MasterKeyRuns.AtMostOneKeyIsMinted` | app/core/encryption.py:338-444 | Over any run of starts and imports with changing host, secret, keyring and disk failures, crashing between any two writes, at most one key of the program's own making reaches the disk. |
| `MasterKeyRuns.EveryAnswerIsTheMintedKey` | app/core/encryption.py:338-444 | From the first run on, without imports and an operator's key, every key anyone is handed is the one minted, whatever the host, secret and keyring do and whichever backups are damaged. |
| `MasterKeyRuns.ResolvingKeepsShutBackups` | app/core/encryption.py:153-217 | Resolving the key never changes a backup that does not open here, wherever it crashes. |
| `MasterKeyRuns.ShutBackupsSurvive` | app/core/encryption.py:153-217 | Over a whole run without imports, a backup that opens at none of its starts is unchanged at the end. |
| `MasterKeyRuns.CopiesAreWrittenOnce` | app/core/encryption.py:611-632 | A preserved copy, once written, stays what it is over any run. |
| `MasterKeyRuns.ImportPreservesFirst` | app/core/encryption.py:611-634 | Wherever an import crashes, a backup it has replaced that opened has its copy: the one from before, or else the backup itself. |
| `MasterKeyRuns.ReplacedBackupsSurvive` | app/core/encryption.py:611-634 | Over any run, a backup that opened and had no copy when an import replaced it is in its copy at every later time. |
| `MasterKeyRuns.ResolveWrites` | app/core/encryption.py:193-217 | Resolving writes only backups that are absent or open, and no copies. |
| `MasterKeyRuns.ResolveDealsInOneKey` | app/core/encryption.py:364-444 | One start writes and answers one key: stored, restored, or minted where nothing was found. |
| `MasterKey.WhoIsAnswered` | app/core/encryption.py:338-444 | For every disk and surroundings, which key a start is answered and when it is refused: the operator's; else the keyring's; else that of the first backup that opens; else a new one where there is no backup at all; the last three if and only if a configured secret and some free or opening location take the save. |
| `MasterKey.WhenAnImportIsTaken` | app/core/encryption.py:579-640 | An import is taken if and only if the text is a key, a location takes it under a configured secret, and every backup that opens has its copy or gets it. |
| `MasterKey.WhatOpens` | app/core/encryption.py:221-269 | A backup opens under its own secret, on its own host, or anywhere if it is not wrapped; reading one raises exactly where it needs a secret that is configured and unusable. |
| `MasterKey.SavesSomewhere` | app/core/encryption.py:153-217 | A save goes through exactly with a configured secret and a location that takes the write and is free or opens, or is overwritten by force. |
| `MasterKey.OrderOfWrites` | app/core/encryption.py:391-441 | A restored key goes to the keyring before the files are rewritten, a new one to the files before the keyring. |
| `MasterKey.OrderOfAnImport` | app/core/encryption.py:611-640 | An import writes its copies before any backup, and the keyring last. |
| `Encryption.TheSameKeyNextTime` | app/core/encryption.py:338-444 | The next start on the same host under the same secret gets the key of this one, unless no location takes its save or the keyring holds an older key that this start could neither read nor write. |
| `Encryption.AfterAnAnswer` | app/core/encryption.py:379-444 | What a start that got its key leaves at each location and in the keyring. |
| `MasterKey.SaveWrites` | app/core/encryption.py:193-215 | Exactly which locations a save writes, and what. |
| `MasterKey.PreserveWrites` | app/core/encryption.py:611-632 | Copies are made only of backups that open and have none, and when all went well of every one. |
| `MasterKey.RestoredShut` | app/core/encryption.py:272-291 | Nothing is restored exactly when no backup opens. |
| `MasterKey.OnlyWhatIsWritten` | app/core/encryption.py:127-145 | After any prefix of an operation's writes, a location holds what it had or what one of them gave it. |
| `Encryption.WhenTheImportedKeyComesBack` | app/core/encryption.py:579-640 | A later start under the same secret gets the imported key if and only if the keyring it reads took the import or had nothing else, and otherwise no location before the first one written still opens with another key. |
| `Encryption.AStaleKeyringUndoesAnImport` | app/core/encryption.py:383-388 | A concrete run in which an import is undone and its key is in no file any more. |
| `Encryption.ImportedFile` | app/core/encryption.py:634-636 | After an import that was taken, each location holds the key under the secret, or what it had if its write failed. |
| `Encryption.KeyStore.SaveKeyBackups` | app/core/encryption.py:153-217 | The loop over the locations makes exactly the specified writes and succeeds if there was one. |
| `Encryption.KeyStore.TryRestore` | app/core/encryption.py:272-281 | The first backup that opens, or that raises, decides. |
| `Encryption.KeyStore.UnreadableBackups` | app/core/encryption.py:284-291 | Exactly the files that exist and do not open; none when there is no file at all. |
| `Encryption.KeyStore.GetOrCreate` | app/core/encryption.py:338-444 | The chain with its early returns makes exactly the specified writes, in order, with the outcome and cached key that `MasterKey.WhoIsAnswered` spells out. |
| `Encryption.KeyStore.PreserveBackups` | app/core/encryption.py:611-632 | The loop that preserves backups makes exactly the specified copies and refuses at the first that fails. |
| `Encryption.KeyStore.ImportMasterKey` | app/core/encryption.py:579-640 | The import makes exactly the specified writes, in order, and adopts the key only after they went through. |
| `MfaRuns.WrongCodesAreBounded` | app/core/mfa.py:92-126 | On an enabled account, any stretch without a success whose clock readings lie within D seconds looks at no more than 5 + floor(D / 300) wrong codes. |
| `MfaRuns.LockedThroughout` | app/core/mfa.py:121-125 | After n wrong codes the failures are at least n and the lock reaches as far as the bound needs. |
| `MfaRuns.AcceptedStepsIncrease` | app/core/mfa.py:104-142 | Of two one-time codes accepted between an enrolment and a removal, the enrolment's own included, the later is for a later time step, so none is accepted twice. |
| `MfaRuns.RecoveryCodesWorkOnce` | app/core/mfa.py:116-143 | Until the second factor is removed, no recovery code is accepted twice. |
| `MfaRuns.OnlyDrawnCodesRecover` | app/core/mfa.py:134-143 | After an enrolment only codes drawn for it are accepted as recovery codes. |
| `MfaRuns.EnabledStep` | app/core/mfa.py:58-60 | An enabled account keeps its secret, and its last counter moves only to an accepted step, over every event but removal. |
| `MfaRuns.StepKeepsClean` | app/core/mfa.py:131-143 | Every event keeps the stored recovery codes distinct, and one that was used does not come back. |
| `Mfa.CodeIsSixDigits` | app/core/mfa.py:32-37 | A code is six digits and reads back as the big-endian number of the four bytes at the digest's own offset, without its highest bit, modulo a million. |
| `Mfa.TruncatedIsBigEndian` | app/core/mfa.py:35-36 | Dynamic truncation is the four bytes at the offset in the digest's last four bits, read most significant first, without the highest bit. |
| `Mfa.ExampleOfTheStandard` | app/core/mfa.py:32-37 | The digest of section 5.4 of RFC 4226 gives the code 872921. |
| `MfaRuns.MatchIsNew` | app/core/mfa.py:104-112 | A matched step is later than the last one, at most one ahead of now, and has this code. |
| `Mfa.UserMfa.FirstMatch` | app/core/mfa.py:114-121 | The search over the three steps around now comes to the specified match, which `Mfa.FoundWhereItFits` characterises. |
| `Mfa.FoundWhereItFits` | app/core/mfa.py:112-121 | A step is found if and only if one has this code, was not used before, and is no more than half a minute from now at either end; and it is the first such. |
| `Mfa.WhatVerifyDoes` | app/core/mfa.py:92-147 | When an attempt is looked at, when it succeeds, and the whole record either way: the step remembered, one recovery code taken away or new ones stored, failures forgotten or counted, five minutes' lock at the fifth. |
| `Mfa.Account.Verify` | app/core/mfa.py:92-147 | The method on the record comes to the record and answer of `Mfa.WhatVerifyDoes` in every branch. |
| `Mfa.Account.BeginEnrollment` | app/core/mfa.py:47-74 | An enabled record is refused and untouched; another gets a new secret, and an existing one its counters back. |
| `Redact.OutputHasNoLongRun` | app/core/redact.py:53-67 | No output has a run of 24 or more token characters. |
| `Redact.WhatCanSurvive` | app/core/redact.py:53-67 | For any supplied secret of at least six characters: some text and some further secrets have an output that still holds it, if and only if it has no run of 24 token characters and touches the mask (a piece of it, around it, or overlapping it at either side). |
| `Redact.SecretsAreGone` | app/core/redact.py:53-67 | Such a secret without an asterisk is in no output, for any text and any other secrets, if and only if it is not a piece of the mask's word. |
| `Redact.ASecretWithAsterisksCanSurvive` | app/core/redact.py:62-66 | A concrete text and secret with asterisks where masking puts the secret together again. |
| `Redact.ShapingAgainChangesNothing` | app/core/redact.py:42-67 | The shape pass is idempotent. |
| `Redact.RedactingAgainChangesNothing` | app/core/redact.py:53-67 | Redacting twice is redacting once, where no known secret can survive redaction. |
| `Redact.HarmlessTextIsKept` | app/core/redact.py:53-67 | Text with no known secret and no long run comes back unchanged. |
| `Redact.MaskedHasNone` | app/core/redact.py:62-67 | One pass leaves no occurrence of a string all of whose places match, and brings none about across the masks it inserts. |
| `Redact.Redact` | app/core/redact.py:53-67 | The loop over the known secrets and the shape pass come to the specified text. |
| `Redact.KnownSecretsFirst` | app/core/redact.py:60-67 | The known secrets of six characters or more are masked one after the other, each in what the ones before it left, and runs at the end. |
| `Redact.FirstSecretIsMasked` | app/core/redact.py:64-66 | The first occurrence of a secret becomes the mask, what is before it stays, and what is after it is treated as a text of its own. |
| `Redact.FirstRunIsMasked` | app/core/redact.py:42-67 | The first run of 24 token characters or more becomes the mask, whole and with up to two signs of padding; what is before it stays and what is after it is treated for itself. |
| `Redact.TokenCharacters` | app/core/redact.py:42 | Token characters are the letters and digits of ASCII, the hyphen and the underscore. |
| `JobState.AChoiceIsKeptExactly` | app/core/job_state.py:95-104 | For every history, a tab's choice is in the map exactly when it was made and fewer than 32 of the user's other keys have been selected since; then it is the last one made. |
| `JobState.OthersNeverEvict` | app/core/job_state.py:102-104 | What other users select changes nothing for this one. |
| `JobState.TabsAreTheNewest` | app/core/job_state.py:99-104 | A user's part of the map is the newest 32 entries of the map without a limit, in order. |
| `JobState.AfterAreSince` | app/core/job_state.py:100-102 | The keys behind a key in recency order are the ones selected since. |
| `JobState.Jobs.SelectTab` | app/core/job_state.py:95-104 | The map after a selection is the specified one for the longer history. |
| `JobState.Jobs.BeginUserAudit` | app/core/job_state.py:107-112 | A fresh running audit becomes the customer's latest and the tab's choice. |
| `JobState.Jobs.SelectUserAudit` | app/core/job_state.py:115-133 | A choice from history goes to the tab where there is one, and else to the customer. |
| `JobState.Jobs.GetUserAudit` | app/core/job_state.py:136-146 | The answer, in terms of the selection history, and that it is always a run of this user and this customer. |
| `PolicyPlan.Selection.Include` | app/core/policy_library.py:117-121 | Ends on cycles; adds what the policy depends on and what that does, and nothing a closed set would not have. |
| `PolicyPlan.Selection.IncludeAll` | app/core/policy_library.py:114-124 | Whatever the iteration order, the result is the least dependency-closed superset of what was chosen. |
| `PolicyPlan.OneClosure` | app/core/policy_library.py:114-124 | There is only one such set. |
| `PolicyPlan.OneOrder` | app/core/policy_library.py:128 | And only one order in which its policies are stored. |
| `PolicyPlan.PlanFile.SavePlan` | app/core/policy_library.py:102-130 | When a selection is refused, when a revision conflicts, and that otherwise package and closure are stored, in order, at the next revision, with the reviews as they were. |
| `PolicyPlan.PlanFile.SaveReview` | app/core/policy_library.py:133-166 | When a review is refused, its note stripped of white space first, when a revision conflicts, and that otherwise the policy's review is stored or taken away at the next revision, with package and policies as they were. |
| `PolicyPlan.PlanFile.Save` | app/core/policy_library.py:93-99 | A plan is replaced only at the revision quoted, by its next revision. |
| `PolicyPlan.NoTwoWritesOfOneRevision` | app/core/policy_library.py:80-99 | Over any interleaving of savers, dying anywhere, two who quoted one revision never both succeed. |
| `PolicyPlan.TheFileIsEveryEditInOrder` | app/core/policy_library.py:80-130 | No edit is lost: the file is the successful savers' edits, each on what the one before left, the n-th quoting revision n. |
| `PolicyPlan.LastChoiceHolds` | app/core/policy_library.py:125-130 | What the edits of a file come to: its package and policies are those chosen last. |
| `PolicyPlan.LastReviewHolds` | app/core/policy_library.py:151-166 | And each policy's review is the one given last, none where there was none or the last took it away. |
| `PolicyPlan.WhoseWriteSucceeds` | app/core/policy_library.py:80-99 | A saver under the lock succeeds exactly at the revision it quoted, and its edit is the next; else the file is untouched. Done or dead, it leaves the lock free. |
| `PolicyPlan.SavingAlone` | app/core/policy_library.py:80-99 | A saver that finds the lock free and is not overtaken gets through to its answer. |
| `PolicyPlan.NobodyElseLocks` | app/core/policy_library.py:80-90 | While one saver has the lock no other gets it. |
| `Text.SpaceAroundIsNothing` | app/core/policy_library.py:145 | Stripping takes all white space off either end and leaves what is between. |
| `Text.StrippedOfSpace` | app/core/policy_library.py:145 | And it takes nothing else off. |
| `Text.WhiteSpace` | app/core/policy_library.py:145 | White space, by code points, is what the string methods take it to be. |
| `PolicyPlan.StepKeepsInv` | app/core/policy_library.py:80-99 | Every step of any saver keeps the invariant, and writes are only ever added. |
| `Retry.SendWithRetry` | app/integrations/http_retry.py:91-156 | All sends but the last could be repeated, the last decides the result as specified, and between sends it waits what the backoff says. |
| `Retry.OneEnding` | app/integrations/http_retry.py:110-156 | What a call meets decides how many sends it makes and how it ends. |
| `Retry.WhatACallComesTo` | app/integrations/http_retry.py:107-156 | Which sends are followed by another and how the last decides the result, by what each met: a 429 and what never left always, a server error and an error after sending only for a repeatable method. |
| `Retry.RepeatableMethods` | app/integrations/http_retry.py:107 | The repeatable methods are GET, HEAD and OPTIONS, in whichever case they are written. |
| `Retry.WaitsDouble` | app/integrations/http_retry.py:77-88 | Without a figure of the server's the waits are one, two, four, eight and sixteen seconds, each with its jitter, and thirty from then on. |
| `Retry.ProcessedAtMostOnce` | app/integrations/http_retry.py:53-60 | A request that is not idempotent is processed at most once in a call, and nothing is sent after a send that may have been processed. |
| `Retry.NoFailureIsReturned` | app/integrations/http_retry.py:138-154 | No caller is handed a 429, nor one with an idempotent method a server error. |
| `Retry.GivingUpEarly` | app/integrations/http_retry.py:119-128 | A call gives up with attempts left only on a request that may have gone through and must not be repeated; it answers exactly when a send before the limit meets a final response first. |
| `Retry.Backoff` | app/integrations/http_retry.py:77-88 | Never more than 30 seconds; the server's figure where it gives one, else at least a second. |
| `RmmMatching.EveryShownMatchIsSound` | app/integrations/rmm.py:130-197 | After all three passes a match is the host-name match, untouched, or a MAC match of a device without one, the only one its own lookups on this page found in the site; and no other device shows the same RMM device. |
| `RmmMatching.NoUidAnswersTwice` | app/integrations/rmm.py:188-197 | No RMM uid answers for two of the customer's devices. |
| `RmmMatching.CancelledExactlyForTwoClaims` | app/integrations/rmm.py:188-197 | A match survives if and only if no other device claims the same RMM device. |
| `RmmMatching.NameMatchesAreUnique` | app/integrations/rmm.py:130-146 | A host-name match was the only RMM device with that whole, non-empty name. |
| `RmmMatching.HostVerdict` | app/integrations/rmm.py:117-146 | The host-name verdict of a device: matched with exactly one RMM device of the same stripped and folded name, ambiguous with several and their number, not found with none or without a name. |
| `RmmMatching.MacVerdict` | app/integrations/rmm.py:163-185 | The MAC verdict: who is looked up and who is not checked, what a refused lookup stops, and that the number of different uids found in the site decides between none, one (with the device found last) and several. |
| `RmmMatching.ClaimVerdict` | app/integrations/rmm.py:188-197 | A match is itself after the claims unless several claim its RMM device; then it is ambiguous, without a device and with their number. |
| `RmmMatching.MacMatchesAreUnique` | app/integrations/rmm.py:171-185 | A MAC match is in the site, was found by a lookup, and every device of the site the lookups found has its uid. |
| `RmmMatching.MacPassLooksOnlyForTheUnfound` | app/integrations/rmm.py:165-170 | The MAC pass changes a device by its own turn alone, and leaves one with a host-name verdict as it is. |
| `RmmMatching.LookupsAreLimited` | app/integrations/rmm.py:163-175 | However many devices there are, no more than the limit of lookups is made. |
| `RmmMatching.MatchByHostname` | app/integrations/rmm.py:130-146 | The grouping loop and the matching loop give each device its specified match. |
| `RmmMatching.MatchByMac` | app/integrations/rmm.py:149-185 | The in-place pass comes to the specified matches and number of lookups. |
| `RmmMatching.MatchDevices` | app/integrations/rmm.py:130-197 | The three in-place passes, one after the other, come to what a page shows. |
| `RmmMatching.ClaimOnce` | app/integrations/rmm.py:188-197 | The in-place cancellation, in any order of the claims, comes to the specified matches. |

## Left out

- Real cryptography, SQLite, aiosqlite, httpx and the keyring: axioms, listed above.
- Restore mode (app/core/database.py:1259-1284): one flag that makes `_current_pool` refuse.
- The semaphore's queue: a waiting task gets a free slot or is cancelled; the order of waiters is not modelled.
- `PoolTheorems.ForeignStepSpares`: a sweep is one atomic step, although the code takes its ownership snapshot and its scan apart; `close_all_pools` is its sweep, its own close and the abandoning of stopped loops' pools as separate events.
- `Database.Globals.CurrentPool`: nothing comes in between its prune and its second look at the registry; as separate events they are interleaved with anything.
- `PoolTheorems.LentOnce`: a connection returned to a pool that was closed while its rollback was awaited joins that pool's idle list; it stays registered as started and is counted as idle.
- Tasks, threads and the interpreter's exit are plain data; when a worker that was told to stop ends is left open.
- `Migrations.DatabaseMatchesItsVersion`: a body is the list of its statements; what each statement does to the tables, and the splitting of a script at semicolons, are not modelled.
- Migration of unreadable network files (app/core/database.py:239-346) and the file-deleting migration (app/core/database.py:354-416): the first consults tickets it may have moved itself, the second has effects outside the transaction.
- `Remediation.Findings.KeyOnCategory`: an owner stands for a customer, or a customer and a ticket system; the bulk UPDATE of tickets and operations is one step; `updated_at` is its place in string order.
- Access-token blacklisting, the JWT secret cache and the password lockout: sequential helpers around the sessions.
- `Scanner.EnclosingQuote`: facts about this scanner and not about ECMAScript; its test for a regular expression is the code's heuristic.
- `JavaScript.TheQuoteIsTheTrees`: the trees have what the scanner tells apart and balanced braces; a slash divides or not by the character before it, as in the code, which is not ECMAScript's own rule.
- `I18nRewrite.ApplyRows`: the language dictionaries and the decoding of escapes are not modelled, nor the reading of the row file.
- `Encryption.KeyStore.GetOrCreate`: one process at a time; a backup whose key does not have 32 bytes counts as corrupt, and the wording of the refusal is not modelled.
- `MasterKeyRuns.AtMostOneKeyIsMinted`: a key that was drawn but reached no file is not counted as minted.
- `Mfa.Account.Verify`: the transaction is atomic, and times are real numbers.
- MFA step-up marks on sessions and `required_for`: one comparison each.
- `redact_mapping`: redaction of each value of a mapping.
- Subscribers and the terminal event of an audit run (app/core/job_state.py:57-80): a fan-out with no further state.
- `PolicyPlan.PlanFile.SavePlan`: an unreadable plan file raises before anything is written, and is not modelled; the catalogue's dependencies are closed, as the shipped one's are.
- `load_plan`'s staleness mark: a comparison of fingerprints and dates.
- `Retry.SendWithRetry`: waiting is a number and not time passing; the method's name is upper-cased for ASCII letters.
- `normalise_mac` and `on_agent_platform`: MACs come normalised. Case folding is a parameter of the matching, so what is proved holds of any.
